/** Strings in code point order and sorting by a string key, as `sorted` and `sort_keys` do it. */
module Ordering {

  predicate Before(a: string, b: string) {
    if b == [] then false
    else if a == [] then true
    else if a[0] != b[0] then a[0] < b[0]
    else Before(a[1..], b[1..])
  }

  /** The strings agree up to k, both go on, and a has the smaller character there. */
  predicate SmallerAt(a: string, b: string, k: nat) {
    k < |a| && k < |b| && a[..k] == b[..k] && a[k] < b[k]
  }

  /** `Before` is the order of a dictionary: a proper prefix first, else whoever has the smaller character. */
  ghost predicate Precedes(a: string, b: string) {
    (|a| < |b| && a == b[..|a|]) || exists k: nat :: SmallerAt(a, b, k)
  }

  lemma {:induction false} BeforeIsLexicographic(a: string, b: string)
    ensures Before(a, b) <==> Precedes(a, b)
  {
    if a != [] && b != [] && a[0] == b[0] {
      BeforeIsLexicographic(a[1..], b[1..]);
      PrecedesAfterHead(a, b);
    } else if a != [] && b != [] {
      if a[0] < b[0] {
        assert SmallerAt(a, b, 0);
      } else if k: nat :| SmallerAt(a, b, k) {
        if k > 0 { SmallerAtSharesHead(a, b, k); }
      }
    }
  }

  lemma SmallerAtSharesHead(a: string, b: string, k: nat)
    requires SmallerAt(a, b, k) && k > 0
    ensures a[0] == b[0]
  {
    assert a[..k][0] == b[..k][0];
  }

  lemma PrecedesAfterHead(a: string, b: string)
    requires a != [] && b != [] && a[0] == b[0]
    ensures Precedes(a, b) <==> Precedes(a[1..], b[1..])
  {
    var x, y := a[1..], b[1..];
    if k: nat :| SmallerAt(a, b, k) {
      assert k > 0 && x[..k - 1] == a[..k][1..] && y[..k - 1] == b[..k][1..];
      assert SmallerAt(x, y, k - 1);
    }
    if k: nat :| SmallerAt(x, y, k) {
      assert a[..k + 1] == [a[0]] + x[..k] && b[..k + 1] == [b[0]] + y[..k];
      assert SmallerAt(a, b, k + 1);
    }
    if |a| < |b| && a == b[..|a|] {
      assert x == b[..|a|][1..] == y[..|x|];
    }
    if |x| < |y| && x == y[..|x|] {
      assert a == [a[0]] + x && b[..|a|] == [b[0]] + y[..|x|];
    }
  }

  lemma {:induction false} BeforeIsStrict(a: string, b: string)
    ensures !(Before(a, b) && Before(b, a)) && !Before(a, a)
    ensures a != b ==> Before(a, b) || Before(b, a)
  {
    if a != [] && b != [] && a[0] == b[0] {
      BeforeIsStrict(a[1..], b[1..]);
      assert a == [a[0]] + a[1..] && b == [b[0]] + b[1..];
    }
    BeforeIrreflexive(a);
  }

  lemma {:induction false} BeforeIrreflexive(a: string)
    ensures !Before(a, a)
  {
    if a != [] {
      BeforeIrreflexive(a[1..]);
    }
  }

  lemma {:induction false} BeforeIsTransitive(a: string, b: string, c: string)
    requires Before(a, b) && Before(b, c)
    ensures Before(a, c)
  {
    if a != [] && a[0] == b[0] && b[0] == c[0] {
      BeforeIsTransitive(a[1..], b[1..], c[1..]);
    }
  }

  datatype Keyed<T> = Keyed(key: string, value: T)

  ghost predicate DistinctKeys<T>(s: seq<Keyed<T>>) {
    forall i, j :: 0 <= i < j < |s| ==> s[i].key != s[j].key
  }

  ghost predicate StrictlySorted<T>(s: seq<Keyed<T>>) {
    forall i, j :: 0 <= i < j < |s| ==> Before(s[i].key, s[j].key)
  }

  function Insert<T>(m: Keyed<T>, s: seq<Keyed<T>>): seq<Keyed<T>> {
    if s == [] then [m]
    else if Before(m.key, s[0].key) then [m] + s
    else [s[0]] + Insert(m, s[1..])
  }

  function Sort<T>(s: seq<Keyed<T>>): seq<Keyed<T>> {
    if s == [] then [] else Insert(s[0], Sort(s[1..]))
  }

  lemma InsertKeepsElements<T>(m: Keyed<T>, s: seq<Keyed<T>>, x: Keyed<T>)
    ensures x in Insert(m, s) <==> x == m || x in s
  {
    if s != [] && !Before(m.key, s[0].key) {
      InsertKeepsElements(m, s[1..], x);
      assert s == [s[0]] + s[1..];
    }
  }

  lemma SortKeepsElements<T>(s: seq<Keyed<T>>, x: Keyed<T>)
    ensures x in Sort(s) <==> x in s
  {
    if s != [] {
      SortKeepsElements(s[1..], x);
      InsertKeepsElements(s[0], Sort(s[1..]), x);
      assert s == [s[0]] + s[1..];
    }
  }

  lemma InsertKeepsOrder<T>(m: Keyed<T>, s: seq<Keyed<T>>)
    requires StrictlySorted(s) && forall x :: x in s ==> x.key != m.key
    ensures StrictlySorted(Insert(m, s))
  {
    if s != [] {
      BeforeIsStrict(m.key, s[0].key);
      if Before(m.key, s[0].key) {
        forall j | 0 <= j < |s| ensures Before(m.key, s[j].key) {
          if j > 0 { BeforeIsTransitive(m.key, s[0].key, s[j].key); }
        }
      } else {
        assert s[0] in s;
        InsertKeepsOrder(m, s[1..]);
        var rest := Insert(m, s[1..]);
        forall j | 0 <= j < |rest| ensures Before(s[0].key, rest[j].key) {
          InsertKeepsElements(m, s[1..], rest[j]);
          if rest[j] != m {
            assert rest[j] in s[1..];
            var k :| 0 <= k < |s[1..]| && s[1..][k] == rest[j];
            assert s[k + 1] == rest[j];
          }
        }
      }
    }
  }

  /** Sorting puts any sequence with distinct keys in strict order. */
  lemma SortOrders<T>(s: seq<Keyed<T>>)
    requires DistinctKeys(s)
    ensures StrictlySorted(Sort(s))
  {
    if s != [] {
      SortOrders(s[1..]);
      forall x | x in Sort(s[1..]) ensures x.key != s[0].key {
        SortKeepsElements(s[1..], x);
        assert x in s[1..];
        var k :| 0 <= k < |s[1..]| && s[1..][k] == x;
        assert s[k + 1] == x;
      }
      InsertKeepsOrder(s[0], Sort(s[1..]));
    }
  }

  /** There is only one strictly sorted sequence with given elements. */
  lemma StrictOrderIsUnique<T>(a: seq<Keyed<T>>, b: seq<Keyed<T>>)
    requires StrictlySorted(a) && StrictlySorted(b)
    requires forall x :: x in a <==> x in b
    ensures a == b
  {
    SameEmptiness(a, b);
    if a != [] {
      assert a[0] in b;
      assert b[0] in a;
      HeadsAgree(a, b);
      forall x ensures x in a[1..] <==> x in b[1..] {
        TailMembers(a, x);
        TailMembers(b, x);
      }
      StrictOrderIsUnique(a[1..], b[1..]);
      assert a == [a[0]] + a[1..] && b == [b[0]] + b[1..];
    }
  }

  lemma SameEmptiness<T>(a: seq<T>, b: seq<T>)
    requires forall x :: x in a <==> x in b
    ensures a == [] <==> b == []
  {
    if a != [] { assert a[0] in b; }
    if b != [] { assert b[0] in a; }
  }

  lemma HeadsAgree<T>(a: seq<Keyed<T>>, b: seq<Keyed<T>>)
    requires StrictlySorted(a) && StrictlySorted(b) && a != [] && b != [] && a[0] in b && b[0] in a
    ensures a[0] == b[0]
  {
    var i :| 0 <= i < |b| && b[i] == a[0];
    var j :| 0 <= j < |a| && a[j] == b[0];
    if i > 0 && j > 0 {
      assert Before(b[0].key, b[i].key) && Before(a[0].key, a[j].key);
      BeforeIsStrict(a[0].key, b[0].key);
    }
  }

  lemma TailMembers<T>(s: seq<Keyed<T>>, x: Keyed<T>)
    requires StrictlySorted(s) && s != []
    ensures x in s[1..] <==> x in s && x != s[0]
  {
    if x in s[1..] {
      var k :| 0 <= k < |s[1..]| && s[1..][k] == x;
      assert s[k + 1] == x && Before(s[0].key, s[k + 1].key);
      BeforeIrreflexive(x.key);
    }
    if x in s && x != s[0] {
      var k :| 0 <= k < |s| && s[k] == x;
      assert s[1..][k - 1] == x;
    }
  }

  /** Sorting forgets the order it was given. */
  lemma SortForgetsOrder<T>(a: seq<Keyed<T>>, b: seq<Keyed<T>>)
    requires DistinctKeys(a) && DistinctKeys(b)
    ensures Sort(a) == Sort(b) <==> forall x :: x in a <==> x in b
  {
    forall x ensures x in Sort(a) <==> x in a {
      SortKeepsElements(a, x);
    }
    forall x ensures x in Sort(b) <==> x in b {
      SortKeepsElements(b, x);
    }
    if forall x :: x in a <==> x in b {
      SortOrders(a);
      SortOrders(b);
      StrictOrderIsUnique(Sort(a), Sort(b));
    }
  }
}

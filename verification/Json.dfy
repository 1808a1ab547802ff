/**
 * The canonical JSON text of app/agent/authorization.py: `json.dumps` with sorted keys, compact
 * separators and ASCII-only output (RFC 8259, sections 4 to 7), and the proof that it is a faithful
 * name for the value: two values have the same text exactly when they are the same value.
 */
module Json {
  import opened Ordering

  /** An object is a dictionary in insertion order. Strings are sequences of Unicode scalar values. */
  datatype Value =
    | Null
    | Bool(b: bool)
    | Int(n: int)
    | Str(s: string)
    | Arr(items: seq<Value>)
    | Obj(members: seq<Keyed<Value>>)

  /** Every object in the value has distinct keys. */
  ghost predicate WellFormed(v: Value) {
    match v
    case Arr(items) => forall i :: 0 <= i < |items| ==> WellFormed(items[i])
    case Obj(members) =>
      && DistinctKeys(members)
      && forall i :: 0 <= i < |members| ==> WellFormed(members[i].value)
    case _ => true
  }

  function Keys(members: seq<Keyed<Value>>): set<string> {
    set m | m in members :: m.key
  }

  /** Equality of values: dictionaries are compared key by key, in whatever order they were built. */
  ghost predicate Same(a: Value, b: Value) {
    match (a, b)
    case (Arr(xs), Arr(ys)) =>
      |xs| == |ys| && forall i :: 0 <= i < |xs| ==> Same(xs[i], ys[i])
    case (Obj(ms), Obj(ns)) =>
      && Keys(ms) == Keys(ns)
      && forall i, j :: 0 <= i < |ms| && 0 <= j < |ns| && ms[i].key == ns[j].key ==>
           Same(ms[i].value, ns[j].value)
    case _ => a == b && !a.Arr? && !a.Obj?
  }

  // ---- characters and strings ----

  function HexDigit(d: nat): char
    requires d < 16
  {
    "0123456789abcdef"[d]
  }

  /** `{0:04x}` */
  function Hex4(n: nat): string
    requires n < 0x10000
  {
    [HexDigit(n / 16 / 16 / 16), HexDigit(n / 16 / 16 % 16), HexDigit(n / 16 % 16), HexDigit(n % 16)]
  }

  function UnicodeEscape(n: nat): string
    requires n < 0x10000
  {
    ['\\', 'u'] + Hex4(n)
  }

  function HighSurrogate(n: nat): nat
    requires 0x10000 <= n < 0x110000
    ensures 0xd800 <= HighSurrogate(n) < 0xdc00
  {
    0xd800 + (n - 0x10000) / 0x400
  }

  function LowSurrogate(n: nat): nat
    requires 0x10000 <= n < 0x110000
    ensures 0xdc00 <= LowSurrogate(n) < 0xe000
  {
    0xdc00 + (n - 0x10000) % 0x400
  }

  function Escape(c: char): string {
    if c == '\\' then ['\\', '\\']
    else if c == '"' then ['\\', '"']
    else if c == '\n' then ['\\', 'n']
    else if c == '\r' then ['\\', 'r']
    else if c == '\t' then ['\\', 't']
    else if c as int == 8 then ['\\', 'b']
    else if c as int == 12 then ['\\', 'f']
    else if ' ' <= c <= '~' then [c]
    else if c as int < 0x10000 then UnicodeEscape(c as int)
    else UnicodeEscape(HighSurrogate(c as int)) + UnicodeEscape(LowSurrogate(c as int))
  }

  /** The escaped characters and the closing quote. */
  function Body(s: string): string {
    if s == [] then ['"'] else Escape(s[0]) + Body(s[1..])
  }

  function Quote(s: string): string {
    ['"'] + Body(s)
  }

  // ---- numbers ----

  function Digit(d: nat): char
    requires d < 10
  {
    "0123456789"[d]
  }

  function NatText(n: nat): string {
    if n < 10 then [Digit(n)] else NatText(n / 10) + [Digit(n % 10)]
  }

  function IntText(n: int): string {
    if n < 0 then ['-'] + NatText(-n) else NatText(n)
  }

  // ---- values ----

  /** The members of `v` in key order, throughout. */
  function Canon(v: Value): Value {
    match v
    case Arr(items) => Arr(seq(|items|, i requires 0 <= i < |items| => Canon(items[i])))
    case Obj(members) => Obj(Sort(CanonMembers(members)))
    case _ => v
  }

  function CanonMembers(members: seq<Keyed<Value>>): (canon: seq<Keyed<Value>>)
    ensures |canon| == |members|
    ensures forall i :: 0 <= i < |canon| ==> canon[i] == Keyed(members[i].key, Canon(members[i].value))
  {
    seq(|members|, i requires 0 <= i < |members| => Keyed(members[i].key, Canon(members[i].value)))
  }

  function Print(v: Value): string {
    match v
    case Null => "null"
    case Bool(b) => if b then "true" else "false"
    case Int(n) => IntText(n)
    case Str(s) => Quote(s)
    case Arr(items) => if items == [] then "[]" else ['['] + Print(items[0]) + PrintItems(items[1..])
    case Obj(members) =>
      if members == [] then "{}"
      else ['{'] + Quote(members[0].key) + [':'] + Print(members[0].value) + PrintMembers(members[1..])
  }

  function PrintItems(items: seq<Value>): string {
    if items == [] then [']'] else [','] + Print(items[0]) + PrintItems(items[1..])
  }

  function PrintMembers(members: seq<Keyed<Value>>): string {
    if members == [] then ['}']
    else [','] + Quote(members[0].key) + [':'] + Print(members[0].value) + PrintMembers(members[1..])
  }

  /** `json.dumps(v, sort_keys=True, separators=(",", ":"))` */
  function Encode(v: Value): string {
    Print(Canon(v))
  }

  // ---- the text of a value can be read back in only one way ----

  lemma Cancel(x: string, r: string, q: string)
    requires x + r == x + q
    ensures r == q
  {
    assert r == (x + r)[|x|..];
    assert q == (x + q)[|x|..];
  }

  lemma Regroup(x: string, y: string, r: string)
    ensures (x + y) + r == x + (y + r)
  {
  }

  lemma CancelEqualLength(x: string, y: string, r: string, q: string)
    requires x + r == y + q && |x| == |y|
    ensures x == y && r == q
  {
    assert x == (x + r)[..|x|];
    assert y == (y + q)[..|y|];
    Cancel(x, r, q);
  }

  lemma HexDigitInjective(d: nat, e: nat)
    requires d < 16 && e < 16 && HexDigit(d) == HexDigit(e)
    ensures d == e
  {
  }

  lemma Hex4Injective(m: nat, n: nat)
    requires m < 0x10000 && n < 0x10000 && Hex4(m) == Hex4(n)
    ensures m == n
  {
    var x, y := Hex4(m), Hex4(n);
    assert x[0] == y[0] && x[1] == y[1] && x[2] == y[2] && x[3] == y[3];
    HexDigitInjective(m / 16 / 16 / 16, n / 16 / 16 / 16);
    HexDigitInjective(m / 16 / 16 % 16, n / 16 / 16 % 16);
    SameQuotientAndRemainder(m / 16 / 16, n / 16 / 16);
    HexDigitInjective(m / 16 % 16, n / 16 % 16);
    SameQuotientAndRemainder(m / 16, n / 16);
    HexDigitInjective(m % 16, n % 16);
    SameQuotientAndRemainder(m, n);
  }

  lemma SameQuotientAndRemainder(m: nat, n: nat)
    requires m / 16 == n / 16 && m % 16 == n % 16
    ensures m == n
  {
  }

  lemma UnicodeEscapeInjective(m: nat, n: nat, r: string, q: string)
    requires m < 0x10000 && n < 0x10000 && UnicodeEscape(m) + r == UnicodeEscape(n) + q
    ensures m == n && r == q
  {
    CancelEqualLength(UnicodeEscape(m), UnicodeEscape(n), r, q);
    Cancel(['\\', 'u'], Hex4(m), Hex4(n));
    Hex4Injective(m, n);
  }

  lemma SurrogatesInjective(m: nat, n: nat)
    requires 0x10000 <= m < 0x110000 && 0x10000 <= n < 0x110000
    requires HighSurrogate(m) == HighSurrogate(n) && LowSurrogate(m) == LowSurrogate(n)
    ensures m == n
  {
  }

  /** The first UTF-16 unit of a character, and the text of the others. */
  function FirstUnit(c: char): nat {
    if c as int < 0x10000 then c as int else HighSurrogate(c as int)
  }

  function OtherUnits(c: char): string {
    if c as int < 0x10000 then "" else UnicodeEscape(LowSurrogate(c as int))
  }

  lemma LongEscapeUnits(c: char, r: string)
    requires |Escape(c)| >= 6
    ensures Escape(c) + r == UnicodeEscape(FirstUnit(c)) + (OtherUnits(c) + r)
  {
    assert Escape(c) == UnicodeEscape(FirstUnit(c)) + OtherUnits(c);
    Regroup(UnicodeEscape(FirstUnit(c)), OtherUnits(c), r);
  }

  /** Two characters written with an escape code: plane 0 never collides with a surrogate pair. */
  lemma LongEscapePrefix(c: char, d: char, r: string, q: string)
    requires |Escape(c)| >= 6 && |Escape(d)| >= 6 && Escape(c) + r == Escape(d) + q
    ensures c == d && r == q
  {
    LongEscapeUnits(c, r);
    LongEscapeUnits(d, q);
    UnicodeEscapeInjective(FirstUnit(c), FirstUnit(d), OtherUnits(c) + r, OtherUnits(d) + q);
    UnitsInjective(c, d, r, q);
  }

  lemma UnitsInjective(c: char, d: char, r: string, q: string)
    requires FirstUnit(c) == FirstUnit(d) && OtherUnits(c) + r == OtherUnits(d) + q
    ensures c == d && r == q
  {
    if c as int < 0x10000 {
      assert d as int < 0x10000;
      Cancel("", r, q);
    } else {
      assert d as int >= 0x10000;
      UnicodeEscapeInjective(LowSurrogate(c as int), LowSurrogate(d as int), r, q);
      SurrogatesInjective(c as int, d as int);
    }
  }

  /** The shape of an escape: its length follows from its first two characters. */
  lemma EscapeShape(c: char)
    ensures 1 <= |Escape(c)| && Escape(c)[0] != '"'
    ensures |Escape(c)| == 1 <==> Escape(c)[0] != '\\'
    ensures |Escape(c)| == 1 ==> Escape(c) == [c]
    ensures |Escape(c)| > 1 ==> (|Escape(c)| >= 6 <==> Escape(c)[1] == 'u') && (|Escape(c)| == 2 || |Escape(c)| >= 6)
  {
  }

  lemma EscapePrefix(c: char, d: char, r: string, q: string)
    requires Escape(c) + r == Escape(d) + q
    ensures c == d && r == q
  {
    EscapeShape(c);
    EscapeShape(d);
    assert Escape(c)[0] == (Escape(c) + r)[0] && Escape(d)[0] == (Escape(d) + q)[0];
    if |Escape(c)| > 1 {
      assert Escape(c)[1] == (Escape(c) + r)[1] && Escape(d)[1] == (Escape(d) + q)[1];
    }
    if |Escape(c)| >= 6 {
      LongEscapePrefix(c, d, r, q);
    } else {
      CancelEqualLength(Escape(c), Escape(d), r, q);
      ShortEscapeInjective(c, d);
    }
  }

  lemma ShortEscapeInjective(c: char, d: char)
    requires Escape(c) == Escape(d) && |Escape(c)| < 6
    ensures c == d
  {
    assert |Escape(c)| == 1 ==> Escape(c)[0] == c && Escape(d)[0] == d;
    if |Escape(c)| == 2 {
      assert Escape(c)[1] == Escape(d)[1];
    }
  }

  lemma BodyStep(s: string, r: string)
    ensures Body(s) != [] && (Body(s) + r)[0] == Body(s)[0]
    ensures s == [] <==> Body(s)[0] == '"'
    ensures s != [] ==> Body(s) + r == Escape(s[0]) + (Body(s[1..]) + r)
  {
    if s != [] {
      EscapeShape(s[0]);
      Regroup(Escape(s[0]), Body(s[1..]), r);
    }
  }

  lemma {:induction false} BodyPrefix(s: string, t: string, r: string, q: string)
    requires Body(s) + r == Body(t) + q
    ensures s == t && r == q
    decreases |s|
  {
    BodyStep(s, r);
    BodyStep(t, q);
    if s == [] {
      Cancel(['"'], r, q);
    } else {
      EscapePrefix(s[0], t[0], Body(s[1..]) + r, Body(t[1..]) + q);
      BodyPrefix(s[1..], t[1..], r, q);
      assert s == [s[0]] + s[1..] && t == [t[0]] + t[1..];
    }
  }

  lemma QuotePrefix(s: string, t: string, r: string, q: string)
    requires Quote(s) + r == Quote(t) + q
    ensures s == t && r == q
  {
    Regroup(['"'], Body(s), r);
    Regroup(['"'], Body(t), q);
    Cancel(['"'], Body(s) + r, Body(t) + q);
    BodyPrefix(s, t, r, q);
  }

  // ---- numbers ----

  predicate IsDigit(c: char) {
    '0' <= c <= '9'
  }

  /** Nothing follows that could be read as part of a number. */
  predicate Stops(r: string) {
    r == [] || r[0] in {',', ']', '}'}
  }

  function DigitsValue(s: string): int {
    if s == [] then 0 else 10 * DigitsValue(s[..|s| - 1]) + (s[|s| - 1] as int - '0' as int)
  }

  ghost predicate AllDigits(s: string) {
    forall i :: 0 <= i < |s| ==> IsDigit(s[i])
  }

  lemma DigitsOfDigit(d: nat)
    requires d < 10
    ensures AllDigits([Digit(d)]) && DigitsValue([Digit(d)]) == d
  {
    assert [Digit(d)][..0] == [];
    assert DigitsValue([]) == 0;
  }

  lemma DigitsAppend(s: string, d: nat)
    requires d < 10 && AllDigits(s)
    ensures AllDigits(s + [Digit(d)]) && DigitsValue(s + [Digit(d)]) == 10 * DigitsValue(s) + d
  {
    assert (s + [Digit(d)])[..|s|] == s;
  }

  lemma {:induction false} NatTextIsDigits(n: nat)
    ensures NatText(n) != [] && AllDigits(NatText(n)) && DigitsValue(NatText(n)) == n
  {
    if n < 10 {
      DigitsOfDigit(n);
    } else {
      NatTextIsDigits(n / 10);
      DigitsAppend(NatText(n / 10), n % 10);
    }
  }

  lemma StopsInside(a: string, b: string, r: string, q: string)
    requires a + r == b + q && Stops(r) && |a| < |b|
    ensures !IsDigit(b[|a|])
  {
    assert (b + q)[|a|] == b[|a|];
    assert (a + r)[|a|] == r[0];
  }

  /** Text made of digits ends where the digits end. */
  lemma DigitsEndTogether(a: string, b: string, r: string, q: string)
    requires a + r == b + q && Stops(r) && AllDigits(b)
    ensures |a| >= |b|
  {
    if |a| < |b| {
      StopsInside(a, b, r, q);
    }
  }

  lemma NatTextPrefix(m: nat, n: nat, r: string, q: string)
    requires NatText(m) + r == NatText(n) + q && Stops(r) && Stops(q)
    ensures m == n && r == q
  {
    NatTextIsDigits(m);
    NatTextIsDigits(n);
    var a, b := NatText(m), NatText(n);
    DigitsEndTogether(a, b, r, q);
    DigitsEndTogether(b, a, q, r);
    CancelEqualLength(a, b, r, q);
  }

  lemma IntTextSign(n: int, r: string)
    ensures IntText(n) + r != [] && (n < 0 <==> (IntText(n) + r)[0] == '-')
  {
    var digits := NatText(if n < 0 then -n else n);
    NatTextIsDigits(if n < 0 then -n else n);
    assert IsDigit(digits[0]);
  }

  lemma IntTextPrefix(m: int, n: int, r: string, q: string)
    requires IntText(m) + r == IntText(n) + q && Stops(r) && Stops(q)
    ensures m == n && r == q
  {
    IntTextSign(m, r);
    IntTextSign(n, q);
    if m < 0 && n < 0 {
      NegativeTextPrefix(m, n, r, q);
    } else if m >= 0 && n >= 0 {
      NatTextPrefix(m, n, r, q);
    }
  }

  lemma NegativeText(n: int)
    requires n < 0
    ensures IntText(n) == ['-'] + NatText(-n)
  {
  }

  lemma NegativeTextPrefix(m: int, n: int, r: string, q: string)
    requires m < 0 && n < 0 && IntText(m) + r == IntText(n) + q && Stops(r) && Stops(q)
    ensures m == n && r == q
  {
    NegativeText(m);
    NegativeText(n);
    DropMinus(IntText(m), IntText(n), NatText(-m), NatText(-n), r, q);
    NatTextPrefix(-m, -n, r, q);
  }

  lemma DropMinus(x: string, y: string, a: string, b: string, r: string, q: string)
    requires x == ['-'] + a && y == ['-'] + b && x + r == y + q
    ensures a + r == b + q
  {
    Regroup(['-'], a, r);
    Regroup(['-'], b, q);
    Cancel(['-'], a + r, b + q);
  }

  // ---- values ----

  /** The kind of a value shows in the first character of its text. */
  function Kind(c: char): int {
    if c == 'n' then 0
    else if c == 't' || c == 'f' then 1
    else if c == '-' || IsDigit(c) then 2
    else if c == '"' then 3
    else if c == '[' then 4
    else if c == '{' then 5
    else 6
  }

  lemma PrintShape(v: Value)
    ensures Print(v) != []
    ensures Kind(Print(v)[0]) ==
              match v
              case Null => 0
              case Bool(_) => 1
              case Int(_) => 2
              case Str(_) => 3
              case Arr(_) => 4
              case Obj(_) => 5
    ensures v.Bool? ==> (Print(v)[0] == 't' <==> v.b)
  {
    if v.Int? {
      NatTextIsDigits(if v.n < 0 then -v.n else v.n);
    }
  }

  lemma ItemsStep(xs: seq<Value>, r: string)
    ensures PrintItems(xs) != [] && (PrintItems(xs) + r)[0] == PrintItems(xs)[0]
    ensures Stops(PrintItems(xs) + r)
    ensures xs == [] <==> PrintItems(xs)[0] == ']'
    ensures xs != [] ==> PrintItems(xs) + r == [','] + (Print(xs[0]) + (PrintItems(xs[1..]) + r))
  {
    if xs != [] {
      Regroup([','] + Print(xs[0]), PrintItems(xs[1..]), r);
      Regroup([','], Print(xs[0]), PrintItems(xs[1..]) + r);
    }
  }

  /** One member followed by the rest of the text. */
  function MemberText(m: Keyed<Value>, r: string): string {
    Quote(m.key) + ([':'] + (Print(m.value) + r))
  }

  lemma MemberRegroup(opening: char, m: Keyed<Value>, tail: string, r: string)
    ensures ([opening] + Quote(m.key) + [':'] + Print(m.value) + tail) + r == [opening] + MemberText(m, tail + r)
  {
    var key, value := Quote(m.key), Print(m.value);
    Regroup([opening] + key + [':'] + value, tail, r);
    Regroup([opening] + key + [':'], value, tail + r);
    Regroup([opening] + key, [':'], value + (tail + r));
    Regroup([opening], key, [':'] + (value + (tail + r)));
  }

  lemma MembersStep(ms: seq<Keyed<Value>>, r: string)
    ensures PrintMembers(ms) != [] && (PrintMembers(ms) + r)[0] == PrintMembers(ms)[0]
    ensures Stops(PrintMembers(ms) + r)
    ensures ms == [] <==> PrintMembers(ms)[0] == '}'
    ensures ms != [] ==> PrintMembers(ms) + r == [','] + MemberText(ms[0], PrintMembers(ms[1..]) + r)
  {
    if ms != [] {
      MemberRegroup(',', ms[0], PrintMembers(ms[1..]), r);
    }
  }

  lemma ArrStep(xs: seq<Value>, r: string)
    ensures xs == [] ==> Print(Arr(xs)) + r == ['['] + ([']'] + r)
    ensures xs != [] ==> Print(Arr(xs)) + r == ['['] + (Print(xs[0]) + (PrintItems(xs[1..]) + r))
  {
    if xs != [] {
      Regroup(['['] + Print(xs[0]), PrintItems(xs[1..]), r);
      Regroup(['['], Print(xs[0]), PrintItems(xs[1..]) + r);
    }
  }

  lemma ObjStep(ms: seq<Keyed<Value>>, r: string)
    ensures ms == [] ==> Print(Obj(ms)) + r == ['{'] + (['}'] + r)
    ensures ms != [] ==> Print(Obj(ms)) + r == ['{'] + MemberText(ms[0], PrintMembers(ms[1..]) + r)
  {
    if ms != [] {
      MemberRegroup('{', ms[0], PrintMembers(ms[1..]), r);
    }
  }

  /** Values whose texts agree up to the end of the value are equal, and so is what follows them. */
  lemma PrintPrefix(a: Value, b: Value, r: string, q: string)
    requires Print(a) + r == Print(b) + q && Stops(r) && Stops(q)
    ensures a == b && r == q
    decreases a, 2
  {
    PrintShape(a);
    PrintShape(b);
    assert Print(a)[0] == (Print(a) + r)[0] && Print(b)[0] == (Print(b) + q)[0];
    match a {
      case Null => Cancel(Print(a), r, q);
      case Bool(_) => Cancel(Print(a), r, q);
      case Int(m) => IntTextPrefix(m, b.n, r, q);
      case Str(s) => QuotePrefix(s, b.s, r, q);
      case Arr(xs) => ArrPrefix(xs, b.items, r, q);
      case Obj(ms) => ObjPrefix(ms, b.members, r, q);
    }
  }

  lemma ArrPrefix(xs: seq<Value>, ys: seq<Value>, r: string, q: string)
    requires Print(Arr(xs)) + r == Print(Arr(ys)) + q
    ensures xs == ys && r == q
    decreases Arr(xs), 1
  {
    ArrStep(xs, r);
    ArrStep(ys, q);
    var x := if xs == [] then [']'] + r else Print(xs[0]) + (PrintItems(xs[1..]) + r);
    var y := if ys == [] then [']'] + q else Print(ys[0]) + (PrintItems(ys[1..]) + q);
    Cancel(['['], x, y);
    FirstItem(xs, r);
    FirstItem(ys, q);
    if xs == [] {
      Cancel([']'], r, q);
    } else {
      ItemsStep(xs[1..], r);
      ItemsStep(ys[1..], q);
      PrintPrefix(xs[0], ys[0], PrintItems(xs[1..]) + r, PrintItems(ys[1..]) + q);
      ItemsPrefix(Arr(xs), xs[1..], ys[1..], r, q);
      assert xs == [xs[0]] + xs[1..] && ys == [ys[0]] + ys[1..];
    }
  }

  lemma FirstItem(xs: seq<Value>, r: string)
    ensures xs != [] ==> (Print(xs[0]) + (PrintItems(xs[1..]) + r))[..1] != "]"
  {
    if xs != [] {
      PrintShape(xs[0]);
      var text := Print(xs[0]) + (PrintItems(xs[1..]) + r);
      assert text[..1][0] == Print(xs[0])[0];
    }
  }

  lemma {:induction false} ItemsPrefix(parent: Value, xs: seq<Value>, ys: seq<Value>, r: string, q: string)
    requires PrintItems(xs) + r == PrintItems(ys) + q
    requires forall x :: x in xs ==> x < parent
    ensures xs == ys && r == q
    decreases parent, 0, |xs|
  {
    ItemsStep(xs, r);
    ItemsStep(ys, q);
    if xs == [] {
      Cancel([']'], r, q);
    } else {
      var tx, ty := PrintItems(xs[1..]) + r, PrintItems(ys[1..]) + q;
      Cancel([','], Print(xs[0]) + tx, Print(ys[0]) + ty);
      ItemsStep(xs[1..], r);
      ItemsStep(ys[1..], q);
      assert xs[0] in xs && forall x :: x in xs[1..] ==> x in xs;
      PrintPrefix(xs[0], ys[0], tx, ty);
      ItemsPrefix(parent, xs[1..], ys[1..], r, q);
      assert xs == [xs[0]] + xs[1..] && ys == [ys[0]] + ys[1..];
    }
  }

  lemma MemberPrefix(m: Keyed<Value>, n: Keyed<Value>, r: string, q: string)
    requires MemberText(m, r) == MemberText(n, q) && Stops(r) && Stops(q)
    ensures m == n && r == q
    decreases m.value, 3
  {
    QuotePrefix(m.key, n.key, [':'] + (Print(m.value) + r), [':'] + (Print(n.value) + q));
    Cancel([':'], Print(m.value) + r, Print(n.value) + q);
    PrintPrefix(m.value, n.value, r, q);
  }

  lemma ObjPrefix(ms: seq<Keyed<Value>>, ns: seq<Keyed<Value>>, r: string, q: string)
    requires Print(Obj(ms)) + r == Print(Obj(ns)) + q
    ensures ms == ns && r == q
    decreases Obj(ms), 1
  {
    ObjStep(ms, r);
    ObjStep(ns, q);
    var x := if ms == [] then ['}'] + r else MemberText(ms[0], PrintMembers(ms[1..]) + r);
    var y := if ns == [] then ['}'] + q else MemberText(ns[0], PrintMembers(ns[1..]) + q);
    Cancel(['{'], x, y);
    assert x[0] == if ms == [] then '}' else '"';
    assert y[0] == if ns == [] then '}' else '"';
    if ms == [] {
      Cancel(['}'], r, q);
    } else {
      MembersStep(ms[1..], r);
      MembersStep(ns[1..], q);
      MemberPrefix(ms[0], ns[0], PrintMembers(ms[1..]) + r, PrintMembers(ns[1..]) + q);
      MembersPrefix(Obj(ms), ms[1..], ns[1..], r, q);
      assert ms == [ms[0]] + ms[1..] && ns == [ns[0]] + ns[1..];
    }
  }

  lemma {:induction false} MembersPrefix(
    parent: Value, ms: seq<Keyed<Value>>, ns: seq<Keyed<Value>>, r: string, q: string)
    requires PrintMembers(ms) + r == PrintMembers(ns) + q
    requires forall m :: m in ms ==> m.value < parent
    ensures ms == ns && r == q
    decreases parent, 0, |ms|
  {
    MembersStep(ms, r);
    MembersStep(ns, q);
    if ms == [] {
      Cancel(['}'], r, q);
    } else {
      var tm, tn := PrintMembers(ms[1..]) + r, PrintMembers(ns[1..]) + q;
      Cancel([','], MemberText(ms[0], tm), MemberText(ns[0], tn));
      MembersStep(ms[1..], r);
      MembersStep(ns[1..], q);
      assert ms[0] in ms && forall m :: m in ms[1..] ==> m in ms;
      MemberPrefix(ms[0], ns[0], tm, tn);
      MembersPrefix(parent, ms[1..], ns[1..], r, q);
      assert ms == [ms[0]] + ms[1..] && ns == [ns[0]] + ns[1..];
    }
  }

  // ---- canonical form ----

  /** The objects agree once the values of their members are in canonical form. */
  ghost predicate Agree(ms: seq<Keyed<Value>>, ns: seq<Keyed<Value>>) {
    && Keys(ms) == Keys(ns)
    && forall i, j :: 0 <= i < |ms| && 0 <= j < |ns| && ms[i].key == ns[j].key ==>
         Canon(ms[i].value) == Canon(ns[j].value)
  }

  lemma AgreeMembers(ms: seq<Keyed<Value>>, ns: seq<Keyed<Value>>, x: Keyed<Value>)
    requires Agree(ms, ns) && x in CanonMembers(ms)
    ensures x in CanonMembers(ns)
  {
    var i :| 0 <= i < |ms| && CanonMembers(ms)[i] == x;
    assert ms[i].key in Keys(ns);
    var j :| 0 <= j < |ns| && ns[j].key == ms[i].key;
    assert CanonMembers(ns)[j] == x;
  }

  lemma MembersCarryKeys(ms: seq<Keyed<Value>>, ns: seq<Keyed<Value>>)
    requires forall x :: x in CanonMembers(ms) ==> x in CanonMembers(ns)
    ensures Keys(ms) <= Keys(ns)
  {
    forall key | key in Keys(ms) ensures key in Keys(ns) {
      var i :| 0 <= i < |ms| && ms[i].key == key;
      assert CanonMembers(ms)[i] in CanonMembers(ns);
      var j :| 0 <= j < |ns| && CanonMembers(ns)[j] == CanonMembers(ms)[i];
      assert ns[j] in ns;
    }
  }

  lemma MembersCarryValues(ms: seq<Keyed<Value>>, ns: seq<Keyed<Value>>, i: int, j: int)
    requires DistinctKeys(ns) && forall x :: x in CanonMembers(ms) ==> x in CanonMembers(ns)
    requires 0 <= i < |ms| && 0 <= j < |ns| && ms[i].key == ns[j].key
    ensures Canon(ms[i].value) == Canon(ns[j].value)
  {
    assert CanonMembers(ms)[i] in CanonMembers(ns);
    var k :| 0 <= k < |ns| && CanonMembers(ns)[k] == CanonMembers(ms)[i];
    assert ns[k].key == ns[j].key;
  }

  lemma CanonObjects(ms: seq<Keyed<Value>>, ns: seq<Keyed<Value>>)
    requires DistinctKeys(ms) && DistinctKeys(ns)
    ensures Canon(Obj(ms)) == Canon(Obj(ns)) <==> Agree(ms, ns)
  {
    SortForgetsOrder(CanonMembers(ms), CanonMembers(ns));
    if Agree(ms, ns) {
      forall x ensures x in CanonMembers(ms) <==> x in CanonMembers(ns) {
        if x in CanonMembers(ms) { AgreeMembers(ms, ns, x); }
        if x in CanonMembers(ns) { AgreeMembers(ns, ms, x); }
      }
    }
    if forall x :: x in CanonMembers(ms) <==> x in CanonMembers(ns) {
      MembersCarryKeys(ms, ns);
      MembersCarryKeys(ns, ms);
      forall i, j | 0 <= i < |ms| && 0 <= j < |ns| && ms[i].key == ns[j].key
        ensures Canon(ms[i].value) == Canon(ns[j].value)
      {
        MembersCarryValues(ms, ns, i, j);
      }
    }
  }

  /** Sorting the members throughout identifies exactly the values that are the same. */
  lemma {:induction false} CanonDecidesSame(a: Value, b: Value)
    requires WellFormed(a) && WellFormed(b)
    ensures Canon(a) == Canon(b) <==> Same(a, b)
    decreases a
  {
    match (a, b) {
      case (Arr(xs), Arr(ys)) =>
        var cs, ds := Canon(a).items, Canon(b).items;
        forall i | 0 <= i < |xs| && |xs| == |ys|
          ensures cs[i] == ds[i] <==> Same(xs[i], ys[i])
        {
          CanonDecidesSame(xs[i], ys[i]);
        }
        if Same(a, b) { assert cs == ds; }
      case (Obj(ms), Obj(ns)) =>
        CanonObjects(ms, ns);
        forall i, j | 0 <= i < |ms| && 0 <= j < |ns|
          ensures Canon(ms[i].value) == Canon(ns[j].value) <==> Same(ms[i].value, ns[j].value)
        {
          CanonDecidesSame(ms[i].value, ns[j].value);
        }
      case _ =>
    }
  }

  /**
   * The canonical text of a value does not depend on the order in which its dictionaries were built, and
   * determines the value: equal texts mean equal values.
   */
  lemma EncodeIsFaithful(a: Value, b: Value)
    requires WellFormed(a) && WellFormed(b)
    ensures Encode(a) == Encode(b) <==> Same(a, b)
  {
    CanonDecidesSame(a, b);
    if Encode(a) == Encode(b) {
      assert Print(Canon(a)) + "" == Print(Canon(b)) + "";
      PrintPrefix(Canon(a), Canon(b), "", "");
    }
  }

  // ---- the canonical text spelled out ----

  /** The keys of every object in the value ascend in dictionary order. */
  ghost predicate Ascending(v: Value) {
    match v
    case Arr(items) => forall i :: 0 <= i < |items| ==> Ascending(items[i])
    case Obj(members) =>
      && (forall i, j :: 0 <= i < j < |members| ==> Precedes(members[i].key, members[j].key))
      && (forall i :: 0 <= i < |members| ==> Ascending(members[i].value))
    case _ => true
  }

  lemma SortedMembersAscend(members: seq<Keyed<Value>>)
    requires StrictlySorted(members)
    ensures forall i, j :: 0 <= i < j < |members| ==> Precedes(members[i].key, members[j].key)
  {
    forall i, j | 0 <= i < j < |members| ensures Precedes(members[i].key, members[j].key) {
      BeforeIsLexicographic(members[i].key, members[j].key);
    }
  }

  /** Whatever order its dictionaries were built in, the keys of every object that is printed ascend. */
  lemma {:induction false} CanonAscends(v: Value)
    requires WellFormed(v)
    ensures Ascending(Canon(v))
    decreases v
  {
    match v
    case Arr(items) =>
      forall i | 0 <= i < |items| ensures Ascending(Canon(items[i])) {
        CanonAscends(items[i]);
      }
    case Obj(members) =>
      var canon := CanonMembers(members);
      SortOrders(canon);
      SortedMembersAscend(Sort(canon));
      forall i | 0 <= i < |members| ensures Ascending(canon[i].value) {
        CanonAscends(members[i].value);
      }
      forall i | 0 <= i < |Sort(canon)| ensures Ascending(Sort(canon)[i].value) {
        SortKeepsElements(canon, Sort(canon)[i]);
      }
    case _ =>
  }

  /** A character that is written as it is. */
  predicate Plain(c: char) {
    ' ' <= c <= '~' && c != '"' && c != '\\'
  }

  lemma {:induction false} PlainBody(s: string)
    requires forall i :: 0 <= i < |s| ==> Plain(s[i])
    ensures Body(s) == s + ['"']
  {
    if s != [] {
      PlainBody(s[1..]);
      assert [s[0]] + (s[1..] + ['"']) == s + ['"'];
    }
  }

  /** Plain text is quoted as it stands. */
  lemma PlainQuote(s: string)
    requires forall i :: 0 <= i < |s| ==> Plain(s[i])
    ensures Quote(s) == ['"'] + s + ['"']
  {
    PlainBody(s);
  }

  // ---- the form of an escape ----

  predicate IsLowerHex(c: char) {
    '0' <= c <= '9' || 'a' <= c <= 'f'
  }

  /** `\u` and four lower-case hexadecimal digits. */
  predicate IsCode(s: string) {
    |s| == 6 && s[0] == '\\' && s[1] == 'u' &&
    IsLowerHex(s[2]) && IsLowerHex(s[3]) && IsLowerHex(s[4]) && IsLowerHex(s[5])
  }

  lemma HexDigitIsLower(d: nat)
    requires d < 16
    ensures IsLowerHex(HexDigit(d))
  {
  }

  lemma UnicodeEscapeIsCode(n: nat)
    requires n < 0x10000
    ensures IsCode(UnicodeEscape(n))
  {
    HexDigitIsLower(n / 16 / 16 / 16);
    HexDigitIsLower(n / 16 / 16 % 16);
    HexDigitIsLower(n / 16 % 16);
    HexDigitIsLower(n % 16);
  }

  /**
   * Which form a character takes: itself if plain, a two-character escape if there is one, else one code or,
   * beyond the basic plane, two. The output is ASCII only.
   */
  lemma EscapeForm(c: char)
    ensures Plain(c) <==> Escape(c) == [c]
    ensures c in {'"', '\\', '\n', '\r', '\t', 8 as char, 12 as char} <==> |Escape(c)| == 2
    ensures !Plain(c) && |Escape(c)| != 2 && c as int < 0x10000 ==> IsCode(Escape(c))
    ensures c as int >= 0x10000 ==> |Escape(c)| == 12 && IsCode(Escape(c)[..6]) && IsCode(Escape(c)[6..])
  {
    var n := c as int;
    if n >= 0x10000 {
      UnicodeEscapeIsCode(HighSurrogate(n));
      UnicodeEscapeIsCode(LowSurrogate(n));
      var high, low := UnicodeEscape(HighSurrogate(n)), UnicodeEscape(LowSurrogate(n));
      assert (high + low)[..6] == high && (high + low)[6..] == low;
    } else {
      UnicodeEscapeIsCode(n);
    }
  }
}

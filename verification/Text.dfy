/** The string operations of Python's standard library that file names and object keys go through. */
module Text {

  predicate IsSpace(c: char) {
    var n := c as int;
    9 <= n <= 13 || 28 <= n <= 32 || n == 0x85 || n == 0xa0 || n == 0x1680 || 0x2000 <= n <= 0x200a ||
    n == 0x2028 || n == 0x2029 || n == 0x202f || n == 0x205f || n == 0x3000
  }

  /** The characters that `str.isspace` knows. */
  lemma SpacesAre(c: char)
    ensures IsSpace(c) <==>
            c as int in {9, 10, 11, 12, 13, 28, 29, 30, 31, 32, 133, 160, 5760, 8192, 8193, 8194, 8195, 8196, 8197,
                         8198, 8199, 8200, 8201, 8202, 8232, 8233, 8239, 8287, 12288}
  {
  }

  predicate AllChars(s: string, p: char -> bool) {
    forall i :: 0 <= i < |s| ==> p(s[i])
  }

  // ---- stripping ----

  function TrimLeft(s: string, p: char -> bool): string {
    if s == "" || !p(s[0]) then s else TrimLeft(s[1..], p)
  }

  function TrimRight(s: string, p: char -> bool): string {
    if s == "" then ""
    else
      var rest := TrimRight(s[1..], p);
      if rest == "" && p(s[0]) then "" else [s[0]] + rest
  }

  lemma TrimRightStep(c: char, s: string, p: char -> bool)
    ensures TrimRight([c] + s, p) == if TrimRight(s, p) == "" && p(c) then "" else [c] + TrimRight(s, p)
  {
    assert ([c] + s)[1..] == s;
  }

  function Strip(s: string, p: char -> bool): string {
    TrimRight(TrimLeft(s, p), p)
  }

  lemma StripKeeps(s: string, p: char -> bool)
    requires forall i :: 0 <= i < |s| ==> !p(s[i])
    ensures Strip(s, p) == s
  {
    TrimRightKeeps(s, p);
  }

  lemma {:induction false} TrimRightKeeps(s: string, p: char -> bool)
    requires forall i :: 0 <= i < |s| ==> !p(s[i])
    ensures TrimRight(s, p) == s
  {
    if s != "" {
      TrimRightKeeps(s[1..], p);
    }
  }

  /** What begins and ends outside the class is not stripped. */
  lemma StripKeepsInside(s: string, p: char -> bool)
    requires s == "" || (!p(s[0]) && !p(s[|s| - 1]))
    ensures Strip(s, p) == s
  {
    if s != "" { TrimRightKeepsInside(s, p); }
  }

  lemma {:induction false} TrimRightKeepsInside(s: string, p: char -> bool)
    requires s != "" && !p(s[|s| - 1])
    ensures TrimRight(s, p) == s
  {
    if |s| > 1 {
      TrimRightKeepsInside(s[1..], p);
    } else {
      assert s[1..] == "" && TrimRight("", p) == "";
    }
  }

  lemma {:induction false} TrimLeftOf(left: string, s: string, p: char -> bool)
    requires forall i :: 0 <= i < |left| ==> p(left[i])
    ensures TrimLeft(left + s, p) == TrimLeft(s, p)
  {
    if left == "" {
      assert left + s == s;
    } else {
      assert (left + s)[1..] == left[1..] + s;
      TrimLeftOf(left[1..], s, p);
    }
  }

  lemma {:induction false} TrimRightAll(right: string, p: char -> bool)
    requires forall i :: 0 <= i < |right| ==> p(right[i])
    ensures TrimRight(right, p) == ""
  {
    if right != "" {
      TrimRightAll(right[1..], p);
    }
  }

  lemma {:induction false} TrimRightOf(s: string, right: string, p: char -> bool)
    requires forall i :: 0 <= i < |right| ==> p(right[i])
    ensures TrimRight(s + right, p) == TrimRight(s, p)
  {
    if s == "" {
      assert s + right == right;
      TrimRightAll(right, p);
    } else {
      assert (s + right)[1..] == s[1..] + right;
      TrimRightOf(s[1..], right, p);
    }
  }

  lemma {:induction false} StripRightOf(s: string, right: string, p: char -> bool)
    requires forall i :: 0 <= i < |right| ==> p(right[i])
    ensures Strip(s + right, p) == Strip(s, p)
  {
    if s != "" && p(s[0]) {
      assert (s + right)[1..] == s[1..] + right;
      StripRightOf(s[1..], right, p);
    } else if s == "" {
      assert s + right == right && right + "" == right;
      TrimLeftOf(right, "", p);
    } else {
      TrimRightOf(s, right, p);
    }
  }

  /** What surrounds a string in the class is stripped, whatever else is stripped with it. */
  lemma StripOuter(left: string, s: string, right: string, p: char -> bool)
    requires forall i :: 0 <= i < |left| ==> p(left[i])
    requires forall i :: 0 <= i < |right| ==> p(right[i])
    ensures Strip(left + s + right, p) == Strip(s, p)
  {
    assert left + s + right == left + (s + right);
    TrimLeftOf(left, s + right, p);
    StripRightOf(s, right, p);
  }

  // ---- substitution ----

  /** `re.sub("[p]+", "_", s)`; `inRun` says that the character before was in the class too. */
  function CollapseRuns(s: string, p: char -> bool, inRun: bool): string {
    if s == "" then ""
    else if p(s[0]) then (if inRun then "" else "_") + CollapseRuns(s[1..], p, true)
    else [s[0]] + CollapseRuns(s[1..], p, false)
  }

  function Replace(s: string, from: char, to: char): (r: string)
    ensures |r| == |s| && forall i :: 0 <= i < |s| ==> r[i] == if s[i] == from then to else s[i]
  {
    seq(|s|, i requires 0 <= i < |s| => if s[i] == from then to else s[i])
  }

  lemma {:induction false} CollapseKeeps(s: string, p: char -> bool)
    requires forall i :: 0 <= i < |s| ==> !p(s[i])
    ensures CollapseRuns(s, p, false) == s
  {
    if s != "" {
      CollapseKeeps(s[1..], p);
    }
  }

  lemma {:induction false} CollapseOfRun(run: string, rest: string, p: char -> bool)
    requires forall i :: 0 <= i < |run| ==> p(run[i])
    requires rest == "" || !p(rest[0])
    ensures CollapseRuns(run + rest, p, true) == CollapseRuns(rest, p, false)
  {
    if run == "" {
      assert run + rest == rest;
    } else {
      assert (run + rest)[1..] == run[1..] + rest;
      CollapseOfRun(run[1..], rest, p);
    }
  }

  /** Every maximal run of the class becomes one underscore; what stands before and after it is treated alike. */
  lemma {:induction false} RunBecomesUnderscore(before: string, run: string, rest: string, p: char -> bool)
    requires run != "" && forall i :: 0 <= i < |run| ==> p(run[i])
    requires forall i :: 0 <= i < |before| ==> !p(before[i])
    requires rest == "" || !p(rest[0])
    ensures CollapseRuns(before + run + rest, p, false) == before + "_" + CollapseRuns(rest, p, false)
  {
    var whole := before + run + rest;
    if before == "" {
      assert whole == run + rest && whole[1..] == run[1..] + rest;
      CollapseOfRun(run[1..], rest, p);
    } else {
      assert whole[1..] == before[1..] + run + rest;
      RunBecomesUnderscore(before[1..], run, rest, p);
      assert [before[0]] + (before[1..] + "_" + CollapseRuns(rest, p, false)) ==
             before + "_" + CollapseRuns(rest, p, false);
    }
  }

  // ---- splitting and joining ----

  function Join(parts: seq<string>, sep: char): string {
    if parts == [] then ""
    else if |parts| == 1 then parts[0]
    else parts[0] + [sep] + Join(parts[1..], sep)
  }

  lemma JoinStep(head: string, rest: seq<string>, sep: char)
    requires rest != []
    ensures Join([head] + rest, sep) == head + [sep] + Join(rest, sep)
  {
    assert ([head] + rest)[1..] == rest;
  }

  /** `s.split(sep)` */
  function Split(s: string, sep: char): (parts: seq<string>)
    ensures parts != []
  {
    if s == "" then [""]
    else
      var rest := Split(s[1..], sep);
      if s[0] == sep then [""] + rest else [[s[0]] + rest[0]] + rest[1..]
  }

  lemma {:induction false} SplitWithout(s: string, sep: char)
    requires sep !in s
    ensures Split(s, sep) == [s]
  {
    if s != "" {
      SplitWithout(s[1..], sep);
      assert [s[0]] + s[1..] == s;
    }
  }

  lemma {:induction false} SplitAtSeparator(head: string, tail: string, sep: char)
    requires sep !in head
    ensures Split(head + [sep] + tail, sep) == [head] + Split(tail, sep)
  {
    var whole := head + [sep] + tail;
    if head == "" {
      assert whole[1..] == tail;
    } else {
      assert whole[1..] == head[1..] + [sep] + tail;
      SplitAtSeparator(head[1..], tail, sep);
      assert [head[0]] + head[1..] == head;
    }
  }

  /** Splitting undoes joining for parts that do not hold the separator. */
  lemma {:induction false} SplitJoin(parts: seq<string>, sep: char)
    requires parts != [] && forall part :: part in parts ==> sep !in part
    ensures Split(Join(parts, sep), sep) == parts
  {
    assert parts[0] in parts;
    if |parts| == 1 {
      SplitWithout(parts[0], sep);
    } else {
      forall part | part in parts[1..] ensures sep !in part {
        assert part in parts;
      }
      SplitJoin(parts[1..], sep);
      SplitAtSeparator(parts[0], Join(parts[1..], sep), sep);
    }
  }

  // ---- words ----

  /** The maximal stretches of characters in the class, in order. */
  function Words(s: string, p: char -> bool): (words: seq<string>)
    ensures s != "" && p(s[0]) ==> words != []
  {
    if s == "" then []
    else
      var rest := Words(s[1..], p);
      if !p(s[0]) then rest
      else if |s| > 1 && p(s[1]) then [[s[0]] + rest[0]] + rest[1..]
      else [[s[0]]] + rest
  }

  lemma {:induction false} WordsAreMadeOf(s: string, p: char -> bool)
    ensures forall w :: w in Words(s, p) ==> w != "" && AllChars(w, p)
  {
    if s != "" {
      WordsAreMadeOf(s[1..], p);
      var words, rest := Words(s, p), Words(s[1..], p);
      forall i | 0 <= i < |rest| ensures rest[i] != "" && AllChars(rest[i], p) {
        assert rest[i] in rest;
      }
      forall i | 0 <= i < |words| ensures words[i] != "" && AllChars(words[i], p) {
        if !p(s[0]) || (i > 0 && |s| > 1 && p(s[1])) {
          assert words[i] == rest[i];
        } else if i > 0 {
          assert words[i] == rest[i - 1];
        } else if |s| > 1 && p(s[1]) {
          assert words[0] == [s[0]] + rest[0];
          forall k | 0 <= k < |words[0]| ensures p(words[0][k]) {
            if k > 0 { assert words[0][k] == rest[0][k - 1]; }
          }
        }
      }
    }
  }

  lemma {:induction false} WordsOfWord(w: string, p: char -> bool, rest: string)
    requires w != "" && AllChars(w, p) && (rest == "" || !p(rest[0]))
    ensures Words(w + rest, p) == [w] + Words(rest, p)
  {
    var whole := w + rest;
    assert whole[1..] == w[1..] + rest;
    if |w| > 1 {
      WordsOfWord(w[1..], p, rest);
      assert whole[1] == w[1] && [w[0]] + w[1..] == w;
    } else {
      assert whole[1..] == rest && w == [w[0]];
    }
  }

  /** Joining words by a character outside the class and taking the words again gives the same words. */
  lemma {:induction false} WordsOfJoin(words: seq<string>, p: char -> bool, sep: char)
    requires !p(sep) && forall w :: w in words ==> w != "" && AllChars(w, p)
    ensures Words(Join(words, sep), p) == words
  {
    if words != [] {
      assert words[0] in words;
      if |words| == 1 {
        WordsOfWord(words[0], p, "");
        assert words[0] + "" == words[0];
      } else {
        forall w | w in words[1..] ensures w != "" && AllChars(w, p) {
          assert w in words;
        }
        WordsOfJoin(words[1..], p, sep);
        var tail := [sep] + Join(words[1..], sep);
        assert tail[1..] == Join(words[1..], sep);
        WordsOfWord(words[0], p, tail);
        assert words[0] + [sep] + Join(words[1..], sep) == words[0] + tail;
      }
    }
  }

  /** Stripping characters outside the class leaves the words as they are. */
  lemma StripKeepsWords(s: string, strip: char -> bool, p: char -> bool)
    requires forall c :: strip(c) ==> !p(c)
    ensures Words(Strip(s, strip), p) == Words(s, p)
  {
    TrimLeftKeepsWords(s, strip, p);
    TrimRightKeepsWords(TrimLeft(s, strip), strip, p);
  }

  lemma {:induction false} TrimLeftKeepsWords(s: string, strip: char -> bool, p: char -> bool)
    requires forall c :: strip(c) ==> !p(c)
    ensures Words(TrimLeft(s, strip), p) == Words(s, p)
  {
    if s != "" && strip(s[0]) {
      TrimLeftKeepsWords(s[1..], strip, p);
    }
  }

  lemma {:induction false} TrimRightKeepsWords(s: string, strip: char -> bool, p: char -> bool)
    requires forall c :: strip(c) ==> !p(c)
    ensures Words(TrimRight(s, strip), p) == Words(s, p)
  {
    if s != "" {
      var rest := TrimRight(s[1..], strip);
      TrimRightKeepsWords(s[1..], strip, p);
      if rest != "" {
        assert TrimRight(s, strip)[1..] == rest;
        TrimRightHead(s[1..], strip);
      }
    }
  }

  lemma TrimRightHead(s: string, strip: char -> bool)
    requires TrimRight(s, strip) != ""
    ensures s != "" && TrimRight(s, strip)[0] == s[0]
  {
  }
}

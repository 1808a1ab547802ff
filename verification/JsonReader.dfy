/**
 * A reader of JSON text after RFC 8259, sections 4 to 7, and the proof that it reads back every value that
 * is printed. It is written from the grammar, not from the printer. Insignificant white space, fractions and
 * exponents are not read.
 */
module JsonReader {
  import opened Wrappers
  import opened Ordering
  import opened Json

  /** Something read, and the text left. */
  datatype Read<+T> = Read(value: T, rest: string)

  // ---- strings ----

  /** The value of a hexadecimal digit in either case. */
  function HexValue(c: char): Option<nat> {
    if '0' <= c <= '9' then Some(c as int - '0' as int)
    else if 'a' <= c <= 'f' then Some(10 + (c as int - 'a' as int))
    else if 'A' <= c <= 'F' then Some(10 + (c as int - 'A' as int))
    else None
  }

  /** Four hexadecimal digits. */
  function ReadHex4(s: string): Option<nat> {
    if |s| < 4 then None
    else
      var a, b, c, d := HexValue(s[0]), HexValue(s[1]), HexValue(s[2]), HexValue(s[3]);
      if a.None? || b.None? || c.None? || d.None? then None
      else Some(((a.value * 16 + b.value) * 16 + c.value) * 16 + d.value)
  }

  /** The code after `\u`, which begins the text. */
  function ReadCode(s: string): Option<nat> {
    if |s| >= 6 && s[0] == '\\' && s[1] == 'u' then ReadHex4(s[2..]) else None
  }

  predicate IsHigh(n: nat) {
    0xd800 <= n <= 0xdbff
  }

  predicate IsLow(n: nat) {
    0xdc00 <= n <= 0xdfff
  }

  /** A character given by its code, or by two codes that form a surrogate pair. */
  function ReadCoded(s: string): Option<Read<char>> {
    var n := ReadCode(s);
    if n.None? || IsLow(n.value) || n.value >= 0x10000 then None
    else if !IsHigh(n.value) then Some(Read(n.value as char, s[6..]))
    else
      var m := ReadCode(s[6..]);
      if m.None? || !IsLow(m.value) then None
      else Some(Read((0x10000 + (n.value - 0xd800) * 0x400 + (m.value - 0xdc00)) as char, s[12..]))
  }

  /** The two-character escapes. */
  function ShortEscape(c: char): Option<char> {
    if c == '"' then Some('"')
    else if c == '\\' then Some('\\')
    else if c == '/' then Some('/')
    else if c == 'b' then Some(8 as char)
    else if c == 'f' then Some(12 as char)
    else if c == 'n' then Some(10 as char)
    else if c == 'r' then Some(13 as char)
    else if c == 't' then Some(9 as char)
    else None
  }

  /** One character of a string. */
  function ReadChar(s: string): (r: Option<Read<char>>)
    ensures r.Some? ==> |r.value.rest| < |s|
  {
    if s == "" || s[0] == '"' || s[0] < ' ' then None
    else if s[0] != '\\' then Some(Read(s[0], s[1..]))
    else if |s| < 2 then None
    else if s[1] == 'u' then ReadCoded(s)
    else
      var c := ShortEscape(s[1]);
      if c.None? then None else Some(Read(c.value, s[2..]))
  }

  /** The characters up to the closing quote. */
  function ReadBody(s: string): (r: Option<Read<string>>)
    ensures r.Some? ==> |r.value.rest| < |s|
    decreases |s|
  {
    if s == "" then None
    else if s[0] == '"' then Some(Read("", s[1..]))
    else
      var first := ReadChar(s);
      if first.None? then None
      else
        var others := ReadBody(first.value.rest);
        if others.None? then None
        else Some(Read([first.value.value] + others.value.value, others.value.rest))
  }

  function ReadString(s: string): (r: Option<Read<string>>)
    ensures r.Some? ==> |r.value.rest| < |s|
  {
    if s == "" || s[0] != '"' then None else ReadBody(s[1..])
  }

  // ---- numbers ----

  /** The number of leading digits. */
  function DigitRun(s: string): (n: nat)
    ensures n <= |s|
  {
    if s == "" || !('0' <= s[0] <= '9') then 0 else 1 + DigitRun(s[1..])
  }

  /** The value of decimal digits, read from the left. */
  function Decimal(s: string, before: nat): nat
    requires forall i :: 0 <= i < |s| ==> '0' <= s[i] <= '9'
  {
    if s == "" then before else Decimal(s[1..], 10 * before + (s[0] as int - '0' as int))
  }

  lemma {:induction false} DigitRunHolds(s: string)
    ensures forall i :: 0 <= i < DigitRun(s) ==> '0' <= s[i] <= '9'
  {
    if s != "" && '0' <= s[0] <= '9' {
      DigitRunHolds(s[1..]);
    }
  }

  /** Digits without a leading zero. */
  function ReadNat(s: string): (r: Option<Read<nat>>)
    ensures r.Some? ==> |r.value.rest| < |s|
  {
    var n := DigitRun(s);
    DigitRunHolds(s);
    if n == 0 || (n > 1 && s[0] == '0') then None else Some(Read(Decimal(s[..n], 0), s[n..]))
  }

  function ReadInt(s: string): (r: Option<Read<int>>)
    ensures r.Some? ==> |r.value.rest| < |s|
  {
    if s != "" && s[0] == '-' then
      var n := ReadNat(s[1..]);
      if n.None? then None
      else
        var minus: int := 0 - n.value.value;
        Some(Read(minus, n.value.rest))
    else
      var n := ReadNat(s);
      if n.None? then None else Some(Read(n.value.value, n.value.rest))
  }

  // ---- values ----

  function ReadValue(s: string): (r: Option<Read<Value>>)
    ensures r.Some? ==> |r.value.rest| < |s|
    decreases |s|, 1
  {
    if s == "" then None
    else if "null" <= s then Some(Read(Null, s[4..]))
    else if "true" <= s then Some(Read(Bool(true), s[4..]))
    else if "false" <= s then Some(Read(Bool(false), s[5..]))
    else if s[0] == '"' then
      var text := ReadString(s);
      if text.None? then None else Some(Read(Str(text.value.value), text.value.rest))
    else if s[0] == '[' then
      var items := if "[]" <= s then Some(Read([], s[2..])) else ReadItems(s[1..]);
      if items.None? then None else Some(Read(Arr(items.value.value), items.value.rest))
    else if s[0] == '{' then
      var members := if "{}" <= s then Some(Read([], s[2..])) else ReadMembers(s[1..]);
      if members.None? then None else Some(Read(Obj(members.value.value), members.value.rest))
    else
      var n := ReadInt(s);
      if n.None? then None else Some(Read(Int(n.value.value), n.value.rest))
  }

  /** One or more values separated by commas, and the closing bracket. */
  function ReadItems(s: string): (r: Option<Read<seq<Value>>>)
    ensures r.Some? ==> |r.value.rest| < |s|
    decreases |s|, 2
  {
    var first := ReadValue(s);
    if first.None? || first.value.rest == "" then None
    else
      var item, rest := first.value.value, first.value.rest;
      if rest[0] == ']' then Some(Read([item], rest[1..]))
      else if rest[0] != ',' then None
      else
        var others := ReadItems(rest[1..]);
        if others.None? then None else Some(Read([item] + others.value.value, others.value.rest))
  }

  /** A key, a colon and a value. */
  function ReadMember(s: string): (r: Option<Read<Keyed<Value>>>)
    ensures r.Some? ==> |r.value.rest| < |s|
    decreases |s|, 2
  {
    var key := ReadString(s);
    if key.None? || key.value.rest == "" || key.value.rest[0] != ':' then None
    else
      var value := ReadValue(key.value.rest[1..]);
      if value.None? then None else Some(Read(Keyed(key.value.value, value.value.value), value.value.rest))
  }

  /** One or more members separated by commas, and the closing brace. */
  function ReadMembers(s: string): (r: Option<Read<seq<Keyed<Value>>>>)
    ensures r.Some? ==> |r.value.rest| < |s|
    decreases |s|, 3
  {
    var first := ReadMember(s);
    if first.None? || first.value.rest == "" then None
    else
      var member, rest := first.value.value, first.value.rest;
      if rest[0] == '}' then Some(Read([member], rest[1..]))
      else if rest[0] != ',' then None
      else
        var others := ReadMembers(rest[1..]);
        if others.None? then None else Some(Read([member] + others.value.value, others.value.rest))
  }

  // ---- every printed value is read back ----

  lemma HexDigitRead(d: nat)
    requires d < 16
    ensures HexValue(HexDigit(d)) == Some(d)
  {
  }

  lemma HexDigitsOf(n: nat)
    requires n < 0x10000
    ensures n / 16 / 16 / 16 < 16
    ensures ((n / 16 / 16 / 16 * 16 + n / 16 / 16 % 16) * 16 + n / 16 % 16) * 16 + n % 16 == n
  {
  }

  lemma Hex4Read(n: nat, r: string)
    requires n < 0x10000
    ensures ReadHex4(Hex4(n) + r) == Some(n)
  {
    HexDigitsOf(n);
    HexDigitRead(n / 16 / 16 / 16);
    HexDigitRead(n / 16 / 16 % 16);
    HexDigitRead(n / 16 % 16);
    HexDigitRead(n % 16);
  }

  lemma CodeRead(n: nat, r: string)
    requires n < 0x10000
    ensures ReadCode(UnicodeEscape(n) + r) == Some(n) && (UnicodeEscape(n) + r)[6..] == r
    ensures (UnicodeEscape(n) + r)[..2] == ['\\', 'u']
  {
    Hex4Read(n, r);
    assert (UnicodeEscape(n) + r)[2..] == Hex4(n) + r;
  }

  lemma CodedRead(c: char, r: string)
    requires c as int < 0x10000
    ensures ReadCoded(UnicodeEscape(c as int) + r) == Some(Read(c, r))
  {
    CodeRead(c as int, r);
  }

  lemma PairRead(c: char, r: string)
    requires c as int >= 0x10000
    ensures var n := c as int;
            ReadCoded(UnicodeEscape(HighSurrogate(n)) + (UnicodeEscape(LowSurrogate(n)) + r)) == Some(Read(c, r))
  {
    var n := c as int;
    var low := UnicodeEscape(LowSurrogate(n)) + r;
    CodeRead(HighSurrogate(n), low);
    CodeRead(LowSurrogate(n), r);
    var s := UnicodeEscape(HighSurrogate(n)) + low;
    assert s[12..] == s[6..][6..];
    assert 0x10000 + (HighSurrogate(n) - 0xd800) * 0x400 + (LowSurrogate(n) - 0xdc00) == n;
  }

  lemma ShortRead(c: char, r: string)
    requires |Escape(c)| == 2
    ensures ReadChar(Escape(c) + r) == Some(Read(c, r))
  {
    EscapeForm(c);
    assert (Escape(c) + r)[2..] == r;
  }

  lemma ReadsCode(s: string)
    requires |s| >= 2 && s[0] == '\\' && s[1] == 'u'
    ensures ReadChar(s) == ReadCoded(s)
  {
  }

  lemma CodeStarts(n: nat, r: string)
    requires n < 0x10000
    ensures var s := UnicodeEscape(n) + r; |s| >= 2 && s[0] == '\\' && s[1] == 'u'
  {
  }

  lemma OneCode(c: char)
    requires !Plain(c) && |Escape(c)| != 2 && c as int < 0x10000
    ensures Escape(c) == UnicodeEscape(c as int)
  {
  }

  lemma TwoCodes(c: char)
    requires c as int >= 0x10000
    ensures Escape(c) == UnicodeEscape(HighSurrogate(c as int)) + UnicodeEscape(LowSurrogate(c as int))
  {
  }

  lemma LongRead(c: char, r: string)
    requires !Plain(c) && |Escape(c)| != 2
    ensures ReadChar(Escape(c) + r) == Some(Read(c, r))
    ensures (Escape(c) + r)[0] != '"'
  {
    var n := c as int;
    if n < 0x10000 {
      OneCode(c);
      CodeStarts(n, r);
      ReadsCode(UnicodeEscape(n) + r);
      CodedRead(c, r);
    } else {
      var high, low := UnicodeEscape(HighSurrogate(n)), UnicodeEscape(LowSurrogate(n));
      TwoCodes(c);
      Regroup(high, low, r);
      CodeStarts(HighSurrogate(n), low + r);
      ReadsCode(high + (low + r));
      PairRead(c, r);
    }
  }

  lemma CharRead(c: char, r: string)
    ensures ReadChar(Escape(c) + r) == Some(Read(c, r)) && (Escape(c) + r)[0] != '"'
  {
    EscapeForm(c);
    if Plain(c) {
      assert ([c] + r)[1..] == r;
    } else if |Escape(c)| == 2 {
      ShortRead(c, r);
    } else {
      LongRead(c, r);
    }
  }

  lemma {:induction false} BodyRead(s: string, r: string)
    ensures ReadBody(Body(s) + r) == Some(Read(s, r))
  {
    if s == "" {
      assert (['"'] + r)[1..] == r;
    } else {
      var rest := Body(s[1..]) + r;
      Regroup(Escape(s[0]), Body(s[1..]), r);
      CharRead(s[0], rest);
      BodyRead(s[1..], r);
      assert [s[0]] + s[1..] == s;
    }
  }

  lemma TailOf(c: char, rest: string)
    ensures ([c] + rest)[1..] == rest && ([c] + rest)[0] == c
  {
  }

  lemma StringRead(s: string, r: string)
    ensures ReadString(Quote(s) + r) == Some(Read(s, r)) && (Quote(s) + r)[0] == '"'
  {
    BodyRead(s, r);
    Regroup(['"'], Body(s), r);
    TailOf('"', Body(s) + r);
  }

  lemma {:induction false} DigitRunOf(a: string, r: string)
    requires AllDigits(a) && Stops(r)
    ensures DigitRun(a + r) == |a|
  {
    if a != "" {
      assert (a + r)[1..] == a[1..] + r;
      DigitRunOf(a[1..], r);
    } else {
      assert a + r == r;
    }
  }

  lemma {:induction false} DecimalAppend(a: string, d: nat, before: nat)
    requires d < 10 && AllDigits(a)
    ensures AllDigits(a + [Digit(d)])
    ensures Decimal(a + [Digit(d)], before) == 10 * Decimal(a, before) + d
  {
    var longer := a + [Digit(d)];
    if a != "" {
      assert longer[1..] == a[1..] + [Digit(d)];
      DecimalAppend(a[1..], d, 10 * before + (a[0] as int - '0' as int));
    } else {
      assert longer[1..] == "";
    }
  }

  lemma {:induction false} DecimalOf(n: nat)
    ensures AllDigits(NatText(n)) && Decimal(NatText(n), 0) == n
  {
    NatTextIsDigits(n);
    if n < 10 {
      assert NatText(n)[1..] == "";
    } else {
      DecimalOf(n / 10);
      DecimalAppend(NatText(n / 10), n % 10, 0);
    }
  }

  lemma {:induction false} NoLeadingZero(n: nat)
    ensures NatText(n) != [] && (n > 0 ==> NatText(n)[0] != '0') && (n == 0 ==> |NatText(n)| == 1)
  {
    if n >= 10 {
      NoLeadingZero(n / 10);
    }
  }

  lemma NatRead(n: nat, r: string)
    requires Stops(r)
    ensures ReadNat(NatText(n) + r) == Some(Read(n, r)) && '0' <= (NatText(n) + r)[0] <= '9'
  {
    DecimalOf(n);
    NoLeadingZero(n);
    DigitRunOf(NatText(n), r);
    assert (NatText(n) + r)[..|NatText(n)|] == NatText(n) && (NatText(n) + r)[|NatText(n)|..] == r;
  }

  lemma IntRead(n: int, r: string)
    requires Stops(r)
    ensures ReadInt(IntText(n) + r) == Some(Read(n, r))
    ensures IntText(n) + r != [] && ((IntText(n) + r)[0] == '-' || '0' <= (IntText(n) + r)[0] <= '9')
  {
    if n < 0 {
      MinusRead(-n, r);
      NegativeText(n);
    } else {
      NatRead(n, r);
    }
  }

  lemma MinusRead(n: nat, r: string)
    requires Stops(r)
    ensures var minus: int := 0 - n; ReadInt(['-'] + NatText(n) + r) == Some(Read(minus, r))
    ensures (['-'] + NatText(n) + r)[0] == '-'
  {
    NatRead(n, r);
    Regroup(['-'], NatText(n), r);
    TailOf('-', NatText(n) + r);
  }

  lemma WordRead(v: Value, r: string)
    requires v.Null? || v.Bool?
    ensures ReadValue(Print(v) + r) == Some(Read(v, r))
  {
    var text := Print(v);
    assert (text + r)[..|text|] == text && (text + r)[|text|..] == r;
    if v.Bool? && !v.b {
      assert text[0] == 'f' && (text + r)[0] == 'f';
    } else if v.Bool? {
      assert (text + r)[0] == 't';
    }
  }

  /** Text that does not start like a word is not one. */
  lemma NoWord(s: string)
    requires s != "" && s[0] != 'n' && s[0] != 't' && s[0] != 'f'
    ensures !("null" <= s) && !("true" <= s) && !("false" <= s)
  {
  }

  /** Printing and reading: whatever follows the value, the reader returns the value and leaves what follows. */
  lemma ValueRead(v: Value, r: string)
    requires Stops(r)
    ensures ReadValue(Print(v) + r) == Some(Read(v, r))
    decreases v, 2
  {
    match v
    case Null => WordRead(v, r);
    case Bool(_) => WordRead(v, r);
    case Int(n) =>
      IntRead(n, r);
      NoWord(IntText(n) + r);
    case Str(s) =>
      StringRead(s, r);
      NoWord(Quote(s) + r);
    case Arr(xs) => ArrRead(xs, r);
    case Obj(ms) => ObjRead(ms, r);
  }

  lemma ClosesAtOnce(text: string)
    requires "[]" <= text
    ensures text[1..][..1] == "]"
  {
    assert text[1] == text[..2][1];
  }

  lemma ArrRead(xs: seq<Value>, r: string)
    requires Stops(r)
    ensures ReadValue(Print(Arr(xs)) + r) == Some(Read(Arr(xs), r))
    decreases Arr(xs), 1
  {
    var text := Print(Arr(xs)) + r;
    ArrStep(xs, r);
    NoWord(text);
    if xs == [] {
      assert text[..2] == "[]" && text[2..] == r;
    } else {
      FirstItem(xs, r);
      assert text[1..] == Print(xs[0]) + (PrintItems(xs[1..]) + r);
      if "[]" <= text { ClosesAtOnce(text); }
      ItemsRead(Arr(xs), xs, r);
    }
  }

  /** How the items after the first go on. */
  lemma ItemsTail(xs: seq<Value>, r: string)
    ensures var tail := PrintItems(xs) + r;
            && tail != [] && Stops(tail)
            && (xs == [] ==> tail[0] == ']' && tail[1..] == r)
            && (xs != [] ==> tail[0] == ',' && tail[1..] == Print(xs[0]) + (PrintItems(xs[1..]) + r))
  {
    ItemsStep(xs, r);
    if xs == [] {
      TailOf(']', r);
    } else {
      TailOf(',', Print(xs[0]) + (PrintItems(xs[1..]) + r));
    }
  }

  lemma OneMoreItem(s: string, x: Value, tail: string, others: seq<Value>, r: string)
    requires ReadValue(s) == Some(Read(x, tail)) && tail != ""
    requires if others == [] then tail[0] == ']' && tail[1..] == r
             else tail[0] == ',' && ReadItems(tail[1..]) == Some(Read(others, r))
    ensures ReadItems(s) == Some(Read([x] + others, r))
  {
    assert [x] + [] == [x];
  }

  lemma {:induction false} ItemsRead(parent: Value, xs: seq<Value>, r: string)
    requires xs != [] && Stops(r) && forall x :: x in xs ==> x < parent
    ensures ReadItems(Print(xs[0]) + (PrintItems(xs[1..]) + r)) == Some(Read(xs, r))
    decreases parent, 0, |xs|
  {
    var x, others := xs[0], xs[1..];
    assert x in xs && forall y :: y in others ==> y in xs;
    assert xs == [x] + others;
    var tail := PrintItems(others) + r;
    ItemsTail(others, r);
    ValueRead(x, tail);
    if others != [] {
      ItemsRead(parent, others, r);
    }
    OneMoreItem(Print(x) + tail, x, tail, others, r);
  }

  lemma MemberRead(m: Keyed<Value>, r: string)
    requires Stops(r)
    ensures ReadMember(MemberText(m, r)) == Some(Read(m, r))
    decreases m.value, 3
  {
    var value := Print(m.value) + r;
    StringRead(m.key, [':'] + value);
    assert ([':'] + value)[1..] == value;
    ValueRead(m.value, r);
  }

  lemma ObjRead(ms: seq<Keyed<Value>>, r: string)
    requires Stops(r)
    ensures ReadValue(Print(Obj(ms)) + r) == Some(Read(Obj(ms), r))
    decreases Obj(ms), 1
  {
    var text := Print(Obj(ms)) + r;
    ObjStep(ms, r);
    NoWord(text);
    if ms == [] {
      assert text[..2] == "{}" && text[2..] == r;
    } else {
      assert text[1..] == MemberText(ms[0], PrintMembers(ms[1..]) + r);
      assert text[1] == '"';
      MembersRead(Obj(ms), ms, r);
    }
  }

  /** How the members after the first go on. */
  lemma MembersTail(ms: seq<Keyed<Value>>, r: string)
    ensures var tail := PrintMembers(ms) + r;
            && tail != [] && Stops(tail)
            && (ms == [] ==> tail[0] == '}' && tail[1..] == r)
            && (ms != [] ==> tail[0] == ',' && tail[1..] == MemberText(ms[0], PrintMembers(ms[1..]) + r))
  {
    MembersStep(ms, r);
    if ms == [] {
      TailOf('}', r);
    } else {
      TailOf(',', MemberText(ms[0], PrintMembers(ms[1..]) + r));
    }
  }

  lemma OneMoreMember(s: string, m: Keyed<Value>, tail: string, others: seq<Keyed<Value>>, r: string)
    requires ReadMember(s) == Some(Read(m, tail)) && tail != ""
    requires if others == [] then tail[0] == '}' && tail[1..] == r
             else tail[0] == ',' && ReadMembers(tail[1..]) == Some(Read(others, r))
    ensures ReadMembers(s) == Some(Read([m] + others, r))
  {
    assert [m] + [] == [m];
  }

  lemma {:induction false} MembersRead(parent: Value, ms: seq<Keyed<Value>>, r: string)
    requires ms != [] && Stops(r) && forall m :: m in ms ==> m.value < parent
    ensures ReadMembers(MemberText(ms[0], PrintMembers(ms[1..]) + r)) == Some(Read(ms, r))
    decreases parent, 0, |ms|
  {
    var m, others := ms[0], ms[1..];
    assert m in ms && forall x :: x in others ==> x in ms;
    assert ms == [m] + others;
    var tail := PrintMembers(others) + r;
    MembersTail(others, r);
    MemberRead(m, tail);
    if others != [] {
      MembersRead(parent, others, r);
    }
    OneMoreMember(MemberText(m, tail), m, tail, others, r);
  }

  /** Reading what was printed gives the value back. */
  lemma ReadBack(v: Value)
    ensures ReadValue(Print(v)) == Some(Read(v, ""))
  {
    ValueRead(v, "");
    assert Print(v) + "" == Print(v);
  }
}

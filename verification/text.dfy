/** String helpers shared by the whole model: Python's `strip`, `lower`,
    `str(int)`, `int(str)`, `isdigit`, `sep.join(...)`, `s.split(c)` and
    substring search, each over `seq<char>`. */
module Text {
  import opened Wrappers

  /** The characters `str.isspace()` accepts, which are the ones `str.strip()`
      and `int()` remove: the ASCII controls tab to carriage return, the
      separators U+001C to U+001F, space, U+0085, the no-break space and
      the other Unicode space separators, and the line and paragraph
      separators. */
  predicate IsSpace(c: char) {
    || '\U{9}' <= c <= '\U{D}'
    || '\U{1C}' <= c <= '\U{20}'
    || c == '\U{85}' || c == '\U{A0}' || c == '\U{1680}'
    || '\U{2000}' <= c <= '\U{200A}'
    || c == '\U{2028}' || c == '\U{2029}' || c == '\U{202F}' || c == '\U{205F}'
    || c == '\U{3000}'
  }

  predicate IsDigit(c: char) {
    '0' <= c <= '9'
  }

  /** Non-empty and every character an ASCII digit '0' to '9': the strings
      `str(n)` yields and the model's own numerals. Python's `str.isdigit()`
      accepts more; it is `IsDigitString` below. */
  predicate IsDigits(s: string) {
    |s| > 0 && forall i :: 0 <= i < |s| ==> IsDigit(s[i])
  }

  // ---------------------------------------------------------------------
  // Unicode digits (the character database of Unicode 15.0, as Python 3.12
  // ships it)

  /** The decimal digits (general category Nd) of Unicode 15.0, as Python
      3.12 ships them, come in runs of ten holding 0 to 9 in order. These
      are the characters `str.isdecimal()` accepts and `int()` reads. */
  const RunCount: nat := 68

  /** The code point of the zero of run `k`; the runs ascend. */
  function ZeroOfRun(k: nat): int
    requires k < RunCount
  {
    if k < 34 then
      if k < 17 then
        if k < 8 then
          if k == 0 then 0x30 else if k == 1 then 0x660 else if k == 2 then 0x6F0 else
          if k == 3 then 0x7C0 else if k == 4 then 0x966 else if k == 5 then 0x9E6 else
          if k == 6 then 0xA66 else 0xAE6
        else
          if k == 8 then 0xB66 else if k == 9 then 0xBE6 else if k == 10 then 0xC66 else
          if k == 11 then 0xCE6 else if k == 12 then 0xD66 else if k == 13 then 0xDE6 else
          if k == 14 then 0xE50 else if k == 15 then 0xED0 else 0xF20
      else
        if k < 25 then
          if k == 17 then 0x1040 else if k == 18 then 0x1090 else if k == 19 then 0x17E0 else
          if k == 20 then 0x1810 else if k == 21 then 0x1946 else if k == 22 then 0x19D0 else
          if k == 23 then 0x1A80 else 0x1A90
        else
          if k == 25 then 0x1B50 else if k == 26 then 0x1BB0 else if k == 27 then 0x1C40 else
          if k == 28 then 0x1C50 else if k == 29 then 0xA620 else if k == 30 then 0xA8D0 else
          if k == 31 then 0xA900 else if k == 32 then 0xA9D0 else 0xA9F0
    else
      if k < 51 then
        if k < 42 then
          if k == 34 then 0xAA50 else if k == 35 then 0xABF0 else if k == 36 then 0xFF10 else
          if k == 37 then 0x104A0 else if k == 38 then 0x10D30 else if k == 39 then 0x11066 else
          if k == 40 then 0x110F0 else 0x11136
        else
          if k == 42 then 0x111D0 else if k == 43 then 0x112F0 else if k == 44 then 0x11450 else
          if k == 45 then 0x114D0 else if k == 46 then 0x11650 else if k == 47 then 0x116C0 else
          if k == 48 then 0x11730 else if k == 49 then 0x118E0 else 0x11950
      else
        if k < 59 then
          if k == 51 then 0x11C50 else if k == 52 then 0x11D50 else if k == 53 then 0x11DA0 else
          if k == 54 then 0x11F50 else if k == 55 then 0x16A60 else if k == 56 then 0x16AC0 else
          if k == 57 then 0x16B50 else 0x1D7CE
        else
          if k == 59 then 0x1D7D8 else if k == 60 then 0x1D7E2 else if k == 61 then 0x1D7EC else
          if k == 62 then 0x1D7F6 else if k == 63 then 0x1E140 else if k == 64 then 0x1E2F0 else
          if k == 65 then 0x1E4F0 else if k == 66 then 0x1E950 else 0x1FBF0
  }

  /** No run overlaps the next. */
  lemma RunsAscend(k: nat)
    requires k + 1 < RunCount
    ensures ZeroOfRun(k) + 10 <= ZeroOfRun(k + 1)
  {
  }

  /** Each later run starts at least ten code points further on. */
  lemma {:induction false} RunsAscendFrom(k: nat, j: nat)
    requires k < j < RunCount
    ensures ZeroOfRun(k) + 10 <= ZeroOfRun(j)
    decreases j - k
  {
    RunsAscend(k);
    if k + 1 < j {
      RunsAscendFrom(k + 1, j);
    }
  }

  /** The digit value of code point `n` if one of the runs from `k` on holds
      it; the scan stops once the runs start above `n`. */
  function RunValueFrom(n: int, k: nat): (r: Option<nat>)
    requires k <= RunCount
    ensures r.Some? ==> r.value < 10
    decreases RunCount - k
  {
    if k == RunCount || n < ZeroOfRun(k) then None
    else if n < ZeroOfRun(k) + 10 then Some(n - ZeroOfRun(k))
    else RunValueFrom(n, k + 1)
  }

  /** The scan finds `v` exactly when some run from `k` on holds `n` at
      offset `v`. */
  lemma {:induction false} RunValueFromSpec(n: int, k: nat, v: nat)
    requires k <= RunCount
    ensures RunValueFrom(n, k) == Some(v) <==>
      exists j :: k <= j < RunCount && ZeroOfRun(j) <= n < ZeroOfRun(j) + 10 && v == n - ZeroOfRun(j)
    decreases RunCount - k
  {
    if k < RunCount {
      if n < ZeroOfRun(k) + 10 {
        forall j | k < j < RunCount ensures n < ZeroOfRun(j) {
          RunsAscendFrom(k, j);
        }
      } else {
        RunValueFromSpec(n, k + 1, v);
      }
    }
  }

  /** `unicodedata.decimal(chr(n), None)`: the value of a decimal digit,
      `None` for any other code point. */
  function DecimalAt(n: int): (r: Option<nat>)
    ensures r.Some? ==> r.value < 10
    ensures '0' as int <= n <= '9' as int ==> r == Some(n - '0' as int)
  {
    RunValueFrom(n, 0)
  }

  /** A code point is the decimal digit `v` exactly when one of the runs
      holds it at offset `v`. */
  lemma DecimalAtRuns(n: int, v: nat)
    ensures DecimalAt(n) == Some(v) <==>
      exists j :: 0 <= j < RunCount && ZeroOfRun(j) <= n < ZeroOfRun(j) + 10 && v == n - ZeroOfRun(j)
  {
    RunValueFromSpec(n, 0, v);
  }

  /** Each decimal digit sits in a whole run of ten: from a digit of value
      `v`, the code point `d - v` further on is the digit `d`. */
  lemma RunOfTen(n: int, v: nat, d: nat)
    requires DecimalAt(n) == Some(v) && d < 10
    ensures DecimalAt(n - v + d) == Some(d)
  {
    DecimalAtRuns(n, v);
    var j :| 0 <= j < RunCount && ZeroOfRun(j) <= n < ZeroOfRun(j) + 10 && v == n - ZeroOfRun(j);
    DecimalAtRuns(n - v + d, d);
  }

  function DecimalValue(c: char): (r: Option<nat>)
    ensures r.Some? ==> r.value < 10
    ensures IsDigit(c) ==> r == Some(DigitValue(c))
  {
    DecimalAt(c as int)
  }

  /** The digits that are not decimal (Unicode numeric type Digit):
      superscripts and subscripts, Ethiopic digits, circled, parenthesised
      and full-stop digits, dingbat digits and a few historic ones.
      `str.isdigit()` accepts them; `int()` rejects them. */
  predicate IsOtherDigit(c: char) {
    || '\U{B2}' <= c <= '\U{B3}' || c == '\U{B9}'
    || '\U{1369}' <= c <= '\U{1371}' || c == '\U{19DA}'
    || c == '\U{2070}' || '\U{2074}' <= c <= '\U{2079}' || '\U{2080}' <= c <= '\U{2089}'
    || '\U{2460}' <= c <= '\U{2468}' || '\U{2474}' <= c <= '\U{247C}' || '\U{2488}' <= c <= '\U{2490}'
    || c == '\U{24EA}' || '\U{24F5}' <= c <= '\U{24FD}' || c == '\U{24FF}'
    || '\U{2776}' <= c <= '\U{277E}' || '\U{2780}' <= c <= '\U{2788}' || '\U{278A}' <= c <= '\U{2792}'
    || '\U{10A40}' <= c <= '\U{10A43}' || '\U{10E60}' <= c <= '\U{10E68}' || '\U{11052}' <= c <= '\U{1105A}'
    || '\U{1F100}' <= c <= '\U{1F10A}'
  }

  /** `str.isdigit()` on one character: a decimal digit or another digit. */
  predicate IsDigitChar(c: char) {
    DecimalValue(c).Some? || IsOtherDigit(c)
  }

  /** `str.isdigit()`: non-empty and every character a digit of any kind. */
  predicate IsDigitString(s: string) {
    |s| > 0 && forall i :: 0 <= i < |s| ==> IsDigitChar(s[i])
  }

  /** The value `int()` reads from a string of decimal digits of any script,
      most significant first; `None` when some character is not a decimal
      digit, where `int()` raises. The empty string reads as 0 here. */
  function ReadDecimal(s: string): (r: Option<nat>)
    ensures r.Some? <==> forall i :: 0 <= i < |s| ==> DecimalValue(s[i]).Some?
    ensures (forall i :: 0 <= i < |s| ==> IsDigit(s[i])) ==> r == Some(ParseNat(s))
  {
    if s == [] then Some(0)
    else
      var init := ReadDecimal(s[..|s| - 1]);
      var last := DecimalValue(s[|s| - 1]);
      assert forall i :: 0 <= i < |s| - 1 ==> s[..|s| - 1][i] == s[i];
      if init.Some? && last.Some? then Some(10 * init.value + last.value) else None
  }

  /** One character that is not a decimal digit stops `int()`. */
  lemma ReadDecimalRejects(s: string, i: nat)
    requires i < |s| && DecimalValue(s[i]).None?
    ensures ReadDecimal(s).None?
  {
  }

  /** Neither sign character is a decimal digit. */
  lemma SignNotDecimal(c: char)
    requires c == '+' || c == '-'
    ensures DecimalValue(c).None?
  {
    if c == '+' {
      assert DecimalValue('+').None?;
    } else {
      assert DecimalValue('-').None?;
    }
  }

  /** No decimal digit is whitespace. */
  lemma DecimalNotSpace(c: char)
    requires DecimalValue(c).Some?
    ensures !IsSpace(c)
  {
    var v := DecimalValue(c).value;
    DecimalAtRuns(c as int, v);
    var j :| 0 <= j < RunCount && ZeroOfRun(j) <= c as int < ZeroOfRun(j) + 10;
  }

  // ---------------------------------------------------------------------
  // strip / lower

  function TrimLeft(s: string): (r: string)
    ensures |r| <= |s| && r == s[|s| - |r|..]
    ensures r == [] || !IsSpace(r[0])
    ensures forall i :: 0 <= i < |s| - |r| ==> IsSpace(s[i])
  {
    if s != [] && IsSpace(s[0]) then TrimLeft(s[1..]) else s
  }

  function TrimRight(s: string): (r: string)
    ensures |r| <= |s| && r == s[..|r|]
    ensures r == [] || !IsSpace(r[|r| - 1])
    ensures forall i :: |r| <= i < |s| ==> IsSpace(s[i])
  {
    if s != [] && IsSpace(s[|s| - 1]) then TrimRight(s[..|s| - 1]) else s
  }

  /** `s.strip()`: the longest slice of `s` that neither starts nor ends with whitespace. */
  function Trim(s: string): (r: string)
    ensures r == [] || (!IsSpace(r[0]) && !IsSpace(r[|r| - 1]))
    ensures |r| <= |s|
  {
    TrimRight(TrimLeft(s))
  }

  /** `str.lower()` on one character, for ASCII and the Russian alphabet. */
  function LowerChar(c: char): char {
    if 'A' <= c <= 'Z' then (c as int + 32) as char
    else if '\U{410}' <= c <= '\U{42F}' then (c as int + 32) as char
    else if c == '\U{401}' then '\U{451}'
    else c
  }

  function Lower(s: string): (r: string)
    ensures |r| == |s|
    ensures forall i :: 0 <= i < |s| ==> r[i] == LowerChar(s[i])
  {
    seq(|s|, i requires 0 <= i < |s| => LowerChar(s[i]))
  }

  /** The key the tariff tables and the checkout use for a city: `s.strip().lower()`. */
  function Normalize(s: string): string {
    Lower(Trim(s))
  }

  lemma LowerCharIdempotent(c: char)
    ensures LowerChar(LowerChar(c)) == LowerChar(c)
    ensures IsSpace(LowerChar(c)) <==> IsSpace(c)
  {
  }

  lemma LowerIdempotent(s: string)
    ensures Lower(Lower(s)) == Lower(s)
  {
    forall i | 0 <= i < |s| {
      LowerCharIdempotent(s[i]);
    }
  }

  lemma TrimOfTrimmed(s: string)
    requires s == [] || (!IsSpace(s[0]) && !IsSpace(s[|s| - 1]))
    ensures Trim(s) == s
  {
  }

  /** Normalising twice is normalising once: lower-casing keeps the ends free of
      whitespace, so the second `strip` removes nothing. */
  lemma NormalizeIdempotent(s: string)
    ensures Normalize(Normalize(s)) == Normalize(s)
  {
    var t := Trim(s);
    var l := Lower(t);
    if l != [] {
      LowerCharIdempotent(t[0]);
      LowerCharIdempotent(t[|t| - 1]);
    }
    TrimOfTrimmed(l);
    LowerIdempotent(t);
  }

  /** Surrounding whitespace never changes the key: `"  X  "` and `"X"` normalise alike. */
  lemma NormalizePadded(s: string, pre: string, post: string)
    requires AllSpace(pre)
    requires AllSpace(post)
    ensures Normalize(pre + s + post) == Normalize(s)
  {
    TrimPadded(s, pre, post);
  }

  predicate AllSpace(s: string) {
    forall i :: 0 <= i < |s| ==> IsSpace(s[i])
  }

  lemma {:induction false} TrimLeftPadded(s: string, pre: string)
    requires AllSpace(pre)
    ensures TrimLeft(pre + s) == TrimLeft(s)
    decreases |pre|
  {
    if pre != [] {
      var t := pre[1..];
      assert (pre + s)[0] == pre[0] && IsSpace(pre[0]);
      assert (pre + s)[1..] == t + s;
      assert AllSpace(t) by {
        forall i | 0 <= i < |t| ensures IsSpace(t[i]) {
          assert t[i] == pre[i + 1];
        }
      }
      TrimLeftPadded(s, t);
      calc {
        TrimLeft(pre + s);
        TrimLeft((pre + s)[1..]);
        TrimLeft(t + s);
      }
    } else {
      assert pre + s == s;
    }
  }

  lemma {:induction false} TrimRightPadded(s: string, post: string)
    requires AllSpace(post)
    ensures TrimRight(s + post) == TrimRight(s)
    decreases |post|
  {
    if post != [] {
      var t := post[..|post| - 1];
      assert (s + post)[|s + post| - 1] == post[|post| - 1] && IsSpace(post[|post| - 1]);
      assert (s + post)[..|s + post| - 1] == s + t;
      assert AllSpace(t) by {
        forall i | 0 <= i < |t| ensures IsSpace(t[i]) {
          assert t[i] == post[i];
        }
      }
      TrimRightPadded(s, t);
      calc {
        TrimRight(s + post);
        TrimRight((s + post)[..|s + post| - 1]);
        TrimRight(s + t);
      }
    } else {
      assert s + post == s;
    }
  }

  lemma {:induction false} TrimLeftOfRightPadded(s: string, post: string)
    requires AllSpace(post)
    ensures TrimLeft(s + post) == TrimLeft(s) + post || (TrimLeft(s) == [] && TrimLeft(s + post) == [])
    decreases |s| + |post|
  {
    if s == [] {
      assert s + post == post;
      if post != [] {
        TrimLeftAllSpace(post);
      }
    } else if IsSpace(s[0]) {
      assert (s + post)[1..] == s[1..] + post;
      TrimLeftOfRightPadded(s[1..], post);
    }
  }

  lemma TrimLeftAllSpace(s: string)
    requires AllSpace(s)
    ensures TrimLeft(s) == []
  {
  }

  lemma TrimRightAllSpace(s: string)
    requires AllSpace(s)
    ensures TrimRight(s) == []
  {
  }

  lemma TrimPadded(s: string, pre: string, post: string)
    requires AllSpace(pre)
    requires AllSpace(post)
    ensures Trim(pre + s + post) == Trim(s)
  {
    var sp := s + post;
    assert pre + s + post == pre + sp;
    TrimLeftPadded(sp, pre);
    assert TrimLeft(pre + s + post) == TrimLeft(sp);
    TrimLeftOfRightPadded(s, post);
    var l := TrimLeft(s);
    if TrimLeft(sp) == l + post {
      TrimRightPadded(l, post);
      assert TrimRight(l + post) == TrimRight(l);
    } else {
      assert TrimLeft(sp) == [] && l == [];
    }
  }

  // ---------------------------------------------------------------------
  // str(int) and int(str)

  function DigitChar(d: nat): char
    requires d < 10
  {
    ('0' as int + d) as char
  }

  function DigitValue(c: char): nat
    requires IsDigit(c)
  {
    c as int - '0' as int
  }

  /** `str(n)` for a non-negative integer: decimal digits, no leading zero. */
  function NatToString(n: nat): (r: string)
    ensures IsDigits(r)
    ensures r[0] == '0' ==> n == 0
    ensures n < 10 <==> |r| == 1
  {
    if n < 10 then [DigitChar(n)] else NatToString(n / 10) + [DigitChar(n % 10)]
  }

  /** `int(s)` for a string of decimal digits (leading zeros allowed). */
  function ParseNat(s: string): nat
    requires forall i :: 0 <= i < |s| ==> IsDigit(s[i])
  {
    if s == [] then 0 else 10 * ParseNat(s[..|s| - 1]) + DigitValue(s[|s| - 1])
  }

  /** `int(str(n)) == n`. */
  lemma {:induction false} ParseNatToString(n: nat)
    ensures ParseNat(NatToString(n)) == n
  {
    var s := NatToString(n);
    if n >= 10 {
      assert s[..|s| - 1] == NatToString(n / 10);
      ParseNatToString(n / 10);
    }
  }

  /** Distinct ids render as distinct strings, so `str(pk)` is a faithful key. */
  lemma NatToStringInjective(a: nat, b: nat)
    requires NatToString(a) == NatToString(b)
    ensures a == b
  {
    ParseNatToString(a);
    ParseNatToString(b);
  }

  // ---------------------------------------------------------------------
  // join / split / search

  /** `sep.join(parts)`. */
  function JoinWith(sep: string, parts: seq<string>): string {
    if |parts| == 0 then ""
    else if |parts| == 1 then parts[0]
    else parts[0] + sep + JoinWith(sep, parts[1..])
  }

  /** `s.split(c)` for a one-character separator: never empty. */
  function SplitOn(c: char, s: string): (r: seq<string>)
    ensures |r| >= 1
  {
    if s == [] then [""]
    else
      var rest := SplitOn(c, s[1..]);
      if s[0] == c then [""] + rest else [[s[0]] + rest[0]] + rest[1..]
  }

  lemma {:induction false} SplitWithout(c: char, p: string)
    requires c !in p
    ensures SplitOn(c, p) == [p]
  {
    if p != [] {
      assert c !in p[1..] && p[0] != c;
      SplitWithout(c, p[1..]);
      assert [p[0]] + p[1..] == p;
    }
  }

  lemma {:induction false} SplitAfterPart(c: char, p: string, t: string)
    requires c !in p
    ensures SplitOn(c, p + [c] + t) == [p] + SplitOn(c, t)
  {
    if p != [] {
      assert c !in p[1..] && p[0] != c;
      assert (p + [c] + t)[0] == p[0];
      assert (p + [c] + t)[1..] == p[1..] + [c] + t;
      SplitAfterPart(c, p[1..], t);
      assert [p[0]] + p[1..] == p;
    } else {
      assert p + [c] + t == [c] + t;
      assert ([c] + t)[1..] == t;
    }
  }

  /** Splitting a join on its separator recovers the parts when no part contains it. */
  lemma {:induction false} SplitJoin(c: char, parts: seq<string>)
    requires |parts| >= 1
    requires forall i :: 0 <= i < |parts| ==> c !in parts[i]
    ensures SplitOn(c, JoinWith([c], parts)) == parts
  {
    if |parts| == 1 {
      SplitWithout(c, parts[0]);
    } else {
      SplitAfterPart(c, parts[0], JoinWith([c], parts[1..]));
      SplitJoin(c, parts[1..]);
    }
  }

  /** A separator between two texts separates their fields. */
  lemma {:induction false} SplitConcat(c: char, s: string, t: string)
    ensures SplitOn(c, s + [c] + t) == SplitOn(c, s) + SplitOn(c, t)
  {
    if s == [] {
      assert s + [c] + t == [c] + t;
      assert ([c] + t)[1..] == t;
    } else {
      assert (s + [c] + t)[0] == s[0];
      assert (s + [c] + t)[1..] == s[1..] + [c] + t;
      SplitConcat(c, s[1..], t);
    }
  }

  /** The fields of every part, one after another. */
  function SplitAll(c: char, parts: seq<string>): (r: seq<string>)
    ensures |r| >= |parts|
  {
    if parts == [] then [] else SplitOn(c, parts[0]) + SplitAll(c, parts[1..])
  }

  /** Splitting a join yields the fields of the parts in order, empty parts
      included: a join never loses or merges a field boundary. */
  lemma {:induction false} SplitJoinAll(c: char, parts: seq<string>)
    requires |parts| >= 1
    ensures SplitOn(c, JoinWith([c], parts)) == SplitAll(c, parts)
  {
    if |parts| == 1 {
      assert SplitAll(c, parts) == SplitOn(c, parts[0]) + SplitAll(c, []);
    } else {
      SplitConcat(c, parts[0], JoinWith([c], parts[1..]));
      SplitJoinAll(c, parts[1..]);
    }
  }

  lemma {:induction false} SplitAllAppend(c: char, a: seq<string>, b: seq<string>)
    ensures SplitAll(c, a + b) == SplitAll(c, a) + SplitAll(c, b)
  {
    if a == [] {
      assert a + b == b;
    } else {
      assert (a + b)[0] == a[0] && (a + b)[1..] == a[1..] + b;
      SplitAllAppend(c, a[1..], b);
      assert SplitAll(c, a + b) == SplitOn(c, a[0]) + SplitAll(c, a[1..] + b);
      assert SplitAll(c, a) == SplitOn(c, a[0]) + SplitAll(c, a[1..]);
    }
  }

  lemma SplitAllPair(c: char, x: string, y: string)
    ensures SplitAll(c, [x, y]) == SplitOn(c, x) + SplitOn(c, y)
  {
    assert [x, y][1..] == [y] && [y][1..] == [];
    assert SplitAll(c, [y]) == SplitOn(c, y) + SplitAll(c, []);
  }

  lemma {:induction false} SplitAllWithout(c: char, parts: seq<string>)
    requires forall i :: 0 <= i < |parts| ==> c !in parts[i]
    ensures SplitAll(c, parts) == parts
  {
    if parts != [] {
      SplitWithout(c, parts[0]);
      SplitAllWithout(c, parts[1..]);
      assert parts == [parts[0]] + parts[1..];
    }
  }

  /** The first field of `s.split(c)`: the text before the first `c`. */
  lemma {:induction false} SplitHead(c: char, s: string)
    ensures |SplitOn(c, s)[0]| <= |s| && SplitOn(c, s)[0] == s[..|SplitOn(c, s)[0]|]
    ensures c !in SplitOn(c, s)[0]
    ensures |SplitOn(c, s)[0]| < |s| ==> s[|SplitOn(c, s)[0]|] == c
  {
    if s != [] {
      SplitHead(c, s[1..]);
    }
  }

  predicate IsPrefix(p: string, s: string) {
    |p| <= |s| && s[..|p|] == p
  }

  /** Substring test, the `__contains` lookup. */
  predicate Contains(s: string, sub: string)
    decreases |s|
  {
    IsPrefix(sub, s) || (s != [] && Contains(s[1..], sub))
  }

  /** Case-insensitive substring test, the `__icontains` lookup. */
  predicate ContainsIgnoreCase(s: string, sub: string) {
    Contains(Lower(s), Lower(sub))
  }
}

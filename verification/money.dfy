/** Money and weights as exact reals. The source keeps them as `Decimal`
    values quantised to two places (`quantize(Decimal("1.00"))`) and prints
    them with `f"{x:.2f}"`. */
module Money {
  import opened Text
  import opened Wrappers

  /** A whole number of kopecks: at most two decimal places. */
  predicate IsCents(x: real) {
    (x * 100.0).Floor as real == x * 100.0
  }

  lemma FloorBounds(y: real)
    ensures y.Floor as real <= y < y.Floor as real + 1.0
  {
  }

  lemma FloorOfInt(k: int)
    ensures (k as real).Floor == k
  {
  }

  /** `r` is `x` rounded to the nearest kopeck, a tie going to the even
      kopeck: the rounding `quantize` applies in the default decimal context
      (`ROUND_HALF_EVEN`). */
  predicate NearestKopeck(x: real, r: real) {
    && IsCents(r)
    && x - 0.005 <= r <= x + 0.005
    && ((r - x == 0.005 || x - r == 0.005) ==> (r * 100.0).Floor % 2 == 0)
  }

  /** The kopeck count `quantize(Decimal("1.00"))` lands on: the nearest
      whole number to `x * 100`, the even one on a tie. */
  function HalfEven(y: real): int {
    var k := (y + 0.5).Floor;
    if k as real == y + 0.5 && k % 2 == 1 then k - 1 else k
  }

  /** Quantisation to two decimal places. */
  function Round2(x: real): (r: real)
    ensures NearestKopeck(x, r)
    ensures IsCents(x) ==> r == x
  {
    RoundFacts(x);
    HalfEven(x * 100.0) as real / 100.0
  }

  /** The half-even kopeck count is within half a kopeck of `y`, even on a
      tie, and `y` itself when `y` is whole. */
  lemma HalfEvenFacts(y: real)
    ensures y - 0.5 <= HalfEven(y) as real <= y + 0.5
    ensures HalfEven(y) as real == y + 0.5 || HalfEven(y) as real == y - 0.5 ==> HalfEven(y) % 2 == 0
    ensures y.Floor as real == y ==> HalfEven(y) as real == y
  {
    var k := (y + 0.5).Floor;
    FloorBounds(y + 0.5);
    if y.Floor as real == y {
      var m := y.Floor;
      assert k as real <= m as real + 0.5 < k as real + 1.0;
      assert k == m;
    }
  }

  lemma RoundFacts(x: real)
    ensures NearestKopeck(x, HalfEven(x * 100.0) as real / 100.0)
    ensures IsCents(x) ==> HalfEven(x * 100.0) as real / 100.0 == x
  {
    var y := x * 100.0;
    var j := HalfEven(y);
    var r := j as real / 100.0;
    HalfEvenFacts(y);
    FloorOfInt(j);
    assert r * 100.0 == j as real;
    assert IsCents(r);
    assert r - x == 0.005 ==> j as real == y + 0.5;
    assert x - r == 0.005 ==> j as real == y - 0.5;
  }

  /** Rounding to the nearest kopeck, half to even, preserves order. */
  lemma Round2Monotone(x: real, y: real)
    requires x <= y
    ensures Round2(x) <= Round2(y)
  {
    var a := (x * 100.0 + 0.5).Floor;
    var b := (y * 100.0 + 0.5).Floor;
    FloorBounds(x * 100.0 + 0.5);
    FloorBounds(y * 100.0 + 0.5);
    assert a as real < b as real + 1.0;
    assert a <= b;
    assert HalfEven(x * 100.0) <= HalfEven(y * 100.0) by {
      if a == b && b as real == y * 100.0 + 0.5 && b % 2 == 1 {
        assert a as real == x * 100.0 + 0.5;
      }
    }
  }

  /** Ties go to the even kopeck: 0.125 becomes 0.12 and 0.135 becomes 0.14. */
  lemma Round2Ties()
    ensures Round2(0.125) == 0.12
    ensures Round2(0.135) == 0.14
  {
    assert (0.125 * 100.0 + 0.5).Floor == 13;
    assert (0.135 * 100.0 + 0.5).Floor == 14;
  }

  lemma CentsSum(x: real, y: real)
    requires IsCents(x) && IsCents(y)
    ensures IsCents(x + y)
  {
    var a := (x * 100.0).Floor;
    var b := (y * 100.0).Floor;
    assert (x + y) * 100.0 == (a + b) as real;
  }

  /** The amount in kopecks. */
  function ToKopecks(x: real): (k: nat)
    requires IsCents(x) && x >= 0.0
    ensures k as real == x * 100.0
  {
    (x * 100.0).Floor
  }

  /** `f"{x:.2f}"` for a non-negative amount in whole kopecks. */
  function Format2(x: real): string
    requires IsCents(x) && x >= 0.0
  {
    FormatKopecks(ToKopecks(x))
  }

  function FormatKopecks(k: nat): string {
    JoinWith(".", [NatToString(k / 100), TwoDigits(k % 100)])
  }

  function TwoDigits(n: nat): string
    requires n < 100
  {
    [DigitChar(n / 10), DigitChar(n % 10)]
  }

  lemma ParseTwoDigits(n: nat)
    requires n < 100
    ensures IsDigits(TwoDigits(n)) && ParseNat(TwoDigits(n)) == n
  {
    var s := TwoDigits(n);
    assert s[..1] == [DigitChar(n / 10)];
    assert s[..1][..0] == [];
    assert DigitValue(DigitChar(n / 10)) == n / 10;
    assert DigitValue(DigitChar(n % 10)) == n % 10;
    assert ParseNat(s[..1]) == n / 10;
    assert ParseNat(s) == 10 * ParseNat(s[..1]) + DigitValue(s[1]);
  }

  /** Reads back an amount printed as `<digits>.<digits>`; `None` for any other text. */
  function ParseAmount(s: string): Option<real> {
    var parts := SplitOn('.', s);
    if |parts| == 2 && IsDigits(parts[0]) && |parts[1]| == 2 && IsDigits(parts[1])
    then Some(ParseNat(parts[0]) as real + ParseNat(parts[1]) as real / 100.0)
    else None
  }

  lemma {:induction false} FormatKopecksParse(k: nat)
    ensures |SplitOn('.', FormatKopecks(k))| == 2
    ensures SplitOn('.', FormatKopecks(k)) == [NatToString(k / 100), TwoDigits(k % 100)]
    ensures ParseAmount(FormatKopecks(k)) == Some(k as real / 100.0)
  {
    var whole := NatToString(k / 100);
    var frac := TwoDigits(k % 100);
    var parts: seq<string> := [whole, frac];
    assert '.' !in whole && '.' !in frac;
    assert forall i :: 0 <= i < |parts| ==> '.' !in parts[i];
    SplitJoin('.', parts);
    ParseNatToString(k / 100);
    ParseTwoDigits(k % 100);
    assert (k / 100) as real + (k % 100) as real / 100.0 == k as real / 100.0;
  }

  /** The printed quote has a whole part, a point and exactly two digits, and
      reads back as the same amount. */
  lemma FormatParse(x: real)
    requires IsCents(x) && x >= 0.0
    ensures ParseAmount(Format2(x)) == Some(x)
    ensures |SplitOn('.', Format2(x))| == 2 && |SplitOn('.', Format2(x))[1]| == 2
  {
    FormatKopecksParse(ToKopecks(x));
  }

  lemma CentsNeg(x: real)
    requires IsCents(x)
    ensures IsCents(-x)
  {
    var a := (x * 100.0).Floor;
    assert -x * 100.0 == (-a) as real;
  }

  /** `f"{x:.2f}"` for any amount in whole kopecks: a minus sign before a
      negative one. */
  function FormatSigned(x: real): string
    requires IsCents(x)
  {
    CentsNeg(x);
    if x < 0.0 then "-" + Format2(-x) else Format2(x)
  }
}

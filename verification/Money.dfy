/**
 * Monetary arithmetic (packages/pricing/src/money.ts). Decimals are exact reals, amounts are
 * integer cents, and rounding happens only through the functions of this module.
 */
module Money {

  datatype RoundingMode = HALF_AWAY_FROM_ZERO | HALF_EVEN

  /** Nearest integer, ties broken by the mode. */
  function Round(x: real, mode: RoundingMode): int {
    var below := x.Floor;
    var fraction := x - below as real;
    if fraction < 0.5 then below
    else if fraction > 0.5 then below + 1
    else match mode
         case HALF_AWAY_FROM_ZERO => if x >= 0.0 then below + 1 else below
         case HALF_EVEN => if below % 2 == 0 then below else below + 1
  }

  function Pow10(n: nat): (p: int)
    ensures p >= 1
  {
    if n == 0 then 1 else 10 * Pow10(n - 1)
  }

  /** The factor that moves the decimal point `scale` places. */
  function Shift(scale: nat): (p: real)
    ensures p >= 1.0
  {
    Pow10(scale) as real
  }

  /** `x` rounded to `scale` decimal places. */
  function RoundToScale(x: real, scale: nat, mode: RoundingMode): real {
    Round(x * Shift(scale), mode) as real / Shift(scale)
  }

  /** Exact euros to whole cents. */
  function ToCents(euros: real, mode: RoundingMode): int {
    Round(euros * 100.0, mode)
  }

  function CentsToEuros(cents: int): real {
    cents as real / 100.0
  }

  function Abs(x: real): real {
    if x >= 0.0 then x else -x
  }

  /** A product kept folded in proofs that only need its laws. */
  function Times(x: real, y: real): real { x * y }

  lemma TimesLaws(x: real, y: real, z: real)
    ensures Times(Times(x, y), z) == Times(x, Times(y, z))
    ensures Times(Times(x, y), z) == Times(Times(x, z), y)
    ensures Times(x, 1.0) == x
  {
  }

  lemma TimesOfShares(x: real, y: real)
    requires x >= 0.0 && 0.0 <= y <= 1.0
    ensures 0.0 <= Times(x, y) <= x
  {
    ProductOrder(x, 0.0, y);
    ProductOrder(x, 0.0, 1.0 - y);
    assert x * (1.0 - y) == x - x * y;
  }

  lemma ProductOrder(a: real, x: real, y: real)
    requires a >= 0.0 && x <= y
    ensures a * x <= a * y
  {
  }

  /** What the two modes promise: a nearest integer, and on a tie the one the mode names. */
  ghost predicate IsRounding(x: real, n: int, mode: RoundingMode) {
    && Abs(x - n as real) <= 0.5
    && (Abs(x - n as real) == 0.5 ==>
          match mode
          case HALF_AWAY_FROM_ZERO => Abs(n as real) > Abs(x)
          case HALF_EVEN => n % 2 == 0)
  }

  /** `Round` is the one and only integer that the rounding mode allows. */
  lemma RoundIsTheRounding(x: real, n: int, mode: RoundingMode)
    ensures n == Round(x, mode) <==> IsRounding(x, n, mode)
  {
    var r := Round(x, mode);
    assert IsRounding(x, r, mode);
    if IsRounding(x, n, mode) {
      var d := n - r;
      assert -1.0 <= d as real <= 1.0;
      assert d == -1 || d == 0 || d == 1;
    }
  }

  /** Rounding keeps order: a larger exact amount never shows as a smaller one. */
  lemma RoundMonotone(x: real, y: real, mode: RoundingMode)
    requires x <= y
    ensures Round(x, mode) <= Round(y, mode)
  {
    RoundIsTheRounding(x, Round(x, mode), mode);
    RoundIsTheRounding(y, Round(y, mode), mode);
  }

  /** Both modes are symmetric: a rounded discount is the opposite of the rounded amount. */
  lemma RoundSymmetric(x: real, mode: RoundingMode)
    ensures Round(-x, mode) == -Round(x, mode)
  {
    RoundIsTheRounding(x, Round(x, mode), mode);
    RoundIsTheRounding(-x, -Round(x, mode), mode);
  }

  /** A whole number of cents goes through euros and back unchanged. */
  lemma CentsRoundTrip(cents: int, mode: RoundingMode)
    ensures ToCents(CentsToEuros(cents), mode) == cents
  {
    assert CentsToEuros(cents) * 100.0 == cents as real;
  }

  predicate IsWhole(x: real) {
    x == x.Floor as real
  }

  /** `x` has at most `scale` decimals. */
  ghost predicate HasScale(x: real, scale: nat) {
    IsWhole(x * Shift(scale))
  }

  lemma Quotient(x: real, p: real, y: real)
    requires p > 0.0
    ensures y == x / p <==> y * p == x
  {
  }

  lemma ScaledInteger(y: real, scale: nat, n: int)
    requires y * Shift(scale) == n as real
    ensures HasScale(y, scale)
  {
    assert IsWhole(n as real);
  }

  lemma WholeUnits(y: real, scale: nat) returns (n: int)
    requires HasScale(y, scale)
    ensures y * Shift(scale) == n as real
  {
    n := (y * Shift(scale)).Floor;
  }

  /** Rounding to a scale changes nothing exactly when the value already has that scale. */
  lemma RoundToScaleFixed(x: real, scale: nat, mode: RoundingMode)
    ensures HasScale(x, scale) <==> RoundToScale(x, scale, mode) == x
    ensures HasScale(RoundToScale(x, scale, mode), scale)
  {
    var r := Round(x * Shift(scale), mode);
    Quotient(r as real, Shift(scale), RoundToScale(x, scale, mode));
    Quotient(r as real, Shift(scale), x);
    ScaledInteger(RoundToScale(x, scale, mode), scale, r);
  }

  lemma RoundToScaleNonNegative(x: real, scale: nat, mode: RoundingMode)
    requires x >= 0.0
    ensures RoundToScale(x, scale, mode) >= 0.0
  {
    var p := Shift(scale);
    assert x * p >= 0.0;
    RoundMonotone(0.0, x * p, mode);
  }

  /** An amount already in cents survives any unit price scale of at least two decimals. */
  lemma {:induction false} CentsHaveScale(cents: int, scale: nat)
    requires scale >= 2
    ensures HasScale(CentsToEuros(cents), scale)
  {
    var k := Pow10(scale - 2);
    assert Pow10(scale) == 100 * k;
    calc {
      CentsToEuros(cents) * Shift(scale);
      CentsToEuros(cents) * (100.0 * k as real);
      cents as real * k as real;
      (cents * k) as real;
    }
  }
}

/**
 * The forty significant digits of the engine's decimals (packages/pricing/src/money.ts): where
 * intermediate results are exact, and where they are not.
 */
module Precision {
  import opened Outcomes
  import opened Money
  import opened DecimalText
  import opened Tiers
  import LinePricing

  /** 10^40: coefficients of forty digits lie below it. */
  const COEFFICIENTS: int := 10000000000000000000000000000000000000000

  /** `x` is written with at most forty significant digits: m times a power of ten. */
  ghost predicate Significant(x: real) {
    exists m: int, up: nat, down: nat :: Written(x, m, up, down)
  }

  ghost predicate Written(x: real, m: int, up: nat, down: nat) {
    && -COEFFICIENTS < m < COEFFICIENTS
    && x * Shift(down) == (m * Pow10(up)) as real
  }

  /** Any correct rounding to forty significant digits leaves such values alone. */
  ghost predicate KeepsSignificant(rnd: real -> real) {
    forall x :: Significant(x) ==> rnd(x) == x
  }

  /** The range of the stored quantities and prices: at most 14 integer digits and 6 decimals. */
  ghost predicate Dec6(x: real) {
    x >= 0.0 && HasScale(x, SCALE) && x < 100000000000000.0
  }

  /** The largest total that `quantity` can cost within the stored range. */
  function Cap(quantity: real): real { quantity * 100000000000000.0 }

  const AMOUNT_LIMIT: real := 10000000000000000000000000000.0

  lemma SmallScaledIsSignificant(x: real, scale: nat)
    requires HasScale(x, scale)
    requires -(COEFFICIENTS as real) < x * Shift(scale) < COEFFICIENTS as real
    ensures Significant(x)
  {
    var m := WholeUnits(x, scale);
    assert m * Pow10(0) == m;
    assert Written(x, m, 0, scale);
  }

  lemma Scales()
    ensures Shift(6) == 1000000.0 && Shift(12) == 1000000000000.0 && Shift(10) == 10000000000.0
    ensures Pow10(20) == 100000000000000000000
    ensures COEFFICIENTS as real == AMOUNT_LIMIT * 1000000000000.0
  {
    assert Pow10(6) == 1000000;
    assert Pow10(10) == 10000 * Pow10(6);
    assert Pow10(12) == 1000000 * Pow10(6);
    Pow10Adds(10, 10);
  }

  // ------------------------------------------------------------------- the digit budget

  /** `x` is a decimal of at most `digits` digits in all, `scale` of them after the point. */
  ghost predicate Digits(x: real, digits: nat, scale: nat) {
    HasScale(x, scale) && Abs(x * Shift(scale)) < Pow10(digits) as real
  }

  ghost predicate ProductsFit(d1: nat, s1: nat, d2: nat, s2: nat) {
    forall x, y :: Digits(x, d1, s1) && Digits(y, d2, s2) ==> Significant(Times(x, y))
  }

  /** Every product of two decimals fits in forty digits exactly when their digits add up to forty at most. */
  lemma DigitBudget(d1: nat, s1: nat, d2: nat, s2: nat)
    requires d1 >= 1 && d2 >= 1
    ensures ProductsFit(d1, s1, d2, s2) <==> d1 + d2 <= 40
  {
    hide Digits, Significant, Times;
    if d1 + d2 <= 40 {
      forall x, y | Digits(x, d1, s1) && Digits(y, d2, s2)
        ensures Significant(Times(x, y))
      {
        ProductFits(x, d1, s1, y, d2, s2);
      }
    } else {
      NinesHaveDigits(d1, s1);
      NinesHaveDigits(d2, s2);
      NinesDoNotFit(d1, s1, d2, s2);
    }
  }

  lemma ProductFits(x: real, d1: nat, s1: nat, y: real, d2: nat, s2: nat)
    requires Digits(x, d1, s1) && Digits(y, d2, s2) && d1 + d2 <= 40
    ensures HasScale(Times(x, y), s1 + s2) && Significant(Times(x, y))
  {
    hide Pow10, HasScale, Significant, Times, Shift, Product;
    var m := WholeUnits(x, s1);
    var n := WholeUnits(y, s2);
    ScaledProduct(x, s1, m, y, s2, n);
    ScaledInteger(Times(x, y), s1 + s2, Product(m, n));
    Smaller(m, Pow10(d1), n, Pow10(d2));
    PowersFit(d1, d2);
    SmallScaledIsSignificant(Times(x, y), s1 + s2);
  }

  /** A whole product kept folded in proofs that only need its laws. */
  function Product(m: int, n: int): int { m * n }

  lemma PowersFit(d1: nat, d2: nat)
    requires d1 + d2 <= 40
    ensures Product(Pow10(d1), Pow10(d2)) <= COEFFICIENTS
  {
    hide Pow10;
    Pow10Adds(d1, d2);
    Pow10Grows(d1 + d2, 40);
    CoefficientsIsPow10();
  }

  lemma CoefficientsIsPow10()
    ensures COEFFICIENTS == Pow10(40)
  {
    Scales();
    Pow10Adds(20, 20);
  }

  lemma Smaller(m: int, p: int, n: int, q: int)
    requires -p < m < p && -q < n < q
    ensures -Product(p, q) < Product(m, n) < Product(p, q)
  {
    var a, b := if m < 0 then -m else m, if n < 0 then -n else n;
    SmallerNaturals(a, p, b, q);
    if m < 0 {
      assert a * n == -(m * n);
    }
    if n < 0 {
      assert a * b == -(a * n);
    }
  }

  lemma SmallerNaturals(a: nat, p: int, b: nat, q: int)
    requires a < p && b < q
    ensures a * b < p * q
  {
    NotAbove(b, a, p);
    NotAbove(p, b, q - 1);
    assert p * (q - 1) == p * q - p;
  }

  lemma NotAbove(c: nat, a: nat, b: nat)
    requires a <= b
    ensures c * a <= c * b && a * c <= b * c
  {
  }

  lemma ScaledProduct(x: real, s1: nat, m: int, y: real, s2: nat, n: int)
    requires x * Shift(s1) == m as real && y * Shift(s2) == n as real
    ensures Times(x, y) * Shift(s1 + s2) == Product(m, n) as real
  {
    hide Pow10;
    Pow10Adds(s1, s2);
    FourFactors(x, Shift(s1), y, Shift(s2));
    RealProduct(Pow10(s1), Pow10(s2));
    RealProduct(m, n);
  }

  lemma RealProduct(a: int, b: int)
    ensures (a * b) as real == a as real * b as real
  {
  }

  lemma FourFactors(x: real, p: real, y: real, q: real)
    ensures Times(x, y) * (p * q) == (x * p) * (y * q)
  {
  }

  /** The largest decimal with that many digits. */
  function Nines(digits: nat, scale: nat): real {
    (Pow10(digits) - 1) as real / Shift(scale)
  }

  lemma NinesHaveDigits(digits: nat, scale: nat)
    ensures Digits(Nines(digits, scale), digits, scale)
    ensures Nines(digits, scale) * Shift(scale) == (Pow10(digits) - 1) as real
  {
    hide Pow10;
    Quotient((Pow10(digits) - 1) as real, Shift(scale), Nines(digits, scale));
    ScaledInteger(Nines(digits, scale), scale, Pow10(digits) - 1);
  }

  lemma NinesDoNotFit(d1: nat, s1: nat, d2: nat, s2: nat)
    requires d1 >= 1 && d2 >= 1 && d1 + d2 > 40
    ensures !Significant(Times(Nines(d1, s1), Nines(d2, s2)))
  {
    hide Significant, Times, Nines, Pow10, Shift, Product;
    NinesHaveDigits(d1, s1);
    NinesHaveDigits(d2, s2);
    var n := Product(Pow10(d1) - 1, Pow10(d2) - 1);
    ScaledProduct(Nines(d1, s1), s1, Pow10(d1) - 1, Nines(d2, s2), s2, Pow10(d2) - 1);
    NinesProduct(d1, d2);
    TooManyDigits(Times(Nines(d1, s1), Nines(d2, s2)), n, s1 + s2);
  }

  /** The product of two rows of nines ends in 1 and has at least forty-one digits. */
  lemma NinesProduct(d1: nat, d2: nat)
    requires d1 >= 1 && d2 >= 1 && d1 + d2 > 40
    ensures var n := Product(Pow10(d1) - 1, Pow10(d2) - 1); n % 10 == 1 && n >= COEFFICIENTS
  {
    hide Pow10, Product;
    OneMoreDigit(d1);
    OneMoreDigit(d2);
    PowersExceed(d1, d2);
    LastDigit(Pow10(d1 - 1), Pow10(d2 - 1));
  }

  lemma OneMoreDigit(d: nat)
    requires d >= 1
    ensures Pow10(d) == 10 * Pow10(d - 1)
  {
  }

  lemma PowersExceed(d1: nat, d2: nat)
    requires d1 >= 1 && d2 >= 1 && d1 + d2 > 40
    ensures 10 * Product(Pow10(d1 - 1), Pow10(d2 - 1)) >= COEFFICIENTS
  {
    CoefficientsIsPow10();
    assert Pow10(40) == 10 * Pow10(39);
    hide Pow10;
    Pow10Adds(d1 - 1, d2 - 1);
    Pow10Grows(39, d1 + d2 - 2);
  }

  lemma LastDigit(p: int, q: int)
    requires p >= 1 && q >= 1
    ensures Product(10 * p - 1, 10 * q - 1) % 10 == 1
    ensures Product(10 * p - 1, 10 * q - 1) >= 79 * Product(p, q)
  {
    assert (10 * p - 1) * (10 * q - 1) == 10 * (10 * (p * q) - p - q) + 1;
    assert p * q >= p && p * q >= q by { AtLeast(p, q); AtLeast(q, p); }
  }

  /** The range of the stored values is twenty digits, six of them decimals. */
  lemma Dec6HasDigits(x: real)
    requires Dec6(x)
    ensures Digits(x, 20, 6)
  {
    Scales();
  }

  /** A product of two stored values has at most 12 decimals and 28 integer digits: it is exact. */
  lemma ProductIsExact(a: real, b: real)
    requires Dec6(a) && Dec6(b)
    ensures HasScale(a * b, 12) && 0.0 <= a * b <= Cap(a)
    ensures Significant(a * b)
  {
    hide HasScale, Significant, Digits;
    Dec6HasDigits(a);
    Dec6HasDigits(b);
    ProductFits(a, 20, 6, b, 20, 6);
    assert Times(a, b) == a * b;
    ProductBound(a, b);
  }

  lemma ProductBound(a: real, b: real)
    requires 0.0 <= a < 100000000000000.0 && 0.0 <= b < 100000000000000.0
    ensures 0.0 <= a * b <= Cap(a)
    ensures a * b < AMOUNT_LIMIT
  {
    ProductOrder(a, b, 100000000000000.0);
    assert Cap(a) < AMOUNT_LIMIT;
  }

  lemma SumScale(a: real, b: real, scale: nat)
    requires HasScale(a, scale) && HasScale(b, scale)
    ensures HasScale(a + b, scale)
    ensures HasScale(a - b, scale)
  {
    var m := WholeUnits(a, scale);
    var n := WholeUnits(b, scale);
    Sum(a, b, Shift(scale), m, n);
    ScaledInteger(a + b, scale, m + n);
    ScaledInteger(a - b, scale, m - n);
  }

  lemma Sum(a: real, b: real, p: real, m: int, n: int)
    requires a * p == m as real && b * p == n as real
    ensures (a + b) * p == (m + n) as real
    ensures (a - b) * p == (m - n) as real
  {
  }

  lemma Dec6IsSignificant(x: real)
    requires Dec6(x)
    ensures Significant(x)
  {
    Scales();
    SmallScaledIsSignificant(x, SCALE);
  }

  // ------------------------------------------------------------ adjustments in cascade

  predicate Fits(digits: nat) { digits <= 40 }

  lemma FewDigitsAreSignificant(x: real, digits: nat, scale: nat)
    requires Digits(x, digits, scale) && Fits(digits)
    ensures Significant(x)
  {
    hide Pow10, Significant;
    Pow10Grows(digits, 40);
    CoefficientsIsPow10();
    SmallScaledIsSignificant(x, scale);
  }

  lemma ProductDigits(x: real, d1: nat, s1: nat, y: real, d2: nat, s2: nat)
    requires Digits(x, d1, s1) && Digits(y, d2, s2)
    ensures Digits(Times(x, y), d1 + d2, s1 + s2)
  {
    hide Pow10, HasScale, Times, Shift, Product;
    var m := WholeUnits(x, s1);
    var n := WholeUnits(y, s2);
    ScaledProduct(x, s1, m, y, s2, n);
    ScaledInteger(Times(x, y), s1 + s2, Product(m, n));
    Smaller(m, Pow10(d1), n, Pow10(d2));
    PowersMultiply(d1, d2);
  }

  lemma PowersMultiply(d1: nat, d2: nat)
    ensures Product(Pow10(d1), Pow10(d2)) == Pow10(d1 + d2)
  {
    Pow10Adds(d1, d2);
  }

  lemma HundredthDigits(x: real, digits: nat, scale: nat)
    requires Digits(x, digits, scale)
    ensures Digits(x / 100.0, digits, scale + 2)
  {
    hide Pow10, HasScale;
    var n := WholeUnits(x, scale);
    ShiftByTwo(scale);
    hide Shift;
    MovedPoint(x, Shift(scale), Shift(scale + 2));
    ScaledInteger(x / 100.0, scale + 2, n);
  }

  lemma MovedPoint(x: real, p: real, q: real)
    requires q == 100.0 * p
    ensures x / 100.0 * q == x * p
  {
  }

  ghost predicate Percentage(p: real) { 0.0 <= p <= 100.0 && HasScale(p, 6) }

  lemma WhatIsLeft(p: real)
    requires Percentage(p)
    ensures Digits(100.0 - p, 9, 6)
  {
    assert Pow10(6) == 1000000;
    assert Pow10(9) == 1000 * Pow10(6);
    var n := WholeUnits(p, 6);
    ScaledInteger(100.0 - p, 6, 100000000 - n);
  }

  /** The cascade on exact decimals, and as the decimal library runs it. */
  function ExactCascade(price: real, percents: seq<real>): real {
    if percents == [] then price
    else LinePricing.AfterDiscount(ExactCascade(price, percents[..|percents| - 1]), percents[|percents| - 1])
  }

  function RoundedCascade(rnd: real -> real, price: real, percents: seq<real>): real {
    if percents == [] then price
    else
      var before := RoundedCascade(rnd, price, percents[..|percents| - 1]);
      rnd(rnd(Times(before, rnd(100.0 - percents[|percents| - 1]))) / 100.0)
  }

  lemma OneStepIsExact(rnd: real -> real, before: real, percent: real, digits: nat, scale: nat)
    requires KeepsSignificant(rnd) && Digits(before, digits, scale) && Percentage(percent) && Fits(digits + 9)
    ensures rnd(rnd(Times(before, rnd(100.0 - percent))) / 100.0) == LinePricing.AfterDiscount(before, percent)
    ensures Digits(LinePricing.AfterDiscount(before, percent), digits + 9, scale + 8)
  {
    hide Digits, Significant;
    WhatIsLeft(percent);
    FewDigitsAreSignificant(100.0 - percent, 9, 6);
    ProductDigits(before, digits, scale, 100.0 - percent, 9, 6);
    var product := Times(before, 100.0 - percent);
    FewDigitsAreSignificant(product, digits + 9, scale + 6);
    HundredthDigits(product, digits + 9, scale + 6);
    FewDigitsAreSignificant(product / 100.0, digits + 9, scale + 8);
    assert product / 100.0 == LinePricing.AfterDiscount(before, percent);
  }

  /** Each adjustment costs nine digits: as long as they fit in forty, the cascade is exact. */
  lemma {:induction false} CascadeIsExact(rnd: real -> real, price: real, percents: seq<real>, digits: nat, scale: nat)
    requires KeepsSignificant(rnd) && Digits(price, digits, scale) && digits + 9 * |percents| <= 40
    requires forall p :: p in percents ==> Percentage(p)
    ensures RoundedCascade(rnd, price, percents) == ExactCascade(price, percents)
    ensures Digits(ExactCascade(price, percents), digits + 9 * |percents|, scale + 8 * |percents|)
  {
    hide Digits, KeepsSignificant, Percentage;
    if percents != [] {
      var init, last := percents[..|percents| - 1], percents[|percents| - 1];
      assert last in percents && forall p :: p in init ==> p in percents;
      CascadeIsExact(rnd, price, init, digits, scale);
      OneStepIsExact(rnd, ExactCascade(price, init), last, digits + 9 * |init|, scale + 8 * |init|);
    }
  }

  /** On a stored price, two adjustments are always exact. */
  lemma TwoAdjustmentsAreExact(rnd: real -> real, price: real, percents: seq<real>)
    requires KeepsSignificant(rnd) && Dec6(price) && |percents| <= 2 && forall p :: p in percents ==> Percentage(p)
    ensures RoundedCascade(rnd, price, percents) == ExactCascade(price, percents)
  {
    hide Digits, KeepsSignificant, Percentage, RoundedCascade, ExactCascade;
    Dec6HasDigits(price);
    CascadeIsExact(rnd, price, percents, 20, 6);
  }

  lemma ExactPair(price: real, first: real, second: real)
    ensures ExactCascade(price, [first, second]) == LinePricing.AfterDiscount(LinePricing.AfterDiscount(price, first), second)
  {
    hide LinePricing.AfterDiscount;
    assert [first, second][..1] == [first] && [first][..0] == [];
    assert ExactCascade(price, [first]) == LinePricing.AfterDiscount(price, first);
  }

  lemma DiscountsCommute(price: real, first: real, second: real)
    ensures LinePricing.AfterDiscount(LinePricing.AfterDiscount(price, first), second)
         == LinePricing.AfterDiscount(LinePricing.AfterDiscount(price, second), first)
  {
  }

  /** A percentage that leaves 99.999999 %. */
  const MILLIONTH: real := 0.000001

  const LARGEST: real := 99999999999999.999999

  /** Three adjustments on the largest stored price no longer fit: their exact result has forty-four digits. */
  lemma ThreeAdjustmentsDoNotFit()
    ensures Dec6(LARGEST) && Percentage(MILLIONTH)
    ensures !Significant(ExactCascade(LARGEST, [MILLIONTH, MILLIONTH, MILLIONTH]))
  {
    hide Significant, ExactCascade;
    LargestIsStored();
    CascadeOfThree();
    TenTo30();
    TooManyDigits(AFTER_THREE, 99999997000000029998999900029999999700000001, 30);
  }

  const AFTER_THREE: real := 99999997000000.029998999900029999999700000001

  /** The results of `rnd` have at most forty significant digits. */
  ghost predicate Shortens(rnd: real -> real) {
    forall x :: Significant(rnd(x))
  }

  /** Whatever the stored price and the `n` percentages, the cascade run with `rnd` is exact. */
  ghost predicate AlwaysExact(rnd: real -> real, n: nat) {
    forall price, percents ::
      Dec6(price) && |percents| == n && (forall p :: p in percents ==> Percentage(p)) ==>
        RoundedCascade(rnd, price, percents) == ExactCascade(price, percents)
  }

  /** Three percentages of a millionth, followed by adjustments of 0 %. */
  function Witness(n: nat): (percents: seq<real>)
    requires n >= 3
    ensures |percents| == n
  {
    if n == 3 then [MILLIONTH, MILLIONTH, MILLIONTH] else Witness(n - 1) + [0.0]
  }

  lemma {:induction false} WitnessGoesNoFurther(n: nat)
    requires n >= 3
    ensures ExactCascade(LARGEST, Witness(n)) == AFTER_THREE
    ensures forall p :: p in Witness(n) ==> p == MILLIONTH || p == 0.0
  {
    hide ExactCascade;
    if n == 3 {
      CascadeOfThree();
    } else {
      WitnessGoesNoFurther(n - 1);
      NoDiscount(LARGEST, Witness(n - 1));
    }
  }

  lemma NoDiscount(price: real, percents: seq<real>)
    ensures ExactCascade(price, percents + [0.0]) == ExactCascade(price, percents)
  {
    assert (percents + [0.0])[..|percents|] == percents;
  }

  /** With any rounding to forty digits, the cascade is exact on every stored price exactly up to two adjustments. */
  lemma ExactExactlyUpToTwo(rnd: real -> real, n: nat)
    requires KeepsSignificant(rnd) && Shortens(rnd)
    ensures AlwaysExact(rnd, n) <==> n <= 2
  {
    hide KeepsSignificant, Percentage, Dec6, ExactCascade, Significant, Witness;
    if n <= 2 {
      forall price, percents | Dec6(price) && |percents| == n && forall p :: p in percents ==> Percentage(p)
        ensures RoundedCascade(rnd, price, percents) == ExactCascade(price, percents)
      {
        TwoAdjustmentsAreExact(rnd, price, percents);
      }
    } else {
      LargestIsStored();
      WitnessGoesNoFurther(n);
      ThreeAdjustmentsDoNotFit();
      CascadeOfThree();
      RoundedIsSignificant(rnd, LARGEST, Witness(n));
      assert RoundedCascade(rnd, LARGEST, Witness(n)) != ExactCascade(LARGEST, Witness(n));
    }
  }

  lemma RoundedIsSignificant(rnd: real -> real, price: real, percents: seq<real>)
    requires Shortens(rnd) && percents != []
    ensures Significant(RoundedCascade(rnd, price, percents))
  {
    hide Significant;
  }

  lemma LargestIsStored()
    ensures Dec6(LARGEST) && Percentage(MILLIONTH) && Percentage(0.0)
  {
    assert Pow10(6) == 1000000;
    ScaledInteger(LARGEST, 6, 99999999999999999999);
    ScaledInteger(MILLIONTH, 6, 1);
    ScaledInteger(0.0, 6, 0);
  }

  lemma CascadeOfThree()
    ensures ExactCascade(LARGEST, [MILLIONTH, MILLIONTH, MILLIONTH]) == AFTER_THREE
  {
    var all := [MILLIONTH, MILLIONTH, MILLIONTH];
    assert all[..2] == [MILLIONTH, MILLIONTH] && all[..2][..1] == [MILLIONTH] && all[..1][..0] == [];
    assert ExactCascade(LARGEST, [MILLIONTH]) == 99999998999999.99999900000001;
    assert ExactCascade(LARGEST, [MILLIONTH, MILLIONTH]) == 99999998000000.0099990000000199999999;
  }

  lemma TenTo30()
    ensures AFTER_THREE * Shift(30) == 99999997000000029998999900029999999700000001.0
  {
    Scales();
    Pow10Adds(20, 10);
    assert Pow10(10) == 10000000000;
    assert Pow10(30) == 1000000000000000000000000000000;
  }

  /** The GRADUATED loop as the decimal library runs it: every operation rounded by `rnd`. */
  ghost function RoundedGraduated(rnd: real -> real, ts: seq<ParsedTier>, from: real, q: real, total: real): real {
    if ts == [] || q <= from then total
    else
      var amount := rnd(Cost(rnd(Top(ts[0], q) - from), ts[0].unitPrice));
      if ts[0].upTo.None? then rnd(total + amount)
      else RoundedGraduated(rnd, ts[1..], ts[0].upTo.value, q, rnd(total + amount))
  }

  ghost predicate Dec6Table(ts: seq<ParsedTier>) {
    forall t :: t in ts ==> Dec6(t.unitPrice) && (t.upTo.Some? ==> Dec6(t.upTo.value))
  }

  /** One slice: width, amount and running total are all exact. */
  lemma SliceIsExact(rnd: real -> real, top: real, from: real, price: real, total: real)
    requires KeepsSignificant(rnd) && Dec6(top) && Dec6(from) && Dec6(price) && from <= top
    requires HasScale(total, 12) && 0.0 <= total <= Cap(from)
    ensures rnd(top - from) == top - from
    ensures rnd(Cost(top - from, price)) == Cost(top - from, price)
    ensures rnd(total + Cost(top - from, price)) == total + Cost(top - from, price)
    ensures HasScale(total + Cost(top - from, price), 12)
    ensures 0.0 <= total + Cost(top - from, price) <= Cap(top)
  {
    hide HasScale;
    var width := top - from;
    SumScale(top, from, SCALE);
    Dec6IsSignificant(width);
    ProductIsExact(width, price);
    var amount := Cost(width, price);
    assert amount == width * price;
    SumScale(total, amount, 12);
    assert amount <= Cap(width);
    BoundedIsSignificant(total + amount);
  }

  lemma BoundedIsSignificant(x: real)
    requires HasScale(x, 12) && 0.0 <= x < AMOUNT_LIMIT
    ensures Significant(x)
  {
    Scales();
    SmallScaledIsSignificant(x, 12);
  }

  /** Within the stored range, forty digits compute exactly the real-number total. */
  lemma {:induction false} GraduatedIsExact(rnd: real -> real, ts: seq<ParsedTier>, from: real, q: real, total: real)
    requires KeepsSignificant(rnd)
    requires Tiling(ts, from) && Reaches(ts, q) && Dec6Table(ts) && Dec6(from) && Dec6(q)
    requires HasScale(total, 12) && 0.0 <= total <= Cap(from)
    ensures RoundedGraduated(rnd, ts, from, q, total) == total + Graduated(ts, from, q)
    decreases |ts|
  {
    hide Cost, Graduated, HasScale, Cap, KeepsSignificant;
    GraduatedUnfold(ts, from, q);
    if q > from {
      var top := Top(ts[0], q);
      assert ts[0] in ts;
      SliceIsExact(rnd, top, from, ts[0].unitPrice, total);
      if ts[0].upTo.Some? && q > top {
        GraduatedIsExact(rnd, ts[1..], top, q, total + Cost(top - from, ts[0].unitPrice));
      } else if ts[0].upTo.Some? {
        assert RoundedGraduated(rnd, ts[1..], ts[0].upTo.value, q, total + Cost(top - from, ts[0].unitPrice))
            == total + Cost(top - from, ts[0].unitPrice);
      }
    }
  }

  /** VOLUME, the line product and its conversion to cents are exact as well. */
  lemma LineProductIsExact(rnd: real -> real, unitPrice: real, quantity: real)
    requires KeepsSignificant(rnd) && Dec6(unitPrice) && Dec6(quantity)
    ensures rnd(unitPrice * quantity) == unitPrice * quantity
    ensures rnd(rnd(unitPrice * quantity) * 100.0) == unitPrice * quantity * 100.0
  {
    ProductIsExact(unitPrice, quantity);
    ProductBound(unitPrice, quantity);
    InCents(unitPrice * quantity);
  }

  lemma InCents(x: real)
    requires HasScale(x, 12) && 0.0 <= x < AMOUNT_LIMIT
    ensures Significant(x * 100.0)
  {
    ScaleInCents(x, 10);
    Scales();
    SmallScaledIsSignificant(x * 100.0, 10);
  }

  lemma ScaleInCents(x: real, scale: nat)
    requires HasScale(x, scale + 2)
    ensures HasScale(x * 100.0, scale)
  {
    var n := WholeUnits(x, scale + 2);
    ShiftByTwo(scale);
    Hundredfold(x, x * 100.0, Shift(scale), Shift(scale + 2), n);
    ScaledInteger(x * 100.0, scale, n);
  }

  lemma ShiftByTwo(scale: nat)
    ensures Shift(scale + 2) == 100.0 * Shift(scale)
  {
    assert Pow10(scale + 2) == 10 * Pow10(scale + 1) == 100 * Pow10(scale);
  }

  lemma Hundredfold(x: real, y: real, p: real, q: real, n: int)
    requires 100.0 * p == q && y == x * 100.0 && x * q == n as real
    ensures y * p == n as real
  {
    assert y * p == x * q;
  }

  /** Twenty nines, a point, six nines: the largest decimal the engine accepts. */
  function Widest(): real { 99999999999999999999.999999 }

  /**
   * The engine itself accepts wider decimals than those stored: twenty integer digits, hence twenty-six in
   * all. The budget is exceeded, and the claim that intermediate results stay exact fails for one product.
   */
  lemma AcceptedProductIsNotExact() returns (text: string)
    ensures ParseDecimal(text, SCALE, false) == Ok(Widest())
    ensures !Significant(Times(Widest(), Widest()))
  {
    hide ParseDecimal, DecimalValue, DigitsValue, Pow10, Widest, Significant, Times;
    WidestIsNines();
    NinesDoNotFit(26, 6, 26, 6);
    var whole := NineDigits(20);
    var fraction := NineDigits(6);
    text := whole + ("." + fraction);
    NinesDecimal(whole, fraction);
    ParseNines(text, whole, fraction);
  }

  lemma WidestIsNines()
    ensures Widest() == Nines(26, 6)
  {
    Scales();
    Pow10Adds(20, 6);
    assert Pow10(26) == 100000000000000000000000000;
  }

  lemma TooManyDigits(x: real, n: int, scale: nat)
    requires x * Shift(scale) == n as real && n % 10 == 1 && n >= COEFFICIENTS
    ensures !Significant(x)
  {
    hide Pow10;
    if Significant(x) {
      var m: int, up: nat, down: nat :| Written(x, m, up, down);
      Cancel(x, Shift(down), Shift(scale), (m * Pow10(up)) as real, n as real);
      IntegerProducts(n, Pow10(down), m * Pow10(up), Pow10(scale));
      Pow10Adds(up, scale);
      Associate(m, Pow10(up), Pow10(scale));
      WideOddIsNotShifted(n, down, m, up + scale);
    }
  }

  lemma IntegerProducts(a: int, b: int, c: int, d: int)
    requires a as real * b as real == c as real * d as real
    ensures a * b == c * d
  {
    assert (a * b) as real == (c * d) as real;
  }

  lemma Associate(a: int, b: int, c: int)
    ensures a * b * c == a * (b * c)
  {
  }

  lemma Cancel(x: real, p: real, q: real, a: real, b: real)
    requires x * p == a && x * q == b
    ensures b * p == a * q
  {
    assert b * p == x * q * p == a * q;
  }

  lemma {:induction false} Pow10Adds(a: nat, b: nat)
    ensures Pow10(a) * Pow10(b) == Pow10(a + b)
  {
    if a > 0 {
      Pow10Adds(a - 1, b);
      assert Pow10(a) * Pow10(b) == 10 * (Pow10(a - 1) * Pow10(b));
    }
  }

  lemma {:induction false} WideOddIsNotShifted(n: int, down: nat, m: int, up: nat)
    requires n % 10 == 1 && n >= COEFFICIENTS
    requires n * Pow10(down) == m * Pow10(up)
    ensures m >= COEFFICIENTS
    decreases down
  {
    if down > 0 && up > 0 {
      Tenfold(n, Pow10(down - 1));
      Tenfold(m, Pow10(up - 1));
      WideOddIsNotShifted(n, down - 1, m, up - 1);
    } else if up > 0 {
      Tenfold(m, Pow10(up - 1));
      assert n == 10 * (m * Pow10(up - 1));
    } else {
      AtLeast(n, Pow10(down));
    }
  }

  lemma Tenfold(a: int, b: int)
    ensures a * (10 * b) == 10 * (a * b)
  {
  }

  lemma AtLeast(n: int, k: int)
    requires n >= 0 && k >= 1
    ensures n * k >= n
  {
  }

  lemma {:induction false} NineDigits(n: nat) returns (s: string)
    ensures |s| == n && AllDigits(s)
    ensures DigitsValue(s) == Pow10(n) - 1
  {
    if n == 0 {
      s := [];
    } else {
      var t := NineDigits(n - 1);
      s := t + "9";
      assert s[..n - 1] == t;
    }
  }

  lemma NinesValue(whole: int, fraction: int, p: real)
    requires whole == 99999999999999999999 && fraction == 999999 && p == 1000000.0
    ensures whole as real + fraction as real / p == Widest()
  {
  }

  lemma NinesDecimal(whole: string, fraction: string)
    requires |fraction| == 6 && DigitsValue(whole) == Pow10(20) - 1 && DigitsValue(fraction) == Pow10(6) - 1
    ensures DecimalValue(whole, fraction) == Widest()
  {
    Scales();
    NinesValue(DigitsValue(whole), DigitsValue(fraction), Shift(6));
  }

  lemma ParseNines(text: string, whole: string, fraction: string)
    requires text == whole + ("." + fraction)
    requires |whole| == 20 && AllDigits(whole) && |fraction| == 6 && AllDigits(fraction)
    requires DecimalValue(whole, fraction) == Widest()
    ensures ParseDecimal(text, SCALE, false) == Ok(Widest())
  {
    hide DecimalValue;
    SplitNines(whole, fraction);
  }

  lemma SplitNines(whole: string, fraction: string)
    requires whole != [] && AllDigits(whole)
    ensures Split(whole + ("." + fraction)) == Parts(false, whole, true, fraction)
  {
    var text := whole + ("." + fraction);
    assert text[0] == whole[0];
    IntegerLengthOfDigits(whole, "." + fraction);
    assert text[..|whole|] == whole && text[|whole| + 1..] == fraction;
  }
}

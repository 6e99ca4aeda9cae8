/**
 * Adjustments in cascade as the decimal library runs them (packages/pricing/src/money.ts, forty significant
 * digits): exactly how many may be reordered without changing a digit.
 */
module RoundedCascades {
  import opened Sums
  import opened Money
  import opened Precision

  /** What is used of rounding to nearest: strictly within half a unit of a number of forty digits, that number. */
  ghost predicate Nearest(rnd: real -> real) {
    forall x, n, scale :: Close(x, n, scale) ==> rnd(x) * Shift(scale) == n as real
  }

  ghost predicate Close(x: real, n: int, scale: nat) {
    COEFFICIENTS < 10 * n && n < COEFFICIENTS && -0.5 < x * Shift(scale) - n as real < 0.5
  }

  /** A correct rounding to forty significant digits. */
  ghost predicate Forty(rnd: real -> real) {
    KeepsSignificant(rnd) && Shortens(rnd) && Nearest(rnd)
  }

  /** One adjustment as the library runs it. */
  function Step(rnd: real -> real, before: real, percent: real): real {
    rnd(rnd(Times(before, rnd(100.0 - percent))) / 100.0)
  }

  ghost predicate Percentages(percents: seq<real>) {
    forall p :: p in percents ==> Percentage(p)
  }

  /** Any `n` adjustments on a stored price may be reordered. */
  ghost predicate AlwaysCommute(rnd: real -> real, n: nat) {
    forall price, ps, qs ::
      Dec6(price) && |ps| == n && Percentages(ps) && multiset(ps) == multiset(qs) ==>
        RoundedCascade(rnd, price, ps) == RoundedCascade(rnd, price, qs)
  }

  // --------------------------------------------------------------- up to three

  lemma {:induction false} MovedToTheEnd(price: real, ps: seq<real>, k: nat)
    requires k < |ps|
    ensures ExactCascade(price, ps) == LinePricing.AfterDiscount(ExactCascade(price, ps[..k] + ps[k + 1..]), ps[k])
    decreases |ps|
  {
    hide LinePricing.AfterDiscount;
    var last := |ps| - 1;
    if k == last {
      assert ps[..k] + ps[k + 1..] == ps[..last];
    } else {
      MovedToTheEnd(price, ps[..last], k);
      var others := ps[..k] + ps[k + 1..];
      assert others[..|others| - 1] == ps[..last][..k] + ps[..last][k + 1..] && others[|others| - 1] == ps[last];
      DiscountsCommute(ExactCascade(price, others[..|others| - 1]), ps[k], ps[last]);
    }
  }

  /** On exact decimals the order never matters. */
  lemma {:induction false} ExactIgnoresOrder(price: real, ps: seq<real>, qs: seq<real>)
    requires multiset(ps) == multiset(qs)
    ensures ExactCascade(price, ps) == ExactCascade(price, qs)
    decreases |ps|
  {
    if ps == [] {
      assert |qs| == |multiset(qs)| == 0;
    } else {
      var last := |ps| - 1;
      assert ps[last] in multiset(qs);
      var k :| 0 <= k < |qs| && qs[k] == ps[last];
      TakeOut(ps, last);
      TakeOut(qs, k);
      assert ps[..last] + ps[last + 1..] == ps[..last];
      ExactIgnoresOrder(price, ps[..last], qs[..k] + qs[k + 1..]);
      MovedToTheEnd(price, qs, k);
    }
  }

  lemma ShareLeftIsKept(rnd: real -> real, percent: real)
    requires KeepsSignificant(rnd) && Percentage(percent)
    ensures rnd(100.0 - percent) == 100.0 - percent
  {
    hide Significant, Percentage, Digits;
    WhatIsLeft(percent);
    FewDigitsAreSignificant(100.0 - percent, 9, 6);
  }

  /** Of three adjustments only the third is rounded, whatever it is. */
  lemma RoundedOnce(rnd: real -> real, price: real, ps: seq<real>)
    requires KeepsSignificant(rnd) && Dec6(price) && |ps| == 3 && Percentages(ps)
    ensures RoundedCascade(rnd, price, ps) == rnd(rnd(ExactCascade(price, ps) * 100.0) / 100.0)
  {
    hide KeepsSignificant, Percentage, Dec6, Times, LinePricing.AfterDiscount;
    var init, last := ps[..2], ps[2];
    assert last in ps && forall p :: p in init ==> p in ps;
    TwoAdjustmentsAreExact(rnd, price, init);
    ShareLeftIsKept(rnd, last);
    DiscountInHundredths(ExactCascade(price, init), last);
    assert ps[..|ps| - 1] == init;
  }

  lemma SameElements(ps: seq<real>, qs: seq<real>)
    requires multiset(ps) == multiset(qs)
    ensures |ps| == |qs| && forall q :: q in qs ==> q in ps
  {
    assert |multiset(ps)| == |ps|;
    assert |multiset(qs)| == |qs|;
    forall q | q in qs
      ensures q in ps
    {
      assert q in multiset(qs);
    }
  }

  lemma DiscountInHundredths(before: real, percent: real)
    ensures LinePricing.AfterDiscount(before, percent) * 100.0 == Times(before, 100.0 - percent)
  {
  }

  lemma UpToThreeCommute(rnd: real -> real, price: real, ps: seq<real>, qs: seq<real>)
    requires KeepsSignificant(rnd) && Dec6(price) && |ps| <= 3 && Percentages(ps) && multiset(ps) == multiset(qs)
    ensures RoundedCascade(rnd, price, ps) == RoundedCascade(rnd, price, qs)
  {
    hide KeepsSignificant, Percentage, Dec6, RoundedCascade, ExactCascade;
    SameElements(ps, qs);
    ExactIgnoresOrder(price, ps, qs);
    if |ps| == 3 {
      RoundedOnce(rnd, price, ps);
      RoundedOnce(rnd, price, qs);
    } else {
      TwoAdjustmentsAreExact(rnd, price, ps);
      TwoAdjustmentsAreExact(rnd, price, qs);
    }
  }

  // ------------------------------------------------------------------ and four

  /** The product of m and k, cut by `drop` digits, is nearest to n. */
  ghost predicate CutsTo(m: int, k: int, drop: nat, n: int) {
    && COEFFICIENTS < 10 * n && n < COEFFICIENTS
    && -Pow10(drop) < 2 * (Product(m, k) - Product(n, Pow10(drop))) < Pow10(drop)
  }

  /** One rounded step on integers. */
  lemma StepOnIntegers(rnd: real -> real, before: real, m: int, s: nat, percent: real, k: int, drop: nat, n: int)
    requires Forty(rnd) && Percentage(percent) && before * Shift(s) == m as real && (100.0 - percent) * Shift(6) == k as real
    requires drop <= s + 6 && CutsTo(m, k, drop, n)
    ensures Step(rnd, before, percent) * Shift(s + 8 - drop) == n as real
  {
    hide KeepsSignificant, Shortens, Nearest, Percentage, Pow10, Times, Significant, Shift, Product, CutsTo;
    ShareLeftIsKept(rnd, percent);
    var product := Times(before, 100.0 - percent);
    ScaledProduct(before, s, m, 100.0 - percent, 6, k);
    CutIsClose(product, s + 6, Product(m, k), m, k, drop, n);
    var scale := s + 6 - drop;
    NearestIsTaken(rnd, product, n, scale);
    var rounded := rnd(product);
    ShiftByTwo(scale);
    MovedPoint(rounded, Shift(scale), Shift(scale + 2));
    CutFits(m, k, drop, n);
    SignificantInteger(rounded / 100.0, scale + 2, n);
    KeptWhenSignificant(rnd, rounded / 100.0);
  }

  lemma NearestIsTaken(rnd: real -> real, x: real, n: int, scale: nat)
    requires Nearest(rnd) && Close(x, n, scale)
    ensures rnd(x) * Shift(scale) == n as real
  {
    hide Close, Shift;
  }

  lemma CutFits(m: int, k: int, drop: nat, n: int)
    requires CutsTo(m, k, drop, n)
    ensures -COEFFICIENTS < n < COEFFICIENTS
  {
    hide Pow10, Product;
  }

  lemma CutIsClose(x: real, s: nat, total: int, m: int, k: int, drop: nat, n: int)
    requires x * Shift(s) == total as real && total == Product(m, k) && drop <= s && CutsTo(m, k, drop, n)
    ensures Close(x, n, s - drop)
  {
    hide Pow10, Product;
    ShiftSplits(s - drop, drop);
    hide Shift;
    Folded(x, Shift(s - drop), Shift(drop));
    CloseTo(Times(x, Shift(s - drop)), Shift(drop), total, n, Pow10(drop));
  }

  lemma ShiftSplits(a: nat, b: nat)
    ensures Shift(a + b) == Shift(a) * Shift(b) && Shift(b) == Pow10(b) as real > 0.0
  {
    Pow10Adds(a, b);
    RealProduct(Pow10(a), Pow10(b));
  }

  lemma Folded(x: real, p: real, q: real)
    ensures x * (p * q) == Times(Times(x, p), q)
    ensures Times(x, p) == x * p
  {
  }

  lemma CloseTo(scaled: real, q: real, total: int, n: int, unit: int)
    requires q == unit as real && unit > 0 && Times(scaled, q) == total as real
    requires -unit < 2 * (total - Product(n, unit)) < unit
    ensures -0.5 < scaled - n as real < 0.5
  {
    hide Times, Product;
    Difference(scaled, n as real, q);
    WholeTimes(n, unit);
    HalfOrMore(scaled - n as real, q);
  }

  lemma Difference(x: real, y: real, q: real)
    ensures Times(x - y, q) == Times(x, q) - Times(y, q)
  {
  }

  lemma WholeTimes(n: int, unit: int)
    ensures Times(n as real, unit as real) == Product(n, unit) as real
  {
    RealProduct(n, unit);
  }

  lemma HalfOrMore(y: real, q: real)
    requires q > 0.0
    ensures y >= 0.5 ==> q <= 2.0 * Times(y, q)
    ensures y <= -0.5 ==> 2.0 * Times(y, q) <= -q
  {
    if y >= 0.5 {
      ProductOrder(q, 0.5, y);
    } else if y <= -0.5 {
      ProductOrder(q, y, -0.5);
    }
  }

  lemma SignificantInteger(x: real, scale: nat, n: int)
    requires x * Shift(scale) == n as real && -COEFFICIENTS < n < COEFFICIENTS
    ensures Significant(x)
  {
    ScaledInteger(x, scale, n);
    SmallScaledIsSignificant(x, scale);
  }

  lemma KeptWhenSignificant(rnd: real -> real, x: real)
    requires KeepsSignificant(rnd) && Significant(x)
    ensures rnd(x) == x
  {
  }

  /** Percentages that leave 99.999992, 99.999987 and 99.999981 %. */
  const FIRST: real := 0.000008
  const THIRD: real := 0.000013
  const FOURTH: real := 0.000019

  /** What the first two leave of the largest stored price, exactly: thirty-six digits, twenty-two decimals. */
  const AFTER_TWO: int := 999999840000006399990000001599999936

  lemma TheFour()
    ensures Percentage(FIRST) && Percentage(THIRD) && Percentage(FOURTH)
    ensures (100.0 - THIRD) * Shift(6) == 99999987.0 && (100.0 - FOURTH) * Shift(6) == 99999981.0
  {
    Scales();
    ScaledInteger(FIRST, 6, 8);
    ScaledInteger(THIRD, 6, 13);
    ScaledInteger(FOURTH, 6, 19);
  }

  lemma TwoLeave(rnd: real -> real)
    requires KeepsSignificant(rnd)
    ensures RoundedCascade(rnd, LARGEST, [FIRST, FIRST]) * Shift(22) == AFTER_TWO as real
  {
    hide KeepsSignificant, Percentage, Dec6, RoundedCascade, ExactCascade;
    LargestIsStored();
    TheFour();
    TwoAdjustmentsAreExact(rnd, LARGEST, [FIRST, FIRST]);
    ExactPair(LARGEST, FIRST, FIRST);
    assert LinePricing.AfterDiscount(LinePricing.AfterDiscount(LARGEST, FIRST), FIRST) == 99999984000000.6399990000001599999936;
    TenTo22();
  }

  lemma TenTo22()
    ensures Shift(22) == 10000000000000000000000.0
  {
    Scales();
    Pow10Adds(12, 10);
    assert Pow10(22) == 10000000000000000000000;
  }

  lemma SmallPowers()
    ensures Pow10(4) == 10000 && Pow10(8) == 100000000
  {
    assert Pow10(4) == 10000;
    assert Pow10(8) == 10000 * Pow10(4);
  }

  lemma FourCuts()
    ensures CutsTo(AFTER_TWO, 99999987, 4, 9999997100000271999891680028999997280000)
    ensures CutsTo(AFTER_TWO, 99999981, 4, 9999996500000367999887840034999996320000)
    ensures CutsTo(9999997100000271999891680028999997280000, 99999981, 8, 9999995200000822999840000049580791770001)
    ensures CutsTo(9999996500000367999887840034999996320000, 99999987, 8, 9999995200000822999840000049580791770000)
  {
    hide Pow10;
    SmallPowers();
  }

  /** The third and the fourth adjustment, in one order and in the other: the fortieth digits differ. */
  lemma LastDigitsDiffer(rnd: real -> real)
    requires Forty(rnd)
    ensures RoundedCascade(rnd, LARGEST, [FIRST, FIRST, THIRD, FOURTH]) != RoundedCascade(rnd, LARGEST, [FIRST, FIRST, FOURTH, THIRD])
  {
    hide Forty, KeepsSignificant, Shortens, Nearest, Percentage, RoundedCascade, Pow10;
    assert KeepsSignificant(rnd) by { FortyKeeps(rnd); }
    TheFour();
    TwoLeave(rnd);
    FourCuts();
    hide CutsTo;
    var two := RoundedCascade(rnd, LARGEST, [FIRST, FIRST]);
    var third, other := Step(rnd, two, THIRD), Step(rnd, two, FOURTH);
    StepOnIntegers(rnd, two, AFTER_TWO, 22, THIRD, 99999987, 4, 9999997100000271999891680028999997280000);
    StepOnIntegers(rnd, two, AFTER_TWO, 22, FOURTH, 99999981, 4, 9999996500000367999887840034999996320000);
    StepOnIntegers(rnd, third, 9999997100000271999891680028999997280000, 26, FOURTH, 99999981, 8, 9999995200000822999840000049580791770001);
    StepOnIntegers(rnd, other, 9999996500000367999887840034999996320000, 26, THIRD, 99999987, 8, 9999995200000822999840000049580791770000);
    TwoMoreSteps(rnd, [FIRST, FIRST], THIRD, FOURTH);
    TwoMoreSteps(rnd, [FIRST, FIRST], FOURTH, THIRD);
    assert [FIRST, FIRST] + [THIRD, FOURTH] == [FIRST, FIRST, THIRD, FOURTH] && [FIRST, FIRST] + [FOURTH, THIRD] == [FIRST, FIRST, FOURTH, THIRD];
  }

  lemma FortyKeeps(rnd: real -> real)
    requires Forty(rnd)
    ensures KeepsSignificant(rnd)
  {
  }

  lemma OneMoreStep(rnd: real -> real, ps: seq<real>, p: real)
    ensures RoundedCascade(rnd, LARGEST, ps + [p]) == Step(rnd, RoundedCascade(rnd, LARGEST, ps), p)
  {
    assert (ps + [p])[..|ps|] == ps;
  }

  lemma TwoMoreSteps(rnd: real -> real, ps: seq<real>, p: real, q: real)
    ensures RoundedCascade(rnd, LARGEST, ps + [p, q]) == Step(rnd, Step(rnd, RoundedCascade(rnd, LARGEST, ps), p), q)
  {
    hide RoundedCascade, Step;
    OneMoreStep(rnd, ps, p);
    OneMoreStep(rnd, ps + [p], q);
    assert ps + [p] + [q] == ps + [p, q];
  }

  // ---------------------------------------------------------- adjustments of 0 %

  function WithNothing(ps: seq<real>, more: nat): (qs: seq<real>)
    ensures |qs| == |ps| + more
  {
    if more == 0 then ps else WithNothing(ps, more - 1) + [0.0]
  }

  lemma HundredfoldIsSignificant(x: real)
    requires Significant(x)
    ensures Significant(x * 100.0)
  {
    var m: int, up: nat, down: nat :| Written(x, m, up, down);
    assert Pow10(up + 2) == 10 * Pow10(up + 1) == 100 * Pow10(up);
    assert m * Pow10(up + 2) == 100 * (m * Pow10(up));
    assert x * 100.0 * Shift(down) == 100.0 * (x * Shift(down));
    assert Written(x * 100.0, m, up + 2, down);
  }

  lemma NothingOff(rnd: real -> real, x: real)
    requires KeepsSignificant(rnd) && Significant(x)
    ensures Step(rnd, x, 0.0) == x
  {
    hide Significant;
    LargestIsStored();
    ShareLeftIsKept(rnd, 0.0);
    HundredfoldIsSignificant(x);
    assert Times(x, 100.0) == x * 100.0;
  }

  lemma {:induction false} NothingMore(rnd: real -> real, ps: seq<real>, more: nat)
    requires Forty(rnd) && ps != []
    ensures RoundedCascade(rnd, LARGEST, WithNothing(ps, more)) == RoundedCascade(rnd, LARGEST, ps)
    ensures forall p :: p in WithNothing(ps, more) ==> p in ps || p == 0.0
    ensures multiset(WithNothing(ps, more)) == multiset(ps) + multiset(WithNothing([], more))
  {
    hide KeepsSignificant, Shortens, Nearest, RoundedCascade, Significant, Step;
    if more > 0 {
      NothingMore(rnd, ps, more - 1);
      var before := WithNothing(ps, more - 1);
      RoundedIsSignificant(rnd, LARGEST, before);
      OneMoreStep(rnd, before, 0.0);
      NothingOff(rnd, RoundedCascade(rnd, LARGEST, before));
    }
  }

  lemma FromFourOnOrderMatters(rnd: real -> real, n: nat)
    requires Forty(rnd) && n >= 4
    ensures !AlwaysCommute(rnd, n)
  {
    hide Forty, RoundedCascade, Percentage, Dec6, WithNothing;
    var ps, qs := [FIRST, FIRST, THIRD, FOURTH], [FIRST, FIRST, FOURTH, THIRD];
    LastDigitsDiffer(rnd);
    NothingMore(rnd, ps, n - 4);
    NothingMore(rnd, qs, n - 4);
    LargestIsStored();
    TheFour();
    assert multiset(ps) == multiset(qs);
    assert Percentages(WithNothing(ps, n - 4));
    assert multiset(WithNothing(ps, n - 4)) == multiset(WithNothing(qs, n - 4));
  }

  /**
   * With any correct rounding to forty digits, adjustments on a stored price may be put in any order, to the
   * last digit, exactly when there are at most three of them.
   */
  lemma OrderIsFreeExactlyUpToThree(rnd: real -> real, n: nat)
    requires Forty(rnd)
    ensures AlwaysCommute(rnd, n) <==> n <= 3
  {
    hide RoundedCascade, Percentages, Dec6, KeepsSignificant, Shortens, Nearest;
    if n <= 3 {
      forall price, ps, qs | Dec6(price) && |ps| == n && Percentages(ps) && multiset(ps) == multiset(qs)
        ensures RoundedCascade(rnd, price, ps) == RoundedCascade(rnd, price, qs)
      {
        UpToThreeCommute(rnd, price, ps, qs);
      }
    } else {
      FromFourOnOrderMatters(rnd, n);
    }
  }
}

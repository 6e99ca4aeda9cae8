/**
 * Discounts are checked one by one against their own targets (packages/pricing/src/price-at.ts,
 * `priceDiscountLine`): exactly when that keeps HT at or above zero whatever the discounts are worth.
 */
module DiscountBalance {
  import opened Outcomes
  import opened Sums
  import opened Money
  import opened DecimalText
  import opened Calendar
  import opened PricingTypes
  import opened LinePricing
  import opened Totals
  import opened Schedules
  import opened Engine
  import opened EngineFacts
  import opened Proposals
  import opened ProposalLines

  // ---------------------------------------------------------- other values, same targets

  /** What an author may type for a discount, its targets being chosen. */
  datatype Valued = Valued(kind: DiscountKind, value: string)

  function Revalue(line: Line, v: Valued): Line {
    if line.kind == DISCOUNT && line.discount.Some?
    then line.(discount := Some(DiscountSpec(v.kind, v.value, line.discount.value.appliesTo))) else line
  }

  /** The same schedule with other values for its discounts. */
  function Revalued(lines: seq<Line>, values: seq<Valued>): seq<Line>
    requires |values| == |lines|
  {
    seq(|lines|, i requires 0 <= i < |lines| => Revalue(lines[i], values[i]))
  }

  lemma RevaluedIds(lines: seq<Line>, values: seq<Valued>)
    requires |values| == |lines|
    ensures LineIds(Revalued(lines, values)) == LineIds(lines)
  {
  }

  lemma {:induction false} RevaluedRegular(lines: seq<Line>, values: seq<Valued>, ctx: Ctx)
    requires |values| == |lines|
    ensures RegularPass(Revalued(lines, values), ctx) == RegularPass(lines, ctx)
  {
    hide RegularLine;
    if lines != [] {
      var n := |lines| - 1;
      assert Revalued(lines, values)[..n] == Revalued(lines[..n], values[..n]);
      RevaluedRegular(lines[..n], values[..n], ctx);
    }
  }

  lemma {:induction false} RevaluedInOrder(lines: seq<Line>, values: seq<Valued>, regular: map<string, PricedLine>)
    requires |values| == |lines|
    ensures FlatMap(Revalued(lines, values), InOrder(regular)) == FlatMap(lines, InOrder(regular))
  {
    if lines != [] {
      var n := |lines| - 1;
      assert Revalued(lines, values)[..n] == Revalued(lines[..n], values[..n]);
      RevaluedInOrder(lines[..n], values[..n], regular);
    }
  }

  lemma RevaluedTargets(target: DiscountTarget, lines: seq<Line>, values: seq<Valued>, regular: map<string, PricedLine>)
    requires |values| == |lines|
    ensures Targets(target, Revalued(lines, values), regular) == Targets(target, lines, regular)
  {
    RevaluedInOrder(lines, values, regular);
  }

  // --------------------------------------------------------------------- one discount

  /** What a priced discount could take off at most: the HT it is computed on. */
  function Base(p: PricedLine): int {
    if |p.trace| > 0 && p.trace[0].Discounted? then p.trace[0].baseHtCents else 0
  }

  const ALL_OF_IT := Valued(PERCENT, "100")

  lemma HundredParses()
    ensures ParseDecimal("100", 4, false) == Ok(100.0)
  {
    assert NatText(100) == "100" by {
      assert NatText(1) == "1" && NatText(10) == "10";
    }
    assert Pow10(MAX_INTEGER_DIGITS) >= 1000 by {
      Pow10Grows(3, MAX_INTEGER_DIGITS);
    }
    hide ParseDecimal, NatText, Pow10;
    NatTextParses(100, 4, false);
  }

  lemma WholeBaseOff(base: int, mode: RoundingMode)
    ensures ToCents(-PercentOf(CentsToEuros(base), 100.0), mode) == -base
  {
    hide ToCents;
    assert -PercentOf(CentsToEuros(base), 100.0) == CentsToEuros(-base);
    CentsRoundTrip(-base, mode);
  }

  /** Another value leaves rate, recurrence and base of a discount as they were, and bounds it by its base. */
  lemma RevaluedDiscount(
      line: Line, v: Valued, lines: seq<Line>, values: seq<Valued>, regular: map<string, PricedLine>, s: Settings)
    requires |values| == |lines| && PricedMap(regular) && line.kind == DISCOUNT
    requires DiscountLine(line, lines, regular, s).Ok? && DiscountLine(Revalue(line, v), Revalued(lines, values), regular, s).Ok?
    ensures var p := DiscountLine(line, lines, regular, s).value;
            var q := DiscountLine(Revalue(line, v), Revalued(lines, values), regular, s).value;
            && q.vat == p.vat && q.recurrence == p.recurrence && p.kind == q.kind == DISCOUNT
            && q.totalHtCents >= -Base(p)
  {
    hide ParseDecimal, Reduction, ToCents, Targets, SumBy, PercentOf;
    RevaluedTargets(line.discount.value.appliesTo, lines, values, regular);
    DiscountWithinTargets(line, lines, regular, s);
    DiscountWithinTargets(Revalue(line, v), Revalued(lines, values), regular, s);
  }

  /** At 100 % a discount that could be priced still can, and takes its whole base off. */
  lemma WholeDiscount(
      line: Line, lines: seq<Line>, values: seq<Valued>, regular: map<string, PricedLine>, s: Settings)
    requires |values| == |lines| && PricedMap(regular) && line.kind == DISCOUNT && DiscountLine(line, lines, regular, s).Ok?
    ensures DiscountLine(Revalue(line, ALL_OF_IT), Revalued(lines, values), regular, s).Ok?
    ensures DiscountLine(Revalue(line, ALL_OF_IT), Revalued(lines, values), regular, s).value.totalHtCents
            == -Base(DiscountLine(line, lines, regular, s).value)
  {
    hide ParseDecimal, ToCents, Targets, SumBy, Homogeneous, PercentOf;
    RevaluedTargets(line.discount.value.appliesTo, lines, values, regular);
    DiscountWithinTargets(line, lines, regular, s);
    HundredParses();
    var targets := Targets(line.discount.value.appliesTo, lines, regular).value;
    SameHomogeneity(line, ALL_OF_IT, targets);
    WholeBaseOff(SumBy(targets, Ht()), s.rounding);
  }

  lemma SameHomogeneity(line: Line, v: Valued, targets: seq<PricedLine>)
    requires targets != []
    ensures forall vat :: Homogeneous(Revalue(line, v), vat, targets) <==> Homogeneous(line, vat, targets)
  {
  }

  // ---------------------------------------------------------------------- whole schedules

  lemma RevaluedIsPriced(lines: seq<Line>, values: seq<Valued>, ctx: Ctx)
    requires PriceLines(lines, ctx).Ok? && |values| == |lines| && forall i :: 0 <= i < |values| ==> values[i] == ALL_OF_IT
    ensures PriceLines(Revalued(lines, values), ctx).Ok?
  {
    hide RegularPass, DiscountLine, PriceLines;
    PricedExactlyWhen(lines, ctx);
    PricedExactlyWhen(Revalued(lines, values), ctx);
    RevaluedIds(lines, values);
    RevaluedRegular(lines, values, ctx);
    var regular := RegularPass(lines, ctx).value;
    PassIsPricedMap(lines, ctx);
    forall l | l in Revalued(lines, values) && l.kind == DISCOUNT
      ensures DiscountLine(l, Revalued(lines, values), regular, ctx.settings).Ok?
    {
      var i :| 0 <= i < |lines| && Revalued(lines, values)[i] == l;
      assert lines[i] in lines && lines[i].kind == DISCOUNT;
      WholeDiscount(lines[i], lines, values, regular, ctx.settings);
    }
  }

  /** What a picked line brings at worst: a regular line its total, a discount minus its base. */
  function Worst(c: Choice): PricedLine -> int {
    (p: PricedLine) => if !c.Picks(p) then 0 else if p.kind == DISCOUNT then -Base(p) else p.totalHtCents
  }

  /** The bases of the picked discounts. */
  function BaseAmount(c: Choice): PricedLine -> int {
    (p: PricedLine) => if p.kind == DISCOUNT && c.Picks(p) then Base(p) else 0
  }

  lemma RevaluedAt(lines: seq<Line>, values: seq<Valued>, ctx: Ctx, c: Choice, i: nat)
    requires PriceLines(lines, ctx).Ok? && |values| == |lines| && PriceLines(Revalued(lines, values), ctx).Ok? && i < |lines|
    ensures |PriceLines(lines, ctx).value| == |lines| == |PriceLines(Revalued(lines, values), ctx).value|
    ensures var p, q := PriceLines(lines, ctx).value[i], PriceLines(Revalued(lines, values), ctx).value[i];
            c.Amount()(q) >= Worst(c)(p) && (values[i] == ALL_OF_IT ==> c.Amount()(q) == Worst(c)(p))
  {
    hide RegularLine, RegularPass, DiscountLine, PriceLines;
    var others := Revalued(lines, values);
    PricedExactlyWhen(lines, ctx);
    RevaluedRegular(lines, values, ctx);
    PassIsPricedMap(lines, ctx);
    PricedLineByLine(lines, ctx, i);
    PricedLineByLine(others, ctx, i);
    var regular := RegularPass(lines, ctx).value;
    if lines[i].kind == DISCOUNT {
      RevaluedDiscount(lines[i], values[i], lines, values, regular, ctx.settings);
      if values[i] == ALL_OF_IT {
        WholeDiscount(lines[i], lines, values, regular, ctx.settings);
      }
    } else {
      RegularKind(lines[i], ctx);
    }
  }

  lemma RegularKind(l: Line, ctx: Ctx)
    requires RegularLine(l, ctx).Ok? && l.kind != DISCOUNT
    ensures RegularLine(l, ctx).value.kind != DISCOUNT
  {
    RegularLineIdentity(l, ctx);
  }

  lemma {:induction false} SumByBelow<T>(xs: seq<T>, ys: seq<T>, f: T -> int, g: T -> int)
    requires |xs| == |ys| && forall i :: 0 <= i < |xs| ==> f(xs[i]) <= g(ys[i])
    ensures SumBy(xs, f) <= SumBy(ys, g)
  {
    if xs != [] {
      SumByBelow(xs[..|xs| - 1], ys[..|ys| - 1], f, g);
    }
  }

  lemma WorstIsDifference(priced: seq<PricedLine>, c: Choice)
    ensures SumBy(priced, RegularAmount(c)) == SumBy(priced, Worst(c)) + SumBy(priced, BaseAmount(c))
  {
    forall p | p in priced
      ensures RegularAmount(c)(p) == Worst(c)(p) + BaseAmount(c)(p)
    {
      assert RegularAmount(c)(p) == if p.kind != DISCOUNT then c.Amount()(p) else 0;
    }
    SumByPlus(priced, Worst(c), BaseAmount(c), RegularAmount(c));
  }

  /** Whatever the discounts are worth, as long as each is accepted, HT of what is picked is not negative. */
  ghost predicate NeverNegative(lines: seq<Line>, ctx: Ctx, c: Choice) {
    forall values :: |values| == |lines| && PriceLines(Revalued(lines, values), ctx).Ok? ==>
      SumBy(PriceLines(Revalued(lines, values), ctx).value, c.Amount()) >= 0
  }

  /**
   * HT of a rate, of a recurrence or of everything stays at or above zero for every accepted value of its
   * discounts exactly when the bases of its discounts together do not exceed its regular lines.
   */
  lemma NeverNegativeExactlyWhen(lines: seq<Line>, ctx: Ctx, c: Choice)
    requires PriceLines(lines, ctx).Ok?
    ensures var priced := PriceLines(lines, ctx).value;
            NeverNegative(lines, ctx, c) <==> SumBy(priced, BaseAmount(c)) <= SumBy(priced, RegularAmount(c))
  {
    hide PriceLines, SumBy, Worst, RegularAmount, BaseAmount, Revalued;
    var priced := PriceLines(lines, ctx).value;
    WorstIsDifference(priced, c);
    var whole := seq(|lines|, i => ALL_OF_IT);
    RevaluedIsPriced(lines, whole, ctx);
    WorstIsAttained(lines, whole, ctx, c);
    forall values | |values| == |lines| && PriceLines(Revalued(lines, values), ctx).Ok?
      ensures SumBy(PriceLines(Revalued(lines, values), ctx).value, c.Amount()) >= SumBy(priced, Worst(c))
    {
      WorstIsBelow(lines, values, ctx, c);
    }
  }

  lemma WorstIsBelow(lines: seq<Line>, values: seq<Valued>, ctx: Ctx, c: Choice)
    requires PriceLines(lines, ctx).Ok? && |values| == |lines| && PriceLines(Revalued(lines, values), ctx).Ok?
    ensures SumBy(PriceLines(lines, ctx).value, Worst(c)) <= SumBy(PriceLines(Revalued(lines, values), ctx).value, c.Amount())
  {
    hide PriceLines, Worst, SumBy;
    SameLength(lines, values, ctx);
    forall i | 0 <= i < |lines|
      ensures Worst(c)(PriceLines(lines, ctx).value[i]) <= c.Amount()(PriceLines(Revalued(lines, values), ctx).value[i])
    {
      RevaluedAt(lines, values, ctx, c, i);
    }
    SumByBelow(PriceLines(lines, ctx).value, PriceLines(Revalued(lines, values), ctx).value, Worst(c), c.Amount());
  }

  lemma WorstIsAttained(lines: seq<Line>, values: seq<Valued>, ctx: Ctx, c: Choice)
    requires PriceLines(lines, ctx).Ok? && |values| == |lines| && PriceLines(Revalued(lines, values), ctx).Ok?
    requires forall i :: 0 <= i < |values| ==> values[i] == ALL_OF_IT
    ensures SumBy(PriceLines(Revalued(lines, values), ctx).value, c.Amount()) == SumBy(PriceLines(lines, ctx).value, Worst(c))
  {
    hide PriceLines, Worst, SumBy;
    SameLength(lines, values, ctx);
    forall i | 0 <= i < |lines|
      ensures c.Amount()(PriceLines(Revalued(lines, values), ctx).value[i]) == Worst(c)(PriceLines(lines, ctx).value[i])
    {
      RevaluedAt(lines, values, ctx, c, i);
    }
    SumByPointwise(PriceLines(Revalued(lines, values), ctx).value, PriceLines(lines, ctx).value, c.Amount(), Worst(c));
  }

  lemma SameLength(lines: seq<Line>, values: seq<Valued>, ctx: Ctx)
    requires PriceLines(lines, ctx).Ok? && |values| == |lines| && PriceLines(Revalued(lines, values), ctx).Ok?
    ensures |PriceLines(lines, ctx).value| == |lines| == |PriceLines(Revalued(lines, values), ctx).value|
  {
    hide RegularPass, DiscountPass, RegularLine;
    PassKeys(lines, lines, ctx, RegularPass(lines, ctx).value);
  }

  // ------------------------------------------------ two discounts on one line, by contrast

  const ONE_HUNDRED := ManualLine("a", "a", FLAT_MONTHLY, None, 1, 10000, "20")

  function SixtyPercentOff(id: string): Line {
    Line(id, id, DISCOUNT, MANUAL, "20", None, None, None, None, None, None, None, None,
         Some(DiscountSpec(PERCENT, "60", Lines(["a"]))))
  }

  const TWICE_DISCOUNTED := [ONE_HUNDRED, SixtyPercentOff("x"), SixtyPercentOff("y")]

  lemma TwoTexts()
    ensures ParseDecimal("60", 4, false) == Ok(60.0) && ParseDecimal("20", 4, false) == Ok(20.0)
  {
    assert NatText(60) == "60" by {
      assert NatText(6) == "6";
    }
    assert Pow10(MAX_INTEGER_DIGITS) >= 100 by {
      Pow10Grows(2, MAX_INTEGER_DIGITS);
    }
    hide ParseDecimal, NatText, Pow10;
    NatTextParses(60, 4, false);
    TwentyParses();
  }

  lemma HundredIsReadable()
    ensures Readable(1, 10000)
  {
    Pow10Grows(3, MAX_INTEGER_DIGITS);
    assert Pow10(3) == 1000;
  }

  lemma HundredIsPriced(ctx: Ctx)
    requires NoOverrides(ctx) && ctx.settings.unitPriceScale >= 2
    ensures RegularLine(ONE_HUNDRED, ctx).Ok?
    ensures var p := RegularLine(ONE_HUNDRED, ctx).value;
            p.totalHtCents == 10000 && p.vat == 20.0 && p.lineId == "a" && p.kind == FLAT_MONTHLY && p.recurrence == MONTHLY
  {
    hide RegularLine, ParseDecimal, NatText, CentsText, CentsToEuros, Readable;
    TwoTexts();
    HundredIsReadable();
    PlainLinePriced("a", "a", FLAT_MONTHLY, None, 1, 10000, "20", ctx);
  }

  lemma SixtyOff(id: string, all: seq<Line>, p: PricedLine, s: Settings)
    requires p.totalHtCents == 10000 && p.vat == 20.0 && p.lineId == "a" && p.kind == FLAT_MONTHLY
    ensures DiscountLine(SixtyPercentOff(id), all, map["a" := p], s).Ok?
    ensures DiscountLine(SixtyPercentOff(id), all, map["a" := p], s).value.totalHtCents == -6000
  {
    hide ParseDecimal, SumBy, ToCents;
    TwoTexts();
    assert Targets(Lines(["a"]), all, map["a" := p]).value == [p];
    SumByOne(p, Ht());
    assert Reduction(DiscountSpec(PERCENT, "60", Lines(["a"])), 10000) == Ok((60.0, 60.0));
    assert CentsToEuros(-6000) == -60.0;
    CentsRoundTrip(-6000, s.rounding);
  }

  lemma TwiceDiscountedPass(ctx: Ctx)
    requires NoOverrides(ctx) && ctx.settings.unitPriceScale >= 2
    ensures RegularLine(ONE_HUNDRED, ctx).Ok?
    ensures RegularPass(TWICE_DISCOUNTED, ctx) == Ok(map["a" := RegularLine(ONE_HUNDRED, ctx).value])
  {
    hide RegularLine, NatText, CentsText;
    HundredIsPriced(ctx);
    var lines := TWICE_DISCOUNTED;
    assert lines[..2][..1] == lines[..1] && lines[..1][..0] == [];
    assert RegularPass(lines[..1], ctx) == Ok(map["a" := RegularLine(ONE_HUNDRED, ctx).value]);
    assert RegularPass(lines[..2], ctx) == RegularPass(lines[..1], ctx);
  }

  lemma TwiceDiscountedLines(ctx: Ctx)
    requires NoOverrides(ctx) && ctx.settings.unitPriceScale >= 2
    ensures PriceLines(TWICE_DISCOUNTED, ctx).Ok? && SumBy(PriceLines(TWICE_DISCOUNTED, ctx).value, Ht()) == -2000
  {
    hide RegularLine, RegularPass, DiscountLine, PriceLines, NatText, CentsText;
    var lines := TWICE_DISCOUNTED;
    TwiceDiscountedPass(ctx);
    HundredIsPriced(ctx);
    var p := RegularLine(ONE_HUNDRED, ctx).value;
    SixtyOff("x", lines, p, ctx.settings);
    SixtyOff("y", lines, p, ctx.settings);
    assert Distinct(LineIds(lines)) by { assert LineIds(lines) == ["a", "x", "y"]; }
    PricedExactlyWhen(lines, ctx);
    PricedLineByLine(lines, ctx, 0);
    PricedLineByLine(lines, ctx, 1);
    PricedLineByLine(lines, ctx, 2);
    var priced := PriceLines(lines, ctx).value;
    SumOfThree(priced, Ht());
  }

  lemma SumOfThree<T>(xs: seq<T>, f: T -> int)
    requires |xs| == 3
    ensures SumBy(xs, f) == f(xs[0]) + f(xs[1]) + f(xs[2])
  {
    assert xs[..3] == xs && xs[..0] == [];
    SumByStep(xs, 0, f);
    SumByStep(xs, 1, f);
    SumByStep(xs, 2, f);
  }

  /**
   * Each discount is checked against its targets alone: a schedule with two of 60 % on the same line is
   * accepted by the engine, at any date and for any settings that keep cents, and its HT is negative.
   */
  lemma OverlappingDiscountsGoNegative(id: string, date: Day, settings: PartialSettings)
    requires ValidDay(date) && ResolveSettings(settings).Ok? && ResolveSettings(settings).value.unitPriceScale >= 2
    ensures var priced := PriceAt(InputOf(Schedule(id, date, None, TWICE_DISCOUNTED), settings), date);
            priced.Ok? && priced.value.totals.htCents == -2000
  {
    hide PriceLines, ResolveSettings, ValidDay, Breakdowns, Grouped, Normalised, SumBy;
    var schedule, s := Schedule(id, date, None, TWICE_DISCOUNTED), ResolveSettings(settings).value;
    FlatMapOne(schedule, Matching(date));
    assert SelectSchedule([schedule], date) == Ok(schedule);
    var ctx := MakeCtx(InputOf(schedule, settings), date, s);
    assert ctx.overridesByLine == map[];
    TwiceDiscountedLines(ctx);
  }
}

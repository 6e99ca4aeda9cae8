/** Quote of one article under a contract's schedule (apps/api/src/pricing/pricing.service.ts, `quoteFromContract`). */
module Quotes {
  import opened Outcomes
  import opened Sums
  import opened Money
  import opened DecimalText
  import opened Calendar
  import opened Tiers
  import opened Indexes
  import opened Rules
  import opened Overrides
  import opened PricingTypes
  import opened LinePricing
  import opened LineFacts
  import opened Totals
  import opened Schedules
  import opened Engine
  import opened EngineFacts
  import opened EngineLocality

  /** No contract price (the catalogue applies), several candidate lines, or the engine's answer. */
  datatype Quote = FromCatalogue | AmbiguousArticle(lineIds: seq<string>) | FromContract(result: Result<PricingResult>)

  function Candidate(code: string): Line -> seq<Line> {
    (l: Line) => if l.code == code && l.kind != DISCOUNT then [l] else []
  }

  /** The schedule reduced to the one line, at the asked quantity. */
  function OneLineInput(input: PricingInput, schedule: Schedule, line: Line, quantity: string): PricingInput {
    input.(schedules := [schedule.(lines := [line.(quantity := Some(Fixed(quantity)))])],
           overrides := FlatMap(input.overrides, ForLine(line.id)))
  }

  function QuoteFromContract(input: PricingInput, code: string, quantity: string, date: Day): Quote {
    var schedule := SelectSchedule(input.schedules, date);
    if schedule.Err? then FromCatalogue
    else
      var candidates := FlatMap(schedule.value.lines, Candidate(code));
      if |candidates| == 0 then FromCatalogue
      else if |candidates| > 1 then AmbiguousArticle(LineIds(candidates))
      else FromContract(PriceAt(OneLineInput(input, schedule.value, candidates[0], quantity), date))
  }

  lemma {:induction false} OneCandidate(lines: seq<Line>, code: string, line: Line)
    requires Distinct(LineIds(lines)) && line in lines && line.code == code && line.kind != DISCOUNT
    requires forall l :: l in lines && l.code == code && l.kind != DISCOUNT ==> l == line
    ensures FlatMap(lines, Candidate(code)) == [line]
  {
    var init, last := lines[..|lines| - 1], lines[|lines| - 1];
    assert lines == init + [last];
    IdsOfPrefix(init, last);
    if last == line {
      forall l | l in init
        ensures Candidate(code)(l) == []
      {
      }
      NoCandidate(init, code);
    } else {
      assert last in lines;
      OneCandidate(init, code, line);
    }
  }

  lemma {:induction false} NoCandidate(lines: seq<Line>, code: string)
    requires forall l :: l in lines ==> Candidate(code)(l) == []
    ensures FlatMap(lines, Candidate(code)) == []
  {
    if lines != [] {
      NoCandidate(lines[..|lines| - 1], code);
    }
  }

  // ------------------------------------------------- only the quantity text changes

  lemma QuantityPlaysNoPart(line: Line, q: Option<QuantitySpec>, qty: real, ctx: Ctx)
    ensures WorkOut(line.(quantity := q), qty, ctx) == WorkOut(line, qty, ctx)
  {
    hide BaseStage, RevisionStage, AdjustmentStage;
    var other := line.(quantity := q);
    SameBase(line, q, qty, ctx);
    if BaseStage(line, qty, ctx).Ok? {
      SameRevision(line, q, BaseStage(line, qty, ctx).value.price, ctx);
    }
    assert AdjustmentIds(other) == AdjustmentIds(line);
  }

  lemma SameBase(line: Line, q: Option<QuantitySpec>, qty: real, ctx: Ctx)
    ensures BaseStage(line.(quantity := q), qty, ctx) == BaseStage(line, qty, ctx)
  {
    SameFormula(line, q, qty, ctx);
    hide EvaluateFormula, ParseDecimal, TieredStage, FindRule, GridUnitPrice;
  }

  lemma SameFormula(line: Line, q: Option<QuantitySpec>, qty: real, ctx: Ctx)
    ensures EvaluateFormula(line.(quantity := q), qty, ctx) == EvaluateFormula(line, qty, ctx)
  {
    hide ParseDecimal, BindConstants, BindIndexes, Define;
  }

  lemma SameRevision(line: Line, q: Option<QuantitySpec>, price: Working, ctx: Ctx)
    ensures RevisionStage(line.(quantity := q), price, ctx) == RevisionStage(line, price, ctx)
  {
    hide ComputeRevision, ValidDay;
  }

  /** A line priced at the same quantity given as a fixed value differs only in its quantity step. */
  lemma FixedAtOwnQuantity(line: Line, quantity: string, ctx: Ctx)
    requires RegularLine(line, ctx).Ok? && ParseDecimal(quantity, 6, false) == Ok(RegularLine(line, ctx).value.quantity)
    ensures var p := RegularLine(line, ctx).value;
            && p.trace != []
            && RegularLine(line.(quantity := Some(Fixed(quantity))), ctx)
               == Ok(p.(trace := [Quantity("FIXED", p.quantity, None)] + p.trace[1..]))
  {
    hide ParseDecimal, WorkOut, Select, Cost, ToCents, ComputedUnit;
    var other := line.(quantity := Some(Fixed(quantity)));
    var p := RegularLine(line, ctx).value;
    QuantityIsQuantity(line, ctx);
    assert ResolveQuantity(other, ctx) == Ok(Quantity("FIXED", p.quantity, None));
    assert p.quantity == ResolveQuantity(line, ctx).value.quantity;
    QuantityPlaysNoPart(line, Some(Fixed(quantity)), p.quantity, ctx);
    hide ResolveQuantity, ResolveRecurrence, CheckShape, ParseVat;
    assert CheckShape(other) == CheckShape(line) && ParseVat(other) == ParseVat(line) && ResolveRecurrence(other) == ResolveRecurrence(line) by {
      SameShape(line, Some(Fixed(quantity)));
    }
    var work := WorkOut(line, p.quantity, ctx).value;
    FinishQuantity(line, other, ctx, ParseVat(line).value, ResolveRecurrence(line).value,
                   ResolveQuantity(line, ctx).value, ResolveQuantity(other, ctx).value, work.price, work.steps);
  }

  lemma SameShape(line: Line, q: Option<QuantitySpec>)
    ensures var other := line.(quantity := q);
            CheckShape(other) == CheckShape(line) && ParseVat(other) == ParseVat(line) && ResolveRecurrence(other) == ResolveRecurrence(line)
  {
    hide ParseDecimal;
  }

  lemma FinishQuantity(line: Line, other: Line, ctx: Ctx, vat: real, recurrence: Recurrence, q: TraceStep, fixed: TraceStep,
                       price: Working, steps: seq<TraceStep>)
    requires q.Quantity? && fixed.Quantity? && q.quantity == fixed.quantity && other == line.(quantity := other.quantity)
    requires Finish(line, ctx, vat, recurrence, q, price, steps).Ok?
    ensures var p := Finish(line, ctx, vat, recurrence, q, price, steps).value;
            && p.trace != []
            && Finish(other, ctx, vat, recurrence, fixed, price, steps) == Ok(p.(trace := [fixed] + p.trace[1..]))
  {
    assert forall unitPrice :: HourPackSteps(other, unitPrice, ctx.settings) == HourPackSteps(line, unitPrice, ctx.settings) by {
      hide ParseDecimal, RoundToScale;
    }
    hide Select, ToCents, ComputedUnit, ExactTotal, FinalUnit, RoundingStep, SelectionSteps, HourPackSteps, TotalSteps;
    var qty, s := q.quantity, ctx.settings;
    var computed := ComputedUnit(price, qty, s);
    var selection := Select(ctx.OverridesOf(line.id), ctx.OverrideCase(computed)).value;
    var unitPrice := FinalUnit(selection, computed);
    HeadSwap(q, fixed, steps, [RoundingStep(price, qty, s)], SelectionSteps(selection, computed),
             HourPackSteps(line, unitPrice, s), TotalSteps(unitPrice, qty, ExactTotal(price, selection, computed, qty), s));
  }

  lemma HeadSwap<T>(q: T, other: T, a: seq<T>, b: seq<T>, c: seq<T>, d: seq<T>, e: seq<T>)
    ensures [other] + ([q] + a + b + c + d + e)[1..] == [other] + a + b + c + d + e
  {
    assert [q] + a + b + c + d + e == [q] + (a + b + c + d + e);
  }

  /**
   * A quote at the line's own quantity is the line of the full schedule: same unit price, same
   * total, same trace but for where the quantity came from.
   */
  lemma QuoteIsTheLine(input: PricingInput, date: Day, i: nat, quantity: string)
    requires PriceAt(input, date).Ok?
    requires var lines := SelectSchedule(input.schedules, date).value.lines;
             && i < |lines| && lines[i].kind != DISCOUNT
             && (forall l :: l in lines && l.code == lines[i].code && l.kind != DISCOUNT ==> l == lines[i])
             && i < |PriceAt(input, date).value.lines|
             && ParseDecimal(quantity, 6, false) == Ok(PriceAt(input, date).value.lines[i].quantity)
    ensures var p := PriceAt(input, date).value.lines[i];
            var quote := QuoteFromContract(input, SelectSchedule(input.schedules, date).value.lines[i].code, quantity, date);
            && quote.FromContract? && quote.result.Ok? && p.trace != []
            && quote.result.value.lines == [p.(trace := [Quantity("FIXED", p.quantity, None)] + p.trace[1..])]
            && quote.result.value.scheduleId == PriceAt(input, date).value.scheduleId
  {
    hide ParseDecimal, RegularLine, DiscountLine, RegularPass;
    hide DiscountPass, TotalsOf, SelectSchedule, ResolveSettings, PriceLines;
    var schedule := SelectSchedule(input.schedules, date).value;
    var s := ResolveSettings(input.settings).value;
    var line := schedule.lines[i];
    var fixed := line.(quantity := Some(Fixed(quantity)));
    var full, single := MakeCtx(input, date, s), MakeCtx(OneLineInput(input, schedule, line, quantity), date, s);
    PricedExactlyWhen(schedule.lines, full);
    OneCandidate(schedule.lines, line.code, line);
    PricedLineByLine(schedule.lines, full, i);
    FixedAtOwnQuantity(line, quantity, full);
    SameOverrides(input, schedule, line, quantity, date, s);
    RegularLineIsLocal(fixed, full, single);
    OneVersion(input.schedules, schedule, schedule.(lines := [fixed]), date);
    OneLinePriced(fixed, single);
  }

  lemma SameOverrides(input: PricingInput, schedule: Schedule, line: Line, quantity: string, date: Day, s: Settings)
    ensures SameFor(line.(quantity := Some(Fixed(quantity))), MakeCtx(input, date, s), MakeCtx(OneLineInput(input, schedule, line, quantity), date, s))
  {
    hide OverrideMap, Covering, QuantityMap, Lookup;
    OverridesOfLine(input, date, s, line.id);
    OverridesOfLine(OneLineInput(input, schedule, line, quantity), date, s, line.id);
    ForLineTwice(input.overrides, line.id);
  }

  lemma {:induction false} ForLineTwice(overrides: seq<PriceOverride>, id: string)
    ensures FlatMap(FlatMap(overrides, ForLine(id)), ForLine(id)) == FlatMap(overrides, ForLine(id))
  {
    if overrides != [] {
      var init, o := overrides[..|overrides| - 1], overrides[|overrides| - 1];
      ForLineTwice(init, id);
      FlatMapAppend(FlatMap(init, ForLine(id)), ForLine(id)(o), ForLine(id));
      FlatMapOne(o, ForLine(id));
    }
  }

  lemma OneVersion(schedules: seq<Schedule>, s: Schedule, t: Schedule, date: Day)
    requires SelectSchedule(schedules, date) == Ok(s) && t.validFrom == s.validFrom && t.validTo == s.validTo
    ensures SelectSchedule([t], date) == Ok(t)
  {
    var matching := FlatMap(schedules, Matching(date));
    assert matching[0] in matching;
    FlatMapMembers(schedules, Matching(date), s);
    FlatMapOne(t, Matching(date));
  }

  lemma OneLinePriced(line: Line, ctx: Ctx)
    requires line.kind != DISCOUNT && RegularLine(line, ctx).Ok?
    ensures PriceLines([line], ctx) == Ok([RegularLine(line, ctx).value])
  {
    hide RegularLine, RegularPass, DiscountPass, DiscountLine, PriceLines;
    RegularPassPointwise([line], ctx);
    PricedExactlyWhen([line], ctx);
    assert PriceLines([line], ctx).Ok?;
    PricedLength([line], ctx);
    PricedLineByLine([line], ctx, 0);
    var priced := PriceLines([line], ctx).value;
    assert priced == [priced[0]] && [line][0] == line;
  }
}

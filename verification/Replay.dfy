/**
 * The trace read back by hand (packages/pricing/src/trace.ts): a reader who sees the steps only,
 * checks each against the value left by the previous one, and ends on the line total.
 */
module Replay {
  import opened Outcomes
  import opened Money
  import opened DecimalText
  import opened Tiers
  import opened Indexes
  import opened Rules
  import opened Overrides
  import opened PricingTypes
  import opened LinePricing

  /**
   * The reader's sheet: the calculator for formulas and the rounding mode the reader comes with, then
   * what has been established so far.
   */
  datatype Sheet = Sheet(
    evaluate: Evaluator, rounding: RoundingMode, qty: Option<real>, indexes: map<string, real>, price: Option<Working>,
    unitPrice: Option<real>, scale: nat, overridden: bool, exact: Option<real>, cents: Option<int>)

  function Blank(evaluate: Evaluator, rounding: RoundingMode): Sheet {
    Sheet(evaluate, rounding, None, map[], None, None, 0, false, None, None)
  }

  /** The blank sheet for a trace computed in `ctx`. */
  function BlankFor(ctx: Ctx): Sheet { Blank(ctx.evaluate, ctx.settings.rounding) }

  // ------------------------------------------------------- the reader's own arithmetic

  function Charged(qty: real, unitPrice: real): real { qty * unitPrice }

  /** `shown` is `exact` at so many decimals, ties broken as the mode says. */
  ghost predicate RoundsTo(exact: real, shown: real, scale: nat, mode: RoundingMode) {
    exists n :: InUnits(shown, n, scale) && IsRounding(exact * Shift(scale), n, mode)
  }

  predicate InUnits(shown: real, n: int, scale: nat) { shown * Shift(scale) == n as real }

  function InCents(euros: real): int { (euros * 100.0).Floor }

  /** What is left of a price once a percentage is off. */
  predicate Leaves(before: real, percent: real, after: real) { after * 100.0 == before * (100.0 - percent) }

  /** A unit price as it stands, or the average of an amount over the quantity, nothing for no quantity. */
  predicate IsUnitPrice(price: Working, qty: real, exact: real) {
    match price
    case Unit(p) => exact == p
    case Amount(total) => if qty == 0.0 then exact == 0.0 else Charged(qty, exact) == total
  }

  lemma RoundsExactly(exact: real, scale: nat, mode: RoundingMode)
    ensures RoundsTo(exact, RoundToScale(exact, scale, mode), scale, mode)
  {
    var n := Round(exact * Shift(scale), mode);
    Quotient(n as real, Shift(scale), RoundToScale(exact, scale, mode));
    RoundIsTheRounding(exact * Shift(scale), n, mode);
    assert InUnits(RoundToScale(exact, scale, mode), n, scale);
  }

  lemma RoundsToCents(exact: real, mode: RoundingMode)
    ensures RoundsTo(exact, CentsToEuros(ToCents(exact, mode)), 2, mode) && InCents(CentsToEuros(ToCents(exact, mode))) == ToCents(exact, mode)
  {
    assert Pow10(2) == 100;
    var n := ToCents(exact, mode);
    assert CentsToEuros(n) * 100.0 == n as real;
    RoundIsTheRounding(exact * 100.0, n, mode);
    assert InUnits(CentsToEuros(n), n, 2);
  }

  lemma LeavesExactly(before: real, percent: real)
    ensures Leaves(before, percent, AfterDiscount(before, percent))
  {
  }

  lemma UnitPriceExactly(price: Working, qty: real)
    ensures IsUnitPrice(price, qty, ExactUnit(price, qty))
  {
    if price.Amount? && qty != 0.0 {
      Quotient(price.value, if qty > 0.0 then qty else -qty, if qty > 0.0 then ExactUnit(price, qty) else -ExactUnit(price, qty));
    }
  }

  /** The bands of a TIERS step account for the whole quantity and for the amount. */
  ghost predicate BandsAccount(mode: TierMode, bands: seq<TierBand>, qty: real, amount: real) {
    && SumAmounts(bands) == amount
    && match mode
       case GRADUATED => BandsTile(bands, 0.0, qty)
       case VOLUME => |bands| == 1 && bands[0].quantity == qty && bands[0].amount == Charged(qty, bands[0].unitPrice)
  }

  ghost predicate RevisionHolds(P0: real, r: RevisionComputation) {
    && r.a + r.b == 1.0
    && r.ratio * r.S0.value == r.S1.value
    && r.coefficient == r.a + r.b * r.ratio
    && r.exact == P0 * r.coefficient
  }

  /** Whether a step is justified by the sheet alone. */
  ghost predicate Justified(s: Sheet, step: TraceStep) {
    match step
    case Quantity(_, _, _) => s.qty.None?
    case BasePrice(_) => s.qty.Some? && s.price.None?
    case RulePrice(_, _, _) => s.qty.Some? && s.price.None?
    case TieredPrice(_, mode, bands, amount) => s.qty.Some? && s.price.None? && BandsAccount(mode, bands, s.qty.value, amount)
    case IndexRead(name, _) => s.qty.Some? && s.price.None? && name !in s.indexes
    case Formula(expression, variables, result) =>
      && s.price.None? && "qty" in variables && s.qty == Some(variables["qty"])
      && (forall name :: name in s.indexes ==> name in variables && variables[name] == s.indexes[name])
      && s.evaluate(expression, variables, s.rounding) == Ok(result)
    case Revision(onUnitPrice, P0, r) =>
      s.price.Some? && s.price.value == (if onUnitPrice then Unit(P0) else Amount(P0)) && RevisionHolds(P0, r)
    case RevisionNotEffective(revisionDate, date) => s.price.Some? && date < revisionDate
    case Adjusted(adj, before, after) =>
      s.price.Some? && s.price.value.value == before && Leaves(before, adj.percent, after)
    case Rounding(LINE_TOTAL, exact, rounded, scale, mode) =>
      s.exact == Some(exact) && scale == 2 && mode == s.rounding && RoundsTo(exact, rounded, 2, mode)
    case Rounding(target, exact, rounded, scale, mode) =>
      && s.qty.Some? && s.price.Some? && s.unitPrice.None?
      && (target == UNIT_PRICE <==> s.price.value.Unit?)
      && IsUnitPrice(s.price.value, s.qty.value, exact) && mode == s.rounding
      && RoundsTo(exact, rounded, scale, mode)
    case OverrideApplied(computed, _) => s.unitPrice == Some(computed) && !s.overridden
    case OverrideSkipped(_) => s.unitPrice.Some?
    case HourPack(hours, rate) =>
      s.unitPrice.Some? && hours > 0.0 && RoundsTo(s.unitPrice.value / hours, rate, s.scale, s.rounding)
    case Discounted(_, _, _, _, _) => false
    case LineTotal(unitPrice, qty, exact) =>
      && s.unitPrice == Some(unitPrice) && s.qty == Some(qty) && s.price.Some? && s.exact.None?
      && exact == if s.price.value.Amount? && !s.overridden then s.price.value.value else Charged(qty, unitPrice)
  }

  /** The sheet after a step. */
  function Write(s: Sheet, step: TraceStep): Sheet {
    match step
    case Quantity(_, q, _) => s.(qty := Some(q))
    case BasePrice(p) => s.(price := Some(Unit(p)))
    case RulePrice(_, _, p) => s.(price := Some(Unit(p)))
    case TieredPrice(_, _, _, amount) => s.(price := Some(Amount(amount)))
    case IndexRead(name, observation) => s.(indexes := s.indexes[name := observation.value])
    case Formula(_, _, p) => s.(price := Some(Unit(p)), indexes := map[])
    case Revision(onUnitPrice, _, r) => s.(price := Some(if onUnitPrice then Unit(r.exact) else Amount(r.exact)))
    case Adjusted(_, _, after) => if s.price.None? then s else s.(price := Some(s.price.value.With(after)))
    case Rounding(LINE_TOTAL, _, rounded, _, _) => s.(cents := Some(InCents(rounded)))
    case Rounding(_, _, rounded, scale, _) => s.(unitPrice := Some(rounded), scale := scale)
    case OverrideApplied(_, a) => s.(unitPrice := Some(a.unitPrice), overridden := true)
    case LineTotal(_, _, exact) => s.(exact := Some(exact))
    case _ => s
  }

  /** The sheet after a whole trace, if every step is justified when it is reached. */
  ghost function Read(s: Sheet, trace: seq<TraceStep>): Option<Sheet> {
    if trace == [] then Some(s)
    else
      var before := Read(s, trace[..|trace| - 1]);
      var step := trace[|trace| - 1];
      if before.Some? && Justified(before.value, step) then Some(Write(before.value, step)) else None
  }

  lemma ReadStep(s: Sheet, trace: seq<TraceStep>, step: TraceStep)
    ensures Read(s, trace + [step])
         == var before := Read(s, trace);
            if before.Some? && Justified(before.value, step) then Some(Write(before.value, step)) else None
  {
    assert (trace + [step])[..|trace|] == trace;
  }

  lemma {:induction false} ReadAppend(s: Sheet, xs: seq<TraceStep>, ys: seq<TraceStep>)
    ensures Read(s, xs + ys) == if Read(s, xs).Some? then Read(Read(s, xs).value, ys) else None
  {
    hide Justified, Write;
    if ys == [] {
      assert xs + ys == xs;
    } else {
      var init, step := ys[..|ys| - 1], ys[|ys| - 1];
      ReadAppend(s, xs, init);
      assert xs + ys == xs + init + [step];
      ReadStep(s, xs + init, step);
    }
  }

  lemma ReadOne(s: Sheet, step: TraceStep)
    requires Justified(s, step)
    ensures Read(s, [step]) == Some(Write(s, step))
  {
    assert [step][..0] == [];
  }

  // ------------------------------------------- each stage writes a valid passage

  lemma TieredStageReads(s: Sheet, table: TierTable, ruleId: Option<string>, qty: real)
    requires s.qty == Some(qty) && s.price.None? && TieredStage(table, ruleId, qty).Ok?
    ensures var stage := TieredStage(table, ruleId, qty).value;
            Read(s, stage.steps) == Some(s.(price := Some(stage.price)))
  {
    var t := TieredOf(table, qty).value;
    TieredAccounts(table, qty);
    ReadOne(s, TieredPrice(ruleId, t.mode, t.bands, t.exact));
  }

  lemma TieredAccounts(table: TierTable, qty: real)
    requires TieredOf(table, qty).Ok?
    ensures var t := TieredOf(table, qty).value; BandsAccount(t.mode, t.bands, qty, t.exact)
  {
    hide Cost, Charged, ParseDecimal;
    var ts := ParseTierTable(table).value;
    ParsedTiersTile(table.tiers, 0.0);
    if table.mode == GRADUATED {
      GraduatedBandsTile(ts, 0.0, qty);
    } else {
      var band := VolumeBand(ts, 0.0, qty);
      VolumeBandIsVolume(ts, 0.0, qty);
      VolumeBandPrice(ts, 0.0, qty);
      SameCharge(qty, band.unitPrice);
      assert [band][1..] == [];
      assert SumAmounts([band]) == band.amount + SumAmounts([]);
    }
  }

  lemma SameCharge(qty: real, unitPrice: real)
    ensures Charged(qty, unitPrice) == Cost(qty, unitPrice)
  {
  }

  lemma {:induction false} VolumeBandPrice(ts: seq<ParsedTier>, from: real, q: real)
    requires Reaches(ts, q)
    ensures VolumeBand(ts, from, q).unitPrice == TierPrice(ts, q)
  {
    if !(ts[0].upTo.None? || q <= ts[0].upTo.value || |ts| == 1) {
      VolumeBandPrice(ts[1..], ts[0].upTo.value, q);
    }
  }

  lemma {:induction false} ConstantsKeepQuantity(env: map<string, real>, variables: seq<(string, string)>)
    requires BindConstants(env, variables).Ok?
    ensures forall k :: k in env ==> k in BindConstants(env, variables).value && BindConstants(env, variables).value[k] == env[k]
    decreases |variables|
  {
    hide ParseDecimal, IsIdentifier;
    if variables != [] {
      var v := ParseDecimal(variables[0].1, 10, true).value;
      ConstantsKeepQuantity(Define(env, variables[0].0, v).value, variables[1..]);
    }
  }

  lemma {:induction false} IndexesKeepQuantity(env: map<string, real>, variables: seq<IndexVariable>, ctx: Ctx, s: Sheet)
    requires BindIndexes(env, variables, ctx).Ok? && s.qty.Some? && s.price.None?
    requires forall name :: name in s.indexes ==> name in env && env[name] == s.indexes[name]
    ensures var bound := BindIndexes(env, variables, ctx).value;
            var end := Read(s, bound.1);
            && (forall k :: k in env ==> k in bound.0 && bound.0[k] == env[k])
            && end.Some? && end.value == s.(indexes := end.value.indexes)
            && forall name :: name in end.value.indexes ==> name in bound.0 && bound.0[name] == end.value.indexes[name]
    decreases |variables|
  {
    hide Lookup, IsIdentifier;
    if variables != [] {
      var b := variables[0];
      var o := Lookup(ctx.indexes, b.indexCode, b.date.GetOr(ctx.date), b.lookup.GetOr(ctx.settings.indexLookup)).value;
      var extended := Define(env, b.name, o.value).value;
      IndexesKeepQuantity(extended, variables[1..], ctx, s.(indexes := s.indexes[b.name := o.value]));
      ReadOne(s, IndexRead(b.name, o));
      ReadAppend(s, [IndexRead(b.name, o)], BindIndexes(extended, variables[1..], ctx).value.1);
    }
  }

  lemma FormulaReads(s: Sheet, line: Line, qty: real, ctx: Ctx)
    requires s.qty == Some(qty) && s.price.None? && s.indexes == map[] && EvaluateFormula(line, qty, ctx).Ok?
    requires s.evaluate == ctx.evaluate && s.rounding == ctx.settings.rounding
    ensures var stage := EvaluateFormula(line, qty, ctx).value;
            stage.price.Unit? && Read(s, stage.steps) == Some(s.(price := Some(stage.price)))
  {
    hide ParseDecimal, IsIdentifier, BindConstants, BindIndexes, Read;
    var f := line.formula.value;
    var withQuantity := Define(map[], "qty", qty).value;
    var withBase := if f.basePrice.None? then withQuantity else Define(withQuantity, "P0", ParseDecimal(f.basePrice.value, 6, false).value).value;
    ConstantsKeepQuantity(withBase, f.variables);
    var constants := BindConstants(withBase, f.variables).value;
    IndexesKeepQuantity(constants, f.indexVariables, ctx, s);
    var bound := BindIndexes(constants, f.indexVariables, ctx).value;
    var step := Formula(f.expression, bound.0, EvaluateFormula(line, qty, ctx).value.price.value);
    ReadOne(Read(s, bound.1).value, step);
    ReadAppend(s, bound.1, [step]);
  }

  lemma BaseReads(s: Sheet, line: Line, qty: real, ctx: Ctx)
    requires s.qty == Some(qty) && s.price.None? && s.indexes == map[] && BaseStage(line, qty, ctx).Ok?
    requires s.evaluate == ctx.evaluate && s.rounding == ctx.settings.rounding
    ensures var stage := BaseStage(line, qty, ctx).value;
            Read(s, stage.steps) == Some(s.(price := Some(stage.price)))
  {
    hide ParseDecimal, EvaluateFormula, TieredStage, FindRule, GridUnitPrice, Read;
    var stage := BaseStage(line, qty, ctx).value;
    match line.mode
    case MANUAL =>
      if line.kind == TIERED {
        TieredStageReads(s, line.tiers.value, None, qty);
      } else {
        ReadOne(s, stage.steps[0]);
      }
    case RULE =>
      var rule := FindRule(ctx.catalog, line.rule.value.priceRuleId).value;
      if rule.TiersRule? {
        TieredStageReads(s, rule.table, Some(rule.id), qty);
      } else {
        ReadOne(s, stage.steps[0]);
      }
    case FORMULA =>
      FormulaReads(s, line, qty, ctx);
  }

  lemma RevisionReads(s: Sheet, line: Line, price: Working, ctx: Ctx)
    requires s.price == Some(price) && RevisionStage(line, price, ctx).Ok?
    ensures var stage := RevisionStage(line, price, ctx).value;
            Read(s, stage.steps) == Some(s.(price := Some(stage.price)))
  {
    hide ComputeRevision, Read;
    var stage := RevisionStage(line, price, ctx).value;
    if line.revision.None? {
      ReadNothing(s);
    } else {
      var spec := line.revision.value;
      if !(ctx.date < spec.revisionDate) {
        RevisionSigns(price.value, spec, ctx.indexes, ctx.settings.indexLookup);
        RevisionOperations(price.value, spec, ctx.indexes, ctx.settings.indexLookup);
      }
      ReadOne(s, stage.steps[0]);
    }
  }

  lemma ReadNothing(s: Sheet)
    ensures Read(s, []) == Some(s)
  {
  }

  lemma {:induction false} AdjustmentsRead(s: Sheet, ids: seq<string>, price: Working, qty: real, ctx: Ctx)
    requires s.price == Some(price) && AdjustmentStage(ids, price, qty, ctx).Ok?
    ensures var stage := AdjustmentStage(ids, price, qty, ctx).value;
            Read(s, stage.steps) == Some(s.(price := Some(stage.price)))
  {
    hide AdjustmentById, AfterDiscount, Leaves, Read;
    if ids == [] {
      ReadNothing(s);
    } else {
      var before := AdjustmentStage(ids[..|ids| - 1], price, qty, ctx).value;
      AdjustmentsRead(s, ids[..|ids| - 1], price, qty, ctx);
      var adj := AdjustmentById(ids[|ids| - 1], qty, ctx).value;
      LeavesExactly(before.price.value, adj.percent);
      ReadStep(s, before.steps, Adjusted(adj, before.price.value, AfterDiscount(before.price.value, adj.percent)));
    }
  }

  lemma WorkReads(s: Sheet, line: Line, qty: real, ctx: Ctx)
    requires s.qty == Some(qty) && s.price.None? && s.indexes == map[] && WorkOut(line, qty, ctx).Ok?
    requires s.evaluate == ctx.evaluate && s.rounding == ctx.settings.rounding
    ensures var stage := WorkOut(line, qty, ctx).value;
            Read(s, stage.steps) == Some(s.(price := Some(stage.price)))
  {
    hide BaseStage, RevisionStage, AdjustmentStage, Read;
    var base := BaseStage(line, qty, ctx).value;
    var revised := RevisionStage(line, base.price, ctx).value;
    var adjusted := AdjustmentStage(AdjustmentIds(line), revised.price, qty, ctx).value;
    BaseReads(s, line, qty, ctx);
    var s1 := s.(price := Some(base.price));
    RevisionReads(s1, line, base.price, ctx);
    var s2 := s.(price := Some(revised.price));
    AdjustmentsRead(s2, AdjustmentIds(line), revised.price, qty, ctx);
    ReadAppend(s, base.steps, revised.steps);
    ReadAppend(s, base.steps + revised.steps, adjusted.steps);
  }

  lemma {:induction false} SkippedRead(s: Sheet, skipped: seq<Skipped>)
    requires s.unitPrice.Some?
    ensures Read(s, SkippedSteps(skipped)) == Some(s)
    decreases |skipped|
  {
    if skipped == [] {
      assert SkippedSteps(skipped) == [];
    } else {
      var last := |skipped| - 1;
      SkippedRead(s, skipped[..last]);
      assert SkippedSteps(skipped) == SkippedSteps(skipped[..last]) + [OverrideSkipped(skipped[last])];
      ReadStep(s, SkippedSteps(skipped[..last]), OverrideSkipped(skipped[last]));
    }
  }

  lemma SelectionReads(s: Sheet, selection: Selection, computed: real)
    requires s.unitPrice == Some(computed) && !s.overridden
    ensures Read(s, SelectionSteps(selection, computed))
         == Some(s.(unitPrice := Some(FinalUnit(selection, computed)), overridden := selection.applied.Some?))
  {
    hide Read;
    SkippedRead(s, selection.skipped);
    if selection.applied.Some? {
      ReadStep(s, SkippedSteps(selection.skipped), OverrideApplied(computed, selection.applied.value));
    } else {
      assert SelectionSteps(selection, computed) == SkippedSteps(selection.skipped);
    }
  }

  lemma HourPackReads(s: Sheet, line: Line, settings: Settings)
    requires s.unitPrice.Some? && s.scale == settings.unitPriceScale && s.rounding == settings.rounding
    ensures Read(s, HourPackSteps(line, s.unitPrice.value, settings)) == Some(s)
  {
    hide ParseDecimal, Read, RoundsTo, RoundToScale;
    var steps := HourPackSteps(line, s.unitPrice.value, settings);
    if steps == [] {
      ReadNothing(s);
    } else {
      var hours := ParseDecimal(line.hoursPerPack.value, 6, false).value;
      RoundsExactly(s.unitPrice.value / hours, s.scale, s.rounding);
      ReadOne(s, steps[0]);
    }
  }

  lemma TotalReads(s: Sheet, exact: real, settings: Settings)
    requires s.unitPrice.Some? && s.qty.Some? && s.price.Some? && s.exact.None? && s.rounding == settings.rounding
    requires exact == if s.price.value.Amount? && !s.overridden then s.price.value.value else Cost(s.qty.value, s.unitPrice.value)
    ensures Read(s, TotalSteps(s.unitPrice.value, s.qty.value, exact, settings))
         == Some(s.(exact := Some(exact), cents := Some(ToCents(exact, settings.rounding))))
  {
    hide Read, ToCents, RoundsTo, InCents;
    RoundsToCents(exact, settings.rounding);
    var steps := TotalSteps(s.unitPrice.value, s.qty.value, exact, settings);
    ReadOne(s, steps[0]);
    ReadStep(s, [steps[0]], steps[1]);
    assert steps == [steps[0]] + [steps[1]];
  }

  /** Reading the last part of the trace, from the worked out price to the cents. */
  lemma FinishReads(
      s: Sheet, line: Line, ctx: Ctx, vat: real, recurrence: Recurrence, quantity: TraceStep, price: Working,
      steps: seq<TraceStep>)
    requires quantity.Quantity? && Finish(line, ctx, vat, recurrence, quantity, price, steps).Ok?
    requires Read(BlankFor(ctx), [quantity] + steps) == Some(BlankFor(ctx).(qty := Some(quantity.quantity), price := Some(price)))
    ensures var p := Finish(line, ctx, vat, recurrence, quantity, price, steps).value;
            var end := Read(BlankFor(ctx), p.trace);
            end.Some? && end.value.cents == Some(p.totalHtCents) && end.value.unitPrice == Some(p.unitPrice) && end.value.qty == Some(p.quantity)
  {
    hide Read, Select, Cost, ToCents, ComputedUnit, ExactUnit, SelectionSteps, HourPackSteps, TotalSteps;
    var qty, settings := quantity.quantity, ctx.settings;
    var blank := BlankFor(ctx);
    var s0 := blank.(qty := Some(qty), price := Some(price));
    var computed := ComputedUnit(price, qty, settings);
    RoundingReads(s0, price, qty, settings);
    var t1 := [quantity] + steps + [RoundingStep(price, qty, settings)];
    var s1 := s0.(unitPrice := Some(computed), scale := settings.unitPriceScale);
    ReadStep(blank, [quantity] + steps, RoundingStep(price, qty, settings));
    var selection := Select(ctx.OverridesOf(line.id), ctx.OverrideCase(computed)).value;
    SelectionReads(s1, selection, computed);
    ReadAppend(blank, t1, SelectionSteps(selection, computed));
    var unitPrice := FinalUnit(selection, computed);
    var s2 := s1.(unitPrice := Some(unitPrice), overridden := selection.applied.Some?);
    var t2 := t1 + SelectionSteps(selection, computed);
    HourPackReads(s2, line, settings);
    ReadAppend(blank, t2, HourPackSteps(line, unitPrice, settings));
    var exact := ExactTotal(price, selection, computed, qty);
    TotalReads(s2, exact, settings);
    ReadAppend(blank, t2 + HourPackSteps(line, unitPrice, settings), TotalSteps(unitPrice, qty, exact, settings));
  }

  lemma RoundingReads(s: Sheet, price: Working, qty: real, settings: Settings)
    requires s.qty == Some(qty) && s.price == Some(price) && s.unitPrice.None? && s.rounding == settings.rounding
    ensures Justified(s, RoundingStep(price, qty, settings))
  {
    hide RoundsTo, RoundToScale, IsUnitPrice, ExactUnit;
    RoundsExactly(ExactUnit(price, qty), settings.unitPriceScale, settings.rounding);
    UnitPriceExactly(price, qty);
  }

  /**
   * The trace suffices to a reader who can evaluate a formula: for every line that can be priced, each
   * step is justified by the steps before it and by nothing else, and reading them all ends on the
   * printed quantity, unit price and total, to the cent.
   */
  lemma TraceReplays(line: Line, ctx: Ctx)
    requires RegularLine(line, ctx).Ok?
    ensures var p := RegularLine(line, ctx).value;
            var end := Read(Blank(ctx.evaluate, ctx.settings.rounding), p.trace);
            && end.Some?
            && end.value.cents == Some(p.totalHtCents)
            && end.value.unitPrice == Some(p.unitPrice)
            && end.value.qty == Some(p.quantity)
  {
    hide Read, WorkOut, Finish, ParseVat, CheckShape, ResolveQuantity;
    var quantity := ResolveQuantity(line, ctx).value;
    QuantityIsQuantity(line, ctx);
    var work := WorkOut(line, quantity.quantity, ctx).value;
    var blank := BlankFor(ctx);
    var s := blank.(qty := Some(quantity.quantity));
    ReadOne(blank, quantity);
    WorkReads(s, line, quantity.quantity, ctx);
    ReadAppend(blank, [quantity], work.steps);
    FinishReads(s, line, ctx, ParseVat(line).value, ResolveRecurrence(line).value, quantity, work.price, work.steps);
  }

  // ------------------------------------------------------- pending overrides shown

  /** Place of the line total in a trace, its end when there is none. */
  function TotalPlace(trace: seq<TraceStep>): (at: nat)
    ensures at <= |trace|
    ensures at < |trace| ==> trace[at].LineTotal?
    ensures forall i :: 0 <= i < at ==> !trace[i].LineTotal?
  {
    if trace == [] || trace[0].LineTotal? then 0 else 1 + TotalPlace(trace[1..])
  }

  /** `annotatePending`: the pending overrides of a line are shown just before its total. */
  function Annotate(trace: seq<TraceStep>, pending: seq<Skipped>): seq<TraceStep> {
    trace[..TotalPlace(trace)] + SkippedSteps(pending) + trace[TotalPlace(trace)..]
  }

  lemma ReadPrefix(s: Sheet, head: seq<TraceStep>, rest: seq<TraceStep>)
    requires Read(s, head + rest).Some?
    ensures Read(s, head).Some?
  {
    ReadAppend(s, head, rest);
  }

  /** A total is only justified on a sheet that has a unit price. */
  lemma PricedBeforeTotal(s: Sheet, head: seq<TraceStep>, total: TraceStep)
    requires s.unitPrice.None? && total.LineTotal? && Read(s, head + [total]).Some?
    ensures Read(s, head).Some? && Read(s, head).value.unitPrice.Some?
  {
    hide Read;
    ReadStep(s, head, total);
  }

  lemma SkippedInserted(s: Sheet, head: seq<TraceStep>, tail: seq<TraceStep>, pending: seq<Skipped>)
    requires Read(s, head).Some? && Read(s, head).value.unitPrice.Some?
    ensures Read(s, head + SkippedSteps(pending) + tail) == Read(s, head + tail)
  {
    hide *;
    SkippedRead(Read(s, head).value, pending);
    ReadAppend(s, head, SkippedSteps(pending));
    ReadAppend(s, head + SkippedSteps(pending), tail);
    ReadAppend(s, head, tail);
  }

  lemma CutAt(trace: seq<TraceStep>, at: nat)
    requires at < |trace|
    ensures trace == trace[..at] + trace[at..]
    ensures trace == trace[..at] + [trace[at]] + trace[at + 1..]
  {
  }

  /** Steps that skip an override can be inserted before the total: the reading is the same. */
  lemma AnnotatedTraceReads(s: Sheet, trace: seq<TraceStep>, pending: seq<Skipped>)
    requires s.unitPrice.None? && Read(s, trace).Some? && TotalPlace(trace) < |trace|
    ensures Read(s, Annotate(trace, pending)) == Read(s, trace)
  {
    var at := TotalPlace(trace);
    assert Annotate(trace, pending) == trace[..at] + SkippedSteps(pending) + trace[at..];
    hide *;
    CutAt(trace, at);
    ReadPrefix(s, trace[..at] + [trace[at]], trace[at + 1..]);
    PricedBeforeTotal(s, trace[..at], trace[at]);
    SkippedInserted(s, trace[..at], trace[at..], pending);
  }

  lemma TotalIsTraced(line: Line, ctx: Ctx)
    requires RegularLine(line, ctx).Ok?
    ensures var trace := RegularLine(line, ctx).value.trace; |trace| >= 2 && trace[|trace| - 2].LineTotal?
  {
    hide WorkOut, ParseVat, CheckShape, ResolveQuantity, ResolveRecurrence;
    hide Select, ComputedUnit, RoundingStep, SelectionSteps, HourPackSteps;
    QuantityIsQuantity(line, ctx);
  }

  /** Whatever overrides are pending, the annotated trace of a line replays to the same sheet. */
  lemma AnnotatedLineReplays(line: Line, ctx: Ctx, pending: seq<Skipped>)
    requires RegularLine(line, ctx).Ok?
    ensures var trace := RegularLine(line, ctx).value.trace;
            var blank := Blank(ctx.evaluate, ctx.settings.rounding);
            Read(blank, Annotate(trace, pending)) == Read(blank, trace)
  {
    hide RegularLine, Read;
    TraceReplays(line, ctx);
    TotalIsTraced(line, ctx);
    AnnotatedTraceReads(BlankFor(ctx), RegularLine(line, ctx).value.trace, pending);
  }
}

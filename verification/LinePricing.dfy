/** Pricing of one regular line (packages/pricing/src/price-at.ts, `priceRegularLine`). */
module LinePricing {
  import opened Outcomes
  import opened Money
  import opened DecimalText
  import opened Calendar
  import opened Tiers
  import opened Indexes
  import opened Rules
  import opened Overrides
  import opened PricingTypes

  /** The price being worked on: a unit price, or the amount of a tiered line. */
  datatype Working = Unit(value: real) | Amount(value: real) {
    function With(v: real): Working {
      if Unit? then Unit(v) else Amount(v)
    }
  }

  /** A working price and the trace steps that led to it. */
  datatype Stage = Stage(price: Working, steps: seq<TraceStep>)

  // ------------------------------------------------------ checks and quantity

  function ParseVat(line: Line): Result<real> {
    var v :- ParseDecimal(line.vatRatePercent, 4, false);
    if v > 100.0 then Err(INVALID_LINE) else Ok(v)
  }

  function ForcedRecurrence(kind: LineKind): Option<Recurrence> {
    match kind
    case FLAT_MONTHLY => Some(MONTHLY)
    case FLAT_YEARLY => Some(YEARLY)
    case SETUP_FEE => Some(ONE_OFF)
    case _ => None
  }

  function DefaultRecurrence(kind: LineKind): Recurrence {
    match kind
    case FLAT_YEARLY => YEARLY
    case SETUP_FEE => ONE_OFF
    case HOURLY => ONE_OFF
    case HOUR_PACK => ONE_OFF
    case _ => MONTHLY
  }

  function ResolveRecurrence(line: Line): Result<Recurrence> {
    var forced := ForcedRecurrence(line.kind);
    if forced.Some? && line.recurrence.Some? && line.recurrence != forced then Err(INVALID_LINE)
    else Ok(line.recurrence.GetOr(DefaultRecurrence(line.kind)))
  }

  function CheckShape(line: Line): Result<()> {
    var _ :-
      if line.kind != HOUR_PACK then Ok(())
      else if line.hoursPerPack.None? then Err(INVALID_LINE)
      else
        var hours :- ParseDecimal(line.hoursPerPack.value, 6, false);
        Check(hours > 0.0, INVALID_LINE);
    Check(!(line.revision.Some? && line.mode == FORMULA), INVALID_LINE)
  }

  /** The quantity step: the quantity itself is its `quantity`. */
  function ResolveQuantity(line: Line, ctx: Ctx): Result<TraceStep> {
    match line.quantity.GetOr(Fixed("1"))
    case Fixed(text) =>
      var q :- ParseDecimal(text, 6, false);
      Ok(Quantity("FIXED", q, None))
    case Provider =>
      if line.id !in ctx.quantities then Err(MISSING_QUANTITY)
      else
        var r := ctx.quantities[line.id];
        var q :- ParseDecimal(r.quantity, 6, false);
        Ok(Quantity(r.source, q, r.observedAt))
  }

  // -------------------------------------------------------------- base price

  predicate IsIdentifier(name: string) {
    && name != []
    && !('0' <= name[0] <= '9')
    && forall c :: c in name ==> 'A' <= c <= 'Z' || 'a' <= c <= 'z' || '0' <= c <= '9' || c == '_'
  }

  function Define(env: map<string, real>, name: string, value: real): Result<map<string, real>> {
    if !IsIdentifier(name) || name in env then Err(INVALID_LINE) else Ok(env[name := value])
  }

  function BindConstants(env: map<string, real>, variables: seq<(string, string)>): Result<map<string, real>>
    decreases |variables|
  {
    if variables == [] then Ok(env)
    else
      var v :- ParseDecimal(variables[0].1, 10, true);
      var extended :- Define(env, variables[0].0, v);
      BindConstants(extended, variables[1..])
  }

  function BindIndexes(env: map<string, real>, variables: seq<IndexVariable>, ctx: Ctx)
    : Result<(map<string, real>, seq<TraceStep>)>
    decreases |variables|
  {
    if variables == [] then Ok((env, []))
    else
      var b := variables[0];
      var observation :- Lookup(ctx.indexes, b.indexCode, b.date.GetOr(ctx.date), b.lookup.GetOr(ctx.settings.indexLookup));
      var extended :- Define(env, b.name, observation.value);
      var rest :- BindIndexes(extended, variables[1..], ctx);
      Ok((rest.0, [IndexRead(b.name, observation)] + rest.1))
  }

  function EvaluateFormula(line: Line, qty: real, ctx: Ctx): Result<Stage> {
    if line.formula.None? then Err(INVALID_LINE)
    else
      var f := line.formula.value;
      var withQuantity :- Define(map[], "qty", qty);
      var withBase :-
        if f.basePrice.None? then Ok(withQuantity)
        else
          var p :- ParseDecimal(f.basePrice.value, 6, false);
          Define(withQuantity, "P0", p);
      var constants :- BindConstants(withBase, f.variables);
      var bound :- BindIndexes(constants, f.indexVariables, ctx);
      var result :- ctx.evaluate(f.expression, bound.0, ctx.settings.rounding);
      Ok(Stage(Unit(result), bound.1 + [Formula(f.expression, bound.0, result)]))
  }

  function TieredStage(table: TierTable, ruleId: Option<string>, qty: real): Result<Stage> {
    var t :- TieredOf(table, qty);
    Ok(Stage(Amount(t.exact), [TieredPrice(ruleId, t.mode, t.bands, t.exact)]))
  }

  function BaseStage(line: Line, qty: real, ctx: Ctx): Result<Stage> {
    match line.mode
    case MANUAL =>
      if line.kind == TIERED then
        if line.tiers.None? then Err(INVALID_LINE) else TieredStage(line.tiers.value, None, qty)
      else if line.unitPrice.None? then Err(INVALID_LINE)
      else
        var p :- ParseDecimal(line.unitPrice.value, 6, false);
        Ok(Stage(Unit(p), [BasePrice(p)]))
    case RULE =>
      if line.rule.None? then Err(INVALID_LINE)
      else
        var rule :- FindRule(ctx.catalog, line.rule.value.priceRuleId);
        match rule {
          case Grid(id, entries) =>
            var _ :- Check(line.kind != TIERED, INVALID_LINE);
            var p :- GridUnitPrice(entries, line.code);
            Ok(Stage(Unit(p), [RulePrice(id, line.code, p)]))
          case TiersRule(id, table) =>
            var _ :- Check(line.kind == TIERED, INVALID_LINE);
            TieredStage(table, Some(id), qty)
          case _ => Err(INVALID_LINE)
        }
    case FORMULA =>
      var _ :- Check(line.kind != TIERED, INVALID_LINE);
      var stage :- EvaluateFormula(line, qty, ctx);
      if stage.price.value < 0.0 then Err(NEGATIVE_PRICE) else Ok(stage)
  }

  // ------------------------------------------------- revision and adjustments

  function RevisionStage(line: Line, price: Working, ctx: Ctx): Result<Stage> {
    if line.revision.None? then Ok(Stage(price, []))
    else
      var spec := line.revision.value;
      var _ :- Check(ValidDay(spec.referenceDate) && ValidDay(spec.revisionDate), INVALID_DATE);
      var _ :- Check(spec.referenceDate <= spec.revisionDate, INVALID_LINE);
      if ctx.date < spec.revisionDate then Ok(Stage(price, [RevisionNotEffective(spec.revisionDate, ctx.date)]))
      else
        var r :- ComputeRevision(price.value, spec, ctx.indexes, ctx.settings.indexLookup);
        Ok(Stage(price.With(r.exact), [Revision(price.Unit?, price.value, r)]))
  }

  function AdjustmentIds(line: Line): seq<string> {
    if line.mode == RULE && line.rule.Some? then line.rule.value.adjustmentRuleIds else []
  }

  function AdjustmentById(ruleId: string, qty: real, ctx: Ctx): Result<Adjustment> {
    var rule :- FindRule(ctx.catalog, ruleId);
    AdjustmentOf(rule, qty, ctx.commitmentMonths)
  }

  function AfterDiscount(before: real, percent: real): real {
    before * (100.0 - percent) / 100.0
  }

  /** Adjustments in cascade: each starts from the price left by the one before it. */
  function AdjustmentStage(ids: seq<string>, price: Working, qty: real, ctx: Ctx): Result<Stage> {
    if ids == [] then Ok(Stage(price, []))
    else
      var before :- AdjustmentStage(ids[..|ids| - 1], price, qty, ctx);
      var adj :- AdjustmentById(ids[|ids| - 1], qty, ctx);
      var after := AfterDiscount(before.price.value, adj.percent);
      Ok(Stage(before.price.With(after), before.steps + [Adjusted(adj, before.price.value, after)]))
  }

  // --------------------------------------------------------- rounding and end

  /** The exact unit price, or the average one of a tiered line. */
  function ExactUnit(price: Working, qty: real): real {
    if price.Unit? then price.value else if qty == 0.0 then 0.0 else price.value / qty
  }

  function ComputedUnit(price: Working, qty: real, s: Settings): real {
    RoundToScale(ExactUnit(price, qty), s.unitPriceScale, s.rounding)
  }

  function RoundingStep(price: Working, qty: real, s: Settings): TraceStep {
    Rounding(if price.Unit? then UNIT_PRICE else AVERAGE_UNIT_PRICE, ExactUnit(price, qty),
             ComputedUnit(price, qty, s), s.unitPriceScale, s.rounding)
  }

  function SkippedSteps(skipped: seq<Skipped>): seq<TraceStep> {
    seq(|skipped|, i requires 0 <= i < |skipped| => OverrideSkipped(skipped[i]))
  }

  function SelectionSteps(selection: Selection, computed: real): seq<TraceStep> {
    SkippedSteps(selection.skipped)
    + if selection.applied.Some? then [OverrideApplied(computed, selection.applied.value)] else []
  }

  function FinalUnit(selection: Selection, computed: real): real {
    if selection.applied.Some? then selection.applied.value.unitPrice else computed
  }

  /** An override turns a tiered line into a flat one: its amount is dropped. */
  function ExactTotal(price: Working, selection: Selection, computed: real, qty: real): real {
    if price.Amount? && selection.applied.None? then price.value else Cost(qty, FinalUnit(selection, computed))
  }

  function HourPackSteps(line: Line, unitPrice: real, s: Settings): seq<TraceStep> {
    if line.kind != HOUR_PACK || line.hoursPerPack.None? then []
    else
      var hours := ParseDecimal(line.hoursPerPack.value, 6, false);
      if hours.Err? || hours.value <= 0.0 then []
      else [HourPack(hours.value, RoundToScale(unitPrice / hours.value, s.unitPriceScale, s.rounding))]
  }

  function TotalSteps(unitPrice: real, qty: real, exact: real, s: Settings): seq<TraceStep> {
    [LineTotal(unitPrice, qty, exact),
     Rounding(LINE_TOTAL, exact, CentsToEuros(ToCents(exact, s.rounding)), 2, s.rounding)]
  }

  function Priced(line: Line, recurrence: Recurrence, qty: real, unitPrice: real, vat: real, cents: int, trace: seq<TraceStep>)
    : PricedLine
  {
    PricedLine(line.id, line.code, line.kind, line.mode, recurrence, qty, unitPrice, vat, cents, trace)
  }

  /** The line once its price is worked out: rounding, override, total. */
  function Finish(
      line: Line, ctx: Ctx, vat: real, recurrence: Recurrence, quantity: TraceStep, price: Working,
      steps: seq<TraceStep>)
    : Result<PricedLine>
    requires quantity.Quantity?
  {
    var qty, s := quantity.quantity, ctx.settings;
    var computed := ComputedUnit(price, qty, s);
    var selection :- Select(ctx.OverridesOf(line.id), ctx.OverrideCase(computed));
    var unitPrice := FinalUnit(selection, computed);
    var exact := ExactTotal(price, selection, computed, qty);
    Ok(Priced(line, recurrence, qty, unitPrice, vat, ToCents(exact, s.rounding),
              [quantity] + steps + [RoundingStep(price, qty, s)] + SelectionSteps(selection, computed)
              + HourPackSteps(line, unitPrice, s) + TotalSteps(unitPrice, qty, exact, s)))
  }

  /** Base price, revision and adjustments. */
  function WorkOut(line: Line, qty: real, ctx: Ctx): Result<Stage> {
    var base :- BaseStage(line, qty, ctx);
    var revised :- RevisionStage(line, base.price, ctx);
    var adjusted :- AdjustmentStage(AdjustmentIds(line), revised.price, qty, ctx);
    Ok(Stage(adjusted.price, base.steps + revised.steps + adjusted.steps))
  }

  lemma QuantityIsQuantity(line: Line, ctx: Ctx)
    ensures ResolveQuantity(line, ctx).Ok? ==>
              ResolveQuantity(line, ctx).value.Quantity? && ResolveQuantity(line, ctx).value.quantity >= 0.0
  {
    hide ParseDecimal;
    match line.quantity.GetOr(Fixed("1"))
    case Fixed(text) => if ParseDecimal(text, 6, false).Ok? { ParsedDecimal(text, 6, false); }
    case Provider =>
      if line.id in ctx.quantities && ParseDecimal(ctx.quantities[line.id].quantity, 6, false).Ok? {
        ParsedDecimal(ctx.quantities[line.id].quantity, 6, false);
      }
  }

  /** The whole computation of one regular line, trace included. */
  function RegularLine(line: Line, ctx: Ctx): Result<PricedLine> {
    var vat :- ParseVat(line);
    var recurrence :- ResolveRecurrence(line);
    var _ :- CheckShape(line);
    var quantity :- ResolveQuantity(line, ctx);
    QuantityIsQuantity(line, ctx);
    var work :- WorkOut(line, quantity.quantity, ctx);
    Finish(line, ctx, vat, recurrence, quantity, work.price, work.steps)
  }

  // ------------------------------------------------------- the imperative form

  lemma {:induction false} AdjustmentStagePrefix(ids: seq<string>, n: nat, price: Working, qty: real, ctx: Ctx)
    requires n <= |ids|
    ensures AdjustmentStage(ids[..n], price, qty, ctx).Err? ==>
              AdjustmentStage(ids, price, qty, ctx) == AdjustmentStage(ids[..n], price, qty, ctx)
    decreases |ids|
  {
    if n < |ids| {
      assert ids[..|ids| - 1][..n] == ids[..n];
      AdjustmentStagePrefix(ids[..|ids| - 1], n, price, qty, ctx);
    } else {
      assert ids[..n] == ids;
    }
  }

  /** Step 2: a unit price or a tiered amount, according to the mode. */
  method BasePriceOf(line: Line, qty: real, ctx: Ctx) returns (r: Result<Stage>)
    ensures r == BaseStage(line, qty, ctx)
  {
    hide EvaluateFormula, ParseDecimal, GridUnitPrice, FindRule, TieredOf;
    var table: TierTable;
    var ruleId: Option<string> := None;
    match line.mode {
      case MANUAL =>
        if line.kind != TIERED {
          if line.unitPrice.None? {
            return Err(INVALID_LINE);
          }
          var p :- ParseDecimal(line.unitPrice.value, 6, false);
          return Ok(Stage(Unit(p), [BasePrice(p)]));
        }
        if line.tiers.None? {
          return Err(INVALID_LINE);
        }
        table := line.tiers.value;
      case RULE =>
        if line.rule.None? {
          return Err(INVALID_LINE);
        }
        var rule :- FindRule(ctx.catalog, line.rule.value.priceRuleId);
        if rule.Grid? {
          if line.kind == TIERED {
            return Err(INVALID_LINE);
          }
          var p :- GridUnitPrice(rule.entries, line.code);
          return Ok(Stage(Unit(p), [RulePrice(rule.id, line.code, p)]));
        }
        if !rule.TiersRule? || line.kind != TIERED {
          return Err(INVALID_LINE);
        }
        table, ruleId := rule.table, Some(rule.id);
      case FORMULA =>
        if line.kind == TIERED {
          return Err(INVALID_LINE);
        }
        var stage :- EvaluateFormula(line, qty, ctx);
        return if stage.price.value < 0.0 then Err(NEGATIVE_PRICE) else Ok(stage);
    }
    var t := ComputeTiered(table, qty);
    if t.Err? {
      return Err(t.code);
    }
    r := Ok(Stage(Amount(t.value.exact), [TieredPrice(ruleId, t.value.mode, t.value.bands, t.value.exact)]));
  }

  /** Step 3: the native revision, on the unit price or on the tiered amount. */
  method ReviseLine(line: Line, price: Working, ctx: Ctx) returns (r: Result<Stage>)
    ensures r == RevisionStage(line, price, ctx)
  {
    hide ComputeRevision, ValidDay;
    if line.revision.None? {
      return Ok(Stage(price, []));
    }
    var spec := line.revision.value;
    if !ValidDay(spec.referenceDate) || !ValidDay(spec.revisionDate) {
      return Err(INVALID_DATE);
    }
    if spec.revisionDate < spec.referenceDate {
      return Err(INVALID_LINE);
    }
    if ctx.date < spec.revisionDate {
      return Ok(Stage(price, [RevisionNotEffective(spec.revisionDate, ctx.date)]));
    }
    var rev := ComputeRevision(price.value, spec, ctx.indexes, ctx.settings.indexLookup);
    if rev.Err? {
      return Err(rev.code);
    }
    r := Ok(Stage(price.With(rev.value.exact), [Revision(price.Unit?, price.value, rev.value)]));
  }

  /** Step 4: the cascade, reassigning the working price and pushing one step per rule. */
  method Adjust(ids: seq<string>, price: Working, qty: real, ctx: Ctx) returns (r: Result<Stage>)
    ensures r == AdjustmentStage(ids, price, qty, ctx)
  {
    hide AdjustmentOf, FindRule, AfterDiscount;
    var current, trace := price, [];
    for i := 0 to |ids|
      invariant AdjustmentStage(ids[..i], price, qty, ctx) == Ok(Stage(current, trace))
    {
      assert ids[..i + 1][..i] == ids[..i];
      AdjustmentStagePrefix(ids, i + 1, price, qty, ctx);
      var rule := FindRule(ctx.catalog, ids[i]);
      if rule.Err? {
        return Err(rule.code);
      }
      var adj := AdjustmentFor(rule.value, qty, ctx.commitmentMonths);
      if adj.Err? {
        return Err(adj.code);
      }
      var after := AfterDiscount(current.value, adj.value.percent);
      trace := trace + [Adjusted(adj.value, current.value, after)];
      current := current.With(after);
    }
    assert ids[..|ids|] == ids;
    r := Ok(Stage(current, trace));
  }

  /** Steps 2 to 4: the working price is reassigned and every step is pushed to the trace. */
  method WorkOutPrice(line: Line, qty: real, ctx: Ctx) returns (r: Result<Stage>)
    ensures r == WorkOut(line, qty, ctx)
  {
    hide BaseStage, RevisionStage, AdjustmentStage;
    var base := BasePriceOf(line, qty, ctx);
    if base.Err? {
      return base;
    }
    var price, trace := base.value.price, base.value.steps;
    var revised := ReviseLine(line, price, ctx);
    if revised.Err? {
      return revised;
    }
    price, trace := revised.value.price, trace + revised.value.steps;
    var adjusted := Adjust(AdjustmentIds(line), price, qty, ctx);
    if adjusted.Err? {
      return adjusted;
    }
    r := Ok(Stage(adjusted.value.price, trace + adjusted.value.steps));
  }

  /** The whole of `priceRegularLine`, in the order of its trace. */
  method PriceRegularLine(line: Line, ctx: Ctx) returns (r: Result<PricedLine>)
    ensures r == RegularLine(line, ctx)
  {
    hide ParseDecimal, WorkOut, Select, ResolveRecurrence, Cost, ToCents, ComputedUnit;
    var vat :- ParseVat(line);
    var recurrence :- ResolveRecurrence(line);
    var _ :- CheckShape(line);
    var quantity :- ResolveQuantity(line, ctx);
    QuantityIsQuantity(line, ctx);
    var qty, s := quantity.quantity, ctx.settings;
    var trace := [quantity];

    var work := WorkOutPrice(line, qty, ctx);
    if work.Err? {
      return Err(work.code);
    }
    trace := trace + work.value.steps;
    var price := work.value.price;

    var unitPrice := ComputedUnit(price, qty, s);
    trace := trace + [RoundingStep(price, qty, s)];

    var selection := SelectOverride(ctx.OverridesOf(line.id), ctx.date, unitPrice, s.threshold);
    if selection.Err? {
      return Err(selection.code);
    }
    trace := trace + SelectionSteps(selection.value, unitPrice);
    var amount := if price.Amount? then Some(price.value) else None;
    if selection.value.applied.Some? {
      unitPrice := selection.value.applied.value.unitPrice;
      amount := None;
    }

    trace := trace + HourPackSteps(line, unitPrice, s);
    var exactTotal := if amount.Some? then amount.value else Cost(qty, unitPrice);
    var totalHtCents := ToCents(exactTotal, s.rounding);
    trace := trace + TotalSteps(unitPrice, qty, exactTotal, s);
    r := Ok(Priced(line, recurrence, qty, unitPrice, vat, totalHtCents, trace));
  }
}

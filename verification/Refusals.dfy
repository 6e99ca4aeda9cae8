/**
 * Why a regular line is refused (packages/pricing/src/price-at.ts, `priceRegularLine`): the error code of each
 * stage, told from the texts, the catalogue, the indexes and the overrides. The first stage that fails decides.
 */
module Refusals {
  import opened Outcomes
  import opened DecimalText
  import opened Calendar
  import opened Tiers
  import opened Indexes
  import opened Rules
  import opened Overrides
  import opened FourEyes
  import opened PricingTypes
  import opened LinePricing
  import opened Provenance
  import opened PricedLines

  lemma OnlyInvalidDecimal(text: string, scale: nat, signed: bool)
    ensures ParseDecimal(text, scale, signed).Err? ==> ParseDecimal(text, scale, signed).code == INVALID_DECIMAL
  {
  }

  // ------------------------------------------------------------- head and quantity

  /** The rate is unreadable, or all is well up to hours of a pack that are. */
  ghost predicate HeadUnreadable(line: Line) {
    || ParseDecimal(line.vatRatePercent, 4, false).Err?
    || (ParseDecimal(line.vatRatePercent, 4, false).value <= 100.0 && (exists rec :: RecurrenceGiven(line, rec))
        && line.kind == HOUR_PACK && line.hoursPerPack.Some? && ParseDecimal(line.hoursPerPack.value, 6, false).Err?)
  }

  /** The first checks come before all pricing. */
  lemma HeadDecides(line: Line, ctx: Ctx)
    ensures ParseVat(line).Err? ==> RegularLine(line, ctx) == Err(ParseVat(line).code)
    ensures ParseVat(line).Ok? && ResolveRecurrence(line).Err? ==> RegularLine(line, ctx) == Err(ResolveRecurrence(line).code)
    ensures ParseVat(line).Ok? && ResolveRecurrence(line).Ok? && CheckShape(line).Err? ==> RegularLine(line, ctx) == Err(CheckShape(line).code)
  {
    hide ParseVat, ResolveRecurrence, CheckShape, ResolveQuantity, WorkOut, Finish;
  }

  lemma HeadRefusal(line: Line, ctx: Ctx)
    requires !HeadReads(line)
    ensures RegularLine(line, ctx) == Err(if HeadUnreadable(line) then INVALID_DECIMAL else INVALID_LINE)
  {
    OnlyInvalidDecimal(line.vatRatePercent, 4, false);
    if line.hoursPerPack.Some? {
      OnlyInvalidDecimal(line.hoursPerPack.value, 6, false);
    }
    HeadDecides(line, ctx);
    RecurrenceIsGiven(line);
    hide ParseDecimal, RecurrenceGiven, RegularLine;
  }

  lemma QuantityRefusal(line: Line, ctx: Ctx)
    requires HeadReads(line) && forall quantity :: !QuantityFrom(quantity, line, ctx)
    ensures RegularLine(line, ctx) == Err(if line.quantity == Some(Provider) && line.id !in ctx.quantities then MISSING_QUANTITY else INVALID_DECIMAL)
  {
    OneParses();
    HeadExactly(line);
    QuantityIsFrom(line, ctx);
    QuantityErrors(line, ctx);
    hide QuantityFrom, HeadReads, ParseVat, ResolveRecurrence, CheckShape, ResolveQuantity;
    assert ResolveQuantity(line, ctx).Err?;
  }

  lemma QuantityErrors(line: Line, ctx: Ctx)
    ensures ResolveQuantity(line, ctx).Err? ==>
              ResolveQuantity(line, ctx).code == if line.quantity == Some(Provider) && line.id !in ctx.quantities then MISSING_QUANTITY else INVALID_DECIMAL
  {
  }

  // --------------------------------------------------------------------- base price

  /** A table without tiers, or whose texts are all read, is refused as a line; texts alone are refused as decimals. */
  ghost predicate TableRefusal(table: TierTable, code: ErrorCode) {
    && code in {INVALID_LINE, INVALID_DECIMAL}
    && ((table.tiers == [] || exists ts :: TableSays(table.tiers, ts)) ==> code == INVALID_LINE)
  }

  lemma {:induction false} TiersRefused(tiers: seq<Tier>, prev: real)
    ensures ParseTiers(tiers, prev).Err? ==> ParseTiers(tiers, prev).code in {INVALID_LINE, INVALID_DECIMAL}
    ensures (exists ts :: TableSays(tiers, ts)) && ParseTiers(tiers, prev).Err? ==> ParseTiers(tiers, prev).code == INVALID_LINE
    decreases |tiers|
  {
    if tiers != [] {
      OnlyInvalidDecimal(tiers[0].unitPrice, Tiers.SCALE, false);
      if tiers[0].upTo.Some? {
        OnlyInvalidDecimal(tiers[0].upTo.value, Tiers.SCALE, false);
      }
      hide ParseDecimal;
      var first := ParseTier(tiers[0], prev, |tiers| == 1);
      if first.Ok? {
        TiersRefused(tiers[1..], first.value.upTo.GetOr(prev));
      }
      if ts :| TableSays(tiers, ts) {
        assert TierSays(tiers[0], ts[0]);
        assert forall i :: 0 <= i < |ts[1..]| ==> TierSays(tiers[1..][i], ts[1..][i]);
        assert TableSays(tiers[1..], ts[1..]);
      }
    }
  }

  lemma TieredRefused(table: TierTable, qty: real)
    requires !TieredReads(table, qty)
    ensures TieredOf(table, qty).Err? && TableRefusal(table, TieredOf(table, qty).code)
    ensures forall ruleId :: TieredStage(table, ruleId, qty) == Err(TieredOf(table, qty).code)
  {
    hide ParseTiers, TieredReads, Tiered, TableSays;
    TieredExactly(table, qty);
    TiersRefused(table.tiers, 0.0);
  }

  /** Why a rule that is found does not price the line. */
  ghost predicate RuleRefusal(rule: PricingRule, line: Line, code: ErrorCode) {
    match rule
    case Grid(_, entries) =>
      code == if line.kind == TIERED then INVALID_LINE
              else if forall e :: e in entries ==> e.articleCode != line.code then RULE_NOT_FOUND
              else INVALID_DECIMAL
    case TiersRule(_, table) => if line.kind != TIERED then code == INVALID_LINE else TableRefusal(table, code)
    case _ => code == INVALID_LINE
  }

  /** Why a line has no base price. */
  ghost predicate BaseRefusal(line: Line, qty: real, ctx: Ctx, code: ErrorCode) {
    match line.mode
    case MANUAL =>
      if line.kind == TIERED then if line.tiers.None? then code == INVALID_LINE else TableRefusal(line.tiers.value, code)
      else code == if line.unitPrice.None? then INVALID_LINE else INVALID_DECIMAL
    case RULE =>
      if line.rule.None? then code == INVALID_LINE
      else if forall rule :: !Named(ctx, line.rule.value.priceRuleId, rule) then code == RULE_NOT_FOUND
      else forall rule :: Named(ctx, line.rule.value.priceRuleId, rule) ==> RuleRefusal(rule, line, code)
    case FORMULA =>
      if line.kind == TIERED || line.formula.None? then code == INVALID_LINE else FormulaRefusal(line.formula.value, qty, ctx, code)
  }

  /** Names that clash are refused as a line; an evaluation that fails gives its own code, one below zero NEGATIVE_PRICE. */
  ghost predicate FormulaRefusal(f: FormulaSpec, qty: real, ctx: Ctx, code: ErrorCode) {
    && (f.basePrice.Some? && ParseDecimal(f.basePrice.value, 6, false).Err? ==> code == INVALID_DECIMAL)
    && (f.basePrice.None? || ParseDecimal(f.basePrice.value, 6, false).Ok? ==>
          ConstantsRead(f.variables) && IndexesRead(f.indexVariables, ctx) && !FormulaTexts(f, ctx) ==> code == INVALID_LINE)
    && (FormulaTexts(f, ctx) ==> forall variables :: VariablesFrom(variables, f, qty, ctx) ==>
          var result := ctx.evaluate(f.expression, variables, ctx.settings.rounding);
          code == if result.Err? then result.code else NEGATIVE_PRICE)
  }

  lemma {:induction false} ConstantsClash(env: map<string, real>, constants: seq<(string, string)>)
    requires ConstantsRead(constants)
    ensures BindConstants(env, constants).Err? ==> BindConstants(env, constants).code == INVALID_LINE
    decreases |constants|
  {
    hide ParseDecimal, IsIdentifier;
    if constants != [] {
      var first, rest := constants[0], constants[1..];
      assert constants == [first] + rest;
      if IsIdentifier(first.0) && first.0 !in env {
        ConstantsClash(env[first.0 := ParseDecimal(first.1, 10, true).value], rest);
      }
    }
  }

  lemma {:induction false} IndexesClash(env: map<string, real>, indexVariables: seq<IndexVariable>, ctx: Ctx)
    requires IndexesRead(indexVariables, ctx)
    ensures BindIndexes(env, indexVariables, ctx).Err? ==> BindIndexes(env, indexVariables, ctx).code == INVALID_LINE
    decreases |indexVariables|
  {
    hide Lookup, IsIdentifier, IndexIsRead, ReadAs;
    if indexVariables != [] {
      var first, rest := indexVariables[0], indexVariables[1..];
      assert indexVariables == [first] + rest;
      IndexesReadSplit(first, rest, ctx);
      ReadExactly(first, ctx);
      if IsIdentifier(first.name) && first.name !in env {
        var o := Lookup(ctx.indexes, first.indexCode, first.date.GetOr(ctx.date), first.lookup.GetOr(ctx.settings.indexLookup)).value;
        IndexesClash(env[first.name := o.value], rest, ctx);
      }
    }
  }

  lemma FormulaRefused(line: Line, qty: real, ctx: Ctx)
    requires line.mode == FORMULA && line.kind != TIERED && line.formula.Some? && !FormulaReads(line, qty, ctx)
    ensures BaseStage(line, qty, ctx).Err? && FormulaRefusal(line.formula.value, qty, ctx, BaseStage(line, qty, ctx).code)
  {
    var f := line.formula.value;
    FormulaExactly(line, qty, ctx);
    if f.basePrice.Some? && ParseDecimal(f.basePrice.value, 6, false).Err? {
      OnlyInvalidDecimal(f.basePrice.value, 6, false);
      BaseTextRefused(line, qty, ctx);
    } else {
      BoundFormulaRefused(line, f, qty, ctx);
    }
  }

  lemma BaseTextRefused(line: Line, qty: real, ctx: Ctx)
    requires line.mode == FORMULA && line.kind != TIERED && line.formula.Some?
    requires line.formula.value.basePrice.Some? && ParseDecimal(line.formula.value.basePrice.value, 6, false) == Err(INVALID_DECIMAL)
    ensures BaseStage(line, qty, ctx) == Err(INVALID_DECIMAL) && !FormulaTexts(line.formula.value, ctx)
  {
    ReservedNames();
    hide ParseDecimal, IsIdentifier, BindConstants, BindIndexes;
  }

  lemma BoundFormulaRefused(line: Line, f: FormulaSpec, qty: real, ctx: Ctx)
    requires line.mode == FORMULA && line.kind != TIERED && line.formula == Some(f)
    requires f.basePrice.Some? ==> ParseDecimal(f.basePrice.value, 6, false).Ok?
    requires EvaluateFormula(line, qty, ctx).Ok? ==> EvaluateFormula(line, qty, ctx).value.price.value < 0.0
    ensures BaseStage(line, qty, ctx).Err? && FormulaRefusal(f, qty, ctx, BaseStage(line, qty, ctx).code)
  {
    EvaluationUnfolds(line, qty, ctx);
    BindingExactly(f, qty, ctx);
    hide ParseDecimal, EvaluateFormula, FormulaTexts, VariablesFrom, BindConstants, BindIndexes, BaseEnv, ConstantsRead, IndexesRead;
    var constants := BindConstants(BaseEnv(f, qty), f.variables);
    if ConstantsRead(f.variables) {
      ConstantsClash(BaseEnv(f, qty), f.variables);
      if constants.Ok? && IndexesRead(f.indexVariables, ctx) {
        IndexesClash(constants.value, f.indexVariables, ctx);
      }
    }
    if FormulaTexts(f, ctx) {
      BoundVariables(f, qty, ctx);
      var bound := BindIndexes(constants.value, f.indexVariables, ctx).value.0;
      forall variables | VariablesFrom(variables, f, qty, ctx)
        ensures variables == bound
      {
        VariablesAreDecided(variables, bound, f, qty, ctx);
      }
    }
  }

  lemma GridRefused(rule: PricingRule, line: Line)
    requires rule.Grid? && GridUnitPrice(rule.entries, line.code).Err?
    ensures GridUnitPrice(rule.entries, line.code).code
         == if forall e :: e in rule.entries ==> e.articleCode != line.code then RULE_NOT_FOUND else INVALID_DECIMAL
  {
    hide ParseDecimal;
    GridPriceFound(rule.entries, line.code);
    if GridUnitPrice(rule.entries, line.code) != Err(RULE_NOT_FOUND) {
      var i := FirstOfArticle(rule.entries, line.code);
      OnlyInvalidDecimal(rule.entries[i].unitPrice, 6, false);
    }
  }

  lemma BaseRefused(line: Line, qty: real, ctx: Ctx)
    requires !BaseReads(line, qty, ctx)
    ensures BaseStage(line, qty, ctx).Err? && BaseRefusal(line, qty, ctx, BaseStage(line, qty, ctx).code)
  {
    BaseExactly(line, qty, ctx);
    match line.mode
    case MANUAL =>
      hide TieredStage, TieredReads, TableRefusal;
      if line.kind == TIERED {
        if line.tiers.Some? {
          TieredRefused(line.tiers.value, qty);
        }
      } else if line.unitPrice.Some? {
        OnlyInvalidDecimal(line.unitPrice.value, 6, false);
      }
    case RULE =>
      RuleRefused(line, qty, ctx);
    case FORMULA =>
      if line.kind != TIERED && line.formula.Some? {
        FormulaRefused(line, qty, ctx);
      } else {
        hide FormulaReads;
      }
  }

  lemma RuleRefused(line: Line, qty: real, ctx: Ctx)
    requires line.mode == RULE && !BaseReads(line, qty, ctx) && BaseStage(line, qty, ctx).Err?
    ensures BaseRefusal(line, qty, ctx, BaseStage(line, qty, ctx).code)
  {
    hide ParseDecimal, TieredStage, TieredReads, TableRefusal, FindRule, GridUnitPrice, Named, GridSays;
    if line.rule.Some? {
      NamedIsFound(ctx, line.rule.value.priceRuleId);
      var found := FindRule(ctx.catalog, line.rule.value.priceRuleId);
      if found.Ok? {
        if found.value.Grid? && line.kind != TIERED {
          GridRefused(found.value, line);
        } else if found.value.TiersRule? && line.kind == TIERED {
          TieredRefused(found.value.table, qty);
        }
      }
    }
  }

  // -------------------------------------------------- revision, adjustments, overrides

  /** Why a revision is refused, the first reason that holds. */
  predicate RevisionRefusal(spec: RevisionSpec, ctx: Ctx, code: ErrorCode) {
    var rule := if spec.lookup.Some? then spec.lookup.value else ctx.settings.indexLookup;
    var a, b := ParseDecimal(spec.a, 6, false), ParseDecimal(spec.b, 6, false);
    var S0, S1 := Lookup(ctx.indexes, spec.indexCode, spec.referenceDate, rule), Lookup(ctx.indexes, spec.indexCode, spec.revisionDate, rule);
    code == if !ValidDay(spec.referenceDate) || !ValidDay(spec.revisionDate) then INVALID_DATE
            else if spec.referenceDate > spec.revisionDate then INVALID_LINE
            else if a.Err? || b.Err? then INVALID_DECIMAL
            else if a.value + b.value != 1.0 then INVALID_REVISION_COEFFICIENTS
            else if S0.Err? then S0.code
            else if S1.Err? then S1.code
            else DIVISION_BY_ZERO
  }

  lemma RevisionRefused(line: Line, price: Working, ctx: Ctx)
    requires !RevisionReadable(line, ctx)
    ensures line.revision.Some? && RevisionStage(line, price, ctx).Err?
    ensures RevisionRefusal(line.revision.value, ctx, RevisionStage(line, price, ctx).code)
  {
    RevisionStageExactly(line, price, ctx);
    hide RevisionReadable;
    StageRefused(line, price, ctx);
  }

  lemma StageRefused(line: Line, price: Working, ctx: Ctx)
    requires RevisionStage(line, price, ctx).Err?
    ensures line.revision.Some? && RevisionRefusal(line.revision.value, ctx, RevisionStage(line, price, ctx).code)
  {
    var spec := line.revision.value;
    if ValidDay(spec.referenceDate) && ValidDay(spec.revisionDate) && spec.referenceDate <= spec.revisionDate {
      ComputationRefused(price.value, spec, ctx.indexes, ctx.settings.indexLookup);
    }
    hide ParseDecimal, Lookup, ValidDay, ComputeRevision;
  }

  lemma ComputationRefused(P0: real, spec: RevisionSpec, indexes: seq<PriceIndex>, defaultLookup: LookupRule)
    requires ComputeRevision(P0, spec, indexes, defaultLookup).Err?
    ensures var rule := if spec.lookup.Some? then spec.lookup.value else defaultLookup;
            var a, b := ParseDecimal(spec.a, 6, false), ParseDecimal(spec.b, 6, false);
            var S0, S1 := Lookup(indexes, spec.indexCode, spec.referenceDate, rule), Lookup(indexes, spec.indexCode, spec.revisionDate, rule);
            ComputeRevision(P0, spec, indexes, defaultLookup).code
            == if a.Err? || b.Err? then INVALID_DECIMAL
               else if a.value + b.value != 1.0 then INVALID_REVISION_COEFFICIENTS
               else if S0.Err? then S0.code
               else if S1.Err? then S1.code
               else DIVISION_BY_ZERO
  {
    OnlyInvalidDecimal(spec.a, 6, false);
    OnlyInvalidDecimal(spec.b, 6, false);
    hide ParseDecimal, Lookup;
  }

  /** Why an adjustment rule is refused. */
  ghost predicate AdjustmentRefusal(id: string, ctx: Ctx, code: ErrorCode) {
    if forall rule :: !Named(ctx, id, rule) then code == RULE_NOT_FOUND
    else forall rule :: Named(ctx, id, rule) ==>
           if !IsAdjustment(rule) then code == INVALID_LINE
           else if rule.CommitmentDiscount? && (ctx.commitmentMonths.None? || ctx.commitmentMonths.value < 0) then code == MISSING_CONTEXT
           else code in {INVALID_DECIMAL, INVALID_LINE}
  }

  lemma StepRefused(rule: PricingRule, i: nat)
    requires IsAdjustment(rule) && i < Thresholds(rule) && ReadStep(rule, i).Err?
    ensures ReadStep(rule, i).code in {INVALID_DECIMAL, INVALID_LINE}
  {
  }

  lemma {:induction false} StepsRefused(rule: PricingRule, n: nat)
    requires IsAdjustment(rule) && n <= Thresholds(rule) && ReadSteps(rule, n).Err?
    ensures ReadSteps(rule, n).code in {INVALID_DECIMAL, INVALID_LINE}
  {
    hide ReadStep;
    if n > 0 {
      if ReadSteps(rule, n - 1).Err? {
        StepsRefused(rule, n - 1);
      } else {
        StepRefused(rule, n - 1);
      }
    }
  }

  lemma AdjustmentRefused(id: string, qty: real, ctx: Ctx)
    requires AdjustmentById(id, qty, ctx).Err?
    ensures AdjustmentRefusal(id, ctx, AdjustmentById(id, qty, ctx).code)
  {
    hide FindRule, ReadSteps, Named;
    NamedIsFound(ctx, id);
    if FindRule(ctx.catalog, id).Ok? {
      var rule := FindRule(ctx.catalog, id).value;
      if IsAdjustment(rule) && ReadSteps(rule, Thresholds(rule)).Err? {
        StepsRefused(rule, Thresholds(rule));
      }
    }
  }

  /** The first adjustment rule of the line that does not adjust. */
  ghost predicate FirstRefused(ids: seq<string>, ctx: Ctx, i: int) {
    0 <= i < |ids| && AdjustmentsRead(ids[..i], ctx) && !AdjustmentsRead(ids[..i + 1], ctx)
  }

  lemma AdjustmentsRefused(ids: seq<string>, price: Working, qty: real, ctx: Ctx, i: int)
    requires FirstRefused(ids, ctx, i)
    ensures AdjustmentStage(ids, price, qty, ctx).Err? && AdjustmentRefusal(ids[i], ctx, AdjustmentStage(ids, price, qty, ctx).code)
  {
    hide AdjustmentsRead, AdjustmentById, AdjustmentRefusal;
    AdjustmentsExactly(ids[..i], price, qty, ctx);
    AdjustmentsExactly(ids[..i + 1], price, qty, ctx);
    assert ids[..i + 1][..i] == ids[..i];
    AdjustmentRefused(ids[i], qty, ctx);
    AdjustmentStagePrefix(ids, i + 1, price, qty, ctx);
  }

  /**
   * Once its rate, shape and quantity are read, a line is refused for its base price, else for its revision,
   * else for the first adjustment that fails, else for its overrides, with the code of that stage.
   */
  lemma LineRefusal(line: Line, ctx: Ctx, quantity: TraceStep)
    requires HeadReads(line) && QuantityFrom(quantity, line, ctx)
    ensures var r, qty := RegularLine(line, ctx), quantity.quantity;
            && (!BaseReads(line, qty, ctx) ==> r.Err? && BaseRefusal(line, qty, ctx, r.code))
            && (BaseReads(line, qty, ctx) && !RevisionReadable(line, ctx) ==> r.Err? && RevisionRefusal(line.revision.value, ctx, r.code))
            && (BaseReads(line, qty, ctx) && RevisionReadable(line, ctx) && line.mode == RULE && line.rule.Some? ==>
                  forall i :: FirstRefused(line.rule.value.adjustmentRuleIds, ctx, i) ==>
                    r.Err? && AdjustmentRefusal(line.rule.value.adjustmentRuleIds[i], ctx, r.code))
            && (WorkReads(line, qty, ctx) && !OverridesRead(ctx.OverridesOf(line.id), Case(ctx.date, UnitWorkedOut(line, qty, ctx), ctx.settings.threshold)) ==>
                  r == Err(if exists o :: o in ctx.OverridesOf(line.id) && o.validFrom <= ctx.date <= o.validTo && ParseDecimal(o.unitPrice, 6, false).Err?
                           then INVALID_DECIMAL else AMBIGUOUS_OVERRIDE))
  {
    var qty := quantity.quantity;
    HeadExactly(line);
    QuantityIsFrom(line, ctx);
    QuantityIsQuantity(line, ctx);
    BaseExactly(line, qty, ctx);
    WorkExactly(line, qty, ctx);
    hide *;
    StagesDecide(line, ctx, quantity);
    if !BaseReads(line, qty, ctx) {
      BaseRefused(line, qty, ctx);
    } else {
      var base := BaseStage(line, qty, ctx).value;
      RevisionStageExactly(line, base.price, ctx);
      if !RevisionReadable(line, ctx) {
        RevisionRefused(line, base.price, ctx);
      } else {
        var revised := RevisionStage(line, base.price, ctx).value;
        IdsOf(line);
        forall i | line.mode == RULE && line.rule.Some? && FirstRefused(line.rule.value.adjustmentRuleIds, ctx, i)
          ensures RegularLine(line, ctx).Err? && AdjustmentRefusal(line.rule.value.adjustmentRuleIds[i], ctx, RegularLine(line, ctx).code)
        {
          AdjustmentsRefused(AdjustmentIds(line), revised.price, qty, ctx, i);
        }
      }
    }
    var c := Case(ctx.date, UnitWorkedOut(line, qty, ctx), ctx.settings.threshold);
    if !OverridesRead(ctx.OverridesOf(line.id), c) {
      OverridesRefused(ctx.OverridesOf(line.id), c);
    }
  }

  lemma IdsOf(line: Line)
    ensures line.mode == RULE && line.rule.Some? ==> AdjustmentIds(line) == line.rule.value.adjustmentRuleIds
  {
  }

  lemma OverridesRefused(overrides: seq<PriceOverride>, c: Case)
    requires !OverridesRead(overrides, c)
    ensures Select(overrides, c) == Err(if exists o :: o in overrides && o.validFrom <= c.date <= o.validTo && ParseDecimal(o.unitPrice, 6, false).Err?
                                        then INVALID_DECIMAL else AMBIGUOUS_OVERRIDE)
  {
    hide ParseDecimal, Tie, Select, MayApply;
    SelectionExactly(overrides, c);
    SelectErrors(overrides, c);
    AppliesExactlyWhen(overrides, c);
  }

  lemma StagesDecide(line: Line, ctx: Ctx, quantity: TraceStep)
    requires ParseVat(line).Ok? && ResolveRecurrence(line).Ok? && CheckShape(line).Ok?
    requires ResolveQuantity(line, ctx) == Ok(quantity) && quantity.Quantity?
    ensures var r, qty := RegularLine(line, ctx), quantity.quantity;
            var base := BaseStage(line, qty, ctx);
            && (base.Err? ==> r == Err(base.code))
            && (base.Ok? ==>
                  var revised := RevisionStage(line, base.value.price, ctx);
                  && (revised.Err? ==> r == Err(revised.code))
                  && (revised.Ok? ==>
                        var adjusted := AdjustmentStage(AdjustmentIds(line), revised.value.price, qty, ctx);
                        && (adjusted.Err? ==> r == Err(adjusted.code))
                        && (adjusted.Ok? ==>
                              && WorkOut(line, qty, ctx).Ok?
                              && var s := Select(ctx.OverridesOf(line.id), Case(ctx.date, UnitWorkedOut(line, qty, ctx), ctx.settings.threshold));
                                 s.Err? ==> r == Err(s.code))))
  {
    hide ParseVat, ResolveRecurrence, CheckShape, ResolveQuantity, BaseStage, RevisionStage, AdjustmentStage, Select, ComputedUnit;
  }
}

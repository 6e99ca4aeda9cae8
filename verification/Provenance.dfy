/**
 * Where the figures of a trace come from (packages/pricing/src/price-at.ts, rules.ts, indexes.ts): every step
 * shows texts of the line, of the catalogue, of the indexes or of the overrides, and says which.
 */
module Provenance {
  import opened Outcomes
  import opened Sums
  import opened Money
  import opened DecimalText
  import opened Calendar
  import opened Tiers
  import opened Indexes
  import opened Rules
  import opened Overrides
  import opened FourEyes
  import opened PricingTypes
  import opened LinePricing

  // ------------------------------------------------------------------- quantity

  /** The quantity is the one given, one when none is, or the one provided for the line. */
  predicate QuantityFrom(step: TraceStep, line: Line, ctx: Ctx) {
    step.Quantity? &&
    if line.quantity == Some(Provider) then
      && line.id in ctx.quantities && step.source == ctx.quantities[line.id].source && step.observedAt == ctx.quantities[line.id].observedAt
      && ParseDecimal(ctx.quantities[line.id].quantity, 6, false) == Ok(step.quantity)
    else
      && step.source == "FIXED" && step.observedAt.None?
      && if line.quantity.None? then step.quantity == 1.0 else ParseDecimal(line.quantity.value.value, 6, false) == Ok(step.quantity)
  }

  lemma OneParses()
    ensures ParseDecimal("1", 6, false) == Ok(1.0)
  {
    assert NatText(1) == "1";
    assert Pow10(MAX_INTEGER_DIGITS) >= 10 by {
      Pow10Grows(1, MAX_INTEGER_DIGITS);
    }
    hide ParseDecimal, NatText, Pow10;
    NatTextParses(1, 6, false);
  }

  lemma QuantityExactly(step: TraceStep, line: Line, ctx: Ctx)
    ensures ResolveQuantity(line, ctx) == Ok(step) <==> QuantityFrom(step, line, ctx)
  {
    OneParses();
    hide ParseDecimal;
    if line.quantity == Some(Provider) {
      if step.Quantity? {
        assert step == Quantity(step.source, step.quantity, step.observedAt);
      }
    } else if step.Quantity? {
      assert step == Quantity(step.source, step.quantity, step.observedAt);
    }
  }

  lemma QuantityMissing(line: Line, ctx: Ctx)
    ensures ResolveQuantity(line, ctx) == Err(MISSING_QUANTITY) <==> line.quantity == Some(Provider) && line.id !in ctx.quantities
  {
    assert forall text :: ParseDecimal(text, 6, false) != Err(MISSING_QUANTITY) by {
      forall text
        ensures ParseDecimal(text, 6, false) != Err(MISSING_QUANTITY)
      {
        hide Split, WellFormed, Value;
      }
    }
    hide ParseDecimal;
  }

  lemma QuantityIsFrom(line: Line, ctx: Ctx)
    ensures ResolveQuantity(line, ctx).Ok? ==> QuantityFrom(ResolveQuantity(line, ctx).value, line, ctx)
    ensures forall step :: QuantityFrom(step, line, ctx) ==> ResolveQuantity(line, ctx) == Ok(step)
    ensures ResolveQuantity(line, ctx) == Err(MISSING_QUANTITY) <==> line.quantity == Some(Provider) && line.id !in ctx.quantities
  {
    hide ResolveQuantity, QuantityFrom;
    QuantityMissing(line, ctx);
    forall step
      ensures ResolveQuantity(line, ctx) == Ok(step) <==> QuantityFrom(step, line, ctx)
    {
      QuantityExactly(step, line, ctx);
    }
  }

  // ------------------------------------------------------------------ base price

  /** The rule named is the first of its id in the catalogue. */
  ghost predicate Named(ctx: Ctx, id: string, rule: PricingRule) {
    exists i :: FirstRule(ctx.catalog, id, i) && ctx.catalog[i] == rule
  }

  lemma NamedIsFound(ctx: Ctx, id: string)
    ensures forall rule :: FindRule(ctx.catalog, id) == Ok(rule) <==> Named(ctx, id, rule)
    ensures FindRule(ctx.catalog, id).Err? ==> FindRule(ctx.catalog, id).code == RULE_NOT_FOUND
  {
    RuleFound(ctx.catalog, id);
    NotFoundOnly(ctx.catalog, id);
    if FindRule(ctx.catalog, id).Ok? {
      var i := FirstOfId(ctx.catalog, id);
    }
  }

  lemma {:induction false} NotFoundOnly(catalog: seq<PricingRule>, id: string)
    ensures FindRule(catalog, id).Err? ==> FindRule(catalog, id).code == RULE_NOT_FOUND
  {
    if catalog != [] {
      NotFoundOnly(catalog[1..], id);
    }
  }

  lemma {:induction false} FirstOfId(catalog: seq<PricingRule>, id: string) returns (i: nat)
    requires FindRule(catalog, id).Ok?
    ensures FirstRule(catalog, id, i)
  {
    if catalog[0].id == id {
      i := 0;
    } else {
      i := FirstOfId(catalog[1..], id);
      i := i + 1;
    }
  }

  /** The grid says this price for the article: its first entry does. */
  ghost predicate GridSays(entries: seq<GridEntry>, articleCode: string, price: real) {
    exists i :: FirstEntry(entries, articleCode, i) && ParseDecimal(entries[i].unitPrice, 6, false) == Ok(price)
  }

  lemma GridIsSaid(entries: seq<GridEntry>, articleCode: string)
    ensures forall price :: GridUnitPrice(entries, articleCode) == Ok(price) <==> GridSays(entries, articleCode, price)
  {
    hide ParseDecimal;
    GridPriceFound(entries, articleCode);
    if GridUnitPrice(entries, articleCode).Ok? {
      var i := FirstOfArticle(entries, articleCode);
    }
  }

  lemma {:induction false} FirstOfArticle(entries: seq<GridEntry>, articleCode: string) returns (i: nat)
    requires GridUnitPrice(entries, articleCode) != Err(RULE_NOT_FOUND)
    ensures FirstEntry(entries, articleCode, i)
  {
    if entries[0].articleCode == articleCode {
      i := 0;
    } else {
      i := FirstOfArticle(entries[1..], articleCode);
      i := i + 1;
    }
  }

  /** What a formula receives: the quantity, its base price, its constants and its indexes, each name once. */
  ghost predicate VariablesFrom(variables: map<string, real>, f: FormulaSpec, qty: real, ctx: Ctx) {
    && "qty" in variables && variables["qty"] == qty
    && (f.basePrice.Some? ==> "P0" in variables && ParseDecimal(f.basePrice.value, 6, false) == Ok(variables["P0"]))
    && ConstantsIn(variables, f.variables) && IndexesIn(variables, f.indexVariables, ctx)
    && variables.Keys == {"qty"} + (if f.basePrice.Some? then {"P0"} else {}) + ConstantNames(f.variables) + IndexNames(f.indexVariables)
    && |variables| == 1 + (if f.basePrice.Some? then 1 else 0) + |f.variables| + |f.indexVariables|
  }

  ghost predicate ConstantsIn(variables: map<string, real>, constants: seq<(string, string)>) {
    forall c :: c in constants ==> c.0 in variables && ParseDecimal(c.1, 10, true) == Ok(variables[c.0])
  }

  function ConstantNames(constants: seq<(string, string)>): set<string> { set c | c in constants :: c.0 }

  /** An index variable holds the value read at its own date, or at that of the pricing, under its own rule. */
  ghost predicate IndexesIn(variables: map<string, real>, indexVariables: seq<IndexVariable>, ctx: Ctx) {
    forall b :: b in indexVariables ==>
      b.name in variables && exists o :: ReadAs(b, o, ctx) && o.value == variables[b.name]
  }

  function IndexNames(indexVariables: seq<IndexVariable>): set<string> { set b | b in indexVariables :: b.name }

  predicate ReadAs(b: IndexVariable, o: IndexObservation, ctx: Ctx) {
    Lookup(ctx.indexes, b.indexCode, if b.date.Some? then b.date.value else ctx.date,
           if b.lookup.Some? then b.lookup.value else ctx.settings.indexLookup) == Ok(o)
  }

  /** `bound` adds so many new names to `env`. */
  ghost predicate Adds(env: map<string, real>, bound: map<string, real>, names: set<string>, count: nat) {
    && (forall k :: k in env ==> k in bound && bound[k] == env[k])
    && bound.Keys == env.Keys + names && |bound| == |env| + count
  }

  lemma AddsNothing(env: map<string, real>)
    ensures Adds(env, env, {}, 0)
  {
  }

  lemma OneKeyMore(env: map<string, real>, k: string, v: real)
    requires k !in env
    ensures |env[k := v]| == |env| + 1 && env[k := v].Keys == env.Keys + {k}
  {
    var extended := env[k := v];
    assert extended.Keys == env.Keys + {k};
    assert |extended| == |extended.Keys| && |env| == |env.Keys|;
  }

  lemma AddsOneMore(env: map<string, real>, k: string, v: real, bound: map<string, real>, names: set<string>, count: nat)
    requires k !in env && Adds(env[k := v], bound, names, count)
    ensures Adds(env, bound, {k} + names, count + 1) && k in bound && bound[k] == v
  {
    OneKeyMore(env, k, v);
    var extended := env[k := v];
    assert k in extended && extended[k] == v;
    assert forall j :: j in env ==> j in extended && extended[j] == env[j];
    assert env.Keys + {k} + names == env.Keys + ({k} + names);
  }

  lemma ConstantsSplit(variables: map<string, real>, constants: seq<(string, string)>)
    requires constants != []
    ensures ConstantsIn(variables, constants)
            <==> constants[0].0 in variables && ParseDecimal(constants[0].1, 10, true) == Ok(variables[constants[0].0])
                 && ConstantsIn(variables, constants[1..])
    ensures ConstantNames(constants) == {constants[0].0} + ConstantNames(constants[1..])
  {
    hide ParseDecimal;
    assert constants == [constants[0]] + constants[1..];
  }

  lemma {:induction false} ConstantsBound(env: map<string, real>, constants: seq<(string, string)>)
    requires BindConstants(env, constants).Ok?
    ensures var bound := BindConstants(env, constants).value;
            ConstantsIn(bound, constants) && Adds(env, bound, ConstantNames(constants), |constants|)
    decreases |constants|
  {
    hide ParseDecimal, IsIdentifier, Adds, ConstantsIn, ConstantNames;
    if constants == [] {
      AddsNothing(env);
      NoConstants(env);
    } else {
      var v := ParseDecimal(constants[0].1, 10, true).value;
      ConstantsBound(Define(env, constants[0].0, v).value, constants[1..]);
      var bound := BindConstants(env, constants).value;
      AddsOneMore(env, constants[0].0, v, bound, ConstantNames(constants[1..]), |constants| - 1);
      ConstantsSplit(bound, constants);
    }
  }

  lemma NoConstants(env: map<string, real>)
    ensures ConstantsIn(env, []) && ConstantNames([]) == {}
  {
  }

  lemma IndexesSplit(variables: map<string, real>, indexVariables: seq<IndexVariable>, ctx: Ctx)
    requires indexVariables != []
    ensures IndexesIn(variables, indexVariables, ctx)
            <==> indexVariables[0].name in variables && (exists o :: ReadAs(indexVariables[0], o, ctx) && o.value == variables[indexVariables[0].name])
                 && IndexesIn(variables, indexVariables[1..], ctx)
    ensures IndexNames(indexVariables) == {indexVariables[0].name} + IndexNames(indexVariables[1..])
  {
    hide ReadAs;
    assert indexVariables == [indexVariables[0]] + indexVariables[1..];
  }

  lemma NoIndexes(env: map<string, real>, ctx: Ctx)
    ensures IndexesIn(env, [], ctx) && IndexNames([]) == {}
  {
  }

  /** One reading per index variable, in their order. */
  ghost predicate Readings(steps: seq<TraceStep>, indexVariables: seq<IndexVariable>, ctx: Ctx) {
    && |steps| == |indexVariables|
    && forall i :: 0 <= i < |steps| ==>
         steps[i].IndexRead? && steps[i].variable == indexVariables[i].name && ReadAs(indexVariables[i], steps[i].observation, ctx)
  }

  lemma OneMoreReading(b: IndexVariable, o: IndexObservation, steps: seq<TraceStep>, rest: seq<IndexVariable>, ctx: Ctx)
    requires ReadAs(b, o, ctx) && Readings(steps, rest, ctx)
    ensures Readings([IndexRead(b.name, o)] + steps, [b] + rest, ctx)
  {
    hide ReadAs;
  }

  lemma {:induction false} IndexesBound(env: map<string, real>, indexVariables: seq<IndexVariable>, ctx: Ctx)
    requires BindIndexes(env, indexVariables, ctx).Ok?
    ensures var (bound, steps) := BindIndexes(env, indexVariables, ctx).value;
            && IndexesIn(bound, indexVariables, ctx) && Adds(env, bound, IndexNames(indexVariables), |indexVariables|)
            && Readings(steps, indexVariables, ctx)
    decreases |indexVariables|
  {
    hide Lookup, IsIdentifier, Adds, IndexesIn, IndexNames, Readings;
    if indexVariables == [] {
      AddsNothing(env);
      NoIndexes(env, ctx);
      assert Readings([], [], ctx) by { NoReadings(ctx); }
    } else {
      var b := indexVariables[0];
      var o := Lookup(ctx.indexes, b.indexCode, b.date.GetOr(ctx.date), b.lookup.GetOr(ctx.settings.indexLookup)).value;
      assert ReadAs(b, o, ctx);
      var extended := Define(env, b.name, o.value).value;
      IndexesBound(extended, indexVariables[1..], ctx);
      var (bound, steps) := BindIndexes(env, indexVariables, ctx).value;
      AddsOneMore(env, b.name, o.value, bound, IndexNames(indexVariables[1..]), |indexVariables| - 1);
      IndexesSplit(bound, indexVariables, ctx);
      OneMoreReading(b, o, BindIndexes(extended, indexVariables[1..], ctx).value.1, indexVariables[1..], ctx);
      assert indexVariables == [b] + indexVariables[1..];
    }
  }

  lemma NoReadings(ctx: Ctx)
    ensures Readings([], [], ctx)
  {
  }

  // ---------------------------------------------------------------- one step's origin

  /** The first step that sets a price, or reads an index for it. */
  ghost predicate BaseFrom(step: TraceStep, line: Line, qty: real, ctx: Ctx) {
    match step
    case BasePrice(p) =>
      line.mode == MANUAL && line.kind != TIERED && line.unitPrice.Some? && ParseDecimal(line.unitPrice.value, 6, false) == Ok(p)
    case RulePrice(id, article, p) =>
      && line.mode == RULE && line.kind != TIERED && line.rule.Some? && article == line.code
      && exists rule :: Named(ctx, line.rule.value.priceRuleId, rule) && rule.Grid? && id == rule.id && GridSays(rule.entries, line.code, p)
    case TieredPrice(tierRule, mode, bands, amount) =>
      && line.kind == TIERED
      && ((line.mode == MANUAL && line.tiers.Some? && tierRule.None? && TieredFrom(line.tiers.value, qty, mode, bands, amount))
          || (line.mode == RULE && line.rule.Some?
              && exists rule :: Named(ctx, line.rule.value.priceRuleId, rule) && rule.TiersRule? && tierRule == Some(rule.id)
                   && TieredFrom(rule.table, qty, mode, bands, amount)))
    case IndexRead(variable, o) =>
      && line.mode == FORMULA && line.kind != TIERED && line.formula.Some?
      && exists b :: b in line.formula.value.indexVariables && b.name == variable && ReadAs(b, o, ctx)
    case Formula(expression, variables, result) =>
      && line.mode == FORMULA && line.kind != TIERED && line.formula.Some? && expression == line.formula.value.expression && result >= 0.0
      && VariablesFrom(variables, line.formula.value, qty, ctx) && ctx.evaluate(expression, variables, ctx.settings.rounding) == Ok(result)
    case _ => false
  }

  /** The bands of a table: each charges the price of a tier between its bounds, as the texts of the table give them. */
  ghost predicate TieredFrom(table: TierTable, qty: real, mode: TierMode, bands: seq<TierBand>, amount: real) {
    && mode == table.mode && TieredOf(table, qty) == Ok(TierComputation(mode, amount, bands))
    && forall band :: band in bands ==> exists i :: 0 <= i < |table.tiers| && BandOf(band, table.tiers, i)
  }

  ghost predicate BandOf(band: TierBand, tiers: seq<Tier>, i: int)
    requires 0 <= i < |tiers|
  {
    && ParseDecimal(tiers[i].unitPrice, 6, false) == Ok(band.unitPrice)
    && (tiers[i].upTo.None? ==> band.to.None?)
    && (tiers[i].upTo.Some? ==> band.to.Some? && ParseDecimal(tiers[i].upTo.value, 6, false) == Ok(band.to.value))
    && (i == 0 ==> band.from == 0.0)
    && (i > 0 ==> tiers[i - 1].upTo.Some? && ParseDecimal(tiers[i - 1].upTo.value, 6, false) == Ok(band.from))
  }

  /** The i-th band of the parsed table, starting where the one before ends. */
  ghost predicate BandAt(band: TierBand, ts: seq<ParsedTier>, i: int)
    requires 0 <= i < |ts|
  {
    && band.unitPrice == ts[i].unitPrice && band.to == ts[i].upTo
    && if i == 0 then band.from == 0.0 else ts[i - 1].upTo == Some(band.from)
  }

  ghost predicate BandIn(band: TierBand, ts: seq<ParsedTier>) {
    exists i :: 0 <= i < |ts| && BandAt(band, ts, i)
  }

  lemma {:induction false} GraduatedBandsIn(ts: seq<ParsedTier>, k: nat, from: real, q: real)
    requires k <= |ts| && if k == 0 then from == 0.0 else ts[k - 1].upTo == Some(from)
    ensures forall band :: band in GraduatedBands(ts[k..], from, q) ==> BandIn(band, ts)
    decreases |ts| - k
  {
    hide Cost, Top;
    if k < |ts| && q > from {
      assert ts[k..][0] == ts[k] && ts[k..][1..] == ts[k + 1..];
      var band := Band(ts[k], from, Top(ts[k], q) - from);
      assert BandAt(band, ts, k);
      if ts[k].upTo.Some? {
        GraduatedBandsIn(ts, k + 1, ts[k].upTo.value, q);
      }
    }
  }

  lemma {:induction false} VolumeBandIn(ts: seq<ParsedTier>, k: nat, from: real, q: real)
    requires k < |ts| && Reaches(ts[k..], q) && if k == 0 then from == 0.0 else ts[k - 1].upTo == Some(from)
    ensures BandIn(VolumeBand(ts[k..], from, q), ts)
    decreases |ts| - k
  {
    hide Cost;
    assert ts[k..][0] == ts[k] && ts[k..][1..] == ts[k + 1..];
    if ts[k].upTo.None? || q <= ts[k].upTo.value || k == |ts| - 1 {
      assert BandAt(Band(ts[k], from, q), ts, k);
    } else {
      VolumeBandIn(ts, k + 1, ts[k].upTo.value, q);
    }
  }

  lemma TieredIsFrom(table: TierTable, qty: real)
    requires TieredOf(table, qty).Ok?
    ensures var t := TieredOf(table, qty).value; TieredFrom(table, qty, t.mode, t.bands, t.exact)
  {
    hide ParseDecimal, GraduatedBands, VolumeBand, SumAmounts;
    var ts, t := ParseTierTable(table).value, TieredOf(table, qty).value;
    TableAccepted(table.tiers, 0.0, ts);
    assert ts[0..] == ts;
    if table.mode == GRADUATED {
      GraduatedBandsIn(ts, 0, 0.0, qty);
    } else {
      VolumeBandIn(ts, 0, 0.0, qty);
    }
    forall band | band in t.bands
      ensures exists i :: 0 <= i < |table.tiers| && BandOf(band, table.tiers, i)
    {
      assert BandIn(band, ts);
      var i :| 0 <= i < |ts| && BandAt(band, ts, i);
      assert TierSays(table.tiers[i], ts[i]);
      assert i > 0 ==> TierSays(table.tiers[i - 1], ts[i - 1]);
      assert BandOf(band, table.tiers, i);
    }
  }

  lemma TieredStepFrom(line: Line, table: TierTable, ruleId: Option<string>, qty: real, ctx: Ctx)
    requires TieredStage(table, ruleId, qty).Ok? && line.kind == TIERED
    requires (line.mode == MANUAL && line.tiers == Some(table) && ruleId.None?)
             || (line.mode == RULE && line.rule.Some? && ruleId.Some?
                 && exists rule :: Named(ctx, line.rule.value.priceRuleId, rule) && rule.TiersRule? && ruleId == Some(rule.id) && rule.table == table)
    ensures var steps := TieredStage(table, ruleId, qty).value.steps; |steps| == 1 && steps[0].TieredPrice? && BaseFrom(steps[0], line, qty, ctx)
  {
    hide TieredOf, Named, TieredFrom;
    TieredIsFrom(table, qty);
  }

  /** The steps of the base price, the last of which sets it. */
  ghost predicate BaseSteps(steps: seq<TraceStep>, line: Line, qty: real, ctx: Ctx) {
    && steps != [] && !steps[|steps| - 1].IndexRead?
    && (forall i :: 0 <= i < |steps| ==> BaseFrom(steps[i], line, qty, ctx))
    && (line.mode == FORMULA && line.formula.Some? ==> |steps| == 1 + |line.formula.value.indexVariables|)
    && (line.mode != FORMULA ==> |steps| == 1)
  }

  /** The quantity and the base price, before constants and indexes. */
  predicate StartsWith(env: map<string, real>, f: FormulaSpec, qty: real) {
    && env.Keys == {"qty"} + (if f.basePrice.Some? then {"P0"} else {}) && "qty" in env && env["qty"] == qty
    && (f.basePrice.Some? ==> "P0" in env && ParseDecimal(f.basePrice.value, 6, false) == Ok(env["P0"]))
    && |env| == 1 + if f.basePrice.Some? then 1 else 0
  }

  lemma FirstNames(f: FormulaSpec, qty: real, p: real)
    requires f.basePrice.Some? ==> ParseDecimal(f.basePrice.value, 6, false) == Ok(p)
    ensures StartsWith(if f.basePrice.None? then map["qty" := qty] else map["qty" := qty]["P0" := p], f, qty)
  {
    hide ParseDecimal;
    var env: map<string, real> := map["qty" := qty];
    assert |env| == |env.Keys| && env.Keys == {"qty"};
    var both := env["P0" := p];
    assert |both| == |both.Keys| && both.Keys == {"qty", "P0"};
  }

  lemma NamesAddUp(env: map<string, real>, constants: map<string, real>, bound: map<string, real>, f: FormulaSpec, qty: real, ctx: Ctx)
    requires StartsWith(env, f, qty)
    requires ConstantsIn(constants, f.variables) && Adds(env, constants, ConstantNames(f.variables), |f.variables|)
    requires IndexesIn(bound, f.indexVariables, ctx) && Adds(constants, bound, IndexNames(f.indexVariables), |f.indexVariables|)
    ensures VariablesFrom(bound, f, qty, ctx)
  {
    hide ParseDecimal, ReadAs, ConstantsIn, IndexesIn, ConstantNames, IndexNames;
    assert ConstantsIn(bound, f.variables) by {
      ConstantsStay(constants, bound, f.variables);
    }
    assert "qty" in env && "qty" in constants;
    assert f.basePrice.Some? ==> "P0" in env && "P0" in constants;
  }

  lemma FormulaVariables(f: FormulaSpec, line: Line, qty: real, ctx: Ctx) returns (bound: map<string, real>, readings: seq<TraceStep>)
    requires line.formula == Some(f) && EvaluateFormula(line, qty, ctx).Ok?
    ensures VariablesFrom(bound, f, qty, ctx) && Readings(readings, f.indexVariables, ctx)
    ensures var stage := EvaluateFormula(line, qty, ctx).value;
            && stage.steps == readings + [Formula(f.expression, bound, stage.price.value)]
            && ctx.evaluate(f.expression, bound, ctx.settings.rounding) == Ok(stage.price.value)
  {
    hide ParseDecimal, IsIdentifier, BindConstants, BindIndexes, VariablesFrom, Readings, ConstantsIn, IndexesIn, ConstantNames, IndexNames, Adds, StartsWith;
    var withQuantity: map<string, real> := map["qty" := qty];
    var p := if f.basePrice.None? then 0.0 else ParseDecimal(f.basePrice.value, 6, false).value;
    var withBase := if f.basePrice.None? then withQuantity else withQuantity["P0" := p];
    FirstNames(f, qty, p);
    ConstantsBound(withBase, f.variables);
    var constants := BindConstants(withBase, f.variables).value;
    IndexesBound(constants, f.indexVariables, ctx);
    bound, readings := BindIndexes(constants, f.indexVariables, ctx).value.0, BindIndexes(constants, f.indexVariables, ctx).value.1;
    NamesAddUp(withBase, constants, bound, f, qty, ctx);
  }

  lemma FormulaFrom(line: Line, qty: real, ctx: Ctx)
    requires EvaluateFormula(line, qty, ctx).Ok? && EvaluateFormula(line, qty, ctx).value.price.value >= 0.0
    requires line.mode == FORMULA && line.kind != TIERED
    ensures BaseSteps(EvaluateFormula(line, qty, ctx).value.steps, line, qty, ctx)
  {
    var f := line.formula.value;
    var bound, readings := FormulaVariables(f, line, qty, ctx);
    var result := EvaluateFormula(line, qty, ctx).value.price.value;
    hide *;
    ReadingsFrom(line, f, readings, qty, ctx);
    FormulaStepFrom(line, f, bound, result, qty, ctx);
    ReadingsThenFormula(line, f, readings, Formula(f.expression, bound, result), qty, ctx);
  }

  lemma ReadingsFrom(line: Line, f: FormulaSpec, readings: seq<TraceStep>, qty: real, ctx: Ctx)
    requires line.mode == FORMULA && line.kind != TIERED && line.formula == Some(f) && Readings(readings, f.indexVariables, ctx)
    ensures |readings| == |f.indexVariables| && forall i :: 0 <= i < |readings| ==> BaseFrom(readings[i], line, qty, ctx)
  {
    hide ReadAs, BaseFrom;
    forall i | 0 <= i < |readings|
      ensures BaseFrom(readings[i], line, qty, ctx)
    {
      ReadingFrom(line, f, f.indexVariables[i], readings[i], qty, ctx);
    }
  }

  lemma ReadingsThenFormula(line: Line, f: FormulaSpec, readings: seq<TraceStep>, step: TraceStep, qty: real, ctx: Ctx)
    requires line.mode == FORMULA && line.formula == Some(f) && |readings| == |f.indexVariables| && step.Formula?
    requires BaseFrom(step, line, qty, ctx) && forall i :: 0 <= i < |readings| ==> BaseFrom(readings[i], line, qty, ctx)
    ensures BaseSteps(readings + [step], line, qty, ctx)
  {
    hide BaseFrom;
  }

  lemma FormulaStepFrom(line: Line, f: FormulaSpec, variables: map<string, real>, result: real, qty: real, ctx: Ctx)
    requires line.mode == FORMULA && line.kind != TIERED && line.formula == Some(f) && result >= 0.0
    requires VariablesFrom(variables, f, qty, ctx) && ctx.evaluate(f.expression, variables, ctx.settings.rounding) == Ok(result)
    ensures BaseFrom(Formula(f.expression, variables, result), line, qty, ctx)
  {
    hide VariablesFrom;
  }

  lemma ReadingFrom(line: Line, f: FormulaSpec, b: IndexVariable, step: TraceStep, qty: real, ctx: Ctx)
    requires line.mode == FORMULA && line.kind != TIERED && line.formula == Some(f) && b in f.indexVariables
    requires step.IndexRead? && step.variable == b.name && ReadAs(b, step.observation, ctx)
    ensures BaseFrom(step, line, qty, ctx)
  {
    hide ReadAs;
  }

  lemma ConstantsStay(env: map<string, real>, bound: map<string, real>, constants: seq<(string, string)>)
    requires ConstantsIn(env, constants) && forall k :: k in env ==> k in bound && bound[k] == env[k]
    ensures ConstantsIn(bound, constants)
  {
    hide ParseDecimal;
  }

  lemma BaseIsFrom(line: Line, qty: real, ctx: Ctx)
    requires BaseStage(line, qty, ctx).Ok?
    ensures BaseSteps(BaseStage(line, qty, ctx).value.steps, line, qty, ctx)
  {
    hide ParseDecimal, EvaluateFormula, TieredStage, FindRule, GridUnitPrice, Named, GridSays;
    hide BaseFrom;
    match line.mode
    case MANUAL =>
      if line.kind == TIERED {
        TieredStepFrom(line, line.tiers.value, None, qty, ctx);
      } else {
        ManualFrom(line, qty, ctx);
      }
    case RULE =>
      NamedIsFound(ctx, line.rule.value.priceRuleId);
      var rule := FindRule(ctx.catalog, line.rule.value.priceRuleId).value;
      if rule.TiersRule? {
        TieredStepFrom(line, rule.table, Some(rule.id), qty, ctx);
      } else {
        GridIsSaid(rule.entries, line.code);
        GridFrom(line, rule, GridUnitPrice(rule.entries, line.code).value, qty, ctx);
      }
    case FORMULA =>
      FormulaFrom(line, qty, ctx);
  }

  lemma ManualFrom(line: Line, qty: real, ctx: Ctx)
    requires line.mode == MANUAL && line.kind != TIERED && line.unitPrice.Some? && ParseDecimal(line.unitPrice.value, 6, false).Ok?
    ensures BaseFrom(BasePrice(ParseDecimal(line.unitPrice.value, 6, false).value), line, qty, ctx)
  {
    hide ParseDecimal;
  }

  lemma GridFrom(line: Line, rule: PricingRule, price: real, qty: real, ctx: Ctx)
    requires line.mode == RULE && line.kind != TIERED && line.rule.Some? && Named(ctx, line.rule.value.priceRuleId, rule)
    requires rule.Grid? && GridSays(rule.entries, line.code, price)
    ensures BaseFrom(RulePrice(rule.id, line.code, price), line, qty, ctx)
  {
    hide Named, GridSays;
  }

  // --------------------------------------------------------- revision, adjustments

  /** The coefficients are those of the clause, the indexes those of its two days under its rule. */
  predicate RevisionFrom(r: RevisionComputation, spec: RevisionSpec, ctx: Ctx) {
    var rule := if spec.lookup.Some? then spec.lookup.value else ctx.settings.indexLookup;
    && ParseDecimal(spec.a, 6, false) == Ok(r.a) && ParseDecimal(spec.b, 6, false) == Ok(r.b)
    && Lookup(ctx.indexes, spec.indexCode, spec.referenceDate, rule) == Ok(r.S0)
    && Lookup(ctx.indexes, spec.indexCode, spec.revisionDate, rule) == Ok(r.S1)
  }

  /** What the texts of the rule make of the quantity or of the committed months. */
  ghost predicate AdjustmentSays(adj: Adjustment, rule: PricingRule, qty: real, months: Option<int>) {
    && IsAdjustment(rule) && adj.ruleId == rule.id
    && (rule.VolumeDiscount? ==> adj.basis == qty)
    && (rule.CommitmentDiscount? ==> months.Some? && months.value >= 0 && adj.basis == months.value as real)
    && (adj.threshold.Some? ==> exists i :: IsHighest(rule, adj.basis, i, adj.threshold.value, adj.percent))
    && (adj.threshold.None? ==>
          adj.percent == 0.0 && forall i, min, percent :: 0 <= i < Thresholds(rule) && Says(rule, i, min, percent) ==> min > adj.basis)
  }

  ghost predicate AdjustmentFrom(adj: Adjustment, id: string, qty: real, ctx: Ctx) {
    exists rule :: Named(ctx, id, rule) && AdjustmentSays(adj, rule, qty, ctx.commitmentMonths)
  }

  lemma AdjustmentIsFrom(id: string, qty: real, ctx: Ctx)
    requires AdjustmentById(id, qty, ctx).Ok?
    ensures AdjustmentFrom(AdjustmentById(id, qty, ctx).value, id, qty, ctx) && AdjustmentById(id, qty, ctx).value.ruleId == id
  {
    NamedIsFound(ctx, id);
    var rule := FindRule(ctx.catalog, id).value;
    hide AdjustmentOf, IsHighest, Says;
    AdjustmentReads(rule, qty, ctx.commitmentMonths);
    assert AdjustmentSays(AdjustmentById(id, qty, ctx).value, rule, qty, ctx.commitmentMonths);
    assert rule.id == id;
  }

  /** Every step of a trace, and where it comes from. */
  ghost predicate From(step: TraceStep, line: Line, qty: real, ctx: Ctx) {
    match step
    case Quantity(_, q, _) => q == qty && QuantityFrom(step, line, ctx)
    case Revision(_, _, r) => line.revision.Some? && line.revision.value.revisionDate <= ctx.date && RevisionFrom(r, line.revision.value, ctx)
    case RevisionNotEffective(day, date) => line.revision.Some? && day == line.revision.value.revisionDate && date == ctx.date && date < day
    case Adjusted(adj, _, _) =>
      line.mode == RULE && line.rule.Some? && adj.ruleId in line.rule.value.adjustmentRuleIds && AdjustmentFrom(adj, adj.ruleId, qty, ctx)
    case Rounding(target, _, _, scale, mode) =>
      mode == ctx.settings.rounding && scale == if target == LINE_TOTAL then 2 else ctx.settings.unitPriceScale
    case OverrideApplied(computed, a) =>
      && a.source in ctx.OverridesOf(line.id) && MayApply(a.source, Case(ctx.date, computed, ctx.settings.threshold))
      && ParseDecimal(a.source.unitPrice, 6, false) == Ok(a.unitPrice)
    case OverrideSkipped(s) => exists o :: o in ctx.OverridesOf(line.id) && o.id == s.overrideId && o.validFrom <= ctx.date <= o.validTo
    case HourPack(hours, _) => line.kind == HOUR_PACK && line.hoursPerPack.Some? && ParseDecimal(line.hoursPerPack.value, 6, false) == Ok(hours)
    case LineTotal(_, _, _) => true
    case _ => BaseFrom(step, line, qty, ctx)
  }

  ghost predicate AllFrom(steps: seq<TraceStep>, line: Line, qty: real, ctx: Ctx) {
    forall step :: step in steps ==> From(step, line, qty, ctx)
  }

  /** The rules a trace adjusts by, in order. */
  function AdjustedBy(): TraceStep -> seq<string> {
    (step: TraceStep) => if step.Adjusted? then [step.adjustment.ruleId] else []
  }

  predicate IsRevision(step: TraceStep) { step.Revision? || step.RevisionNotEffective? }

  predicate SetsPrice(step: TraceStep) { step.BasePrice? || step.RulePrice? || step.TieredPrice? || step.Formula? }

  lemma NoneAdjusted(steps: seq<TraceStep>)
    requires forall step :: step in steps ==> !step.Adjusted?
    ensures FlatMap(steps, AdjustedBy()) == []
  {
    NothingMapped(steps);
  }

  lemma {:induction false} NothingMapped(steps: seq<TraceStep>)
    requires forall step :: step in steps ==> !step.Adjusted?
    ensures FlatMap(steps, AdjustedBy()) == []
  {
    if steps != [] {
      NothingMapped(steps[..|steps| - 1]);
    }
  }

  lemma BaseStepIsFrom(step: TraceStep, line: Line, qty: real, ctx: Ctx)
    requires BaseFrom(step, line, qty, ctx)
    ensures From(step, line, qty, ctx) && !step.Adjusted? && !IsRevision(step) && !step.Rounding? && !step.OverrideApplied?
    ensures !step.IndexRead? ==> SetsPrice(step)
  {
    hide GridSays, Named, TieredFrom, VariablesFrom, ReadAs, ParseDecimal;
  }

  lemma BaseStepsFrom(steps: seq<TraceStep>, line: Line, qty: real, ctx: Ctx)
    requires BaseSteps(steps, line, qty, ctx)
    ensures AllFrom(steps, line, qty, ctx) && FlatMap(steps, AdjustedBy()) == []
    ensures exists step :: step in steps && SetsPrice(step)
    ensures forall step :: step in steps ==> !IsRevision(step) && !step.Rounding? && !step.OverrideApplied?
  {
    hide BaseFrom, From, IsRevision, SetsPrice, FlatMap;
    forall step | step in steps
      ensures From(step, line, qty, ctx) && !step.Adjusted? && !IsRevision(step) && !step.Rounding? && !step.OverrideApplied?
      ensures !step.IndexRead? ==> SetsPrice(step)
    {
      var i :| 0 <= i < |steps| && steps[i] == step;
      BaseStepIsFrom(steps[i], line, qty, ctx);
    }
    NoneAdjusted(steps);
    assert steps[|steps| - 1] in steps;
  }

  lemma OneStep(step: TraceStep, line: Line, qty: real, ctx: Ctx)
    requires IsRevision(step) && From(step, line, qty, ctx)
    ensures AllFrom([step], line, qty, ctx) && FlatMap([step], AdjustedBy()) == []
    ensures (exists other :: other in [step] && IsRevision(other)) && forall other :: other in [step] ==> IsRevision(other)
  {
    hide From;
    assert step in [step];
    NoneAdjusted([step]);
  }

  lemma NoStep(line: Line, qty: real, ctx: Ctx)
    ensures AllFrom([], line, qty, ctx) && FlatMap([], AdjustedBy()) == []
  {
  }

  lemma RevisionStepsFrom(line: Line, price: Working, qty: real, ctx: Ctx)
    requires RevisionStage(line, price, ctx).Ok?
    ensures var steps := RevisionStage(line, price, ctx).value.steps;
            && AllFrom(steps, line, qty, ctx) && (line.revision.Some? <==> exists step :: step in steps && IsRevision(step))
            && FlatMap(steps, AdjustedBy()) == [] && forall step :: step in steps ==> IsRevision(step)
  {
    hide ComputeRevision, ValidDay, ParseDecimal, Lookup, AllFrom, FlatMap;
    var steps := RevisionStage(line, price, ctx).value.steps;
    if line.revision.None? {
      NoStep(line, qty, ctx);
    } else {
      if !(ctx.date < line.revision.value.revisionDate) {
        RevisionReads(price.value, line.revision.value, ctx.indexes, ctx.settings.indexLookup);
      }
      assert From(steps[0], line, qty, ctx);
      hide From;
      OneStep(steps[0], line, qty, ctx);
      assert steps == [steps[0]];
    }
  }

  lemma {:induction false} AdjustmentStepsFrom(line: Line, ids: seq<string>, price: Working, qty: real, ctx: Ctx)
    requires AdjustmentStage(ids, price, qty, ctx).Ok?
    requires ids != [] ==> line.mode == RULE && line.rule.Some? && forall id :: id in ids ==> id in line.rule.value.adjustmentRuleIds
    ensures var steps := AdjustmentStage(ids, price, qty, ctx).value.steps;
            && AllFrom(steps, line, qty, ctx) && FlatMap(steps, AdjustedBy()) == ids && forall step :: step in steps ==> step.Adjusted?
  {
    hide AdjustmentById, AfterDiscount, From, AllFrom, FlatMap;
    if ids == [] {
      NothingAdjusted(line, qty, ctx);
    } else {
      var init, id := ids[..|ids| - 1], ids[|ids| - 1];
      assert ids == init + [id];
      AdjustmentStepsFrom(line, init, price, qty, ctx);
      AdjustmentIsFrom(id, qty, ctx);
      var before := AdjustmentStage(init, price, qty, ctx).value;
      var adj := AdjustmentById(id, qty, ctx).value;
      OneMoreAdjusted(before.steps, Adjusted(adj, before.price.value, AfterDiscount(before.price.value, adj.percent)), init, line, qty, ctx);
    }
  }

  lemma NothingAdjusted(line: Line, qty: real, ctx: Ctx)
    ensures AllFrom([], line, qty, ctx) && FlatMap([], AdjustedBy()) == []
  {
  }

  lemma OneMoreAdjusted(steps: seq<TraceStep>, step: TraceStep, ids: seq<string>, line: Line, qty: real, ctx: Ctx)
    requires AllFrom(steps, line, qty, ctx) && FlatMap(steps, AdjustedBy()) == ids && step.Adjusted?
    requires line.mode == RULE && line.rule.Some? && step.adjustment.ruleId in line.rule.value.adjustmentRuleIds
    requires AdjustmentFrom(step.adjustment, step.adjustment.ruleId, qty, ctx)
    ensures AllFrom(steps + [step], line, qty, ctx) && FlatMap(steps + [step], AdjustedBy()) == ids + [step.adjustment.ruleId]
  {
    hide AdjustmentFrom;
    assert From(step, line, qty, ctx);
    hide From;
    assert (steps + [step])[..|steps|] == steps;
  }

  // ----------------------------------------------------------------- the whole line

  /** The recurrence of a line: that of its kind when it has one, else its own, else the usual one of its kind. */
  predicate RecurrenceGiven(line: Line, rec: Recurrence) {
    match line.kind
    case FLAT_MONTHLY => rec == MONTHLY && (line.recurrence.None? || line.recurrence.value == MONTHLY)
    case FLAT_YEARLY => rec == YEARLY && (line.recurrence.None? || line.recurrence.value == YEARLY)
    case SETUP_FEE => rec == ONE_OFF && (line.recurrence.None? || line.recurrence.value == ONE_OFF)
    case HOURLY => rec == if line.recurrence.Some? then line.recurrence.value else ONE_OFF
    case HOUR_PACK => rec == if line.recurrence.Some? then line.recurrence.value else ONE_OFF
    case _ => rec == if line.recurrence.Some? then line.recurrence.value else MONTHLY
  }

  lemma RecurrenceIsGiven(line: Line)
    ensures forall rec :: ResolveRecurrence(line) == Ok(rec) <==> RecurrenceGiven(line, rec)
  {
  }

  lemma SelectionFrom(line: Line, computed: real, qty: real, ctx: Ctx)
    requires Select(ctx.OverridesOf(line.id), ctx.OverrideCase(computed)).Ok?
    ensures var steps := SelectionSteps(Select(ctx.OverridesOf(line.id), ctx.OverrideCase(computed)).value, computed);
            && AllFrom(steps, line, qty, ctx)
            && (forall step :: step in steps ==> !step.Adjusted? && !IsRevision(step) && !step.Rounding? && !SetsPrice(step))
            && ((exists step :: step in steps && step.OverrideApplied?)
                <==> exists o :: o in ctx.OverridesOf(line.id) && MayApply(o, Case(ctx.date, computed, ctx.settings.threshold)))
  {
    hide MayApply, GapPercent, ParseDecimal, TooFar, Select, Tie, BaseFrom;
    var overrides, c := ctx.OverridesOf(line.id), ctx.OverrideCase(computed);
    var s := Select(overrides, c).value;
    var steps := SelectionSteps(s, computed);
    AppliesExactlyWhen(overrides, c);
    SkippedExactlyFor(overrides, c);
    forall step | step in steps
      ensures From(step, line, qty, ctx) && (step.OverrideSkipped? || step.OverrideApplied?)
      ensures step.OverrideApplied? ==> s.applied.Some?
    {
      if step in SkippedSteps(s.skipped) {
        var i :| 0 <= i < |s.skipped| && step == OverrideSkipped(s.skipped[i]);
        assert s.skipped[i] in s.skipped;
      }
    }
    if s.applied.Some? {
      assert steps[|steps| - 1].OverrideApplied? && steps[|steps| - 1] in steps;
    }
  }

  /** What is asked of a passage of a trace: its origin, its adjustments, and whether a revision is among its steps. */
  ghost predicate Passage(steps: seq<TraceStep>, line: Line, qty: real, ctx: Ctx, ids: seq<string>, revised: bool) {
    && AllFrom(steps, line, qty, ctx) && FlatMap(steps, AdjustedBy()) == ids
    && (revised <==> exists step :: step in steps && IsRevision(step))
  }

  lemma Together(xs: seq<TraceStep>, ys: seq<TraceStep>, line: Line, qty: real, ctx: Ctx, ids: seq<string>, more: seq<string>, r: bool, s: bool)
    requires Passage(xs, line, qty, ctx, ids, r) && Passage(ys, line, qty, ctx, more, s)
    ensures Passage(xs + ys, line, qty, ctx, ids + more, r || s)
  {
    hide From;
    FlatMapAppend(xs, ys, AdjustedBy());
    assert forall step :: step in xs + ys <==> step in xs || step in ys;
  }

  lemma WorkFrom(line: Line, qty: real, ctx: Ctx)
    requires WorkOut(line, qty, ctx).Ok?
    ensures var steps := WorkOut(line, qty, ctx).value.steps;
            && Passage(steps, line, qty, ctx, AdjustmentIds(line), line.revision.Some?)
            && (exists step :: step in steps && SetsPrice(step))
            && forall step :: step in steps ==> !step.Rounding? && !step.OverrideApplied?
  {
    hide BaseStage, RevisionStage, AdjustmentStage, AllFrom, FlatMap;
    var base := BaseStage(line, qty, ctx).value;
    var revised := RevisionStage(line, base.price, ctx).value;
    var adjusted := AdjustmentStage(AdjustmentIds(line), revised.price, qty, ctx).value;
    BaseIsFrom(line, qty, ctx);
    BaseStepsFrom(base.steps, line, qty, ctx);
    RevisionStepsFrom(line, base.price, qty, ctx);
    AdjustmentStepsFrom(line, AdjustmentIds(line), revised.price, qty, ctx);
    ThreePassages(base.steps, revised.steps, adjusted.steps, line, qty, ctx, AdjustmentIds(line));
  }

  lemma ThreePassages(xs: seq<TraceStep>, ys: seq<TraceStep>, zs: seq<TraceStep>, line: Line, qty: real, ctx: Ctx, ids: seq<string>)
    requires AllFrom(xs, line, qty, ctx) && AllFrom(ys, line, qty, ctx) && AllFrom(zs, line, qty, ctx)
    requires FlatMap(xs, AdjustedBy()) == [] == FlatMap(ys, AdjustedBy()) && FlatMap(zs, AdjustedBy()) == ids
    requires (exists step :: step in xs && SetsPrice(step)) && forall step :: step in xs ==> !IsRevision(step) && !step.Rounding? && !step.OverrideApplied?
    requires (line.revision.Some? <==> exists step :: step in ys && IsRevision(step)) && forall step :: step in ys ==> IsRevision(step)
    requires forall step :: step in zs ==> step.Adjusted?
    ensures var steps := xs + ys + zs;
            && Passage(steps, line, qty, ctx, ids, line.revision.Some?) && (exists step :: step in steps && SetsPrice(step))
            && forall step :: step in steps ==> !step.Rounding? && !step.OverrideApplied?
  {
    hide From, AllFrom, FlatMap, SetsPrice;
    Together(xs, ys, line, qty, ctx, [], [], false, line.revision.Some?);
    Together(xs + ys, zs, line, qty, ctx, [] + [], ids, line.revision.Some?, false);
    assert [] + ids == ids;
    StepsAmong(xs, ys, zs);
  }

  lemma StepsAmong(xs: seq<TraceStep>, ys: seq<TraceStep>, zs: seq<TraceStep>)
    ensures forall step :: step in xs + ys + zs <==> step in xs || step in ys || step in zs
  {
  }

  /** The unit price worked out, before any override. */
  predicate RoundsUnit(step: TraceStep) { step.Rounding? && step.target != LINE_TOTAL }

  lemma PlainPassage(steps: seq<TraceStep>, line: Line, qty: real, ctx: Ctx)
    requires AllFrom(steps, line, qty, ctx) && forall step :: step in steps ==> !step.Adjusted? && !IsRevision(step)
    ensures Passage(steps, line, qty, ctx, [], false)
  {
    hide AllFrom;
    NoneAdjusted(steps);
  }

  lemma EndFrom(line: Line, unitPrice: real, exact: real, qty: real, ctx: Ctx)
    ensures var s := ctx.settings;
            var steps := HourPackSteps(line, unitPrice, s) + TotalSteps(unitPrice, qty, exact, s);
            Passage(steps, line, qty, ctx, [], false) && forall step :: step in steps ==> !RoundsUnit(step) && !step.OverrideApplied?
  {
    hide ParseDecimal, ToCents, FlatMap, RoundToScale;
    var s := ctx.settings;
    var steps := HourPackSteps(line, unitPrice, s) + TotalSteps(unitPrice, qty, exact, s);
    forall step | step in steps
      ensures From(step, line, qty, ctx) && !step.Adjusted? && !IsRevision(step) && !RoundsUnit(step) && !step.OverrideApplied?
    {
    }
    PlainPassage(steps, line, qty, ctx);
  }

  lemma MiddleFrom(line: Line, price: Working, qty: real, ctx: Ctx)
    requires var computed := ComputedUnit(price, qty, ctx.settings); Select(ctx.OverridesOf(line.id), ctx.OverrideCase(computed)).Ok?
    ensures var computed := ComputedUnit(price, qty, ctx.settings);
            var selection := Select(ctx.OverridesOf(line.id), ctx.OverrideCase(computed)).value;
            var steps := [RoundingStep(price, qty, ctx.settings)] + SelectionSteps(selection, computed);
            && Passage(steps, line, qty, ctx, [], false) && RoundsUnit(steps[0]) && steps[0].rounded == computed
            && (forall step :: step in steps && RoundsUnit(step) ==> step == steps[0])
            && ((exists step :: step in steps && step.OverrideApplied?)
                <==> exists o :: o in ctx.OverridesOf(line.id) && MayApply(o, Case(ctx.date, computed, ctx.settings.threshold)))
  {
    hide ParseDecimal, Select, ComputedUnit, SelectionSteps, MayApply, ExactUnit, FlatMap;
    var computed := ComputedUnit(price, qty, ctx.settings);
    var selection := Select(ctx.OverridesOf(line.id), ctx.OverrideCase(computed)).value;
    SelectionFrom(line, computed, qty, ctx);
    var first := RoundingStep(price, qty, ctx.settings);
    assert From(first, line, qty, ctx);
    hide From;
    var steps := [first] + SelectionSteps(selection, computed);
    assert forall step :: step in steps <==> step == first || step in SelectionSteps(selection, computed);
    PlainPassage(steps, line, qty, ctx);
  }

  /**
   * Every figure of every priced line comes from where it should. Each step of its trace shows texts of the
   * line, of the rule named first in the catalogue, of the indexes at their days, or of an override that may
   * apply; the trace sets a price, revises it when the line is revised, adjusts it by the rules of the line in
   * order, and applies an override exactly when one may at the unit price worked out.
   */
  lemma TraceComesFrom(line: Line, ctx: Ctx)
    requires RegularLine(line, ctx).Ok?
    ensures var p := RegularLine(line, ctx).value;
            && p.lineId == line.id && p.code == line.code && p.kind == line.kind && p.mode == line.mode
            && ParseDecimal(line.vatRatePercent, 4, false) == Ok(p.vat) && p.vat <= 100.0 && RecurrenceGiven(line, p.recurrence)
            && p.trace != [] && QuantityFrom(p.trace[0], line, ctx) && p.trace[0].quantity == p.quantity
            && AllFrom(p.trace, line, p.quantity, ctx)
            && (exists step :: step in p.trace && SetsPrice(step))
            && (line.revision.Some? <==> exists step :: step in p.trace && IsRevision(step))
            && FlatMap(p.trace, AdjustedBy()) == (if line.mode == RULE && line.rule.Some? then line.rule.value.adjustmentRuleIds else [])
            && (exists step :: step in p.trace && RoundsUnit(step))
            && forall step :: step in p.trace && RoundsUnit(step) ==>
                 ((exists applied :: applied in p.trace && applied.OverrideApplied?)
                  <==> exists o :: o in ctx.OverridesOf(line.id) && MayApply(o, Case(ctx.date, step.rounded, ctx.settings.threshold)))
  {
    hide WorkOut, Select, MayApply, ParseDecimal, ComputedUnit, SelectionSteps, HourPackSteps, TotalSteps, CheckShape, FlatMap, Passage, RoundingStep;
    hide From, AllFrom, ExactTotal, FinalUnit, SetsPrice, IsRevision, RoundsUnit, RecurrenceGiven, QuantityFrom, ToCents, ResolveRecurrence, ResolveQuantity;
    RecurrenceIsGiven(line);
    QuantityIsFrom(line, ctx);
    QuantityIsQuantity(line, ctx);
    var quantity := ResolveQuantity(line, ctx).value;
    var qty, s := quantity.quantity, ctx.settings;
    var work := WorkOut(line, qty, ctx).value;
    var computed := ComputedUnit(work.price, qty, s);
    var selection := Select(ctx.OverridesOf(line.id), ctx.OverrideCase(computed)).value;
    var unitPrice, exact := FinalUnit(selection, computed), ExactTotal(work.price, selection, computed, qty);
    WorkFrom(line, qty, ctx);
    MiddleFrom(line, work.price, qty, ctx);
    EndFrom(line, unitPrice, exact, qty, ctx);
    HeadFrom(quantity, line, qty, ctx);
    var middle, end := [RoundingStep(work.price, qty, s)] + SelectionSteps(selection, computed), HourPackSteps(line, unitPrice, s) + TotalSteps(unitPrice, qty, exact, s);
    var p := RegularLine(line, ctx).value;
    assert p.trace == [quantity] + work.steps + middle + end;
    WholeTrace(quantity, work.steps, middle, end, line, qty, ctx, AdjustmentIds(line));
    PassageMeans(p.trace, line, qty, ctx, AdjustmentIds(line), line.revision.Some?);
  }

  lemma PassageMeans(steps: seq<TraceStep>, line: Line, qty: real, ctx: Ctx, ids: seq<string>, revised: bool)
    requires Passage(steps, line, qty, ctx, ids, revised)
    ensures AllFrom(steps, line, qty, ctx) && FlatMap(steps, AdjustedBy()) == ids
    ensures revised <==> exists step :: step in steps && IsRevision(step)
  {
    hide From, FlatMap;
  }

  lemma HeadFrom(quantity: TraceStep, line: Line, qty: real, ctx: Ctx)
    requires QuantityFrom(quantity, line, ctx) && quantity.quantity == qty
    ensures Passage([quantity], line, qty, ctx, [], false) && !RoundsUnit(quantity) && !quantity.OverrideApplied?
  {
    hide ParseDecimal;
    PlainPassage([quantity], line, qty, ctx);
  }

  lemma WholeTrace(
      quantity: TraceStep, work: seq<TraceStep>, middle: seq<TraceStep>, end: seq<TraceStep>, line: Line, qty: real, ctx: Ctx,
      ids: seq<string>)
    requires Passage([quantity], line, qty, ctx, [], false) && Passage(work, line, qty, ctx, ids, line.revision.Some?)
    requires Passage(middle, line, qty, ctx, [], false) && Passage(end, line, qty, ctx, [], false)
    requires !RoundsUnit(quantity) && !quantity.OverrideApplied? && forall step :: step in work ==> !step.Rounding? && !step.OverrideApplied?
    requires forall step :: step in end ==> !RoundsUnit(step) && !step.OverrideApplied?
    requires (exists step :: step in work && SetsPrice(step)) && middle != [] && RoundsUnit(middle[0])
    requires forall step :: step in middle && RoundsUnit(step) ==> step == middle[0]
    ensures var trace := [quantity] + work + middle + end;
            && trace[0] == quantity && Passage(trace, line, qty, ctx, ids, line.revision.Some?)
            && (exists step :: step in trace && SetsPrice(step)) && (exists step :: step in trace && RoundsUnit(step))
            && (forall step :: step in trace && RoundsUnit(step) ==> step == middle[0])
            && ((exists step :: step in trace && step.OverrideApplied?) <==> exists step :: step in middle && step.OverrideApplied?)
  {
    Together([quantity], work, line, qty, ctx, [], ids, false, line.revision.Some?);
    Together([quantity] + work, middle, line, qty, ctx, [] + ids, [], line.revision.Some?, false);
    Together([quantity] + work + middle, end, line, qty, ctx, [] + ids + [], [], line.revision.Some?, false);
    assert [] + ids == ids && ids + [] == ids;
    hide Passage, SetsPrice;
    var trace := [quantity] + work + middle + end;
    assert forall step :: step in trace <==> step == quantity || step in work || step in middle || step in end;
    assert middle[0] in middle;
  }

  /** A pack of hours always shows the hourly rate it comes to. */
  lemma PackIsShown(line: Line, ctx: Ctx)
    requires RegularLine(line, ctx).Ok? && line.kind == HOUR_PACK
    ensures exists step :: step in RegularLine(line, ctx).value.trace && step.HourPack?
  {
    hide ParseDecimal, WorkOut, Select, ComputedUnit, SelectionSteps, TotalSteps, RoundingStep, ToCents, RoundToScale, ResolveQuantity;
    QuantityIsQuantity(line, ctx);
    var s := ctx.settings;
    var quantity := ResolveQuantity(line, ctx).value;
    var work := WorkOut(line, quantity.quantity, ctx).value;
    var computed := ComputedUnit(work.price, quantity.quantity, s);
    var selection := Select(ctx.OverridesOf(line.id), ctx.OverrideCase(computed)).value;
    var steps := HourPackSteps(line, FinalUnit(selection, computed), s);
    assert |steps| == 1 && steps[0].HourPack?;
    var head := [quantity] + work.steps + [RoundingStep(work.price, quantity.quantity, s)] + SelectionSteps(selection, computed);
    assert RegularLine(line, ctx).value.trace[|head|] == steps[0];
  }
}

/**
 * Which regular lines can be priced (packages/pricing/src/price-at.ts, `priceRegularLine`), told from their texts,
 * the catalogue, the indexes and the overrides, stage by stage.
 */
module PricedLines {
  import opened Outcomes
  import opened Money
  import opened DecimalText
  import opened Calendar
  import opened Tiers
  import opened Indexes
  import opened IndexReads
  import opened Rules
  import opened Overrides
  import opened FourEyes
  import opened PricingTypes
  import opened LinePricing
  import opened Provenance

  // --------------------------------------------------------------- rate and shape

  /** A rate up to 100 %, a recurrence the kind allows, hours for a pack, and no revision of a formula. */
  ghost predicate HeadReads(line: Line) {
    && (exists vat :: ParseDecimal(line.vatRatePercent, 4, false) == Ok(vat) && vat <= 100.0)
    && (exists rec :: RecurrenceGiven(line, rec))
    && (line.kind == HOUR_PACK ==> line.hoursPerPack.Some? && exists h :: ParseDecimal(line.hoursPerPack.value, 6, false) == Ok(h) && h > 0.0)
    && !(line.revision.Some? && line.mode == FORMULA)
  }

  lemma HeadExactly(line: Line)
    ensures HeadReads(line) <==> ParseVat(line).Ok? && ResolveRecurrence(line).Ok? && CheckShape(line).Ok?
  {
    hide ParseDecimal, RecurrenceGiven;
    RecurrenceIsGiven(line);
  }

  // -------------------------------------------------------------------- tier tables

  /** The table reads as tiers that follow one another, and the last of them reaches the quantity. */
  ghost predicate TieredReads(table: TierTable, qty: real) {
    table.tiers != [] && exists ts :: TableSays(table.tiers, ts) && Tiling(ts, 0.0) && Covered(ts, qty)
  }

  predicate Covered(ts: seq<ParsedTier>, qty: real) {
    |ts| > 0 && (ts[|ts| - 1].upTo.Some? ==> qty <= ts[|ts| - 1].upTo.value)
  }

  lemma TieredExactly(table: TierTable, qty: real)
    ensures TieredOf(table, qty).Ok? <==> TieredReads(table, qty)
    ensures forall ruleId :: TieredStage(table, ruleId, qty).Ok? <==> TieredReads(table, qty)
  {
    hide ParseTiers, Tiling, TableSays, Tiered;
    forall ts
      ensures ParseTiers(table.tiers, 0.0) == Ok(ts) <==> TableSays(table.tiers, ts) && Tiling(ts, 0.0)
    {
      TableAccepted(table.tiers, 0.0, ts);
    }
  }

  // ----------------------------------------------------------------------- formulas

  /** Letters, digits and underscores, a digit not coming first. */
  predicate Identifier(name: string) {
    && |name| > 0 && (LetterOf(name[0]) || name[0] == '_')
    && forall i :: 0 <= i < |name| ==> LetterOf(name[i]) || '0' <= name[i] <= '9' || name[i] == '_'
  }

  predicate LetterOf(c: char) { 'a' <= c <= 'z' || 'A' <= c <= 'Z' }

  lemma IdentifierExactly(name: string)
    ensures IsIdentifier(name) <==> Identifier(name)
  {
    if IsIdentifier(name) {
      assert name[0] in name;
      assert forall i :: 0 <= i < |name| ==> name[i] in name;
    }
  }

  /** Names that can be defined beside those taken: identifiers, each once. */
  ghost predicate Fresh(names: seq<string>, taken: set<string>) {
    && (forall i :: 0 <= i < |names| ==> Identifier(names[i]) && names[i] !in taken)
    && (forall i, j :: 0 <= i < j < |names| ==> names[i] != names[j])
  }

  lemma FreshSplit(name: string, rest: seq<string>, taken: set<string>)
    ensures Fresh([name] + rest, taken) <==> Identifier(name) && name !in taken && Fresh(rest, taken + {name})
  {
    hide Identifier;
    var names := [name] + rest;
    assert forall i :: 0 <= i < |rest| ==> names[i + 1] == rest[i];
    assert names[0] == name;
    if Fresh(names, taken) {
      assert forall j :: 1 <= j < |names| ==> names[0] != names[j];
    }
  }

  function ConstantNameList(constants: seq<(string, string)>): seq<string> {
    seq(|constants|, i requires 0 <= i < |constants| => constants[i].0)
  }

  function IndexNameList(indexVariables: seq<IndexVariable>): seq<string> {
    seq(|indexVariables|, i requires 0 <= i < |indexVariables| => indexVariables[i].name)
  }

  ghost predicate ConstantsRead(constants: seq<(string, string)>) {
    forall i :: 0 <= i < |constants| ==> ParseDecimal(constants[i].1, 10, true).Ok?
  }

  ghost predicate IndexesRead(indexVariables: seq<IndexVariable>, ctx: Ctx) {
    forall i :: 0 <= i < |indexVariables| ==> IndexIsRead(indexVariables[i], ctx)
  }

  ghost predicate IndexIsRead(b: IndexVariable, ctx: Ctx) { exists o :: ReadAs(b, o, ctx) }

  lemma {:induction false} ConstantsExactly(env: map<string, real>, constants: seq<(string, string)>)
    ensures BindConstants(env, constants).Ok? <==> ConstantsRead(constants) && Fresh(ConstantNameList(constants), env.Keys)
    decreases |constants|
  {
    hide ParseDecimal, Fresh, IsIdentifier, Identifier;
    if constants == [] {
      NothingFresh(env.Keys);
      assert ConstantNameList(constants) == [];
    } else {
      var first, rest := constants[0], constants[1..];
      assert ConstantNameList(constants) == [first.0] + ConstantNameList(rest);
      FreshSplit(first.0, ConstantNameList(rest), env.Keys);
      IdentifierExactly(first.0);
      if ParseDecimal(first.1, 10, true).Ok? && IsIdentifier(first.0) && first.0 !in env {
        var extended := env[first.0 := ParseDecimal(first.1, 10, true).value];
        assert extended.Keys == env.Keys + {first.0};
        ConstantsExactly(extended, rest);
        assert ConstantsRead(constants) <==> ConstantsRead(rest) by {
          assert constants == [first] + rest;
        }
      }
    }
  }

  lemma NothingFresh(taken: set<string>)
    ensures Fresh([], taken)
  {
  }

  lemma ReadExactly(b: IndexVariable, ctx: Ctx)
    ensures var r := Lookup(ctx.indexes, b.indexCode, b.date.GetOr(ctx.date), b.lookup.GetOr(ctx.settings.indexLookup));
            (r.Ok? <==> IndexIsRead(b, ctx)) && (r.Ok? ==> ReadAs(b, r.value, ctx))
  {
    hide Lookup;
    var r := Lookup(ctx.indexes, b.indexCode, b.date.GetOr(ctx.date), b.lookup.GetOr(ctx.settings.indexLookup));
    if r.Ok? {
      assert ReadAs(b, r.value, ctx);
    }
  }

  lemma IndexesReadSplit(first: IndexVariable, rest: seq<IndexVariable>, ctx: Ctx)
    ensures IndexesRead([first] + rest, ctx) <==> IndexIsRead(first, ctx) && IndexesRead(rest, ctx)
  {
    hide IndexIsRead;
    var all := [first] + rest;
    assert all[0] == first && forall i :: 0 <= i < |rest| ==> all[i + 1] == rest[i];
  }

  lemma {:induction false} IndexesExactly(env: map<string, real>, indexVariables: seq<IndexVariable>, ctx: Ctx)
    ensures BindIndexes(env, indexVariables, ctx).Ok? <==> IndexesRead(indexVariables, ctx) && Fresh(IndexNameList(indexVariables), env.Keys)
    decreases |indexVariables|
  {
    hide Lookup, Fresh, IsIdentifier, Identifier, ReadAs, IndexIsRead;
    if indexVariables == [] {
      NothingFresh(env.Keys);
      assert IndexNameList(indexVariables) == [];
    } else {
      var first, rest := indexVariables[0], indexVariables[1..];
      assert IndexNameList(indexVariables) == [first.name] + IndexNameList(rest);
      FreshSplit(first.name, IndexNameList(rest), env.Keys);
      IdentifierExactly(first.name);
      ReadExactly(first, ctx);
      IndexesReadSplit(first, rest, ctx);
      assert indexVariables == [first] + rest;
      var o := Lookup(ctx.indexes, first.indexCode, first.date.GetOr(ctx.date), first.lookup.GetOr(ctx.settings.indexLookup));
      if o.Ok? && IsIdentifier(first.name) && first.name !in env {
        var extended := env[first.name := o.value.value];
        assert extended.Keys == env.Keys + {first.name};
        IndexesExactly(extended, rest, ctx);
      }
    }
  }

  function FirstNameList(f: FormulaSpec): set<string> { {"qty"} + if f.basePrice.Some? then {"P0"} else {} }

  /** Every text of the formula is read, and its names are identifiers that neither clash nor hide `qty` and `P0`. */
  ghost predicate FormulaTexts(f: FormulaSpec, ctx: Ctx) {
    && (f.basePrice.Some? ==> ParseDecimal(f.basePrice.value, 6, false).Ok?)
    && ConstantsRead(f.variables) && IndexesRead(f.indexVariables, ctx)
    && Fresh(ConstantNameList(f.variables) + IndexNameList(f.indexVariables), FirstNameList(f))
  }

  lemma FreshAppend(xs: seq<string>, ys: seq<string>, taken: set<string>)
    ensures Fresh(xs + ys, taken) <==> Fresh(xs, taken) && Fresh(ys, taken + Listed(xs))
  {
    hide Identifier;
    var zs := xs + ys;
    assert forall i :: 0 <= i < |xs| ==> zs[i] == xs[i];
    assert forall i :: 0 <= i < |ys| ==> zs[|xs| + i] == ys[i];
    if Fresh(zs, taken) {
      forall j | 0 <= j < |ys|
        ensures ys[j] !in taken + Listed(xs)
      {
        assert zs[|xs| + j] == ys[j];
      }
    }
    if Fresh(xs, taken) && Fresh(ys, taken + Listed(xs)) {
      forall i, j | 0 <= i < j < |zs|
        ensures zs[i] != zs[j]
      {
        if i < |xs| <= j {
          assert xs[i] in Listed(xs) && ys[j - |xs|] !in taken + Listed(xs);
        }
      }
      forall j | 0 <= j < |zs|
        ensures Identifier(zs[j]) && zs[j] !in taken
      {
        if j >= |xs| {
          assert ys[j - |xs|] !in taken + Listed(xs);
        }
      }
    }
  }

  function Listed(names: seq<string>): set<string> { set name | name in names }

  lemma ConstantsListed(constants: seq<(string, string)>)
    ensures Listed(ConstantNameList(constants)) == ConstantNames(constants)
  {
    var names := ConstantNameList(constants);
    forall name | name in ConstantNames(constants)
      ensures name in names
    {
      var i :| 0 <= i < |constants| && constants[i].0 == name;
      assert names[i] == name;
    }
    forall name | name in names
      ensures name in ConstantNames(constants)
    {
      var i :| 0 <= i < |names| && names[i] == name;
      assert constants[i] in constants;
    }
  }

  /** The variables of a formula, once its texts are read. */
  function BaseEnv(f: FormulaSpec, qty: real): map<string, real>
    requires f.basePrice.Some? ==> ParseDecimal(f.basePrice.value, 6, false).Ok?
  {
    if f.basePrice.None? then map["qty" := qty] else map["qty" := qty]["P0" := ParseDecimal(f.basePrice.value, 6, false).value]
  }

  lemma ReservedNames()
    ensures IsIdentifier("qty") && IsIdentifier("P0")
  {
  }

  lemma BindingExactly(f: FormulaSpec, qty: real, ctx: Ctx)
    requires f.basePrice.Some? ==> ParseDecimal(f.basePrice.value, 6, false).Ok?
    ensures FormulaTexts(f, ctx) <==>
              && BindConstants(BaseEnv(f, qty), f.variables).Ok?
              && BindIndexes(BindConstants(BaseEnv(f, qty), f.variables).value, f.indexVariables, ctx).Ok?
  {
    var env := BaseEnv(f, qty);
    assert env.Keys == FirstNameList(f);
    hide ParseDecimal, Fresh, BindConstants, BindIndexes, ConstantsRead, IndexesRead, BaseEnv;
    ConstantsExactly(env, f.variables);
    FreshAppend(ConstantNameList(f.variables), IndexNameList(f.indexVariables), FirstNameList(f));
    if BindConstants(env, f.variables).Ok? {
      var constants := BindConstants(env, f.variables).value;
      ConstantsBound(env, f.variables);
      ConstantsListed(f.variables);
      assert constants.Keys == FirstNameList(f) + Listed(ConstantNameList(f.variables)) by {
        AddedKeys(env, constants, ConstantNames(f.variables), |f.variables|);
      }
      IndexesExactly(constants, f.indexVariables, ctx);
    }
  }

  lemma AddedKeys(env: map<string, real>, bound: map<string, real>, names: set<string>, count: nat)
    requires Adds(env, bound, names, count)
    ensures bound.Keys == env.Keys + names
  {
  }

  /** The variables a formula receives are decided by its texts and its readings. */
  lemma VariablesAreDecided(a: map<string, real>, b: map<string, real>, f: FormulaSpec, qty: real, ctx: Ctx)
    requires VariablesFrom(a, f, qty, ctx) && VariablesFrom(b, f, qty, ctx)
    ensures a == b
  {
    hide ParseDecimal, Lookup;
    assert a.Keys == b.Keys;
    forall name | name in a
      ensures a[name] == b[name]
    {
      if name in ConstantNames(f.variables) {
        var c :| c in f.variables && c.0 == name;
      } else if name in IndexNames(f.indexVariables) {
        var v :| v in f.indexVariables && v.name == name;
      }
    }
  }

  /** A formula is evaluated on the variables its texts give, and its result is not negative. */
  ghost predicate FormulaReads(line: Line, qty: real, ctx: Ctx) {
    line.formula.Some? && FormulaTexts(line.formula.value, ctx) && exists variables, result :: FormulaGives(line.formula.value, variables, result, qty, ctx)
  }

  ghost predicate FormulaGives(f: FormulaSpec, variables: map<string, real>, result: real, qty: real, ctx: Ctx) {
    VariablesFrom(variables, f, qty, ctx) && result >= 0.0 && ctx.evaluate(f.expression, variables, ctx.settings.rounding) == Ok(result)
  }

  lemma EvaluationUnfolds(line: Line, qty: real, ctx: Ctx)
    requires line.formula.Some?
    ensures EvaluateFormula(line, qty, ctx).Ok? ==>
              line.formula.value.basePrice.Some? ==> ParseDecimal(line.formula.value.basePrice.value, 6, false).Ok?
    ensures (line.formula.value.basePrice.Some? ==> ParseDecimal(line.formula.value.basePrice.value, 6, false).Ok?) ==>
              var f, r := line.formula.value, EvaluateFormula(line, qty, ctx);
              var constants := BindConstants(BaseEnv(f, qty), f.variables);
              if constants.Err? then r == Err(constants.code)
              else
                var bound := BindIndexes(constants.value, f.indexVariables, ctx);
                if bound.Err? then r == Err(bound.code)
                else
                  var result := ctx.evaluate(f.expression, bound.value.0, ctx.settings.rounding);
                  if result.Err? then r == Err(result.code) else r.Ok? && r.value.price == Unit(result.value)
  {
    ReservedNames();
    hide ParseDecimal, BindConstants, BindIndexes, IsIdentifier;
  }

  lemma FormulaExactly(line: Line, qty: real, ctx: Ctx)
    ensures EvaluateFormula(line, qty, ctx).Ok? && EvaluateFormula(line, qty, ctx).value.price.value >= 0.0 <==> FormulaReads(line, qty, ctx)
  {
    hide *;
    FormulaReadsTexts(line, qty, ctx);
    if line.formula.Some? {
      FormulaTextsBase(line.formula.value, ctx);
      EvaluationUnfolds(line, qty, ctx);
      if line.formula.value.basePrice.Some? ==> ParseDecimal(line.formula.value.basePrice.value, 6, false).Ok? {
        FormulaOnBase(line, line.formula.value, qty, ctx);
      }
    }
  }

  lemma FormulaOnBase(line: Line, f: FormulaSpec, qty: real, ctx: Ctx)
    requires line.formula == Some(f) && (f.basePrice.Some? ==> ParseDecimal(f.basePrice.value, 6, false).Ok?)
    ensures EvaluateFormula(line, qty, ctx).Ok? && EvaluateFormula(line, qty, ctx).value.price.value >= 0.0 <==> FormulaReads(line, qty, ctx)
  {
    hide *;
    EvaluationUnfolds(line, qty, ctx);
    BindingExactly(f, qty, ctx);
    FormulaReadsTexts(line, qty, ctx);
    if FormulaTexts(f, ctx) {
      BoundVariables(f, qty, ctx);
      FormulaDecides(line, BindIndexes(BindConstants(BaseEnv(f, qty), f.variables).value, f.indexVariables, ctx).value.0, qty, ctx);
    }
  }

  lemma FormulaTextsBase(f: FormulaSpec, ctx: Ctx)
    ensures FormulaTexts(f, ctx) ==> f.basePrice.Some? ==> ParseDecimal(f.basePrice.value, 6, false).Ok?
  {
    hide ParseDecimal;
  }

  lemma FormulaReadsTexts(line: Line, qty: real, ctx: Ctx)
    ensures FormulaReads(line, qty, ctx) ==> line.formula.Some? && FormulaTexts(line.formula.value, ctx)
    ensures line.formula.None? ==> EvaluateFormula(line, qty, ctx).Err?
  {
    hide FormulaTexts, FormulaGives;
  }

  lemma BoundVariables(f: FormulaSpec, qty: real, ctx: Ctx)
    requires f.basePrice.Some? ==> ParseDecimal(f.basePrice.value, 6, false).Ok?
    requires BindConstants(BaseEnv(f, qty), f.variables).Ok?
    requires BindIndexes(BindConstants(BaseEnv(f, qty), f.variables).value, f.indexVariables, ctx).Ok?
    ensures VariablesFrom(BindIndexes(BindConstants(BaseEnv(f, qty), f.variables).value, f.indexVariables, ctx).value.0, f, qty, ctx)
  {
    var p := if f.basePrice.None? then 0.0 else ParseDecimal(f.basePrice.value, 6, false).value;
    FirstNames(f, qty, p);
    assert StartsWith(BaseEnv(f, qty), f, qty);
    hide *;
    var env := BaseEnv(f, qty);
    var constants := BindConstants(env, f.variables).value;
    ConstantsBound(env, f.variables);
    IndexesBound(constants, f.indexVariables, ctx);
    var (bound, steps) := BindIndexes(constants, f.indexVariables, ctx).value;
    NamesAddUp(env, constants, bound, f, qty, ctx);
  }

  lemma FormulaDecides(line: Line, bound: map<string, real>, qty: real, ctx: Ctx)
    requires line.formula.Some? && FormulaTexts(line.formula.value, ctx) && VariablesFrom(bound, line.formula.value, qty, ctx)
    ensures var result := ctx.evaluate(line.formula.value.expression, bound, ctx.settings.rounding);
            FormulaReads(line, qty, ctx) <==> result.Ok? && result.value >= 0.0
  {
    var f := line.formula.value;
    hide FormulaTexts, VariablesFrom;
    var result := ctx.evaluate(f.expression, bound, ctx.settings.rounding);
    if result.Ok? && result.value >= 0.0 {
      assert FormulaGives(f, bound, result.value, qty, ctx);
    }
    if FormulaReads(line, qty, ctx) {
      var variables, r :| FormulaGives(f, variables, r, qty, ctx);
      VariablesAreDecided(variables, bound, f, qty, ctx);
    }
  }

  // --------------------------------------------------------------------- base price

  /** The base price is there to be read, for the mode and the kind of the line. */
  ghost predicate BaseReads(line: Line, qty: real, ctx: Ctx) {
    match line.mode
    case MANUAL =>
      if line.kind == TIERED then line.tiers.Some? && TieredReads(line.tiers.value, qty)
      else line.unitPrice.Some? && ParseDecimal(line.unitPrice.value, 6, false).Ok?
    case RULE =>
      line.rule.Some? && exists rule :: Named(ctx, line.rule.value.priceRuleId, rule) && RuleReads(rule, line, qty)
    case FORMULA => line.kind != TIERED && FormulaReads(line, qty, ctx)
  }

  /** The rule prices this line: a grid that has the article, or tiers for a tiered line. */
  ghost predicate RuleReads(rule: PricingRule, line: Line, qty: real) {
    match rule
    case Grid(_, entries) => line.kind != TIERED && exists p :: GridSays(entries, line.code, p)
    case TiersRule(_, table) => line.kind == TIERED && TieredReads(table, qty)
    case _ => false
  }

  lemma BaseExactly(line: Line, qty: real, ctx: Ctx)
    ensures BaseStage(line, qty, ctx).Ok? <==> BaseReads(line, qty, ctx)
  {
    hide ParseDecimal, FindRule, GridUnitPrice, TieredStage, EvaluateFormula, TieredReads, GridSays, Named, FormulaReads;
    if line.tiers.Some? {
      TieredExactly(line.tiers.value, qty);
    }
    if line.rule.Some? {
      NamedIsFound(ctx, line.rule.value.priceRuleId);
      if FindRule(ctx.catalog, line.rule.value.priceRuleId).Ok? {
        var rule := FindRule(ctx.catalog, line.rule.value.priceRuleId).value;
        if rule.Grid? {
          GridIsSaid(rule.entries, line.code);
          if GridUnitPrice(rule.entries, line.code).Ok? {
            assert GridSays(rule.entries, line.code, GridUnitPrice(rule.entries, line.code).value);
          }
        } else if rule.TiersRule? {
          TieredExactly(rule.table, qty);
        }
      }
    }
    FormulaExactly(line, qty, ctx);
  }

  // ------------------------------------------------------- revision and adjustments

  /** Both days exist in order, and once the revision is in effect its shares and its indexes are read. */
  ghost predicate RevisionReadable(line: Line, ctx: Ctx) {
    line.revision.None? ||
    var spec := line.revision.value;
    && ValidDay(spec.referenceDate) && ValidDay(spec.revisionDate) && spec.referenceDate <= spec.revisionDate
    && (spec.revisionDate <= ctx.date ==> exists r :: RevisionRead(spec, ctx.indexes, ctx.settings.indexLookup, r))
  }

  lemma RevisionStageExactly(line: Line, price: Working, ctx: Ctx)
    ensures RevisionStage(line, price, ctx).Ok? <==> RevisionReadable(line, ctx)
  {
    hide ComputeRevision, RevisionRead, ValidDay;
    if line.revision.Some? {
      RevisedExactly(price.value, line.revision.value, ctx.indexes, ctx.settings.indexLookup);
    }
  }

  lemma RevisedExactly(P0: real, spec: RevisionSpec, indexes: seq<PriceIndex>, defaultLookup: LookupRule)
    ensures ComputeRevision(P0, spec, indexes, defaultLookup).Ok? <==> exists r :: RevisionRead(spec, indexes, defaultLookup, r)
  {
    hide ComputeRevision, Lookup, ParseDecimal;
    if ComputeRevision(P0, spec, indexes, defaultLookup).Ok? {
      RevisionExactly(P0, spec, indexes, defaultLookup, ComputeRevision(P0, spec, indexes, defaultLookup).value);
    }
    if r :| RevisionRead(spec, indexes, defaultLookup, r) {
      var x := Revise(P0, r.a, r.b, r.S0, r.S1);
      WorksOnlyOneWay(P0, x);
      RevisionExactly(P0, spec, indexes, defaultLookup, x);
    }
  }

  /** Each adjustment rule is found, is one, and its thresholds are read; a commitment needs its months. */
  ghost predicate AdjustmentsRead(ids: seq<string>, ctx: Ctx) {
    forall i :: 0 <= i < |ids| ==> exists rule :: Named(ctx, ids[i], rule) && Adjusts(rule, ctx)
  }

  ghost predicate Adjusts(rule: PricingRule, ctx: Ctx) {
    && IsAdjustment(rule) && (rule.CommitmentDiscount? ==> ctx.commitmentMonths.Some? && ctx.commitmentMonths.value >= 0)
    && forall i :: 0 <= i < Thresholds(rule) ==> StepReadable(rule, i)
  }

  lemma OneAdjusts(id: string, qty: real, ctx: Ctx)
    ensures AdjustmentById(id, qty, ctx).Ok? <==> exists rule :: Named(ctx, id, rule) && Adjusts(rule, ctx)
  {
    hide FindRule, AdjustmentOf, StepReadable, Named;
    NamedIsFound(ctx, id);
    if FindRule(ctx.catalog, id).Ok? {
      AdjustmentReads(FindRule(ctx.catalog, id).value, qty, ctx.commitmentMonths);
    }
  }

  lemma {:induction false} AdjustmentsExactly(ids: seq<string>, price: Working, qty: real, ctx: Ctx)
    ensures AdjustmentStage(ids, price, qty, ctx).Ok? <==> AdjustmentsRead(ids, ctx)
  {
    if ids != [] {
      hide AdjustmentById, Named, Adjusts;
      var init, last := ids[..|ids| - 1], ids[|ids| - 1];
      assert ids == init + [last];
      AdjustmentsExactly(init, price, qty, ctx);
      OneAdjusts(last, qty, ctx);
    }
  }

  // ------------------------------------------------------------------ the whole line

  ghost predicate WorkReads(line: Line, qty: real, ctx: Ctx) {
    && BaseReads(line, qty, ctx) && RevisionReadable(line, ctx)
    && (line.mode == RULE && line.rule.Some? ==> AdjustmentsRead(line.rule.value.adjustmentRuleIds, ctx))
  }

  lemma WorkExactly(line: Line, qty: real, ctx: Ctx)
    ensures WorkOut(line, qty, ctx).Ok? <==> WorkReads(line, qty, ctx)
  {
    hide BaseStage, RevisionStage, AdjustmentStage, BaseReads, RevisionReadable, AdjustmentsRead;
    BaseExactly(line, qty, ctx);
    if BaseStage(line, qty, ctx).Ok? {
      var base := BaseStage(line, qty, ctx).value;
      RevisionStageExactly(line, base.price, ctx);
      if RevisionStage(line, base.price, ctx).Ok? {
        AdjustmentsExactly(AdjustmentIds(line), RevisionStage(line, base.price, ctx).value.price, qty, ctx);
        NoAdjustments(ctx);
      }
    }
  }

  lemma NoAdjustments(ctx: Ctx)
    ensures AdjustmentsRead([], ctx)
  {
  }

  /** The overrides of the line let it be priced: those of the day are readable, and no two start last together. */
  ghost predicate OverridesRead(overrides: seq<PriceOverride>, c: Case) {
    && (forall o :: o in overrides && o.validFrom <= c.date <= o.validTo ==> ParseDecimal(o.unitPrice, 6, false).Ok?)
    && !Tie(overrides, c)
  }

  lemma SelectionExactly(overrides: seq<PriceOverride>, c: Case)
    ensures Select(overrides, c).Ok? <==> OverridesRead(overrides, c)
  {
    ReadableMeans(overrides, c);
    hide ParseDecimal, MayApply, Tie, Select;
    AppliesExactlyWhen(overrides, c);
    SelectErrors(overrides, c);
  }

  lemma ReadableMeans(overrides: seq<PriceOverride>, c: Case)
    ensures (forall o :: o in overrides ==> c.Readable(o))
            <==> forall o :: o in overrides && o.validFrom <= c.date <= o.validTo ==> ParseDecimal(o.unitPrice, 6, false).Ok?
  {
    hide ParseDecimal;
  }

  lemma SelectErrors(overrides: seq<PriceOverride>, c: Case)
    ensures Select(overrides, c).Err? ==> Select(overrides, c).code in {INVALID_DECIMAL, AMBIGUOUS_OVERRIDE}
  {
  }

  /**
   * A regular line is priced exactly when its texts are read, its quantity and its base price are there, its
   * revision and its adjustments have what they need, and its overrides of the day are readable and not tied at
   * the unit price worked out.
   */
  lemma RegularLineExactlyWhen(line: Line, ctx: Ctx)
    ensures RegularLine(line, ctx).Ok? <==>
              HeadReads(line) && exists quantity :: QuantityFrom(quantity, line, ctx) && PricesAt(line, quantity.quantity, ctx)
  {
    hide ParseVat, ResolveRecurrence, CheckShape, HeadReads, QuantityFrom, PricesAt, ResolveQuantity;
    HeadExactly(line);
    QuantityIsFrom(line, ctx);
    if ResolveQuantity(line, ctx).Ok? {
      var quantity := ResolveQuantity(line, ctx).value;
      QuantityIsQuantity(line, ctx);
      PricesAtExactly(line, quantity.quantity, ctx);
      FinishesWhen(line, ctx, quantity);
    }
  }

  ghost predicate PricesAt(line: Line, qty: real, ctx: Ctx) {
    && WorkReads(line, qty, ctx)
    && OverridesRead(ctx.OverridesOf(line.id), Case(ctx.date, UnitWorkedOut(line, qty, ctx), ctx.settings.threshold))
  }

  /** The unit price before any override, for a line that can be worked out. */
  function UnitWorkedOut(line: Line, qty: real, ctx: Ctx): real {
    if WorkOut(line, qty, ctx).Err? then 0.0 else ComputedUnit(WorkOut(line, qty, ctx).value.price, qty, ctx.settings)
  }

  lemma PricesAtExactly(line: Line, qty: real, ctx: Ctx)
    ensures PricesAt(line, qty, ctx) <==>
              WorkOut(line, qty, ctx).Ok?
              && Select(ctx.OverridesOf(line.id), ctx.OverrideCase(ComputedUnit(WorkOut(line, qty, ctx).value.price, qty, ctx.settings))).Ok?
  {
    hide WorkReads, WorkOut, OverridesRead, Select, ComputedUnit;
    WorkExactly(line, qty, ctx);
    SelectionExactly(ctx.OverridesOf(line.id), Case(ctx.date, UnitWorkedOut(line, qty, ctx), ctx.settings.threshold));
  }

  lemma FinishesWhen(line: Line, ctx: Ctx, quantity: TraceStep)
    requires ResolveQuantity(line, ctx) == Ok(quantity) && quantity.Quantity?
    ensures RegularLine(line, ctx).Ok? <==>
              && ParseVat(line).Ok? && ResolveRecurrence(line).Ok? && CheckShape(line).Ok? && WorkOut(line, quantity.quantity, ctx).Ok?
              && Select(ctx.OverridesOf(line.id), ctx.OverrideCase(ComputedUnit(WorkOut(line, quantity.quantity, ctx).value.price, quantity.quantity, ctx.settings))).Ok?
  {
    hide ParseVat, ResolveRecurrence, CheckShape, ResolveQuantity, WorkOut, Select, ComputedUnit, ToCents, FinalUnit, ExactTotal;
  }

  /** A line of a grid whose article the grid does not have is refused, and so is one whose rule is not in the catalogue. */
  lemma NoPriceWithoutARule(line: Line, ctx: Ctx)
    requires line.mode == RULE && line.kind != TIERED && line.rule.Some?
    requires HeadReads(line) && exists quantity :: QuantityFrom(quantity, line, ctx)
    ensures (forall rule :: !Named(ctx, line.rule.value.priceRuleId, rule)) ==> RegularLine(line, ctx) == Err(RULE_NOT_FOUND)
    ensures forall rule :: Named(ctx, line.rule.value.priceRuleId, rule) && rule.Grid? && (forall e :: e in rule.entries ==> e.articleCode != line.code) ==>
              RegularLine(line, ctx) == Err(RULE_NOT_FOUND)
  {
    hide ParseVat, ResolveRecurrence, CheckShape, HeadReads, QuantityFrom, ResolveQuantity, FindRule, GridUnitPrice, Finish;
    HeadExactly(line);
    QuantityIsFrom(line, ctx);
    QuantityIsQuantity(line, ctx);
    NamedIsFound(ctx, line.rule.value.priceRuleId);
    forall rule | Named(ctx, line.rule.value.priceRuleId, rule) && rule.Grid? && (forall e :: e in rule.entries ==> e.articleCode != line.code)
      ensures GridUnitPrice(rule.entries, line.code) == Err(RULE_NOT_FOUND)
    {
      GridPriceFound(rule.entries, line.code);
    }
  }
}

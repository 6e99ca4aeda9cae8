/** What holds of every priced regular line (packages/pricing/src/price-at.ts, rules.ts). */
module LineFacts {
  import opened Outcomes
  import opened Sums
  import opened Money
  import opened DecimalText
  import opened Calendar
  import opened Tiers
  import opened Indexes
  import opened Rules
  import opened Overrides
  import opened PricingTypes
  import opened LinePricing

  // -------------------------------------------------------------- the cascade

  predicate AllAdjust(ids: seq<string>, qty: real, ctx: Ctx) {
    forall id :: id in ids ==> AdjustmentById(id, qty, ctx).Ok?
  }

  function Keep(id: string, qty: real, ctx: Ctx): real
    requires AdjustmentById(id, qty, ctx).Ok?
  {
    (100.0 - AdjustmentById(id, qty, ctx).value.percent) / 100.0
  }

  /** The share of the price left by all the adjustments: a product of what each leaves. */
  function Kept(ids: seq<string>, qty: real, ctx: Ctx): real
    requires AllAdjust(ids, qty, ctx)
  {
    if ids == [] then 1.0 else Times(Kept(ids[..|ids| - 1], qty, ctx), Keep(ids[|ids| - 1], qty, ctx))
  }

  /**
   * The cascade applies every named rule once, in order, each to the price left by the one before,
   * and amounts to a single multiplication.
   */
  lemma {:induction false} CascadeIsProduct(ids: seq<string>, price: Working, qty: real, ctx: Ctx)
    ensures AdjustmentStage(ids, price, qty, ctx).Ok? <==> AllAdjust(ids, qty, ctx)
    ensures AdjustmentStage(ids, price, qty, ctx).Ok? ==>
              var stage := AdjustmentStage(ids, price, qty, ctx).value;
              && stage.price == price.With(Times(price.value, Kept(ids, qty, ctx)))
              && |stage.steps| == |ids|
              && forall i :: 0 <= i < |ids| ==>
                   stage.steps[i].Adjusted? && stage.steps[i].adjustment == AdjustmentById(ids[i], qty, ctx).value
  {
    hide AdjustmentById, Times, AfterDiscount, Keep;
    TimesLaws(price.value, 1.0, 1.0);
    if ids != [] {
      var init, id := ids[..|ids| - 1], ids[|ids| - 1];
      CascadeIsProduct(init, price, qty, ctx);
      assert ids == init + [id];
      if AllAdjust(ids, qty, ctx) {
        OneMoreFactor(Times(price.value, Kept(init, qty, ctx)), id, qty, ctx);
        TimesLaws(price.value, Kept(init, qty, ctx), Keep(id, qty, ctx));
      }
    }
  }

  lemma OneMoreFactor(p: real, id: string, qty: real, ctx: Ctx)
    requires AdjustmentById(id, qty, ctx).Ok?
    ensures AfterDiscount(p, AdjustmentById(id, qty, ctx).value.percent) == Times(p, Keep(id, qty, ctx))
  {
    hide AdjustmentById;
    Percentage(p, AdjustmentById(id, qty, ctx).value.percent);
  }

  lemma Percentage(p: real, percent: real)
    ensures p * (100.0 - percent) / 100.0 == p * ((100.0 - percent) / 100.0)
  {
  }

  lemma {:induction false} KeptTakeOut(ids: seq<string>, k: nat, qty: real, ctx: Ctx)
    requires k < |ids| && AllAdjust(ids, qty, ctx)
    ensures AllAdjust(ids[..k] + ids[k + 1..], qty, ctx)
    ensures Kept(ids, qty, ctx) == Times(Kept(ids[..k] + ids[k + 1..], qty, ctx), Keep(ids[k], qty, ctx))
    decreases |ids|
  {
    hide AdjustmentById, Times, Keep;
    var last := |ids| - 1;
    var rest := ids[..k] + ids[k + 1..];
    if k == last {
      assert rest == ids[..last];
    } else {
      KeptTakeOut(ids[..last], k, qty, ctx);
      assert rest[..|rest| - 1] == ids[..last][..k] + ids[..last][k + 1..];
      TimesLaws(Kept(rest[..|rest| - 1], qty, ctx), Keep(ids[k], qty, ctx), Keep(ids[last], qty, ctx));
    }
  }

  /** Discounts in cascade do not depend on their order: the product is commutative. */
  lemma {:induction false} CascadeIgnoresOrder(ids: seq<string>, other: seq<string>, qty: real, ctx: Ctx)
    requires multiset(ids) == multiset(other) && AllAdjust(ids, qty, ctx)
    ensures AllAdjust(other, qty, ctx) && Kept(other, qty, ctx) == Kept(ids, qty, ctx)
    decreases |ids|
  {
    hide AdjustmentById, Times, Keep;
    SameMembers(ids, other);
    if ids == [] {
      assert |other| == |multiset(other)| == 0;
    } else {
      var last := |ids| - 1;
      assert ids[last] in ids;
      var k :| 0 <= k < |other| && other[k] == ids[last];
      TakeOut(ids, last);
      TakeOut(other, k);
      assert ids[..last] + ids[last + 1..] == ids[..last];
      CascadeIgnoresOrder(ids[..last], other[..k] + other[k + 1..], qty, ctx);
      KeptTakeOut(other, k, qty, ctx);
    }
  }

  // ---------------------------------------------------------- the price formula

  /** The factor of the native revision at the pricing date. */
  function RevisionFactor(line: Line, ctx: Ctx): real {
    if line.revision.None? || ctx.date < line.revision.value.revisionDate then 1.0
    else
      var r := ComputeRevision(1.0, line.revision.value, ctx.indexes, ctx.settings.indexLookup);
      if r.Err? then 1.0 else r.value.coefficient
  }

  /** Before rounding and overrides, a price is base x revision x what the adjustments leave. */
  lemma PriceFormula(line: Line, qty: real, ctx: Ctx)
    requires WorkOut(line, qty, ctx).Ok?
    ensures BaseStage(line, qty, ctx).Ok? && AllAdjust(AdjustmentIds(line), qty, ctx)
    ensures var base := BaseStage(line, qty, ctx).value.price;
            WorkOut(line, qty, ctx).value.price
            == base.With(Times(Times(base.value, RevisionFactor(line, ctx)), Kept(AdjustmentIds(line), qty, ctx)))
  {
    hide BaseStage, RevisionStage, AdjustmentStage, RevisionFactor, Times, Kept, AdjustmentById;
    var base := BaseStage(line, qty, ctx).value.price;
    RevisionIsFactor(line, base, ctx);
    CascadeIsProduct(AdjustmentIds(line), RevisionStage(line, base, ctx).value.price, qty, ctx);
  }

  /**
   * The native revision multiplies whatever price it is given by one coefficient, which depends on the line,
   * the indexes and the day alone, as does its success; before its day the coefficient is 1.
   */
  lemma RevisionIsFactor(line: Line, price: Working, ctx: Ctx)
    requires RevisionStage(line, price, ctx).Ok?
    ensures RevisionStage(line, price, ctx).value.price == price.With(Times(price.value, RevisionFactor(line, ctx)))
    ensures forall other :: RevisionStage(line, other, ctx).Ok?
  {
    hide ComputeRevision, Times;
    TimesLaws(price.value, 1.0, 1.0);
    if line.revision.Some? && ctx.date >= line.revision.value.revisionDate {
      CoefficientIsFixed(price.value, line.revision.value, ctx);
    }
    forall other
      ensures RevisionStage(line, other, ctx).Ok?
    {
      if line.revision.Some? && ctx.date >= line.revision.value.revisionDate {
        RevisedAnyPrice(price.value, other.value, line.revision.value, ctx);
      }
    }
  }

  lemma RevisedAnyPrice(P0: real, other: real, spec: RevisionSpec, ctx: Ctx)
    requires ComputeRevision(P0, spec, ctx.indexes, ctx.settings.indexLookup).Ok?
    ensures ComputeRevision(other, spec, ctx.indexes, ctx.settings.indexLookup).Ok?
  {
    hide ParseDecimal, Lookup;
  }

  lemma CoefficientIsFixed(P0: real, spec: RevisionSpec, ctx: Ctx)
    requires ComputeRevision(P0, spec, ctx.indexes, ctx.settings.indexLookup).Ok?
    ensures var r, one := ComputeRevision(P0, spec, ctx.indexes, ctx.settings.indexLookup),
                          ComputeRevision(1.0, spec, ctx.indexes, ctx.settings.indexLookup);
            one.Ok? && r.value.exact == Times(P0, one.value.coefficient)
  {
    hide ParseDecimal, Lookup;
  }

  // -------------------------------------------------------------- never negative

  lemma TieredNonNegative(table: TierTable, qty: real)
    requires qty >= 0.0 && TieredOf(table, qty).Ok?
    ensures TieredOf(table, qty).value.exact >= 0.0
  {
    hide Cost;
    var ts := ParseTierTable(table).value;
    ParsedTiersTile(table.tiers, 0.0);
    if table.mode == GRADUATED {
      GraduatedMonotone(ts, 0.0, qty, qty);
    } else {
      VolumeBandIsVolume(ts, 0.0, qty);
      SameTierSamePrice(ts, 0.0, qty, qty);
      CostMonotone(qty, qty, TierPrice(ts, qty));
    }
  }

  lemma BaseNonNegative(line: Line, qty: real, ctx: Ctx)
    requires qty >= 0.0 && BaseStage(line, qty, ctx).Ok?
    ensures BaseStage(line, qty, ctx).value.price.value >= 0.0
  {
    hide ParseDecimal, EvaluateFormula, TieredOf, FindRule, GridUnitPrice;
    match line.mode
    case MANUAL =>
      if line.kind == TIERED {
        TieredNonNegative(line.tiers.value, qty);
      } else {
        ParsedDecimal(line.unitPrice.value, 6, false);
      }
    case RULE =>
      var rule := FindRule(ctx.catalog, line.rule.value.priceRuleId).value;
      if rule.TiersRule? {
        TieredNonNegative(rule.table, qty);
      } else {
        GridPriceNonNegative(rule.entries, line.code);
      }
    case FORMULA =>
  }

  lemma {:induction false} KeptIsShare(ids: seq<string>, qty: real, ctx: Ctx)
    requires AllAdjust(ids, qty, ctx)
    ensures 0.0 <= Kept(ids, qty, ctx) <= 1.0
  {
    hide AdjustmentOf, FindRule, Times;
    if ids != [] {
      var init, id := ids[..|ids| - 1], ids[|ids| - 1];
      KeptIsShare(init, qty, ctx);
      assert id in ids && AdjustmentById(id, qty, ctx).Ok?;
      AdjustmentWithinBounds(FindRule(ctx.catalog, id).value, qty, ctx.commitmentMonths);
      TimesOfShares(Kept(init, qty, ctx), Keep(id, qty, ctx));
    }
  }

  lemma WorkNonNegative(line: Line, qty: real, ctx: Ctx)
    requires qty >= 0.0 && WorkOut(line, qty, ctx).Ok?
    ensures WorkOut(line, qty, ctx).value.price.value >= 0.0
  {
    hide BaseStage, RevisionStage, AdjustmentStage, Times, Kept, AdjustmentById;
    var base := BaseStage(line, qty, ctx).value.price;
    BaseNonNegative(line, qty, ctx);
    RevisionNonNegative(line, base, ctx);
    var revised := RevisionStage(line, base, ctx).value.price;
    CascadeIsProduct(AdjustmentIds(line), revised, qty, ctx);
    KeptIsShare(AdjustmentIds(line), qty, ctx);
    TimesOfShares(revised.value, Kept(AdjustmentIds(line), qty, ctx));
  }

  lemma RevisionNonNegative(line: Line, price: Working, ctx: Ctx)
    requires price.value >= 0.0 && RevisionStage(line, price, ctx).Ok?
    ensures RevisionStage(line, price, ctx).value.price.value >= 0.0
  {
    hide ComputeRevision;
    if line.revision.Some? && ctx.date >= line.revision.value.revisionDate {
      RevisionFollowsIndex(price.value, line.revision.value, ctx.indexes, ctx.settings.indexLookup);
    }
  }

  lemma ComputedNonNegative(price: Working, qty: real, s: Settings)
    requires price.value >= 0.0 && qty >= 0.0
    ensures ComputedUnit(price, qty, s) >= 0.0
  {
    if price.Amount? && qty != 0.0 {
      QuotientNonNegative(price.value, qty);
    }
    RoundToScaleNonNegative(ExactUnit(price, qty), s.unitPriceScale, s.rounding);
  }

  lemma QuotientNonNegative(x: real, y: real)
    requires x >= 0.0 && y > 0.0
    ensures x / y >= 0.0
  {
  }

  lemma FinalNonNegative(overrides: seq<PriceOverride>, c: Case)
    requires c.computed >= 0.0 && Select(overrides, c).Ok?
    ensures FinalUnit(Select(overrides, c).value, c.computed) >= 0.0
  {
    hide Select;
    if Select(overrides, c).value.applied.Some? {
      AppliedIsStrictlyLatest(overrides, c);
      ParsedDecimal(Select(overrides, c).value.applied.value.source.unitPrice, 6, false);
    }
  }

  lemma CentsNonNegative(euros: real, mode: RoundingMode)
    requires euros >= 0.0
    ensures ToCents(euros, mode) >= 0
  {
    RoundMonotone(0.0, euros * 100.0, mode);
  }

  /** Quantity, unit price and total of a regular line are never negative, whatever the mode or override. */
  lemma RegularLineNonNegative(line: Line, ctx: Ctx)
    requires RegularLine(line, ctx).Ok?
    ensures var p := RegularLine(line, ctx).value;
            && p.quantity >= 0.0 && p.unitPrice >= 0.0 && p.totalHtCents >= 0
            && 0.0 <= p.vat <= 100.0
  {
    hide ParseDecimal, WorkOut, Select, Cost, ToCents, ComputedUnit, CheckShape, ResolveQuantity, ResolveRecurrence;
    ParsedDecimal(line.vatRatePercent, 4, false);
    QuantityIsQuantity(line, ctx);
    var qty := ResolveQuantity(line, ctx).value.quantity;
    WorkNonNegative(line, qty, ctx);
    var price := WorkOut(line, qty, ctx).value.price;
    ComputedNonNegative(price, qty, ctx.settings);
    var computed := ComputedUnit(price, qty, ctx.settings);
    FinalNonNegative(ctx.OverridesOf(line.id), ctx.OverrideCase(computed));
    var selection := Select(ctx.OverridesOf(line.id), ctx.OverrideCase(computed)).value;
    CostMonotone(qty, qty, FinalUnit(selection, computed));
    CentsNonNegative(ExactTotal(price, selection, computed, qty), ctx.settings.rounding);
  }

  // ------------------------------------------------------------------- locality

  /** The days, and the rules, with which a line reads an index. */
  function Consulted(line: Line, date: Day, s: Settings): set<(Day, LookupRule)> {
    (if line.revision.None? then {}
     else
       var spec := line.revision.value;
       var rule := spec.lookup.GetOr(s.indexLookup);
       {(spec.referenceDate, rule), (spec.revisionDate, rule)})
    + (if line.formula.None? then {}
       else set v | v in line.formula.value.indexVariables :: (v.date.GetOr(date), v.lookup.GetOr(s.indexLookup)))
  }

  /** The overrides that cover the date, in their order. */
  function Covering(overrides: seq<PriceOverride>, date: Day): seq<PriceOverride> {
    FlatMap(overrides, OnlyCovering(date))
  }

  function OnlyCovering(date: Day): PriceOverride -> seq<PriceOverride> {
    (o: PriceOverride) => if Covers(o, date) then [o] else []
  }

  /** What two contexts must share for one line to have one price. */
  ghost predicate SameFor(line: Line, c: Ctx, d: Ctx) {
    && c.date == d.date && c.settings == d.settings && c.catalog == d.catalog
    && c.commitmentMonths == d.commitmentMonths && c.evaluate == d.evaluate
    && (line.quantity == Some(Provider) ==>
          && (line.id in c.quantities <==> line.id in d.quantities)
          && (line.id in c.quantities ==> c.quantities[line.id] == d.quantities[line.id]))
    && Covering(c.OverridesOf(line.id), c.date) == Covering(d.OverridesOf(line.id), d.date)
    && forall code, day, rule :: (day, rule) in Consulted(line, c.date, c.settings) ==>
         Lookup(c.indexes, code, day, rule) == Lookup(d.indexes, code, day, rule)
  }

  lemma {:induction false} SelectReadsCovering(overrides: seq<PriceOverride>, c: Case)
    ensures Select(overrides, c) == Select(Covering(overrides, c.date), c)
  {
    hide Price, Refusal, GapPercent, NeedsSecondApproval, Latest;
    var kept := Covering(overrides, c.date);
    CoveringCollects(overrides, c, c.Refused());
    CoveringCollects(overrides, c, c.Accepted());
    forall o
      ensures (o in overrides && !c.Readable(o)) <==> (o in kept && !c.Readable(o))
    {
      FlatMapMembers(overrides, OnlyCovering(c.date), o);
    }
  }

  lemma {:induction false} CoveringCollects<T>(overrides: seq<PriceOverride>, c: Case, f: PriceOverride -> seq<T>)
    requires forall o :: !Covers(o, c.date) ==> f(o) == []
    ensures FlatMap(Covering(overrides, c.date), f) == FlatMap(overrides, f)
  {
    if overrides != [] {
      var last := |overrides| - 1;
      CoveringCollects(overrides[..last], c, f);
      FlatMapAppend(Covering(overrides[..last], c.date), OnlyCovering(c.date)(overrides[last]), f);
      if Covers(overrides[last], c.date) {
        FlatMapOne(overrides[last], f);
      }
    }
  }

  lemma {:induction false} BindIndexesLocal(env: map<string, real>, variables: seq<IndexVariable>, c: Ctx, d: Ctx)
    requires c.date == d.date && c.settings == d.settings
    requires forall v, code :: v in variables ==>
               Lookup(c.indexes, code, v.date.GetOr(c.date), v.lookup.GetOr(c.settings.indexLookup))
               == Lookup(d.indexes, code, v.date.GetOr(c.date), v.lookup.GetOr(c.settings.indexLookup))
    ensures BindIndexes(env, variables, c) == BindIndexes(env, variables, d)
    decreases |variables|
  {
    hide Lookup, IsIdentifier;
    if variables != [] {
      var b := variables[0];
      assert b in variables;
      var o := Lookup(c.indexes, b.indexCode, b.date.GetOr(c.date), b.lookup.GetOr(c.settings.indexLookup));
      assert o == Lookup(d.indexes, b.indexCode, b.date.GetOr(d.date), b.lookup.GetOr(d.settings.indexLookup));
      if o.Ok? && Define(env, b.name, o.value.value).Ok? {
        BindIndexesLocal(Define(env, b.name, o.value.value).value, variables[1..], c, d);
      }
    }
  }

  lemma FormulaLocal(line: Line, qty: real, c: Ctx, d: Ctx)
    requires SameFor(line, c, d)
    ensures EvaluateFormula(line, qty, c) == EvaluateFormula(line, qty, d)
  {
    hide ParseDecimal, Lookup, BindIndexes, BindConstants, IsIdentifier, Covering;
    if line.formula.Some? {
      forall v | v in line.formula.value.indexVariables
        ensures (v.date.GetOr(c.date), v.lookup.GetOr(c.settings.indexLookup)) in Consulted(line, c.date, c.settings)
      {
      }
      forall env: map<string, real>
        ensures BindIndexes(env, line.formula.value.indexVariables, c) == BindIndexes(env, line.formula.value.indexVariables, d)
      {
        BindIndexesLocal(env, line.formula.value.indexVariables, c, d);
      }
    }
  }

  lemma {:induction false} AdjustmentsLocal(ids: seq<string>, price: Working, qty: real, c: Ctx, d: Ctx)
    requires c.catalog == d.catalog && c.commitmentMonths == d.commitmentMonths
    ensures AdjustmentStage(ids, price, qty, c) == AdjustmentStage(ids, price, qty, d)
  {
    hide AdjustmentOf, FindRule, AfterDiscount;
    if ids != [] {
      AdjustmentsLocal(ids[..|ids| - 1], price, qty, c, d);
    }
  }

  lemma RevisionLocal(line: Line, price: Working, c: Ctx, d: Ctx)
    requires SameFor(line, c, d)
    ensures RevisionStage(line, price, c) == RevisionStage(line, price, d)
  {
    hide ParseDecimal, Lookup, Revise, Covering;
    if line.revision.Some? {
      var spec := line.revision.value;
      var rule := spec.lookup.GetOr(c.settings.indexLookup);
      assert (spec.referenceDate, rule) in Consulted(line, c.date, c.settings);
      assert (spec.revisionDate, rule) in Consulted(line, c.date, c.settings);
    }
  }

  lemma WorkLocal(line: Line, qty: real, c: Ctx, d: Ctx)
    requires SameFor(line, c, d)
    ensures WorkOut(line, qty, c) == WorkOut(line, qty, d)
  {
    hide EvaluateFormula, RevisionStage, AdjustmentStage, TieredStage, ParseDecimal, FindRule, GridUnitPrice, SameFor;
    assert c.catalog == d.catalog by { SharedParts(line, c, d); }
    FormulaLocal(line, qty, c, d);
    var base := BaseStage(line, qty, c);
    assert base == BaseStage(line, qty, d);
    if base.Ok? {
      RevisionLocal(line, base.value.price, c, d);
      var revised := RevisionStage(line, base.value.price, c);
      if revised.Ok? {
        SharedParts(line, c, d);
        AdjustmentsLocal(AdjustmentIds(line), revised.value.price, qty, c, d);
      }
    }
  }

  lemma SharedParts(line: Line, c: Ctx, d: Ctx)
    requires SameFor(line, c, d)
    ensures c.catalog == d.catalog && c.commitmentMonths == d.commitmentMonths && c.date == d.date && c.settings == d.settings
    ensures ResolveQuantity(line, c) == ResolveQuantity(line, d)
    ensures Covering(c.OverridesOf(line.id), c.date) == Covering(d.OverridesOf(line.id), d.date)
  {
    hide ParseDecimal, Lookup;
  }

  /**
   * A line has the same price, trace included, in any two contexts that agree on its quantity, on
   * its overrides covering the date, and on the index values seen from the days it consults.
   * Overrides of other lines or periods and values published later change nothing.
   */
  lemma RegularLineIsLocal(line: Line, c: Ctx, d: Ctx)
    requires SameFor(line, c, d)
    ensures RegularLine(line, c) == RegularLine(line, d)
  {
    hide WorkOut, ResolveQuantity, CheckShape, ParseVat, ResolveRecurrence, Select, Covering, SameFor;
    WorkLocalForAll(line, c, d);
    SharedParts(line, c, d);
    forall computed: real
      ensures Select(c.OverridesOf(line.id), c.OverrideCase(computed)) == Select(d.OverridesOf(line.id), d.OverrideCase(computed))
    {
      SelectReadsCovering(c.OverridesOf(line.id), c.OverrideCase(computed));
      SelectReadsCovering(d.OverridesOf(line.id), d.OverrideCase(computed));
    }
  }

  lemma WorkLocalForAll(line: Line, c: Ctx, d: Ctx)
    requires SameFor(line, c, d)
    ensures forall qty :: WorkOut(line, qty, c) == WorkOut(line, qty, d)
  {
    hide WorkOut, SameFor;
    forall qty
      ensures WorkOut(line, qty, c) == WorkOut(line, qty, d)
    {
      WorkLocal(line, qty, c, d);
    }
  }
}

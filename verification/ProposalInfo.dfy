/**
 * Information lines of a quote (packages/pricing/src/proposal.ts, `quoteProposal`): shown at a price, charged
 * nothing and outside the buckets, exactly when no charge bears the key of one.
 */
module ProposalInfo {
  import opened Outcomes
  import opened Sums
  import opened Money
  import opened DecimalText
  import opened PricingTypes
  import opened LinePricing
  import opened Totals
  import opened Engine
  import opened EngineFacts
  import opened EngineLocality
  import opened Configuration
  import opened ConfigurationFacts
  import opened Proposals
  import opened ProposalFacts
  import opened ProposalGuarantees
  import opened ProposalSuccess
  import opened ProposalQuotes

  predicate InfoKey(key: string, def: Definition) {
    LineOf(def.lines, key).Some? && LineOf(def.lines, key).value.kind == Info
  }

  /** Reductions in one recurrence by rules that bear the key of an information line. */
  function InfoReductionIn(def: Definition, cfg: Configured, mode: RoundingMode, rec: Recurrence): Rule -> int {
    (r: Rule) => if InfoKey(r.key, def) then SpecReductionIn(def, cfg, mode, rec)(r) else 0
  }

  /** What the complement charges under the key of an information line. */
  function InfoComplement(def: Definition, monthly: int): int {
    if Missing(def, monthly) != 0 && MinimumOf(def.rules).Some? && InfoKey(MinimumOf(def.rules).value.key, def)
    then Missing(def, monthly) else 0
  }

  /** What a quote charges in one recurrence under the keys of information lines, from the model alone. */
  function InfoChargeIn(def: Definition, cfg: Configured, mode: RoundingMode, rec: Recurrence): int {
    SumBy(def.rules, InfoReductionIn(def, cfg, mode, rec))
    + if rec == MONTHLY then InfoComplement(def, SpecTotal(def, cfg, mode, MONTHLY)) else 0
  }

  function InfoCharge(def: Definition, cfg: Configured, mode: RoundingMode): int {
    InfoChargeIn(def, cfg, mode, ONE_OFF) + InfoChargeIn(def, cfg, mode, MONTHLY)
    + InfoChargeIn(def, cfg, mode, QUARTERLY) + InfoChargeIn(def, cfg, mode, YEARLY)
  }

  // ------------------------------------------------------- the charge, line by line

  function InfoHt(def: Definition, rec: Recurrence): PricedLine -> int {
    (p: PricedLine) => if IsInfo(p, def) then HtOf(rec)(p) else 0
  }

  function SpecInfo(def: Definition, cfg: Configured, mode: RoundingMode, rec: Recurrence): Line -> int {
    (line: Line) => if InfoKey(line.id, def) then SpecOf(def, cfg, mode, rec)(line) else 0
  }

  lemma InfoAsSpecified(def: Definition, cfg: Configured, ctx: Ctx, rec: Recurrence, i: nat)
    requires ProposalCtx(ctx) && DistinctKeys(def.lines) && PriceLines(EngineLines(def, cfg), ctx).Ok? && i < |EngineLines(def, cfg)|
    ensures i < |PriceLines(EngineLines(def, cfg), ctx).value|
    ensures InfoHt(def, rec)(PriceLines(EngineLines(def, cfg), ctx).value[i])
         == SpecInfo(def, cfg, ctx.settings.rounding, rec)(EngineLines(def, cfg)[i])
  {
    hide PriceLines, EngineLines, SpecOf, HtOf, LineOf, ProposalCtx, DistinctKeys, RegularLine, RegularPass;
    var lines := EngineLines(def, cfg);
    PricedExactlyWhen(lines, ctx);
    PricedLineByLine(lines, ctx, i);
    if lines[i].kind == DISCOUNT {
      DiscountAsSpecified(def, cfg, ctx, rec, i);
      DiscountIdentity(lines[i], lines, RegularPass(lines, ctx).value, ctx.settings);
    } else {
      RegularAsSpecified(def, cfg, ctx, rec, i);
      RegularLineIdentity(lines[i], ctx);
    }
  }

  lemma DiscountIdentity(line: Line, all: seq<Line>, regular: map<string, PricedLine>, s: Settings)
    requires DiscountLine(line, all, regular, s).Ok?
    ensures DiscountLine(line, all, regular, s).value.lineId == line.id
  {
    hide ParseDecimal, Targets, Reduction, Homogeneous, SumBy, ToCents;
  }

  lemma LineInfoIsNothing(def: Definition, cfg: Configured, mode: RoundingMode, rec: Recurrence, l: ProposalLine)
    requires DistinctKeys(def.lines) && l in def.lines
    ensures SumBy(Billed(def, cfg)(l), SpecInfo(def, cfg, mode, rec)) == 0
    ensures SumBy(Displayed(def, cfg)(l), SpecInfo(def, cfg, mode, rec)) == 0
  {
    hide UnitPriceCents, EngineLine, LineOf, SpecOf;
    LineOfOwnKey(def.lines, l);
    var cents := UnitPriceCents(l, cfg.choices).GetOr(0);
    EngineLineKey(l, Units(l, cfg), cents, def, cfg);
    EngineLineKey(l, 0, cents, def, cfg);
    BilledSum(def, cfg, mode, rec, l);
    SumByOne(EngineLine(l, 0, cents, def, cfg), SpecOf(def, cfg, mode, rec));
    SumByOne(EngineLine(l, Units(l, cfg), cents, def, cfg), SpecInfo(def, cfg, mode, rec));
    SumByOne(EngineLine(l, 0, cents, def, cfg), SpecInfo(def, cfg, mode, rec));
  }

  lemma RuleInfoSum(def: Definition, cfg: Configured, mode: RoundingMode, rec: Recurrence, r: Rule)
    requires DistinctKeys(def.lines) && r in def.rules
    ensures SumBy(Discounts(def, cfg)(r), SpecInfo(def, cfg, mode, rec)) == InfoReductionIn(def, cfg, mode, rec)(r)
  {
    hide SpecReduction, LineOf, Present, FlatMap, SpecOff, SpecOf, SpecReductionIn;
    DiscountSum(def, cfg, mode, rec, r);
    RuleIds(def, cfg, r);
    var discounts := Discounts(def, cfg)(r);
    if discounts != [] {
      assert discounts == [discounts[0]] && LineIds(discounts)[0] == r.key;
      SumByOne(discounts[0], SpecOf(def, cfg, mode, rec));
      SumByOne(discounts[0], SpecInfo(def, cfg, mode, rec));
    }
  }

  lemma InfoSpecSum(def: Definition, cfg: Configured, mode: RoundingMode, rec: Recurrence)
    requires DistinctKeys(def.lines)
    ensures SumBy(EngineLines(def, cfg), SpecInfo(def, cfg, mode, rec)) == SumBy(def.rules, InfoReductionIn(def, cfg, mode, rec))
  {
    hide SpecInfo, InfoReductionIn, Billed, Displayed, Discounts;
    var g := SpecInfo(def, cfg, mode, rec);
    var billed, displayed, discounts := FlatMap(def.lines, Billed(def, cfg)), FlatMap(def.lines, Displayed(def, cfg)), FlatMap(def.rules, Discounts(def, cfg));
    forall l | l in def.lines
      ensures SumBy(Billed(def, cfg)(l), g) == Nothing()(l) == SumBy(Displayed(def, cfg)(l), g)
    {
      LineInfoIsNothing(def, cfg, mode, rec, l);
    }
    forall r | r in def.rules
      ensures SumBy(Discounts(def, cfg)(r), g) == InfoReductionIn(def, cfg, mode, rec)(r)
    {
      RuleInfoSum(def, cfg, mode, rec, r);
    }
    SumOfFlatMap(def.lines, Billed(def, cfg), g, Nothing());
    SumOfFlatMap(def.lines, Displayed(def, cfg), g, Nothing());
    SumByZero(def.lines, Nothing());
    SumOfFlatMap(def.rules, Discounts(def, cfg), g, InfoReductionIn(def, cfg, mode, rec));
    SumByAppend(billed + displayed, discounts, g);
    SumByAppend(billed, displayed, g);
  }

  lemma FirstInfoSum(def: Definition, cfg: Configured, ctx: Ctx, rec: Recurrence)
    requires ProposalCtx(ctx) && DistinctKeys(def.lines) && PriceLines(EngineLines(def, cfg), ctx).Ok?
    ensures SumBy(PriceLines(EngineLines(def, cfg), ctx).value, InfoHt(def, rec))
         == SumBy(def.rules, InfoReductionIn(def, cfg, ctx.settings.rounding, rec))
  {
    hide PriceLines, EngineLines, SpecInfo, InfoReductionIn, InfoHt, ProposalCtx, DistinctKeys;
    var lines, priced := EngineLines(def, cfg), PriceLines(EngineLines(def, cfg), ctx).value;
    PricedLength(lines, ctx);
    forall i | 0 <= i < |lines|
      ensures InfoHt(def, rec)(priced[i]) == SpecInfo(def, cfg, ctx.settings.rounding, rec)(lines[i])
    {
      InfoAsSpecified(def, cfg, ctx, rec, i);
    }
    SumByPointwise(priced, lines, InfoHt(def, rec), SpecInfo(def, cfg, ctx.settings.rounding, rec));
    InfoSpecSum(def, cfg, ctx.settings.rounding, rec);
  }

  lemma ComplementInfo(p: PricedLine, def: Definition, missing: int, rec: Recurrence)
    requires MinimumOf(def.rules).Some? && IsCents(p, MinimumOf(def.rules).value.key, 1, missing, MONTHLY)
    ensures InfoHt(def, rec)(p) == if rec == MONTHLY && InfoKey(MinimumOf(def.rules).value.key, def) then missing else 0
  {
    hide LineOf, MinimumOf;
    assert IsInfo(p, def) == InfoKey(MinimumOf(def.rules).value.key, def);
    assert HtOf(rec)(p) == if rec == MONTHLY then missing else 0;
    assert InfoHt(def, rec)(p) == if IsInfo(p, def) then HtOf(rec)(p) else 0;
  }

  /** What the quote charges under the keys of information lines is what the model says. */
  lemma InfoChargeIsExact(def: Definition, cfg: Configured, opts: QuoteOptions, rec: Recurrence)
    requires TwoPricings(def, cfg, opts) && DistinctKeys(def.lines)
    ensures SumBy(PriceProposal(def, cfg, opts).value.1.lines, InfoHt(def, rec)) == InfoChargeIn(def, cfg, SettingsOf(opts).rounding, rec)
  {
    hide PriceProposal, FirstLines, InfoHt, InfoReductionIn, InfoKey, SumBy, DistinctKeys, ResolveSettings, MinimumOf, IsCents, TotalsOf;
    hide PriceLines, EngineLines, ContextAt, ProposalCtx, Justified, SpecIn, SpecReductionIn, PricesLine, PricesRule, IsQuoted, SpecTargets;
    FinalLines(def, cfg, opts);
    FirstPricingRefinesCents(def, cfg, opts);
    var first, result := FirstLines(def, cfg, opts).value, PriceProposal(def, cfg, opts).value.1;
    FirstInfo(def, cfg, opts, rec);
    var missing := Missing(def, SpecTotal(def, cfg, SettingsOf(opts).rounding, MONTHLY));
    assert SumBy(first, HtOf(MONTHLY)) == SpecTotal(def, cfg, SettingsOf(opts).rounding, MONTHLY);
    if missing != 0 {
      var p := result.lines[|first|];
      SumByAppend(first, [p], InfoHt(def, rec));
      SumByOne(p, InfoHt(def, rec));
      ComplementInfo(p, def, missing, rec);
    }
  }

  lemma FirstInfo(def: Definition, cfg: Configured, opts: QuoteOptions, rec: Recurrence)
    requires ResolveSettings(opts.settings).Ok? && ResolveSettings(opts.settings).value.unitPriceScale >= 2
    requires DistinctKeys(def.lines) && FirstLines(def, cfg, opts).Ok?
    ensures SumBy(FirstLines(def, cfg, opts).value, InfoHt(def, rec)) == SumBy(def.rules, InfoReductionIn(def, cfg, SettingsOf(opts).rounding, rec))
  {
    hide PriceLines, EngineLines, InfoHt, InfoReductionIn, SumBy, DistinctKeys, ResolveSettings;
    var ctx := ContextAt(opts, opts.date, SettingsOf(opts));
    ContextIsBare(opts, opts.date, SettingsOf(opts));
    hide ContextAt;
    FirstInfoSum(def, cfg, ctx, rec);
  }

  // ------------------------------------------------------------------------ the buckets

  lemma BucketLeavesInfo(result: PricingResult, def: Definition, rec: Recurrence)
    ensures BucketFor(result, def, rec).htCents == SumBy(result.lines, HtOf(rec)) - SumBy(result.lines, InfoHt(def, rec))
  {
    hide BucketFor, IsInfo;
    BucketSum(result, def, rec);
    SumByPlus(result.lines, SelectableAmount(def, rec), InfoHt(def, rec), HtOf(rec));
  }

  function BucketIn(q: ProposalQuote, rec: Recurrence): ProposalBucket {
    match rec
    case ONE_OFF => q.oneTime
    case MONTHLY => q.monthly
    case QUARTERLY => q.quarterly
    case YEARLY => q.yearly
  }

  function TotalIn(t: PricingTotals, rec: Recurrence): int {
    match rec
    case ONE_OFF => t.oneOffCents
    case MONTHLY => t.monthlyLinesCents
    case QUARTERLY => t.quarterlyLinesCents
    case YEARLY => t.yearlyLinesCents
  }

  lemma TotalIsSum(lines: seq<PricedLine>, mode: RoundingMode, rec: Recurrence)
    ensures TotalIn(TotalsOf(lines, mode), rec) == SumBy(lines, HtOf(rec))
    ensures var t := TotalsOf(lines, mode); t.htCents == t.oneOffCents + t.monthlyLinesCents + t.quarterlyLinesCents + t.yearlyLinesCents
  {
    hide Grouped, Breakdowns, Normalised;
    RecurrencesHoldEverything(lines);
  }

  lemma QuoteTotals(def: Definition, sel: SelectionInput, opts: QuoteOptions)
    requires Quotes(def, sel, opts)
    ensures QuoteProposal(def, sel, opts).Ok? && QuoteProposal(def, sel, opts).value.engineResult.Some?
    ensures var t := ResultOf(def, sel, opts).totals;
            t.htCents == t.oneOffCents + t.monthlyLinesCents + t.quarterlyLinesCents + t.yearlyLinesCents
  {
    hide Configure, QuoteProposal, PriceProposal, DistinctKeys, Quotable, Priceable, ResolveSettings, TotalsOf, PricedQuote;
    QuoteIsPriced(def, sel, opts);
    ResultTotals(def, Configure(def, sel), opts);
    var result := ResultOf(def, sel, opts);
    TotalIsSum(result.lines, result.settings.rounding, MONTHLY);
  }

  /**
   * Each bucket of a quote is the total of its recurrence less what is charged under the keys of information
   * lines, and the four add up to the HT exactly when that charge is nothing over all.
   */
  lemma BucketsAddUpExactlyWhen(def: Definition, sel: SelectionInput, opts: QuoteOptions)
    requires Quotes(def, sel, opts)
    ensures QuoteProposal(def, sel, opts).Ok? && QuoteProposal(def, sel, opts).value.engineResult.Some?
    ensures var q, t := QuoteProposal(def, sel, opts).value, ResultOf(def, sel, opts).totals;
            var cfg, mode := Configure(def, sel), SettingsOf(opts).rounding;
            && (forall rec: Recurrence :: BucketIn(q, rec).htCents == TotalIn(t, rec) - InfoChargeIn(def, cfg, mode, rec))
            && (q.oneTime.htCents + q.monthly.htCents + q.quarterly.htCents + q.yearly.htCents == t.htCents
                <==> InfoCharge(def, cfg, mode) == 0)
  {
    hide Configure, QuoteProposal, PriceProposal, DistinctKeys, Quotable, Priceable, ResolveSettings, BucketFor, InfoChargeIn, TotalsOf, InfoHt, FlatMap;
    QuoteIsPriced(def, sel, opts);
    var cfg, mode := Configure(def, sel), SettingsOf(opts).rounding;
    var q, result := QuoteProposal(def, sel, opts).value, ResultOf(def, sel, opts);
    ResultTotals(def, cfg, opts);
    forall rec: Recurrence
      ensures BucketIn(q, rec).htCents == TotalIn(result.totals, rec) - InfoChargeIn(def, cfg, mode, rec)
    {
      BucketLeavesInfo(result, def, rec);
      TotalIsSum(result.lines, result.settings.rounding, rec);
      InfoChargeIsExact(def, cfg, opts, rec);
    }
    QuoteTotals(def, sel, opts);
    assert BucketIn(q, ONE_OFF) == q.oneTime && BucketIn(q, MONTHLY) == q.monthly && BucketIn(q, QUARTERLY) == q.quarterly && BucketIn(q, YEARLY) == q.yearly;
  }

  // ------------------------------------------------------------ each information line

  /** No reduction and no complement under the key of an information line. */
  ghost predicate NothingUnderInfo(def: Definition, cfg: Configured, mode: RoundingMode) {
    && (forall r :: r in def.rules && InfoKey(r.key, def) ==> SpecReduction(r, def, cfg, mode) == 0)
    && InfoComplement(def, SpecTotal(def, cfg, mode, MONTHLY)) == 0
  }

  lemma InfoLinesAreFree(def: Definition, sel: SelectionInput, opts: QuoteOptions)
    requires Quotes(def, sel, opts) && NothingUnderInfo(def, Configure(def, sel), SettingsOf(opts).rounding)
    ensures QuoteProposal(def, sel, opts).Ok? && QuoteProposal(def, sel, opts).value.engineResult.Some?
    ensures forall p :: p in ResultOf(def, sel, opts).lines && IsInfo(p, def) ==> p.totalHtCents == 0
  {
    hide Configure, QuoteProposal, Justified, IsInfo, PricesLine, PricesRule, IsQuoted, SpecTargets, Missing, SpecTotal, InfoKey;
    hide DistinctKeys, Quotable, Priceable, ResolveSettings, QuotedKeys, IsCents, NothingUnderInfo;
    QuoteRefinesCents(def, sel, opts);
    var cfg, mode := Configure(def, sel), SettingsOf(opts).rounding;
    forall p | p in ResultOf(def, sel, opts).lines && IsInfo(p, def)
      ensures p.totalHtCents == 0
    {
      if Justified(p, def, cfg, mode) {
        JustifiedInfoIsFree(def, cfg, mode, p);
      } else {
        ComplementIsNotInfo(def, cfg, mode, p);
      }
    }
  }

  lemma ComplementIsNotInfo(def: Definition, cfg: Configured, mode: RoundingMode, p: PricedLine)
    requires NothingUnderInfo(def, cfg, mode) && IsComplement(p, def, SpecTotal(def, cfg, mode, MONTHLY))
    ensures !IsInfo(p, def)
  {
    hide LineOf, MinimumOf, SpecTotal;
  }

  lemma JustifiedInfoIsFree(def: Definition, cfg: Configured, mode: RoundingMode, p: PricedLine)
    requires DistinctKeys(def.lines) && NothingUnderInfo(def, cfg, mode) && Justified(p, def, cfg, mode) && IsInfo(p, def)
    ensures p.totalHtCents == 0
  {
    hide LineOf, SpecTargets, SpecReduction, KeyRecurrence, UnitPriceCents, InfoComplement;
    if l :| l in def.lines && IsQuoted(l, cfg) && PricesLine(p, l, cfg) {
      LineOfOwnKey(def.lines, l);
      assert Units(l, cfg) == 0;
    } else {
      var r :| r in def.rules && PricesRule(p, r, def, cfg, mode);
      assert InfoKey(r.key, def);
    }
  }

  lemma FreeMeansNothing(def: Definition, sel: SelectionInput, opts: QuoteOptions)
    requires Quotes(def, sel, opts)
    requires QuoteProposal(def, sel, opts).Ok? && QuoteProposal(def, sel, opts).value.engineResult.Some?
    requires forall p :: p in ResultOf(def, sel, opts).lines && IsInfo(p, def) ==> p.totalHtCents == 0
    ensures NothingUnderInfo(def, Configure(def, sel), SettingsOf(opts).rounding)
  {
    hide Configure, QuoteProposal, Justified, PricesLine, IsQuoted, SpecTargets, Missing, SpecTotal, LineOf;
    hide DistinctKeys, Quotable, Priceable, ResolveSettings, QuotedKeys, SpecReduction, KeyRecurrence, MinimumOf;
    QuoteRefinesCents(def, sel, opts);
    var cfg, mode := Configure(def, sel), SettingsOf(opts).rounding;
    forall r | r in def.rules && InfoKey(r.key, def)
      ensures SpecReduction(r, def, cfg, mode) == 0
    {
      NoTargetNoReduction(r, def, cfg, mode);
      if SpecTargets(r, cfg) != [] {
        var p :| p in ResultOf(def, sel, opts).lines && PricesRule(p, r, def, cfg, mode);
        assert IsInfo(p, def);
      }
    }
    var monthly := SpecTotal(def, cfg, mode, MONTHLY);
    forall p | p in ResultOf(def, sel, opts).lines && IsComplement(p, def, monthly)
      ensures InfoComplement(def, monthly) == 0
    {
      ComplementUnderInfo(p, def, monthly);
    }
  }

  lemma ComplementUnderInfo(p: PricedLine, def: Definition, monthly: int)
    requires IsComplement(p, def, monthly)
    ensures InfoComplement(def, monthly) == 0 || (IsInfo(p, def) && p.totalHtCents != 0)
  {
    hide LineOf, MinimumOf;
  }

  lemma NoTargetNoReduction(r: Rule, def: Definition, cfg: Configured, mode: RoundingMode)
    ensures SpecTargets(r, cfg) == [] ==> SpecReduction(r, def, cfg, mode) == 0
  {
    hide SpecTargets, Share;
  }

  lemma QuotedInfo(result: PricingResult, def: Definition, cfg: Configured)
    ensures (forall x :: x in FlatMap(result.lines, Quoted(def, cfg, true)) ==> x.totalHtCents == 0)
            <==> (forall p :: p in result.lines && IsInfo(p, def) ==> p.totalHtCents == 0)
  {
    hide IsInfo, StatusOf, ToCents;
    var infos := FlatMap(result.lines, Quoted(def, cfg, true));
    forall p | p in result.lines && IsInfo(p, def)
      ensures QuoteLine(p, def, cfg) in infos
    {
      FlatMapMembers(result.lines, Quoted(def, cfg, true), QuoteLine(p, def, cfg));
      assert QuoteLine(p, def, cfg) in Quoted(def, cfg, true)(p);
    }
    forall x | x in infos
      ensures exists p :: p in result.lines && IsInfo(p, def) && x.totalHtCents == p.totalHtCents
    {
      FlatMapMembers(result.lines, Quoted(def, cfg, true), x);
    }
  }

  /** Information lines are shown at a price and charged nothing exactly when nothing is charged under their keys. */
  lemma QuotedInfoIsFreeExactlyWhen(def: Definition, sel: SelectionInput, opts: QuoteOptions)
    requires Quotes(def, sel, opts)
    ensures QuoteProposal(def, sel, opts).Ok?
    ensures (forall x :: x in QuoteProposal(def, sel, opts).value.infoLines ==> x.totalHtCents == 0)
            <==> NothingUnderInfo(def, Configure(def, sel), SettingsOf(opts).rounding)
  {
    hide Configure, QuoteProposal, PriceProposal, DistinctKeys, Quotable, Priceable, ResolveSettings, IsInfo, BucketFor, NothingUnderInfo, Quoted;
    QuoteIsPriced(def, sel, opts);
    var cfg := Configure(def, sel);
    QuotedInfo(ResultOf(def, sel, opts), def, cfg);
    if NothingUnderInfo(def, cfg, SettingsOf(opts).rounding) {
      InfoLinesAreFree(def, sel, opts);
    }
    if forall p :: p in ResultOf(def, sel, opts).lines && IsInfo(p, def) ==> p.totalHtCents == 0 {
      FreeMeansNothing(def, sel, opts);
    }
  }

  // ------------------------------------------------ definitions whose prices cover their choices

  /** The price of an information line is one figure, or covers every option of the choice it depends on. */
  ghost predicate InfoPricesCover(def: Definition) {
    forall l :: l in def.lines && l.kind == Info && l.pricing.ByChoice? ==>
      exists c :: c in def.choices && c.key == l.pricing.dependsOn && forall o :: o in c.options ==> o.value in l.pricing.byChoice
  }

  lemma CoveredInfoIsPriced(def: Definition, sel: SelectionInput, l: ProposalLine)
    requires InfoPricesCover(def) && Priceable(Configure(def, sel)) && l in def.lines && l.kind == Info
    ensures UnitPriceCents(l, Configure(def, sel).choices).Some?
  {
    hide ResolveChoices, SelectionErrors, RulePasses, BasePass, SetupPass, CheckErrors, CommitmentMonths, ChoiceErrors;
    var cfg := Configure(def, sel);
    ChoiceErrorsFound(def, sel, cfg.choices);
    if l.pricing.ByChoice? {
      var c :| c in def.choices && c.key == l.pricing.dependsOn && forall o :: o in c.options ==> o.value in l.pricing.byChoice;
      assert c.key in cfg.choices && Offers(c, cfg.choices[c.key]);
    }
  }

  lemma PricedInfoIsDisplayed(def: Definition, cfg: Configured, l: ProposalLine) returns (i: nat)
    requires l in def.lines && l.kind == Info && UnitPriceCents(l, cfg.choices).Some?
    ensures |FlatMap(def.lines, BilledKey(cfg))| <= i < |FlatMap(def.lines, BilledKey(cfg)) + FlatMap(def.lines, DisplayedKey(cfg))|
    ensures i < |QuotedKeys(def, cfg)| && QuotedKeys(def, cfg)[i] == l.key
  {
    hide UnitPriceCents, Units, FlatMap;
    var billed, displayed := FlatMap(def.lines, BilledKey(cfg)), FlatMap(def.lines, DisplayedKey(cfg));
    FlatMapMembers(def.lines, DisplayedKey(cfg), l.key);
    assert l.key in DisplayedKey(cfg)(l);
    var d :| 0 <= d < |displayed| && displayed[d] == l.key;
    i := |billed| + d;
  }

  /** A discount under the key of a priced information line would repeat an id. */
  lemma PricedKeyIsTaken(def: Definition, cfg: Configured, l: ProposalLine, r: Rule)
    requires l in def.lines && l.kind == Info && UnitPriceCents(l, cfg.choices).Some? && Distinct(QuotedKeys(def, cfg))
    requires r in def.rules && SpecTargets(r, cfg) != []
    ensures r.key != l.key
  {
    hide UnitPriceCents, Units, SpecTargets, FlatMap;
    var before := FlatMap(def.lines, BilledKey(cfg)) + FlatMap(def.lines, DisplayedKey(cfg));
    var discounts := FlatMap(def.rules, DiscountKey(cfg));
    var i := PricedInfoIsDisplayed(def, cfg, l);
    FlatMapMembers(def.rules, DiscountKey(cfg), r.key);
    assert r.key in DiscountKey(cfg)(r);
    var j :| 0 <= j < |discounts| && discounts[j] == r.key;
    assert QuotedKeys(def, cfg)[|before| + j] == r.key;
  }

  lemma CoveredLeavesNothing(def: Definition, sel: SelectionInput, opts: QuoteOptions)
    requires Quotes(def, sel, opts) && InfoPricesCover(def)
    ensures NothingUnderInfo(def, Configure(def, sel), SettingsOf(opts).rounding)
  {
    hide Configure, QuotedKeys, SpecTargets, Missing, SpecTotal, LineOf, ResolveSettings, SpecReduction, InfoPricesCover;
    hide LineReadable, RuleReadable, UnitPriceCents, Priceable, VatReadable, SumBy;
    var cfg, mode := Configure(def, sel), SettingsOf(opts).rounding;
    forall key | InfoKey(key, def)
      ensures key in QuotedKeys(def, cfg)
      ensures forall r :: r in def.rules && SpecTargets(r, cfg) != [] ==> r.key != key
    {
      LineOfMembers(def.lines, key);
      var l := LineOf(def.lines, key).value;
      CoveredInfoIsPriced(def, sel, l);
      var i := PricedInfoIsDisplayed(def, cfg, l);
      forall r | r in def.rules && SpecTargets(r, cfg) != []
        ensures r.key != key
      {
        PricedKeyIsTaken(def, cfg, l, r);
      }
    }
    forall r | r in def.rules && InfoKey(r.key, def)
      ensures SpecReduction(r, def, cfg, mode) == 0
    {
      NoTargetNoReduction(r, def, cfg, mode);
    }
    assert SpecTotal(def, cfg, mode, MONTHLY) == SpecMonthly(def, cfg, mode) by { MonthlyTotals(def, cfg, mode); }
  }

  lemma MonthlyTotals(def: Definition, cfg: Configured, mode: RoundingMode)
    ensures SpecTotal(def, cfg, mode, MONTHLY) == SpecMonthly(def, cfg, mode)
  {
  }

  /**
   * When prices cover the options of their choice, as the schema of a definition demands: information lines
   * are free, the four buckets add up to the HT to the cent, each being the total of its recurrence, and
   * their VATs, rounded one by one, add up to the overall VAT within two cents.
   */
  lemma BucketsAddUp(def: Definition, sel: SelectionInput, opts: QuoteOptions)
    requires Quotes(def, sel, opts) && InfoPricesCover(def)
    ensures QuoteProposal(def, sel, opts).Ok? && QuoteProposal(def, sel, opts).value.engineResult.Some?
    ensures var q, t := QuoteProposal(def, sel, opts).value, ResultOf(def, sel, opts).totals;
            && (forall x :: x in q.infoLines ==> x.totalHtCents == 0)
            && q.oneTime.htCents + q.monthly.htCents + q.quarterly.htCents + q.yearly.htCents == t.htCents
            && q.oneTime.htCents == t.oneOffCents && q.monthly.htCents == t.monthlyLinesCents
            && q.quarterly.htCents == t.quarterlyLinesCents && q.yearly.htCents == t.yearlyLinesCents
            && -2 <= q.oneTime.vatCents + q.monthly.vatCents + q.quarterly.vatCents + q.yearly.vatCents - t.vatCents <= 2
  {
    hide Configure, QuoteProposal, PriceProposal, DistinctKeys, Quotable, Priceable, ResolveSettings, InfoPricesCover, NothingUnderInfo, IsInfo;
    QuoteIsPriced(def, sel, opts);
    CoveredLeavesNothing(def, sel, opts);
    InfoLinesAreFree(def, sel, opts);
    QuotedInfoIsFreeExactlyWhen(def, sel, opts);
    PricedBucketsAddUp(def, sel, opts);
  }

  // ------------------------------------------- a definition that the schema would refuse

  /** An information line whose price depends on the duration, and is given for none. */
  const UNPRICED := ProposalLine("x", Info, NotBilled, false, None, ByChoice("term", map[]), VALIDATED, None, None)

  const OFF_UNDER_INFO := DiscountPercent("x", "10", ["a"], "a", VALIDATED)

  /** A discount of 10 % on a line at 100 euros a month, under the key of that information line. */
  const UNCOVERED := Definition(
    [Configuration.Choice("term", [ChoiceOption("12", true, Some(12))])],
    [Article("a", Monthly), UNPRICED], [OFF_UNDER_INFO], "20")

  const RETAINED := map["a" := 1.0]

  const TERM := map["term" := "12"]

  lemma UncoveredIncluded()
    ensures var base := BasePass(UNCOVERED.lines, NOTHING_CHOSEN);
            && base == Retained(RETAINED, {})
            && RulePasses(base, UNCOVERED, NOTHING_CHOSEN) == base && SetupPass(UNCOVERED.lines, base.included) == base.included
  {
    var lines := UNCOVERED.lines;
    assert lines[..2] == lines && lines[..2][..1] == lines[..1] && lines[..1][..0] == [];
    assert BasePass(lines[..1], NOTHING_CHOSEN) == Retained(RETAINED, {});
    var base := BasePass(lines, NOTHING_CHOSEN);
    assert UNCOVERED.rules[..|UNCOVERED.rules| - 1] == [];
    assert RequiredPass(UNCOVERED.rules, base, UNCOVERED, NOTHING_CHOSEN) == base;
    assert AutoPass(UNCOVERED.rules, base, UNCOVERED, NOTHING_CHOSEN) == base;
    assert SetupPass(lines[..1], RETAINED) == RETAINED;
  }

  lemma UncoveredChoices()
    ensures ResolveChoices(UNCOVERED, NOTHING_CHOSEN) == TERM
    ensures ChoiceErrors(UNCOVERED, NOTHING_CHOSEN, TERM) == {} && SelectionErrors(UNCOVERED, NOTHING_CHOSEN) == {}
  {
    assert UNCOVERED.choices[0].options[0] in UNCOVERED.choices[0].options;
    assert UNCOVERED.choices[..|UNCOVERED.choices| - 1] == [] && UNCOVERED.rules[..|UNCOVERED.rules| - 1] == [];
    assert Defaults(UNCOVERED.choices) == TERM;
    assert Preselected(UNCOVERED.rules, Defaults(UNCOVERED.choices), NOTHING_CHOSEN) == Defaults(UNCOVERED.choices);
    assert TERM + NOTHING_CHOSEN.choices == TERM;
  }

  lemma UncoveredLines()
    ensures DistinctKeys(UNCOVERED.lines)
    ensures LineOf(UNCOVERED.lines, "a") == Some(Article("a", Monthly)) && LineOf(UNCOVERED.lines, "x") == Some(UNPRICED)
  {
    assert DistinctKeys(UNCOVERED.lines);
    LineOfOwnKey(UNCOVERED.lines, UNCOVERED.lines[0]);
    LineOfOwnKey(UNCOVERED.lines, UNCOVERED.lines[1]);
  }

  lemma UncoveredChecks()
    ensures CheckErrors(UNCOVERED, NOTHING_CHOSEN, RETAINED, TERM) == {}
  {
    hide LineOf;
    UncoveredLines();
    assert IsWhole(1.0);
    forall k | k in RETAINED
      ensures LineErrors(k, UNCOVERED, RETAINED, NOTHING_CHOSEN) == {}
    {
    }
  }

  lemma UncoveredIsErrorFree()
    ensures var cfg := Configure(UNCOVERED, NOTHING_CHOSEN); cfg.errors == {} && cfg.included == RETAINED && cfg.choices == TERM
  {
    hide ResolveChoices, ChoiceErrors, SelectionErrors, BasePass, RulePasses, SetupPass, CheckErrors;
    UncoveredIncluded();
    UncoveredChoices();
    UncoveredChecks();
  }

  lemma UncoveredUnits(cfg: Configured)
    requires cfg.included == RETAINED && cfg.choices == TERM
    ensures Units(Article("a", Monthly), cfg) == 1 && UnitPriceCents(Article("a", Monthly), cfg.choices) == Some(10000)
    ensures Units(UNPRICED, cfg) == 0 && UnitPriceCents(UNPRICED, cfg.choices) == None
    ensures SpecTargets(OFF_UNDER_INFO, cfg) == ["a"]
  {
    UncoveredTargets(cfg);
    hide SpecTargets;
    assert (1.0).Floor == 1 && ValidQuantity(1.0);
  }

  lemma UncoveredTargets(cfg: Configured)
    requires cfg.included == RETAINED
    ensures SpecTargets(OFF_UNDER_INFO, cfg) == ["a"]
  {
    hide FlatMap;
    FlatMapOne("a", Present(cfg));
    assert Present(cfg)("a") == ["a"];
  }

  lemma UncoveredKeys(cfg: Configured)
    requires cfg.included == RETAINED && cfg.choices == TERM
    ensures QuotedKeys(UNCOVERED, cfg) == ["a", "x"]
  {
    hide Units, UnitPriceCents, SpecTargets, FlatMap;
    UncoveredUnits(cfg);
    FlatMapTwo(Article("a", Monthly), UNPRICED, BilledKey(cfg));
    FlatMapTwo(Article("a", Monthly), UNPRICED, DisplayedKey(cfg));
    FlatMapOne(OFF_UNDER_INFO, DiscountKey(cfg));
  }

  lemma TenParses()
    ensures ParseDecimal("10", 4, false) == Ok(10.0)
  {
    assert NatText(10) == "10" by {
      assert NatText(1) == "1";
    }
    assert Pow10(MAX_INTEGER_DIGITS) >= 100 by {
      Pow10Grows(2, MAX_INTEGER_DIGITS);
    }
    hide ParseDecimal, NatText, Pow10;
    NatTextParses(10, 4, false);
  }

  lemma UncoveredIsQuotable(cfg: Configured, mode: RoundingMode)
    requires cfg.included == RETAINED && cfg.choices == TERM
    ensures Quotable(UNCOVERED, cfg, mode)
  {
    hide QuotedKeys, Units, UnitPriceCents, SpecTargets, VatReadable, ParseDecimal, KeyRecurrence, SumBy, SpecMonthly;
    UncoveredUnits(cfg);
    UncoveredKeys(cfg);
    MixedTexts();
    TenParses();
    NoMinimumHere();
  }

  lemma UncoveredReduction(cfg: Configured, mode: RoundingMode)
    requires cfg.included == RETAINED && cfg.choices == TERM
    ensures SpecReduction(OFF_UNDER_INFO, UNCOVERED, cfg, mode) == -1000
    ensures KeyRecurrence("a", UNCOVERED) == MONTHLY && InfoKey("x", UNCOVERED)
  {
    hide Units, UnitPriceCents, SpecTargets, ParseDecimal, LineOf;
    UncoveredUnits(cfg);
    UncoveredLines();
    TenParses();
    SumByOne("a", AmountOfKey(UNCOVERED, cfg));
    assert AmountOfKey(UNCOVERED, cfg)("a") == 10000;
    assert Percent(OFF_UNDER_INFO) == 10.0;
    assert Share(10000, 10.0, mode) == 1000;
  }

  lemma UncoveredCharge(cfg: Configured, mode: RoundingMode)
    requires cfg.included == RETAINED && cfg.choices == TERM
    ensures InfoChargeIn(UNCOVERED, cfg, mode, MONTHLY) == -1000 == InfoCharge(UNCOVERED, cfg, mode)
  {
    hide SpecTargets, SpecReduction, KeyRecurrence, InfoKey, SpecTotal, SpecReductionIn;
    UncoveredUnits(cfg);
    UncoveredReduction(cfg, mode);
    NoMinimumHere();
    forall rec: Recurrence
      ensures InfoChargeIn(UNCOVERED, cfg, mode, rec) == if rec == MONTHLY then -1000 else 0
    {
      SpecReductionOfRule(UNCOVERED, cfg, mode, rec, OFF_UNDER_INFO);
      SumByOne(OFF_UNDER_INFO, InfoReductionIn(UNCOVERED, cfg, mode, rec));
    }
  }

  lemma UncoveredTotals(cfg: Configured, mode: RoundingMode, rec: Recurrence)
    requires cfg.included == RETAINED && cfg.choices == TERM
    ensures SpecTotal(UNCOVERED, cfg, mode, rec) == if rec == MONTHLY then 9000 else 0
  {
    hide Units, UnitPriceCents, SpecTargets, SpecReduction, KeyRecurrence, SpecReductionIn;
    UncoveredUnits(cfg);
    UncoveredReduction(cfg, mode);
    var lines := UNCOVERED.lines;
    assert lines[..2] == lines && lines[..2][..1] == lines[..1] && lines[..1][..0] == [];
    assert SumBy(lines[..1], SpecIn(cfg, rec)) == SpecIn(cfg, rec)(lines[0]);
    SpecReductionOfRule(UNCOVERED, cfg, mode, rec, OFF_UNDER_INFO);
    SumByOne(OFF_UNDER_INFO, SpecReductionIn(UNCOVERED, cfg, mode, rec));
  }

  lemma UncoveredQuotes(opts: QuoteOptions)
    requires Dated(opts)
    ensures Quotes(UNCOVERED, NOTHING_CHOSEN, opts)
  {
    hide Configure, Quotable, ResolveSettings;
    UncoveredIsErrorFree();
    UncoveredLines();
    ErrorFreeIsPriceable(UNCOVERED, NOTHING_CHOSEN);
    UncoveredIsQuotable(Configure(UNCOVERED, NOTHING_CHOSEN), SettingsOf(opts).rounding);
  }

  lemma UncoveredBuckets(q: ProposalQuote, t: PricingTotals, cfg: Configured, mode: RoundingMode)
    requires cfg.included == RETAINED && cfg.choices == TERM
    requires forall rec: Recurrence :: BucketIn(q, rec).htCents == TotalIn(t, rec) - InfoChargeIn(UNCOVERED, cfg, mode, rec)
    requires && t.monthlyLinesCents == SpecTotal(UNCOVERED, cfg, mode, MONTHLY) && t.quarterlyLinesCents == SpecTotal(UNCOVERED, cfg, mode, QUARTERLY)
             && t.yearlyLinesCents == SpecTotal(UNCOVERED, cfg, mode, YEARLY) && t.oneOffCents == SpecTotal(UNCOVERED, cfg, mode, ONE_OFF)
    requires t.htCents == t.oneOffCents + t.monthlyLinesCents + t.quarterlyLinesCents + t.yearlyLinesCents
    ensures q.monthly.htCents == 10000 && t.monthlyLinesCents == 9000 == t.htCents
  {
    hide SpecTotal, InfoChargeIn, InfoCharge;
    UncoveredCharge(cfg, mode);
    forall rec: Recurrence
      ensures SpecTotal(UNCOVERED, cfg, mode, rec) == if rec == MONTHLY then 9000 else 0
    {
      UncoveredTotals(cfg, mode, rec);
    }
    assert TotalIn(t, MONTHLY) == t.monthlyLinesCents && BucketIn(q, MONTHLY) == q.monthly;
  }

  /** Without a minimum, the recurrences total what the lines and the discounts bring. */
  lemma TotalsWithoutMinimum(def: Definition, sel: SelectionInput, opts: QuoteOptions)
    requires Quotes(def, sel, opts) && MinimumOf(def.rules).None?
    ensures QuoteProposal(def, sel, opts).Ok? && QuoteProposal(def, sel, opts).value.engineResult.Some?
    ensures var t, cfg, mode := ResultOf(def, sel, opts).totals, Configure(def, sel), SettingsOf(opts).rounding;
            && t.monthlyLinesCents == SpecTotal(def, cfg, mode, MONTHLY) && t.quarterlyLinesCents == SpecTotal(def, cfg, mode, QUARTERLY)
            && t.yearlyLinesCents == SpecTotal(def, cfg, mode, YEARLY) && t.oneOffCents == SpecTotal(def, cfg, mode, ONE_OFF)
  {
    hide *;
    MinimumIsReachedExactly(def, sel, opts);
  }

  lemma UncoveredIsUncovered()
    ensures !InfoPricesCover(UNCOVERED)
  {
    assert UNPRICED in UNCOVERED.lines by {
      assert UNCOVERED.lines[1] == UNPRICED;
    }
    forall c | c in UNCOVERED.choices
      ensures exists o :: o in c.options && o.value !in UNPRICED.pricing.byChoice
    {
      assert c.options[0] in c.options;
    }
  }

  /**
   * A definition that nothing re-validates, quoted without any error: the discount of 10 euros goes to the
   * information lines, so that the monthly bucket says 100 euros where the HT is 90.
   */
  lemma UncoveredInfoTakesTheDiscount(opts: QuoteOptions)
    requires Dated(opts)
    ensures !InfoPricesCover(UNCOVERED) && Configure(UNCOVERED, NOTHING_CHOSEN).errors == {}
    ensures QuoteProposal(UNCOVERED, NOTHING_CHOSEN, opts).Ok?
    ensures QuoteProposal(UNCOVERED, NOTHING_CHOSEN, opts).value.engineResult.Some?
    ensures var q, t := QuoteProposal(UNCOVERED, NOTHING_CHOSEN, opts).value, ResultOf(UNCOVERED, NOTHING_CHOSEN, opts).totals;
            q.monthly.htCents == 10000 && t.monthlyLinesCents == 9000 && t.htCents == 9000
  {
    hide *;
    UncoveredIsUncovered();
    UncoveredIsErrorFree();
    UncoveredQuotes(opts);
    NoMinimumHere();
    DatedHasSettings(opts);
    var cfg, mode := Configure(UNCOVERED, NOTHING_CHOSEN), SettingsOf(opts).rounding;
    BucketsAddUpExactlyWhen(UNCOVERED, NOTHING_CHOSEN, opts);
    TotalsWithoutMinimum(UNCOVERED, NOTHING_CHOSEN, opts);
    QuoteTotals(UNCOVERED, NOTHING_CHOSEN, opts);
    UncoveredBuckets(QuoteProposal(UNCOVERED, NOTHING_CHOSEN, opts).value, ResultOf(UNCOVERED, NOTHING_CHOSEN, opts).totals, cfg, mode);
  }

  lemma DatedHasSettings(opts: QuoteOptions)
    requires Dated(opts)
    ensures ResolveSettings(opts.settings).Ok?
  {
  }

  lemma NoMinimumHere()
    ensures MinimumOf(UNCOVERED.rules) == None
  {
    assert UNCOVERED.rules[1..] == [];
  }
}

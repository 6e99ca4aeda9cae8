/**
 * What a quote promises (packages/pricing/src/proposal.ts, `quoteProposal`), on the exact condition under
 * which there is one, and a configuration without errors that has none.
 */
module ProposalQuotes {
  import opened Outcomes
  import opened Sums
  import opened Money
  import opened DecimalText
  import opened Calendar
  import opened PricingTypes
  import opened Totals
  import opened Engine
  import opened EngineLocality
  import opened Configuration
  import opened ConfigurationFacts
  import opened Proposals
  import opened ProposalLines
  import opened ProposalFacts
  import opened ProposalGuarantees
  import opened ProposalSuccess
  import opened DiscountBalance

  /** What a caller can check before asking for a quote; `QuotedExactlyWhen` says that nothing is missing. */
  ghost predicate Quotes(def: Definition, sel: SelectionInput, opts: QuoteOptions) {
    && DistinctKeys(def.lines) && Dated(opts) && Priceable(Configure(def, sel))
    && Quotable(def, Configure(def, sel), SettingsOf(opts).rounding)
  }

  /** The quote and the pricing it comes from. */
  lemma QuoteIsPriced(def: Definition, sel: SelectionInput, opts: QuoteOptions)
    requires Quotes(def, sel, opts)
    ensures TwoPricings(def, Configure(def, sel), opts) && QuoteProposal(def, sel, opts).Ok?
    ensures var quote, priced := QuoteProposal(def, sel, opts).value, PriceProposal(def, Configure(def, sel), opts).value;
            quote == PricedQuote(def, Configure(def, sel), priced.0, priced.1)
    ensures QuoteProposal(def, sel, opts).value.engineResult == Some(PriceProposal(def, Configure(def, sel), opts).value.1)
  {
    hide Configure, PriceProposal, Quotable, Priceable, ResolveSettings, BucketFor, FlatMap, DistinctKeys, Usable;
    PriceableIsUsable(def, sel);
    PricedExactlyWhenQuotable(def, Configure(def, sel), opts);
  }

  function ResultOf(def: Definition, sel: SelectionInput, opts: QuoteOptions): PricingResult
    requires QuoteProposal(def, sel, opts).Ok? && QuoteProposal(def, sel, opts).value.engineResult.Some?
  {
    QuoteProposal(def, sel, opts).value.engineResult.value
  }

  /** The total of a recurrence before any minimum, in cents. */
  function SpecTotal(def: Definition, cfg: Configured, mode: RoundingMode, rec: Recurrence): int {
    SumBy(def.lines, SpecIn(cfg, rec)) + SumBy(def.rules, SpecReductionIn(def, cfg, mode, rec))
  }

  /** The complement of the monthly minimum: exactly what is missing, once a month. */
  ghost predicate IsComplement(p: PricedLine, def: Definition, monthly: int) {
    Missing(def, monthly) != 0 && IsCents(p, MinimumOf(def.rules).value.key, 1, Missing(def, monthly), MONTHLY)
  }

  /**
   * A quote refines a specification in whole cents: retained and displayed lines at exactly unit cents x
   * units, discounts minus their share rounded once, the complement when one is missing; all of them and
   * nothing else.
   */
  lemma QuoteRefinesCents(def: Definition, sel: SelectionInput, opts: QuoteOptions)
    requires Quotes(def, sel, opts)
    ensures QuoteProposal(def, sel, opts).Ok? && QuoteProposal(def, sel, opts).value.engineResult.Some?
    ensures var lines, cfg, mode := ResultOf(def, sel, opts).lines, Configure(def, sel), SettingsOf(opts).rounding;
            var monthly := SpecTotal(def, cfg, mode, MONTHLY);
            && (forall p :: p in lines ==> Justified(p, def, cfg, mode) || IsComplement(p, def, monthly))
            && (forall l :: l in def.lines && IsQuoted(l, cfg) ==> exists p :: p in lines && PricesLine(p, l, cfg))
            && (forall r :: r in def.rules && SpecTargets(r, cfg) != [] ==> exists p :: p in lines && PricesRule(p, r, def, cfg, mode))
            && (Missing(def, monthly) != 0 ==> exists p :: p in lines && IsComplement(p, def, monthly))
            && |lines| == |QuotedKeys(def, cfg)| + (if Missing(def, monthly) != 0 then 1 else 0)
  {
    hide Configure, QuoteProposal, PriceProposal, FirstLines, Justified, PricesLine, PricesRule, IsQuoted, SpecTargets, IsCents, Missing;
    hide SpecIn, SpecReductionIn, SumBy, DistinctKeys, Quotable, Priceable, TotalsOf, ResolveSettings, MinimumOf;
    QuoteIsPriced(def, sel, opts);
    var cfg := Configure(def, sel);
    FirstPricingRefinesCents(def, cfg, opts);
    FinalLines(def, cfg, opts);
    FirstLength(def, cfg, opts);
    var first, lines := FirstLines(def, cfg, opts).value, ResultOf(def, sel, opts).lines;
    var missing := Missing(def, SpecTotal(def, cfg, SettingsOf(opts).rounding, MONTHLY));
    assert SumBy(first, HtOf(MONTHLY)) == SpecTotal(def, cfg, SettingsOf(opts).rounding, MONTHLY);
    assert forall p :: p in first ==> p in lines;
    if missing != 0 {
      assert lines[|first|] in lines && IsComplement(lines[|first|], def, SpecTotal(def, cfg, SettingsOf(opts).rounding, MONTHLY));
    }
  }

  lemma FirstLength(def: Definition, cfg: Configured, opts: QuoteOptions)
    requires ResolveSettings(opts.settings).Ok? && FirstLines(def, cfg, opts).Ok?
    ensures |FirstLines(def, cfg, opts).value| == |QuotedKeys(def, cfg)|
  {
    hide PriceLines, EngineLines, ResolveSettings, QuotedKeys;
    PricedLength(EngineLines(def, cfg), ContextAt(opts, opts.date, SettingsOf(opts)));
    KeysAreIds(def, cfg);
  }

  /**
   * The monthly total ends at exactly the larger of what the lines and discounts bring and the minimum; the
   * other recurrences are what they bring, and the second pricing changes no line of the first.
   */
  lemma MinimumIsReachedExactly(def: Definition, sel: SelectionInput, opts: QuoteOptions)
    requires Quotes(def, sel, opts)
    ensures QuoteProposal(def, sel, opts).Ok? && QuoteProposal(def, sel, opts).value.engineResult.Some?
    ensures FirstLines(def, Configure(def, sel), opts).Ok?
    ensures var result, cfg, mode := ResultOf(def, sel, opts), Configure(def, sel), SettingsOf(opts).rounding;
            var first := FirstLines(def, cfg, opts).value;
            var monthly, minimum := SpecTotal(def, cfg, mode, MONTHLY), MinimumOf(def.rules);
            && |first| <= |result.lines| && result.lines[..|first|] == first
            && result.totals.monthlyLinesCents
               == (if minimum.Some? && minimum.value.amountCents > monthly then minimum.value.amountCents else monthly)
            && result.totals.quarterlyLinesCents == SpecTotal(def, cfg, mode, QUARTERLY)
            && result.totals.yearlyLinesCents == SpecTotal(def, cfg, mode, YEARLY)
            && result.totals.oneOffCents == SpecTotal(def, cfg, mode, ONE_OFF)
  {
    hide Configure, QuoteProposal, PriceProposal, FirstLines, SpecIn, SpecReductionIn, SumBy, DistinctKeys, Quotable, Priceable, TotalsOf;
    hide ResolveSettings, MinimumOf, Justified, PricesLine, PricesRule, IsQuoted, SpecTargets, IsCents;
    QuoteIsPriced(def, sel, opts);
    FirstPricingRefinesCents(def, Configure(def, sel), opts);
    SecondPricingReachesMinimum(def, Configure(def, sel), opts);
  }

  /** Every line a client is shown, charged or not, has for total its shown unit price times its shown quantity. */
  lemma ShownAsCharged(def: Definition, sel: SelectionInput, opts: QuoteOptions)
    requires Quotes(def, sel, opts)
    ensures QuoteProposal(def, sel, opts).Ok?
    ensures var quote := QuoteProposal(def, sel, opts).value;
            && |quote.lines| + |quote.infoLines| == |ResultOf(def, sel, opts).lines|
            && forall x :: x in quote.lines + quote.infoLines ==> ShownExactly(x)
  {
    hide Configure, QuoteProposal, PriceProposal, DistinctKeys, Quotable, Priceable, ResolveSettings, IsInfo, BucketFor, ShownExactly, QuoteLine;
    QuoteIsPriced(def, sel, opts);
    var cfg := Configure(def, sel);
    ResultIsShown(def, cfg, opts);
    var result, quote := PriceProposal(def, cfg, opts).value.1, QuoteProposal(def, sel, opts).value;
    TwoSides(result.lines, def, cfg);
    forall x | x in quote.lines + quote.infoLines
      ensures ShownExactly(x)
    {
      FlatMapMembers(result.lines, Quoted(def, cfg, false), x);
      FlatMapMembers(result.lines, Quoted(def, cfg, true), x);
    }
  }

  lemma {:induction false} TwoSides(lines: seq<PricedLine>, def: Definition, cfg: Configured)
    ensures |FlatMap(lines, Quoted(def, cfg, false))| + |FlatMap(lines, Quoted(def, cfg, true))| == |lines|
  {
    hide IsInfo, QuoteLine;
    if lines != [] {
      TwoSides(lines[..|lines| - 1], def, cfg);
    }
  }

  /** The total over the commitment adds up with its tax, and cuts no quarter or year unless it says so. */
  lemma CommitmentIsExact(def: Definition, sel: SelectionInput, opts: QuoteOptions)
    requires Quotes(def, sel, opts)
    ensures QuoteProposal(def, sel, opts).Ok?
    ensures var q := QuoteProposal(def, sel, opts).value;
            && q.commitment.ttcCents == q.commitment.htCents + q.commitment.vatCents
            && (DurationNotQuarterly !in q.errors && DurationNotYearly !in q.errors ==>
                  12 * q.commitment.htCents
                  == q.commitmentMonths * (12 * q.monthly.htCents + 4 * q.quarterly.htCents + q.yearly.htCents))
  {
    hide Configure, QuoteProposal, PriceProposal, DistinctKeys, Quotable, Priceable, ResolveSettings;
    QuoteIsPriced(def, sel, opts);
    CommitmentAddsUp(def, sel, opts);
  }

  /**
   * Displayed price, frozen price, first schedule of the contract: priced again at any later date, the
   * schedule of the quote gives the same lines, traces included, and the same totals.
   */
  lemma FrozenScheduleKeepsItsPrice(def: Definition, sel: SelectionInput, opts: QuoteOptions, later: Day)
    requires Quotes(def, sel, opts) && ValidDay(later) && opts.date <= later
    ensures QuoteProposal(def, sel, opts).Ok? && QuoteProposal(def, sel, opts).value.engineResult.Some?
    ensures var quote := QuoteProposal(def, sel, opts).value;
            && quote.engineSchedule.Some?
            && PriceAt(InputOf(quote.engineSchedule.value, opts.settings), later) == Ok(quote.engineResult.value.(date := later))
  {
    hide Configure, QuoteProposal, PriceProposal, DistinctKeys, Quotable, Priceable, ResolveSettings, PriceAt, ValidDay;
    QuoteIsPriced(def, sel, opts);
    FrozenScheduleIsTimeless(def, sel, opts, later);
  }

  // ---------------------------------- an error-free configuration that cannot be priced

  const ONE_TO_TEN := QuantityBounds(Number(1.0), 1.0, Some(10.0), None, None, true)

  function Article(key: string, billing: Billing): ProposalLine {
    ProposalLine(key, Required, billing, false, Some(ONE_TO_TEN), OnePrice(10000), VALIDATED, None, None)
  }

  const TEN_PERCENT := DiscountPercent("d", "10", ["a", "b"], "a", VALIDATED)

  /** A discount over a monthly and a yearly line: the schema of a definition accepts it. */
  const MIXED := Definition(
    [Configuration.Choice("term", [ChoiceOption("12", true, Some(12))])],
    [Article("a", Monthly), Article("b", Yearly)], [TEN_PERCENT], "20")

  lemma MixedIncluded()
    ensures var base := BasePass(MIXED.lines, NOTHING_CHOSEN);
            && base == Retained(map["a" := 1.0, "b" := 1.0], {})
            && RulePasses(base, MIXED, NOTHING_CHOSEN) == base && SetupPass(MIXED.lines, base.included) == base.included
  {
    var lines := MIXED.lines;
    assert lines[..2] == lines && lines[..2][..1] == lines[..1] && lines[..1][..0] == [];
    assert BasePass(lines[..1], NOTHING_CHOSEN) == Retained(map["a" := 1.0], {});
    var base := BasePass(lines, NOTHING_CHOSEN);
    assert MIXED.rules[..|MIXED.rules| - 1] == [];
    assert RequiredPass(MIXED.rules, base, MIXED, NOTHING_CHOSEN) == base;
    assert AutoPass(MIXED.rules, base, MIXED, NOTHING_CHOSEN) == base;
  }

  lemma MixedChoices()
    ensures ResolveChoices(MIXED, NOTHING_CHOSEN) == map["term" := "12"]
    ensures ChoiceErrors(MIXED, NOTHING_CHOSEN, map["term" := "12"]) == {} && SelectionErrors(MIXED, NOTHING_CHOSEN) == {}
  {
    assert MIXED.choices[0].options[0] in MIXED.choices[0].options;
    assert MIXED.choices[..|MIXED.choices| - 1] == [] && MIXED.rules[..|MIXED.rules| - 1] == [];
    assert Defaults(MIXED.choices) == map["term" := "12"];
    assert Preselected(MIXED.rules, Defaults(MIXED.choices), NOTHING_CHOSEN) == Defaults(MIXED.choices);
    assert map["term" := "12"] + NOTHING_CHOSEN.choices == map["term" := "12"];
  }

  lemma MixedLines()
    ensures DistinctKeys(MIXED.lines)
    ensures LineOf(MIXED.lines, "a") == Some(Article("a", Monthly)) && LineOf(MIXED.lines, "b") == Some(Article("b", Yearly))
  {
    assert DistinctKeys(MIXED.lines);
    LineOfOwnKey(MIXED.lines, MIXED.lines[0]);
    LineOfOwnKey(MIXED.lines, MIXED.lines[1]);
  }

  lemma MixedChecks(included: map<string, real>)
    requires included == map["a" := 1.0, "b" := 1.0]
    ensures CheckErrors(MIXED, NOTHING_CHOSEN, included, map["term" := "12"]) == {}
  {
    hide LineOf;
    MixedLines();
    assert IsWhole(1.0);
    forall k | k in included
      ensures LineErrors(k, MIXED, included, NOTHING_CHOSEN) == {}
    {
    }
  }

  lemma MixedIsErrorFree()
    ensures Configure(MIXED, NOTHING_CHOSEN).errors == {} && Configure(MIXED, NOTHING_CHOSEN).included == map["a" := 1.0, "b" := 1.0]
  {
    hide ResolveChoices, ChoiceErrors, SelectionErrors, BasePass, RulePasses, SetupPass, CheckErrors;
    MixedIncluded();
    MixedChoices();
    MixedChecks(map["a" := 1.0, "b" := 1.0]);
  }

  lemma MixedTargets(cfg: Configured)
    requires cfg.included == map["a" := 1.0, "b" := 1.0]
    ensures SpecTargets(TEN_PERCENT, cfg) == ["a", "b"]
  {
    var keys := ["a", "b"];
    assert keys[..2] == keys && keys[..2][..1] == ["a"] && ["a"][..0] == [];
    assert FlatMap(["a"], Present(cfg)) == ["a"];
  }

  lemma FlatMapTwo<T, U>(x: T, y: T, f: T -> seq<U>)
    ensures FlatMap([x, y], f) == f(x) + f(y)
  {
    assert [x, y][..1] == [x];
    FlatMapOne(x, f);
  }

  lemma MixedEngineLines(cfg: Configured)
    requires cfg.included == map["a" := 1.0, "b" := 1.0]
    ensures EngineLines(MIXED, cfg)
         == [EngineLine(Article("a", Monthly), 1, 10000, MIXED, cfg), EngineLine(Article("b", Yearly), 1, 10000, MIXED, cfg)]
            + Discounts(MIXED, cfg)(TEN_PERCENT)
    ensures |Discounts(MIXED, cfg)(TEN_PERCENT)| == 1
  {
    hide EngineLine, FlatMap, Present;
    MixedTargets(cfg);
    assert (1.0).Floor == 1 && ValidQuantity(1.0);
    FlatMapTwo(Article("a", Monthly), Article("b", Yearly), Billed(MIXED, cfg));
    FlatMapTwo(Article("a", Monthly), Article("b", Yearly), Displayed(MIXED, cfg));
    FlatMapOne(TEN_PERCENT, Discounts(MIXED, cfg));
  }

  lemma MixedTexts()
    ensures VatReadable("20") && Readable(1, 10000)
  {
    TwoTexts();
    HundredIsReadable();
  }

  lemma MixedRegularPass(cfg: Configured, ctx: Ctx)
    requires ProposalCtx(ctx) && cfg.included == map["a" := 1.0, "b" := 1.0]
    ensures Distinct(LineIds(EngineLines(MIXED, cfg))) && RegularPass(EngineLines(MIXED, cfg), ctx).Ok?
  {
    hide EngineLines, RegularPass, VatReadable, Readable, EngineLine, Discounts;
    MixedEngineLines(cfg);
    MixedTargets(cfg);
    EngineLineKey(Article("a", Monthly), 1, 10000, MIXED, cfg);
    EngineLineKey(Article("b", Yearly), 1, 10000, MIXED, cfg);
    RuleIds(MIXED, cfg, TEN_PERCENT);
    assert DiscountKey(cfg)(TEN_PERCENT) == ["d"];
    var discounts := Discounts(MIXED, cfg)(TEN_PERCENT);
    assert discounts[0].id == LineIds(discounts)[0] == "d";
    assert LineIds(EngineLines(MIXED, cfg)) == ["a", "b", "d"];
    MixedTexts();
    assert (1.0).Floor == 1 && ValidQuantity(1.0);
    forall l | l in MIXED.lines && IsQuoted(l, cfg)
      ensures VatReadable(MIXED.vat) && LineReadable(l, cfg)
    {
    }
    RegularLinesReadable(MIXED, cfg, ctx);
  }

  lemma MixedIsMismatched(cfg: Configured, ctx: Ctx)
    requires ProposalCtx(ctx) && cfg.included == map["a" := 1.0, "b" := 1.0]
    ensures RegularPass(EngineLines(MIXED, cfg), ctx).Ok?
    ensures DiscountLine(Discounts(MIXED, cfg)(TEN_PERCENT)[0], EngineLines(MIXED, cfg), RegularPass(EngineLines(MIXED, cfg), ctx).value, ctx.settings)
         == Err(DISCOUNT_TARGET_MISMATCH)
  {
    hide EngineLines, RegularPass, ParseDecimal, DistinctKeys, KeyRecurrence, Targets, DiscountLine, VatReadable, Present, FlatMap;
    var lines, ids := EngineLines(MIXED, cfg), ["a", "b"];
    MixedRegularPass(cfg, ctx);
    MixedTargets(cfg);
    MixedLines();
    MixedTexts();
    MixedKeys(cfg, ctx);
    var line, regular := Discounts(MIXED, cfg)(TEN_PERCENT)[0], RegularPass(lines, ctx).value;
    assert line.discount == Some(DiscountSpec(PERCENT, "10", Lines(ids))) && line.vatRatePercent == "20";
    assert line.mode == MANUAL;
    hide Discounts;
    TargetsFound(ids, lines, regular);
    TargetsInCents(MIXED, cfg, ctx, ids);
    MixedRecurrences();
    MismatchIsRefused(line, lines, regular, ctx.settings, Targets(Lines(ids), lines, regular).value);
  }

  lemma MixedRecurrences()
    ensures KeyRecurrence("a", MIXED) == MONTHLY && KeyRecurrence("b", MIXED) == YEARLY
  {
    hide LineOf;
    MixedLines();
  }

  lemma TargetsFound(ids: seq<string>, all: seq<Line>, regular: map<string, PricedLine>)
    requires Distinct(ids) && forall id :: id in ids ==> id in regular
    ensures Targets(Lines(ids), all, regular).Ok?
  {
  }

  lemma MismatchIsRefused(line: Line, all: seq<Line>, regular: map<string, PricedLine>, s: Settings, targets: seq<PricedLine>)
    requires line.mode == MANUAL && line.discount.Some? && VatReadable(line.vatRatePercent)
    requires Targets(line.discount.value.appliesTo, all, regular) == Ok(targets)
    requires |targets| >= 2 && targets[0].recurrence != targets[1].recurrence
    ensures DiscountLine(line, all, regular, s) == Err(DISCOUNT_TARGET_MISMATCH)
  {
    hide ParseDecimal, Targets, Reduction, SumBy;
    assert targets[1] in targets;
  }

  lemma MixedKeys(cfg: Configured, ctx: Ctx)
    requires ProposalCtx(ctx) && cfg.included == map["a" := 1.0, "b" := 1.0] && RegularPass(EngineLines(MIXED, cfg), ctx).Ok?
    ensures "a" in RegularPass(EngineLines(MIXED, cfg), ctx).value && "b" in RegularPass(EngineLines(MIXED, cfg), ctx).value
  {
    hide EngineLines, RegularPass, EngineLine, Discounts;
    MixedEngineLines(cfg);
    var lines := EngineLines(MIXED, cfg);
    EngineLineKey(Article("a", Monthly), 1, 10000, MIXED, cfg);
    EngineLineKey(Article("b", Yearly), 1, 10000, MIXED, cfg);
    assert lines[0] in lines && lines[1] in lines;
    PassKeys(lines, lines, ctx, map[]);
  }

  lemma MixedIsRefused(cfg: Configured, ctx: Ctx)
    requires ProposalCtx(ctx) && cfg.included == map["a" := 1.0, "b" := 1.0]
    ensures PriceLines(EngineLines(MIXED, cfg), ctx) == Err(DISCOUNT_TARGET_MISMATCH)
  {
    hide EngineLines, RegularPass, EngineLine, Discounts, DiscountLine;
    MixedRegularPass(cfg, ctx);
    MixedIsMismatched(cfg, ctx);
    MixedEngineLines(cfg);
    var lines, regular := EngineLines(MIXED, cfg), RegularPass(EngineLines(MIXED, cfg), ctx).value;
    EngineLineKey(Article("a", Monthly), 1, 10000, MIXED, cfg);
    EngineLineKey(Article("b", Yearly), 1, 10000, MIXED, cfg);
    assert lines[2].kind == DISCOUNT by { MixedDiscountKind(cfg); }
    assert lines[..2][..1] == lines[..1] && lines[..1][..0] == [] && lines[..|lines| - 1] == lines[..2];
    assert DiscountPass(lines[..1], lines, regular, ctx.settings) == Ok(map[]);
    assert DiscountPass(lines[..2], lines, regular, ctx.settings) == Ok(map[]);
    assert DiscountPass(lines, lines, regular, ctx.settings) == Err(DISCOUNT_TARGET_MISMATCH);
  }

  lemma MixedDiscountKind(cfg: Configured)
    ensures forall line :: line in Discounts(MIXED, cfg)(TEN_PERCENT) ==> line.kind == DISCOUNT
  {
    hide FlatMap, Present;
  }

  /**
   * No error in the configuration is no promise of a quote: one whose discount bears on a monthly and a
   * yearly line is refused by the engine, whatever the day.
   */
  lemma ErrorFreeIsNotEnough(opts: QuoteOptions)
    requires Dated(opts)
    ensures Configure(MIXED, NOTHING_CHOSEN).errors == {}
    ensures QuoteProposal(MIXED, NOTHING_CHOSEN, opts) == Err(DISCOUNT_TARGET_MISMATCH)
  {
    hide Configure, ResolveSettings, ValidDay, PriceAt, PriceLines, EngineLines, ContextAt, ProposalCtx;
    var cfg := Configure(MIXED, NOTHING_CHOSEN);
    MixedIsErrorFree();
    MixedLines();
    ErrorFreeIsPriceable(MIXED, NOTHING_CHOSEN);
    var s := SettingsOf(opts);
    ContextIsBare(opts, opts.date, s);
    MixedIsRefused(cfg, ContextAt(opts, opts.date, s));
    ScheduleIsPriced(EngineLines(MIXED, cfg), opts, opts.date);
  }
}

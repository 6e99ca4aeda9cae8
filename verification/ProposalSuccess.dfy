/**
 * Which configurations the engine can price (packages/pricing/src/proposal.ts, `quoteProposal`): the exact
 * condition, told from the model and the configuration before any pricing.
 */
module ProposalSuccess {
  import opened Outcomes
  import opened Sums
  import opened Money
  import opened DecimalText
  import opened Calendar
  import opened PricingTypes
  import opened LinePricing
  import opened Totals
  import opened Engine
  import opened EngineFacts
  import opened Configuration
  import opened ConfigurationFacts
  import opened Proposals
  import opened ProposalLines
  import opened ProposalFacts
  import opened ProposalGuarantees

  // ------------------------------------------------------------------ the condition

  function BilledKey(cfg: Configured): ProposalLine -> seq<string> {
    (l: ProposalLine) => if Units(l, cfg) == 0 then [] else [l.key]
  }

  function DisplayedKey(cfg: Configured): ProposalLine -> seq<string> {
    (l: ProposalLine) => if l.kind != Info || UnitPriceCents(l, cfg.choices).None? then [] else [l.key]
  }

  function DiscountKey(cfg: Configured): Rule -> seq<string> {
    (r: Rule) => if SpecTargets(r, cfg) == [] then [] else [r.key]
  }

  /** The keys that the quote will bear: retained lines, displayed prices, discounts that apply to something. */
  function QuotedKeys(def: Definition, cfg: Configured): seq<string> {
    FlatMap(def.lines, BilledKey(cfg)) + FlatMap(def.lines, DisplayedKey(cfg)) + FlatMap(def.rules, DiscountKey(cfg))
  }

  /** The quantity and the price of a quoted line can be read back by the engine. */
  predicate LineReadable(l: ProposalLine, cfg: Configured) {
    IsQuoted(l, cfg) ==> Readable(Units(l, cfg), UnitPriceCents(l, cfg.choices).GetOr(0))
  }

  predicate PercentReadable(text: string) {
    ParseDecimal(text, 4, false).Ok? && ParseDecimal(text, 4, false).value <= 100.0
  }

  predicate OneRecurrence(keys: seq<string>, def: Definition) {
    forall k :: k in keys ==> KeyRecurrence(k, def) == KeyRecurrence(keys[0], def)
  }

  /** A discount that applies to something has distinct targets of one recurrence and a percentage. */
  predicate RuleReadable(r: Rule, def: Definition, cfg: Configured) {
    SpecTargets(r, cfg) != [] ==>
      Distinct(SpecTargets(r, cfg)) && OneRecurrence(SpecTargets(r, cfg), def) && r.DiscountPercent? && PercentReadable(r.percent)
  }

  ghost predicate LinesReadable(def: Definition, cfg: Configured) {
    && Distinct(QuotedKeys(def, cfg)) && (QuotedKeys(def, cfg) != [] ==> VatReadable(def.vat))
    && (forall l :: l in def.lines ==> LineReadable(l, cfg))
    && (forall r :: r in def.rules ==> RuleReadable(r, def, cfg))
  }

  /** The monthly total before any minimum, in cents. */
  function SpecMonthly(def: Definition, cfg: Configured, mode: RoundingMode): int {
    SumBy(def.lines, SpecIn(cfg, MONTHLY)) + SumBy(def.rules, SpecReductionIn(def, cfg, mode, MONTHLY))
  }

  /** A complement, when the minimum needs one, bears a key of its own and an amount that can be read back. */
  ghost predicate ComplementReadable(def: Definition, cfg: Configured, mode: RoundingMode) {
    var missing := Missing(def, SpecMonthly(def, cfg, mode));
    missing != 0 ==>
      VatReadable(def.vat) && Readable(1, missing) && MinimumOf(def.rules).Some? && MinimumOf(def.rules).value.key !in QuotedKeys(def, cfg)
  }

  /** All that the pricing of a configuration needs. */
  ghost predicate Quotable(def: Definition, cfg: Configured, mode: RoundingMode) {
    LinesReadable(def, cfg) && ComplementReadable(def, cfg, mode)
  }

  // --------------------------------------------------------------- keys and engine ids

  lemma {:induction false} FlatMapIds<T>(xs: seq<T>, f: T -> seq<Line>, g: T -> seq<string>)
    requires forall x :: x in xs ==> LineIds(f(x)) == g(x)
    ensures LineIds(FlatMap(xs, f)) == FlatMap(xs, g)
  {
    if xs != [] {
      var init, x := xs[..|xs| - 1], xs[|xs| - 1];
      FlatMapIds(init, f, g);
      assert LineIds(FlatMap(init, f) + f(x)) == LineIds(FlatMap(init, f)) + LineIds(f(x));
    }
  }

  lemma KeysAreIds(def: Definition, cfg: Configured)
    ensures LineIds(EngineLines(def, cfg)) == QuotedKeys(def, cfg)
  {
    hide Units, UnitPriceCents, EngineLine, Present;
    forall l | l in def.lines
      ensures LineIds(Billed(def, cfg)(l)) == BilledKey(cfg)(l) && LineIds(Displayed(def, cfg)(l)) == DisplayedKey(cfg)(l)
    {
      EngineLineKey(l, Units(l, cfg), UnitPriceCents(l, cfg.choices).GetOr(0), def, cfg);
      EngineLineKey(l, 0, UnitPriceCents(l, cfg.choices).GetOr(0), def, cfg);
    }
    forall r | r in def.rules
      ensures LineIds(Discounts(def, cfg)(r)) == DiscountKey(cfg)(r)
    {
      RuleIds(def, cfg, r);
    }
    FlatMapIds(def.lines, Billed(def, cfg), BilledKey(cfg));
    FlatMapIds(def.lines, Displayed(def, cfg), DisplayedKey(cfg));
    FlatMapIds(def.rules, Discounts(def, cfg), DiscountKey(cfg));
    hide FlatMap, Billed, Displayed, Discounts, BilledKey, DisplayedKey, DiscountKey;
    var a, b, c := FlatMap(def.lines, Billed(def, cfg)), FlatMap(def.lines, Displayed(def, cfg)), FlatMap(def.rules, Discounts(def, cfg));
    assert LineIds(a + b + c) == LineIds(a) + LineIds(b) + LineIds(c);
  }

  lemma RuleIds(def: Definition, cfg: Configured, r: Rule)
    ensures LineIds(Discounts(def, cfg)(r)) == DiscountKey(cfg)(r)
  {
    hide FlatMap, Present;
  }

  // -------------------------------------------------------- what a configuration brings

  /** Retained keys are lines at whole quantities, and a line in some quantity has a price. */
  ghost predicate Usable(def: Definition, cfg: Configured) {
    && (forall k :: k in cfg.included ==> LineOf(def.lines, k).Some? && ValidQuantity(cfg.included[k]))
    && (forall l :: l in def.lines && Configuration.Quantity(cfg.included, l.key) > 0.0 ==> UnitPriceCents(l, cfg.choices).Some?)
  }

  lemma PriceableIsUsable(def: Definition, sel: SelectionInput)
    requires DistinctKeys(def.lines) && Priceable(Configure(def, sel))
    ensures Usable(def, Configure(def, sel))
  {
    hide LineOf, RuleKeys, Linked, ResolveChoices, RulePasses, BasePass, SetupPass, ChoiceErrors, SelectionErrors;
    RetainedLines(def, sel);
    var cfg := Configure(def, sel);
    forall l | l in def.lines && Configuration.Quantity(cfg.included, l.key) > 0.0
      ensures UnitPriceCents(l, cfg.choices).Some?
    {
      PriceErrorFound(def, sel, cfg.included, cfg.choices, l);
    }
  }

  lemma PriceErrorFound(def: Definition, sel: SelectionInput, included: map<string, real>, choices: map<string, string>, l: ProposalLine)
    requires l in def.lines && Configuration.Quantity(included, l.key) > 0.0
    ensures UnitPriceCents(l, choices).None? ==> NoPrice(l.key) in CheckErrors(def, sel, included, choices)
  {
    hide UnitPriceCents, LineErrors, RuleErrors;
    if UnitPriceCents(l, choices).None? {
      assert NoPrice(l.key) in PriceErrors(l, included, choices);
    }
  }

  lemma ErrorFreeIsPriceable(def: Definition, sel: SelectionInput)
    requires DistinctKeys(def.lines) && Configure(def, sel).errors == {}
    ensures Priceable(Configure(def, sel))
  {
    hide Configure, LineOf;
    ErrorFreeConfiguration(def, sel);
  }

  /** A present target of a discount is given to the engine as a regular line. */
  lemma TargetIsGiven(def: Definition, cfg: Configured, r: Rule, k: string) returns (line: Line)
    requires DistinctKeys(def.lines) && Usable(def, cfg) && k in SpecTargets(r, cfg)
    ensures line in EngineLines(def, cfg) && line.kind != DISCOUNT && line.id == k
  {
    hide LineOf, EngineLines, EngineLine, UnitPriceCents, DistinctKeys;
    FlatMapMembers(r.appliesTo, Present(cfg), k);
    var l := LineOf(def.lines, k).value;
    LineOfMembers(def.lines, k);
    var cents := UnitPriceCents(l, cfg.choices).GetOr(0);
    line := EngineLine(l, Units(l, cfg), cents, def, cfg);
    EngineLineKey(l, Units(l, cfg), cents, def, cfg);
    assert line in Billed(def, cfg)(l) || line in Displayed(def, cfg)(l);
    SourcesGiveLines(def, cfg, line);
  }

  // ------------------------------------------------------------------ the regular lines

  lemma RegularLinesReadable(def: Definition, cfg: Configured, ctx: Ctx)
    requires ProposalCtx(ctx) && Distinct(LineIds(EngineLines(def, cfg)))
    ensures RegularPass(EngineLines(def, cfg), ctx).Ok? <==>
              forall l :: l in def.lines && IsQuoted(l, cfg) ==> VatReadable(def.vat) && LineReadable(l, cfg)
  {
    hide RegularPass, RegularLine, EngineLines, EngineLine, Units, UnitPriceCents, Readable, VatReadable, IsCents;
    var lines := EngineLines(def, cfg);
    RegularPassPointwise(lines, ctx);
    if RegularPass(lines, ctx).Ok? {
      forall l | l in def.lines && IsQuoted(l, cfg)
        ensures VatReadable(def.vat) && LineReadable(l, cfg)
      {
        var line := QuotedLineIsGiven(def, cfg, l);
        EngineLineInCents(l, Units(l, cfg), UnitPriceCents(l, cfg.choices).GetOr(0), def, cfg, ctx);
      }
    }
    if forall l :: l in def.lines && IsQuoted(l, cfg) ==> VatReadable(def.vat) && LineReadable(l, cfg) {
      forall line | line in lines && line.kind != DISCOUNT
        ensures RegularLine(line, ctx).Ok?
      {
        hide Billed, Displayed;
        var l := RegularSource(def, cfg, line);
        SourceLine(def, cfg, l, line);
        EngineLineInCents(l, Units(l, cfg), UnitPriceCents(l, cfg.choices).GetOr(0), def, cfg, ctx);
      }
    }
  }

  lemma QuotedLineIsGiven(def: Definition, cfg: Configured, l: ProposalLine) returns (line: Line)
    requires l in def.lines && IsQuoted(l, cfg)
    ensures line == EngineLine(l, Units(l, cfg), UnitPriceCents(l, cfg.choices).GetOr(0), def, cfg)
    ensures line in EngineLines(def, cfg) && line.kind != DISCOUNT
  {
    hide EngineLines, EngineLine, UnitPriceCents;
    line := EngineLine(l, Units(l, cfg), UnitPriceCents(l, cfg.choices).GetOr(0), def, cfg);
    EngineLineKey(l, Units(l, cfg), UnitPriceCents(l, cfg.choices).GetOr(0), def, cfg);
    assert line in Billed(def, cfg)(l) || line in Displayed(def, cfg)(l);
    SourcesGiveLines(def, cfg, line);
  }

  // ---------------------------------------------------------------------- the discounts

  lemma DiscountReadable(def: Definition, cfg: Configured, ctx: Ctx, r: Rule, line: Line)
    requires ProposalCtx(ctx) && DistinctKeys(def.lines) && Usable(def, cfg) && Distinct(LineIds(EngineLines(def, cfg)))
    requires RegularPass(EngineLines(def, cfg), ctx).Ok? && r in def.rules && line in Discounts(def, cfg)(r)
    ensures DiscountLine(line, EngineLines(def, cfg), RegularPass(EngineLines(def, cfg), ctx).value, ctx.settings).Ok?
            <==> VatReadable(def.vat) && RuleReadable(r, def, cfg)
  {
    hide RegularPass, RegularLine, EngineLines, ParseDecimal, Usable, Present, FlatMap, KeyRecurrence, SumBy, ToCents, PercentOf, AmountOfKey;
    var lines, ids := EngineLines(def, cfg), SpecTargets(r, cfg);
    var regular := RegularPass(lines, ctx).value;
    assert line.discount == Some(DiscountSpec(PERCENT, r.percent, Lines(ids))) && line.vatRatePercent == def.vat && ids != [] && r.DiscountPercent?;
    hide Discounts;
    forall k | k in ids
      ensures k in regular
    {
      var given := TargetIsGiven(def, cfg, r, k);
      RegularPassPointwise(lines, ctx);
    }
    assert Targets(Lines(ids), lines, regular).Ok? <==> Distinct(ids);
    if Distinct(ids) {
      TargetsInCents(def, cfg, ctx, ids);
      var targets := Targets(Lines(ids), lines, regular).value;
      hide Targets;
      assert ParseDecimal(def.vat, 4, false) == Ok(targets[0].vat);
      TargetsAlike(line, targets, ids, def);
      DiscountStages(line, lines, regular, ctx.settings);
    } else {
      DiscountStages(line, lines, regular, ctx.settings);
    }
  }

  /** The conditions of `priceDiscountLine`, one by one. */
  lemma DiscountStages(line: Line, all: seq<Line>, regular: map<string, PricedLine>, s: Settings)
    requires line.mode == MANUAL && line.discount.Some? && line.discount.value.kind == PERCENT
    ensures var targets := Targets(line.discount.value.appliesTo, all, regular);
            DiscountLine(line, all, regular, s).Ok?
            <==> VatReadable(line.vatRatePercent) && targets.Ok? && targets.value != []
                 && Homogeneous(line, ParseDecimal(line.vatRatePercent, 4, false).value, targets.value)
                 && PercentReadable(line.discount.value.value)
  {
    hide ParseDecimal, Targets, Homogeneous, SumBy, ToCents, PercentOf;
  }

  lemma TargetsAlike(line: Line, targets: seq<PricedLine>, ids: seq<string>, def: Definition)
    requires ids != [] && |targets| == |ids| && line.recurrence.None? && ParseDecimal(def.vat, 4, false).Ok?
    requires forall i :: 0 <= i < |ids| ==>
               targets[i].recurrence == KeyRecurrence(ids[i], def) && ParseDecimal(def.vat, 4, false) == Ok(targets[i].vat)
    ensures Homogeneous(line, ParseDecimal(def.vat, 4, false).value, targets) <==> OneRecurrence(ids, def)
  {
    hide ParseDecimal, KeyRecurrence;
    forall i | 0 <= i < |ids|
      ensures targets[i] in targets && ids[i] in ids
    {
    }
  }

  // ------------------------------------------------------------------- the first pricing

  lemma FirstPricingExactlyWhen(def: Definition, cfg: Configured, ctx: Ctx)
    requires ProposalCtx(ctx) && DistinctKeys(def.lines) && Usable(def, cfg)
    ensures PriceLines(EngineLines(def, cfg), ctx).Ok? <==> LinesReadable(def, cfg)
  {
    hide RegularPass, RegularLine, DiscountLine, PriceLines, EngineLines, QuotedKeys, VatReadable, LineReadable, RuleReadable, Usable, IsQuoted, DistinctKeys;
    var lines := EngineLines(def, cfg);
    KeysAreIds(def, cfg);
    PricedExactlyWhen(lines, ctx);
    if Distinct(LineIds(lines)) {
      RegularLinesReadable(def, cfg, ctx);
      if RegularPass(lines, ctx).Ok? {
        DiscountsReadable(def, cfg, ctx);
      }
      NothingQuoted(def, cfg);
      UnquotedIsReadable(def, cfg);
    }
  }

  lemma UnquotedIsReadable(def: Definition, cfg: Configured)
    ensures forall l :: l in def.lines && !IsQuoted(l, cfg) ==> LineReadable(l, cfg)
    ensures forall l :: l in def.lines && IsQuoted(l, cfg) ==> QuotedKeys(def, cfg) != []
    ensures forall r :: r in def.rules && SpecTargets(r, cfg) == [] ==> RuleReadable(r, def, cfg)
    ensures forall r :: r in def.rules && SpecTargets(r, cfg) != [] ==> QuotedKeys(def, cfg) != []
  {
    hide Readable, SpecTargets, KeyRecurrence, UnitPriceCents, Units, PercentReadable;
    forall l | l in def.lines && IsQuoted(l, cfg)
      ensures QuotedKeys(def, cfg) != []
    {
      FlatMapMembers(def.lines, BilledKey(cfg), l.key);
      FlatMapMembers(def.lines, DisplayedKey(cfg), l.key);
      assert l.key in BilledKey(cfg)(l) || l.key in DisplayedKey(cfg)(l);
    }
    forall r | r in def.rules && SpecTargets(r, cfg) != []
      ensures QuotedKeys(def, cfg) != []
    {
      FlatMapMembers(def.rules, DiscountKey(cfg), r.key);
      assert r.key in DiscountKey(cfg)(r);
    }
  }

  /** A quote that bears a key has a quoted line or an applicable discount. */
  lemma NothingQuoted(def: Definition, cfg: Configured)
    ensures QuotedKeys(def, cfg) != [] ==>
              (exists l :: l in def.lines && IsQuoted(l, cfg)) || exists r :: r in def.rules && SpecTargets(r, cfg) != []
  {
    hide SpecTargets, UnitPriceCents, Units;
    var keys := QuotedKeys(def, cfg);
    if keys != [] {
      var k := keys[0];
      assert k in FlatMap(def.lines, BilledKey(cfg)) || k in FlatMap(def.lines, DisplayedKey(cfg)) || k in FlatMap(def.rules, DiscountKey(cfg));
      FlatMapMembers(def.lines, BilledKey(cfg), k);
      FlatMapMembers(def.lines, DisplayedKey(cfg), k);
      FlatMapMembers(def.rules, DiscountKey(cfg), k);
    }
  }

  lemma DiscountsReadable(def: Definition, cfg: Configured, ctx: Ctx)
    requires ProposalCtx(ctx) && DistinctKeys(def.lines) && Usable(def, cfg) && Distinct(LineIds(EngineLines(def, cfg)))
    requires RegularPass(EngineLines(def, cfg), ctx).Ok?
    ensures (forall line :: line in EngineLines(def, cfg) && line.kind == DISCOUNT ==>
               DiscountLine(line, EngineLines(def, cfg), RegularPass(EngineLines(def, cfg), ctx).value, ctx.settings).Ok?)
            <==> forall r :: r in def.rules && SpecTargets(r, cfg) != [] ==> VatReadable(def.vat) && RuleReadable(r, def, cfg)
  {
    hide RegularPass, DiscountLine, EngineLines, VatReadable, RuleReadable, Usable, Present, FlatMap, ProposalCtx, DistinctKeys;
    var lines := EngineLines(def, cfg);
    var regular := RegularPass(lines, ctx).value;
    forall line | line in lines && line.kind == DISCOUNT
      ensures exists r :: r in def.rules && SpecTargets(r, cfg) != []
                && (DiscountLine(line, lines, regular, ctx.settings).Ok? <==> VatReadable(def.vat) && RuleReadable(r, def, cfg))
    {
      var r := DiscountSource(def, cfg, line);
      DiscountReadable(def, cfg, ctx, r, line);
      assert SpecTargets(r, cfg) != [];
    }
    forall r | r in def.rules && SpecTargets(r, cfg) != []
      ensures exists line :: line in lines && line.kind == DISCOUNT
                && (DiscountLine(line, lines, regular, ctx.settings).Ok? <==> VatReadable(def.vat) && RuleReadable(r, def, cfg))
    {
      var line := Discounts(def, cfg)(r)[0];
      assert line in Discounts(def, cfg)(r) && line.kind == DISCOUNT;
      SourcesGiveLines(def, cfg, line);
      DiscountReadable(def, cfg, ctx, r, line);
    }
  }

  // ------------------------------------------------------------------ the second pricing

  lemma SecondPricingExactlyWhen(def: Definition, cfg: Configured, ctx: Ctx, r: Rule, complement: int)
    requires ProposalCtx(ctx) && PriceLines(EngineLines(def, cfg), ctx).Ok?
    ensures PriceLines(EngineLines(def, cfg) + [ComplementLine(r, complement, def.vat)], ctx).Ok?
            <==> VatReadable(def.vat) && Readable(1, complement) && r.key !in LineIds(EngineLines(def, cfg))
  {
    hide RegularLine, DiscountLine, RegularPass, PriceLines, EngineLines, Readable, VatReadable;
    var lines, extra := EngineLines(def, cfg), ComplementLine(r, complement, def.vat);
    var longer := lines + [extra];
    ComplementKind(r, complement, def.vat);
    ComplementReads(r, complement, def.vat, ctx);
    assert extra.id == r.key by { hide NatText, CentsText; }
    hide ComplementLine;
    PricedExactlyWhen(lines, ctx);
    PricedExactlyWhen(longer, ctx);
    LongerPass(lines, extra, ctx);
    LongerIds(lines, extra);
    PassKeys(lines, lines, ctx, map[]);
    DiscountsTargetLines(def, cfg);
    if RegularPass(longer, ctx).Ok? && extra.id !in LineIds(lines) {
      var regular, other := RegularPass(lines, ctx).value, RegularPass(longer, ctx).value;
      assert extra.id !in regular by { NotAnId(lines, extra.id); }
      forall l | l in longer && l.kind == DISCOUNT
        ensures DiscountLine(l, longer, other, ctx.settings).Ok?
      {
        assert l in lines;
        DiscountKeepsTargets(l, lines, longer, regular, other, ctx.settings);
      }
    }
  }

  lemma NotAnId(lines: seq<Line>, id: string)
    requires id !in LineIds(lines)
    ensures forall l :: l in lines ==> l.id != id
  {
    forall l | l in lines
      ensures l.id != id
    {
      var i :| 0 <= i < |lines| && lines[i] == l;
      assert LineIds(lines)[i] == l.id;
    }
  }

  lemma LongerIds(lines: seq<Line>, extra: Line)
    requires Distinct(LineIds(lines))
    ensures Distinct(LineIds(lines + [extra])) <==> extra.id !in LineIds(lines)
  {
    var ids := LineIds(lines + [extra]);
    assert ids == LineIds(lines) + [extra.id];
    if extra.id in LineIds(lines) {
      var i :| 0 <= i < |lines| && LineIds(lines)[i] == extra.id;
      assert ids[i] == ids[|lines|];
    }
  }

  lemma LongerPass(lines: seq<Line>, extra: Line, ctx: Ctx)
    requires extra.kind != DISCOUNT && RegularPass(lines, ctx).Ok?
    ensures RegularPass(lines + [extra], ctx).Ok? <==> RegularLine(extra, ctx).Ok?
    ensures RegularLine(extra, ctx).Ok? ==>
              RegularPass(lines + [extra], ctx).value == RegularPass(lines, ctx).value[extra.id := RegularLine(extra, ctx).value]
  {
    hide RegularLine;
    assert (lines + [extra])[..|lines|] == lines;
  }

  lemma ComplementReads(r: Rule, complement: int, vat: string, ctx: Ctx)
    requires ProposalCtx(ctx)
    ensures RegularLine(ComplementLine(r, complement, vat), ctx).Ok? <==> VatReadable(vat) && Readable(1, complement)
  {
    hide RegularLine, NatText, CentsText, ParseDecimal, CentsToEuros, Readable;
    PlainLinePriced(r.key, r.key, FLAT_MONTHLY, None, 1, complement, vat, ctx);
  }

  // ------------------------------------------------------------------------- the whole

  /** Settings that keep cents, and a day that exists. */
  predicate Dated(opts: QuoteOptions) {
    ValidDay(opts.date) && ResolveSettings(opts.settings).Ok? && ResolveSettings(opts.settings).value.unitPriceScale >= 2
  }

  lemma PricedExactlyWhenQuotable(def: Definition, cfg: Configured, opts: QuoteOptions)
    requires DistinctKeys(def.lines) && Usable(def, cfg) && Dated(opts)
    ensures PriceProposal(def, cfg, opts).Ok? <==> Quotable(def, cfg, SettingsOf(opts).rounding)
  {
    hide PriceAt, PriceLines, EngineLines, ResolveSettings, ValidDay, QuotedKeys, SumBy, MinimumOf, LinesReadable, Readable, VatReadable;
    hide Breakdowns, Grouped, Normalised, ComplementLine, Usable, DistinctKeys, ProposalCtx;
    var lines, s := EngineLines(def, cfg), SettingsOf(opts);
    var ctx := ContextAt(opts, opts.date, s);
    ContextIsBare(opts, opts.date, s);
    hide ContextAt;
    ScheduleIsPriced(lines, opts, opts.date);
    FirstPricingExactlyWhen(def, cfg, ctx);
    KeysAreIds(def, cfg);
    if PriceLines(lines, ctx).Ok? {
      TotalsInCents(def, cfg, ctx, MONTHLY);
      var monthly := SumBy(PriceLines(lines, ctx).value, HtOf(MONTHLY));
      assert monthly == SpecMonthly(def, cfg, s.rounding);
      var missing := Missing(def, monthly);
      if missing != 0 {
        var minimum := MinimumOf(def.rules).value;
        ScheduleIsPriced(lines + [ComplementLine(minimum, missing, def.vat)], opts, opts.date);
        SecondPricingExactlyWhen(def, cfg, ctx, minimum, missing);
      }
    }
  }

  /**
   * A configuration is quoted with prices exactly when it has whole quantities, prices and offered choices,
   * and its keys, texts, discounts and complement are what the engine can read.
   */
  lemma QuotedExactlyWhen(def: Definition, sel: SelectionInput, opts: QuoteOptions)
    requires DistinctKeys(def.lines) && Dated(opts)
    ensures var cfg, quote := Configure(def, sel), QuoteProposal(def, sel, opts);
            && (quote.Ok? && quote.value.engineResult.Some? <==> Priceable(cfg) && Quotable(def, cfg, SettingsOf(opts).rounding))
            && (!Priceable(cfg) ==> quote == Ok(EmptyQuote(cfg)))
            && (cfg.errors == {} ==> (quote.Ok? <==> Quotable(def, cfg, SettingsOf(opts).rounding)))
  {
    hide Configure, PriceProposal, Quotable, Priceable, ResolveSettings, BucketFor, FlatMap, DistinctKeys, Usable;
    var cfg := Configure(def, sel);
    if Priceable(cfg) {
      PriceableIsUsable(def, sel);
      PricedExactlyWhenQuotable(def, cfg, opts);
    }
    if cfg.errors == {} {
      ErrorFreeIsPriceable(def, sel);
    }
  }
}

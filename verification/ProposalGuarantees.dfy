/** What the two pricings of a proposal promise once they succeed: cents, minimum, buckets, one price for ever. */
module ProposalGuarantees {
  import opened Outcomes
  import opened Sums
  import opened Money
  import opened DecimalText
  import opened Calendar
  import opened Overrides
  import opened PricingTypes
  import opened LinePricing
  import opened Totals
  import opened Schedules
  import opened Engine
  import opened EngineFacts
  import opened EngineLocality
  import opened Configuration
  import opened ConfigurationFacts
  import opened Proposals
  import opened ProposalLines
  import opened ProposalFacts

  // -------------------------------------------------- a schedule that says everything

  function ContextAt(opts: QuoteOptions, day: Day, s: Settings): Ctx {
    MakeCtx(InputOf(ScheduleOf([], opts), opts.settings), day, s)
  }

  lemma ContextIsBare(opts: QuoteOptions, day: Day, s: Settings)
    ensures NoOverrides(ContextAt(opts, day, s)) && ContextAt(opts, day, s).settings == s
    ensures s.unitPriceScale >= 2 ==> ProposalCtx(ContextAt(opts, day, s))
  {
    assert OverrideMap([]) == map[];
  }

  /** From its first day on, the schedule of a proposal is the one priced. */
  lemma ScheduleIsPriced(lines: seq<Line>, opts: QuoteOptions, day: Day)
    requires ValidDay(day) && ValidDay(opts.date) && opts.date <= day && ResolveSettings(opts.settings).Ok?
    ensures var s := ResolveSettings(opts.settings).value;
            var priced := PriceLines(lines, ContextAt(opts, day, s));
            PriceAt(InputOf(ScheduleOf(lines, opts), opts.settings), day)
            == if priced.Err? then Err(priced.code)
               else Ok(PricingResult(day, opts.scheduleId, opts.date, None, s, priced.value, TotalsOf(priced.value, s.rounding)))
  {
    hide PriceLines, TotalsOf, ResolveSettings, ValidDay;
    var schedule := ScheduleOf(lines, opts);
    FlatMapOne(schedule, Matching(day));
    assert SelectSchedule([schedule], day) == Ok(schedule);
    assert MakeCtx(InputOf(schedule, opts.settings), day, ResolveSettings(opts.settings).value)
        == ContextAt(opts, day, ResolveSettings(opts.settings).value);
  }

  /** A pricing that succeeded had a valid date. */
  lemma PricedDateIsValid(input: PricingInput, day: Day)
    requires PriceAt(input, day).Ok?
    ensures ValidDay(day) && ResolveSettings(input.settings).Ok?
  {
    hide PriceLines, TotalsOf, ResolveSettings, ValidDay, SelectSchedule;
  }

  // ------------------------------------------------------------- the two pricings

  /** The schedule without the complement, the one with it, and how they were priced. */
  ghost predicate TwoPricings(def: Definition, cfg: Configured, opts: QuoteOptions) {
    PriceProposal(def, cfg, opts).Ok? && ResolveSettings(opts.settings).Ok? && ResolveSettings(opts.settings).value.unitPriceScale >= 2
  }

  function SettingsOf(opts: QuoteOptions): Settings
    requires ResolveSettings(opts.settings).Ok?
  {
    ResolveSettings(opts.settings).value
  }

  /** The lines as first priced, before any complement. */
  function FirstLines(def: Definition, cfg: Configured, opts: QuoteOptions): Result<seq<PricedLine>>
    requires ResolveSettings(opts.settings).Ok?
  {
    PriceLines(EngineLines(def, cfg), ContextAt(opts, opts.date, SettingsOf(opts)))
  }

  lemma {:induction false} AppendedRegular(lines: seq<Line>, extra: Line, ctx: Ctx)
    requires extra.kind != DISCOUNT
    ensures RegularPass(lines + [extra], ctx).Ok? ==>
              RegularPass(lines, ctx).Ok? && RegularLine(extra, ctx).Ok?
              && RegularPass(lines + [extra], ctx).value == RegularPass(lines, ctx).value[extra.id := RegularLine(extra, ctx).value]
  {
    hide RegularLine;
    assert (lines + [extra])[..|lines|] == lines;
  }

  lemma DiscountKeepsTargets(
      line: Line, all: seq<Line>, more: seq<Line>, regular: map<string, PricedLine>, other: map<string, PricedLine>,
      s: Settings)
    requires line.discount.Some? ==> line.discount.value.appliesTo.Lines?
    requires forall id :: id in regular ==> id in other && other[id] == regular[id]
    requires DiscountLine(line, all, regular, s).Ok?
    ensures DiscountLine(line, more, other, s) == DiscountLine(line, all, regular, s)
  {
    hide ParseDecimal, Reduction, SumBy, ToCents, CentsToEuros, Homogeneous;
    var ids := line.discount.value.appliesTo.lineIds;
    assert forall id :: id in ids ==> id in regular;
    assert Targets(line.discount.value.appliesTo, more, other).value == Targets(line.discount.value.appliesTo, all, regular).value;
  }

  /** One more regular line changes none of the others, discounts included. */
  lemma AppendedLine(lines: seq<Line>, extra: Line, ctx: Ctx)
    requires extra.kind != DISCOUNT && PriceLines(lines, ctx).Ok? && PriceLines(lines + [extra], ctx).Ok?
    requires forall l :: l in lines && l.kind == DISCOUNT && l.discount.Some? ==> l.discount.value.appliesTo.Lines?
    ensures RegularLine(extra, ctx).Ok?
    ensures PriceLines(lines + [extra], ctx).value == PriceLines(lines, ctx).value + [RegularLine(extra, ctx).value]
  {
    hide RegularLine, DiscountLine, RegularPass, PriceLines;
    var longer := lines + [extra];
    PricedExactlyWhen(lines, ctx);
    PricedExactlyWhen(longer, ctx);
    AppendedRegular(lines, extra, ctx);
    PricedLength(lines, ctx);
    PricedLength(longer, ctx);
    IdsOfPrefix(lines, extra);
    PassKeys(lines, lines, ctx, map[]);
    var regular, other := RegularPass(lines, ctx).value, RegularPass(longer, ctx).value;
    assert extra.id !in regular;
    assert longer[|lines|] == extra;
    PricedLineByLine(longer, ctx, |lines|);
    forall i | 0 <= i < |lines|
      ensures PriceLines(longer, ctx).value[i] == PriceLines(lines, ctx).value[i]
    {
      assert longer[i] == lines[i] && lines[i] in lines;
      PricedLineByLine(lines, ctx, i);
      PricedLineByLine(longer, ctx, i);
      if lines[i].kind == DISCOUNT {
        DiscountKeepsTargets(lines[i], lines, longer, regular, other, ctx.settings);
      }
    }
  }

  lemma DiscountsTargetLines(def: Definition, cfg: Configured)
    ensures forall l :: l in EngineLines(def, cfg) && l.kind == DISCOUNT && l.discount.Some? ==> l.discount.value.appliesTo.Lines?
  {
    hide EngineLines, FlatMap, Present;
    forall line | line in EngineLines(def, cfg) && line.kind == DISCOUNT
      ensures line.discount.Some? && line.discount.value.appliesTo.Lines?
    {
      var r := DiscountSource(def, cfg, line);
    }
  }

  /** The complement line of a minimum, priced: its whole amount, every month. */
  lemma ComplementInCents(r: Rule, complement: int, vat: string, ctx: Ctx)
    requires ProposalCtx(ctx) && RegularLine(ComplementLine(r, complement, vat), ctx).Ok?
    ensures IsCents(RegularLine(ComplementLine(r, complement, vat), ctx).value, r.key, 1, complement, MONTHLY)
    ensures RegularLine(ComplementLine(r, complement, vat), ctx).value.kind == FLAT_MONTHLY
  {
    hide RegularLine, NatText, CentsText, ParseVat, CentsToEuros;
    PlainLinePriced(r.key, r.key, FLAT_MONTHLY, None, 1, complement, vat, ctx);
  }

  /** What is missing to reach the minimum, nothing when it is reached. */
  function Missing(def: Definition, monthly: int): int {
    var m := MinimumOf(def.rules);
    if m.None? || monthly >= m.value.amountCents then 0 else m.value.amountCents - monthly
  }

  /** The lines of the final result are the first ones, and the complement when one is needed. */
  lemma FinalLines(def: Definition, cfg: Configured, opts: QuoteOptions)
    requires TwoPricings(def, cfg, opts)
    ensures FirstLines(def, cfg, opts).Ok?
    ensures var first := FirstLines(def, cfg, opts).value;
            var result := PriceProposal(def, cfg, opts).value.1;
            var missing := Missing(def, SumBy(first, HtOf(MONTHLY)));
            && result.totals == TotalsOf(result.lines, SettingsOf(opts).rounding) && result.settings == SettingsOf(opts)
            && if missing == 0 then result.lines == first
               else |result.lines| == |first| + 1 && result.lines == first + [result.lines[|first|]]
                    && IsCents(result.lines[|first|], MinimumOf(def.rules).value.key, 1, missing, MONTHLY)
  {
    hide PriceAt, PriceLines, RegularLine, EngineLines, IsCents, Breakdowns;
    hide Normalised, Grouped, ResolveSettings, ValidDay, ComplementLine, MinimumOf, SumBy;
    var lines, s := EngineLines(def, cfg), SettingsOf(opts);
    var ctx := ContextAt(opts, opts.date, s);
    ContextIsBare(opts, opts.date, s);
    hide ContextAt;
    PricedDateIsValid(InputOf(ScheduleOf(lines, opts), opts.settings), opts.date);
    ScheduleIsPriced(lines, opts, opts.date);
    var first := FirstLines(def, cfg, opts).value;
    var missing := Missing(def, SumBy(first, HtOf(MONTHLY)));
    if missing != 0 {
      var extra := ComplementLine(MinimumOf(def.rules).value, missing, def.vat);
      ScheduleIsPriced(lines + [extra], opts, opts.date);
      DiscountsTargetLines(def, cfg);
      assert extra.kind != DISCOUNT by { ComplementKind(MinimumOf(def.rules).value, missing, def.vat); }
      AppendedLine(lines, extra, ctx);
      ComplementInCents(MinimumOf(def.rules).value, missing, def.vat, ctx);
      AppendedAt(first, RegularLine(extra, ctx).value);
    }
  }

  lemma ComplementKind(r: Rule, complement: int, vat: string)
    ensures ComplementLine(r, complement, vat).kind == FLAT_MONTHLY
  {
    hide NatText, CentsText;
  }

  lemma AppendedAt<T>(xs: seq<T>, x: T)
    ensures (xs + [x])[|xs|] == x && |xs + [x]| == |xs| + 1
  {
  }

  /**
   * The second pricing only adds the complement: every other line is unchanged, and the monthly
   * total ends at exactly the larger of itself and the minimum, the other recurrences untouched.
   */
  lemma SecondPricingReachesMinimum(def: Definition, cfg: Configured, opts: QuoteOptions)
    requires TwoPricings(def, cfg, opts)
    ensures FirstLines(def, cfg, opts).Ok?
    ensures var first := FirstLines(def, cfg, opts).value;
            var result := PriceProposal(def, cfg, opts).value.1;
            var monthly := SumBy(first, HtOf(MONTHLY));
            var minimum := MinimumOf(def.rules);
            && |first| <= |result.lines| <= |first| + 1 && result.lines[..|first|] == first
            && (|result.lines| > |first| <==> minimum.Some? && monthly < minimum.value.amountCents)
            && (|result.lines| > |first| ==> IsCents(result.lines[|first|], minimum.value.key, 1, minimum.value.amountCents - monthly, MONTHLY))
            && result.totals.monthlyLinesCents
               == (if minimum.Some? && minimum.value.amountCents > monthly then minimum.value.amountCents else monthly)
            && result.totals.quarterlyLinesCents == SumBy(first, HtOf(QUARTERLY))
            && result.totals.yearlyLinesCents == SumBy(first, HtOf(YEARLY))
            && result.totals.oneOffCents == SumBy(first, HtOf(ONE_OFF))
  {
    hide PriceProposal, PriceLines, IsCents, Breakdowns, Normalised, Grouped, ResolveSettings, MinimumOf, SumBy, FirstLines;
    FinalLines(def, cfg, opts);
    var first := FirstLines(def, cfg, opts).value;
    var result := PriceProposal(def, cfg, opts).value.1;
    var missing := Missing(def, SumBy(first, HtOf(MONTHLY)));
    if missing != 0 {
      OneMoreLine(first, result.lines[|first|], MinimumOf(def.rules).value.key, missing);
    }
  }

  lemma OneMoreLine(first: seq<PricedLine>, p: PricedLine, key: string, cents: int)
    requires IsCents(p, key, 1, cents, MONTHLY)
    ensures SumBy(first + [p], HtOf(MONTHLY)) == SumBy(first, HtOf(MONTHLY)) + cents
    ensures forall r: Recurrence :: r != MONTHLY ==> SumBy(first + [p], HtOf(r)) == SumBy(first, HtOf(r))
  {
    forall r: Recurrence
      ensures SumBy(first + [p], HtOf(r)) == SumBy(first, HtOf(r)) + (if r == MONTHLY then cents else 0)
    {
      SumByAppend(first, [p], HtOf(r));
      SumByOne(p, HtOf(r));
    }
  }

  // -------------------------------------------------------------------- lines, in cents

  /** The priced line of a model line: unit cents times units, in its recurrence. */
  ghost predicate PricesLine(p: PricedLine, l: ProposalLine, cfg: Configured) {
    IsCents(p, l.key, Units(l, cfg), UnitPriceCents(l, cfg.choices).GetOr(0), RecurrenceOf(l.billing))
  }

  /** The priced line of a discount rule: minus its share of its targets, in their recurrence. */
  ghost predicate PricesRule(p: PricedLine, r: Rule, def: Definition, cfg: Configured, mode: RoundingMode) {
    && SpecTargets(r, cfg) != [] && p.lineId == r.key && p.kind == DISCOUNT && p.quantity == 1.0
    && p.totalHtCents == SpecReduction(r, def, cfg, mode) && p.recurrence == KeyRecurrence(SpecTargets(r, cfg)[0], def)
  }

  /** Retained lines are charged, information lines that have a price are displayed. */
  predicate IsQuoted(l: ProposalLine, cfg: Configured) {
    Units(l, cfg) > 0 || (l.kind == Info && UnitPriceCents(l, cfg.choices).Some?)
  }

  /** Every reason a priced line of a quote may have, with its exact amounts. */
  ghost predicate Justified(p: PricedLine, def: Definition, cfg: Configured, mode: RoundingMode) {
    || (exists l :: l in def.lines && IsQuoted(l, cfg) && PricesLine(p, l, cfg))
    || (exists r :: r in def.rules && PricesRule(p, r, def, cfg, mode))
  }

  lemma FirstLineJustified(def: Definition, cfg: Configured, ctx: Ctx, i: nat)
    requires ProposalCtx(ctx) && DistinctKeys(def.lines) && PriceLines(EngineLines(def, cfg), ctx).Ok? && i < |EngineLines(def, cfg)|
    ensures i < |PriceLines(EngineLines(def, cfg), ctx).value|
    ensures Justified(PriceLines(EngineLines(def, cfg), ctx).value[i], def, cfg, ctx.settings.rounding)
  {
    hide PriceLines, EngineLines, UnitPriceCents, LineOf, PricesRule, SpecTargets, ProposalCtx, IsCents, EngineLine, DistinctKeys;
    var line := EngineLines(def, cfg)[i];
    if line.kind == DISCOUNT {
      hide Discounts;
      var r := DiscountSource(def, cfg, line);
      RuleIsPricedAt(def, cfg, ctx, r, i);
    } else {
      var l := RegularSource(def, cfg, line);
      SourceLine(def, cfg, l, line);
      hide Billed, Displayed, Units;
      ModelLineInCents(def, cfg, ctx, l, i);
    }
  }

  lemma RuleIsPricedAt(def: Definition, cfg: Configured, ctx: Ctx, r: Rule, i: nat)
    requires ProposalCtx(ctx) && DistinctKeys(def.lines) && PriceLines(EngineLines(def, cfg), ctx).Ok? && r in def.rules
    requires i < |EngineLines(def, cfg)| && EngineLines(def, cfg)[i] in Discounts(def, cfg)(r)
    ensures i < |PriceLines(EngineLines(def, cfg), ctx).value|
    ensures PricesRule(PriceLines(EngineLines(def, cfg), ctx).value[i], r, def, cfg, ctx.settings.rounding)
  {
    hide PriceLines, EngineLines, SpecTargets, SpecReduction, KeyRecurrence, ProposalCtx, RegularPass, DiscountLine;
    RuleInCents(def, cfg, ctx, r, i);
    PricedLineByLine(EngineLines(def, cfg), ctx, i);
    PricedExactlyWhen(EngineLines(def, cfg), ctx);
    assert EngineLines(def, cfg)[i].kind == DISCOUNT by { hide FlatMap, Present; }
    DiscountCountsOnce(EngineLines(def, cfg)[i], EngineLines(def, cfg), RegularPass(EngineLines(def, cfg), ctx).value, ctx.settings);
  }

  lemma DiscountCountsOnce(line: Line, all: seq<Line>, regular: map<string, PricedLine>, s: Settings)
    requires DiscountLine(line, all, regular, s).Ok?
    ensures DiscountLine(line, all, regular, s).value.quantity == 1.0
  {
    hide ParseDecimal, Targets, Reduction, Homogeneous, SumBy, ToCents;
  }

  /** Every retained line of the model is quoted, and so is every price to display. */
  lemma QuotedLineIsPriced(def: Definition, cfg: Configured, ctx: Ctx, l: ProposalLine)
    requires ProposalCtx(ctx) && PriceLines(EngineLines(def, cfg), ctx).Ok? && l in def.lines && IsQuoted(l, cfg)
    ensures exists p :: p in PriceLines(EngineLines(def, cfg), ctx).value && PricesLine(p, l, cfg)
  {
    hide PriceLines, EngineLines, UnitPriceCents, ProposalCtx, IsCents, EngineLine;
    var line := if Units(l, cfg) > 0 then Billed(def, cfg)(l)[0] else Displayed(def, cfg)(l)[0];
    hide Units;
    assert line in Billed(def, cfg)(l) || line in Displayed(def, cfg)(l);
    SourcesGiveLines(def, cfg, line);
    var i :| 0 <= i < |EngineLines(def, cfg)| && EngineLines(def, cfg)[i] == line;
    ModelLineInCents(def, cfg, ctx, l, i);
    assert PriceLines(EngineLines(def, cfg), ctx).value[i] in PriceLines(EngineLines(def, cfg), ctx).value;
  }

  /** Every discount that applies to something is quoted. */
  lemma ApplicableRuleIsPriced(def: Definition, cfg: Configured, ctx: Ctx, r: Rule)
    requires ProposalCtx(ctx) && DistinctKeys(def.lines) && PriceLines(EngineLines(def, cfg), ctx).Ok?
    requires r in def.rules && SpecTargets(r, cfg) != []
    ensures exists p :: p in PriceLines(EngineLines(def, cfg), ctx).value && PricesRule(p, r, def, cfg, ctx.settings.rounding)
  {
    hide PriceLines, EngineLines, PricesRule, ProposalCtx, Present, FlatMap;
    var line := Discounts(def, cfg)(r)[0];
    assert line in Discounts(def, cfg)(r);
    hide Discounts;
    SourcesGiveLines(def, cfg, line);
    var i :| 0 <= i < |EngineLines(def, cfg)| && EngineLines(def, cfg)[i] == line;
    RuleIsPricedAt(def, cfg, ctx, r, i);
    assert PriceLines(EngineLines(def, cfg), ctx).value[i] in PriceLines(EngineLines(def, cfg), ctx).value;
  }

  /**
   * The first pricing refines a specification in cents: each line is exactly unit cents x quantity, each
   * discount minus its share rounded once, all of them and nothing else are there, and each recurrence
   * totals what the specification says.
   */
  lemma FirstPricingRefinesCents(def: Definition, cfg: Configured, opts: QuoteOptions)
    requires TwoPricings(def, cfg, opts) && DistinctKeys(def.lines)
    ensures FirstLines(def, cfg, opts).Ok?
    ensures var first, mode := FirstLines(def, cfg, opts).value, SettingsOf(opts).rounding;
            && (forall p :: p in first ==> Justified(p, def, cfg, mode))
            && (forall l :: l in def.lines && IsQuoted(l, cfg) ==> exists p :: p in first && PricesLine(p, l, cfg))
            && (forall r :: r in def.rules && SpecTargets(r, cfg) != [] ==> exists p :: p in first && PricesRule(p, r, def, cfg, mode))
            && (forall rec: Recurrence ::
                  SumBy(first, HtOf(rec)) == SumBy(def.lines, SpecIn(cfg, rec)) + SumBy(def.rules, SpecReductionIn(def, cfg, mode, rec)))
  {
    hide PriceAt, PriceLines, EngineLines, PricesLine, PricesRule, ResolveSettings, ValidDay;
    hide Justified, SpecIn, SpecReductionIn, HtOf, DistinctKeys, IsQuoted, SpecTargets;
    var lines, s := EngineLines(def, cfg), SettingsOf(opts);
    var ctx := ContextAt(opts, opts.date, s);
    ContextIsBare(opts, opts.date, s);
    PricedDateIsValid(InputOf(ScheduleOf(lines, opts), opts.settings), opts.date);
    ScheduleIsPriced(lines, opts, opts.date);
    var first := FirstLines(def, cfg, opts).value;
    PricedLength(lines, ctx);
    forall p | p in first
      ensures Justified(p, def, cfg, s.rounding)
    {
      var i :| 0 <= i < |first| && first[i] == p;
      FirstLineJustified(def, cfg, ctx, i);
    }
    forall l | l in def.lines && IsQuoted(l, cfg)
      ensures exists p :: p in first && PricesLine(p, l, cfg)
    {
      QuotedLineIsPriced(def, cfg, ctx, l);
    }
    forall r | r in def.rules && SpecTargets(r, cfg) != []
      ensures exists p :: p in first && PricesRule(p, r, def, cfg, s.rounding)
    {
      ApplicableRuleIsPriced(def, cfg, ctx, r);
    }
    forall rec: Recurrence
      ensures SumBy(first, HtOf(rec)) == SumBy(def.lines, SpecIn(cfg, rec)) + SumBy(def.rules, SpecReductionIn(def, cfg, s.rounding, rec))
    {
      TotalsInCents(def, cfg, ctx, rec);
    }
  }

  // ------------------------------------------------------------- frozen for later dates

  /** A plain line is priced without looking at the date. */
  lemma PlainLineIsTimeless(line: Line, c: Ctx, d: Ctx)
    requires Plain(line) && NoOverrides(c) && NoOverrides(d) && c.settings == d.settings
    ensures RegularLine(line, c) == RegularLine(line, d)
  {
    PlainParts(line);
    assert ResolveQuantity(line, c) == ResolveQuantity(line, d) by { hide ParseDecimal; }
    hide *;
    forall qty
      ensures WorkOut(line, qty, c) == WorkOut(line, qty, d)
    {
      PlainWorkIsTimeless(line, qty, c, d);
    }
    forall vat, recurrence, quantity: TraceStep, price, steps | quantity.Quantity?
      ensures Finish(line, c, vat, recurrence, quantity, price, steps) == Finish(line, d, vat, recurrence, quantity, price, steps)
    {
      PlainFinishIsTimeless(line, c, d, vat, recurrence, quantity, price, steps);
    }
    SameStagesSameLine(line, c, d);
  }

  /** A line is made of its quantity, its work and its finish. */
  lemma SameStagesSameLine(line: Line, c: Ctx, d: Ctx)
    requires ResolveQuantity(line, c) == ResolveQuantity(line, d)
    requires forall qty :: WorkOut(line, qty, c) == WorkOut(line, qty, d)
    requires forall vat, recurrence, quantity: TraceStep, price, steps :: quantity.Quantity? ==>
               Finish(line, c, vat, recurrence, quantity, price, steps) == Finish(line, d, vat, recurrence, quantity, price, steps)
    ensures RegularLine(line, c) == RegularLine(line, d)
  {
    hide ParseVat, ResolveRecurrence, CheckShape, ResolveQuantity, WorkOut, Finish;
    QuantityIsQuantity(line, c);
  }

  lemma PlainWorkIsTimeless(line: Line, qty: real, c: Ctx, d: Ctx)
    requires line.mode == MANUAL && line.kind != TIERED && line.revision.None?
    ensures WorkOut(line, qty, c) == WorkOut(line, qty, d)
  {
    hide ParseDecimal;
  }

  lemma PlainFinishIsTimeless(
      line: Line, c: Ctx, d: Ctx, vat: real, recurrence: Recurrence, quantity: TraceStep, price: Working,
      steps: seq<TraceStep>)
    requires NoOverrides(c) && NoOverrides(d) && c.settings == d.settings && quantity.Quantity?
    ensures Finish(line, c, vat, recurrence, quantity, price, steps) == Finish(line, d, vat, recurrence, quantity, price, steps)
  {
    hide ToCents, ComputedUnit, Select, FinalUnit, ExactTotal, HourPackSteps, RoundingStep, TotalSteps, SelectionSteps;
    assert c.OverridesOf(line.id) == [] && d.OverridesOf(line.id) == [];
    var computed := ComputedUnit(price, quantity.quantity, c.settings);
    NothingSelected(c.OverrideCase(computed));
    NothingSelected(d.OverrideCase(computed));
  }

  lemma PlainParts(line: Line)
    requires Plain(line)
    ensures line.mode == MANUAL && line.kind != TIERED && line.kind != DISCOUNT && line.revision.None? && line.quantity.Some? && line.quantity.value.Fixed?
  {
    hide NatText, CentsText;
  }

  lemma {:induction false} SamePass(lines: seq<Line>, c: Ctx, d: Ctx)
    requires forall l :: l in lines && l.kind != DISCOUNT ==> RegularLine(l, c) == RegularLine(l, d)
    ensures RegularPass(lines, c) == RegularPass(lines, d)
  {
    hide RegularLine;
    if lines != [] {
      SamePass(lines[..|lines| - 1], c, d);
    }
  }

  lemma TimelessLines(lines: seq<Line>, c: Ctx, d: Ctx)
    requires c.settings == d.settings && NoOverrides(c) && NoOverrides(d)
    requires forall l :: l in lines && l.kind != DISCOUNT ==> Plain(l)
    ensures PriceLines(lines, c) == PriceLines(lines, d)
  {
    hide RegularLine, RegularPass, DiscountPass, Assemble, Plain;
    forall l | l in lines && l.kind != DISCOUNT
      ensures RegularLine(l, c) == RegularLine(l, d)
    {
      PlainLineIsTimeless(l, c, d);
    }
    SamePass(lines, c, d);
    PassKeysSame(lines, c, d);
  }

  lemma ScheduleLinesArePlain(def: Definition, cfg: Configured, opts: QuoteOptions)
    requires PriceProposal(def, cfg, opts).Ok?
    ensures var schedule := PriceProposal(def, cfg, opts).value.0;
            && (forall l :: l in schedule.lines && l.kind != DISCOUNT ==> Plain(l))
            && schedule == ScheduleOf(schedule.lines, opts)
            && PriceAt(InputOf(schedule, opts.settings), opts.date) == Ok(PriceProposal(def, cfg, opts).value.1)
  {
    hide PriceAt, EngineLines, NatText, CentsText, Plain;
    var schedule := PriceProposal(def, cfg, opts).value.0;
    forall line | line in schedule.lines && line.kind != DISCOUNT
      ensures Plain(line)
    {
      if line in EngineLines(def, cfg) {
        EngineLinesArePlain(def, cfg, line);
      } else {
        var m := MinimumOf(def.rules).value;
        var complement :| line == ComplementLine(m, complement, def.vat);
        ComplementIsPlain(m, complement, def.vat);
      }
    }
  }

  lemma ComplementIsPlain(m: Rule, complement: int, vat: string)
    ensures Plain(ComplementLine(m, complement, vat))
  {
    hide NatText, CentsText;
    assert ComplementLine(m, complement, vat) == ManualLine(m.key, m.key, FLAT_MONTHLY, None, 1, complement, vat);
  }

  /**
   * Displayed price, frozen price, first schedule of the contract: priced again at any later date,
   * the schedule of the quote gives the same lines, traces included, and the same totals.
   */
  lemma FrozenScheduleIsTimeless(def: Definition, sel: SelectionInput, opts: QuoteOptions, later: Day)
    requires QuoteProposal(def, sel, opts).Ok? && QuoteProposal(def, sel, opts).value.engineSchedule.Some?
    requires ValidDay(later) && opts.date <= later
    ensures var quote := QuoteProposal(def, sel, opts).value;
            quote.engineResult.Some?
            && PriceAt(InputOf(quote.engineSchedule.value, opts.settings), later) == Ok(quote.engineResult.value.(date := later))
  {
    hide Configure, PriceProposal, Priceable, PriceAt, PriceLines, TotalsOf, ResolveSettings, Plain, ValidDay, FlatMap;
    var cfg := Configure(def, sel);
    ScheduleLinesArePlain(def, cfg, opts);
    var schedule := PriceProposal(def, cfg, opts).value.0;
    PricedDateIsValid(InputOf(schedule, opts.settings), opts.date);
    var s := ResolveSettings(opts.settings).value;
    ContextIsBare(opts, opts.date, s);
    ContextIsBare(opts, later, s);
    TimelessLines(schedule.lines, ContextAt(opts, opts.date, s), ContextAt(opts, later, s));
    ScheduleIsPriced(schedule.lines, opts, opts.date);
    ScheduleIsPriced(schedule.lines, opts, later);
  }

  // ---------------------------------------------------------------- one rate, no charge for information

  lemma RegularVat(line: Line, ctx: Ctx)
    requires RegularLine(line, ctx).Ok?
    ensures ParseDecimal(line.vatRatePercent, 4, false) == Ok(RegularLine(line, ctx).value.vat)
  {
    hide WorkOut, ParseDecimal, Select, CheckShape, ResolveQuantity, ResolveRecurrence, ComputedUnit, ToCents;
    QuantityIsQuantity(line, ctx);
  }

  lemma DiscountVat(line: Line, all: seq<Line>, regular: map<string, PricedLine>, s: Settings)
    requires DiscountLine(line, all, regular, s).Ok?
    ensures ParseDecimal(line.vatRatePercent, 4, false) == Ok(DiscountLine(line, all, regular, s).value.vat)
  {
    hide ParseDecimal, Targets, Reduction, Homogeneous, SumBy, ToCents;
  }

  lemma OneRate(lines: seq<Line>, ctx: Ctx, vat: string, rate: real)
    requires PriceLines(lines, ctx).Ok? && (forall l :: l in lines ==> l.vatRatePercent == vat) && ParseDecimal(vat, 4, false) == Ok(rate)
    ensures forall p :: p in PriceLines(lines, ctx).value ==> p.vat == rate
  {
    hide PriceLines, RegularLine, DiscountLine, RegularPass, ParseDecimal;
    PricedLength(lines, ctx);
    var priced := PriceLines(lines, ctx).value;
    forall p | p in priced
      ensures p.vat == rate
    {
      var i :| 0 <= i < |priced| && priced[i] == p;
      PricedLineByLine(lines, ctx, i);
      PricedExactlyWhen(lines, ctx);
      assert lines[i] in lines;
      if lines[i].kind == DISCOUNT {
        DiscountVat(lines[i], lines, RegularPass(lines, ctx).value, ctx.settings);
      } else {
        RegularVat(lines[i], ctx);
      }
    }
  }

  lemma ModelVat(def: Definition, cfg: Configured, line: Line)
    requires line in EngineLines(def, cfg)
    ensures line.vatRatePercent == def.vat
  {
    hide EngineLines, Units, UnitPriceCents, Present, FlatMap, ArticleCode, NatText, CentsText;
    LineSources(def, cfg, line);
    if l :| l in def.lines && line in Billed(def, cfg)(l) {
    } else if l :| l in def.lines && line in Displayed(def, cfg)(l) {
    } else {
      var r :| r in def.rules && line in Discounts(def, cfg)(r);
    }
  }

  lemma ScheduleVat(def: Definition, cfg: Configured, opts: QuoteOptions)
    requires PriceProposal(def, cfg, opts).Ok?
    ensures forall l :: l in PriceProposal(def, cfg, opts).value.0.lines ==> l.vatRatePercent == def.vat
  {
    hide PriceAt, EngineLines, NatText, CentsText;
    forall line | line in PriceProposal(def, cfg, opts).value.0.lines
      ensures line.vatRatePercent == def.vat
    {
      if line in EngineLines(def, cfg) {
        ModelVat(def, cfg, line);
      }
    }
  }

  /** All the lines of a quote bear the rate of the model. */
  lemma QuoteHasOneRate(def: Definition, cfg: Configured, opts: QuoteOptions) returns (rate: real)
    requires TwoPricings(def, cfg, opts)
    ensures forall p :: p in PriceProposal(def, cfg, opts).value.1.lines ==> p.vat == rate
  {
    hide PriceProposal, PriceLines, PriceAt, ResolveSettings, ParseDecimal, ValidDay, TotalsOf, Plain;
    ScheduleLinesArePlain(def, cfg, opts);
    ScheduleVat(def, cfg, opts);
    var schedule, result := PriceProposal(def, cfg, opts).value.0, PriceProposal(def, cfg, opts).value.1;
    PricedDateIsValid(InputOf(schedule, opts.settings), opts.date);
    ScheduleIsPriced(schedule.lines, opts, opts.date);
    var ctx := ContextAt(opts, opts.date, SettingsOf(opts));
    PricedLength(schedule.lines, ctx);
    rate := 0.0;
    if result.lines != [] {
      VatParses(schedule.lines, ctx);
      assert schedule.lines[0] in schedule.lines;
      rate := ParseDecimal(def.vat, 4, false).value;
      OneRate(schedule.lines, ctx, def.vat, ParseDecimal(def.vat, 4, false).value);
    }
  }

  lemma VatParses(lines: seq<Line>, ctx: Ctx)
    requires PriceLines(lines, ctx).Ok? && lines != []
    ensures ParseDecimal(lines[0].vatRatePercent, 4, false).Ok?
  {
    hide PriceLines, RegularLine, DiscountLine, RegularPass, ParseDecimal;
    PricedLineByLine(lines, ctx, 0);
    PricedExactlyWhen(lines, ctx);
    if lines[0].kind == DISCOUNT {
      DiscountVat(lines[0], lines, RegularPass(lines, ctx).value, ctx.settings);
    } else {
      RegularVat(lines[0], ctx);
    }
  }

  /** What is shown is what is charged: the total is the shown unit price times the shown whole quantity. */
  predicate ShownExactly(x: QuotedLine) {
    IsWhole(x.quantity) && x.totalHtCents == x.quantity.Floor * x.unitPriceCents
  }

  lemma CentsAreShown(p: PricedLine, key: string, units: nat, cents: int, rec: Recurrence, def: Definition, cfg: Configured)
    requires IsCents(p, key, units, cents, rec)
    ensures ShownExactly(QuoteLine(p, def, cfg))
  {
    hide ToCents, CentsToEuros, StatusOf;
    CentsRoundTrip(cents, HALF_AWAY_FROM_ZERO);
  }

  lemma JustifiedIsShown(def: Definition, cfg: Configured, mode: RoundingMode, p: PricedLine)
    requires Justified(p, def, cfg, mode)
    ensures ShownExactly(QuoteLine(p, def, cfg))
  {
    hide SpecTargets, SpecReduction, KeyRecurrence, UnitPriceCents, Units, IsQuoted, IsCents, StatusOf, ToCents;
    if l :| l in def.lines && IsQuoted(l, cfg) && PricesLine(p, l, cfg) {
      CentsAreShown(p, l.key, Units(l, cfg), UnitPriceCents(l, cfg.choices).GetOr(0), RecurrenceOf(l.billing), def, cfg);
    } else {
      assert p.quantity == 1.0 && p.kind == DISCOUNT;
    }
  }

  /** Every line of the result is shown as it is charged. */
  lemma ResultIsShown(def: Definition, cfg: Configured, opts: QuoteOptions)
    requires TwoPricings(def, cfg, opts) && DistinctKeys(def.lines)
    ensures forall p :: p in PriceProposal(def, cfg, opts).value.1.lines ==> ShownExactly(QuoteLine(p, def, cfg))
  {
    hide PriceProposal, FirstLines, Justified, SumBy, ResolveSettings, DistinctKeys, TotalsOf, ShownExactly, QuoteLine, PricesLine, PricesRule, IsQuoted, IsCents;
    FirstPricingRefinesCents(def, cfg, opts);
    FinalLines(def, cfg, opts);
    var first, result := FirstLines(def, cfg, opts).value, PriceProposal(def, cfg, opts).value.1;
    forall p | p in result.lines
      ensures ShownExactly(QuoteLine(p, def, cfg))
    {
      if p in first {
        JustifiedIsShown(def, cfg, SettingsOf(opts).rounding, p);
      } else {
        CentsAreShown(p, MinimumOf(def.rules).value.key, 1, Missing(def, SumBy(first, HtOf(MONTHLY))), MONTHLY, def, cfg);
      }
    }
  }

  // --------------------------------------------------------------------------- buckets

  function Shown(): QuotedLine -> int { (x: QuotedLine) => x.totalHtCents }

  function SelectableAmount(def: Definition, r: Recurrence): PricedLine -> int {
    (p: PricedLine) => if p.recurrence == r && !IsInfo(p, def) then p.totalHtCents else 0
  }

  function InfoAmount(def: Definition): PricedLine -> int {
    (p: PricedLine) => if IsInfo(p, def) then p.totalHtCents else 0
  }

  lemma BucketSum(result: PricingResult, def: Definition, r: Recurrence)
    ensures BucketFor(result, def, r).htCents == SumBy(result.lines, SelectableAmount(def, r))
  {
    hide IsInfo, Breakdowns, Grouped, Normalised;
    forall p | p in result.lines
      ensures SumBy(Selectable(def, r)(p), Ht()) == SelectableAmount(def, r)(p)
    {
      SumByOne(p, Ht());
    }
    SumOfFlatMap(result.lines, Selectable(def, r), Ht(), SelectableAmount(def, r));
  }

  lemma InfoSum(lines: seq<PricedLine>, def: Definition, cfg: Configured)
    ensures SumBy(FlatMap(lines, Quoted(def, cfg, true)), Shown()) == SumBy(lines, InfoAmount(def))
  {
    hide IsInfo, StatusOf, ToCents;
    forall p | p in lines
      ensures SumBy(Quoted(def, cfg, true)(p), Shown()) == InfoAmount(def)(p)
    {
      SumByOne(QuoteLine(p, def, cfg), Shown());
    }
    SumOfFlatMap(lines, Quoted(def, cfg, true), Shown(), InfoAmount(def));
  }

  lemma {:induction false} FiveWays(lines: seq<PricedLine>, def: Definition)
    ensures SumBy(lines, Ht())
         == SumBy(lines, SelectableAmount(def, ONE_OFF)) + SumBy(lines, SelectableAmount(def, MONTHLY))
            + SumBy(lines, SelectableAmount(def, QUARTERLY)) + SumBy(lines, SelectableAmount(def, YEARLY)) + SumBy(lines, InfoAmount(def))
  {
    hide IsInfo;
    if lines != [] {
      FiveWays(lines[..|lines| - 1], def);
    }
  }

  /** No cent is lost: the four buckets and the information lines add up to the HT of the result, whatever the keys. */
  lemma BucketsAndInfoAddUp(def: Definition, sel: SelectionInput, opts: QuoteOptions)
    requires QuoteProposal(def, sel, opts).Ok? && QuoteProposal(def, sel, opts).value.engineResult.Some?
    ensures var q := QuoteProposal(def, sel, opts).value;
            q.oneTime.htCents + q.monthly.htCents + q.quarterly.htCents + q.yearly.htCents + SumBy(q.infoLines, Shown())
            == q.engineResult.value.totals.htCents
  {
    hide Configure, Priceable, IsInfo, ResolveSettings, FlatMap, BucketFor, SumBy, PriceProposal, SelectableAmount, InfoAmount;
    var cfg := Configure(def, sel);
    var result := PriceProposal(def, cfg, opts).value.1;
    BucketSum(result, def, ONE_OFF);
    BucketSum(result, def, MONTHLY);
    BucketSum(result, def, QUARTERLY);
    BucketSum(result, def, YEARLY);
    InfoSum(result.lines, def, cfg);
    FiveWays(result.lines, def);
    ResultTotals(def, cfg, opts);
  }

  lemma ResultTotals(def: Definition, cfg: Configured, opts: QuoteOptions)
    requires PriceProposal(def, cfg, opts).Ok?
    ensures var result := PriceProposal(def, cfg, opts).value.1; result.totals == TotalsOf(result.lines, result.settings.rounding)
  {
    hide PriceLines, EngineLines, SelectSchedule, ResolveSettings, TotalsOf, ValidDay;
  }

  lemma BucketInCents(result: PricingResult, def: Definition, rec: Recurrence, rate: real)
    requires forall p :: p in result.lines ==> p.vat == rate
    requires forall p :: p in result.lines && IsInfo(p, def) ==> p.totalHtCents == 0
    ensures BucketFor(result, def, rec).htCents == SumBy(result.lines, HtOf(rec))
    ensures BucketFor(result, def, rec).vatCents == Vat(SumBy(result.lines, HtOf(rec)), rate, result.settings.rounding)
    ensures BucketFor(result, def, rec).ttcCents == BucketFor(result, def, rec).htCents + BucketFor(result, def, rec).vatCents
  {
    hide Vat, IsInfo, Breakdowns, Grouped, Normalised;
    var kept := FlatMap(result.lines, Selectable(def, rec));
    forall p | p in result.lines
      ensures SumBy(Selectable(def, rec)(p), Ht()) == HtOf(rec)(p)
    {
      SumByOne(p, Ht());
    }
    SumOfFlatMap(result.lines, Selectable(def, rec), Ht(), HtOf(rec));
    forall p | p in kept
      ensures p.vat == rate
    {
      FlatMapMembers(result.lines, Selectable(def, rec), p);
    }
    OneRateVat(kept, rate, result.settings.rounding);
    VatOfNothing(rate, result.settings.rounding);
  }

  /**
   * The four buckets of a quote add up to its HT to the cent, each to the total of its recurrence;
   * their VATs, rounded one by one, add up to the overall VAT within two cents.
   */
  lemma PricedBucketsAddUp(def: Definition, sel: SelectionInput, opts: QuoteOptions)
    requires QuoteProposal(def, sel, opts).Ok? && QuoteProposal(def, sel, opts).value.engineResult.Some?
    requires ResolveSettings(opts.settings).Ok? && SettingsOf(opts).unitPriceScale >= 2
    requires forall p :: p in QuoteProposal(def, sel, opts).value.engineResult.value.lines && IsInfo(p, def) ==> p.totalHtCents == 0
    ensures var q := QuoteProposal(def, sel, opts).value;
            var t := q.engineResult.value.totals;
            && q.oneTime.htCents + q.monthly.htCents + q.quarterly.htCents + q.yearly.htCents == t.htCents
            && q.oneTime.htCents == t.oneOffCents && q.monthly.htCents == t.monthlyLinesCents
            && q.quarterly.htCents == t.quarterlyLinesCents && q.yearly.htCents == t.yearlyLinesCents
            && -2 <= q.oneTime.vatCents + q.monthly.vatCents + q.quarterly.vatCents + q.yearly.vatCents - t.vatCents <= 2
  {
    hide Configure, PriceProposal, Priceable, IsInfo, ResolveSettings, FlatMap, Breakdowns;
    hide Grouped, Normalised, Vat, FirstLines, BucketFor, SumBy, Missing;
    var cfg := Configure(def, sel);
    var result := PriceProposal(def, cfg, opts).value.1;
    var rate := QuoteHasOneRate(def, cfg, opts);
    FinalLines(def, cfg, opts);
    BucketInCents(result, def, ONE_OFF, rate);
    BucketInCents(result, def, MONTHLY, rate);
    BucketInCents(result, def, QUARTERLY, rate);
    BucketInCents(result, def, YEARLY, rate);
    TotalsBySums(result, rate);
    FourRoundings(SumBy(result.lines, HtOf(MONTHLY)), SumBy(result.lines, HtOf(QUARTERLY)), SumBy(result.lines, HtOf(YEARLY)),
                  SumBy(result.lines, HtOf(ONE_OFF)), rate, result.settings.rounding);
  }

  lemma TotalsBySums(result: PricingResult, rate: real)
    requires result.totals == TotalsOf(result.lines, result.settings.rounding) && forall p :: p in result.lines ==> p.vat == rate
    ensures var m, q, y, o := SumBy(result.lines, HtOf(MONTHLY)), SumBy(result.lines, HtOf(QUARTERLY)), SumBy(result.lines, HtOf(YEARLY)), SumBy(result.lines, HtOf(ONE_OFF));
            && result.totals.htCents == m + q + y + o
            && result.totals.monthlyLinesCents == m && result.totals.quarterlyLinesCents == q
            && result.totals.yearlyLinesCents == y && result.totals.oneOffCents == o
            && result.totals.vatCents == Vat(m + q + y + o, rate, result.settings.rounding)
  {
    hide Vat, Grouped, Breakdowns, Normalised;
    RecurrencesHoldEverything(result.lines);
    OneRateVat(result.lines, rate, result.settings.rounding);
  }

  // ----------------------------------------------------------- over the commitment

  lemma BucketWithTax(lines: seq<PricedLine>, mode: RoundingMode)
    ensures BucketOf(lines, mode).ttcCents == BucketOf(lines, mode).htCents + BucketOf(lines, mode).vatCents
  {
  }

  lemma OverAdds(a: ProposalBucket, b: ProposalBucket, c: ProposalBucket, months: nat)
    requires a.ttcCents == a.htCents + a.vatCents && b.ttcCents == b.htCents + b.vatCents && c.ttcCents == c.htCents + c.vatCents
    ensures var t := CommitmentOf(a, b, c, months); t.ttcCents == t.htCents + t.vatCents
  {
  }

  /** Whole quarters and years: twelve times the commitment is the months times the annual amount. */
  lemma WholePeriods(monthly: int, quarterly: int, yearly: int, months: nat)
    requires (quarterly == 0 || months % 3 == 0) && (yearly == 0 || months % 12 == 0)
    ensures 12 * Over(monthly, quarterly, yearly, months) == months * (12 * monthly + 4 * quarterly + yearly)
  {
    assert quarterly * (12 * (months / 3)) == quarterly * (4 * months);
    assert yearly * (12 * (months / 12)) == yearly * months;
  }

  /**
   * The total over the commitment adds up with its tax, and when no duration is reported as uneven it
   * is exactly the recurring amounts over that many months: no quarter or year is cut.
   */
  lemma CommitmentAddsUp(def: Definition, sel: SelectionInput, opts: QuoteOptions)
    requires QuoteProposal(def, sel, opts).Ok? && QuoteProposal(def, sel, opts).value.engineResult.Some?
    ensures var q := QuoteProposal(def, sel, opts).value;
            && q.commitment.ttcCents == q.commitment.htCents + q.commitment.vatCents
            && (DurationNotQuarterly !in q.errors && DurationNotYearly !in q.errors ==>
                  12 * q.commitment.htCents
                  == q.commitmentMonths * (12 * q.monthly.htCents + 4 * q.quarterly.htCents + q.yearly.htCents))
  {
    hide Configure, PriceProposal, Priceable, ResolveSettings, BucketOf, FlatMap, Over;
    var q := QuoteProposal(def, sel, opts).value;
    var result := q.engineResult.value;
    BucketWithTax(FlatMap(result.lines, Selectable(def, MONTHLY)), result.settings.rounding);
    BucketWithTax(FlatMap(result.lines, Selectable(def, QUARTERLY)), result.settings.rounding);
    BucketWithTax(FlatMap(result.lines, Selectable(def, YEARLY)), result.settings.rounding);
    OverAdds(q.monthly, q.quarterly, q.yearly, q.commitmentMonths);
    if DurationNotQuarterly !in q.errors && DurationNotYearly !in q.errors {
      WholePeriods(q.monthly.htCents, q.quarterly.htCents, q.yearly.htCents, q.commitmentMonths);
    }
  }
}

/**
 * A priced proposal refines a specification in whole cents: unit cents x quantity, discounts rounded
 * once, the monthly minimum reached exactly, and the frozen schedule priced alike at any later date.
 */
module ProposalFacts {
  import opened Outcomes
  import opened Sums
  import opened Money
  import opened DecimalText
  import opened PricingTypes
  import opened LinePricing
  import opened Totals
  import opened Engine
  import opened EngineFacts
  import opened EngineLocality
  import opened Configuration
  import opened ConfigurationFacts
  import opened Proposals
  import opened ProposalLines

  // ------------------------------------------------- the specification in cents

  /** The recurrence under which a billing is charged: displayed prices go with what is charged once. */
  predicate BilledIn(b: Billing, rec: Recurrence) {
    match rec
    case MONTHLY => b == Monthly
    case QUARTERLY => b == Quarterly
    case YEARLY => b == Yearly
    case ONE_OFF => b == OneTime || b == NotBilled
  }

  function RecurrenceOf(b: Billing): (rec: Recurrence)
    ensures BilledIn(b, rec)
  {
    if b == Monthly then MONTHLY else if b == Quarterly then QUARTERLY else if b == Yearly then YEARLY else ONE_OFF
  }

  /** What a line of the model costs, in whole cents. */
  function SpecAmount(l: ProposalLine, cfg: Configured): int {
    Units(l, cfg) * UnitPriceCents(l, cfg.choices).GetOr(0)
  }

  function SpecIn(cfg: Configured, r: Recurrence): ProposalLine -> int {
    (l: ProposalLine) => if RecurrenceOf(l.billing) == r then SpecAmount(l, cfg) else 0
  }

  function AmountOfKey(def: Definition, cfg: Configured): string -> int {
    (k: string) => if LineOf(def.lines, k).Some? then SpecAmount(LineOf(def.lines, k).value, cfg) else 0
  }

  /** The retained lines that a discount applies to. */
  function SpecTargets(r: Rule, cfg: Configured): seq<string> {
    if !r.DiscountPercent? || r.when !in cfg.included then [] else FlatMap(r.appliesTo, Present(cfg))
  }

  function PercentText(text: string): real {
    if ParseDecimal(text, 4, false).Err? then 0.0 else ParseDecimal(text, 4, false).value
  }

  function Percent(r: Rule): real {
    if !r.DiscountPercent? then 0.0 else PercentText(r.percent)
  }

  /** A percentage of an amount of cents, rounded once to cents. */
  function Share(base: int, percent: real, mode: RoundingMode): int {
    Round(base as real * percent / 100.0, mode)
  }

  /** What a discount rule takes off: its share of the targets, rounded once. */
  function SpecReduction(r: Rule, def: Definition, cfg: Configured, mode: RoundingMode): int {
    if SpecTargets(r, cfg) == [] then 0
    else -Share(SumBy(SpecTargets(r, cfg), AmountOfKey(def, cfg)), Percent(r), mode)
  }

  function KeyRecurrence(k: string, def: Definition): Recurrence {
    if LineOf(def.lines, k).None? then ONE_OFF else RecurrenceOf(LineOf(def.lines, k).value.billing)
  }

  function SpecReductionIn(def: Definition, cfg: Configured, mode: RoundingMode, rec: Recurrence): Rule -> int {
    (r: Rule) =>
      if SpecTargets(r, cfg) != [] && KeyRecurrence(SpecTargets(r, cfg)[0], def) == rec then SpecReduction(r, def, cfg, mode) else 0
  }

  // ------------------------------------------------------ where engine lines come from

  lemma LineSources(def: Definition, cfg: Configured, line: Line)
    requires line in EngineLines(def, cfg)
    ensures (exists l :: l in def.lines && line in Billed(def, cfg)(l)) || (exists l :: l in def.lines && line in Displayed(def, cfg)(l))
         || exists r :: r in def.rules && line in Discounts(def, cfg)(r)
  {
    hide Billed, Displayed, Discounts;
    FlatMapMembers(def.lines, Billed(def, cfg), line);
    FlatMapMembers(def.lines, Displayed(def, cfg), line);
    FlatMapMembers(def.rules, Discounts(def, cfg), line);
  }

  lemma SourcesGiveLines(def: Definition, cfg: Configured, line: Line)
    requires (exists l :: l in def.lines && line in Billed(def, cfg)(l)) || (exists l :: l in def.lines && line in Displayed(def, cfg)(l))
          || exists r :: r in def.rules && line in Discounts(def, cfg)(r)
    ensures line in EngineLines(def, cfg)
  {
    hide Billed, Displayed, Discounts;
    FlatMapMembers(def.lines, Billed(def, cfg), line);
    FlatMapMembers(def.lines, Displayed(def, cfg), line);
    FlatMapMembers(def.rules, Discounts(def, cfg), line);
  }

  /** A line given to the engine is a plain manual line or a discount. */
  ghost predicate Plain(line: Line) {
    exists id, code, kind, rec, qty: nat, cents, vat {:trigger ManualLine(id, code, kind, rec, qty, cents, vat)} ::
      Simple(kind) && line == ManualLine(id, code, kind, rec, qty, cents, vat)
  }

  lemma EngineLineIsPlain(l: ProposalLine, qty: nat, cents: int, def: Definition, cfg: Configured)
    ensures Plain(EngineLine(l, qty, cents, def, cfg)) && EngineLine(l, qty, cents, def, cfg).kind != DISCOUNT
  {
    hide NatText, CentsText, ArticleCode;
    var line := EngineLine(l, qty, cents, def, cfg);
    assert line == ManualLine(l.key, ArticleCode(l, cfg.choices), EngineKind(l), line.recurrence, qty, cents, def.vat);
  }

  lemma EngineLinesArePlain(def: Definition, cfg: Configured, line: Line)
    requires line in EngineLines(def, cfg) && line.kind != DISCOUNT
    ensures Plain(line)
  {
    hide Plain, EngineLine, UnitPriceCents, Units, EngineLines, FlatMap;
    LineSources(def, cfg, line);
    if l :| l in def.lines && line in Billed(def, cfg)(l) {
      EngineLineIsPlain(l, Units(l, cfg), UnitPriceCents(l, cfg.choices).GetOr(0), def, cfg);
    } else if l :| l in def.lines && line in Displayed(def, cfg)(l) {
      EngineLineIsPlain(l, 0, UnitPriceCents(l, cfg.choices).value, def, cfg);
    }
  }

  // --------------------------------------------------------------- one line, in cents

  /** What a priced line of a proposal must be. */
  ghost predicate IsCents(p: PricedLine, key: string, units: nat, cents: int, rec: Recurrence) {
    && p.lineId == key && p.kind != DISCOUNT && p.quantity == units as real && p.unitPrice == CentsToEuros(cents)
    && p.totalHtCents == units * cents && p.recurrence == rec
  }

  /** A line given to the engine is priced exactly when its rate, quantity and price can be read back. */
  lemma EngineLineInCents(l: ProposalLine, qty: nat, cents: int, def: Definition, cfg: Configured, ctx: Ctx)
    requires NoOverrides(ctx) && ctx.settings.unitPriceScale >= 2
    ensures var priced := RegularLine(EngineLine(l, qty, cents, def, cfg), ctx);
            && (priced.Ok? <==> VatReadable(def.vat) && Readable(qty, cents))
            && (priced.Ok? ==>
                  IsCents(priced.value, l.key, qty, cents, RecurrenceOf(l.billing)) && ParseDecimal(def.vat, 4, false) == Ok(priced.value.vat))
  {
    hide RegularLine, NatText, CentsText, ArticleCode, ParseDecimal, CentsToEuros, Readable;
    var line := EngineLine(l, qty, cents, def, cfg);
    PlainLinePriced(l.key, ArticleCode(l, cfg.choices), EngineKind(l), line.recurrence, qty, cents, def.vat, ctx);
  }

  /** The rate of the model is a percentage that the engine accepts. */
  predicate VatReadable(vat: string) {
    ParseDecimal(vat, 4, false).Ok? && ParseDecimal(vat, 4, false).value <= 100.0
  }

  /** The engine context of a proposal. */
  ghost predicate ProposalCtx(ctx: Ctx) { NoOverrides(ctx) && ctx.settings.unitPriceScale >= 2 }

  /** Each retained or displayed line costs exactly unit cents times quantity. */
  lemma ModelLineInCents(def: Definition, cfg: Configured, ctx: Ctx, l: ProposalLine, i: nat)
    requires ProposalCtx(ctx) && PriceLines(EngineLines(def, cfg), ctx).Ok? && l in def.lines
    requires i < |EngineLines(def, cfg)| && EngineLines(def, cfg)[i] in Billed(def, cfg)(l) + Displayed(def, cfg)(l)
    ensures i < |PriceLines(EngineLines(def, cfg), ctx).value|
    ensures IsCents(PriceLines(EngineLines(def, cfg), ctx).value[i], l.key, Units(l, cfg), UnitPriceCents(l, cfg.choices).GetOr(0), RecurrenceOf(l.billing))
  {
    hide RegularLine, PriceLines, EngineLines, UnitPriceCents, EngineLine, IsCents, LineOf;
    var lines := EngineLines(def, cfg);
    var cents := UnitPriceCents(l, cfg.choices).GetOr(0);
    assert lines[i] == EngineLine(l, Units(l, cfg), cents, def, cfg);
    hide Units;
    PricedLineByLine(lines, ctx, i);
    EngineLineIsPlain(l, Units(l, cfg), cents, def, cfg);
    EngineLineInCents(l, Units(l, cfg), cents, def, cfg, ctx);
  }

  // ------------------------------------------------------------------ discounts, in cents

  /** What the engine's regular pass knows of a key of the model. */
  lemma KeyInCents(def: Definition, cfg: Configured, ctx: Ctx, k: string)
    requires ProposalCtx(ctx) && DistinctKeys(def.lines) && Distinct(LineIds(EngineLines(def, cfg)))
    requires RegularPass(EngineLines(def, cfg), ctx).Ok? && k in RegularPass(EngineLines(def, cfg), ctx).value
    ensures var p := RegularPass(EngineLines(def, cfg), ctx).value[k];
            && p.lineId == k && p.totalHtCents == AmountOfKey(def, cfg)(k) && p.recurrence == KeyRecurrence(k, def)
            && ParseDecimal(def.vat, 4, false) == Ok(p.vat)
  {
    hide RegularLine, EngineLines, UnitPriceCents, EngineLine, RegularPass, Units, Billed, Displayed, Discounts, ParseDecimal;
    var lines := EngineLines(def, cfg);
    PassKeys(lines, lines, ctx, map[]);
    RegularPassPointwise(lines, ctx);
    var line :| line in lines && line.kind != DISCOUNT && line.id == k;
    var l := RegularSource(def, cfg, line);
    SourceLine(def, cfg, l, line);
    EngineLineInCents(l, Units(l, cfg), UnitPriceCents(l, cfg.choices).GetOr(0), def, cfg, ctx);
    LineOfOwnKey(def.lines, l);
  }

  lemma SourceLine(def: Definition, cfg: Configured, l: ProposalLine, line: Line)
    requires line in Billed(def, cfg)(l) + Displayed(def, cfg)(l)
    ensures line == EngineLine(l, Units(l, cfg), UnitPriceCents(l, cfg.choices).GetOr(0), def, cfg)
    ensures Units(l, cfg) > 0 || (l.kind == Info && UnitPriceCents(l, cfg.choices).Some?)
  {
    hide UnitPriceCents, EngineLine;
  }

  lemma RegularSource(def: Definition, cfg: Configured, line: Line) returns (l: ProposalLine)
    requires line in EngineLines(def, cfg) && line.kind != DISCOUNT
    ensures l in def.lines && line.id == l.key && line in Billed(def, cfg)(l) + Displayed(def, cfg)(l)
  {
    hide EngineLines, EngineLine, Units, UnitPriceCents;
    LineSources(def, cfg, line);
    if m :| m in def.lines && line in Billed(def, cfg)(m) {
      EngineLineKey(m, Units(m, cfg), UnitPriceCents(m, cfg.choices).GetOr(0), def, cfg);
      l := m;
    } else if m :| m in def.lines && line in Displayed(def, cfg)(m) {
      EngineLineKey(m, 0, UnitPriceCents(m, cfg.choices).value, def, cfg);
      l := m;
    }
  }

  lemma DiscountSource(def: Definition, cfg: Configured, line: Line) returns (r: Rule)
    requires line in EngineLines(def, cfg) && line.kind == DISCOUNT
    ensures r in def.rules && line.id == r.key && line in Discounts(def, cfg)(r)
  {
    hide EngineLines, Units, UnitPriceCents, EngineLine, Present, FlatMap;
    LineSources(def, cfg, line);
    if l :| l in def.lines && line in Billed(def, cfg)(l) {
      EngineLineKey(l, Units(l, cfg), UnitPriceCents(l, cfg.choices).GetOr(0), def, cfg);
    } else if l :| l in def.lines && line in Displayed(def, cfg)(l) {
      EngineLineKey(l, 0, UnitPriceCents(l, cfg.choices).value, def, cfg);
    } else {
      r :| r in def.rules && line in Discounts(def, cfg)(r);
    }
  }

  lemma ShareInCents(base: int, percent: real, mode: RoundingMode)
    ensures ToCents(-PercentOf(CentsToEuros(base), percent), mode) == -Share(base, percent, mode)
  {
    hide Round;
    var off, share := PercentOf(CentsToEuros(base), percent), base as real * percent / 100.0;
    ShareRearranged(base, percent);
    hide PercentOf, CentsToEuros;
    assert -off * 100.0 == -share;
    RoundSymmetric(share, mode);
  }

  lemma ShareRearranged(base: int, percent: real)
    ensures PercentOf(CentsToEuros(base), percent) * 100.0 == base as real * percent / 100.0
  {
    Rearranged(base as real, percent);
  }

  lemma Rearranged(base: real, percent: real)
    ensures base / 100.0 * percent / 100.0 * 100.0 == base * percent / 100.0
  {
    assert base / 100.0 * percent == base * percent / 100.0;
  }

  /** A discount line is minus its percentage of the targets, rounded once to cents. */
  lemma RuleInCents(def: Definition, cfg: Configured, ctx: Ctx, r: Rule, i: nat)
    requires ProposalCtx(ctx) && DistinctKeys(def.lines) && PriceLines(EngineLines(def, cfg), ctx).Ok?
    requires r in def.rules && i < |EngineLines(def, cfg)| && EngineLines(def, cfg)[i] in Discounts(def, cfg)(r)
    ensures i < |PriceLines(EngineLines(def, cfg), ctx).value|
    ensures var p := PriceLines(EngineLines(def, cfg), ctx).value[i];
            && p.lineId == r.key && p.kind == DISCOUNT && SpecTargets(r, cfg) != []
            && p.totalHtCents == SpecReduction(r, def, cfg, ctx.settings.rounding)
            && p.recurrence == KeyRecurrence(SpecTargets(r, cfg)[0], def)
  {
    hide RegularLine, PriceLines, EngineLines, RegularPass, Present, FlatMap;
    hide ParseDecimal, Share, ToCents, PercentOf, CentsToEuros, LineOf, SpecAmount;
    var lines := EngineLines(def, cfg);
    PricedExactlyWhen(lines, ctx);
    var regular := RegularPass(lines, ctx).value;
    PricedLineByLine(lines, ctx, i);
    PassIsPricedMap(lines, ctx);
    var line, ids := lines[i], SpecTargets(r, cfg);
    DiscountWithinTargets(line, lines, regular, ctx.settings);
    var targets := Targets(Lines(ids), lines, regular).value;
    TargetsInCents(def, cfg, ctx, ids);
    var p := PriceLines(lines, ctx).value[i];
    DiscountParts(line, lines, regular, ctx.settings);
    assert SumBy(targets, Ht()) == SumBy(ids, AmountOfKey(def, cfg));
    ShareInCents(SumBy(ids, AmountOfKey(def, cfg)), Percent(r), ctx.settings.rounding);
  }

  /** The parts of a percentage discount that its price is made of. */
  lemma DiscountParts(line: Line, all: seq<Line>, regular: map<string, PricedLine>, s: Settings)
    requires line.discount.Some? && line.discount.value.kind == PERCENT && line.discount.value.appliesTo.Lines?
    requires DiscountLine(line, all, regular, s).Ok?
    ensures var targets := Targets(line.discount.value.appliesTo, all, regular);
            var percent := ParseDecimal(line.discount.value.value, 4, false);
            && targets.Ok? && targets.value != [] && percent.Ok?
            && DiscountLine(line, all, regular, s).value.totalHtCents
               == ToCents(-PercentOf(CentsToEuros(SumBy(targets.value, Ht())), percent.value), s.rounding)
  {
    hide ParseDecimal, Targets, ToCents, PercentOf, CentsToEuros, SumBy, Homogeneous;
  }

  lemma TargetsInCents(def: Definition, cfg: Configured, ctx: Ctx, ids: seq<string>)
    requires ProposalCtx(ctx) && DistinctKeys(def.lines) && Distinct(LineIds(EngineLines(def, cfg)))
    requires RegularPass(EngineLines(def, cfg), ctx).Ok?
    requires Targets(Lines(ids), EngineLines(def, cfg), RegularPass(EngineLines(def, cfg), ctx).value).Ok?
    ensures var targets := Targets(Lines(ids), EngineLines(def, cfg), RegularPass(EngineLines(def, cfg), ctx).value).value;
            && |targets| == |ids|
            && SumBy(targets, Ht()) == SumBy(ids, AmountOfKey(def, cfg))
            && forall i :: 0 <= i < |ids| ==>
                 targets[i].recurrence == KeyRecurrence(ids[i], def) && ParseDecimal(def.vat, 4, false) == Ok(targets[i].vat)
  {
    hide EngineLines, RegularPass, LineOf, SpecAmount, ParseDecimal;
    var regular := RegularPass(EngineLines(def, cfg), ctx).value;
    var targets := Targets(Lines(ids), EngineLines(def, cfg), regular).value;
    forall i | 0 <= i < |ids|
      ensures Ht()(targets[i]) == AmountOfKey(def, cfg)(ids[i])
      ensures targets[i].recurrence == KeyRecurrence(ids[i], def) && ParseDecimal(def.vat, 4, false) == Ok(targets[i].vat)
    {
      assert ids[i] in ids;
      KeyInCents(def, cfg, ctx, ids[i]);
    }
    SumByPointwise(targets, ids, Ht(), AmountOfKey(def, cfg));
  }

  // ------------------------------------------------------------------- totals, in cents

  /** The specified amount of a discount in one recurrence. */
  function SpecOff(d: DiscountSpec, def: Definition, cfg: Configured, mode: RoundingMode, rec: Recurrence): int {
    if d.appliesTo.Subtotal? || d.appliesTo.lineIds == [] || KeyRecurrence(d.appliesTo.lineIds[0], def) != rec then 0
    else -Share(SumBy(d.appliesTo.lineIds, AmountOfKey(def, cfg)), PercentText(d.value), mode)
  }

  /** The specified amount of an engine line in one recurrence, found by its key or its targets. */
  function SpecOf(def: Definition, cfg: Configured, mode: RoundingMode, rec: Recurrence): Line -> int {
    (line: Line) =>
      if line.kind == DISCOUNT then
        if line.discount.None? then 0 else SpecOff(line.discount.value, def, cfg, mode, rec)
      else
        var l := LineOf(def.lines, line.id);
        if l.None? then 0 else SpecIn(cfg, rec)(l.value)
  }

  lemma RegularAsSpecified(def: Definition, cfg: Configured, ctx: Ctx, rec: Recurrence, i: nat)
    requires ProposalCtx(ctx) && DistinctKeys(def.lines) && PriceLines(EngineLines(def, cfg), ctx).Ok? && i < |EngineLines(def, cfg)|
    requires EngineLines(def, cfg)[i].kind != DISCOUNT
    ensures i < |PriceLines(EngineLines(def, cfg), ctx).value|
    ensures HtOf(rec)(PriceLines(EngineLines(def, cfg), ctx).value[i])
         == SpecOf(def, cfg, ctx.settings.rounding, rec)(EngineLines(def, cfg)[i])
  {
    hide PriceLines, EngineLines, UnitPriceCents, Units, LineOf, SpecOff, Billed, Displayed, ProposalCtx;
    var line := EngineLines(def, cfg)[i];
    var l := RegularSource(def, cfg, line);
    ModelLineInCents(def, cfg, ctx, l, i);
    LineOfOwnKey(def.lines, l);
    var p := PriceLines(EngineLines(def, cfg), ctx).value[i];
    assert p.totalHtCents == SpecAmount(l, cfg);
    assert p.recurrence == RecurrenceOf(l.billing);
    assert LineOf(def.lines, line.id) == Some(l);
    assert SpecOf(def, cfg, ctx.settings.rounding, rec)(line) == SpecIn(cfg, rec)(l);
  }

  lemma DiscountAsSpecified(def: Definition, cfg: Configured, ctx: Ctx, rec: Recurrence, i: nat)
    requires ProposalCtx(ctx) && DistinctKeys(def.lines) && PriceLines(EngineLines(def, cfg), ctx).Ok? && i < |EngineLines(def, cfg)|
    requires EngineLines(def, cfg)[i].kind == DISCOUNT
    ensures i < |PriceLines(EngineLines(def, cfg), ctx).value|
    ensures HtOf(rec)(PriceLines(EngineLines(def, cfg), ctx).value[i])
         == SpecOf(def, cfg, ctx.settings.rounding, rec)(EngineLines(def, cfg)[i])
  {
    hide PriceLines, EngineLines, LineOf, SpecReduction, SpecTargets, KeyRecurrence, ProposalCtx, SpecOff, SpecReductionIn, Discounts;
    var line := EngineLines(def, cfg)[i];
    var r := DiscountSource(def, cfg, line);
    RuleInCents(def, cfg, ctx, r, i);
    DiscountAsRule(def, cfg, ctx.settings.rounding, rec, r, line);
    assert SpecReductionIn(def, cfg, ctx.settings.rounding, rec)(r)
        == if KeyRecurrence(SpecTargets(r, cfg)[0], def) == rec then SpecReduction(r, def, cfg, ctx.settings.rounding) else 0 by {
      SpecReductionOfRule(def, cfg, ctx.settings.rounding, rec, r);
    }
  }

  lemma SpecReductionOfRule(def: Definition, cfg: Configured, mode: RoundingMode, rec: Recurrence, r: Rule)
    requires SpecTargets(r, cfg) != []
    ensures SpecReductionIn(def, cfg, mode, rec)(r) == if KeyRecurrence(SpecTargets(r, cfg)[0], def) == rec then SpecReduction(r, def, cfg, mode) else 0
  {
    hide SpecTargets, KeyRecurrence, SpecReduction;
  }

  lemma DiscountAsRule(def: Definition, cfg: Configured, mode: RoundingMode, rec: Recurrence, r: Rule, line: Line)
    requires line in Discounts(def, cfg)(r)
    ensures line.kind == DISCOUNT && SpecOf(def, cfg, mode, rec)(line) == SpecReductionIn(def, cfg, mode, rec)(r)
  {
    hide Present, FlatMap, KeyRecurrence, Share, PercentText, SumBy;
    var ids := SpecTargets(r, cfg);
    assert ids == FlatMap(r.appliesTo, Present(cfg)) && ids != [];
    assert line.discount == Some(DiscountSpec(PERCENT, r.percent, Lines(ids)));
    assert SpecOff(line.discount.value, def, cfg, mode, rec)
        == if KeyRecurrence(ids[0], def) == rec then SpecReduction(r, def, cfg, mode) else 0;
  }

  function Nothing(): ProposalLine -> int { (_: ProposalLine) => 0 }

  lemma BilledSum(def: Definition, cfg: Configured, mode: RoundingMode, rec: Recurrence, l: ProposalLine)
    requires DistinctKeys(def.lines) && l in def.lines
    ensures SumBy(Billed(def, cfg)(l), SpecOf(def, cfg, mode, rec)) == SpecIn(cfg, rec)(l)
    ensures SumBy(Displayed(def, cfg)(l), SpecOf(def, cfg, mode, rec)) == 0
  {
    hide UnitPriceCents, EngineLine, LineOf;
    LineOfOwnKey(def.lines, l);
    var cents := UnitPriceCents(l, cfg.choices).GetOr(0);
    EngineLineKey(l, Units(l, cfg), cents, def, cfg);
    EngineLineKey(l, 0, cents, def, cfg);
    SumByOne(EngineLine(l, Units(l, cfg), cents, def, cfg), SpecOf(def, cfg, mode, rec));
    SumByOne(EngineLine(l, 0, cents, def, cfg), SpecOf(def, cfg, mode, rec));
  }

  lemma EngineLineKey(l: ProposalLine, qty: nat, cents: int, def: Definition, cfg: Configured)
    ensures EngineLine(l, qty, cents, def, cfg).id == l.key && EngineLine(l, qty, cents, def, cfg).kind != DISCOUNT
  {
    hide NatText, CentsText;
  }

  lemma DiscountSum(def: Definition, cfg: Configured, mode: RoundingMode, rec: Recurrence, r: Rule)
    requires DistinctKeys(def.lines) && r in def.rules
    ensures SumBy(Discounts(def, cfg)(r), SpecOf(def, cfg, mode, rec)) == SpecReductionIn(def, cfg, mode, rec)(r)
  {
    hide SpecReduction, LineOf, Present, FlatMap, SpecOff, SpecOf;
    if SpecTargets(r, cfg) != [] {
      DiscountAsRule(def, cfg, mode, rec, r, Discounts(def, cfg)(r)[0]);
      SumByOne(Discounts(def, cfg)(r)[0], SpecOf(def, cfg, mode, rec));
    }
  }

  lemma SpecSum(def: Definition, cfg: Configured, mode: RoundingMode, rec: Recurrence)
    requires DistinctKeys(def.lines)
    ensures SumBy(EngineLines(def, cfg), SpecOf(def, cfg, mode, rec))
         == SumBy(def.lines, SpecIn(cfg, rec)) + SumBy(def.rules, SpecReductionIn(def, cfg, mode, rec))
  {
    hide SpecOf, SpecIn, SpecReductionIn, Billed, Displayed, Discounts;
    var g := SpecOf(def, cfg, mode, rec);
    var billed, displayed, discounts := FlatMap(def.lines, Billed(def, cfg)), FlatMap(def.lines, Displayed(def, cfg)), FlatMap(def.rules, Discounts(def, cfg));
    forall l | l in def.lines
      ensures SumBy(Billed(def, cfg)(l), g) == SpecIn(cfg, rec)(l) && SumBy(Displayed(def, cfg)(l), g) == Nothing()(l)
    {
      BilledSum(def, cfg, mode, rec, l);
    }
    forall r | r in def.rules
      ensures SumBy(Discounts(def, cfg)(r), g) == SpecReductionIn(def, cfg, mode, rec)(r)
    {
      DiscountSum(def, cfg, mode, rec, r);
    }
    SumOfFlatMap(def.lines, Billed(def, cfg), g, SpecIn(cfg, rec));
    SumOfFlatMap(def.lines, Displayed(def, cfg), g, Nothing());
    SumByZero(def.lines, Nothing());
    SumOfFlatMap(def.rules, Discounts(def, cfg), g, SpecReductionIn(def, cfg, mode, rec));
    SumByAppend(billed + displayed, discounts, g);
    SumByAppend(billed, displayed, g);
  }

  /** The total of each recurrence, before any minimum, is the specified one. */
  lemma TotalsInCents(def: Definition, cfg: Configured, ctx: Ctx, rec: Recurrence)
    requires ProposalCtx(ctx) && DistinctKeys(def.lines) && PriceLines(EngineLines(def, cfg), ctx).Ok?
    ensures SumBy(PriceLines(EngineLines(def, cfg), ctx).value, HtOf(rec))
         == SumBy(def.lines, SpecIn(cfg, rec)) + SumBy(def.rules, SpecReductionIn(def, cfg, ctx.settings.rounding, rec))
  {
    hide PriceLines, EngineLines, SpecOf, SpecIn, SpecReductionIn, HtOf;
    var lines, priced := EngineLines(def, cfg), PriceLines(EngineLines(def, cfg), ctx).value;
    PricedLength(lines, ctx);
    forall i | 0 <= i < |lines|
      ensures HtOf(rec)(priced[i]) == SpecOf(def, cfg, ctx.settings.rounding, rec)(lines[i])
    {
      if lines[i].kind == DISCOUNT {
        DiscountAsSpecified(def, cfg, ctx, rec, i);
      } else {
        RegularAsSpecified(def, cfg, ctx, rec, i);
      }
    }
    SumByPointwise(priced, lines, HtOf(rec), SpecOf(def, cfg, ctx.settings.rounding, rec));
    SpecSum(def, cfg, ctx.settings.rounding, rec);
  }
}

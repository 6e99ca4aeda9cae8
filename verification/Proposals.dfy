/**
 * Second step of a proposal: the configuration becomes a schedule priced by the engine
 * (packages/pricing/src/proposal.ts, `quoteProposal`).
 */
module Proposals {
  import opened Outcomes
  import opened Sums
  import opened Money
  import opened DecimalText
  import opened Calendar
  import opened PricingTypes
  import opened Totals
  import opened Engine
  import opened Configuration

  datatype QuoteOptions = QuoteOptions(date: Day, settings: PartialSettings, scheduleId: string)

  datatype ProposalBucket = ProposalBucket(htCents: int, vatCents: int, ttcCents: int)

  datatype QuotedLine = QuotedLine(key: string, quantity: real, unitPriceCents: int, totalHtCents: int, priceStatus: PriceStatus)

  /** The schedule and its result are absent when the configuration cannot be priced. */
  datatype ProposalQuote = ProposalQuote(
    choices: map<string, string>, quantities: map<string, real>, commitmentMonths: nat,
    lines: seq<QuotedLine>, infoLines: seq<QuotedLine>,
    oneTime: ProposalBucket, monthly: ProposalBucket, quarterly: ProposalBucket, yearly: ProposalBucket,
    commitment: ProposalBucket, errors: set<ConfigError>,
    engineSchedule: Option<Schedule>, engineResult: Option<PricingResult>)

  // -------------------------------------------------------------- engine lines

  function EngineRecurrence(b: Billing): Recurrence {
    match b
    case Monthly => MONTHLY
    case Quarterly => QUARTERLY
    case Yearly => YEARLY
    case _ => ONE_OFF
  }

  /** Code of the grid variant of the current choice, else the key of the line. */
  function ArticleCode(l: ProposalLine, choices: map<string, string>): string {
    if l.variants.None? then l.key
    else
      var version := match l.pricing
        case OnePrice(_) => Some("*")
        case ByChoice(dependsOn, _) => if dependsOn in choices then Some(choices[dependsOn]) else None;
      if version.Some? && version.value in l.variants.value then l.variants.value[version.value] else l.key
  }

  function EngineKind(l: ProposalLine): LineKind {
    match l.billing
    case NotBilled => if l.hourly then HOURLY else UNIT
    case OneTime => SETUP_FEE
    case _ => UNIT
  }

  function ManualLine(id: string, code: string, kind: LineKind, recurrence: Option<Recurrence>, qty: nat, cents: int, vat: string): Line {
    Line(id, code, kind, MANUAL, vat, Some(Fixed(NatText(qty))), recurrence, Some(CentsText(cents)), None, None, None, None, None, None)
  }

  /** `toEngineLine`: a manual line at a fixed quantity, its price printed in euros. */
  function EngineLine(l: ProposalLine, qty: nat, cents: int, def: Definition, cfg: Configured): Line {
    ManualLine(l.key, ArticleCode(l, cfg.choices), EngineKind(l),
               if l.billing == OneTime then None else Some(EngineRecurrence(l.billing)), qty, cents, def.vat)
  }

  /** How many of a line are charged: none of an information line. */
  function Units(l: ProposalLine, cfg: Configured): nat {
    var q := Configuration.Quantity(cfg.included, l.key);
    if l.kind == Info || !ValidQuantity(q) then 0 else q.Floor
  }

  function Billed(def: Definition, cfg: Configured): ProposalLine -> seq<Line> {
    (l: ProposalLine) =>
      if Units(l, cfg) == 0 then [] else [EngineLine(l, Units(l, cfg), UnitPriceCents(l, cfg.choices).GetOr(0), def, cfg)]
  }

  function Displayed(def: Definition, cfg: Configured): ProposalLine -> seq<Line> {
    (l: ProposalLine) =>
      var price := UnitPriceCents(l, cfg.choices);
      if l.kind != Info || price.None? then [] else [EngineLine(l, 0, price.value, def, cfg)]
  }

  function Present(cfg: Configured): string -> seq<string> {
    (k: string) => if Configuration.Quantity(cfg.included, k) > 0.0 then [k] else []
  }

  function Discounts(def: Definition, cfg: Configured): Rule -> seq<Line> {
    (r: Rule) =>
      if !r.DiscountPercent? || r.when !in cfg.included then []
      else
        var targets := FlatMap(r.appliesTo, Present(cfg));
        if targets == [] then []
        else [Line(r.key, r.key, DISCOUNT, MANUAL, def.vat, None, None, None, None, None, None, None, None,
                   Some(DiscountSpec(PERCENT, r.percent, Lines(targets))))]
  }

  /** Retained lines in the order of the model, then displayed prices, then discounts. */
  function EngineLines(def: Definition, cfg: Configured): seq<Line> {
    FlatMap(def.lines, Billed(def, cfg)) + FlatMap(def.lines, Displayed(def, cfg)) + FlatMap(def.rules, Discounts(def, cfg))
  }

  // -------------------------------------------------------------- two pricings

  function ScheduleOf(lines: seq<Line>, opts: QuoteOptions): Schedule {
    Schedule(opts.scheduleId, opts.date, None, lines)
  }

  function NoFormula(expression: string, variables: map<string, real>, mode: RoundingMode): Result<real> { Err(FORMULA_ERROR) }

  /** No overrides, indexes, catalogue or provided quantities: the schedule says everything. */
  function InputOf(schedule: Schedule, settings: PartialSettings): PricingInput {
    PricingInput([schedule], [], [], [], [], settings, None, NoFormula)
  }

  function MinimumOf(rules: seq<Rule>): (m: Option<Rule>)
    ensures m.Some? ==> m.value.MinimumMonthly? && m.value in rules
  {
    if rules == [] then None
    else if rules[0].MinimumMonthly? then Some(rules[0])
    else MinimumOf(rules[1..])
  }

  function ComplementLine(r: Rule, complement: int, vat: string): Line {
    ManualLine(r.key, r.key, FLAT_MONTHLY, None, 1, complement, vat)
  }

  /** The schedule is priced; below the monthly minimum, a complement line is added and all is priced again. */
  function PriceProposal(def: Definition, cfg: Configured, opts: QuoteOptions): Result<(Schedule, PricingResult)> {
    var lines := EngineLines(def, cfg);
    var first := ScheduleOf(lines, opts);
    var result :- PriceAt(InputOf(first, opts.settings), opts.date);
    var minimum := MinimumOf(def.rules);
    if minimum.None? || result.totals.monthlyLinesCents >= minimum.value.amountCents then Ok((first, result))
    else
      var complement := minimum.value.amountCents - result.totals.monthlyLinesCents;
      var second := ScheduleOf(lines + [ComplementLine(minimum.value, complement, def.vat)], opts);
      var again :- PriceAt(InputOf(second, opts.settings), opts.date);
      Ok((second, again))
  }

  // --------------------------------------------------------------------- quote

  function EffectiveStatus(l: ProposalLine, choices: map<string, string>): PriceStatus {
    if l.priceStatusByChoice.Some? && l.pricing.ByChoice? && l.pricing.dependsOn in choices
       && choices[l.pricing.dependsOn] in l.priceStatusByChoice.value
    then l.priceStatusByChoice.value[choices[l.pricing.dependsOn]]
    else l.priceStatus
  }

  function RuleOf(rules: seq<Rule>, key: string): Option<Rule> {
    if rules == [] then None else if rules[0].key == key then Some(rules[0]) else RuleOf(rules[1..], key)
  }

  function RuleStatus(r: Rule): PriceStatus {
    match r
    case MinimumMonthly(_, _, status) => status
    case DiscountPercent(_, _, _, _, status) => status
    case _ => VALIDATED
  }

  function StatusOf(key: string, def: Definition, cfg: Configured): PriceStatus {
    var l, r := LineOf(def.lines, key), RuleOf(def.rules, key);
    if l.Some? then EffectiveStatus(l.value, cfg.choices) else if r.Some? then RuleStatus(r.value) else VALIDATED
  }

  function QuoteLine(p: PricedLine, def: Definition, cfg: Configured): QuotedLine {
    QuotedLine(p.lineId, p.quantity, if p.kind == DISCOUNT then p.totalHtCents else ToCents(p.unitPrice, HALF_AWAY_FROM_ZERO),
               p.totalHtCents, StatusOf(p.lineId, def, cfg))
  }

  predicate IsInfo(p: PricedLine, def: Definition) {
    LineOf(def.lines, p.lineId).Some? && LineOf(def.lines, p.lineId).value.kind == Info
  }

  /** The quoted lines, information lines or all the others. */
  function Quoted(def: Definition, cfg: Configured, info: bool): PricedLine -> seq<QuotedLine> {
    (p: PricedLine) => if IsInfo(p, def) == info then [QuoteLine(p, def, cfg)] else []
  }

  function Selectable(def: Definition, r: Recurrence): PricedLine -> seq<PricedLine> {
    (p: PricedLine) => if p.recurrence == r && !IsInfo(p, def) then [p] else []
  }

  const EMPTY_BUCKET := ProposalBucket(0, 0, 0)

  function BucketOf(lines: seq<PricedLine>, mode: RoundingMode): ProposalBucket {
    if lines == [] then EMPTY_BUCKET
    else
      var t := TotalsOf(lines, mode);
      ProposalBucket(t.htCents, t.vatCents, t.ttcCents)
  }

  function BucketFor(result: PricingResult, def: Definition, r: Recurrence): ProposalBucket {
    BucketOf(FlatMap(result.lines, Selectable(def, r)), result.settings.rounding)
  }

  /** Each period is charged with its own VAT; months of commitment are divided without remainder kept. */
  function Over(monthly: int, quarterly: int, yearly: int, months: nat): int {
    monthly * months + quarterly * (months / 3) + yearly * (months / 12)
  }

  function CommitmentOf(m: ProposalBucket, q: ProposalBucket, y: ProposalBucket, months: nat): ProposalBucket {
    ProposalBucket(Over(m.htCents, q.htCents, y.htCents, months), Over(m.vatCents, q.vatCents, y.vatCents, months),
                   Over(m.ttcCents, q.ttcCents, y.ttcCents, months))
  }

  predicate Priceable(cfg: Configured) {
    && (forall k :: k in cfg.included ==> ValidQuantity(cfg.included[k]))
    && (forall e :: e in cfg.errors ==> !e.NoPrice? && !e.InvalidChoice?)
  }

  function EmptyQuote(cfg: Configured): ProposalQuote {
    ProposalQuote(cfg.choices, cfg.included, cfg.commitmentMonths, [], [], EMPTY_BUCKET, EMPTY_BUCKET, EMPTY_BUCKET, EMPTY_BUCKET,
                  EMPTY_BUCKET, cfg.errors, None, None)
  }

  function PricedQuote(def: Definition, cfg: Configured, schedule: Schedule, result: PricingResult): ProposalQuote {
    var o, m := BucketFor(result, def, ONE_OFF), BucketFor(result, def, MONTHLY);
    var q, y := BucketFor(result, def, QUARTERLY), BucketFor(result, def, YEARLY);
    ProposalQuote(
      cfg.choices, cfg.included, cfg.commitmentMonths,
      FlatMap(result.lines, Quoted(def, cfg, false)), FlatMap(result.lines, Quoted(def, cfg, true)),
      o, m, q, y, CommitmentOf(m, q, y, cfg.commitmentMonths),
      cfg.errors + Flag(q.htCents != 0 && cfg.commitmentMonths % 3 != 0, DurationNotQuarterly)
                 + Flag(y.htCents != 0 && cfg.commitmentMonths % 12 != 0, DurationNotYearly),
      Some(schedule), Some(result))
  }

  function QuoteProposal(def: Definition, sel: SelectionInput, opts: QuoteOptions): Result<ProposalQuote> {
    hide PriceProposal, Configure, Priceable, PricedQuote, EmptyQuote;
    var _ :- ResolveSettings(opts.settings);
    var cfg := Configure(def, sel);
    if !Priceable(cfg) then Ok(EmptyQuote(cfg))
    else
      var priced :- PriceProposal(def, cfg, opts);
      Ok(PricedQuote(def, cfg, priced.0, priced.1))
  }

  // ------------------------------------------------------- the imperative form

  method PushBilled(def: Definition, cfg: Configured) returns (lines: seq<Line>)
    ensures lines == FlatMap(def.lines, Billed(def, cfg))
  {
    hide Units, UnitPriceCents, EngineLine;
    lines := [];
    for i := 0 to |def.lines|
      invariant lines == FlatMap(def.lines[..i], Billed(def, cfg))
    {
      FlatMapStep(def.lines, i, Billed(def, cfg));
      var l := def.lines[i];
      if Units(l, cfg) != 0 {
        lines := lines + [EngineLine(l, Units(l, cfg), UnitPriceCents(l, cfg.choices).GetOr(0), def, cfg)];
      }
    }
    assert def.lines[..|def.lines|] == def.lines;
  }

  method PushDisplayed(def: Definition, cfg: Configured, before: seq<Line>) returns (lines: seq<Line>)
    ensures lines == before + FlatMap(def.lines, Displayed(def, cfg))
  {
    hide UnitPriceCents, EngineLine;
    lines := before;
    for i := 0 to |def.lines|
      invariant lines == before + FlatMap(def.lines[..i], Displayed(def, cfg))
    {
      FlatMapStep(def.lines, i, Displayed(def, cfg));
      var l := def.lines[i];
      var price := UnitPriceCents(l, cfg.choices);
      if l.kind == Info && price.Some? {
        lines := lines + [EngineLine(l, 0, price.value, def, cfg)];
      }
    }
    assert def.lines[..|def.lines|] == def.lines;
  }

  method PushDiscounts(def: Definition, cfg: Configured, before: seq<Line>) returns (lines: seq<Line>)
    ensures lines == before + FlatMap(def.rules, Discounts(def, cfg))
  {
    lines := before;
    for i := 0 to |def.rules|
      invariant lines == before + FlatMap(def.rules[..i], Discounts(def, cfg))
    {
      FlatMapStep(def.rules, i, Discounts(def, cfg));
      var r := def.rules[i];
      if r.DiscountPercent? && r.when in cfg.included {
        var targets := FlatMap(r.appliesTo, Present(cfg));
        if targets != [] {
          lines := lines + [Line(r.key, r.key, DISCOUNT, MANUAL, def.vat, None, None, None, None, None, None, None, None,
                                 Some(DiscountSpec(PERCENT, r.percent, Lines(targets))))];
        }
      }
    }
    assert def.rules[..|def.rules|] == def.rules;
  }

  lemma LinesPushed(def: Definition, cfg: Configured, lines: seq<Line>)
    requires lines == FlatMap(def.lines, Billed(def, cfg)) + FlatMap(def.lines, Displayed(def, cfg)) + FlatMap(def.rules, Discounts(def, cfg))
    ensures lines == EngineLines(def, cfg)
  {
    hide FlatMap, Billed, Displayed, Discounts;
  }

  method Quote(def: Definition, sel: SelectionInput, opts: QuoteOptions) returns (r: Result<ProposalQuote>)
    ensures r == QuoteProposal(def, sel, opts)
  {
    hide PriceAt, ResolveSettings, Configure, Priceable, PricedQuote, EmptyQuote, FlatMap, EngineLines;
    hide Billed, Displayed, Discounts, ScheduleOf, InputOf, ComplementLine, MinimumOf;
    var _ :- ResolveSettings(opts.settings);
    var cfg := RunConfigure(def, sel);
    if !Priceable(cfg) {
      return Ok(EmptyQuote(cfg));
    }
    var lines := PushBilled(def, cfg);
    lines := PushDisplayed(def, cfg, lines);
    lines := PushDiscounts(def, cfg, lines);
    LinesPushed(def, cfg, lines);
    var schedule := ScheduleOf(lines, opts);
    var result := Compute(InputOf(schedule, opts.settings), opts.date);
    if result.Err? {
      return Err(result.code);
    }
    var minimum := MinimumOf(def.rules);
    if minimum.Some? && result.value.totals.monthlyLinesCents < minimum.value.amountCents {
      var complement := minimum.value.amountCents - result.value.totals.monthlyLinesCents;
      schedule := ScheduleOf(lines + [ComplementLine(minimum.value, complement, def.vat)], opts);
      result := Compute(InputOf(schedule, opts.settings), opts.date);
      if result.Err? {
        return Err(result.code);
      }
    }
    r := Ok(PricedQuote(def, cfg, schedule, result.value));
  }
}

/** Input snapshot, trace and result of the pricing engine (packages/pricing/src/types.ts, trace.ts). */
module PricingTypes {
  import opened Outcomes
  import opened Money
  import opened DecimalText
  import opened Calendar
  import opened Tiers
  import opened Indexes
  import opened Rules
  import opened Overrides

  datatype LineKind = FLAT_MONTHLY | FLAT_YEARLY | UNIT | HOURLY | HOUR_PACK | SETUP_FEE | TIERED | DISCOUNT

  datatype PricingMode = RULE | FORMULA | MANUAL

  datatype Recurrence = MONTHLY | QUARTERLY | YEARLY | ONE_OFF

  datatype QuantitySpec = Fixed(value: string) | Provider

  /** A formula variable read from an index series; no date means the pricing date. */
  datatype IndexVariable = IndexVariable(name: string, indexCode: string, date: Option<Day>, lookup: Option<LookupRule>)

  datatype FormulaSpec = FormulaSpec(
    expression: string, basePrice: Option<string>, variables: seq<(string, string)>, indexVariables: seq<IndexVariable>)

  datatype RuleRef = RuleRef(priceRuleId: string, adjustmentRuleIds: seq<string>)

  datatype DiscountTarget = Lines(lineIds: seq<string>) | Subtotal

  datatype DiscountKind = PERCENT | AMOUNT

  datatype DiscountSpec = DiscountSpec(kind: DiscountKind, value: string, appliesTo: DiscountTarget)

  datatype Line = Line(
    id: string, code: string, kind: LineKind, mode: PricingMode, vatRatePercent: string,
    quantity: Option<QuantitySpec>, recurrence: Option<Recurrence>, unitPrice: Option<string>,
    tiers: Option<TierTable>, rule: Option<RuleRef>, formula: Option<FormulaSpec>,
    revision: Option<RevisionSpec>, hoursPerPack: Option<string>, discount: Option<DiscountSpec>)

  datatype Schedule = Schedule(id: string, validFrom: Day, validTo: Option<Day>, lines: seq<Line>)

  datatype ResolvedQuantity = ResolvedQuantity(lineId: string, quantity: string, source: string, observedAt: Option<string>)

  /** Settings as given: an absent field takes its default. */
  datatype PartialSettings = PartialSettings(
    rounding: Option<RoundingMode>, unitPriceScale: Option<int>,
    overrideApprovalThresholdPercent: Option<string>, indexLookup: Option<LookupRule>)

  datatype Settings = Settings(rounding: RoundingMode, unitPriceScale: nat, threshold: real, indexLookup: LookupRule)

  /** The formula language is outside the model: any evaluation of an expression on its variables. */
  type Evaluator = (string, map<string, real>, RoundingMode) -> Result<real>

  datatype PricingInput = PricingInput(
    schedules: seq<Schedule>, indexes: seq<PriceIndex>, overrides: seq<PriceOverride>,
    quantities: seq<ResolvedQuantity>, ruleCatalog: seq<PricingRule>, settings: PartialSettings,
    commitmentMonths: Option<int>, evaluate: Evaluator)

  datatype RoundingTarget = UNIT_PRICE | AVERAGE_UNIT_PRICE | LINE_TOTAL

  datatype TraceStep =
    | Quantity(source: string, quantity: real, observedAt: Option<string>)
    | BasePrice(unitPrice: real)
    | RulePrice(ruleId: string, articleCode: string, unitPrice: real)
    | TieredPrice(tierRule: Option<string>, mode: TierMode, bands: seq<TierBand>, amount: real)
    | IndexRead(variable: string, observation: IndexObservation)
    | Formula(expression: string, variables: map<string, real>, result: real)
    | Revision(onUnitPrice: bool, P0: real, revision: RevisionComputation)
    | RevisionNotEffective(revisionDate: Day, date: Day)
    | Adjusted(adjustment: Adjustment, before: real, after: real)
    | Rounding(target: RoundingTarget, exact: real, rounded: real, scale: nat, rounding: RoundingMode)
    | OverrideApplied(computedUnitPrice: real, applied: Applied)
    | OverrideSkipped(skipped: Skipped)
    | HourPack(hoursPerPack: real, effectiveHourlyRate: real)
    | Discounted(kind: DiscountKind, value: real, targetLineIds: seq<string>, baseHtCents: int, exact: real)
    | LineTotal(unitPrice: real, quantity: real, exact: real)

  datatype PricedLine = PricedLine(
    lineId: string, code: string, kind: LineKind, mode: PricingMode, recurrence: Recurrence,
    quantity: real, unitPrice: real, vat: real, totalHtCents: int, trace: seq<TraceStep>)

  /** What pricing one line may look at. */
  datatype Ctx = Ctx(
    date: Day, settings: Settings, indexes: seq<PriceIndex>, catalog: seq<PricingRule>,
    commitmentMonths: Option<int>, overridesByLine: map<string, seq<PriceOverride>>,
    quantities: map<string, ResolvedQuantity>, evaluate: Evaluator)
  {
    function OverridesOf(lineId: string): seq<PriceOverride> {
      if lineId in overridesByLine then overridesByLine[lineId] else []
    }

    function OverrideCase(computed: real): Case {
      Case(date, computed, settings.threshold)
    }
  }

  const DEFAULT_SETTINGS := PartialSettings(Some(HALF_AWAY_FROM_ZERO), Some(6), Some("10"), Some(LATEST_PUBLISHED))

  function ResolveSettings(given: PartialSettings): Result<Settings> {
    var scale := given.unitPriceScale.GetOr(DEFAULT_SETTINGS.unitPriceScale.value);
    var threshold := ParseDecimal(
      given.overrideApprovalThresholdPercent.GetOr(DEFAULT_SETTINGS.overrideApprovalThresholdPercent.value), 4, false);
    if !(0 <= scale <= 6) || threshold.Err? then Err(INVALID_SETTINGS)
    else Ok(Settings(
      given.rounding.GetOr(DEFAULT_SETTINGS.rounding.value), scale, threshold.value,
      given.indexLookup.GetOr(DEFAULT_SETTINGS.indexLookup.value)))
  }
}

/**
 * The figures of a quote told from the model (packages/pricing/src/proposal.ts, `quoteProposal`): which lines
 * and discounts each bucket adds up, by their billing, and what the commitment multiplies.
 */
module QuoteSums {
  import opened Sums
  import opened Money
  import opened PricingTypes
  import opened Configuration
  import opened ConfigurationFacts
  import opened Proposals
  import opened ProposalFacts
  import opened ProposalGuarantees
  import opened ProposalSuccess
  import opened ProposalQuotes
  import opened ProposalInfo

  /** The price given by the model, at the choices retained. */
  function PriceGiven(p: UnitPricing, choices: map<string, string>): int {
    match p
    case OnePrice(cents) => cents
    case ByChoice(choice, prices) => if choice in choices && choices[choice] in prices then prices[choices[choice]] else 0
  }

  /** Retained quantity times price, for the lines of one billing. */
  function LineCost(cfg: Configured, b: Billing): ProposalLine -> int {
    (l: ProposalLine) =>
      if l.billing != b || l.kind == Info || l.key !in cfg.included then 0
      else cfg.included[l.key].Floor * PriceGiven(l.pricing, cfg.choices)
  }

  /** The discounts whose targets are of one billing. */
  function Taken(def: Definition, cfg: Configured, mode: RoundingMode, b: Billing): Rule -> int {
    (r: Rule) => if TargetsAre(r, def, cfg, b) then SpecReduction(r, def, cfg, mode) else 0
  }

  predicate TargetsAre(r: Rule, def: Definition, cfg: Configured, b: Billing) {
    && SpecTargets(r, cfg) != [] && LineOf(def.lines, SpecTargets(r, cfg)[0]).Some?
    && LineOf(def.lines, SpecTargets(r, cfg)[0]).value.billing == b
  }

  function BilledAs(def: Definition, cfg: Configured, mode: RoundingMode, b: Billing): int {
    SumBy(def.lines, LineCost(cfg, b)) + SumBy(def.rules, Taken(def, cfg, mode, b))
  }

  /** What a recurrence adds up. */
  function InRecurrence(def: Definition, cfg: Configured, mode: RoundingMode, rec: Recurrence): int {
    match rec
    case MONTHLY => BilledAs(def, cfg, mode, Monthly)
    case QUARTERLY => BilledAs(def, cfg, mode, Quarterly)
    case YEARLY => BilledAs(def, cfg, mode, Yearly)
    case ONE_OFF => BilledAs(def, cfg, mode, OneTime) + BilledAs(def, cfg, mode, NotBilled)
  }

  ghost predicate WholeQuantities(cfg: Configured) {
    forall k :: k in cfg.included ==> ValidQuantity(cfg.included[k])
  }

  lemma CostOfLine(l: ProposalLine, cfg: Configured)
    requires WholeQuantities(cfg)
    ensures SpecAmount(l, cfg) == LineCost(cfg, l.billing)(l)
    ensures forall b: Billing :: b != l.billing ==> LineCost(cfg, b)(l) == 0
  {
  }

  function PairBilling(rec: Recurrence): (Billing, Billing) {
    match rec
    case MONTHLY => (Monthly, Monthly)
    case QUARTERLY => (Quarterly, Quarterly)
    case YEARLY => (Yearly, Yearly)
    case ONE_OFF => (OneTime, NotBilled)
  }

  lemma LinesInRecurrence(def: Definition, cfg: Configured, rec: Recurrence)
    requires WholeQuantities(cfg)
    ensures var (b, c) := PairBilling(rec);
            SumBy(def.lines, SpecIn(cfg, rec))
            == SumBy(def.lines, LineCost(cfg, b)) + if b == c then 0 else SumBy(def.lines, LineCost(cfg, c))
  {
    hide SpecAmount, LineCost;
    var (b, c) := PairBilling(rec);
    forall l | l in def.lines
      ensures SpecIn(cfg, rec)(l) == LineCost(cfg, b)(l) + if b == c then 0 else LineCost(cfg, c)(l)
    {
      CostOfLine(l, cfg);
    }
    if b == c {
      SumByPointwise(def.lines, def.lines, SpecIn(cfg, rec), LineCost(cfg, b));
    } else {
      SumByPlus(def.lines, LineCost(cfg, b), LineCost(cfg, c), SpecIn(cfg, rec));
    }
  }

  lemma TargetsAreLines(def: Definition, cfg: Configured, r: Rule)
    requires Usable(def, cfg) && SpecTargets(r, cfg) != []
    ensures LineOf(def.lines, SpecTargets(r, cfg)[0]).Some?
  {
    hide LineOf;
    FlatMapMembers(r.appliesTo, Present(cfg), SpecTargets(r, cfg)[0]);
  }

  lemma RulesInRecurrence(def: Definition, cfg: Configured, mode: RoundingMode, rec: Recurrence)
    requires Usable(def, cfg)
    ensures var (b, c) := PairBilling(rec);
            SumBy(def.rules, SpecReductionIn(def, cfg, mode, rec))
            == SumBy(def.rules, Taken(def, cfg, mode, b)) + if b == c then 0 else SumBy(def.rules, Taken(def, cfg, mode, c))
  {
    hide SpecReduction, SpecTargets, LineOf;
    var (b, c) := PairBilling(rec);
    forall r | r in def.rules
      ensures SpecReductionIn(def, cfg, mode, rec)(r) == Taken(def, cfg, mode, b)(r) + if b == c then 0 else Taken(def, cfg, mode, c)(r)
    {
      if SpecTargets(r, cfg) != [] {
        TargetsAreLines(def, cfg, r);
      }
    }
    if b == c {
      SumByPointwise(def.rules, def.rules, SpecReductionIn(def, cfg, mode, rec), Taken(def, cfg, mode, b));
    } else {
      SumByPlus(def.rules, Taken(def, cfg, mode, b), Taken(def, cfg, mode, c), SpecReductionIn(def, cfg, mode, rec));
    }
  }

  lemma SpecTotalIsBilled(def: Definition, cfg: Configured, mode: RoundingMode, rec: Recurrence)
    requires Usable(def, cfg) && WholeQuantities(cfg)
    ensures SpecTotal(def, cfg, mode, rec) == InRecurrence(def, cfg, mode, rec)
  {
    hide SpecIn, SpecReductionIn, LineCost, Taken, Usable;
    LinesInRecurrence(def, cfg, rec);
    RulesInRecurrence(def, cfg, mode, rec);
  }

  /**
   * The totals of every quote, by billing: what monthly, quarterly and yearly lines cost, less the discounts
   * on such lines, the monthly one raised to its minimum; lines charged once and displayed prices never reach
   * a recurring total.
   */
  lemma TotalsFollowBilling(def: Definition, sel: SelectionInput, opts: QuoteOptions)
    requires Quotes(def, sel, opts)
    ensures QuoteProposal(def, sel, opts).Ok? && QuoteProposal(def, sel, opts).value.engineResult.Some?
    ensures var t, cfg, mode := ResultOf(def, sel, opts).totals, Configure(def, sel), SettingsOf(opts).rounding;
            var monthly, minimum := BilledAs(def, cfg, mode, Monthly), MinimumOf(def.rules);
            && t.monthlyLinesCents
               == (if minimum.Some? && minimum.value.amountCents > monthly then minimum.value.amountCents else monthly)
            && t.quarterlyLinesCents == BilledAs(def, cfg, mode, Quarterly)
            && t.yearlyLinesCents == BilledAs(def, cfg, mode, Yearly)
            && t.oneOffCents == BilledAs(def, cfg, mode, OneTime) + BilledAs(def, cfg, mode, NotBilled)
  {
    hide Configure, QuoteProposal, DistinctKeys, Quotable, ResolveSettings, BilledAs, SpecTotal, MinimumOf, FirstLines, Usable;
    MinimumIsReachedExactly(def, sel, opts);
    var cfg, mode := Configure(def, sel), SettingsOf(opts).rounding;
    PriceableIsUsable(def, sel);
    assert WholeQuantities(cfg);
    SpecTotalIsBilled(def, cfg, mode, MONTHLY);
    SpecTotalIsBilled(def, cfg, mode, QUARTERLY);
    SpecTotalIsBilled(def, cfg, mode, YEARLY);
    SpecTotalIsBilled(def, cfg, mode, ONE_OFF);
  }

  /** The same of the four buckets, as soon as prices cover the options of their choice. */
  lemma BucketsFollowBilling(def: Definition, sel: SelectionInput, opts: QuoteOptions)
    requires Quotes(def, sel, opts) && InfoPricesCover(def)
    ensures QuoteProposal(def, sel, opts).Ok?
    ensures var q, cfg, mode := QuoteProposal(def, sel, opts).value, Configure(def, sel), SettingsOf(opts).rounding;
            var monthly, minimum := BilledAs(def, cfg, mode, Monthly), MinimumOf(def.rules);
            && q.monthly.htCents
               == (if minimum.Some? && minimum.value.amountCents > monthly then minimum.value.amountCents else monthly)
            && q.quarterly.htCents == BilledAs(def, cfg, mode, Quarterly)
            && q.yearly.htCents == BilledAs(def, cfg, mode, Yearly)
            && q.oneTime.htCents == BilledAs(def, cfg, mode, OneTime) + BilledAs(def, cfg, mode, NotBilled)
  {
    hide *;
    TotalsFollowBilling(def, sel, opts);
    BucketsAddUp(def, sel, opts);
  }

  /** The commitment counts each month, and the quarters and years that are whole. */
  lemma CommitmentCounts(def: Definition, sel: SelectionInput, opts: QuoteOptions, quarters: nat, years: nat)
    requires Quotes(def, sel, opts)
    requires var months := Configure(def, sel).commitmentMonths; 3 * quarters <= months < 3 * quarters + 3 && 12 * years <= months < 12 * years + 12
    ensures QuoteProposal(def, sel, opts).Ok?
    ensures var q, months := QuoteProposal(def, sel, opts).value, Configure(def, sel).commitmentMonths;
            && q.commitmentMonths == months
            && q.commitment.htCents == months * q.monthly.htCents + quarters * q.quarterly.htCents + years * q.yearly.htCents
            && q.commitment.vatCents == months * q.monthly.vatCents + quarters * q.quarterly.vatCents + years * q.yearly.vatCents
            && (DurationNotQuarterly in q.errors - Configure(def, sel).errors ==> q.quarterly.htCents != 0 && months != 3 * quarters)
            && (q.quarterly.htCents != 0 && months != 3 * quarters ==> DurationNotQuarterly in q.errors)
            && (DurationNotYearly in q.errors - Configure(def, sel).errors ==> q.yearly.htCents != 0 && months != 12 * years)
            && (q.yearly.htCents != 0 && months != 12 * years ==> DurationNotYearly in q.errors)
  {
    hide Configure, PriceProposal, DistinctKeys, Quotable, Priceable, ResolveSettings, BucketFor, FlatMap;
    QuoteIsPriced(def, sel, opts);
    assert Configure(def, sel).commitmentMonths / 3 == quarters && Configure(def, sel).commitmentMonths / 12 == years;
  }
}

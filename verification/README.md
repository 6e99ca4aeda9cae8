# Pricing engine and its stores, modelled and proved

This project models the pricing engine of the repository (`packages/pricing/src`) and the stored state that feeds
it, and proves what their comments promise: a price is a pure function of its inputs, its trace replays by hand, no
cent is lost, what was displayed is what is frozen, and the tables never put the engine in front of two versions of a
schedule or two values of an index.

- **Engine.** Decimals are exact reals, amounts are whole cents, both rounding modes are written on integers. A line is
  priced in stages (`LinePricing`), its trace is read back by an independent reader (`Replay`), discounts come second
  (`Engine`), totals last (`Totals`). Tiers, index lookups, rules and overrides have a module each. `Precision` is a
  theorem apart about the 40 significant digits of the decimal library, `RoundedCascades` another on adjustments.
- **Around the engine.** `Simulation` compares two pricings, `Quotes` prices one article of a contract,
  `Configuration` and the `Proposal*` modules turn an interactive price table into a schedule priced twice.
  `ProposalSuccess` says exactly when that succeeds, `ProposalQuotes` and `ProposalInfo` what is then promised.
- **Stores.** `ScheduleStore`, `IndexStore` (with `CsvConnector`), `OverrideStore`, `Deadlines` and `PriceGrid` are
  classes over tables held as maps and sequences; a transaction that is rolled back leaves its table as it was.
  `Alerts`, `DeadlineRuns` and `SecondRuns` follow reminders over runs, `ScheduleGaps` a gap between versions.
  `PriceStatuses`, `PartialStatuses` and `Revisions` are about the statuses of proposal prices and the next revision
  date.

What each operation answers is also told from its inputs, apart from the functions that compute it: `IndexReads`,
`Provenance`, `PricedLines`, `Refusals`, `DiscountReads`, `TotalsReads` and `PricingReads` for the engine,
`PriceChanges`, `ConfigurationReads`, `QuoteReads` and `QuoteSums` around it, `FourEyes`, `Activations`,
`ValueSteps`, `CsvLines`, `CsvReads`, `ReminderDates`, `GridReads` and `StatusSteps` for the stores.

Loops of the original are methods with loops, proved equal to a specification function; what the original promises is
then proved of that function, over every input, or over every run for the stores. `dafny verify dfyconfig.toml` checks
everything.

## What the code does not promise, and exactly when it does

- *VOLUME never decreases with the quantity*, on quantities of six decimals, exactly when no threshold lowers the
  amount by handing over to a lower price (`Tiers.VolumeMonotoneExactlyWhen`); `Tiers.VolumeIsNotMonotone` is the
  documented table where eleven units cost less than ten.
- *Forty digits are always enough* (packages/pricing/src/money.ts:18-22): for a product, exactly when its factors have
  forty digits together (`Precision.DigitBudget`). Stored values, of twenty digits, meet it in the tier loop and in the
  line product; in a cascade of adjustments, exactly up to two of them (`Precision.ExactExactlyUpToTwo`). Products of
  the wider decimals that the parser accepts do not (`Precision.AcceptedProductIsNotExact`).
- *The order of adjustments is free*, to the last of the forty digits, exactly up to three of them
  (`RoundedCascades.OrderIsFreeExactlyUpToThree`).
- *HT never goes below zero*, whatever the accepted values of the discounts, exactly when their bases together do not
  exceed the regular lines (`DiscountBalance.NeverNegativeExactlyWhen`), in particular when no line is discounted
  twice; `DiscountBalance.OverlappingDiscountsGoNegative` is a schedule whose HT is negative.
- *A configuration without errors can be quoted* exactly on the condition of `ProposalSuccess.QuotedExactlyWhen`;
  `ProposalQuotes.ErrorFreeIsNotEnough` is one that meets no error and has no quote.
- *The buckets add up to HT* exactly when what rules and complement charge under the keys of information lines is
  nothing over all (`ProposalInfo.BucketsAddUpExactlyWhen`), always so when prices cover the options of their choice
  (`ProposalInfo.BucketsAddUp`); `ProposalInfo.UncoveredInfoTakesTheDiscount` is a definition where they do not.
- *One pass of inclusion rules is enough* whatever is ticked exactly when it is for nothing and for each option alone
  (`ConfigurationFacts.EnoughWhateverIsTicked`), in particular when no rule watches a line that a later one may add;
  `ConfigurationFacts.BackwardChain` gives the order in which it is not. For one selection it is when running the
  rules again adds nothing (`ConfigurationFacts.ClosedExactlyWhenStable`).
- *A recalculation of deadlines is idempotent* exactly when a slot lost before adoption is lost after it as well
  (`SecondRuns.SecondRunIsQuietExactlyWhen`), always so when reminders come in the order in which they were made, which
  every run keeps (`DeadlineRuns.RunsStaySound`); `DeadlineRuns.OrderMatters` is a table in another order.
- *Every deadline to come has its alerts* exactly when the slots of its cycle are its own
  (`DeadlineRuns.AlertsAreComplete`), always so when nobody makes unattached reminders
  (`DeadlineRuns.RunsAlertCompletely`), not always otherwise (`DeadlineRuns.AlertCanBeMissing`).
- *Activation leaves no gap* fails for a bounded new version, on exactly the days of
  `ScheduleStore.DaysLostByActivation`; `ScheduleGaps.ActivationLeavesAGap` is a run that ends without any version.
- *A price in cents is charged to the cent* exactly when the unit price scale can hold it
  (`ProposalLines.ShownPriceIsChargedExactlyWhenScaled`); `ProposalLines.FifteenCentsAreChargedTwenty` is one that is
  not.
- *A priced duration ends with the requested price* exactly when `Number` does not confuse it with the price in effect
  (`PriceGrid.RequestIsMet`), never below 2^33 (`PriceGrid.NarrowPricesAreNeverConfused`);
  `PriceGrid.FloatsConfuseWidePrices` gives two prices that it does confuse.
- *Nobody validates their own price* (`PriceStatuses.ValidatedOnlyIfEarned`) with per-choice statuses that cover every
  priced value; without, validations go too far exactly on the lines of `PartialStatuses.TooMuchIsValidatedExactlyWhen`.
- `parseIsoDate` refuses years below 100, which its probe reads as 19xx (`Calendar.ValidDay`).

## Model

| member | source | states |
|---|---|---|
| Money.RoundIsTheRounding | packages/pricing/src/money.ts:49-60 | the rounded value is the one and only integer within a half, ties resolved as the named mode says (both directions) |
| Money.RoundMonotone | packages/pricing/src/money.ts:53-60 | a larger exact amount never rounds to a smaller one, in both modes |
| Money.RoundSymmetric | packages/pricing/src/money.ts:49-60 | rounding an opposite is the opposite of the rounding, so a discount mirrors an amount |
| Money.CentsRoundTrip | packages/pricing/src/money.ts:58-64 | cents converted to euros and back are unchanged, in both modes |
| Money.RoundToScaleFixed | packages/pricing/src/money.ts:53-56 | rounding to a scale changes nothing exactly when the value already has that scale, and always produces that scale |
| DecimalText.ParsedDecimal | packages/pricing/src/money.ts:77-100 | every accepted decimal has at most the asked scale, is below 10^20 and is negative only where allowed |
| DecimalText.CentsTextParses | packages/pricing/src/proposal.ts:340-345 | printed cents parse back to the same euros exactly when non-negative with at most twenty euro digits; any other amount is refused |
| DecimalText.NatTextParses | packages/pricing/src/proposal.ts:360-370 | a printed whole quantity parses back to itself exactly up to twenty digits |
| Calendar.DayTextOrder | packages/pricing/src/money.ts:104-121 | comparing the YYYY-MM-DD texts of two valid days is comparing the days |
| Calendar.PreviousDayIsAdjacent | apps/api/src/pricing/schedules.service.ts:353-357 | the day before is a valid day with no valid day in between, across months, years and leap years |
| Tiers.ParsedTiersTile | packages/pricing/src/tiers.ts:52-72 | an accepted table has non-negative prices and strictly increasing bounds of at most six decimals, only the last one possibly open |
| Tiers.ParseTable | packages/pricing/src/tiers.ts:52-72 | the parsing loop returns exactly the specified parse or error |
| Tiers.ComputeTiered | packages/pricing/src/tiers.ts:74-125 | the method computes the specified mode, bands and amount, or error |
| Tiers.ChargeVolume | packages/pricing/src/tiers.ts:81-102 | the VOLUME loop always returns from inside: it never runs into the GRADUATED code below it |
| Tiers.ChargeGraduated | packages/pricing/src/tiers.ts:104-125 | the GRADUATED loop produces the specified bands and their running total |
| Tiers.GraduatedBandsTile | packages/pricing/src/tiers.ts:104-125 | the GRADUATED bands tile ]0, q] end to end, without gap or overlap |
| Tiers.GraduatedIsMicroSum | packages/pricing/src/tiers.ts:12-15 | GRADUATED is the sum, over each millionth of a unit, of the price of the tier that holds it |
| Tiers.GraduatedMonotone | packages/pricing/src/tiers.ts:12-15 | GRADUATED never decreases when the quantity grows |
| Tiers.GraduatedSubadditive | packages/pricing/src/tiers.ts:74-125 | with non-increasing prices, splitting an order never makes it cheaper |
| Tiers.GraduatedAboveVolume | packages/pricing/src/tiers.ts:74-125 | with non-increasing prices, GRADUATED is never below VOLUME |
| Tiers.VolumeMonotoneInTier | packages/pricing/src/tiers.ts:17-22 | VOLUME never decreases within one tier |
| Tiers.VolumeMonotoneExactlyWhen | packages/pricing/src/tiers.ts:17-22 | on quantities of six decimals VOLUME never decreases exactly when, at each threshold b from a price p to the next p2, b x p is at most (b + 0.000001) x p2 |
| Tiers.VolumeIsNotMonotone | packages/pricing/src/tiers.ts:17-22 | a table that breaks the condition: ten units cost 300, eleven 275 |
| Precision.GraduatedIsExact | packages/pricing/src/tiers.ts:104-125 | with values in the stored range (14 digits and 6 decimals), the GRADUATED loop rounded to 40 significant digits after every operation equals the exact total, whatever the rounding |
| Precision.LineProductIsExact | packages/pricing/src/price-at.ts:421-423 | quantity times unit price and its conversion to cents fit in 40 digits for stored values |
| Precision.DigitBudget | packages/pricing/src/money.ts:18-22 | every product of a d1-digit and a d2-digit decimal fits in forty digits exactly when d1 + d2 <= 40, whatever their scales |
| Precision.AcceptedProductIsNotExact | packages/pricing/src/money.ts:18-22 | the largest decimal that the parser accepts has twenty-six digits: its square does not fit |
| Precision.CascadeIsExact | packages/pricing/src/price-at.ts:353-360 | each adjustment costs nine digits: as long as they fit in forty, the cascade rounded after every operation is exact |
| Precision.TwoAdjustmentsAreExact | packages/pricing/src/price-at.ts:353-360 | on a stored price two adjustments are always exact |
| Precision.ThreeAdjustmentsDoNotFit | packages/pricing/src/money.ts:18-22 | three adjustments on the largest stored price need forty-four digits |
| Precision.ExactExactlyUpToTwo | packages/pricing/src/price-at.ts:353-360 | with any rounding to forty digits, n adjustments are exact on every stored price exactly when n is at most two |
| RoundedCascades.OrderIsFreeExactlyUpToThree | packages/pricing/src/price-at.ts:353-360 | with any correct rounding to forty digits, n adjustments on every stored price may be reordered without changing a digit exactly when n is at most three |
| Indexes.CheckSeries | packages/pricing/src/indexes.ts:51-63 | the validating loop with its set of seen periods returns the specified verdict |
| Indexes.CheckedPeriodsDistinct | packages/pricing/src/indexes.ts:51-63 | a series is accepted exactly when each value is well formed and no period appears twice |
| Indexes.LookupIndexValue | packages/pricing/src/indexes.ts:39-94 | the method returns the specified observation or error |
| Indexes.LookupIsLatestEligible | packages/pricing/src/indexes.ts:65-94 | a lookup succeeds exactly when a value is eligible, and returns the one of the latest eligible period |
| Indexes.LookupReplays | packages/pricing/src/indexes.ts:18-22 | a lookup depends only on eligible values: replayed later, with more values published, it is the same |
| Indexes.RevisionFollowsIndex | packages/pricing/src/revision.ts:42-82 | a revision is never negative, leaves the price when the index did not move or b is zero, and follows the direction of the index |
| Rules.AdjustmentFor | packages/pricing/src/rules.ts:59-108 | the loop keeps the specified best step, or error |
| Rules.HighestIsReached | packages/pricing/src/rules.ts:65-95 | the step kept is the highest threshold reached, none when none is |
| Rules.HighestIgnoresOrder | packages/pricing/src/rules.ts:65-95 | the order of distinct thresholds does not matter |
| Rules.AdjustmentWithinBounds | packages/pricing/src/rules.ts:54-108 | an adjustment takes off between 0 and 100 %, and nothing below every threshold |
| LineFacts.CascadeIsProduct | packages/pricing/src/price-at.ts:353-372 | the cascade applies each named rule once, in order, and amounts to one product of what each leaves |
| LineFacts.CascadeIgnoresOrder | packages/pricing/src/price-at.ts:353-372 | permuting the adjustment rules changes neither success nor the share of the price kept, as long as decimals are exact |
| LineFacts.PriceFormula | packages/pricing/src/price-at.ts:278-372 | before rounding and overrides the price is base x revision coefficient x share kept |
| Overrides.Sort | packages/pricing/src/overrides.ts:113-134 | the first loop sorts the covering overrides into skipped and eligible as specified |
| Overrides.SelectOverride | packages/pricing/src/overrides.ts:104-157 | the method returns the specified selection or error |
| Overrides.SelectionSplits | packages/pricing/src/overrides.ts:98-157 | the overrides covering the date are split into at most one applied and the others skipped exactly once each |
| Overrides.AppliedIsStrictlyLatest | packages/pricing/src/overrides.ts:136-157 | the applied override was eligible, and every other eligible one starts strictly earlier |
| Overrides.AppliedAboveThresholdIsApproved | packages/pricing/src/overrides.ts:118-133 | above the threshold nothing applies without an approver who is not the author |
| Overrides.SelectionIgnoresOrder | packages/pricing/src/overrides.ts:104-157 | permuting the list changes neither the error nor the applied override nor who is skipped |
| LinePricing.BasePriceOf | packages/pricing/src/price-at.ts:278-322 | the base stage per mode, with its errors |
| LineFacts.RevisionIsFactor | packages/pricing/src/price-at.ts:324-351 | the native revision multiplies any unit price or tiered amount by one coefficient, 1 before its day; neither the coefficient nor success depends on the price |
| LinePricing.Adjust | packages/pricing/src/price-at.ts:353-372 | the cascade loop, reassigning the working price and pushing a step per rule |
| LinePricing.WorkOutPrice | packages/pricing/src/price-at.ts:278-372 | base, revision and adjustments chained, the trace growing in order |
| LinePricing.PriceRegularLine | packages/pricing/src/price-at.ts:259-441 | the whole line, trace included, is the specified one, or its error |
| Replay.TraceReplays | packages/pricing/src/price-at.ts:259-441 | to a reader who can evaluate formulas, every step of the trace of every priced line is justified by the steps before it alone, and reading the trace ends on the printed quantity, unit price and cents |
| Replay.AnnotatedLineReplays | apps/api/src/pricing/pricing.service.ts:404-425 | showing any pending overrides before the total of any priced line leaves the reading of its trace unchanged |
| LineFacts.RegularLineNonNegative | packages/pricing/src/price-at.ts:259-441 | quantity, unit price and total of any priced regular line are non-negative, VAT within 0..100 |
| LineFacts.RegularLineIsLocal | packages/pricing/src/price-at.ts:259-441 | two contexts that agree on what the line consults give the same line, trace included |
| Totals.SumRates | packages/pricing/src/price-at.ts:539-550 | the map filled by the loop holds, per rate met, the sum of its lines |
| Totals.SortRates | packages/pricing/src/price-at.ts:551-552 | the rates come out once each, increasing |
| Totals.ComputeTotals | packages/pricing/src/price-at.ts:533-574 | the method computes the specified totals |
| Totals.TotalsIgnoreOrder | packages/pricing/src/price-at.ts:533-574 | totals are invariant under permutation of the lines |
| Totals.TotalsConserve | packages/pricing/src/price-at.ts:533-574 | recurrence subtotals and VAT bases each sum to HT, TTC is HT plus VAT |
| Totals.VatErrorPerRate | packages/pricing/src/price-at.ts:546-558 | VAT differs from the exact sum of line VAT by at most half a cent per rate |
| Totals.MonthlyTimesTwelve | packages/pricing/src/price-at.ts:568-572 | twelve times the monthly recurring figure is within six cents of the annual one |
| Totals.BucketsNearTotal | packages/pricing/src/proposal.ts:381-385 | at one VAT rate, the four buckets sum to HT exactly and their VATs to the overall VAT within two cents |
| Schedules.SelectionOnDisjoint | packages/pricing/src/schedule.ts:15-40 | on disjoint versions the selection is exactly the one in force and is never ambiguous |
| Schedules.OthersPlayNoPart | packages/pricing/src/schedule.ts:15-40 | versions that do not cover the date change nothing |
| Engine.GroupOverrides | packages/pricing/src/price-at.ts:592-597 | the grouping loop gives each line its overrides in order |
| Engine.CheckLineIds | packages/pricing/src/price-at.ts:584-590 | the loop with its map of seen ids accepts exactly the schedules without repeated id |
| Engine.PriceRegularLines | packages/pricing/src/price-at.ts:611-619 | first pass: every regular line, up to the first error |
| Engine.PriceDiscountLines | packages/pricing/src/price-at.ts:620-629 | second pass: every discount on the rounded totals of the first |
| Engine.PriceScheduleLines | packages/pricing/src/price-at.ts:609-630 | both passes, output in schedule order |
| Engine.Compute | packages/pricing/src/price-at.ts:576-642 | the method is the specified priceAt, errors included |
| EngineFacts.PricedExactlyWhen | packages/pricing/src/price-at.ts:584-630 | a schedule is priced exactly when its ids are distinct and each of its lines can be priced |
| EngineFacts.PricedLineByLine | packages/pricing/src/price-at.ts:609-630 | the result holds, in schedule order, each line priced on its own |
| EngineFacts.DiscountWithinTargets | packages/pricing/src/price-at.ts:443-531 | a discount lies between minus the sum of its targets and zero, shares their VAT and recurrence, and its trace replays |
| EngineFacts.DisjointDiscountsKeepTotalsPositive | packages/pricing/src/price-at.ts:443-574 | when no line is discounted twice, HT of every VAT rate and recurrence, VAT and TTC are non-negative |
| DiscountBalance.NeverNegativeExactlyWhen | packages/pricing/src/price-at.ts:443-531 | HT of a rate, of a recurrence or of everything is never negative, for every accepted value of its discounts, exactly when the bases of its discounts add up to at most its regular lines |
| DiscountBalance.OverlappingDiscountsGoNegative | packages/pricing/src/price-at.ts:443-531 | a schedule with two discounts of 60 % on one line of 100 euros is priced by priceAt with HT -20.00, at any date |
| EngineLocality.OrderOfLinesDoesNotMatter | packages/pricing/src/price-at.ts:576-642 | permuting the lines of a schedule permutes the results and keeps the totals |
| EngineLocality.PriceAtIsLocal | packages/pricing/src/price-at.ts:576-642 | the price at a date depends only on the selected version, the overrides of its lines covering the date, their quantities and what the consulted days see of the indexes |
| EngineLocality.OtherOverridesChangeNothing | packages/pricing/src/price-at.ts:592-606 | overrides of other lines or periods, anywhere in the list, change nothing |
| EngineLocality.OtherVersionsChangeNothing | packages/pricing/src/schedule.ts:15-40 | versions not covering the date change nothing in the whole result |
| EngineLocality.LaterPublicationsChangeNothing | packages/pricing/src/indexes.ts:65-71 | values published after every consulted date change nothing in the whole result |
| Quotes.FixedAtOwnQuantity | packages/pricing/src/price-at.ts:206-227 | a line repriced at its own quantity given as fixed differs only in its quantity step |
| Quotes.QuoteIsTheLine | apps/api/src/pricing/pricing.service.ts:246-281 | a one-line contract quote at the line quantity is that line of the full schedule, but for where the quantity came from |
| Simulation.ApplyIndexValues | packages/pricing/src/simulate.ts:82-92 | the loop reassigning the series gives the specified ones, or the first error |
| Simulation.CollectChanges | packages/pricing/src/simulate.ts:94-105 | the loop fills the map of the last text per line, or stops at the first error |
| Simulation.CompareLines | packages/pricing/src/simulate.ts:144-170 | the pushed gaps are the specified ones |
| Simulation.Run | packages/pricing/src/simulate.ts:140-186 | the whole simulation is the specified one |
| Simulation.SimulationConserves | packages/pricing/src/simulate.ts:140-186 | line gaps sum to the HT gap, whatever versions the two dates select |
| Simulation.EmptySimulationIsNeutral | packages/pricing/src/simulate.ts:78-186 | no change at one date gives the same result and only zero gaps |
| Simulation.QuantityChangeIsFixed | packages/pricing/src/simulate.ts:94-125 | a simulated quantity prices like a fixed quantity of that value and moves no other regular line |
| Simulation.SimulatedQuantities | packages/pricing/src/simulate.ts:123-125 | the simulated quantity replaces the provided one of its line and of no other |
| Simulation.SimulatedIndexesStayValid | packages/pricing/src/simulate.ts:82-92 | simulated values never create a duplicate period, and other series are untouched |
| Simulation.SimulatedValueIsRead | packages/pricing/src/simulate.ts:82-92 | a simulated value is the one then read for its period |
| Configuration.RetainLines | packages/pricing/src/proposal.ts:276-295 | the successive loops over the map of retained lines give the specified map and tag errors |
| Configuration.CheckConfiguration | packages/pricing/src/proposal.ts:297-325 | the checking loops find exactly the specified errors |
| Configuration.RunConfigure | packages/pricing/src/proposal.ts:246-327 | the whole configuration is the specified one |
| ConfigurationFacts.ChoicePrecedence | packages/pricing/src/proposal.ts:205-221 | a choice keeps the explicit value, else that of the last rule preselecting it from the context, else the default of the model |
| ConfigurationFacts.ErrorFreeConfiguration | packages/pricing/src/proposal.ts:246-327 | no error means: retained lines within bounds, maxFrom, REQUIRES and AT_LEAST_ONE hold, choices offered, prices present, setup lines equal to their linked line |
| ConfigurationFacts.RetainedIsWithinEveryClosure | packages/pricing/src/proposal.ts:276-290 | what the rules retain lies inside every closed set over the required lines and ticked options |
| ConfigurationFacts.EnoughWhateverIsTicked | packages/pricing/src/proposal.ts:281-290 | the single pass reaches the closure whatever is ticked exactly when it does so with nothing ticked and with each option ticked alone |
| ConfigurationFacts.WellOrderedPassIsClosure | packages/pricing/src/proposal.ts:281-290 | when no rule watches a line that a later rule may add, the single pass is the least closure |
| ConfigurationFacts.BackwardChain | packages/pricing/src/proposal.ts:286-290 | two AUTO_INCLUDE rules written against their direction stop half-way |
| ConfigurationFacts.OnePassCanStopShort | packages/pricing/src/proposal.ts:286-290 | a concrete model where one pass is not a closure |
| ConfigurationFacts.SetupFollows | packages/pricing/src/proposal.ts:291-295 | a setup line is retained with exactly the quantity of its linked line |
| Proposals.PushBilled | packages/pricing/src/proposal.ts:431-438 | retained lines with a quantity are pushed in the order of the model |
| Proposals.PushDisplayed | packages/pricing/src/proposal.ts:439-443 | displayed prices follow, at quantity zero |
| Proposals.PushDiscounts | packages/pricing/src/proposal.ts:444-458 | discounts follow, on the retained targets |
| Proposals.Quote | packages/pricing/src/proposal.ts:395-554 | the method is the specified quote, with its two pricings |
| ProposalLines.PlainLinePriced | packages/pricing/src/proposal.ts:360-375 | at two decimals or more, a line given to the engine is priced exactly when its texts are readable, and costs exactly unit cents x quantity |
| ProposalLines.PlainLineAtScale | packages/pricing/src/price-at.ts:375-423 | at any unit price scale, a plain line of whole cents is priced exactly when its texts are readable, at quantity x the cents its scale leaves |
| ProposalLines.ShownPriceIsChargedExactlyWhenScaled | packages/pricing/src/price-at.ts:375-423 | the total of such a line is quantity x unit cents exactly when the unit price scale holds its price: always from two decimals, by tens of cents at one, by euros at zero |
| ProposalLines.FifteenCentsAreChargedTwenty | packages/pricing/src/price-at.ts:375-423 | at one decimal one unit at 15 cents is charged 20, in either rounding mode |
| ProposalFacts.ModelLineInCents | packages/pricing/src/proposal.ts:431-443 | each retained or displayed line has exactly its key, units, unit cents, product and recurrence |
| ProposalFacts.RuleInCents | packages/pricing/src/proposal.ts:444-458 | each discount is minus the rounding of base x percent, in the recurrence of its targets |
| ProposalFacts.TotalsInCents | packages/pricing/src/proposal.ts:431-469 | each recurrence totals the integer specification: lines plus discounts |
| ProposalSuccess.QuotedExactlyWhen | packages/pricing/src/proposal.ts:395-491 | a configuration is priced exactly when its quantities, prices and choices are usable, its keys distinct, its rate, quantities, prices and percentages readable, each applicable discount on distinct targets of one recurrence, and its complement readable under a key of its own; error-free ones need only the second part |
| ProposalQuotes.ErrorFreeIsNotEnough | packages/pricing/src/proposal.ts:444-469 | an error-free configuration with a discount over a monthly and a yearly line is refused with DISCOUNT_TARGET_MISMATCH, at any date |
| ProposalQuotes.QuoteRefinesCents | packages/pricing/src/proposal.ts:395-554 | on that condition the priced lines are those of the integer specification: every retained line, displayed price, applicable discount and complement, each in exact cents, and nothing else |
| ProposalQuotes.MinimumIsReachedExactly | packages/pricing/src/proposal.ts:471-491 | the second pricing changes no former line, the monthly total is exactly max(specified monthly, minimum), the others are as specified |
| ProposalGuarantees.AppendedLine | packages/pricing/src/price-at.ts:609-630 | adding one regular line leaves every other priced line unchanged, discounts included |
| ProposalGuarantees.BucketsAndInfoAddUp | packages/pricing/src/proposal.ts:515-523 | whatever the keys, the four buckets and the information lines add up to the HT of the result |
| ProposalInfo.BucketsAddUpExactlyWhen | packages/pricing/src/proposal.ts:518-523 | each bucket is the total of its recurrence less what rules and complement charge under the keys of information lines; the four sum to HT exactly when that is nothing over all |
| ProposalInfo.BucketsAddUp | packages/pricing/src/proposal.ts:518-523 | when prices of information lines cover the options of their choice, as the schema demands, those lines are free, the four buckets sum to HT, each equals its recurrence total, their VATs sum to the VAT within two cents |
| ProposalInfo.UncoveredInfoTakesTheDiscount | packages/pricing/src/proposal.ts:439-450 | a definition that the schema refuses, quoted without error with a monthly bucket of 100 euros for an HT of 90 |
| ProposalQuotes.CommitmentIsExact | packages/pricing/src/proposal.ts:525-535 | the total over the commitment adds up with its tax and, when no uneven duration is reported, is exactly the recurring amounts over the months |
| ProposalInfo.QuotedInfoIsFreeExactlyWhen | packages/pricing/src/proposal.ts:439-443 | every information line of a quote is charged nothing exactly when no reduction and no complement bears the key of one |
| ProposalQuotes.ShownAsCharged | packages/pricing/src/proposal.ts:493-516 | every line of the quote, charged or shown, has for total its unit price in cents times its whole quantity |
| ProposalGuarantees.FrozenScheduleIsTimeless | packages/pricing/src/proposal.ts:23-25 | whenever there is a quote, at any scale of unit prices, its schedule priced at any later date gives the same lines with their traces and the same totals |
| ProposalQuotes.FrozenScheduleKeepsItsPrice | packages/pricing/src/proposal.ts:23-25 | on the condition of a quote, there is one and its schedule priced at any later date gives the same lines with their traces and the same totals |
| ScheduleStore.Store.CreateDraft | apps/api/src/pricing/schedules.service.ts:126-164 | a draft is added under the next version number, copied lines included, or nothing changes |
| ScheduleStore.Store.UpdateDraft | apps/api/src/pricing/schedules.service.ts:166-181 | only a draft is edited |
| ScheduleStore.Store.DeleteDraft | apps/api/src/pricing/schedules.service.ts:183-190 | only a draft is deleted |
| ScheduleStore.Store.CloseEarlier | apps/api/src/pricing/schedules.service.ts:205-224 | the closing loop ends well exactly when no engaged version conflicts, having closed exactly the earlier overlapping ones |
| ScheduleStore.Store.Activate | apps/api/src/pricing/schedules.service.ts:192-236 | success closes and engages as specified; any refusal, even after some versions were closed, leaves the table as it was |
| ScheduleStore.ActivationKeepsSound | apps/api/src/pricing/schedules.service.ts:192-236 | activation keeps engaged versions disjoint and non-empty |
| ScheduleStore.Perform | apps/api/src/pricing/schedules.service.ts:126-236 | any sequence of requests to a new table, performed by its methods, is a run |
| ScheduleStore.RunsStaySound | apps/api/src/pricing/schedules.service.ts:126-236 | over every run of drafts, edits, deletions and activations, engaged versions stay disjoint and non-empty |
| ScheduleStore.SelectionNeverOverlaps | packages/pricing/src/schedule.ts:15-40 | on every reachable table the engine selects exactly the version in force and never raises an overlap |
| ScheduleStore.ActivationDayByDay | apps/api/src/pricing/schedules.service.ts:205-229 | which version is in force after an activation: unchanged before, the new one within, the non-overlapping ones after |
| ScheduleStore.DaysLostByActivation | apps/api/src/pricing/schedules.service.ts:205-229 | a covered day becomes uncovered exactly when it follows the end of the new version and its version had to be closed |
| ScheduleGaps.BoundedInsideOpenLeavesNoVersion | apps/api/src/pricing/schedules.service.ts:205-229 | over the run that activates an open version then a later bounded one, whatever their lines, the engine selects the open version on every day after the bounded one, then none |
| ScheduleGaps.ActivationLeavesAGap | apps/api/src/pricing/schedules.service.ts:205-229 | one such run in full: two versions of one line, no version at all from 1 July 2025 |
| ScheduleStore.PastSelectionsStand | apps/api/src/pricing/schedules.service.ts:192-236 | on every day before the effect the engine selects the same version, its end date aside |
| ScheduleStore.PastPricesStand | apps/api/src/pricing/schedules.service.ts:192-236 | on every day before the effect the whole priced result is the same, the end date of the version aside |
| IndexStore.Store.AddValue | apps/api/src/pricing/indexes.service.ts:95-125 | a first value or the correction of the tip is appended, anything else is refused and nothing changes |
| IndexStore.Store.Group | apps/api/src/pricing/indexes.service.ts:216-225 | the rows of a period, in their order |
| IndexStore.Store.Compare | apps/api/src/pricing/indexes.service.ts:158-176 | rows are sorted into new, unchanged and contradicting |
| IndexStore.Store.ImportRows | apps/api/src/pricing/indexes.service.ts:139-192 | all or nothing: every new row is appended, or the table is as it was |
| IndexStore.TipIsLastRevision | apps/api/src/pricing/indexes.service.ts:211-214 | the tip of a linear chain is its last revision and the only value not superseded |
| IndexStore.Perform | apps/api/src/pricing/indexes.service.ts:95-192 | any sequence of entries and imports into a new table, performed by its methods, ends on the table of its run |
| IndexStore.RunsStaySound | apps/api/src/pricing/indexes.service.ts:95-192 | over every run of entries and imports each period is one linear chain with revisions 0..n |
| IndexStore.OneCurrentValuePerPeriod | apps/api/src/pricing/pricing-snapshot.ts:137-142 | after every run the engine receives one value per period and never raises a duplicate |
| IndexStore.ReimportWritesNothing | apps/api/src/pricing/indexes.service.ts:139-192 | importing the same file again is accepted and writes nothing |
| IndexStore.EntryReplacesItsPeriod | apps/api/src/pricing/indexes.service.ts:95-125 | a written entry is what the engine then sees of its period and nothing else changes; a correction holds for past dates too |
| IndexStore.NewPeriodKeepsPastLookups | apps/api/src/pricing/indexes.service.ts:95-125 | the first value of a period changes no lookup from a day before its publication |
| CsvConnector.Parse | apps/api/src/pricing/index-connector.ts:71-112 | the text of a file, cut into lines and cells, gives the specified rows and errors |
| CsvConnector.ParsedFileIsSafe | apps/api/src/pricing/index-connector.ts:71-112 | each period at most once, positive values not published before their period, at most 1001 rows and errors |
| CsvConnector.AcceptedFileIsReadInFull | apps/api/src/pricing/index-connector.ts:60-66 | a file without errors is read in full: its rows are exactly its data lines, in order |
| CsvConnector.WrittenFileIsRead | apps/api/src/pricing/index-connector.ts:54-112 | a written file of distinct periods, with either line end, any delimiter that no cell holds and either decimal sign, is parsed back to exactly its records |
| CsvConnector.FilesKeepOneValuePerPeriod | apps/api/src/pricing/indexes.service.ts:139-192 | whatever is entered and loaded from the text of files, every period keeps one linear chain and the engine one value |
| OverrideStore.Store.Create | apps/api/src/pricing/overrides.service.ts:97-132 | a valid override is stored pending above the threshold and active otherwise, an invalid one is not stored |
| OverrideStore.WinsExactlyWhenUndisturbed | apps/api/src/pricing/overrides.service.ts:134-193 | whatever happens between its read and its write, an approval wins exactly when nothing was won on the override since; a rejection also needs it pending, a cancellation only needs it not closed |
| OverrideStore.Store.Write | apps/api/src/pricing/overrides.service.ts:150-193 | the conditional update changes one row or none |
| OverrideStore.RunsStaySound | apps/api/src/pricing/overrides.service.ts:97-193 | over every interleaving of reads and writes the constraints of the table hold |
| OverrideStore.AtMostOneApprovalWins | apps/api/src/pricing/overrides.service.ts:134-158 | over every interleaving an override is approved at most once, never by its author, and is active above the threshold only when approved |
| OverrideStore.ClosedIsFinal | apps/api/src/pricing/overrides.service.ts:160-193 | a rejected or cancelled override never changes again |
| OverrideStore.AppliedAboveThresholdWasApproved | apps/api/src/pricing/pricing-snapshot.ts:190-203 | an override that the engine applies above the threshold was approved exactly once in the table, by someone else than its author |
| Deadlines.Store.ObsoleteVanished | apps/api/src/deadlines/deadlines.service.ts:86-93 | open deadlines no longer computed become obsolete with their pending reminders |
| Deadlines.Store.Recompute | apps/api/src/deadlines/deadlines.service.ts:52-127 | the whole recalculation gives the specified table and the three counts |
| DeadlineRuns.RecalculationSettles | apps/api/src/deadlines/deadlines.service.ts:52-127 | open deadlines are exactly the computed ones not past, done ones are past, no pending reminder hangs under an obsolete one |
| DeadlineRuns.SecondRunIsQuiet | apps/api/src/deadlines/deadlines.service.ts:17-20 | on an ordered table a second run at once changes nothing: no deadline and no reminder |
| SecondRuns.SecondRunIsQuietExactlyWhen | apps/api/src/deadlines/deadlines.service.ts:154-186 | on a table in any order, a second run at once changes nothing exactly when each slot lost in the cycle a deadline has before adoption is lost as well in the cycle it has after, which the table tells before the first run |
| SecondRuns.LostThenFree | apps/api/src/deadlines/deadlines.service.ts:154-171 | a table in another order that breaks the condition |
| DeadlineRuns.OrderMatters | apps/api/src/deadlines/deadlines.service.ts:154-171 | on a table that lists a reminder to adopt before an attached one, a second run at once adds a reminder |
| DeadlineRuns.AlertsAreComplete | apps/api/src/deadlines/deadlines.service.ts:154-186 | a computed deadline to come ends with its own reminder for a threshold exactly when the slot of its cycle is not held by another nor taken first by an earlier deadline, which the table tells before the run |
| DeadlineRuns.AlertCanBeMissing | apps/api/src/deadlines/deadlines.service.ts:154-186 | a run with unattached reminders that leaves a deadline to come without a reminder for a threshold |
| DeadlineRuns.RunsAlertCompletely | apps/api/src/deadlines/deadlines.service.ts:139-186 | over every run in which nobody makes unattached reminders, each recalculation leaves every deadline to come its own reminder for every threshold |
| DeadlineRuns.RunsStaySound | apps/api/src/deadlines/deadlines.service.ts:52-127 | over every run with a clock that never goes back, other services acting in between: open is computed and not past, done is past, nothing pending hangs under an obsolete deadline, and running again at once changes nothing |
| PriceGrid.PriceInEffect | packages/domain/src/price-grid/price-grid.ts:99-111 | the loop returns the specified price |
| PriceGrid.InEffectIsLatest | packages/domain/src/price-grid/price-grid.ts:99-111 | the price in effect has the latest day of effect up to the date, then the latest entry, and there is none exactly when none has begun |
| PriceGrid.Item.SetPrices | apps/api/src/contract-kinds/price-grid.service.ts:348-390 | the loop gives the specified variants and counts; an unknown or archived term undoes everything |
| PriceGrid.EachByItsRequest | apps/api/src/contract-kinds/price-grid.service.ts:348-390 | each duration is changed by its own request alone |
| PriceGrid.PastPricesStand | apps/api/src/contract-kinds/price-grid.service.ts:348-390 | prices are only appended, the price in effect on every day before the effect is unchanged, absent durations are untouched |
| PriceGrid.RequestIsMet | apps/api/src/contract-kinds/price-grid.service.ts:348-390 | a priced duration ends on sale with exactly the requested price in effect that day, if and only if it was not confused with a different one by the float comparison |
| PriceGrid.SecondCallWritesNothing | apps/api/src/contract-kinds/price-grid.service.ts:348-390 | an identical second call adds, withdraws and restores nothing |
| PriceGrid.FloatsConfuseWidePrices | apps/api/src/contract-kinds/price-grid.service.ts:36-36 | two prices of the range a millionth apart share a double: the new price is silently not written |
| PriceGrid.NarrowPricesAreNeverConfused | apps/api/src/contract-kinds/price-grid.service.ts:36-36 | below 2^33 no two prices of six decimals share a double, so a request is never taken for another price |
| PriceStatuses.MergeStatuses | apps/api/src/proposals/pricing-definition.ts:228-233 | the loop over the record gives the specified merged statuses |
| PriceStatuses.ValidatedByStep | apps/api/src/proposals/pricing-definition.ts:210-315 | a status validated after one step was so before at the same price or was vouched for by that step |
| PriceStatuses.ValidatedOnlyIfEarned | apps/api/src/proposals/pricing-definition.ts:210-315 | over every run, a line is validated for a value only if that key at that price was validated at the start, by an administrator or in the template, and kept its price since |
| PriceStatuses.UnchangedPriceKeepsStatus | apps/api/src/proposals/pricing-definition.ts:257-275 | an edit leaves the status of an unchanged price as it was, for every value |
| PriceStatuses.ChangedPriceIsToValidate | apps/api/src/proposals/pricing-definition.ts:257-275 | a changed price or a new line is to validate, whatever the edit claimed |
| PartialStatuses.TooMuchIsValidatedExactlyWhen | apps/api/src/proposals/pricing-definition.ts:288-301 | some run of validations makes a line validated for a value that nobody validated exactly when its statuses leave the value out, the line is to validate and all they list can be validated |
| PartialStatuses.CoveredNeverOverreaches | apps/api/src/proposals/pricing-definition.ts:288-301 | statuses that cover every priced value rule it out |
| PartialStatuses.PartialStatusesValidateTooMuch | apps/api/src/proposals/pricing-definition.ts:288-301 | a line where it happens |
| Revisions.NextAnniversary | apps/api/src/pricing/pricing.service.ts:394-402 | the loop ends on the least anniversary of a later year that is not before from and strictly after after, 29 February clamped |
| Revisions.CandidatesOf | apps/api/src/pricing/pricing.service.ts:369-383 | the candidates pushed are exactly the future revisions of a version and the anniversaries of past ones |
| Revisions.NextRevisionDate | apps/api/src/pricing/pricing.service.ts:362-386 | the date is the earliest candidate and never before today; none exactly without candidate |
| DecimalText.ParsesExactly | packages/pricing/src/money.ts:77-100 | a decimal is accepted exactly when it is spelt with up to twenty digits, then possibly a point and digits up to the scale, a minus only where allowed, and is worth what those digits are |
| Calendar.PreviousDayCounts | apps/api/src/pricing/schedules.service.ts:353-357 | the day before is the one counted just before in the Gregorian calendar, leap days and centuries included |
| Tiers.TableAccepted | packages/pricing/src/tiers.ts:52-72 | a table is accepted exactly when its texts read as tiers that follow one another, and is read as such |
| IndexReads.LookupExactly | packages/pricing/src/indexes.ts:39-94 | a lookup answers exactly what the first well-formed series of the code shows for its latest month that may serve; no series and no value are refused each with its code |
| IndexReads.RevisionExactly | packages/pricing/src/revision.ts:62-83 | a revision succeeds exactly on shares that add up to one and readings with a reference above zero, with the price that the formula gives, told by products |
| Rules.RuleFound | packages/pricing/src/rules.ts:23-29 | the rule found is the first of its id, RULE_NOT_FOUND exactly when there is none |
| Rules.GridPriceFound | packages/pricing/src/rules.ts:31-41 | the price of a grid is that of the first entry of the article, RULE_NOT_FOUND exactly when no entry has it |
| Rules.AdjustmentReads | packages/pricing/src/rules.ts:54-108 | an adjustment succeeds exactly when its thresholds are read and a commitment has its months; it takes off the percentage of the highest threshold that the quantity, or the months, reach, as its texts give it |
| FourEyes.GapIsPercent | packages/pricing/src/overrides.ts:40-49 | the gap is the difference in percents of the computed price, and needs a second approval exactly when the products say so |
| FourEyes.AppliesExactlyWhen | packages/pricing/src/overrides.ts:104-157 | among the overrides of the day with a reason, and with an approver other than the author when they go too far by products, the one that starts strictly last applies; each refusal and none have their exact condition |
| FourEyes.SkippedExactlyFor | packages/pricing/src/overrides.ts:113-134 | each override skipped covers the day and is skipped for a reason that holds of it |
| FourEyes.BlankIsTrimmed | packages/pricing/src/overrides.ts:58-60 | a reason is empty exactly when nothing is left of it once trimmed |
| FourEyes.WaitsExactlyWhenTooFar | apps/api/src/pricing/overrides.service.ts:112-134 | a creation waits for a second approval exactly when its price goes too far by products, and is in force at once otherwise |
| FourEyes.CreatedExactlyWhen | apps/api/src/pricing/overrides.service.ts:97-134 | a creation goes through exactly with a reason left once trimmed, two days in order and a readable price, and adds that one row |
| FourEyes.UndisturbedRequest | apps/api/src/pricing/overrides.service.ts:140-193 | a request that nobody disturbs approves, rejects or cancels the row it names and logs it once; by the author, or too late, it changes nothing |
| Provenance.TraceComesFrom | packages/pricing/src/price-at.ts:206-423 | each step of the trace of each priced line shows texts of the line, of the rule first of its id, of the grid entry first of its article, of the indexes at their days or of an override that may apply; the line is revised, adjusted rule by rule and overridden exactly when it should be |
| Provenance.PackIsShown | packages/pricing/src/price-at.ts:415-419 | a pack of hours always shows the hourly rate it comes to |
| PricedLines.RegularLineExactlyWhen | packages/pricing/src/price-at.ts:259-441 | a regular line is priced exactly when its texts are read, its quantity and base price are there, its formula has distinct names and a result not below zero, its revision and adjustments have what they need, and the overrides of the day are readable and not tied |
| PricedLines.NoPriceWithoutARule | packages/pricing/src/rules.ts:23-41 | a line whose rule is not in the catalogue, or whose article is not in its grid, is refused with RULE_NOT_FOUND |
| Refusals.HeadRefusal | packages/pricing/src/price-at.ts:188-204 | a rate, a recurrence, hours or a shape that cannot be are refused, with INVALID_DECIMAL for texts and INVALID_LINE for the rest |
| Refusals.QuantityRefusal | packages/pricing/src/price-at.ts:206-227 | a quantity that is not provided is MISSING_QUANTITY, one that cannot be read INVALID_DECIMAL |
| Refusals.LineRefusal | packages/pricing/src/price-at.ts:229-441 | then the first stage that fails decides, with the code of its own cause: base price, revision, first adjustment that fails, overrides |
| TotalsReads.TotalsExactly | packages/pricing/src/price-at.ts:533-574 | the totals are the only ones that read so from the lines: sums by recurrence, each rate once and increasing with its VAT rounded in the mode of the settings, ties included, quarters and years weighed and rounded once |
| DiscountReads.DiscountExactly | packages/pricing/src/price-at.ts:443-531 | a discount is priced exactly when its texts and the lines it aims at read so, and in one way only: base, minus the value or minus its percentage of the base, rounded, with the rate, recurrence and trace that follow |
| DiscountReads.ExceedsExactlyWhen | packages/pricing/src/price-at.ts:468-508 | refused for exceeding its base, or for targets that differ, exactly when that is its first defect |
| DiscountReads.PricedDiscount | packages/pricing/src/price-at.ts:619-629 | every discount of every priced schedule reads so from the result lines it aims at |
| PricingReads.SettingsExactly | packages/pricing/src/schedule.ts:43-60 | settings are those given, else away from zero, six decimals, ten percent and the latest value; INVALID_SETTINGS exactly otherwise |
| PricingReads.VersionExactly | packages/pricing/src/schedule.ts:15-40 | the version selected is the only one that covers the day; none, two and dates that do not exist have each their code, exactly |
| PricingReads.ContextRead | packages/pricing/src/price-at.ts:592-607 | a line sees the overrides of its own id, each as often as given, and the quantity provided last for it |
| PricingReads.PriceAtExactly | packages/pricing/src/price-at.ts:576-643 | priceAt answers exactly the version of the day at the settings read, its lines and the totals that read from them |
| PricingReads.PriceAtRefusals | packages/pricing/src/price-at.ts:576-590 | an input that cannot be priced is refused with the code of its first defect |
| PriceChanges.PriceChangeIsByHand | packages/pricing/src/simulate.ts:105-121 | a simulated price prices its line like one entered by hand at that price, the last one given, and moves no other regular line |
| PriceChanges.IndexValuesAreSet | packages/pricing/src/simulate.ts:82-92 | after the changes an index holds for each month its last change, out on the day given or the first of the month, and elsewhere what it held; accepted exactly when each change is good |
| PriceChanges.AcceptedExactlyWhen | packages/pricing/src/simulate.ts:78-121 | changes are accepted exactly when one version is in force, each value is good, each text names a line and no price is given to a tiered line or a discount |
| PriceChanges.GapsAreRead | packages/pricing/src/simulate.ts:135-187 | the gaps are exactly those of the lines present, against the same line before or against nothing, and of the lines gone, in cents and in percents; the totals differ field by field |
| ConfigurationReads.RetainedQuantities | packages/pricing/src/proposal.ts:263-274 | a retained line has the quantity of the client, else its default, else the value of its tag, unless it follows another one |
| ConfigurationReads.DurationOfChoice | packages/pricing/src/proposal.ts:246-262 | the commitment is that of the option kept for the first choice that bears durations, and nothing without one |
| ConfigurationReads.DefaultIsMarked | packages/pricing/src/proposal.ts:205-207 | a choice defaults to its first option marked so, else to its first option |
| ConfigurationReads.PreselectsFirstRange | packages/pricing/src/proposal.ts:210-221 | a preselection takes the first range that holds the field, bounds included |
| ConfigurationReads.ErrorsExactly | packages/pricing/src/proposal.ts:246-327 | each error of a configuration is raised exactly on its own condition, and no other error exists |
| QuoteReads.LinesAreRead | packages/pricing/src/proposal.ts:347-379 | the lines priced first are those charged, those displayed and the discounts on retained lines, field by field, and no others |
| QuoteReads.StatusIsRead | packages/pricing/src/proposal.ts:229-236 | the status shown is that of the variant chosen, else of the line, else of the first rule of that key, else validated |
| QuoteReads.QuoteIsRead | packages/pricing/src/proposal.ts:395-556 | for every quote: nothing is priced exactly when a quantity or a choice forbids it; otherwise the schedule is the one read so, with its complement below the minimum, priced alone, and each priced line is shown once with its status |
| QuoteSums.TotalsFollowBilling | packages/pricing/src/proposal.ts:333-338 | the monthly, quarterly and yearly totals of every quote add up the lines billed so and the discounts on them, the monthly one raised to its minimum; what is not billed reaches no recurring total |
| QuoteSums.BucketsFollowBilling | packages/pricing/src/proposal.ts:516-522 | so do the four buckets, as soon as prices cover the options of their choice |
| QuoteSums.CommitmentCounts | packages/pricing/src/proposal.ts:524-535 | a commitment counts each month, and the quarters and years that are whole, with an error when some are not |
| Activations.ActivationAnswers | apps/api/src/pricing/schedules.service.ts:192-230 | each outcome of an activation has its exact condition; it is refused as uncomputable exactly when the engine, run on the version alone, fails for another cause than missing data |
| Activations.EngagedVersionsComputed | apps/api/src/pricing/schedules.service.ts:192-230 | over every run each engaged version was, when activated, a draft with lines that the engine could price, data aside, and has kept its lines and first day; one superseded ends the day before another begins |
| Activations.StepIsRead | apps/api/src/pricing/schedules.service.ts:126-230 | each step is told row by row: the number of a draft, what an edit replaces, which versions an activation closes and on what day |
| ValueSteps.EntryIsRead | apps/api/src/pricing/indexes.service.ts:95-131 | an entry is the first value of its month, or the next revision of its current one; not found, not current and already published have their exact conditions |
| ValueSteps.ImportIsRead | apps/api/src/pricing/indexes.service.ts:139-191 | an import is refused exactly for an error, no row or a value that contradicts the current one; it writes, in order, one first value for each row of a month without value |
| CsvLines.LineExactly | apps/api/src/pricing/index-connector.ts:82-92 | a line is nothing to read when blank or after a hash sign, else cells between delimiters, trimmed, with a point for the decimal comma, and a title when it begins like one |
| CsvLines.TextIsRead | apps/api/src/pricing/index-connector.ts:72-79 | a text after its byte order mark is cut at its line ends, and each line read on its own |
| CsvReads.RowExactly | apps/api/src/pricing/index-connector.ts:44-53 | two or three cells are a row exactly when they are a month, a decimal above zero and possibly a day that exists and is not before the month |
| CsvReads.FileIsRead | apps/api/src/pricing/index-connector.ts:81-113 | the first thousand lines of data are each a row, in order, when read and of a new month, and an error otherwise; one more is an error that ends the import |
| ReminderDates.RemindersAfter | apps/api/src/deadlines/deadlines.service.ts:154-187 | every reminder made hangs under a computed deadline to come, its threshold before it, pending exactly when its instant is still to come; those found change exactly as told |
| ReminderDates.DeadlinesAfter | apps/api/src/deadlines/deadlines.service.ts:74-126 | every deadline afterwards is done, open, obsolete or as it was by its day and by whether it is computed, and the counts are of those that appear and vanish |
| ReminderDates.RunsKeepDays | apps/api/src/deadlines/deadlines.service.ts:154-187 | over every run an attached reminder falls its offset before its deadline, and each recalculation changes reminders exactly so |
| ReminderDates.NextCycle | apps/api/src/deadlines/deadlines.service.ts:165-170 | a deadline without reminders starts the cycle after the highest of its kind, or the one of the contract |
| GridReads.RefusedExactlyWhen | apps/api/src/contract-kinds/price-grid.service.ts:355-366 | a call is refused exactly for an unknown term or a price on an archived one, with the code of the first |
| GridReads.DurationsRead | apps/api/src/contract-kinds/price-grid.service.ts:355-388 | each duration is withdrawn or put on sale at the price asked, entered unless the price in effect has the same numbers, by its own request alone |
| GridReads.CountsAreRead | apps/api/src/contract-kinds/price-grid.service.ts:354-390 | the counts returned are those of the requests that entered a price, took a duration off sale or put it back |
| StatusSteps.StepIsRead | apps/api/src/proposals/pricing-definition.ts:210-317 | each edit, validation and take-over changes the statuses of each line exactly as told, and of no other line |
| Revisions.CandidatesComeOn | apps/api/src/pricing/pricing.service.ts:362-387 | the days considered are exactly those on which a revision comes: its own, or the first same day of a later year, the 28th for a 29 February, among versions engaged and not over |

## Left out

- Formula language (tokenizer, parser, evaluator): a formula is an arbitrary decimal result of its expression and variables, checked for sign.
- Division to 40 significant digits (index ratio, average unit price of a tiered line, gap in percent) is exact division here. `Precision` covers the tier loop, the line product and up to two adjustments on stored values; revised prices, longer cascades, discounts and VAT are priced on exact decimals.
- LineFacts.CascadeIgnoresOrder: about exact decimals; the code rounds each product to forty digits, and on stored prices the order is then free exactly up to three adjustments (`RoundedCascades.OrderIsFreeExactlyUpToThree`).
- Error messages, line labels, units and descriptions: errors are codes, texts play no part.
- Trace values are numbers, not formatted text; JSON serialisation is not modelled.
- Values outside the TypeScript enumerations (unknown kind, mode or currency) and non-finite numbers cannot be written in the model.
- Decimal negative zero: the code refuses it as a formula result (`isNegative`), for instance the opposite of a zero quantity. The evaluator of the model stands for evaluation followed by that refusal; everywhere else it equals zero.
- Quantities of a proposal above 2^53, which JavaScript prints with fewer digits than the model.
- The configuration errors of a proposal form a set: their order, repetition and wording are not modelled, so neither is a rule whose message happens to contain the words the quote looks for.
- Groups, units, ticked options and pending validations shown beside a quote.
- Statuses of rules and choices in `pricing-definition.ts`: only lines, whose statuses guard prices by choice, are followed over runs.
- ConfigurationFacts.WellOrderedPassIsClosure: one way only; the exact condition over all selections is `ConfigurationFacts.EnoughWhateverIsTicked`.
- EngineFacts.DisjointDiscountsKeepTotalsPositive: one way only; the exact condition over all values of the discounts is `DiscountBalance.NeverNegativeExactlyWhen`.
- Revisions.NextAnniversary: bounds are before year 9999, beyond which the original compares texts of different lengths.
- CsvConnector.Parse: decoding the bytes of a file to text is not modelled; errors are line numbers without their wording.
- The code asks for reminders in no order: the theorems over runs suppose the order in which they were made, `SecondRuns` and `DeadlineRuns.AlertsAreComplete` suppose none.
- Unit price scales below two decimals in quotes: `ProposalLines.PlainLineAtScale` says what they do to each line, the theorems on whole quotes suppose two.
- Database uniqueness, exclusion and row-level security are assumptions: fresh identifiers are row positions, and each transaction of a store runs alone except in `OverrideStore`, where reads and writes interleave.
- `computeDeadlines` is an arbitrary list of wanted deadlines; details of a deadline are not kept.
- Contract and proposal life cycles, signatures, renewals, imports of contracts, controllers, authentication, queues, documents and the front end: they relay or display the decisions above.

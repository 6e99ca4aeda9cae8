/**
 * Days left without a version (apps/api/src/pricing/schedules.service.ts): a bounded version activated
 * inside an open one cuts it short for good, over an actual run of requests.
 */
module ScheduleGaps {
  import opened Outcomes
  import opened Sums
  import opened DecimalText
  import opened Calendar
  import opened PricingTypes
  import opened LinePricing
  import opened Totals
  import opened Schedules
  import opened Engine
  import opened EngineFacts
  import opened ProposalLines
  import opened Proposals
  import opened DiscountBalance
  import opened ScheduleStore

  function DraftOf(id: string, e: Edit): Row { Row(id, DRAFT, e.validFrom, e.validTo, e.lines) }

  /** Two versions created and activated one after the other. */
  function TwoActivations(first: Edit, second: Edit, env: PricingInput): seq<Step> {
    [Create("v1", first, None), Activation(1, env), Create("v2", second, None), Activation(2, env)]
  }

  /** The first is open, the second starts later and ends. */
  predicate OpenThenBounded(first: Edit, second: Edit) {
    && first.WellDated() && second.WellDated() && first.validTo.None? && second.validTo.Some?
    && first.validFrom < second.validFrom
  }

  /** The table after each of the four requests. */
  function Tables(first: Edit, second: Edit): seq<Rows> {
    var open := DraftOf("v1", first).(status := ACTIVE);
    var closed := open.(status := SUPERSEDED, validTo := Some(PreviousDay(second.validFrom)));
    var bounded := DraftOf("v2", second);
    [map[], map[1 := DraftOf("v1", first)], map[1 := open], map[1 := open, 2 := bounded], map[1 := closed, 2 := bounded.(status := ACTIVE)]]
  }

  lemma TablesAreARun(first: Edit, second: Edit, env: PricingInput)
    requires OpenThenBounded(first, second)
    requires ComputeRefusal(DraftOf("v1", first), env) == Done && ComputeRefusal(DraftOf("v2", second), env) == Done
    ensures IsRun(Tables(first, second), TwoActivations(first, second, env))
  {
    hide ComputeRefusal, ValidDay, PreviousDay;
    DatesAreBounded(second.validFrom);
    DatesAreBounded(second.validTo.value);
    var tables, steps := Tables(first, second), TwoActivations(first, second, env);
    assert IsLast(tables[0], 0) && tables[1] == Drafted(tables[0], 0, "v1", first);
    assert !AnyConflict(tables[1], first.validFrom, first.validTo);
    assert tables[2] == Activated(tables[1], 1);
    assert IsLast(tables[2], 1) && tables[3] == Drafted(tables[2], 1, "v2", second);
    assert !AnyConflict(tables[3], second.validFrom, second.validTo);
    assert tables[4] == Activated(tables[3], 2);
  }

  /**
   * Whatever the lines, once both versions can be computed: the open version was in force on every day after
   * the end of the bounded one, and the activation of the bounded one leaves those days without any.
   */
  lemma BoundedInsideOpenLeavesNoVersion(first: Edit, second: Edit, env: PricingInput, d: Day)
    requires OpenThenBounded(first, second) && ValidDay(d) && d > second.validTo.value
    requires ComputeRefusal(DraftOf("v1", first), env) == Done && ComputeRefusal(DraftOf("v2", second), env) == Done
    ensures var tables := Tables(first, second);
            && IsRun(tables, TwoActivations(first, second, env))
            && SelectSchedule(EngagedBelow(tables[3], 3), d) == Ok(tables[3][1].ToEngine())
            && SelectSchedule(EngagedBelow(tables[4], 3), d) == Err(NO_SCHEDULE)
  {
    hide ComputeRefusal, ValidDay, PreviousDay, SelectSchedule, EngagedBelow, IsRun, TwoActivations;
    TablesAreARun(first, second, env);
    var tables, steps := Tables(first, second), TwoActivations(first, second, env);
    assert InForceOn(tables[3], 1, d);
    SelectionNeverOverlaps(tables, steps, 3, 3, d);
    PreviousDayBefore(second.validFrom);
    assert forall v :: !InForceOn(tables[4], v, d);
    SelectionNeverOverlaps(tables, steps, 4, 3, d);
  }

  lemma PreviousDayBefore(d: Day)
    requires ValidDay(d)
    ensures PreviousDay(d) < d
  {
    DatesAreBounded(d);
  }

  // ------------------------------------------------------------- one such run, in full

  const OPEN_EDIT := Edit(20240101, None, [ONE_HUNDRED])

  const BOUNDED_EDIT := Edit(20250101, Some(20250630), [ONE_HUNDRED])

  lemma HundredSchedule(ctx: Ctx)
    requires NoOverrides(ctx) && ctx.settings.unitPriceScale >= 2
    ensures PriceLines([ONE_HUNDRED], ctx).Ok?
  {
    hide RegularLine, PriceLines, NatText, CentsText;
    HundredIsPriced(ctx);
    assert [ONE_HUNDRED][..0] == [];
    PricedExactlyWhen([ONE_HUNDRED], ctx);
  }

  /** A version made of one line at 100 euros a month computes in any surroundings with usable settings. */
  lemma HundredComputes(id: string, e: Edit, env: PricingInput)
    requires e.WellDated() && e.lines == [ONE_HUNDRED]
    requires ResolveSettings(env.settings).Ok? && ResolveSettings(env.settings).value.unitPriceScale >= 2
    ensures ComputeRefusal(DraftOf(id, e), env) == Done
  {
    hide PriceLines, ResolveSettings, ValidDay, TotalsOf, NatText, CentsText, ProvidedByOne;
    var draft, s := DraftOf(id, e), ResolveSettings(env.settings).value;
    var input := env.(schedules := [draft.ToEngine()], overrides := [], quantities := ProvidedByOne(draft.lines));
    FlatMapOne(draft.ToEngine(), Matching(e.validFrom));
    assert SelectSchedule([draft.ToEngine()], e.validFrom) == Ok(draft.ToEngine());
    var ctx := MakeCtx(input, e.validFrom, s);
    assert ctx.overridesByLine == map[];
    HundredSchedule(ctx);
  }

  lemma BothCompute(env: PricingInput)
    requires ResolveSettings(env.settings).Ok? && ResolveSettings(env.settings).value.unitPriceScale >= 2
    ensures OpenThenBounded(OPEN_EDIT, BOUNDED_EDIT)
    ensures ComputeRefusal(DraftOf("v1", OPEN_EDIT), env) == Done && ComputeRefusal(DraftOf("v2", BOUNDED_EDIT), env) == Done
  {
    assert ValidDay(20240101) && ValidDay(20250101) && ValidDay(20250630);
    hide ValidDay, ComputeRefusal, ResolveSettings, DraftOf, ManualLine;
    HundredComputes("v1", OPEN_EDIT, env);
    HundredComputes("v2", BOUNDED_EDIT, env);
  }

  /** Two versions at 100 euros a month, the second for the first half of 2025: from July 2025 there is no version. */
  lemma ActivationLeavesAGap(env: PricingInput, d: Day)
    requires ResolveSettings(env.settings).Ok? && ResolveSettings(env.settings).value.unitPriceScale >= 2
    requires ValidDay(d) && d > 20250630
    ensures var tables := Tables(OPEN_EDIT, BOUNDED_EDIT);
            && IsRun(tables, TwoActivations(OPEN_EDIT, BOUNDED_EDIT, env))
            && SelectSchedule(EngagedBelow(tables[3], 3), d) == Ok(tables[3][1].ToEngine())
            && SelectSchedule(EngagedBelow(tables[4], 3), d) == Err(NO_SCHEDULE)
  {
    hide ValidDay, ComputeRefusal, ResolveSettings, SelectSchedule, EngagedBelow, IsRun, TwoActivations, ManualLine, PreviousDay;
    BothCompute(env);
    BoundedInsideOpenLeavesNoVersion(OPEN_EDIT, BOUNDED_EDIT, env, d);
  }
}

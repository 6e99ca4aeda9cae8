/**
 * What `priceAt` answers (packages/pricing/src/price-at.ts, schedule.ts, settings.ts), told from its input: the
 * settings with their defaults, the one version of the date, what each line may look at, and the result.
 */
module PricingReads {
  import opened Outcomes
  import opened Sums
  import opened Money
  import opened DecimalText
  import opened Calendar
  import opened Indexes
  import opened Overrides
  import opened PricingTypes
  import opened Totals
  import opened TotalsReads
  import opened Schedules
  import opened Engine

  // --------------------------------------------------------------------- settings

  /** Rounding away from zero, six decimals, ten percent and the latest published value, unless given. */
  ghost predicate SettingsRead(given: PartialSettings, s: Settings) {
    && s.rounding == (if given.rounding.Some? then given.rounding.value else HALF_AWAY_FROM_ZERO)
    && s.unitPriceScale == (if given.unitPriceScale.Some? then given.unitPriceScale.value else 6) && s.unitPriceScale <= 6
    && (if given.overrideApprovalThresholdPercent.Some? then ParseDecimal(given.overrideApprovalThresholdPercent.value, 4, false) == Ok(s.threshold)
        else s.threshold == 10.0)
    && s.indexLookup == (if given.indexLookup.Some? then given.indexLookup.value else LATEST_PUBLISHED)
  }

  lemma TenParses()
    ensures ParseDecimal("10", 4, false) == Ok(10.0)
  {
    assert NatText(1) == "1";
    assert NatText(10) == "10";
    assert Pow10(MAX_INTEGER_DIGITS) >= 100 by {
      Pow10Grows(2, MAX_INTEGER_DIGITS);
    }
    hide ParseDecimal, NatText, Pow10;
    NatTextParses(10, 4, false);
  }

  lemma SettingsExactly(given: PartialSettings)
    ensures forall s :: ResolveSettings(given) == Ok(s) <==> SettingsRead(given, s)
    ensures ResolveSettings(given).Err? ==> ResolveSettings(given).code == INVALID_SETTINGS
  {
    TenParses();
    hide ParseDecimal;
  }

  // ---------------------------------------------------------------------- version

  predicate Dates(s: Schedule) {
    ValidDay(s.validFrom) && (s.validTo.Some? ==> ValidDay(s.validTo.value) && s.validFrom <= s.validTo.value)
  }

  predicate CoversDay(s: Schedule, date: Day) { s.validFrom <= date && (s.validTo.Some? ==> date <= s.validTo.value) }

  ghost predicate OnlyVersion(schedules: seq<Schedule>, date: Day, i: int) {
    && 0 <= i < |schedules| && CoversDay(schedules[i], date)
    && forall j :: 0 <= j < |schedules| && j != i ==> !CoversDay(schedules[j], date)
  }

  ghost predicate TwoVersions(schedules: seq<Schedule>, date: Day) {
    exists i, j :: 0 <= i < j < |schedules| && CoversDay(schedules[i], date) && CoversDay(schedules[j], date)
  }

  /** What a list of matches tells of the versions it comes from. */
  ghost predicate Matches(found: seq<Schedule>, schedules: seq<Schedule>, date: Day) {
    && (|found| == 0 <==> forall i :: 0 <= i < |schedules| ==> !CoversDay(schedules[i], date))
    && (forall i :: OnlyVersion(schedules, date, i) ==> found == [schedules[i]])
    && (|found| == 1 ==> exists i :: OnlyVersion(schedules, date, i))
    && (|found| > 1 <==> TwoVersions(schedules, date))
  }

  lemma NoMatches(date: Day)
    ensures Matches([], [], date)
  {
  }

  lemma {:induction false} MatchesCounted(schedules: seq<Schedule>, date: Day)
    ensures Matches(FlatMap(schedules, Matching(date)), schedules, date)
  {
    if schedules == [] {
      NoMatches(date);
    } else {
      hide *;
      var init, last := schedules[..|schedules| - 1], schedules[|schedules| - 1];
      MatchesCounted(init, date);
      FlatMapLast(schedules, date);
      OneMoreVersion(init, last, date, FlatMap(init, Matching(date)));
      assert schedules == init + [last];
    }
  }

  lemma FlatMapLast(schedules: seq<Schedule>, date: Day)
    requires schedules != []
    ensures FlatMap(schedules, Matching(date))
         == FlatMap(schedules[..|schedules| - 1], Matching(date)) + if CoversDay(schedules[|schedules| - 1], date) then [schedules[|schedules| - 1]] else []
  {
  }

  lemma OneMoreVersion(init: seq<Schedule>, last: Schedule, date: Day, found: seq<Schedule>)
    requires Matches(found, init, date)
    ensures Matches(found + if CoversDay(last, date) then [last] else [], init + [last], date)
  {
    if CoversDay(last, date) {
      LastMatches(init, last, date, found);
    } else {
      LastDoesNot(init, last, date, found);
      assert found + [] == found;
    }
  }

  lemma LastMatches(init: seq<Schedule>, last: Schedule, date: Day, found: seq<Schedule>)
    requires Matches(found, init, date) && CoversDay(last, date)
    ensures Matches(found + [last], init + [last], date)
  {
    hide CoversDay;
    var all := init + [last];
    assert all[|init|] == last;
    if |found| == 0 {
      assert forall i :: 0 <= i < |init| ==> all[i] == init[i];
      assert OnlyVersion(all, date, |init|);
      assert found + [last] == [last];
    } else {
      var i :| 0 <= i < |init| && CoversDay(init[i], date);
      assert all[i] == init[i];
      assert TwoVersions(all, date);
      assert forall k :: !OnlyVersion(all, date, k);
    }
  }

  lemma LastDoesNot(init: seq<Schedule>, last: Schedule, date: Day, found: seq<Schedule>)
    requires Matches(found, init, date) && !CoversDay(last, date)
    ensures Matches(found, init + [last], date)
  {
    hide CoversDay;
    var all := init + [last];
    assert all[|init|] == last && forall i :: 0 <= i < |init| ==> all[i] == init[i];
    StillTwo(init, last, date);
    forall i
      ensures OnlyVersion(init, date, i) <==> OnlyVersion(all, date, i)
    {
      StillOnly(init, last, date, i);
    }
    hide OnlyVersion, TwoVersions;
    if |found| == 1 {
      var i :| OnlyVersion(init, date, i);
      assert OnlyVersion(all, date, i);
    }
    OnlyIsAPlace(init, date);
  }

  lemma OnlyIsAPlace(schedules: seq<Schedule>, date: Day)
    ensures forall i :: OnlyVersion(schedules, date, i) ==> 0 <= i < |schedules|
  {
  }

  lemma StillTwo(init: seq<Schedule>, last: Schedule, date: Day)
    requires !CoversDay(last, date)
    ensures TwoVersions(init + [last], date) <==> TwoVersions(init, date)
  {
    hide CoversDay;
    var all := init + [last];
    if TwoVersions(init, date) {
      var i, j :| 0 <= i < j < |init| && CoversDay(init[i], date) && CoversDay(init[j], date);
      assert all[i] == init[i] && all[j] == init[j];
    }
    if TwoVersions(all, date) {
      var i, j :| 0 <= i < j < |all| && CoversDay(all[i], date) && CoversDay(all[j], date);
      assert all[i] == init[i] && all[j] == init[j];
    }
  }

  lemma StillOnly(init: seq<Schedule>, last: Schedule, date: Day, i: int)
    requires !CoversDay(last, date)
    ensures OnlyVersion(init, date, i) <==> OnlyVersion(init + [last], date, i)
  {
    hide CoversDay;
    var all := init + [last];
    assert all[|init|] == last && forall k :: 0 <= k < |init| ==> all[k] == init[k];
  }

  /** The version selected is the only one that covers the day; each refusal has its cause. */
  lemma VersionExactly(schedules: seq<Schedule>, date: Day)
    ensures var good := ValidDay(date) && forall s :: s in schedules ==> Dates(s);
            && (SelectSchedule(schedules, date) == Err(INVALID_DATE) <==> !good)
            && (SelectSchedule(schedules, date) == Err(NO_SCHEDULE) <==> good && forall i :: 0 <= i < |schedules| ==> !CoversDay(schedules[i], date))
            && (SelectSchedule(schedules, date) == Err(OVERLAPPING_SCHEDULES) <==> good && TwoVersions(schedules, date))
            && forall s :: SelectSchedule(schedules, date) == Ok(s) <==> good && exists i :: OnlyVersion(schedules, date, i) && schedules[i] == s
  {
    MatchesCounted(schedules, date);
    assert forall s :: ValidVersion(s) <==> Dates(s);
    hide ValidDay, FlatMap, OnlyVersion, TwoVersions, ValidVersion, Dates, CoversDay;
    var found := FlatMap(schedules, Matching(date));
    if |found| == 1 {
      var i :| OnlyVersion(schedules, date, i);
      assert found == [schedules[i]];
    }
  }

  // ------------------------------------------------------------- what a line looks at

  /** The quantity provided last for the line. */
  ghost predicate LastProvided(quantities: seq<ResolvedQuantity>, id: string, k: int) {
    0 <= k < |quantities| && quantities[k].lineId == id && forall j :: k < j < |quantities| ==> quantities[j].lineId != id
  }

  lemma {:induction false} LastIsProvided(quantities: seq<ResolvedQuantity>, id: string)
    ensures id in QuantityMap(quantities) <==> exists k :: 0 <= k < |quantities| && quantities[k].lineId == id
    ensures forall k :: LastProvided(quantities, id, k) ==> id in QuantityMap(quantities) && QuantityMap(quantities)[id] == quantities[k]
  {
    if quantities != [] {
      var init, last := quantities[..|quantities| - 1], quantities[|quantities| - 1];
      LastIsProvided(init, id);
      forall k | LastProvided(quantities, id, k)
        ensures id in QuantityMap(quantities) && QuantityMap(quantities)[id] == quantities[k]
      {
        if k < |init| {
          assert LastProvided(init, id, k);
        }
      }
      if id in QuantityMap(quantities) && last.lineId != id {
        var k :| 0 <= k < |init| && init[k].lineId == id;
        assert quantities[k].lineId == id;
      }
    }
  }

  lemma NoneGrouped(id: string)
    ensures FlatMap([], ForLine(id)) == []
  {
  }

  lemma {:induction false} GroupedById(overrides: seq<PriceOverride>, id: string, o: PriceOverride)
    ensures multiset(FlatMap(overrides, ForLine(id)))[o] == if o.lineId == id then multiset(overrides)[o] else 0
  {
    hide FlatMap;
    if overrides == [] {
      NoneGrouped(id);
    } else {
      var init, last := overrides[..|overrides| - 1], overrides[|overrides| - 1];
      GroupedById(init, id, o);
      FlatMapAppend(init, [last], ForLine(id));
      FlatMapOne(last, ForLine(id));
      assert overrides == init + [last];
      OneMoreOf(FlatMap(init, ForLine(id)), ForLine(id)(last), o);
      OneMoreOf(init, [last], o);
    }
  }

  lemma OneMoreOf(xs: seq<PriceOverride>, ys: seq<PriceOverride>, o: PriceOverride)
    ensures multiset(xs + ys)[o] == multiset(xs)[o] + multiset(ys)[o]
  {
  }

  /** A line sees the overrides of its own id, each as often as given, and the quantity provided last for it. */
  lemma ContextRead(input: PricingInput, date: Day, s: Settings, id: string, o: PriceOverride)
    ensures var ctx := MakeCtx(input, date, s);
            && ctx.date == date && ctx.settings == s && ctx.indexes == input.indexes && ctx.catalog == input.ruleCatalog
            && ctx.commitmentMonths == input.commitmentMonths && ctx.evaluate == input.evaluate
            && multiset(ctx.OverridesOf(id))[o] == (if o.lineId == id then multiset(input.overrides)[o] else 0)
            && (id in ctx.quantities <==> exists k :: 0 <= k < |input.quantities| && input.quantities[k].lineId == id)
            && forall k :: LastProvided(input.quantities, id, k) ==> id in ctx.quantities && ctx.quantities[id] == input.quantities[k]
  {
    GroupedById(input.overrides, id, o);
    LastIsProvided(input.quantities, id);
    if id !in OverrideMap(input.overrides) {
      NothingForLine(input.overrides, id);
    }
  }

  // -------------------------------------------------------------------- the result

  /** The version of the day at the settings given, its lines priced one by one, and their totals. */
  ghost predicate PricedRead(input: PricingInput, date: Day, r: PricingResult, i: int) {
    && (forall s :: s in input.schedules ==> Dates(s)) && OnlyVersion(input.schedules, date, i) && SettingsRead(input.settings, r.settings)
    && var s := input.schedules[i];
       && r.date == date && r.scheduleId == s.id && r.scheduleValidFrom == s.validFrom && r.scheduleValidTo == s.validTo
       && PriceLines(s.lines, MakeCtx(input, date, r.settings)) == Ok(r.lines)
       && TotalsRead(r.totals, r.lines, r.settings.rounding)
  }

  /** `priceAt` answers exactly what can be read so; an input that cannot is refused with the code of its first defect. */
  lemma PriceAtExactly(input: PricingInput, date: Day, r: PricingResult)
    ensures PriceAt(input, date) == Ok(r) <==> ValidDay(date) && exists i :: PricedRead(input, date, r, i)
  {
    hide SettingsRead, SelectSchedule, PriceLines, TotalsOf, TotalsRead, ResolveSettings, ValidDay;
    SettingsExactly(input.settings);
    VersionExactly(input.schedules, date);
    TotalsExactly(r.lines, r.totals, r.settings.rounding);
    if PriceAt(input, date) == Ok(r) {
      var s := SelectSchedule(input.schedules, date).value;
      var i :| OnlyVersion(input.schedules, date, i) && input.schedules[i] == s;
      assert PricedRead(input, date, r, i);
    }
    if ValidDay(date) {
      forall i | PricedRead(input, date, r, i)
        ensures PriceAt(input, date) == Ok(r)
      {
        assert SettingsRead(input.settings, r.settings);
        assert ResolveSettings(input.settings) == Ok(r.settings);
        assert SelectSchedule(input.schedules, date) == Ok(input.schedules[i]);
      }
    }
  }

  lemma PriceAtRefusals(input: PricingInput, date: Day)
    ensures !ValidDay(date) ==> PriceAt(input, date) == Err(INVALID_DATE)
    ensures ValidDay(date) && (forall s :: !SettingsRead(input.settings, s)) ==> PriceAt(input, date) == Err(INVALID_SETTINGS)
    ensures ValidDay(date) && (exists s :: SettingsRead(input.settings, s)) ==>
              && ((exists s :: s in input.schedules && !Dates(s)) ==> PriceAt(input, date) == Err(INVALID_DATE))
              && ((forall s :: s in input.schedules ==> Dates(s)) ==>
                    && ((forall i :: 0 <= i < |input.schedules| ==> !CoversDay(input.schedules[i], date)) ==> PriceAt(input, date) == Err(NO_SCHEDULE))
                    && (TwoVersions(input.schedules, date) ==> PriceAt(input, date) == Err(OVERLAPPING_SCHEDULES))
                    && forall i :: OnlyVersion(input.schedules, date, i) && !Distinct(LineIds(input.schedules[i].lines)) ==>
                         PriceAt(input, date) == Err(INVALID_LINE))
  {
    hide SettingsRead, SelectSchedule, TotalsOf, ResolveSettings, ValidDay, Dates, CoversDay, TwoVersions, RegularPass, DiscountPass;
    SettingsExactly(input.settings);
    VersionExactly(input.schedules, date);
    if ValidDay(date) && forall s :: s in input.schedules ==> Dates(s) {
      forall i | OnlyVersion(input.schedules, date, i)
        ensures SelectSchedule(input.schedules, date) == Ok(input.schedules[i])
      {
        var s := input.schedules[i];
        assert exists k :: OnlyVersion(input.schedules, date, k) && input.schedules[k] == s;
      }
    }
  }
}

/** Simulated prices and gaps (packages/pricing/src/simulate.ts), told from the texts given and from the two results. */
module PriceChanges {
  import opened Outcomes
  import opened Sums
  import opened Money
  import opened DecimalText
  import opened Calendar
  import opened Indexes
  import opened IndexReads
  import opened Overrides
  import opened PricingTypes
  import opened LinePricing
  import opened Totals
  import opened Schedules
  import opened Engine
  import opened EngineFacts
  import opened EngineLocality
  import opened Simulation

  // ---------------------------------------------------------------- texts kept

  /** The last change of that line is the one at place k. */
  ghost predicate LastFor(changes: seq<LineChange>, id: string, k: int) {
    0 <= k < |changes| && changes[k].lineId == id && forall j :: k < j < |changes| ==> changes[j].lineId != id
  }

  /** The text kept for a line is the last one given for it. */
  lemma {:induction false} LastIsKept(changes: seq<LineChange>, id: string)
    ensures id in ChangeMap(changes) <==> exists k :: 0 <= k < |changes| && changes[k].lineId == id
    ensures forall k :: LastFor(changes, id, k) ==> id in ChangeMap(changes) && ChangeMap(changes)[id] == changes[k].text
  {
    if changes != [] {
      var init := changes[..|changes| - 1];
      LastIsKept(init, id);
      forall k | LastFor(changes, id, k)
        ensures id in ChangeMap(changes) && ChangeMap(changes)[id] == changes[k].text
      {
        if k < |init| {
          assert LastFor(init, id, k);
        }
      }
      if id in ChangeMap(changes) && changes[|changes| - 1].lineId != id {
        var k :| 0 <= k < |init| && init[k].lineId == id;
        assert changes[k].lineId == id;
      }
    }
  }

  // ------------------------------------------------------------ simulated index values

  /** The day a simulated value is out: the one given, else the first of its month. */
  predicate Out(c: IndexChange, day: Day) {
    if c.publishedAt.Some? then day == c.publishedAt.value
    else DayOfMonth(day) == 1 && day / 100 == c.period
  }

  predicate GoodChange(c: IndexChange, day: Day) { Out(c, day) && GoodValue(IndexValue(c.period, c.value, day)) }

  ghost predicate IsGood(c: IndexChange) { exists day :: GoodChange(c, day) }

  lemma FirstOfMonth(c: IndexChange)
    ensures forall day :: Out(c, day) <==> day == SimulatedValue(c).publishedAt
  {
  }

  lemma ChangeIsGood(c: IndexChange)
    ensures CheckValue(SimulatedValue(c)).Ok? <==> IsGood(c)
  {
    FirstOfMonth(c);
    hide ParseDecimal, Out;
    if CheckValue(SimulatedValue(c)).Ok? {
      assert GoodChange(c, SimulatedValue(c).publishedAt);
    }
  }

  /** The value is in the first series of that code. */
  ghost predicate Held(indexes: seq<PriceIndex>, code: string, w: IndexValue) {
    exists i :: FirstSeries(indexes, code, i) && w in indexes[i].values
  }

  /** The last change for that month of that index. */
  ghost predicate LastChange(changes: seq<IndexChange>, code: string, period: int, k: int) {
    && 0 <= k < |changes| && changes[k].indexCode == code && changes[k].period == period
    && forall j :: k < j < |changes| ==> changes[j].indexCode != code || changes[j].period != period
  }

  predicate Told(c: IndexChange, w: IndexValue) { w.period == c.period && w.value == c.value && Out(c, w.publishedAt) }

  ghost predicate HeldAfter(indexes: seq<PriceIndex>, changes: seq<IndexChange>, code: string, w: IndexValue) {
    || (exists k :: LastChange(changes, code, w.period, k) && Told(changes[k], w))
    || (Held(indexes, code, w) && forall k :: 0 <= k < |changes| ==> changes[k].indexCode != code || changes[k].period != w.period)
  }

  lemma HeldIsFound(indexes: seq<PriceIndex>, code: string, w: IndexValue)
    ensures Held(indexes, code, w) <==> FindIndex(indexes, code).Some? && w in FindIndex(indexes, code).value.values
  {
    FoundFirst(indexes, code);
  }

  lemma OneReplaced(indexes: seq<PriceIndex>, code: string, v: IndexValue, other: string, w: IndexValue)
    requires AllValid(indexes) && CheckValue(v).Ok?
    ensures Held(ReplaceIndex(indexes, code, v), other, w)
            <==> if other == code && w.period == v.period then w == v else Held(indexes, other, w)
  {
    hide CheckValue, WithValue, ReplaceIndex, Held;
    ReplaceIndexIsValid(indexes, code, v);
    HeldIsFound(indexes, other, w);
    HeldIsFound(ReplaceIndex(indexes, code, v), other, w);
    if other == code && FindIndex(indexes, code).Some? {
      FindIndexMember(indexes, code);
      SimulatedSeriesIsValid(FindIndex(indexes, code).value.values, v);
    }
  }

  lemma OneMoreChange(indexes: seq<PriceIndex>, init: seq<IndexChange>, c: IndexChange, code: string, w: IndexValue)
    ensures HeldAfter(indexes, init + [c], code, w)
            <==> if code == c.indexCode && w.period == c.period then Told(c, w) else HeldAfter(indexes, init, code, w)
  {
    hide Told, Held;
    var changes := init + [c];
    if code == c.indexCode && w.period == c.period {
      assert LastChange(changes, code, w.period, |init|);
      assert forall k :: LastChange(changes, code, w.period, k) ==> k == |init|;
    } else {
      forall k
        ensures LastChange(changes, code, w.period, k) <==> LastChange(init, code, w.period, k)
      {
        assert forall j :: 0 <= j < |init| ==> changes[j] == init[j];
        assert changes[|init|] == c;
      }
    }
  }

  /**
   * After the changes, an index holds for each month the value of its last change, out on the day given or else
   * on the first of the month, and elsewhere what it held; the changes are accepted exactly when each is good.
   */
  lemma {:induction false} IndexValuesAreSet(indexes: seq<PriceIndex>, changes: seq<IndexChange>, code: string, w: IndexValue)
    requires AllValid(indexes)
    ensures ApplyIndexes(indexes, changes).Ok? <==> forall c :: c in changes ==> IsGood(c)
    ensures ApplyIndexes(indexes, changes).Ok? ==>
              AllValid(ApplyIndexes(indexes, changes).value) && (Held(ApplyIndexes(indexes, changes).value, code, w) <==> HeldAfter(indexes, changes, code, w))
  {
    hide CheckValue, ReplaceIndex, Held, HeldAfter, Told, IsGood, AllValid, SimulatedValue;
    if changes == [] {
      NothingChanged(indexes, code, w);
    } else {
      var init, c := changes[..|changes| - 1], changes[|changes| - 1];
      assert changes == init + [c];
      IndexValuesAreSet(indexes, init, code, w);
      ChangeIsGood(c);
      if ApplyIndexes(indexes, init).Ok? && CheckValue(SimulatedValue(c)).Ok? {
        var before := ApplyIndexes(indexes, init).value;
        OneReplaced(before, c.indexCode, SimulatedValue(c), code, w);
        ReplaceIndexIsValid(before, c.indexCode, SimulatedValue(c));
        OneMoreChange(indexes, init, c, code, w);
        ToldIsSimulated(c, w);
      }
    }
  }

  lemma NothingChanged(indexes: seq<PriceIndex>, code: string, w: IndexValue)
    ensures HeldAfter(indexes, [], code, w) <==> Held(indexes, code, w)
  {
  }

  lemma ToldIsSimulated(c: IndexChange, w: IndexValue)
    ensures SimulatedValue(c).period == c.period && (Told(c, w) <==> w == SimulatedValue(c))
  {
    FirstOfMonth(c);
  }

  // ------------------------------------------------------------- which changes are accepted

  /** Each change names a line and holds a decimal. */
  ghost predicate GoodTexts(changes: seq<LineChange>, lines: seq<Line>) {
    forall c :: c in changes ==> (exists l :: l in lines && l.id == c.lineId) && ParseDecimal(c.text, 6, false).Ok?
  }

  lemma {:induction false} TextsAreGood(changes: seq<LineChange>, lines: seq<Line>)
    ensures CheckChanges(changes, IdsOf(lines)).Ok? <==> GoodTexts(changes, lines)
  {
    hide ParseDecimal;
    if changes != [] {
      assert changes == changes[..|changes| - 1] + [changes[|changes| - 1]];
      TextsAreGood(changes[..|changes| - 1], lines);
    }
  }

  /**
   * Changes are accepted exactly when one version is in force, every index value is good, every text names a line
   * of it, and no price is given to a tiered line or to a discount.
   */
  lemma AcceptedExactlyWhen(input: PricingInput, date: Day, changes: Changes)
    requires AllValid(input.indexes)
    ensures ApplyChanges(input, date, changes).Ok? <==>
              && SelectSchedule(input.schedules, date).Ok?
              && (forall c :: c in changes.indexValues ==> IsGood(c))
              && var lines := SelectSchedule(input.schedules, date).value.lines;
                 && GoodTexts(changes.quantities, lines) && GoodTexts(changes.linePrices, lines)
                 && forall l, c :: l in lines && c in changes.linePrices && c.lineId == l.id ==> l.kind != TIERED && l.kind != DISCOUNT
  {
    hide SelectSchedule, ApplyIndexes, CheckChanges, GoodTexts, ChangeMap, IsGood, Held, ReplaceSchedule, ChangedLines, FlatMap;
    IndexValuesAreSet(input.indexes, changes.indexValues, "", IndexValue(0, "", 0));
    if SelectSchedule(input.schedules, date).Ok? {
      var lines := SelectSchedule(input.schedules, date).value.lines;
      TextsAreGood(changes.quantities, lines);
      TextsAreGood(changes.linePrices, lines);
      forall l | l in lines
        ensures l.id in ChangeMap(changes.linePrices) <==> exists c :: c in changes.linePrices && c.lineId == l.id
      {
        LastIsKept(changes.linePrices, l.id);
      }
    }
  }

  // ---------------------------------------------------------------- a line price

  /** The line entered by hand at that price: no rule, no formula, the rest as it was. */
  function ByHand(l: Line, price: string): Line {
    Line(l.id, l.code, l.kind, MANUAL, l.vatRatePercent, l.quantity, l.recurrence, Some(price), l.tiers, None, None, l.revision,
         l.hoursPerPack, l.discount)
  }

  /**
   * A price simulated for a line prices it like a line entered by hand at that price, and no other regular
   * line moves, trace included.
   */
  lemma PriceChangeIsByHand(input: PricingInput, date: Day, prices: seq<LineChange>, i: nat)
    requires Simulate(input, date, Changes([], [], prices), None).Ok?
    requires var lines := SelectSchedule(input.schedules, date).value.lines; i < |lines| && lines[i].kind != DISCOUNT
    ensures var r := Simulate(input, date, Changes([], [], prices), None).value;
            var line := SelectSchedule(input.schedules, date).value.lines[i];
            var ctx := MakeCtx(input, date, ResolveSettings(input.settings).value);
            && i < |r.before.lines| == |r.after.lines|
            && ((forall k :: 0 <= k < |prices| ==> prices[k].lineId != line.id) ==> r.after.lines[i] == r.before.lines[i])
            && (forall k :: LastFor(prices, line.id, k) ==>
                  && line.kind != TIERED
                  && RegularLine(ByHand(line, prices[k].text), ctx) == Ok(r.after.lines[i])
                  && exists p :: ParseDecimal(prices[k].text, 6, false) == Ok(p) && BasePrice(p) in r.after.lines[i].trace)
  {
    hide RegularLine, PriceLines, TotalsOf, SelectSchedule, ResolveSettings, ParseDecimal;
    hide ChangeMap, QuantityMap, CheckChanges, OverrideMap, LineDeltas, FlatMap;
    var target := SelectSchedule(input.schedules, date).value;
    var texts := ChangeMap(prices);
    NothingSimulated(input.quantities);
    var lines := ChangedLines(target.lines, texts, map[]);
    var changed := ApplyChanges(input, date, Changes([], [], prices)).value;
    ReplacedIsSelected(input.schedules, target, lines, date);
    var s := ResolveSettings(input.settings).value;
    var c := MakeCtx(input, date, s);
    assert MakeCtx(changed, date, s) == c;
    PricedLineByLine(target.lines, c, i);
    PricedLineByLine(lines, c, i);
    var line := target.lines[i];
    assert line in target.lines;
    LastIsKept(prices, line.id);
    forall k | LastFor(prices, line.id, k)
      ensures RegularLine(ByHand(line, prices[k].text), c).Ok?
      ensures exists p :: ParseDecimal(prices[k].text, 6, false) == Ok(p) && BasePrice(p) in RegularLine(ByHand(line, prices[k].text), c).value.trace
    {
      assert lines[i] == ByHand(line, prices[k].text);
      ByHandShowsItsPrice(ByHand(line, prices[k].text), c);
    }
  }

  lemma NothingSimulated(quantities: seq<ResolvedQuantity>)
    ensures ChangeMap([]) == map[]
    ensures FlatMap(quantities, Unchanged(ChangeMap([]).Keys)) + Simulated(Entries([])) == quantities
  {
    AllKept(quantities);
  }

  lemma {:induction false} AllKept(quantities: seq<ResolvedQuantity>)
    ensures FlatMap(quantities, Unchanged({})) == quantities
  {
    if quantities != [] {
      var init, last := quantities[..|quantities| - 1], quantities[|quantities| - 1];
      AllKept(init);
      FlatMapSnoc(init, last, Unchanged({}));
      hide FlatMap;
      assert quantities == init + [last];
    }
  }

  lemma ByHandShowsItsPrice(line: Line, ctx: Ctx)
    requires line.mode == MANUAL && line.kind != TIERED && line.unitPrice.Some? && RegularLine(line, ctx).Ok?
    ensures exists p :: ParseDecimal(line.unitPrice.value, 6, false) == Ok(p) && BasePrice(p) in RegularLine(line, ctx).value.trace
  {
    hide ParseDecimal, Select, ToCents, ResolveQuantity, ParseVat, ResolveRecurrence, CheckShape, RevisionStage, AdjustmentStage;
    hide ComputedUnit, SelectionSteps, HourPackSteps, TotalSteps, RoundingStep, ExactTotal, FinalUnit;
    QuantityIsQuantity(line, ctx);
    var p := ParseDecimal(line.unitPrice.value, 6, false).value;
    assert RegularLine(line, ctx).value.trace[1] == BasePrice(p);
  }

  // -------------------------------------------------------------------- the gaps

  /** A gap in percents of what was there, to two decimals, none when nothing was. */
  ghost predicate PercentReads(before: int, delta: int, percent: Option<real>) {
    if before == 0 then percent.None?
    else percent.Some? && exists n :: InHundredths(percent.value, n, delta, before)
  }

  ghost predicate InHundredths(percent: real, n: int, delta: int, before: int)
    requires before != 0
  {
    percent * 100.0 == n as real && IsRounding(Ratio(delta, before), n, HALF_AWAY_FROM_ZERO)
  }

  /** Hundredths of a percent. */
  function Ratio(delta: int, before: int): real
    requires before != 0
  {
    delta as real * 10000.0 / before as real
  }

  lemma PercentIsRead(before: int, delta: int, percent: Option<real>)
    ensures percent == DeltaPercent(before, delta) <==> PercentReads(before, delta, percent)
  {
    if before != 0 {
      assert Pow10(2) == 100;
      var x := delta as real / before as real * 100.0;
      assert x * Shift(2) == Ratio(delta, before);
      var n := Round(Ratio(delta, before), HALF_AWAY_FROM_ZERO);
      RoundIsTheRounding(Ratio(delta, before), n, HALF_AWAY_FROM_ZERO);
      assert DeltaPercent(before, delta).value * 100.0 == n as real;
      assert InHundredths(DeltaPercent(before, delta).value, n, delta, before);
      if PercentReads(before, delta, percent) {
        var m :| InHundredths(percent.value, m, delta, before);
        RoundIsTheRounding(Ratio(delta, before), m, HALF_AWAY_FROM_ZERO);
      }
    }
  }

  ghost predicate Absent(id: string, lines: seq<PricedLine>) { forall l :: l in lines ==> l.lineId != id }

  /** A line of the second result against the same line of the first, or against nothing. */
  ghost predicate GapOf(d: LineDelta, a: PricedLine, before: seq<PricedLine>) {
    && d.lineId == a.lineId && d.afterCents == Some(a.totalHtCents)
    && ((d == LineDelta(a.lineId, None, Some(a.totalHtCents), a.totalHtCents, None) && Absent(a.lineId, before))
        || exists b :: b in before && b.lineId == a.lineId && Moved(d, a.totalHtCents, b.totalHtCents))
  }

  ghost predicate Moved(d: LineDelta, after: int, before: int) {
    d.beforeCents == Some(before) && d.deltaCents == after - before && PercentReads(before, after - before, d.deltaPercent)
  }

  /** A line of the first result that is gone from the second. */
  ghost predicate GoneFrom(d: LineDelta, b: PricedLine, after: seq<PricedLine>) {
    && d.lineId == b.lineId && d.afterCents.None? && Moved(d, 0, b.totalHtCents) && Absent(b.lineId, after)
  }

  lemma {:induction false} FoundIsThere(lines: seq<PricedLine>, id: string)
    requires DistinctLineIds(lines)
    ensures FindLine(lines, id).None? <==> Absent(id, lines)
    ensures forall b :: b in lines && b.lineId == id ==> FindLine(lines, id) == Some(b.totalHtCents)
  {
    if lines != [] {
      var init, last := lines[..|lines| - 1], lines[|lines| - 1];
      assert lines == init + [last];
      FoundIsThere(init, id);
      if last.lineId == id {
        forall b | b in init
          ensures b.lineId != id
        {
          var k :| 0 <= k < |init| && init[k] == b;
          assert lines[k] == b;
        }
      }
    }
  }

  lemma GapIsRead(d: LineDelta, a: PricedLine, before: seq<PricedLine>)
    requires DistinctLineIds(before)
    ensures d in AfterDelta(before)(a) <==> GapOf(d, a, before)
  {
    hide DeltaPercent, PercentReads, DistinctLineIds;
    FoundIsThere(before, a.lineId);
    FindLineMembers(before, a.lineId);
    if FindLine(before, a.lineId).Some? {
      var b := FindLine(before, a.lineId).value;
      PercentIsRead(b, a.totalHtCents - b, d.deltaPercent);
    }
  }

  lemma GoneIsRead(d: LineDelta, b: PricedLine, after: seq<PricedLine>)
    requires DistinctLineIds(after)
    ensures d in BeforeDelta(after)(b) <==> GoneFrom(d, b, after)
  {
    hide DeltaPercent, PercentReads, DistinctLineIds;
    FoundIsThere(after, b.lineId);
    PercentIsRead(b.totalHtCents, -b.totalHtCents, d.deltaPercent);
  }

  /** The gaps are those of the lines present, and of the lines gone, and the totals differ field by field. */
  lemma GapsAreRead(input: PricingInput, date: Day, changes: Changes, beforeDate: Option<Day>, d: LineDelta)
    requires Simulate(input, date, changes, beforeDate).Ok?
    ensures var r := Simulate(input, date, changes, beforeDate).value;
            && Ok(r.before) == PriceAt(input, if beforeDate.Some? then beforeDate.value else date)
            && (d in r.lineDeltas <==>
                  (exists a :: a in r.after.lines && GapOf(d, a, r.before.lines)) || (exists b :: b in r.before.lines && GoneFrom(d, b, r.after.lines)))
            && r.before.totals.htCents + r.totalsDelta.htCents == r.after.totals.htCents
            && r.before.totals.vatCents + r.totalsDelta.vatCents == r.after.totals.vatCents
            && r.before.totals.ttcCents + r.totalsDelta.ttcCents == r.after.totals.ttcCents
            && r.before.totals.monthlyRecurringCents + r.totalsDelta.monthlyRecurringCents == r.after.totals.monthlyRecurringCents
            && r.before.totals.annualRecurringCents + r.totalsDelta.annualRecurringCents == r.after.totals.annualRecurringCents
  {
    hide PriceAt, ApplyChanges, FlatMap, GapOf, GoneFrom, DistinctLineIds;
    var r := Simulate(input, date, changes, beforeDate).value;
    PricedIdsDistinct(input, beforeDate.GetOr(date));
    PricedIdsDistinct(ApplyChanges(input, date, changes).value, date);
    FlatMapMembers(r.after.lines, AfterDelta(r.before.lines), d);
    FlatMapMembers(r.before.lines, BeforeDelta(r.after.lines), d);
    forall a | a in r.after.lines
      ensures d in AfterDelta(r.before.lines)(a) <==> GapOf(d, a, r.before.lines)
    {
      GapIsRead(d, a, r.before.lines);
    }
    forall b | b in r.before.lines
      ensures d in BeforeDelta(r.after.lines)(b) <==> GoneFrom(d, b, r.after.lines)
    {
      GoneIsRead(d, b, r.after.lines);
    }
  }
}

/** The simulator (packages/pricing/src/simulate.ts): a changed copy of the input, priced before and after. */
module Simulation {
  import opened Outcomes
  import opened Sums
  import opened Money
  import opened DecimalText
  import opened Calendar
  import opened Indexes
  import opened Overrides
  import opened PricingTypes
  import opened LinePricing
  import opened LineFacts
  import opened Totals
  import opened Schedules
  import opened Engine
  import opened EngineFacts
  import opened EngineLocality
  import opened Quotes

  datatype IndexChange = IndexChange(indexCode: string, period: int, value: string, publishedAt: Option<Day>)

  datatype LineChange = LineChange(lineId: string, text: string)

  datatype Changes = Changes(indexValues: seq<IndexChange>, quantities: seq<LineChange>, linePrices: seq<LineChange>)

  datatype LineDelta = LineDelta(
    lineId: string, beforeCents: Option<int>, afterCents: Option<int>, deltaCents: int, deltaPercent: Option<real>)

  datatype TotalsDelta = TotalsDelta(htCents: int, vatCents: int, ttcCents: int, monthlyRecurringCents: int, annualRecurringCents: int)

  datatype SimulationResult = SimulationResult(
    before: PricingResult, after: PricingResult, lineDeltas: seq<LineDelta>, totalsDelta: TotalsDelta)

  // ------------------------------------------------------------- index values

  function KeepOthers(period: int): IndexValue -> seq<IndexValue> {
    (v: IndexValue) => if v.period != period then [v] else []
  }

  /** The series with the simulated value in place of any value of its period. */
  function WithValue(values: seq<IndexValue>, v: IndexValue): seq<IndexValue> {
    FlatMap(values, KeepOthers(v.period)) + [v]
  }

  /** The first series of that code is replaced, or a new one is added. */
  function ReplaceIndex(indexes: seq<PriceIndex>, code: string, v: IndexValue): seq<PriceIndex> {
    if indexes == [] then [PriceIndex(code, [v])]
    else if indexes[0].code == code then [PriceIndex(code, WithValue(indexes[0].values, v))] + indexes[1..]
    else [indexes[0]] + ReplaceIndex(indexes[1..], code, v)
  }

  /** By default a value is known from the first day of its period. */
  function SimulatedValue(c: IndexChange): IndexValue {
    IndexValue(c.period, c.value, c.publishedAt.GetOr(c.period * 100 + 1))
  }

  function ApplyIndexes(indexes: seq<PriceIndex>, changes: seq<IndexChange>): Result<seq<PriceIndex>> {
    if changes == [] then Ok(indexes)
    else
      var before :- ApplyIndexes(indexes, changes[..|changes| - 1]);
      var c := changes[|changes| - 1];
      var _ :- CheckValue(SimulatedValue(c));
      Ok(ReplaceIndex(before, c.indexCode, SimulatedValue(c)))
  }

  // ------------------------------------------------------- quantities and prices

  function ChangeMap(changes: seq<LineChange>): map<string, string> {
    if changes == [] then map[]
    else
      var c := changes[|changes| - 1];
      ChangeMap(changes[..|changes| - 1])[c.lineId := c.text]
  }

  /** Every change names a line of the schedule and holds a decimal. */
  function CheckChanges(changes: seq<LineChange>, ids: set<string>): Result<()> {
    if changes == [] then Ok(())
    else
      var _ :- CheckChanges(changes[..|changes| - 1], ids);
      var c := changes[|changes| - 1];
      if c.lineId !in ids then Err(INVALID_LINE)
      else
        var value := ParseDecimal(c.text, 6, false);
        if value.Err? then Err(value.code) else Ok(())
  }

  predicate HasUnitPrice(kind: LineKind) { kind != TIERED && kind != DISCOUNT }

  /** A new base price makes the line manual, a new quantity makes it provided. */
  function ChangedLine(l: Line, prices: map<string, string>, quantities: map<string, string>): Line {
    var priced := if l.id in prices then l.(mode := MANUAL, unitPrice := Some(prices[l.id]), rule := None, formula := None) else l;
    if l.id in quantities then priced.(quantity := Some(Provider)) else priced
  }

  function ChangedLines(lines: seq<Line>, prices: map<string, string>, quantities: map<string, string>): seq<Line> {
    seq(|lines|, i requires 0 <= i < |lines| => ChangedLine(lines[i], prices, quantities))
  }

  function Unchanged(ids: set<string>): ResolvedQuantity -> seq<ResolvedQuantity> {
    (q: ResolvedQuantity) => if q.lineId in ids then [] else [q]
  }

  /** Map entries in insertion order: a key set again keeps its place. */
  function Put(entries: seq<LineChange>, c: LineChange): seq<LineChange> {
    if entries == [] then [c]
    else if entries[0].lineId == c.lineId then [c] + entries[1..]
    else [entries[0]] + Put(entries[1..], c)
  }

  function Entries(changes: seq<LineChange>): seq<LineChange> {
    if changes == [] then [] else Put(Entries(changes[..|changes| - 1]), changes[|changes| - 1])
  }

  function Simulated(entries: seq<LineChange>): seq<ResolvedQuantity> {
    seq(|entries|, i requires 0 <= i < |entries| => ResolvedQuantity(entries[i].lineId, entries[i].text, "simulation", None))
  }

  /** The version in force is the one rewritten; there is only one. */
  function ReplaceSchedule(schedules: seq<Schedule>, target: Schedule, lines: seq<Line>): seq<Schedule> {
    seq(|schedules|, i requires 0 <= i < |schedules| => if schedules[i] == target then target.(lines := lines) else schedules[i])
  }

  function ApplyChanges(input: PricingInput, date: Day, changes: Changes): Result<PricingInput> {
    var target :- SelectSchedule(input.schedules, date);
    var indexes :- ApplyIndexes(input.indexes, changes.indexValues);
    var _ :- CheckChanges(changes.quantities, IdsOf(target.lines));
    var _ :- CheckChanges(changes.linePrices, IdsOf(target.lines));
    var prices, quantities := ChangeMap(changes.linePrices), ChangeMap(changes.quantities);
    if exists l :: l in target.lines && l.id in prices && !HasUnitPrice(l.kind) then Err(INVALID_LINE)
    else Ok(input.(
      schedules := ReplaceSchedule(input.schedules, target, ChangedLines(target.lines, prices, quantities)),
      indexes := indexes,
      quantities := FlatMap(input.quantities, Unchanged(quantities.Keys)) + Simulated(Entries(changes.quantities))))
  }

  // ------------------------------------------------------------------- deltas

  function FindLine(lines: seq<PricedLine>, id: string): Option<int> {
    if lines == [] then None
    else
      var last := lines[|lines| - 1];
      if last.lineId == id then Some(last.totalHtCents) else FindLine(lines[..|lines| - 1], id)
  }

  function DeltaPercent(before: int, delta: int): Option<real> {
    if before == 0 then None
    else Some(RoundToScale(delta as real / before as real * 100.0, 2, HALF_AWAY_FROM_ZERO))
  }

  function AfterDelta(before: seq<PricedLine>): PricedLine -> seq<LineDelta> {
    (a: PricedLine) =>
      var b := FindLine(before, a.lineId);
      var delta := a.totalHtCents - b.GetOr(0);
      [LineDelta(a.lineId, b, Some(a.totalHtCents), delta, if b.None? then None else DeltaPercent(b.value, delta))]
  }

  function BeforeDelta(after: seq<PricedLine>): PricedLine -> seq<LineDelta> {
    (b: PricedLine) =>
      if FindLine(after, b.lineId).Some? then []
      else [LineDelta(b.lineId, Some(b.totalHtCents), None, -b.totalHtCents, DeltaPercent(b.totalHtCents, -b.totalHtCents))]
  }

  function LineDeltas(before: seq<PricedLine>, after: seq<PricedLine>): seq<LineDelta> {
    FlatMap(after, AfterDelta(before)) + FlatMap(before, BeforeDelta(after))
  }

  function DeltaOfTotals(t0: PricingTotals, t1: PricingTotals): TotalsDelta {
    TotalsDelta(t1.htCents - t0.htCents, t1.vatCents - t0.vatCents, t1.ttcCents - t0.ttcCents,
                t1.monthlyRecurringCents - t0.monthlyRecurringCents, t1.annualRecurringCents - t0.annualRecurringCents)
  }

  function Simulate(input: PricingInput, date: Day, changes: Changes, beforeDate: Option<Day>): Result<SimulationResult> {
    var before :- PriceAt(input, beforeDate.GetOr(date));
    var changed :- ApplyChanges(input, date, changes);
    var after :- PriceAt(changed, date);
    Ok(SimulationResult(before, after, LineDeltas(before.lines, after.lines), DeltaOfTotals(before.totals, after.totals)))
  }

  // ------------------------------------------------------- the imperative form

  method ApplyIndexValues(indexes: seq<PriceIndex>, changes: seq<IndexChange>) returns (r: Result<seq<PriceIndex>>)
    ensures r == ApplyIndexes(indexes, changes)
  {
    hide CheckValue, ReplaceIndex;
    var current := indexes;
    for i := 0 to |changes|
      invariant ApplyIndexes(indexes, changes[..i]) == Ok(current)
    {
      assert changes[..i + 1][..i] == changes[..i];
      ApplyIndexesPrefix(indexes, changes, i + 1);
      var checked := CheckValue(SimulatedValue(changes[i]));
      if checked.Err? {
        return Err(checked.code);
      }
      current := ReplaceIndex(current, changes[i].indexCode, SimulatedValue(changes[i]));
    }
    assert changes[..|changes|] == changes;
    r := Ok(current);
  }

  lemma {:induction false} ApplyIndexesPrefix(indexes: seq<PriceIndex>, changes: seq<IndexChange>, n: nat)
    requires n <= |changes|
    ensures ApplyIndexes(indexes, changes[..n]).Err? ==> ApplyIndexes(indexes, changes) == ApplyIndexes(indexes, changes[..n])
    decreases |changes|
  {
    if n < |changes| {
      assert changes[..|changes| - 1][..n] == changes[..n];
      ApplyIndexesPrefix(indexes, changes[..|changes| - 1], n);
    } else {
      assert changes[..n] == changes;
    }
  }

  /** One loop over the changes of a kind, filling the map of the last text given per line. */
  method CollectChanges(changes: seq<LineChange>, ids: set<string>) returns (r: Result<map<string, string>>)
    ensures r == if CheckChanges(changes, ids).Err? then Err(CheckChanges(changes, ids).code) else Ok(ChangeMap(changes))
  {
    hide ParseDecimal;
    var texts: map<string, string> := map[];
    for i := 0 to |changes|
      invariant CheckChanges(changes[..i], ids).Ok? && texts == ChangeMap(changes[..i])
    {
      assert changes[..i + 1][..i] == changes[..i];
      CheckChangesPrefix(changes, i + 1, ids);
      if changes[i].lineId !in ids {
        return Err(INVALID_LINE);
      }
      var value := ParseDecimal(changes[i].text, 6, false);
      if value.Err? {
        return Err(value.code);
      }
      texts := texts[changes[i].lineId := changes[i].text];
    }
    assert changes[..|changes|] == changes;
    r := Ok(texts);
  }

  lemma {:induction false} CheckChangesPrefix(changes: seq<LineChange>, n: nat, ids: set<string>)
    requires n <= |changes|
    ensures CheckChanges(changes[..n], ids).Err? ==> CheckChanges(changes, ids) == CheckChanges(changes[..n], ids)
    decreases |changes|
  {
    hide ParseDecimal;
    if n < |changes| {
      assert changes[..|changes| - 1][..n] == changes[..n];
      CheckChangesPrefix(changes[..|changes| - 1], n, ids);
    } else {
      assert changes[..n] == changes;
    }
  }

  method Run(input: PricingInput, date: Day, changes: Changes, beforeDate: Option<Day>) returns (r: Result<SimulationResult>)
    ensures r == Simulate(input, date, changes, beforeDate)
  {
    hide PriceAt, SelectSchedule, ApplyIndexes, CheckChanges, ChangeMap, ReplaceSchedule, ChangedLines, Entries, FlatMap;
    var before := Compute(input, beforeDate.GetOr(date));
    if before.Err? {
      return Err(before.code);
    }
    var target :- SelectSchedule(input.schedules, date);
    var indexes := ApplyIndexValues(input.indexes, changes.indexValues);
    if indexes.Err? {
      return Err(indexes.code);
    }
    var quantities := CollectChanges(changes.quantities, IdsOf(target.lines));
    if quantities.Err? {
      return Err(quantities.code);
    }
    var prices := CollectChanges(changes.linePrices, IdsOf(target.lines));
    if prices.Err? {
      return Err(prices.code);
    }
    if exists l :: l in target.lines && l.id in prices.value && !HasUnitPrice(l.kind) {
      return Err(INVALID_LINE);
    }
    var changed := input.(
      schedules := ReplaceSchedule(input.schedules, target, ChangedLines(target.lines, prices.value, quantities.value)),
      indexes := indexes.value,
      quantities := FlatMap(input.quantities, Unchanged(quantities.value.Keys)) + Simulated(Entries(changes.quantities)));
    assert ApplyChanges(input, date, changes) == Ok(changed);
    var after := Compute(changed, date);
    if after.Err? {
      return Err(after.code);
    }
    var lineDeltas := CompareLines(before.value.lines, after.value.lines);
    r := Ok(SimulationResult(before.value, after.value, lineDeltas, DeltaOfTotals(before.value.totals, after.value.totals)));
  }

  method CompareLines(before: seq<PricedLine>, after: seq<PricedLine>) returns (deltas: seq<LineDelta>)
    ensures deltas == LineDeltas(before, after)
  {
    hide FindLine, DeltaPercent;
    deltas := FlatMap(after, AfterDelta(before));
    for i := 0 to |before|
      invariant deltas == FlatMap(after, AfterDelta(before)) + FlatMap(before[..i], BeforeDelta(after))
    {
      FlatMapStep(before, i, BeforeDelta(after));
      var b := before[i];
      if FindLine(after, b.lineId).None? {
        deltas := deltas + [LineDelta(b.lineId, Some(b.totalHtCents), None, -b.totalHtCents, DeltaPercent(b.totalHtCents, -b.totalHtCents))];
      }
    }
    assert before[..|before|] == before;
  }

  // ---------------------------------------------------------------- conservation

  function Delta(): LineDelta -> int { (d: LineDelta) => d.deltaCents }

  /** What a line cost before, zero when it did not exist. */
  function Formerly(before: seq<PricedLine>): PricedLine -> int {
    (a: PricedLine) => FindLine(before, a.lineId).GetOr(0)
  }

  /** What a line cost, for the ids found among `lines`. */
  function StillThere(lines: seq<PricedLine>): PricedLine -> int {
    (b: PricedLine) => if FindLine(lines, b.lineId).Some? then b.totalHtCents else 0
  }

  function Gone(lines: seq<PricedLine>): PricedLine -> int {
    (b: PricedLine) => if FindLine(lines, b.lineId).Some? then 0 else b.totalHtCents
  }

  lemma {:induction false} AfterDeltasSum(before: seq<PricedLine>, after: seq<PricedLine>)
    ensures SumBy(FlatMap(after, AfterDelta(before)), Delta()) == SumBy(after, Ht()) - SumBy(after, Formerly(before))
  {
    if after != [] {
      var init, a := after[..|after| - 1], after[|after| - 1];
      AfterDeltasSum(before, init);
      SumByAppend(FlatMap(init, AfterDelta(before)), AfterDelta(before)(a), Delta());
      SumByOne(AfterDelta(before)(a)[0], Delta());
    }
  }

  lemma {:induction false} BeforeDeltasSum(before: seq<PricedLine>, after: seq<PricedLine>)
    ensures SumBy(FlatMap(before, BeforeDelta(after)), Delta()) == -SumBy(before, Gone(after))
  {
    if before != [] {
      var init, b := before[..|before| - 1], before[|before| - 1];
      BeforeDeltasSum(init, after);
      SumByAppend(FlatMap(init, BeforeDelta(after)), BeforeDelta(after)(b), Delta());
      if FindLine(after, b.lineId).None? {
        SumByOne(BeforeDelta(after)(b)[0], Delta());
      }
    }
  }

  lemma {:induction false} FindLineMembers(lines: seq<PricedLine>, id: string)
    ensures FindLine(lines, id).Some? <==> exists l :: l in lines && l.lineId == id
  {
    if lines != [] {
      FindLineMembers(lines[..|lines| - 1], id);
      assert lines == lines[..|lines| - 1] + [lines[|lines| - 1]];
    }
  }

  /** The HT of the line with that id, in a list where ids are distinct. */
  function OnlyId(id: string): PricedLine -> int {
    (b: PricedLine) => if b.lineId == id then b.totalHtCents else 0
  }

  lemma {:induction false} FindLineIsSum(lines: seq<PricedLine>, id: string)
    requires DistinctLineIds(lines)
    ensures SumBy(lines, OnlyId(id)) == FindLine(lines, id).GetOr(0)
  {
    if lines != [] {
      var init, last := lines[..|lines| - 1], lines[|lines| - 1];
      FindLineIsSum(init, id);
      if last.lineId == id {
        forall l | l in init
          ensures OnlyId(id)(l) == 0
        {
        }
        SumByZero(init, OnlyId(id));
      }
    }
  }

  lemma {:induction false} StillThereIsFormerly(before: seq<PricedLine>, after: seq<PricedLine>)
    requires DistinctLineIds(before) && DistinctLineIds(after)
    ensures SumBy(before, StillThere(after)) == SumBy(after, Formerly(before))
  {
    if after == [] {
      SumByZero(before, StillThere(after));
    } else {
      var init, a := after[..|after| - 1], after[|after| - 1];
      StillThereIsFormerly(before, init);
      FindLineIsSum(before, a.lineId);
      forall b | b in before
        ensures StillThere(after)(b) == StillThere(init)(b) + OnlyId(a.lineId)(b)
      {
        FindLineMembers(init, b.lineId);
        FindLineMembers(after, b.lineId);
        assert after == init + [a];
      }
      SumByPlus(before, StillThere(init), OnlyId(a.lineId), StillThere(after));
    }
  }

  lemma LineDeltasSum(before: seq<PricedLine>, after: seq<PricedLine>)
    requires DistinctLineIds(before) && DistinctLineIds(after)
    ensures SumBy(LineDeltas(before, after), Delta()) == SumBy(after, Ht()) - SumBy(before, Ht())
  {
    SumByAppend(FlatMap(after, AfterDelta(before)), FlatMap(before, BeforeDelta(after)), Delta());
    AfterDeltasSum(before, after);
    BeforeDeltasSum(before, after);
    StillThereIsFormerly(before, after);
    SumByPlus(before, StillThere(after), Gone(after), Ht());
  }

  lemma PricedIdsDistinct(input: PricingInput, date: Day)
    requires PriceAt(input, date).Ok?
    ensures DistinctLineIds(PriceAt(input, date).value.lines)
    ensures PriceAt(input, date).value.totals.htCents == SumBy(PriceAt(input, date).value.lines, Ht())
  {
    hide PriceLines, SelectSchedule, ResolveSettings, Breakdowns, Grouped, Normalised;
    var s := ResolveSettings(input.settings).value;
    PricedLinesFormSchedule(SelectSchedule(input.schedules, date).value.lines, MakeCtx(input, date, s));
    TotalsConserve(PriceAt(input, date).value.lines, s.rounding);
  }

  /** The gaps shown line by line add up to the gap of the totals, whatever versions the two dates select. */
  lemma SimulationConserves(input: PricingInput, date: Day, changes: Changes, beforeDate: Option<Day>)
    requires Simulate(input, date, changes, beforeDate).Ok?
    ensures var r := Simulate(input, date, changes, beforeDate).value;
            SumBy(r.lineDeltas, Delta()) == r.totalsDelta.htCents
  {
    hide PriceAt, ApplyChanges, LineDeltas;
    var changed := ApplyChanges(input, date, changes).value;
    PricedIdsDistinct(input, beforeDate.GetOr(date));
    PricedIdsDistinct(changed, date);
    LineDeltasSum(PriceAt(input, beforeDate.GetOr(date)).value.lines, PriceAt(changed, date).value.lines);
  }

  // --------------------------------------------------------------- empty changes

  const NO_CHANGES := Changes([], [], [])

  lemma EmptyChangesKeepInput(input: PricingInput, date: Day)
    requires SelectSchedule(input.schedules, date).Ok?
    ensures ApplyChanges(input, date, NO_CHANGES) == Ok(input)
  {
    hide SelectSchedule;
    var target := SelectSchedule(input.schedules, date).value;
    var none: map<string, string> := map[];
    assert ChangedLines(target.lines, none, none) == target.lines;
    assert ReplaceSchedule(input.schedules, target, target.lines) == input.schedules;
    AllUnchanged(input.quantities);
    assert none.Keys == {};
    assert Simulated([]) == [];
    assert input.quantities + [] == input.quantities;
  }

  lemma {:induction false} AllUnchanged(quantities: seq<ResolvedQuantity>)
    ensures FlatMap(quantities, Unchanged({})) == quantities
  {
    if quantities != [] {
      AllUnchanged(quantities[..|quantities| - 1]);
    }
  }

  lemma {:induction false} FindOwnLine(lines: seq<PricedLine>, l: PricedLine)
    requires DistinctLineIds(lines) && l in lines
    ensures FindLine(lines, l.lineId) == Some(l.totalHtCents)
  {
    var init, last := lines[..|lines| - 1], lines[|lines| - 1];
    assert lines == init + [last];
    if last.lineId != l.lineId {
      FindOwnLine(init, l);
    } else {
      var k :| 0 <= k < |lines| && lines[k] == l;
      assert k == |lines| - 1;
    }
  }

  /** Nothing changed, nothing moves: every gap is zero. */
  lemma EmptySimulationIsNeutral(input: PricingInput, date: Day)
    requires PriceAt(input, date).Ok?
    ensures Simulate(input, date, NO_CHANGES, None).Ok?
    ensures var r := Simulate(input, date, NO_CHANGES, None).value;
            && r.after == r.before
            && (forall d :: d in r.lineDeltas ==> d.deltaCents == 0)
            && r.totalsDelta == TotalsDelta(0, 0, 0, 0, 0)
  {
    EmptyChangesKeepInput(input, date);
    PricedIdsDistinct(input, date);
    hide PriceAt, ApplyChanges, FindLine, DeltaPercent;
    var lines := PriceAt(input, date).value.lines;
    NoDelta(lines);
  }

  /** Lines compared with themselves show no gap. */
  lemma NoDelta(lines: seq<PricedLine>)
    requires DistinctLineIds(lines)
    ensures forall d :: d in LineDeltas(lines, lines) ==> d.deltaCents == 0
  {
    hide FindLine, DeltaPercent;
    forall d | d in LineDeltas(lines, lines)
      ensures d.deltaCents == 0
    {
      FlatMapMembers(lines, AfterDelta(lines), d);
      FlatMapMembers(lines, BeforeDelta(lines), d);
      var l :| l in lines && (d in AfterDelta(lines)(l) || d in BeforeDelta(lines)(l));
      FindOwnLine(lines, l);
    }
  }

  // ------------------------------------------------------------ simulated indexes

  lemma CheckOneMore(values: seq<IndexValue>, v: IndexValue)
    ensures CheckValues(values + [v]).Ok? <==> CheckValues(values).Ok? && CheckValue(v).Ok? && forall w :: w in values ==> w.period != v.period
  {
    hide CheckValue;
    assert (values + [v])[..|values|] == values;
    assert v.period in Periods(values) <==> exists w :: w in values && w.period == v.period;
  }

  lemma KeptMembers(values: seq<IndexValue>, period: int)
    ensures forall v :: v in FlatMap(values, KeepOthers(period)) <==> v in values && v.period != period
  {
    forall v
      ensures v in FlatMap(values, KeepOthers(period)) <==> v in values && v.period != period
    {
      FlatMapMembers(values, KeepOthers(period), v);
    }
  }

  lemma {:induction false} KeptPeriods(values: seq<IndexValue>, period: int)
    requires CheckValues(values).Ok?
    ensures CheckValues(FlatMap(values, KeepOthers(period))).Ok?
  {
    if values != [] {
      var init, last := values[..|values| - 1], values[|values| - 1];
      var kept := FlatMap(init, KeepOthers(period));
      assert FlatMap(values, KeepOthers(period)) == kept + if last.period != period then [last] else [];
      assert values == init + [last];
      hide *;
      CheckOneMore(init, last);
      KeptPeriods(init, period);
      if last.period != period {
        KeptMembers(init, period);
        CheckOneMore(kept, last);
      } else {
        assert kept + [] == kept;
      }
    }
  }

  lemma SimulatedSeriesIsValid(values: seq<IndexValue>, v: IndexValue)
    requires CheckValues(values).Ok? && CheckValue(v).Ok?
    ensures CheckValues(WithValue(values, v)).Ok?
    ensures forall w :: w in WithValue(values, v) <==> w == v || (w in values && w.period != v.period)
  {
    hide CheckValue, CheckValues, FlatMap;
    KeptPeriods(values, v.period);
    KeptMembers(values, v.period);
    CheckOneMore(FlatMap(values, KeepOthers(v.period)), v);
  }

  ghost predicate AllValid(indexes: seq<PriceIndex>) {
    forall x :: x in indexes ==> CheckValues(x.values).Ok?
  }

  lemma {:induction false} ReplaceIndexIsValid(indexes: seq<PriceIndex>, code: string, v: IndexValue)
    requires AllValid(indexes) && CheckValue(v).Ok?
    ensures AllValid(ReplaceIndex(indexes, code, v))
    ensures FindIndex(ReplaceIndex(indexes, code, v), code)
         == Some(PriceIndex(code, if FindIndex(indexes, code).Some? then WithValue(FindIndex(indexes, code).value.values, v) else [v]))
    ensures forall other :: other != code ==> FindIndex(ReplaceIndex(indexes, code, v), other) == FindIndex(indexes, other)
  {
    hide CheckValue, WithValue;
    if indexes == [] {
      assert [v][..0] == [];
      assert CheckValues([v]).Ok?;
    } else if indexes[0].code == code {
      assert indexes[0] in indexes;
      SimulatedSeriesIsValid(indexes[0].values, v);
    } else {
      ReplaceIndexIsValid(indexes[1..], code, v);
    }
  }

  /** Simulated values replace those of their period: they never make a series ambiguous. */
  lemma {:induction false} SimulatedIndexesStayValid(indexes: seq<PriceIndex>, changes: seq<IndexChange>)
    requires AllValid(indexes) && ApplyIndexes(indexes, changes).Ok?
    ensures AllValid(ApplyIndexes(indexes, changes).value)
    ensures forall code :: (forall c :: c in changes ==> c.indexCode != code) ==>
              FindIndex(ApplyIndexes(indexes, changes).value, code) == FindIndex(indexes, code)
  {
    hide CheckValue, ReplaceIndex, CheckValues;
    if changes != [] {
      var init, c := changes[..|changes| - 1], changes[|changes| - 1];
      assert changes == init + [c];
      SimulatedIndexesStayValid(indexes, init);
      ReplaceIndexIsValid(ApplyIndexes(indexes, init).value, c.indexCode, SimulatedValue(c));
    }
  }

  /** A simulated value is the one read for its period, whatever stood there before. */
  lemma SimulatedValueIsRead(indexes: seq<PriceIndex>, code: string, v: IndexValue, day: Day)
    requires AllValid(indexes) && CheckValue(v).Ok? && ValidDay(day) && Period(day) == v.period
    ensures Lookup(ReplaceIndex(indexes, code, v), code, day, EXACT_PERIOD) == Observe(v, code, day, EXACT_PERIOD)
    ensures v.publishedAt <= day ==>
              Lookup(ReplaceIndex(indexes, code, v), code, day, LATEST_PUBLISHED) == Observe(v, code, day, LATEST_PUBLISHED)
  {
    hide CheckValue, Best, Observe, CheckValues, Period;
    ReplaceIndexIsValid(indexes, code, v);
    var index := FindIndex(ReplaceIndex(indexes, code, v), code).value;
    FindIndexMember(ReplaceIndex(indexes, code, v), code);
    assert v in index.values;
    CheckedPeriodsDistinct(index.values);
    BestIsLatest(index.values, day, EXACT_PERIOD);
    BestIsLatest(index.values, day, LATEST_PUBLISHED);
    OnlyOfPeriod(index.values, v);
  }

  lemma {:induction false} FindIndexMember(indexes: seq<PriceIndex>, code: string)
    ensures FindIndex(indexes, code).Some? ==> FindIndex(indexes, code).value in indexes
  {
    if indexes != [] {
      FindIndexMember(indexes[1..], code);
    }
  }

  lemma OnlyOfPeriod(values: seq<IndexValue>, v: IndexValue)
    requires v in values && forall i, j :: 0 <= i < j < |values| ==> values[i].period != values[j].period
    ensures forall w :: w in values && w.period == v.period ==> w == v
  {
  }

  // ---------------------------------------------------------- simulated quantities

  lemma {:induction false} QuantityMapAppend(xs: seq<ResolvedQuantity>, ys: seq<ResolvedQuantity>)
    ensures QuantityMap(xs + ys) == QuantityMap(xs) + QuantityMap(ys)
  {
    if ys == [] {
      assert xs + ys == xs;
    } else {
      var zs := xs + ys;
      assert zs[..|zs| - 1] == xs + ys[..|ys| - 1];
      QuantityMapAppend(xs, ys[..|ys| - 1]);
    }
  }

  lemma MapWithout<V>(m: map<string, V>, k: string, v: V, ids: set<string>)
    ensures k in ids ==> m[k := v] - ids == m - ids
    ensures k !in ids ==> m[k := v] - ids == (m - ids)[k := v]
  {
  }

  lemma QuantityMapSnoc(quantities: seq<ResolvedQuantity>, q: ResolvedQuantity)
    ensures QuantityMap(quantities + [q]) == QuantityMap(quantities)[q.lineId := q]
  {
    assert (quantities + [q])[..|quantities|] == quantities;
  }

  lemma UnchangedSnoc(quantities: seq<ResolvedQuantity>, q: ResolvedQuantity, ids: set<string>)
    ensures FlatMap(quantities + [q], Unchanged(ids)) == FlatMap(quantities, Unchanged(ids)) + if q.lineId in ids then [] else [q]
  {
    assert (quantities + [q])[..|quantities|] == quantities;
  }

  lemma {:induction false} UnchangedQuantities(quantities: seq<ResolvedQuantity>, ids: set<string>)
    ensures QuantityMap(FlatMap(quantities, Unchanged(ids))) == QuantityMap(quantities) - ids
  {
    if quantities == [] {
      assert QuantityMap([]) - ids == QuantityMap([]);
    } else {
      hide *;
      var init, q := quantities[..|quantities| - 1], quantities[|quantities| - 1];
      assert quantities == init + [q];
      var kept := FlatMap(init, Unchanged(ids));
      UnchangedQuantities(init, ids);
      UnchangedSnoc(init, q, ids);
      QuantityMapSnoc(init, q);
      QuantityMapSnoc(kept, q);
      MapWithout(QuantityMap(init), q.lineId, q, ids);
      assert kept + [] == kept;
    }
  }

  function AsQuantity(c: LineChange): ResolvedQuantity { ResolvedQuantity(c.lineId, c.text, "simulation", None) }

  lemma QuantityMapCons(c: LineChange, rest: seq<LineChange>)
    ensures QuantityMap(Simulated([c] + rest)) == map[c.lineId := AsQuantity(c)] + QuantityMap(Simulated(rest))
  {
    assert Simulated([c] + rest) == [AsQuantity(c)] + Simulated(rest);
    assert [AsQuantity(c)][..0] == [];
    QuantityMapAppend([AsQuantity(c)], Simulated(rest));
  }

  ghost predicate DistinctEntries(entries: seq<LineChange>) {
    forall i, j :: 0 <= i < j < |entries| ==> entries[i].lineId != entries[j].lineId
  }

  lemma {:induction false} PutSets(entries: seq<LineChange>, c: LineChange)
    requires DistinctEntries(entries)
    ensures DistinctEntries(Put(entries, c))
    ensures forall e :: e in Put(entries, c) ==> e == c || e in entries
    ensures QuantityMap(Simulated(Put(entries, c))) == QuantityMap(Simulated(entries))[c.lineId := AsQuantity(c)]
  {
    if entries == [] {
      QuantityMapCons(c, []);
      assert [c] + [] == [c];
    } else {
      var first, rest := entries[0], entries[1..];
      assert entries == [first] + rest;
      assert DistinctEntries(rest) && forall e :: e in rest ==> e.lineId != first.lineId;
      QuantityMapCons(first, rest);
      if first.lineId == c.lineId {
        hide *;
        QuantityMapCons(c, rest);
        EntryKeys(rest);
        DistinctCons(c, rest);
        FirstReplaced(AsQuantity(first), AsQuantity(c), first.lineId, QuantityMap(Simulated(rest)));
      } else {
        PutSets(rest, c);
        hide *;
        QuantityMapCons(first, Put(rest, c));
        DistinctCons(first, Put(rest, c));
        LaterReplaced(AsQuantity(first), AsQuantity(c), first.lineId, c.lineId, QuantityMap(Simulated(rest)));
      }
    }
  }

  lemma FirstReplaced<V>(v: V, w: V, k: string, rest: map<string, V>)
    requires k !in rest
    ensures map[k := w] + rest == (map[k := v] + rest)[k := w]
  {
  }

  lemma LaterReplaced<V>(v: V, w: V, k: string, l: string, rest: map<string, V>)
    requires k != l
    ensures map[k := v] + rest[l := w] == (map[k := v] + rest)[l := w]
  {
  }

  lemma DistinctCons(first: LineChange, rest: seq<LineChange>)
    requires DistinctEntries(rest) && forall e :: e in rest ==> e.lineId != first.lineId
    ensures DistinctEntries([first] + rest)
  {
    assert forall j :: 0 < j <= |rest| ==> ([first] + rest)[j] == rest[j - 1] && rest[j - 1] in rest;
  }

  lemma {:induction false} EntryKeys(entries: seq<LineChange>)
    ensures forall id :: id in QuantityMap(Simulated(entries)) ==> exists e :: e in entries && e.lineId == id
  {
    if entries != [] {
      QuantityMapCons(entries[0], entries[1..]);
      EntryKeys(entries[1..]);
      assert entries == [entries[0]] + entries[1..];
    }
  }

  lemma {:induction false} EntriesSet(changes: seq<LineChange>)
    ensures DistinctEntries(Entries(changes))
    ensures QuantityMap(Simulated(Entries(changes))).Keys == ChangeMap(changes).Keys
    ensures forall id :: id in ChangeMap(changes) ==>
              QuantityMap(Simulated(Entries(changes)))[id] == AsQuantity(LineChange(id, ChangeMap(changes)[id]))
  {
    hide QuantityMap, Put;
    if changes == [] {
      assert Simulated([]) == [];
      NoQuantities();
    } else {
      EntriesSet(changes[..|changes| - 1]);
      PutSets(Entries(changes[..|changes| - 1]), changes[|changes| - 1]);
    }
  }

  lemma NoQuantities()
    ensures QuantityMap([]) == map[]
  {
  }

  /** The provided quantities once simulated: the simulated one where there is one, the former elsewhere. */
  lemma SimulatedQuantities(quantities: seq<ResolvedQuantity>, changes: seq<LineChange>, id: string)
    ensures var texts := ChangeMap(changes);
            var m := QuantityMap(FlatMap(quantities, Unchanged(texts.Keys)) + Simulated(Entries(changes)));
            if id in texts then id in m && m[id] == AsQuantity(LineChange(id, texts[id]))
            else (id in m <==> id in QuantityMap(quantities)) && (id in m ==> m[id] == QuantityMap(quantities)[id])
  {
    hide QuantityMap, ChangeMap;
    var texts := ChangeMap(changes);
    UnchangedQuantities(quantities, texts.Keys);
    EntriesSet(changes);
    QuantityMapAppend(FlatMap(quantities, Unchanged(texts.Keys)), Simulated(Entries(changes)));
  }

  lemma {:induction false} ReplacedMatching(schedules: seq<Schedule>, target: Schedule, lines: seq<Line>, date: Day)
    ensures FlatMap(ReplaceSchedule(schedules, target, lines), Matching(date))
         == ReplaceSchedule(FlatMap(schedules, Matching(date)), target, lines)
  {
    if schedules != [] {
      var init := schedules[..|schedules| - 1];
      ReplacedMatching(init, target, lines, date);
      assert ReplaceSchedule(schedules, target, lines)[..|schedules| - 1] == ReplaceSchedule(init, target, lines);
    }
  }

  lemma ReplacedIsSelected(schedules: seq<Schedule>, target: Schedule, lines: seq<Line>, date: Day)
    requires SelectSchedule(schedules, date) == Ok(target)
    ensures SelectSchedule(ReplaceSchedule(schedules, target, lines), date) == Ok(target.(lines := lines))
  {
    ReplacedMatching(schedules, target, lines, date);
    var replaced := ReplaceSchedule(schedules, target, lines);
    forall s | s in replaced
      ensures ValidVersion(s)
    {
      var i :| 0 <= i < |replaced| && replaced[i] == s;
      assert ValidVersion(schedules[i]);
    }
  }

  /**
   * A quantity simulated for a line prices exactly like a fixed quantity of that value, and no other
   * regular line moves, trace included.
   */
  lemma QuantityChangeIsFixed(input: PricingInput, date: Day, quantities: seq<LineChange>, i: nat)
    requires Simulate(input, date, Changes([], quantities, []), None).Ok?
    requires var lines := SelectSchedule(input.schedules, date).value.lines; i < |lines| && lines[i].kind != DISCOUNT
    ensures var r := Simulate(input, date, Changes([], quantities, []), None).value;
            var line := SelectSchedule(input.schedules, date).value.lines[i];
            var ctx := MakeCtx(input, date, ResolveSettings(input.settings).value);
            && i < |r.before.lines| == |r.after.lines|
            && (line.id !in ChangeMap(quantities) ==> r.after.lines[i] == r.before.lines[i])
            && (line.id in ChangeMap(quantities) ==>
                  var p := r.after.lines[i];
                  p.trace != [] && RegularLine(line.(quantity := Some(Fixed(ChangeMap(quantities)[line.id]))), ctx)
                                   == Ok(p.(trace := [Quantity("FIXED", p.quantity, None)] + p.trace[1..])))
  {
    hide RegularLine, PriceLines, TotalsOf, SelectSchedule, ResolveSettings;
    hide ChangeMap, QuantityMap, CheckChanges, OverrideMap, LineDeltas;
    var target := SelectSchedule(input.schedules, date).value;
    var texts := ChangeMap(quantities);
    assert ChangeMap([]) == map[] by { NoTexts(); }
    var lines := ChangedLines(target.lines, map[], texts);
    var changed := ApplyChanges(input, date, Changes([], quantities, [])).value;
    ReplacedIsSelected(input.schedules, target, lines, date);
    var s := ResolveSettings(input.settings).value;
    var c, d := MakeCtx(input, date, s), MakeCtx(changed, date, s);
    PricedLineByLine(target.lines, c, i);
    PricedLineByLine(lines, d, i);
    var line := target.lines[i];
    SimulatedQuantities(input.quantities, quantities, line.id);
    if line.id in texts {
      SimulatedLine(line, texts[line.id], c, d);
    } else {
      ContextsAgree(line, c, d);
      RegularLineIsLocal(line, c, d);
    }
  }

  lemma NoTexts()
    ensures ChangeMap([]) == map[]
  {
  }

  lemma ContextsAgree(line: Line, c: Ctx, d: Ctx)
    requires d == c.(quantities := d.quantities)
    requires line.quantity == Some(Provider) ==>
               (line.id in c.quantities <==> line.id in d.quantities) && (line.id in c.quantities ==> c.quantities[line.id] == d.quantities[line.id])
    ensures SameFor(line, c, d)
  {
    hide Covering, Lookup, Consulted;
  }

  lemma SimulatedLine(line: Line, text: string, c: Ctx, d: Ctx)
    requires d == c.(quantities := d.quantities)
    requires line.id in d.quantities && d.quantities[line.id] == AsQuantity(LineChange(line.id, text))
    requires RegularLine(line.(quantity := Some(Provider)), d).Ok?
    ensures var p := RegularLine(line.(quantity := Some(Provider)), d).value;
            && p.trace != []
            && RegularLine(line.(quantity := Some(Fixed(text))), c) == Ok(p.(trace := [Quantity("FIXED", p.quantity, None)] + p.trace[1..]))
  {
    var provided, fixed := line.(quantity := Some(Provider)), line.(quantity := Some(Fixed(text)));
    assert ParseDecimal(text, 6, false) == Ok(RegularLine(provided, d).value.quantity) by {
      hide ParseDecimal, WorkOut, Select, ToCents;
      QuantityIsQuantity(provided, d);
    }
    hide RegularLine, ParseDecimal;
    FixedAtOwnQuantity(provided, text, d);
    ContextsAgree(fixed, c, d);
    RegularLineIsLocal(fixed, c, d);
    assert provided.(quantity := Some(Fixed(text))) == fixed;
  }
}

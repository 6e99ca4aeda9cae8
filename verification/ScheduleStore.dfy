/**
 * The versions of one contract's schedule (apps/api/src/pricing/schedules.service.ts). A table is a
 * map from version number to row; a transaction that is rolled back leaves it as it was.
 */
module ScheduleStore {
  import opened Outcomes
  import opened Sums
  import opened Calendar
  import opened PricingTypes
  import opened Schedules
  import opened Totals
  import opened Engine

  datatype Status = DRAFT | ACTIVE | SUPERSEDED

  datatype Row = Row(id: string, status: Status, validFrom: Day, validTo: Option<Day>, lines: seq<Line>) {
    predicate Engaged() { status != DRAFT }

    predicate Covers(d: Day) { validFrom <= d && (validTo.None? || d <= validTo.value) }

    /** What the request schema lets in. */
    predicate WellDated() {
      ValidDay(validFrom) && (validTo.Some? ==> ValidDay(validTo.value) && validFrom <= validTo.value)
    }

    function ToEngine(): Schedule { Schedule(id, validFrom, validTo, lines) }
  }

  type Rows = map<nat, Row>

  datatype Outcome = Done | NotFound | NotDraft | EmptySchedule | Uncomputable(code: ErrorCode) | Overlap

  /** The dates and lines that a request brings. */
  datatype Edit = Edit(validFrom: Day, validTo: Option<Day>, lines: seq<Line>) {
    predicate WellDated() {
      ValidDay(validFrom) && (validTo.Some? ==> ValidDay(validTo.value) && validFrom <= validTo.value)
    }
  }

  // ------------------------------------------------------------ what each step does

  /** Highest version number, zero when there is none. */
  ghost predicate IsLast(rows: Rows, last: nat) {
    (forall v :: v in rows ==> v <= last) && (last == 0 || last in rows)
  }

  function Drafted(rows: Rows, last: nat, id: string, e: Edit): Rows {
    rows[last + 1 := Row(id, DRAFT, e.validFrom, e.validTo, e.lines)]
  }

  predicate IsDraft(rows: Rows, version: nat) { version in rows && rows[version].status == DRAFT }

  function DraftRefusal(rows: Rows, version: nat): Outcome {
    if version !in rows then NotFound else if rows[version].status != DRAFT then NotDraft else Done
  }

  function Edited(rows: Rows, version: nat, e: Edit): Rows
    requires version in rows
  {
    rows[version := rows[version].(validFrom := e.validFrom, validTo := e.validTo, lines := e.lines)]
  }

  const LAST_DAY: Day := 99991231

  predicate Overlaps(e: Row, from: Day, to: Option<Day>) {
    e.validFrom <= to.GetOr(LAST_DAY) && from <= e.validTo.GetOr(LAST_DAY)
  }

  /** An engaged version that starts on the first day or later, and overlaps, refuses the activation. */
  predicate Conflicts(e: Row, from: Day, to: Option<Day>) {
    e.Engaged() && Overlaps(e, from, to) && e.validFrom >= from
  }

  /** An earlier engaged version that overlaps is closed the day before. */
  function Close(e: Row, from: Day, to: Option<Day>): Row {
    if e.Engaged() && Overlaps(e, from, to) then e.(status := SUPERSEDED, validTo := Some(PreviousDay(from))) else e
  }

  function Closed(rows: Rows, from: Day, to: Option<Day>): Rows {
    map v | v in rows :: Close(rows[v], from, to)
  }

  predicate AnyConflict(rows: Rows, from: Day, to: Option<Day>) {
    exists v :: v in rows && Conflicts(rows[v], from, to)
  }

  function Activated(rows: Rows, version: nat): Rows
    requires version in rows
  {
    var d := rows[version];
    Closed(rows, d.validFrom, d.validTo)[version := d.(status := ACTIVE)]
  }

  /** Errors of the engine that make a version impossible to compute, as opposed to missing data. */
  predicate Structural(code: ErrorCode) {
    code in {INVALID_DECIMAL, INVALID_DATE, INVALID_LINE, INVALID_SETTINGS, RULE_NOT_FOUND, NEGATIVE_PRICE, DIVISION_BY_ZERO, FORMULA_ERROR,
             INVALID_REVISION_COEFFICIENTS, DISCOUNT_TARGET_MISMATCH, DISCOUNT_EXCEEDS_BASE, MISSING_CONTEXT}
  }

  function ProvidedByOne(lines: seq<Line>): seq<ResolvedQuantity> {
    FlatMap(lines, AsOne())
  }

  function AsOne(): Line -> seq<ResolvedQuantity> {
    (l: Line) => if l.quantity == Some(Provider) then [ResolvedQuantity(l.id, "1", "activation-check", None)] else []
  }

  /** The engine run on the version alone, on its first day, with one of every provided quantity. */
  function ComputeRefusal(draft: Row, env: PricingInput): Outcome {
    if draft.lines == [] then EmptySchedule
    else
      var input := env.(schedules := [draft.ToEngine()], overrides := [], quantities := ProvidedByOne(draft.lines));
      var r := PriceAt(input, draft.validFrom);
      if r.Err? && Structural(r.code) then Uncomputable(r.code) else Done
  }

  function ActivationOutcome(rows: Rows, version: nat, env: PricingInput): Outcome {
    if DraftRefusal(rows, version) != Done then DraftRefusal(rows, version)
    else
      var d := rows[version];
      if ComputeRefusal(d, env) != Done then ComputeRefusal(d, env)
      else if AnyConflict(rows, d.validFrom, d.validTo) then Overlap
      else Done
  }

  // -------------------------------------------------------------------- a step

  datatype Step = Create(id: string, edit: Edit, copyFrom: Option<nat>) | Update(version: nat, edit: Edit) | Delete(version: nat)
                | Activation(version: nat, env: PricingInput)

  /** What the request schema checks before a step runs. */
  predicate WellFormed(step: Step) {
    match step
    case Create(_, e, _) => e.WellDated()
    case Update(_, e) => e.WellDated()
    case _ => true
  }

  /** One step of the table, as the methods of the store specify it. */
  ghost predicate Steps(before: Rows, step: Step, after: Rows) {
    match step
    case Create(id, e, copyFrom) =>
      if copyFrom.Some? && copyFrom.value !in before then after == before
      else exists last :: IsLast(before, last)
             && after == Drafted(before, last, id, if copyFrom.None? then e else e.(lines := before[copyFrom.value].lines))
    case Update(version, e) => after == if IsDraft(before, version) then Edited(before, version, e) else before
    case Delete(version) => after == if IsDraft(before, version) then before - {version} else before
    case Activation(version, env) =>
      after == if ActivationOutcome(before, version, env) == Done then Activated(before, version) else before
  }

  // ------------------------------------------------------------------- the table

  class Store {
    var rows: Rows

    constructor ()
      ensures rows == map[]
    {
      rows := map[];
    }

    method CreateDraft(id: string, e: Edit, copyFrom: Option<nat>) returns (r: Outcome)
      modifies this
      ensures r == if copyFrom.Some? && copyFrom.value !in old(rows) then NotFound else Done
      ensures r != Done ==> rows == old(rows)
      ensures r == Done ==> exists last ::
                IsLast(old(rows), last)
                && rows == Drafted(old(rows), last, id, if copyFrom.None? then e else e.(lines := old(rows)[copyFrom.value].lines))
    {
      var lines := e.lines;
      if copyFrom.Some? {
        if copyFrom.value !in rows {
          return NotFound;
        }
        lines := rows[copyFrom.value].lines;
      }
      var last := LastVersion();
      rows := Drafted(rows, last, id, e.(lines := lines));
      r := Done;
    }

    method LastVersion() returns (last: nat)
      ensures IsLast(rows, last)
    {
      last := 0;
      var keys := rows.Keys;
      while keys != {}
        invariant keys <= rows.Keys
        invariant forall v :: v in rows && v !in keys ==> v <= last
        invariant last == 0 || last in rows
        decreases keys
      {
        var v :| v in keys;
        if v > last {
          last := v;
        }
        keys := keys - {v};
      }
    }

    method UpdateDraft(version: nat, e: Edit) returns (r: Outcome)
      modifies this
      ensures r == DraftRefusal(old(rows), version)
      ensures rows == if r == Done then Edited(old(rows), version, e) else old(rows)
    {
      r := DraftRefusal(rows, version);
      if r == Done {
        rows := Edited(rows, version, e);
      }
    }

    method DeleteDraft(version: nat) returns (r: Outcome)
      modifies this
      ensures r == DraftRefusal(old(rows), version)
      ensures rows == if r == Done then old(rows) - {version} else old(rows)
    {
      r := DraftRefusal(rows, version);
      if r == Done {
        rows := rows - {version};
      }
    }

    /** Versions are closed one after the other, by ascending number, up to the first conflict. */
    method CloseEarlier(from: Day, to: Option<Day>) returns (ok: bool)
      modifies this
      ensures ok <==> !AnyConflict(old(rows), from, to)
      ensures ok ==> rows == Closed(old(rows), from, to)
    {
      hide Overlaps, PreviousDay;
      var engaged := rows;
      var last := LastVersion();
      for v := 0 to last + 1
        invariant rows.Keys == engaged.Keys
        invariant forall w :: w in engaged ==> rows[w] == if w < v then Close(engaged[w], from, to) else engaged[w]
        invariant forall w :: w in engaged && w < v ==> !Conflicts(engaged[w], from, to)
      {
        if v in engaged && engaged[v].Engaged() && Overlaps(engaged[v], from, to) {
          if engaged[v].validFrom >= from {
            assert Conflicts(engaged[v], from, to);
            return false;
          }
          rows := rows[v := engaged[v].(status := SUPERSEDED, validTo := Some(PreviousDay(from)))];
        }
      }
      assert rows == Closed(engaged, from, to);
      ok := true;
    }

    /** One transaction: a conflict met on the way rolls back the versions already closed. */
    method Activate(version: nat, env: PricingInput) returns (r: Outcome)
      modifies this
      ensures r == ActivationOutcome(old(rows), version, env)
      ensures rows == if r == Done then Activated(old(rows), version) else old(rows)
    {
      hide ComputeRefusal, AnyConflict, Closed;
      r := DraftRefusal(rows, version);
      if r != Done {
        return;
      }
      var draft := rows[version];
      r := ComputeRefusal(draft, env);
      if r != Done {
        return;
      }
      var before := rows;
      var ok := CloseEarlier(draft.validFrom, draft.validTo);
      if !ok {
        rows := before;
        return Overlap;
      }
      rows := rows[version := draft.(status := ACTIVE)];
    }

    /** Whatever a caller asks for, the table takes the step specified for it. */
    method Perform(step: Step)
      modifies this
      ensures Steps(old(rows), step, rows)
    {
      hide ActivationOutcome, Activated, Drafted, Edited;
      match step {
        case Create(id, e, copyFrom) =>
          var r := CreateDraft(id, e, copyFrom);
        case Update(version, e) =>
          var r := UpdateDraft(version, e);
        case Delete(version) =>
          var r := DeleteDraft(version);
        case Activation(version, env) =>
          var r := Activate(version, env);
      }
    }
  }

  // ------------------------------------------------------------------- the invariant

  /** Engaged versions never share a day, and none is empty. */
  ghost predicate Sound(rows: Rows) {
    && (forall v :: v in rows ==> rows[v].WellDated())
    && forall v, w, d :: v in rows && w in rows && v != w && rows[v].Engaged() && rows[w].Engaged() && rows[v].Covers(d) ==> !rows[w].Covers(d)
  }

  lemma DatesAreBounded(d: Day)
    requires ValidDay(d)
    ensures 1000101 <= d <= LAST_DAY
  {
    DayParts(d);
  }

  lemma OverlapMeansSharedDay(e: Row, from: Day, to: Option<Day>)
    requires e.WellDated() && ValidDay(from) && (to.Some? ==> ValidDay(to.value) && from <= to.value)
    ensures Overlaps(e, from, to) <==> exists d :: e.Covers(d) && from <= d && (to.None? || d <= to.value)
    ensures Overlaps(e, from, to) && e.validFrom < from ==> e.Covers(from)
  {
    DatesAreBounded(from);
    DatesAreBounded(e.validFrom);
    if e.validTo.Some? {
      DatesAreBounded(e.validTo.value);
    }
    if to.Some? {
      DatesAreBounded(to.value);
    }
    hide ValidDay;
    if Overlaps(e, from, to) {
      var d := if e.validFrom <= from then from else e.validFrom;
      assert e.Covers(d);
    }
  }

  /** What closing leaves of an earlier version: the days before `from`, at least one. */
  lemma ClosedRow(e: Row, from: Day, to: Option<Day>)
    requires e.WellDated() && ValidDay(from) && (to.Some? ==> ValidDay(to.value) && from <= to.value)
    requires e.Engaged() && !Conflicts(e, from, to)
    ensures Close(e, from, to).WellDated() && Close(e, from, to).Engaged()
    ensures forall d :: ValidDay(d) ==> (Close(e, from, to).Covers(d) <==> e.Covers(d) && (d < from || !Overlaps(e, from, to)))
    ensures forall d :: Close(e, from, to).Covers(d) ==> e.Covers(d)
  {
    DatesAreBounded(e.validFrom);
    if Overlaps(e, from, to) {
      OverlapMeansSharedDay(e, from, to);
      PreviousDayIsAdjacent(from);
      hide ValidDay, PreviousDay;
      assert e.validFrom <= PreviousDay(from) < from;
    }
  }

  /** Activation keeps the invariant. */
  lemma ActivationKeepsSound(rows: Rows, version: nat)
    requires Sound(rows) && IsDraft(rows, version) && !AnyConflict(rows, rows[version].validFrom, rows[version].validTo)
    ensures Sound(Activated(rows, version))
  {
    hide Overlaps, Close, PreviousDay, ValidDay;
    var d := rows[version];
    var after := Activated(rows, version);
    forall v | v in rows
      ensures after[v].WellDated()
      ensures v != version ==> after[v].Engaged() == rows[v].Engaged()
      ensures v != version && rows[v].Engaged() ==> forall x :: after[v].Covers(x) ==> rows[v].Covers(x)
      ensures v != version && rows[v].Engaged() ==> forall x :: after[v].Covers(x) ==> !d.Covers(x)
    {
      if v != version && rows[v].Engaged() {
        assert !Conflicts(rows[v], d.validFrom, d.validTo);
        ClosedRow(rows[v], d.validFrom, d.validTo);
        OtherDays(rows[v], d.validFrom, d.validTo);
      } else if v != version {
        UntouchedDraft(rows[v], d.validFrom, d.validTo);
      }
    }
  }

  lemma UntouchedDraft(e: Row, from: Day, to: Option<Day>)
    requires !e.Engaged()
    ensures Close(e, from, to) == e
  {
  }

  lemma OtherDays(e: Row, from: Day, to: Option<Day>)
    requires e.WellDated() && ValidDay(from) && (to.Some? ==> ValidDay(to.value) && from <= to.value)
    requires e.Engaged() && !Conflicts(e, from, to)
    ensures forall x :: Close(e, from, to).Covers(x) ==> !(from <= x && (to.None? || x <= to.value))
  {
    OverlapMeansSharedDay(e, from, to);
    if Overlaps(e, from, to) {
      DatesAreBounded(e.validFrom);
      PreviousDayIsAdjacent(from);
    }
  }

  // ------------------------------------------------------ what activation changes, day by day

  /** The engaged version in force on a day. */
  ghost predicate InForceOn(rows: Rows, v: nat, d: Day) {
    v in rows && rows[v].Engaged() && rows[v].Covers(d)
  }

  /**
   * Day by day, a successful activation from `from`: before it, the version in force is the same as
   * ever, with the same lines; within its period, the new version alone; after its end, a version
   * stays in force exactly when it did not overlap the new period.
   */
  lemma ActivationDayByDay(rows: Rows, version: nat, d: Day)
    requires Sound(rows) && IsDraft(rows, version) && ValidDay(d)
    requires !AnyConflict(rows, rows[version].validFrom, rows[version].validTo)
    ensures var new_ := rows[version];
            var after := Activated(rows, version);
            && (forall v :: v in rows ==> v in after && after[v].lines == rows[v].lines && after[v].id == rows[v].id && after[v].validFrom == rows[v].validFrom)
            && (d < new_.validFrom ==> forall v :: InForceOn(after, v, d) <==> InForceOn(rows, v, d))
            && (new_.Covers(d) ==> forall v :: InForceOn(after, v, d) <==> v == version)
            && (new_.validTo.Some? && d > new_.validTo.value ==>
                  forall v :: InForceOn(after, v, d) <==> InForceOn(rows, v, d) && !Overlaps(rows[v], new_.validFrom, new_.validTo))
  {
    hide Overlaps, Close, PreviousDay, ValidDay;
    var new_ := rows[version];
    var after := Activated(rows, version);
    forall v | v in rows
      ensures after[v].lines == rows[v].lines && after[v].id == rows[v].id && after[v].validFrom == rows[v].validFrom
      ensures v != version ==> (InForceOn(after, v, d) <==> InForceOn(rows, v, d) && (d < new_.validFrom || !Overlaps(rows[v], new_.validFrom, new_.validTo)))
      ensures v != version && new_.Covers(d) ==> !InForceOn(after, v, d)
    {
      CloseKeepsLines(rows[v], new_.validFrom, new_.validTo);
      if v != version && rows[v].Engaged() {
        assert !Conflicts(rows[v], new_.validFrom, new_.validTo);
        ClosedRow(rows[v], new_.validFrom, new_.validTo);
        OtherDays(rows[v], new_.validFrom, new_.validTo);
      } else if v != version {
        UntouchedDraft(rows[v], new_.validFrom, new_.validTo);
      }
    }
  }

  lemma CloseKeepsLines(e: Row, from: Day, to: Option<Day>)
    ensures var c := Close(e, from, to); c.lines == e.lines && c.id == e.id && c.validFrom == e.validFrom
  {
  }

  /**
   * A day is left without any version by an activation exactly when it lies after the end of the new
   * version and was covered by a version that had to be closed: a bounded new version can leave a gap.
   */
  lemma DaysLostByActivation(rows: Rows, version: nat, d: Day)
    requires Sound(rows) && IsDraft(rows, version) && ValidDay(d)
    requires !AnyConflict(rows, rows[version].validFrom, rows[version].validTo)
    ensures var new_ := rows[version];
            (exists v :: InForceOn(rows, v, d)) && !(exists v :: InForceOn(Activated(rows, version), v, d))
            <==> new_.validTo.Some? && d > new_.validTo.value
                 && exists v :: InForceOn(rows, v, d) && Overlaps(rows[v], new_.validFrom, new_.validTo)
  {
    hide Overlaps, Close, PreviousDay, ValidDay, Activated;
    ActivationDayByDay(rows, version, d);
    var new_ := rows[version];
    var after := Activated(rows, version);
    if exists v :: InForceOn(rows, v, d) {
      var v :| InForceOn(rows, v, d);
      if d < new_.validFrom {
        assert InForceOn(after, v, d);
      } else if new_.Covers(d) {
        assert InForceOn(after, version, d);
      } else if !Overlaps(rows[v], new_.validFrom, new_.validTo) {
        assert InForceOn(after, v, d);
        OnlyOneInForce(rows, v, d);
      } else {
        OnlyOneInForce(rows, v, d);
      }
    }
  }

  lemma OnlyOneInForce(rows: Rows, v: nat, d: Day)
    requires Sound(rows) && InForceOn(rows, v, d)
    ensures forall w :: InForceOn(rows, w, d) ==> w == v
  {
  }

  // ------------------------------------------------------------------- every run

  ghost predicate IsRun(states: seq<Rows>, steps: seq<Step>) {
    && |states| == |steps| + 1 && states[0] == map[]
    && forall i :: 0 <= i < |steps| ==> WellFormed(steps[i]) && Steps(states[i], steps[i], states[i + 1])
  }

  /** Any sequence of requests, performed one after the other on a new table, is a run. */
  method Perform(steps: seq<Step>) returns (store: Store, states: seq<Rows>)
    requires forall s :: s in steps ==> WellFormed(s)
    ensures IsRun(states, steps) && store.rows == states[|steps|]
  {
    hide Steps, WellFormed;
    store := new Store();
    states := [store.rows];
    for i := 0 to |steps|
      invariant |states| == i + 1 && states[0] == map[] && store.rows == states[i]
      invariant forall k :: 0 <= k < i ==> Steps(states[k], steps[k], states[k + 1])
    {
      store.Perform(steps[i]);
      states := states + [store.rows];
    }
  }

  lemma StepKeepsSound(before: Rows, step: Step, after: Rows)
    requires Sound(before) && WellFormed(step) && Steps(before, step, after)
    ensures Sound(after)
  {
    hide ComputeRefusal, AnyConflict, Activated, ValidDay;
    match step
    case Create(_, _, _) =>
    case Update(_, _) =>
    case Delete(_) =>
    case Activation(version, env) =>
      if ActivationOutcome(before, version, env) == Done {
        ActivationKeepsSound(before, version);
      }
  }

  /** Over every run of drafts, edits, deletions and activations, engaged versions never share a day. */
  lemma {:induction false} RunsStaySound(states: seq<Rows>, steps: seq<Step>)
    requires IsRun(states, steps)
    ensures forall i :: 0 <= i < |states| ==> Sound(states[i])
  {
    hide Sound, Steps, WellFormed;
    if |steps| > 0 {
      var n := |steps| - 1;
      RunsStaySound(states[..n + 1], steps[..n]);
      assert states[n] == states[..n + 1][n];
      StepKeepsSound(states[n], steps[n], states[n + 1]);
      forall i | 0 <= i < |states|
        ensures Sound(states[i])
      {
        if i <= n {
          assert states[i] == states[..n + 1][i];
        }
      }
    } else {
      assert Sound(map[]) by { EmptyIsSound(); }
    }
  }

  lemma EmptyIsSound()
    ensures Sound(map[])
  {
  }

  // -------------------------------------------------------- what the engine is given

  /** The engaged versions, by ascending number, as the engine receives them. */
  function EngagedBelow(rows: Rows, n: nat): seq<Schedule> {
    if n == 0 then []
    else EngagedBelow(rows, n - 1) + if n - 1 in rows && rows[n - 1].Engaged() then [rows[n - 1].ToEngine()] else []
  }

  lemma {:induction false} EngagedMembers(rows: Rows, n: nat)
    ensures forall s :: s in EngagedBelow(rows, n) <==> exists v :: 0 <= v < n && v in rows && rows[v].Engaged() && s == rows[v].ToEngine()
  {
    if n > 0 {
      EngagedMembers(rows, n - 1);
    }
  }

  lemma {:induction false} EngagedAreDisjoint(rows: Rows, n: nat)
    requires Sound(rows)
    ensures Disjoint(EngagedBelow(rows, n))
  {
    if n > 0 {
      EngagedAreDisjoint(rows, n - 1);
      EngagedMembers(rows, n - 1);
      var before, after := EngagedBelow(rows, n - 1), EngagedBelow(rows, n);
      forall i, j, d | 0 <= i < j < |after| && InForce(after[i], d)
        ensures !InForce(after[j], d)
      {
        assert after[i] == before[i] && before[i] in before;
        if j == |before| {
          var v :| 0 <= v < n - 1 && v in rows && rows[v].Engaged() && before[i] == rows[v].ToEngine();
          assert rows[v].Covers(d);
        } else {
          assert after[j] == before[j];
        }
      }
    }
  }

  /**
   * On a table reached by any run, the engine never meets two versions on a day: it selects exactly
   * the engaged version in force, or finds none.
   */
  lemma SelectionNeverOverlaps(states: seq<Rows>, steps: seq<Step>, i: nat, n: nat, d: Day)
    requires IsRun(states, steps) && i < |states| && ValidDay(d)
    requires forall v :: v in states[i] ==> v < n
    ensures SelectSchedule(EngagedBelow(states[i], n), d) != Err(OVERLAPPING_SCHEDULES)
    ensures forall v :: InForceOn(states[i], v, d) ==> SelectSchedule(EngagedBelow(states[i], n), d) == Ok(states[i][v].ToEngine())
    ensures (forall v :: !InForceOn(states[i], v, d)) ==> SelectSchedule(EngagedBelow(states[i], n), d) == Err(NO_SCHEDULE)
  {
    hide IsRun, SelectSchedule, Sound, EngagedBelow;
    RunsStaySound(states, steps);
    SelectedInForce(states[i], n, d);
  }

  /** Activating a version leaves what the engine selects on every earlier day as it was. */
  lemma PastSelectionsStand(rows: Rows, version: nat, n: nat, d: Day)
    requires Sound(rows) && IsDraft(rows, version) && ValidDay(d) && d < rows[version].validFrom
    requires !AnyConflict(rows, rows[version].validFrom, rows[version].validTo) && forall v :: v in rows ==> v < n
    ensures var before, after := SelectSchedule(EngagedBelow(rows, n), d), SelectSchedule(EngagedBelow(Activated(rows, version), n), d);
            && (before.Ok? <==> after.Ok?)
            && (before.Ok? ==> after.value == before.value.(validTo := after.value.validTo))
  {
    hide SelectSchedule, Activated, AnyConflict;
    var after := Activated(rows, version);
    ActivationKeepsSound(rows, version);
    ActivationDayByDay(rows, version, d);
    assert after.Keys == rows.Keys by { ActivatedKeys(rows, version); }
    SelectedInForce(rows, n, d);
    SelectedInForce(after, n, d);
  }

  lemma ActivatedKeys(rows: Rows, version: nat)
    requires version in rows
    ensures Activated(rows, version).Keys == rows.Keys
  {
  }

  lemma SelectsOnValid(schedules: seq<Schedule>, d: Day)
    requires ValidDay(d) && forall s :: s in schedules ==> ValidVersion(s)
    ensures SelectSchedule(schedules, d) != Err(INVALID_DATE)
  {
  }

  lemma SelectedInForce(rows: Rows, n: nat, d: Day)
    requires Sound(rows) && ValidDay(d) && forall v :: v in rows ==> v < n
    ensures SelectSchedule(EngagedBelow(rows, n), d).Ok? <==> exists v :: InForceOn(rows, v, d)
    ensures forall v :: InForceOn(rows, v, d) ==> SelectSchedule(EngagedBelow(rows, n), d) == Ok(rows[v].ToEngine())
    ensures SelectSchedule(EngagedBelow(rows, n), d).Err? ==> SelectSchedule(EngagedBelow(rows, n), d).code == NO_SCHEDULE
  {
    assert SelectSchedule(EngagedBelow(rows, n), d).Err? ==> SelectSchedule(EngagedBelow(rows, n), d).code in {INVALID_DATE, NO_SCHEDULE, OVERLAPPING_SCHEDULES};
    hide SelectSchedule;
    EngagedAreDisjoint(rows, n);
    EngagedMembers(rows, n);
    var schedules := EngagedBelow(rows, n);
    forall s | s in schedules
      ensures ValidVersion(s)
    {
      var v :| 0 <= v < n && v in rows && rows[v].Engaged() && s == rows[v].ToEngine();
      assert rows[v].WellDated();
    }
    SelectsOnValid(schedules, d);
    SelectionOnDisjoint(schedules, d);
    forall v | InForceOn(rows, v, d)
      ensures SelectSchedule(schedules, d) == Ok(rows[v].ToEngine())
    {
      assert rows[v].ToEngine() in schedules && InForce(rows[v].ToEngine(), d);
    }
    if SelectSchedule(schedules, d).Ok? {
      var s := SelectSchedule(schedules, d).value;
      var v :| 0 <= v < n && v in rows && rows[v].Engaged() && s == rows[v].ToEngine();
      assert InForceOn(rows, v, d);
    }
  }

  /** Hence past prices stand: same version, same lines with their traces, same totals. */
  lemma PastPricesStand(rows: Rows, version: nat, n: nat, d: Day, env: PricingInput)
    requires Sound(rows) && IsDraft(rows, version) && ValidDay(d) && d < rows[version].validFrom
    requires !AnyConflict(rows, rows[version].validFrom, rows[version].validTo) && forall v :: v in rows ==> v < n
    ensures var before, after := PriceAt(env.(schedules := EngagedBelow(rows, n)), d), PriceAt(env.(schedules := EngagedBelow(Activated(rows, version), n)), d);
            && (before.Ok? <==> after.Ok?)
            && (before.Ok? ==> after.value == before.value.(scheduleValidTo := after.value.scheduleValidTo))
  {
    hide SelectSchedule, EngagedBelow, Sound, Activated, AnyConflict, PriceLines, TotalsOf, ResolveSettings;
    PastSelectionsStand(rows, version, n, d);
    SameVersionSamePrice(env, EngagedBelow(rows, n), EngagedBelow(Activated(rows, version), n), d);
  }

  lemma SameVersionSamePrice(env: PricingInput, a: seq<Schedule>, b: seq<Schedule>, d: Day)
    requires var s, t := SelectSchedule(a, d), SelectSchedule(b, d);
             (s.Ok? <==> t.Ok?) && (s.Ok? ==> t.value == s.value.(validTo := t.value.validTo))
    ensures var before, after := PriceAt(env.(schedules := a), d), PriceAt(env.(schedules := b), d);
            && (before.Ok? <==> after.Ok?)
            && (before.Ok? ==> after.value == before.value.(scheduleValidTo := after.value.scheduleValidTo))
  {
    hide SelectSchedule, PriceLines, TotalsOf, ResolveSettings;
    var s := ResolveSettings(env.settings);
    if s.Ok? {
      assert MakeCtx(env.(schedules := a), d, s.value) == MakeCtx(env.(schedules := b), d, s.value);
    }
  }
}

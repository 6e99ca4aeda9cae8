/** What the recalculation of deadlines keeps over every run with a clock that never goes back. */
module DeadlineRuns {
  import opened Outcomes
  import opened Sums
  import opened Deadlines
  import opened Alerts

  // --------------------------------------------------------------- invariants

  /** A pending reminder hangs under a deadline that is not obsolete. */
  ghost predicate Live(rs: seq<Reminder>, deadlines: map<Key, Status>) {
    forall i :: 0 <= i < |rs| ==> LiveReminder(rs[i], deadlines)
  }

  predicate LiveReminder(r: Reminder, deadlines: map<Key, Status>) {
    r.deadline.Some? && r.status == PENDING ==> r.deadline.value in deadlines && deadlines[r.deadline.value] != OBSOLETE
  }

  /** The uniqueness that the reminders table declares: one reminder per kind, offset and cycle. */
  ghost predicate OnePerSlot(rs: seq<Reminder>) {
    forall i, j :: 0 <= i < j < |rs| ==> !SameSlot(rs[i], rs[j])
  }

  /** Deadlines marked done are past. */
  ghost predicate DonePast(deadlines: map<Key, Status>, now: Instant) {
    forall k :: k in deadlines && deadlines[k] == DONE ==> k.due < DayOf(now)
  }

  ghost predicate Sound(t: Table, now: Instant) {
    DonePast(t.deadlines, now) && Live(t.reminders, t.deadlines) && OnePerSlot(t.reminders) && Ordered(t.reminders)
  }

  // ------------------------------------------------------------ the reminders

  lemma CancelKeepsLive(rs: seq<Reminder>, before: map<Key, Status>, q: Request)
    requires Live(rs, before)
    ensures Live(CancelAll(rs, VanishingKeys(before, q.wanted)), SettledDeadlines(before, q))
    ensures OnePerSlot(rs) ==> OnePerSlot(CancelAll(rs, VanishingKeys(before, q.wanted)))
  {
    var after := CancelAll(rs, VanishingKeys(before, q.wanted));
    forall i | 0 <= i < |after|
      ensures LiveReminder(after[i], SettledDeadlines(before, q))
    {
      assert LiveReminder(rs[i], before);
    }
    assert forall i :: 0 <= i < |rs| ==> SameSlot(after[i], rs[i]);
    if OnePerSlot(rs) {
      forall i, j | 0 <= i < j < |after|
        ensures !SameSlot(after[i], after[j])
      {
        assert !SameSlot(rs[i], rs[j]);
      }
    }
  }

  lemma WantedIsNotObsolete(before: map<Key, Status>, q: Request, k: Key)
    requires k in q.wanted
    ensures k in SettledDeadlines(before, q) && SettledDeadlines(before, q)[k] in {OPEN, DONE}
  {
  }

  /** A change that keeps slots, and touches status or deadline only to attach to `k`, is harmless. */
  lemma PointwiseKeeps(rs: seq<Reminder>, after: seq<Reminder>, deadlines: map<Key, Status>, k: Key)
    requires |after| == |rs| && k in deadlines && deadlines[k] != OBSOLETE
    requires forall i :: 0 <= i < |rs| ==> SameSlot(after[i], rs[i]) && (after[i] == rs[i] || after[i].deadline == Some(k))
    ensures Live(rs, deadlines) ==> Live(after, deadlines)
    ensures OnePerSlot(rs) ==> OnePerSlot(after)
  {
    if Live(rs, deadlines) {
      forall i | 0 <= i < |after|
        ensures LiveReminder(after[i], deadlines)
      {
        assert LiveReminder(rs[i], deadlines);
      }
    }
    if OnePerSlot(rs) {
      forall i, j | 0 <= i < j < |after|
        ensures !SameSlot(after[i], after[j])
      {
        assert !SameSlot(rs[i], rs[j]);
      }
    }
  }

  lemma {:induction false} AlertsKeep(
      rs: seq<Reminder>, missing: seq<int>, k: Key, cycle: nat, now: Instant, deadlines: map<Key, Status>)
    requires k in deadlines && deadlines[k] != OBSOLETE && Live(rs, deadlines) && OnePerSlot(rs)
    ensures Live(AddAlerts(rs, missing, k, cycle, now), deadlines) && OnePerSlot(AddAlerts(rs, missing, k, cycle, now))
  {
    if missing != [] {
      var init, offset := missing[..|missing| - 1], missing[|missing| - 1];
      AlertsKeep(rs, init, k, cycle, now, deadlines);
      var before := AddAlerts(rs, init, k, cycle, now);
      if !Taken(before, k.kind, offset, cycle) {
        var a := Alert(k, offset, cycle, now);
        forall i | 0 <= i < |before|
          ensures !SameSlot(before[i], a)
        {
          assert before[i] in before;
        }
      }
    }
  }

  lemma WantedKeeps(rs: seq<Reminder>, before: map<Key, Status>, k: Key, q: Request, deadlines: map<Key, Status>)
    requires k in deadlines && deadlines[k] != OBSOLETE && Live(rs, deadlines) && OnePerSlot(rs)
    ensures Live(ForWanted(rs, before, k, q), deadlines) && OnePerSlot(ForWanted(rs, before, k, q))
  {
    hide Live, OnePerSlot, AddAlerts, CycleFor, Missing;
    PointwiseKeeps(rs, Revive(rs, k, q.now), deadlines, k);
    var revived := if k in before && before[k] == OBSOLETE then Revive(rs, k, q.now) else rs;
    PointwiseKeeps(revived, Adopt(revived, k), deadlines, k);
    if !q.Past(k) {
      AlertsKeep(Adopt(revived, k), FlatMap(q.thresholds, Missing(revived, k)), k, CycleFor(revived, k, q.reminderCycle), q.now, deadlines);
    }
  }

  lemma {:induction false} AllWantedKeep(
      rs: seq<Reminder>, before: map<Key, Status>, wanted: seq<Key>, q: Request, deadlines: map<Key, Status>)
    requires forall k :: k in wanted ==> k in deadlines && deadlines[k] != OBSOLETE
    requires Live(rs, deadlines) && OnePerSlot(rs)
    ensures Live(ForAllWanted(rs, before, wanted, q), deadlines) && OnePerSlot(ForAllWanted(rs, before, wanted, q))
  {
    hide ForWanted, Live, OnePerSlot;
    if wanted != [] {
      var init, k := wanted[..|wanted| - 1], wanted[|wanted| - 1];
      assert k in wanted && forall j :: j in init ==> j in wanted;
      AllWantedKeep(rs, before, init, q, deadlines);
      WantedKeeps(ForAllWanted(rs, before, init, q), before, k, q, deadlines);
    }
  }

  // ----------------------------------------------------------- one recalculation

  /** Open deadlines are exactly the computed ones not yet past. */
  ghost predicate OpenIsWanted(deadlines: map<Key, Status>, q: Request) {
    forall k :: (k in deadlines && deadlines[k] == OPEN) <==> (k in q.wanted && !q.Past(k))
  }

  lemma DayIsMonotone(s: Instant, t: Instant)
    requires s <= t
    ensures DayOf(s) <= DayOf(t)
  {
  }

  /**
   * From a sound table, a recalculation at a later instant leaves open exactly the computed deadlines
   * not yet past, done only past ones, and no pending reminder under an obsolete one.
   */
  lemma RecalculationSettles(t: Table, q: Request, last: Instant)
    requires Sound(t, last) && last <= q.now && q.Valid()
    ensures Sound(Recomputed(t, q), q.now) && OpenIsWanted(Recomputed(t, q).deadlines, q)
  {
    hide Live, OnePerSlot, Ordered, ForAllWanted, CancelAll;
    DayIsMonotone(last, q.now);
    var deadlines := SettledDeadlines(t.deadlines, q);
    CancelKeepsLive(t.reminders, t.deadlines, q);
    forall k | k in q.wanted
      ensures k in deadlines && deadlines[k] != OBSOLETE
    {
      WantedIsNotObsolete(t.deadlines, q, k);
    }
    AllWantedKeep(CancelAll(t.reminders, VanishingKeys(t.deadlines, q.wanted)), t.deadlines, q.wanted, q, deadlines);
    RecalculationKeepsOrder(t, q);
  }

  lemma RecalculationKeepsOrder(t: Table, q: Request)
    requires Ordered(t.reminders)
    ensures Ordered(Recomputed(t, q).reminders)
  {
    hide Ordered, ForAllWanted, CancelAll, SameFor, KeepsSlots, SettledDeadlines;
    var anyKey := Key(PERIOD_END, 0);
    CancelIsSame(t.reminders, VanishingKeys(t.deadlines, q.wanted), anyKey);
    AllWantedAreLocal(CancelAll(t.reminders, VanishingKeys(t.deadlines, q.wanted)), t.deadlines, q.wanted, q, anyKey);
  }

  /**
   * Run again at once, a recalculation changes nothing at all: no deadline is created, revived or made
   * obsolete, and no reminder is added, adopted, cancelled or revived.
   */
  lemma SecondRunIsQuiet(t: Table, q: Request)
    requires Ordered(t.reminders)
    ensures var once := Recomputed(t, q);
            && Recomputed(once, q) == once
            && AppearingKeys(once.deadlines, q.wanted) == {} && VanishingKeys(once.deadlines, q.wanted) == {}
  {
    hide ForAllWanted, CancelAll, Ordered, Quiet, SameFor, KeepsSlots;
    var once := Recomputed(t, q);
    DeadlinesSettle(t.deadlines, q);
    var start := CancelAll(t.reminders, VanishingKeys(t.deadlines, q.wanted));
    CancelIsSame(t.reminders, VanishingKeys(t.deadlines, q.wanted), Key(PERIOD_END, 0));
    AllSettle(start, t.deadlines, q.wanted, q);
    CancelNone(once.reminders);
    NothingLeftToDo(once.reminders, once.deadlines, q.wanted, q);
  }

  lemma DeadlinesSettle(before: map<Key, Status>, q: Request)
    ensures var once := SettledDeadlines(before, q);
            && SettledDeadlines(once, q) == once
            && AppearingKeys(once, q.wanted) == {} && VanishingKeys(once, q.wanted) == {}
            && (forall k :: k in q.wanted ==> k in once && once[k] != OBSOLETE)
  {
    var once := SettledDeadlines(before, q);
    forall k | k in q.wanted
      ensures k in once && once[k] in {OPEN, DONE}
    {
      WantedIsNotObsolete(before, q, k);
    }
  }

  lemma CancelNone(rs: seq<Reminder>)
    ensures CancelAll(rs, {}) == rs
  {
  }

  lemma OneThreshold(rs: seq<Reminder>, k: Key, q: Request, offset: int)
    requires q.thresholds == [offset]
    ensures var cycle := CycleFor(rs, k, q.reminderCycle);
            Materialize(rs, k, q)
            == if Has(rs, k, offset) || Taken(Adopt(rs, k), k.kind, offset, cycle) then Adopt(rs, k)
               else Adopt(rs, k) + [Alert(k, offset, cycle, q.now)]
  {
    hide CycleFor, Taken, Has, Adopt;
    var cycle := CycleFor(rs, k, q.reminderCycle);
    FlatMapOne(offset, Missing(rs, k));
    assert FlatMap(q.thresholds, Missing(rs, k)) == if Has(rs, k, offset) then [] else [offset];
    AddOne(Adopt(rs, k), k, offset, cycle, q.now);
  }

  lemma AddOne(rs: seq<Reminder>, k: Key, offset: int, cycle: nat, now: Instant)
    ensures AddAlerts(rs, [], k, cycle, now) == rs
    ensures AddAlerts(rs, [offset], k, cycle, now)
            == if Taken(rs, k.kind, offset, cycle) then rs else rs + [Alert(k, offset, cycle, now)]
  {
    assert [offset][..|[offset]| - 1] == [];
  }

  lemma SlotsHere()
    ensures Taken(ADOPTED, PERIOD_END, 30, 2) && !Taken(ADOPTED, PERIOD_END, 30, 1)
    ensures Has(ADOPTED, SECOND, 30) && !Has(ADOPTED, FIRST, 30)
  {
    assert ADOPTED[2] in ADOPTED;
  }

  const FIRST := Key(PERIOD_END, 100)
  const SECOND := Key(PERIOD_END, 200)
  const UNATTACHED := Reminder(PERIOD_END, 90, 1, 10 * DAY_MS, SENT, None)
  const HELD := [Reminder(PERIOD_END, 60, 2, 40 * DAY_MS, SENT, Some(FIRST)), Reminder(PERIOD_END, 30, 2, 170 * DAY_MS, SENT, Some(SECOND))]
  const UNORDERED := Table(map[FIRST := OPEN, SECOND := OPEN], [UNATTACHED] + HELD)
  const ONE_THRESHOLD := Request([FIRST, SECOND], [30], 0, 1)
  const ADOPTED := [UNATTACHED.(deadline := Some(FIRST))] + HELD

  lemma {:induction false} CyclesHere(rs: seq<Reminder>)
    requires rs == UNORDERED.reminders || rs == ADOPTED
    ensures rs == ADOPTED ==> CycleFor(rs, FIRST, 1) == 1
    ensures rs == UNORDERED.reminders ==> CycleFor(rs, FIRST, 1) == 2
    ensures MineCycle(rs, FIRST) == Some(CycleFor(rs, FIRST, 1))
  {
    MineCycleIsFirst(rs, FIRST);
    assert UNORDERED.reminders[0] != ADOPTED[0];
    assert rs[..3] == rs && rs[..3][..2] == rs[..2] && rs[..2][..1] == rs[..1] && rs[..1][..0] == [];
    assert FirstCycle(rs[..1], FIRST, true) == if rs == ADOPTED then Some(1) else None;
    assert FirstCycle(rs[..2], FIRST, true) == if rs == ADOPTED then Some(1) else Some(2);
    CycleIsMine(rs, FIRST, 1);
  }

  /**
   * The order of the table matters: here a reminder still to be adopted comes before one already attached,
   * the first deadline changes cycle once it is adopted, and a second run at once adds a reminder that the
   * first run had left out.
   */
  lemma OrderMatters()
    ensures ONE_THRESHOLD.Valid() && !Ordered(UNORDERED.reminders)
    ensures OnePerSlot(UNORDERED.reminders) && Live(UNORDERED.reminders, UNORDERED.deadlines)
    ensures var once := Recomputed(UNORDERED, ONE_THRESHOLD);
            && !Owns(once.reminders, FIRST, 30)
            && Owns(Recomputed(once, ONE_THRESHOLD).reminders, FIRST, 30)
  {
    hide Recomputed, CycleFor, Taken, Has, Owns, MineCycle;
    assert Overtakes(UNORDERED.reminders[0], UNORDERED.reminders[1]);
    FirstRunHere();
    SecondRunHere(Recomputed(UNORDERED, ONE_THRESHOLD));
    FirstOwnsNone();
  }

  lemma FirstOwnsNone()
    ensures !Owns(ADOPTED, FIRST, 30)
  {
  }

  lemma SecondRunHere(once: Table)
    requires once.reminders == ADOPTED && VanishingKeys(once.deadlines, ONE_THRESHOLD.wanted) == {}
    ensures Owns(Recomputed(once, ONE_THRESHOLD).reminders, FIRST, 30)
  {
    hide CycleFor, Taken, Has, Owns, MineCycle, ForAllWanted, SettledDeadlines;
    CancelNone(ADOPTED);
    CyclesHere(ADOPTED);
    SlotsHere();
    OwnedExactly(ADOPTED, once.deadlines, ONE_THRESHOLD, 0, 30);
  }

  lemma TwoWanted(rs: seq<Reminder>, before: map<Key, Status>, q: Request, j: Key, k: Key)
    requires j in before && before[j] == OPEN && !q.Past(j) && k in before && before[k] == OPEN && !q.Past(k)
    ensures ForAllWanted(rs, before, [j, k], q) == Materialize(Materialize(rs, j, q), k, q)
  {
    hide Materialize;
    assert [j, k][..1] == [j] && [j][..0] == [];
    assert ForAllWanted(rs, before, [j], q) == ForWanted(rs, before, j, q);
  }

  lemma FirstRunHere()
    ensures Recomputed(UNORDERED, ONE_THRESHOLD).reminders == ADOPTED
    ensures VanishingKeys(Recomputed(UNORDERED, ONE_THRESHOLD).deadlines, ONE_THRESHOLD.wanted) == {}
  {
    hide CycleFor, Taken, Has, Materialize, ForAllWanted, SettledDeadlines;
    DeadlinesSettle(UNORDERED.deadlines, ONE_THRESHOLD);
    assert VanishingKeys(UNORDERED.deadlines, ONE_THRESHOLD.wanted) == {};
    CancelNone(UNORDERED.reminders);
    TwoWanted(UNORDERED.reminders, UNORDERED.deadlines, ONE_THRESHOLD, FIRST, SECOND);
    MaterializedHere();
  }

  lemma MaterializedHere()
    ensures Materialize(UNORDERED.reminders, FIRST, ONE_THRESHOLD) == ADOPTED
    ensures Materialize(ADOPTED, SECOND, ONE_THRESHOLD) == ADOPTED
  {
    hide CycleFor, Taken, Has, Materialize, Adopt;
    CyclesHere(UNORDERED.reminders);
    SlotsHere();
    OneThreshold(UNORDERED.reminders, FIRST, ONE_THRESHOLD, 30);
    OneThreshold(ADOPTED, SECOND, ONE_THRESHOLD, 30);
    AdoptedHere();
  }

  lemma AdoptedHere()
    ensures Adopt(UNORDERED.reminders, FIRST) == ADOPTED && Adopt(ADOPTED, SECOND) == ADOPTED
  {
    assert DayOf(UNATTACHED.dueAt) == 10 && Orphan(UNATTACHED, FIRST);
    assert UNORDERED.reminders[0] == UNATTACHED;
    assert forall i :: 0 <= i < 3 ==> ADOPTED[i].deadline.Some? && !Orphan(ADOPTED[i], SECOND);
    assert forall i :: 1 <= i < 3 ==> UNORDERED.reminders[i] == ADOPTED[i] && !Orphan(ADOPTED[i], FIRST);
    assert forall i :: 0 <= i < 3 ==> Adopt(UNORDERED.reminders, FIRST)[i] == ADOPTED[i];
    assert forall i :: 0 <= i < 3 ==> Adopt(ADOPTED, SECOND)[i] == ADOPTED[i];
  }

  /**
   * A computed deadline to come ends with a reminder of its own for a threshold exactly when the slot of its
   * cycle is not another's, which the table tells before the run.
   */
  lemma AlertsAreComplete(t: Table, q: Request, i: nat, offset: int)
    requires q.Valid() && i < |q.wanted| && !q.Past(q.wanted[i]) && offset in q.thresholds
    ensures Owns(Recomputed(t, q).reminders, q.wanted[i], offset) <==> !SlotLost(t.reminders, q, i, offset)
  {
    hide ForAllWanted, CancelAll, SameFor, KeepsSlots, SettledDeadlines, MineCycle, Has, Owns, Taken;
    var start := CancelAll(t.reminders, VanishingKeys(t.deadlines, q.wanted));
    OwnedExactly(start, t.deadlines, q, i, offset);
    CancelLosesNothing(t.reminders, VanishingKeys(t.deadlines, q.wanted), q, i, offset);
  }

  lemma CancelLosesNothing(rs: seq<Reminder>, keys: set<Key>, q: Request, i: nat, offset: int)
    requires i < |q.wanted|
    ensures SlotLost(CancelAll(rs, keys), q, i, offset) <==> SlotLost(rs, q, i, offset)
  {
    hide CancelAll, SameFor, KeepsSlots, MineCycle, Has, Taken;
    var after := CancelAll(rs, keys);
    forall j | 0 <= j <= i
      ensures MineCycle(after, q.wanted[j]) == MineCycle(rs, q.wanted[j])
      ensures Has(after, q.wanted[j], offset) <==> Has(rs, q.wanted[j], offset)
    {
      CancelIsSame(rs, keys, q.wanted[j]);
      SameCycle(rs, after, q.wanted[j]);
      SameHas(rs, after, q.wanted[j], offset);
    }
    var cycle := MineCycle(rs, q.wanted[i]);
    if cycle.Some? {
      CancelIsSame(rs, keys, q.wanted[i]);
      SameSlotsSameTaken(rs, after, q.wanted[i].kind, offset, cycle.value);
      assert forall j :: 0 <= j < i ==>
        (TakesFirst(after, q, j, q.wanted[i].kind, offset, cycle.value) <==> TakesFirst(rs, q, j, q.wanted[i].kind, offset, cycle.value));
    }
  }

  // ------------------------------------------------------------------- every run

  /** What other services do to reminders meanwhile: send or cancel them, or make some unattached. */
  ghost predicate Meanwhile(t: Table, after: Table) {
    && after.deadlines == t.deadlines && |after.reminders| >= |t.reminders| && OnePerSlot(after.reminders)
    && (forall i :: 0 <= i < |t.reminders| ==>
          after.reminders[i] == t.reminders[i]
          || (after.reminders[i] == t.reminders[i].(status := after.reminders[i].status) && after.reminders[i].status != PENDING))
    && (forall i :: |t.reminders| <= i < |after.reminders| ==> after.reminders[i].deadline.None?)
  }

  datatype Step = Recalculate(q: Request) | Elsewhere

  ghost predicate Follows(t: Table, step: Step, after: Table) {
    match step
    case Recalculate(q) => q.Valid() && after == Recomputed(t, q)
    case Elsewhere => Meanwhile(t, after)
  }

  /** The instant of the last recalculation among the first `n` steps. */
  function Clock(steps: seq<Step>, start: Instant): Instant {
    if steps == [] then start
    else
      var last := steps[|steps| - 1];
      if last.Recalculate? then last.q.now else Clock(steps[..|steps| - 1], start)
  }

  ghost predicate IsRun(tables: seq<Table>, steps: seq<Step>, start: Instant) {
    && |tables| == |steps| + 1 && tables[0] == Table(map[], [])
    && (forall i :: 0 <= i < |steps| ==> Follows(tables[i], steps[i], tables[i + 1]))
    && (forall i :: 0 <= i < |steps| && steps[i].Recalculate? ==> Clock(steps[..i], start) <= steps[i].q.now)
  }

  lemma MeanwhileKeepsSound(t: Table, after: Table, now: Instant)
    requires Sound(t, now) && Meanwhile(t, after)
    ensures Sound(after, now)
  {
    forall i | 0 <= i < |after.reminders|
      ensures LiveReminder(after.reminders[i], after.deadlines)
    {
      assert i < |t.reminders| ==> LiveReminder(t.reminders[i], t.deadlines);
    }
    MeanwhileKeepsOrder(t, after);
  }

  lemma MeanwhileKeepsOrder(t: Table, after: Table)
    requires Ordered(t.reminders) && Meanwhile(t, after)
    ensures Ordered(after.reminders)
  {
    forall i, j | 0 <= i < j < |after.reminders|
      ensures !Overtakes(after.reminders[i], after.reminders[j])
    {
      if j < |t.reminders| {
        assert !Overtakes(t.reminders[i], t.reminders[j]);
      }
    }
  }

  lemma {:induction false} SoundAt(tables: seq<Table>, steps: seq<Step>, start: Instant, n: nat)
    requires IsRun(tables, steps, start) && n <= |steps|
    ensures Sound(tables[n], Clock(steps[..n], start))
  {
    if n == 0 {
      EmptyIsSound(start);
      assert steps[..0] == [];
    } else {
      SoundAt(tables, steps, start, n - 1);
      assert steps[..n][..n - 1] == steps[..n - 1];
      hide Sound, Recomputed, Meanwhile;
      assert Follows(tables[n - 1], steps[n - 1], tables[n]);
      match steps[n - 1] {
        case Recalculate(q) => RecalculationSettles(tables[n - 1], q, Clock(steps[..n - 1], start));
        case Elsewhere => MeanwhileKeepsSound(tables[n - 1], tables[n], Clock(steps[..n - 1], start));
      }
    }
  }

  lemma SettledAt(tables: seq<Table>, steps: seq<Step>, start: Instant, n: nat)
    requires IsRun(tables, steps, start) && n < |steps| && steps[n].Recalculate?
    ensures OpenIsWanted(tables[n + 1].deadlines, steps[n].q) && Recomputed(tables[n + 1], steps[n].q) == tables[n + 1]
  {
    hide Sound, Recomputed, OpenIsWanted;
    SoundAt(tables, steps, start, n);
    assert Follows(tables[n], steps[n], tables[n + 1]);
    var q := steps[n].q;
    RecalculationSettles(tables[n], q, Clock(steps[..n], start));
    SoundIsOrdered(tables[n], Clock(steps[..n], start));
    SecondRunIsQuiet(tables[n], q);
  }

  /**
   * Over every run whose clock never goes back: after each recalculation the open deadlines are the
   * computed ones still to come, done ones are past, no pending reminder hangs under an obsolete
   * deadline, then or later, and running the same recalculation again would change nothing.
   */
  lemma RunsStaySound(tables: seq<Table>, steps: seq<Step>, start: Instant)
    requires IsRun(tables, steps, start)
    ensures forall i :: 0 <= i <= |steps| ==> Sound(tables[i], Clock(steps[..i], start))
    ensures forall i :: 0 <= i < |steps| && steps[i].Recalculate? ==>
              OpenIsWanted(tables[i + 1].deadlines, steps[i].q) && Recomputed(tables[i + 1], steps[i].q) == tables[i + 1]
  {
    hide Sound, Recomputed, OpenIsWanted, Clock, Follows;
    forall i | 0 <= i <= |steps|
      ensures Sound(tables[i], Clock(steps[..i], start))
    {
      SoundAt(tables, steps, start, i);
    }
    forall i | 0 <= i < |steps| && steps[i].Recalculate?
      ensures OpenIsWanted(tables[i + 1].deadlines, steps[i].q) && Recomputed(tables[i + 1], steps[i].q) == tables[i + 1]
    {
      SettledAt(tables, steps, start, i);
    }
  }

  lemma SoundIsOrdered(t: Table, now: Instant)
    requires Sound(t, now)
    ensures Ordered(t.reminders)
  {
  }

  lemma EmptyIsSound(now: Instant)
    ensures Sound(Table(map[], []), now)
  {
  }

  // ---------------------------------------------------------------- complete alerts

  /** Nobody makes unattached reminders: other services only send or cancel. */
  ghost predicate OnlySends(tables: seq<Table>, steps: seq<Step>)
    requires |tables| == |steps| + 1
  {
    forall i :: 0 <= i < |steps| && steps[i].Elsewhere? ==> |tables[i + 1].reminders| == |tables[i].reminders|
  }

  lemma RecalculationKeepsOwners(t: Table, q: Request)
    requires OneOwner(t.reminders)
    ensures OneOwner(Recomputed(t, q).reminders)
  {
    hide OneOwner, ForAllWanted;
    var start := CancelAll(t.reminders, VanishingKeys(t.deadlines, q.wanted));
    SameOwners(t.reminders, start);
    AllWantedKeepOwners(start, t.deadlines, q.wanted, q);
  }

  lemma {:induction false} RunsKeepOwners(tables: seq<Table>, steps: seq<Step>, start: Instant, n: nat)
    requires IsRun(tables, steps, start) && OnlySends(tables, steps) && n <= |steps|
    ensures OneOwner(tables[n].reminders)
  {
    if n > 0 {
      RunsKeepOwners(tables, steps, start, n - 1);
      hide OneOwner, Recomputed, Clock;
      assert Follows(tables[n - 1], steps[n - 1], tables[n]);
      match steps[n - 1] {
        case Recalculate(q) => RecalculationKeepsOwners(tables[n - 1], q);
        case Elsewhere => SameOwners(tables[n - 1].reminders, tables[n].reminders);
      }
    }
  }

  /**
   * Over every run in which nobody makes unattached reminders, each recalculation leaves every computed
   * deadline still to come with a reminder of its own for every threshold.
   */
  lemma RunsAlertCompletely(tables: seq<Table>, steps: seq<Step>, start: Instant, n: nat, i: nat, offset: int)
    requires IsRun(tables, steps, start) && OnlySends(tables, steps) && n < |steps| && steps[n].Recalculate?
    requires var q := steps[n].q; i < |q.wanted| && !q.Past(q.wanted[i]) && offset in q.thresholds
    ensures Owns(tables[n + 1].reminders, steps[n].q.wanted[i], offset)
  {
    hide OneOwner, Recomputed, SlotLost, Owns, Clock;
    assert Follows(tables[n], steps[n], tables[n + 1]);
    RunsKeepOwners(tables, steps, start, n);
    OneOwnerLosesNothing(tables[n].reminders, steps[n].q, i, offset);
    AlertsAreComplete(tables[n], steps[n].q, i, offset);
  }

  const BEFOREHAND := [HELD[0].(deadline := None), HELD[1].(deadline := None)]

  /**
   * With unattached reminders a run can leave a deadline without a reminder for a threshold: here two
   * deadlines adopt reminders of one cycle, and the slot that the first needs is the second's.
   */
  lemma AlertCanBeMissing()
    ensures var made := Table(map[], BEFOREHAND);
            var after := Recomputed(made, ONE_THRESHOLD);
            && IsRun([Table(map[], []), made, after], [Elsewhere, Recalculate(ONE_THRESHOLD)], 0)
            && !ONE_THRESHOLD.Past(FIRST) && !Owns(after.reminders, FIRST, 30)
  {
    hide Recomputed, Owns;
    var made := Table(map[], BEFOREHAND);
    var tables, steps := [Table(map[], []), made, Recomputed(made, ONE_THRESHOLD)], [Elsewhere, Recalculate(ONE_THRESHOLD)];
    assert Meanwhile(tables[0], made);
    forall i | 0 <= i < |steps|
      ensures Follows(tables[i], steps[i], tables[i + 1])
    {
    }
    assert steps[..1] == [Elsewhere] && [Elsewhere][..0] == [];
    assert Clock([Elsewhere], 0) == Clock([], 0) == 0;
    SlotLostHere();
    AlertsAreComplete(made, ONE_THRESHOLD, 0, 30);
  }

  lemma SlotLostHere()
    ensures SlotLost(BEFOREHAND, ONE_THRESHOLD, 0, 30)
  {
    var rs := BEFOREHAND;
    MineCycleIsFirst(rs, FIRST);
    assert rs[..2] == rs && rs[..2][..1] == rs[..1] && rs[..1][..0] == [];
    assert FirstCycle(rs[..1], FIRST, false) == Some(2) && FirstCycle(rs[..1], FIRST, true) == None;
    assert rs[1] in rs;
  }
}

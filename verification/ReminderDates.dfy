/**
 * What a recalculation does to each reminder (apps/api/src/deadlines/deadlines.service.ts): the dates and the
 * statuses of those it makes, and exactly what becomes of those it finds.
 */
module ReminderDates {
  import opened Outcomes
  import opened Sums
  import opened Deadlines
  import opened Alerts
  import opened DeadlineRuns

  // --------------------------------------------------------------- reminders made

  /** A reminder so many days before a deadline to come, pending when its instant is still to come. */
  ghost predicate MadeFor(r: Reminder, q: Request, k: Key) {
    && k in q.wanted && q.now / 86_400_000 <= k.due
    && r.kind == k.kind && r.deadline == Some(k) && r.offsetDays in q.thresholds
    && r.dueAt == (k.due - r.offsetDays) * 86_400_000
    && r.status == (if r.dueAt > q.now then PENDING else SKIPPED_OBSOLETE)
  }

  ghost predicate Made(r: Reminder, q: Request) {
    exists k :: MadeFor(r, q, k)
  }

  lemma MaterializeMakes(rs: seq<Reminder>, k: Key, q: Request)
    requires k in q.wanted && !q.Past(k)
    ensures |rs| <= |Materialize(rs, k, q)|
    ensures forall i :: |rs| <= i < |Materialize(rs, k, q)| ==> Made(Materialize(rs, k, q)[i], q)
    ensures Materialize(rs, k, q)[..|rs|] == Adopt(rs, k)
  {
    hide CycleFor, Missing, Has;
    var adopted, missing, cycle := Adopt(rs, k), FlatMap(q.thresholds, Missing(rs, k)), CycleFor(rs, k, q.reminderCycle);
    var after := Materialize(rs, k, q);
    AlertsAppend(adopted, missing, k, cycle, q.now);
    forall i | |rs| <= i < |after|
      ensures Made(after[i], q)
    {
      assert AddedFor(adopted, after[i], missing, k, cycle, q.now);
      MissingAre(rs, q.thresholds, k, after[i].offsetDays);
      assert MadeFor(after[i], q, k);
    }
    assert after[..|rs|] == adopted;
  }

  // -------------------------------------------------------------- reminders found

  /** The deadline that an unattached reminder was made for. */
  function Origin(r: Reminder): Key { Key(r.kind, r.dueAt / 86_400_000 + r.offsetDays) }

  /** What becomes of a reminder once the deadlines of `done` have been dealt with. */
  function Became(r: Reminder, before: map<Key, Status>, q: Request, done: seq<Key>): Reminder {
    var status :=
      if r.deadline.None? || r.deadline.value !in before then r.status
      else
        var k := r.deadline.value;
        if r.status == PENDING && before[k] == OPEN && k !in q.wanted then CANCELLED
        else if r.status == CANCELLED && before[k] == OBSOLETE && k in done && r.dueAt > q.now then PENDING
        else r.status;
    var deadline :=
      if r.deadline.None? && Origin(r) in done && q.now / 86_400_000 <= Origin(r).due then Some(Origin(r)) else r.deadline;
    r.(status := status, deadline := deadline)
  }

  ghost predicate AllBecame(rs: seq<Reminder>, after: seq<Reminder>, before: map<Key, Status>, q: Request, done: seq<Key>) {
    && |rs| <= |after|
    && (forall i :: 0 <= i < |rs| ==> after[i] == Became(rs[i], before, q, done))
    && (forall i :: |rs| <= i < |after| ==> Made(after[i], q))
  }

  lemma CancelledBecame(rs: seq<Reminder>, before: map<Key, Status>, q: Request)
    ensures AllBecame(rs, CancelAll(rs, VanishingKeys(before, q.wanted)), before, q, [])
  {
  }

  /** One reminder at the turn of one deadline. */
  function AtTurn(r: Reminder, before: map<Key, Status>, k: Key, q: Request): Reminder {
    var revived :=
      if k in before && before[k] == OBSOLETE && r.deadline == Some(k) && r.status == CANCELLED && r.dueAt > q.now
      then r.(status := PENDING) else r;
    if !q.Past(k) && Orphan(revived, k) then revived.(deadline := Some(k)) else revived
  }

  lemma TurnContinues(r: Reminder, before: map<Key, Status>, q: Request, done: seq<Key>, k: Key)
    requires k !in done && k in q.wanted
    ensures AtTurn(Became(r, before, q, done), before, k, q) == Became(r, before, q, done + [k])
  {
    assert forall j :: j in done + [k] <==> j in done || j == k;
    assert Orphan(r, k) <==> r.deadline.None? && Origin(r) == k;
  }

  lemma MadeStays(r: Reminder, before: map<Key, Status>, q: Request, k: Key)
    requires Made(r, q) && k in q.wanted
    ensures AtTurn(r, before, k, q) == r
  {
  }

  lemma WantedAtTurn(rs: seq<Reminder>, before: map<Key, Status>, k: Key, q: Request)
    requires k in q.wanted
    ensures var after := ForWanted(rs, before, k, q);
            && |rs| <= |after|
            && (forall i :: 0 <= i < |rs| ==> after[i] == AtTurn(rs[i], before, k, q))
            && (forall i :: |rs| <= i < |after| ==> Made(after[i], q))
  {
    hide Materialize;
    var revived := if k in before && before[k] == OBSOLETE then Revive(rs, k, q.now) else rs;
    assert |revived| == |rs|;
    if !q.Past(k) {
      MaterializeMakes(revived, k, q);
      var after := Materialize(revived, k, q);
      forall i | 0 <= i < |rs|
        ensures after[i] == AtTurn(rs[i], before, k, q)
      {
        assert after[i] == after[..|rs|][i] == Adopt(revived, k)[i];
      }
    }
  }

  lemma {:induction false} AllBecomes(rs: seq<Reminder>, start: seq<Reminder>, before: map<Key, Status>, q: Request, n: nat)
    requires q.Valid() && n <= |q.wanted| && start == CancelAll(rs, VanishingKeys(before, q.wanted))
    ensures AllBecame(rs, ForAllWanted(start, before, q.wanted[..n], q), before, q, q.wanted[..n])
  {
    hide ForWanted, Became, AtTurn, Made;
    if n == 0 {
      CancelledBecame(rs, before, q);
    } else {
      var done, k := q.wanted[..n - 1], q.wanted[n - 1];
      assert q.wanted[..n][..n - 1] == done && q.wanted[..n] == done + [k];
      assert k !in done && k in q.wanted;
      AllBecomes(rs, start, before, q, n - 1);
      var mid := ForAllWanted(start, before, done, q);
      WantedAtTurn(mid, before, k, q);
      forall i | 0 <= i < |mid|
        ensures i < |rs| ==> AtTurn(mid[i], before, k, q) == Became(rs[i], before, q, q.wanted[..n])
        ensures i >= |rs| ==> AtTurn(mid[i], before, k, q) == mid[i]
      {
        if i < |rs| {
          TurnContinues(rs[i], before, q, done, k);
        } else {
          MadeStays(mid[i], before, q, k);
        }
      }
    }
  }

  /**
   * Every reminder of the table afterwards: those found change only as told, cancelled with a deadline that
   * vanishes, pending again with one that comes back, attached to the deadline of their day; the others were
   * made for a computed deadline to come, so many days before it.
   */
  lemma RemindersAfter(t: Table, q: Request)
    requires q.Valid()
    ensures AllBecame(t.reminders, Recomputed(t, q).reminders, t.deadlines, q, q.wanted)
  {
    hide ForAllWanted, AllBecame, CancelAll;
    AllBecomes(t.reminders, CancelAll(t.reminders, VanishingKeys(t.deadlines, q.wanted)), t.deadlines, q, |q.wanted|);
    assert q.wanted[..|q.wanted|] == q.wanted;
  }

  // ---------------------------------------------------------------------- deadlines

  /** Where a deadline stands afterwards, by the day it is due on and the day of the recalculation. */
  predicate StandsAfter(t: Table, q: Request, k: Key, after: Option<Status>) {
    var before := if k in t.deadlines then Some(t.deadlines[k]) else None;
    if k in q.wanted then
      after == Some(if k.due < q.now / 86_400_000 || before == Some(DONE) then DONE else OPEN)
    else
      after == if before == Some(OPEN) then Some(OBSOLETE) else before
  }

  /** Every deadline of the table afterwards, and which ones are counted as created and as made obsolete. */
  lemma DeadlinesAfter(t: Table, q: Request, k: Key)
    ensures var after := Recomputed(t, q).deadlines; StandsAfter(t, q, k, if k in after then Some(after[k]) else None)
    ensures k in AppearingKeys(t.deadlines, q.wanted) <==> k in q.wanted && (k !in t.deadlines || t.deadlines[k] == OBSOLETE)
    ensures k in VanishingKeys(t.deadlines, q.wanted) <==> k !in q.wanted && k in t.deadlines && t.deadlines[k] == OPEN
  {
    hide ForAllWanted, CancelAll;
  }

  // ---------------------------------------------------------------------- every run

  /** An attached reminder falls on the day that lies its offset before the deadline. */
  ghost predicate OnTheirDay(rs: seq<Reminder>) {
    forall i :: 0 <= i < |rs| ==> OnItsDay(rs[i])
  }

  predicate OnItsDay(r: Reminder) {
    r.deadline.Some? ==> r.deadline.value == Origin(r)
  }

  lemma MadeOnItsDay(r: Reminder, q: Request)
    requires Made(r, q)
    ensures OnItsDay(r)
  {
    var k :| MadeFor(r, q, k);
    assert r.dueAt / 86_400_000 == k.due - r.offsetDays;
  }

  lemma RecalculationKeepsDays(t: Table, q: Request)
    requires q.Valid() && OnTheirDay(t.reminders)
    ensures OnTheirDay(Recomputed(t, q).reminders)
  {
    hide Recomputed;
    RemindersAfter(t, q);
    var after := Recomputed(t, q).reminders;
    forall i | 0 <= i < |after|
      ensures OnItsDay(after[i])
    {
      if i < |t.reminders| {
        assert OnItsDay(t.reminders[i]) && after[i] == Became(t.reminders[i], t.deadlines, q, q.wanted);
      } else {
        MadeOnItsDay(after[i], q);
      }
    }
  }

  /**
   * Over every run: an attached reminder always falls its offset before its deadline, and each recalculation
   * changes the reminders it finds, and makes others, exactly as told.
   */
  lemma {:induction false} RunsKeepDays(tables: seq<Table>, steps: seq<DeadlineRuns.Step>, start: Instant, n: nat)
    requires IsRun(tables, steps, start) && n <= |steps|
    ensures OnTheirDay(tables[n].reminders)
    ensures forall m :: 0 <= m < n && steps[m].Recalculate? ==>
              AllBecame(tables[m].reminders, tables[m + 1].reminders, tables[m].deadlines, steps[m].q, steps[m].q.wanted)
  {
    hide Recomputed, AllBecame, Clock;
    if n > 0 {
      RunsKeepDays(tables, steps, start, n - 1);
      assert Follows(tables[n - 1], steps[n - 1], tables[n]);
      match steps[n - 1] {
        case Recalculate(q) =>
          RecalculationKeepsDays(tables[n - 1], q);
          RemindersAfter(tables[n - 1], q);
        case Elsewhere => ElsewhereKeepsDays(tables[n - 1], tables[n]);
      }
    }
  }

  lemma ElsewhereKeepsDays(t: Table, after: Table)
    requires Meanwhile(t, after) && OnTheirDay(t.reminders)
    ensures OnTheirDay(after.reminders)
  {
    forall i | 0 <= i < |after.reminders|
      ensures OnItsDay(after.reminders[i])
    {
      assert i < |t.reminders| ==> OnItsDay(t.reminders[i]);
    }
  }

  // --------------------------------------------------------------------- the cycle

  /** The cycle of a deadline without reminders is the next one of its kind, or the one the contract starts from. */
  lemma NextCycle(rs: seq<Reminder>, k: Key, reminderCycle: nat)
    requires MineCycle(rs, k).None?
    ensures (forall r :: r in rs ==> r.kind != k.kind) ==> CycleFor(rs, k, reminderCycle) == reminderCycle
    ensures (exists r :: r in rs && r.kind == k.kind) ==>
              && (exists r :: r in rs && r.kind == k.kind && r.cycle + 1 == CycleFor(rs, k, reminderCycle))
              && forall r :: r in rs && r.kind == k.kind ==> r.cycle < CycleFor(rs, k, reminderCycle)
  {
    HighestCycle(rs, k.kind);
  }

  lemma {:induction false} HighestCycle(rs: seq<Reminder>, kind: Kind)
    ensures MaxCycle(rs, kind).None? <==> forall r :: r in rs ==> r.kind != kind
    ensures MaxCycle(rs, kind).Some? ==>
              && (exists r :: r in rs && r.kind == kind && r.cycle == MaxCycle(rs, kind).value)
              && forall r :: r in rs && r.kind == kind ==> r.cycle <= MaxCycle(rs, kind).value
  {
    if rs != [] {
      var init, last := rs[..|rs| - 1], rs[|rs| - 1];
      HighestCycle(init, kind);
      assert rs == init + [last];
      assert last in rs && forall r :: r in init ==> r in rs;
    }
  }
}

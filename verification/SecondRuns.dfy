/**
 * A recalculation run twice (apps/api/src/deadlines/deadlines.service.ts): on a table in any order, exactly
 * when the second run has nothing left to do, told from the table before the first.
 */
module SecondRuns {
  import opened Outcomes
  import opened Sums
  import opened Deadlines
  import opened Alerts
  import opened DeadlineRuns

  // ------------------------------------------------- the cycle once everything is adopted

  predicate Concerns(r: Reminder, k: Key) { IsAttached(r, k) || Orphan(r, k) }

  /** The cycle of the first reminder, in table order, that the deadline has or adopts. */
  function AdoptedCycle(rs: seq<Reminder>, k: Key): Option<nat> {
    if rs == [] then None
    else
      var before, r := AdoptedCycle(rs[..|rs| - 1], k), rs[|rs| - 1];
      if before.None? && Concerns(r, k) then Some(r.cycle) else before
  }

  lemma {:induction false} AdoptionTakesIt(rs: seq<Reminder>, k: Key)
    ensures FirstCycle(Adopt(rs, k), k, true) == AdoptedCycle(rs, k)
  {
    if rs != [] {
      var n := |rs| - 1;
      AdoptionTakesIt(rs[..n], k);
      assert Adopt(rs, k)[..n] == Adopt(rs[..n], k);
    }
  }

  lemma {:induction false} SameAdopted(rs: seq<Reminder>, after: seq<Reminder>, k: Key)
    requires SameFor(rs, after, k)
    ensures AdoptedCycle(after, k) == AdoptedCycle(rs, k)
    decreases |after|
  {
    if after != [] {
      var n := |after| - 1;
      if |rs| == |after| {
        SameAdopted(rs[..n], after[..n], k);
        assert SameReminder(after[n], rs[n], k);
      } else {
        SameAdopted(rs, after[..n], k);
        assert Foreign(after[n], k);
      }
    }
  }

  lemma {:induction false} NothingConcerns(rs: seq<Reminder>, k: Key)
    ensures AdoptedCycle(rs, k).None? <==> forall i :: 0 <= i < |rs| ==> !Concerns(rs[i], k)
  {
    if rs != [] {
      NothingConcerns(rs[..|rs| - 1], k);
    }
  }

  lemma {:induction false} AdoptedIsThere(rs: seq<Reminder>, k: Key) returns (at: nat)
    requires AdoptedCycle(rs, k).Some?
    ensures HasCycle(rs, k.kind, AdoptedCycle(rs, k).value, at)
  {
    var n := |rs| - 1;
    if AdoptedCycle(rs[..n], k).Some? {
      at := AdoptedIsThere(rs[..n], k);
    } else {
      at := n;
    }
  }

  /** A deadline adopts a cycle exactly when it has one before adoption. */
  lemma AdoptsWhenMine(rs: seq<Reminder>, k: Key)
    ensures AdoptedCycle(rs, k).Some? <==> MineCycle(rs, k).Some?
  {
    MineCycleIsFirst(rs, k);
    NoneFirst(rs, k, true);
    NoneFirst(rs, k, false);
    NothingConcerns(rs, k);
    assert forall i :: 0 <= i < |rs| ==> (Concerns(rs[i], k) <==> Picks(rs[i], k, true) || Picks(rs[i], k, false));
  }

  // --------------------------------------------------------- what the first run leaves

  lemma MaterializeAdopts(rs: seq<Reminder>, k: Key, q: Request)
    ensures NoOrphan(Materialize(rs, k, q), k)
    ensures AdoptedCycle(rs, k).Some? ==> FirstCycle(Materialize(rs, k, q), k, true) == AdoptedCycle(rs, k)
  {
    hide Adopt, CycleFor, Missing, FlatMap;
    var adopted, missing, cycle := Adopt(rs, k), FlatMap(q.thresholds, Missing(rs, k)), CycleFor(rs, k, q.reminderCycle);
    var after := Materialize(rs, k, q);
    AdoptSettles(rs, k);
    AlertsAppend(adopted, missing, k, cycle, q.now);
    AdoptionTakesIt(rs, k);
    if AdoptedCycle(rs, k).Some? {
      FirstOfPrefix(adopted, after, k, true);
    }
    forall i | 0 <= i < |after|
      ensures !Orphan(after[i], k)
    {
      if i < |adopted| {
        assert adopted[i] == after[i];
      } else {
        assert AddedFor(adopted, after[i], missing, k, cycle, q.now);
      }
    }
  }

  lemma WantedAdopts(rs: seq<Reminder>, before: map<Key, Status>, k: Key, q: Request)
    requires !q.Past(k)
    ensures NoOrphan(ForWanted(rs, before, k, q), k)
    ensures AdoptedCycle(rs, k).Some? ==> FirstCycle(ForWanted(rs, before, k, q), k, true) == AdoptedCycle(rs, k)
  {
    hide Materialize, Revive, SameFor, NoOrphan;
    var revived := if k in before && before[k] == OBSOLETE then Revive(rs, k, q.now) else rs;
    ReviveIsSame(rs, k, q.now, k);
    SameForItself(rs, k);
    SameAdopted(rs, revived, k);
    MaterializeAdopts(revived, k, q);
  }

  /** Nothing is left to adopt for a deadline dealt with, and its cycle is that of its first reminder. */
  lemma {:induction false} AdoptedAt(start: seq<Reminder>, before: map<Key, Status>, q: Request, i: nat, n: nat)
    requires Distinct(q.wanted) && i < n <= |q.wanted| && !q.Past(q.wanted[i])
    ensures var k, after := q.wanted[i], ForAllWanted(start, before, q.wanted[..n], q);
            && NoOrphan(after, k)
            && (AdoptedCycle(start, k).Some? ==> FirstCycle(after, k, true) == AdoptedCycle(start, k))
    decreases n
  {
    hide ForWanted, SameFor, KeepsSlots, NoOrphan;
    var k := q.wanted[i];
    var mid := ForAllWanted(start, before, q.wanted[..n - 1], q);
    assert q.wanted[..n][..n - 1] == q.wanted[..n - 1] && q.wanted[..n][n - 1] == q.wanted[n - 1];
    if i == n - 1 {
      assert k !in q.wanted[..n - 1];
      AllWantedAreLocal(start, before, q.wanted[..n - 1], q, k);
      SameAdopted(start, mid, k);
      WantedAdopts(mid, before, k, q);
    } else {
      AdoptedAt(start, before, q, i, n - 1);
      WantedIsLocal(mid, before, q.wanted[n - 1], q, k);
      var after := ForWanted(mid, before, q.wanted[n - 1], q);
      SameHas(mid, after, k, 0);
      SameFirst(mid, after, k, true);
    }
  }

  /** The first run ends with every computed deadline to come rid of orphans, at the cycle of its first reminder. */
  lemma FirstRunAdopts(t: Table, q: Request, i: nat)
    requires q.Valid() && i < |q.wanted| && !q.Past(q.wanted[i])
    ensures var k, after := q.wanted[i], Recomputed(t, q).reminders;
            && NoOrphan(after, k)
            && (AdoptedCycle(t.reminders, k).Some? ==> MineCycle(after, k) == AdoptedCycle(t.reminders, k))
  {
    hide ForAllWanted, CancelAll, SameFor, KeepsSlots, SettledDeadlines, NoOrphan, MineCycle;
    var k, keys := q.wanted[i], VanishingKeys(t.deadlines, q.wanted);
    var start := CancelAll(t.reminders, keys);
    CancelIsSame(t.reminders, keys, k);
    SameAdopted(t.reminders, start, k);
    AdoptedAt(start, t.deadlines, q, i, |q.wanted|);
    assert q.wanted[..|q.wanted|] == q.wanted;
    MineCycleIsFirst(Recomputed(t, q).reminders, k);
  }

  // -------------------------------------------------- when nothing is left to do at all

  ghost predicate AllAdopted(rs: seq<Reminder>, wanted: seq<Key>, q: Request) {
    forall k :: k in wanted && !q.Past(k) ==> NoOrphan(rs, k)
  }

  ghost predicate Standing(before: map<Key, Status>, wanted: seq<Key>) {
    forall k :: k in wanted ==> k in before && before[k] != OBSOLETE
  }

  /** With nothing to revive or to adopt, a run only adds reminders at the end. */
  lemma {:induction false} OnlyAppends(rs: seq<Reminder>, before: map<Key, Status>, wanted: seq<Key>, q: Request, all: seq<Key>)
    requires Standing(before, wanted) && AllAdopted(rs, all, q) && forall k :: k in wanted ==> k in all
    ensures rs <= ForAllWanted(rs, before, wanted, q) && AllAdopted(ForAllWanted(rs, before, wanted, q), all, q)
  {
    hide Materialize;
    if wanted != [] {
      var init, k := wanted[..|wanted| - 1], wanted[|wanted| - 1];
      assert k in wanted && forall w :: w in init ==> w in wanted;
      OnlyAppends(rs, before, init, q, all);
      var mid := ForAllWanted(rs, before, init, q);
      if !q.Past(k) {
        AppendsAlerts(mid, k, q, all);
      }
    }
  }

  lemma AppendsAlerts(rs: seq<Reminder>, k: Key, q: Request, all: seq<Key>)
    requires AllAdopted(rs, all, q) && NoOrphan(rs, k)
    ensures rs <= Materialize(rs, k, q) && AllAdopted(Materialize(rs, k, q), all, q)
  {
    hide CycleFor, Missing, FlatMap;
    var missing, cycle := FlatMap(q.thresholds, Missing(rs, k)), CycleFor(rs, k, q.reminderCycle);
    assert Adopt(rs, k) == rs;
    var after := Materialize(rs, k, q);
    AlertsAppend(rs, missing, k, cycle, q.now);
    forall j, i | j in all && !q.Past(j) && 0 <= i < |after|
      ensures !Orphan(after[i], j)
    {
      if i < |rs| {
        assert NoOrphan(rs, j) && after[i] == rs[i];
      } else {
        assert AddedFor(rs, after[i], missing, k, cycle, q.now);
      }
    }
  }

  lemma FixedIsQuiet(rs: seq<Reminder>, k: Key, q: Request)
    requires NoOrphan(rs, k) && Materialize(rs, k, q) == rs
    ensures Quiet(rs, k, q)
  {
    hide CycleFor, Has, Taken, AddAlerts, NoOrphan;
    var missing, cycle := FlatMap(q.thresholds, Missing(rs, k)), CycleFor(rs, k, q.reminderCycle);
    assert Adopt(rs, k) == rs by { NothingToAdopt(rs, k); }
    forall offset | offset in q.thresholds
      ensures Settles(rs, k, offset, q.reminderCycle)
    {
      MissingAre(rs, q.thresholds, k, offset);
      if offset in missing {
        SlotsEndTaken(rs, missing, k, cycle, q.now, offset);
      }
    }
  }

  lemma NothingToAdopt(rs: seq<Reminder>, k: Key)
    requires NoOrphan(rs, k)
    ensures Adopt(rs, k) == rs
  {
  }

  /** A run that changes nothing met only deadlines that need nothing. */
  lemma {:induction false} FixedMeansQuiet(rs: seq<Reminder>, before: map<Key, Status>, wanted: seq<Key>, q: Request)
    requires Standing(before, wanted) && AllAdopted(rs, wanted, q) && ForAllWanted(rs, before, wanted, q) == rs
    ensures forall k :: k in wanted && !q.Past(k) ==> Quiet(rs, k, q)
  {
    hide Materialize, Quiet, NoOrphan;
    if wanted != [] {
      var init, k := wanted[..|wanted| - 1], wanted[|wanted| - 1];
      assert k in wanted && forall w :: w in init ==> w in wanted;
      var mid := ForAllWanted(rs, before, init, q);
      OnlyAppends(rs, before, init, q, wanted);
      if !q.Past(k) {
        assert NoOrphan(mid, k);
        AppendsAlerts(mid, k, q, wanted);
      }
      assert |mid| == |rs|;
      assert mid == rs;
      FixedMeansQuiet(rs, before, init, q);
      if !q.Past(k) {
        FixedIsQuiet(rs, k, q);
      }
      assert wanted == init + [k];
    }
  }

  // ------------------------------------------------------------- the exact condition

  /** The slot is held, once all is adopted, in the cycle the deadline has by then. */
  predicate SlotHeld(rs: seq<Reminder>, q: Request, i: nat, offset: int)
    requires i < |q.wanted|
  {
    var k := q.wanted[i];
    var cycle := AdoptedCycle(rs, k);
    && cycle.Some?
    && (Taken(rs, k.kind, offset, cycle.value) || OneTakesFirst(rs, q, |q.wanted|, k.kind, offset, cycle.value))
  }

  /** A slot lost in the cycle a deadline has before adoption is lost as well in the one it has after. */
  ghost predicate LosesForGood(rs: seq<Reminder>, q: Request) {
    forall i, offset :: 0 <= i < |q.wanted| && !q.Past(q.wanted[i]) && offset in q.thresholds && SlotLost(rs, q, i, offset) ==>
      SlotHeld(rs, q, i, offset)
  }

  /** What the first run leaves of a threshold: a reminder, or a slot that is held or free. */
  lemma LeftByFirstRun(t: Table, q: Request, i: nat, offset: int)
    requires q.Valid() && i < |q.wanted| && !q.Past(q.wanted[i]) && offset in q.thresholds
    ensures Settles(Recomputed(t, q).reminders, q.wanted[i], offset, q.reminderCycle)
            <==> (SlotLost(t.reminders, q, i, offset) ==> SlotHeld(t.reminders, q, i, offset))
  {
    hide Recomputed, Has, Owns, Taken, MineCycle, AdoptedCycle, NoOrphan, OneTakesFirst, CycleFor;
    var k, after := q.wanted[i], Recomputed(t, q).reminders;
    AlertsAreComplete(t, q, i, offset);
    FirstRunAdopts(t, q, i);
    HadIsOwned(after, k, offset);
    if SlotLost(t.reminders, q, i, offset) {
      AdoptsWhenMine(t.reminders, k);
      CycleIsMine(after, k, q.reminderCycle);
      TakenAfterRun(t, q, k, offset);
    }
  }

  lemma HadIsOwned(rs: seq<Reminder>, k: Key, offset: int)
    requires NoOrphan(rs, k)
    ensures Has(rs, k, offset) <==> Owns(rs, k, offset)
  {
    if Has(rs, k, offset) {
      var r :| r in rs && r.kind == k.kind && r.offsetDays == offset && (r.deadline == Some(k) || Orphan(r, k));
      var i :| 0 <= i < |rs| && rs[i] == r;
      assert !Orphan(rs[i], k);
    }
  }

  /** The slots of an adopted cycle that the first run leaves taken. */
  lemma TakenAfterRun(t: Table, q: Request, k: Key, offset: int)
    requires q.Valid() && offset in q.thresholds && AdoptedCycle(t.reminders, k).Some?
    ensures var cycle := AdoptedCycle(t.reminders, k).value;
            Taken(Recomputed(t, q).reminders, k.kind, offset, cycle)
            <==> Taken(t.reminders, k.kind, offset, cycle) || OneTakesFirst(t.reminders, q, |q.wanted|, k.kind, offset, cycle)
  {
    hide ForAllWanted, CancelAll, SettledDeadlines, MineCycle, Has, Taken, AdoptedCycle, SameFor;
    var keys, cycle := VanishingKeys(t.deadlines, q.wanted), AdoptedCycle(t.reminders, k).value;
    var start := CancelAll(t.reminders, keys);
    CancelIsSame(t.reminders, keys, k);
    var at := AdoptedIsThere(t.reminders, k);
    assert SameSlot(start[at], t.reminders[at]);
    TakenAtTurn(start, t.deadlines, q, |q.wanted|, k.kind, offset, cycle, at);
    assert q.wanted[..|q.wanted|] == q.wanted;
    SameSlotsSameTaken(t.reminders, start, k.kind, offset, cycle);
    CancelTakesNothing(t.reminders, keys, q, k.kind, offset, cycle);
  }

  lemma CancelTakesNothing(rs: seq<Reminder>, keys: set<Key>, q: Request, kind: Kind, offset: int, cycle: nat)
    ensures OneTakesFirst(CancelAll(rs, keys), q, |q.wanted|, kind, offset, cycle) <==> OneTakesFirst(rs, q, |q.wanted|, kind, offset, cycle)
  {
    hide CancelAll, SameFor, KeepsSlots, MineCycle, Has;
    var after := CancelAll(rs, keys);
    forall j | 0 <= j < |q.wanted|
      ensures TakesFirst(after, q, j, kind, offset, cycle) <==> TakesFirst(rs, q, j, kind, offset, cycle)
    {
      CancelIsSame(rs, keys, q.wanted[j]);
      SameCycle(rs, after, q.wanted[j]);
      SameHas(rs, after, q.wanted[j], offset);
    }
  }

  lemma SecondRunFixed(t: Table, q: Request)
    requires q.Valid()
    ensures var once := Recomputed(t, q);
            Recomputed(once, q) == once <==> forall k :: k in q.wanted && !q.Past(k) ==> Quiet(once.reminders, k, q)
  {
    hide ForAllWanted, CancelAll, Quiet, NoOrphan, SettledDeadlines;
    var once := Recomputed(t, q);
    DeadlinesSettle(t.deadlines, q);
    CancelNone(once.reminders);
    assert Recomputed(once, q).reminders == ForAllWanted(once.reminders, once.deadlines, q.wanted, q);
    forall k | k in q.wanted && !q.Past(k)
      ensures NoOrphan(once.reminders, k)
    {
      var i :| 0 <= i < |q.wanted| && q.wanted[i] == k;
      FirstRunAdopts(t, q, i);
    }
    if Recomputed(once, q) == once {
      FixedMeansQuiet(once.reminders, once.deadlines, q.wanted, q);
    }
    if forall k :: k in q.wanted && !q.Past(k) ==> Quiet(once.reminders, k, q) {
      NothingLeftToDo(once.reminders, once.deadlines, q.wanted, q);
    }
  }

  /**
   * On a table in any order: a second run at once changes nothing exactly when each slot lost in a
   * deadline's cycle before adoption is lost as well in the cycle it has after.
   */
  lemma SecondRunIsQuietExactlyWhen(t: Table, q: Request)
    requires q.Valid()
    ensures var once := Recomputed(t, q);
            Recomputed(once, q) == once <==> LosesForGood(t.reminders, q)
  {
    hide Recomputed, SlotLost, SlotHeld, Settles, NoOrphan;
    var once := Recomputed(t, q);
    SecondRunFixed(t, q);
    forall i, offset | 0 <= i < |q.wanted| && !q.Past(q.wanted[i]) && offset in q.thresholds
      ensures Settles(once.reminders, q.wanted[i], offset, q.reminderCycle)
              <==> (SlotLost(t.reminders, q, i, offset) ==> SlotHeld(t.reminders, q, i, offset))
    {
      LeftByFirstRun(t, q, i, offset);
    }
    forall k | k in q.wanted && !q.Past(k)
      ensures NoOrphan(once.reminders, k)
    {
      var i :| 0 <= i < |q.wanted| && q.wanted[i] == k;
      FirstRunAdopts(t, q, i);
    }
    if LosesForGood(t.reminders, q) {
      forall k | k in q.wanted && !q.Past(k)
        ensures Quiet(once.reminders, k, q)
      {
        var i :| 0 <= i < |q.wanted| && q.wanted[i] == k;
      }
    }
    if forall k :: k in q.wanted && !q.Past(k) ==> Quiet(once.reminders, k, q) {
      forall i, offset | 0 <= i < |q.wanted| && !q.Past(q.wanted[i]) && offset in q.thresholds && SlotLost(t.reminders, q, i, offset)
        ensures SlotHeld(t.reminders, q, i, offset)
      {
        assert q.wanted[i] in q.wanted && Quiet(once.reminders, q.wanted[i], q);
      }
    }
  }

  /** In the table where the order matters, the slot lost in cycle 2 is free in cycle 1, the one adopted. */
  lemma LostThenFree()
    ensures !LosesForGood(UNORDERED.reminders, ONE_THRESHOLD)
  {
    hide Recomputed, Owns, LosesForGood;
    OrderMatters();
    SecondRunIsQuietExactlyWhen(UNORDERED, ONE_THRESHOLD);
  }
}

/**
 * Which reminders a deadline ends with (apps/api/src/deadlines/deadlines.service.ts, `materializeAlerts`):
 * when a second recalculation changes none of them, and exactly when a threshold is left without one.
 */
module Alerts {
  import opened Outcomes
  import opened Sums
  import opened Deadlines

  predicate SameSlot(r: Reminder, s: Reminder) {
    r.kind == s.kind && r.offsetDays == s.offsetDays && r.cycle == s.cycle
  }

  predicate IsAttached(r: Reminder, k: Key) {
    r.kind == k.kind && r.deadline == Some(k)
  }

  /** The deadline has a reminder of its own for this threshold. */
  predicate Owns(rs: seq<Reminder>, k: Key, offset: int) {
    exists r :: r in rs && IsAttached(r, k) && r.offsetDays == offset
  }

  predicate NoOrphan(rs: seq<Reminder>, k: Key) {
    forall i :: 0 <= i < |rs| ==> !Orphan(rs[i], k)
  }

  predicate Overtakes(r: Reminder, s: Reminder) {
    s.deadline.Some? && Orphan(r, s.deadline.value)
  }

  /** No attached reminder of a deadline follows a reminder that the deadline could still adopt. */
  ghost predicate Ordered(rs: seq<Reminder>) {
    forall i, j :: 0 <= i < j < |rs| ==> !Overtakes(rs[i], rs[j])
  }

  // -------------------------------------------------------- the cycle of a deadline

  /** The cycle a deadline takes from the reminders it has or adopts, if any. */
  function MineCycle(rs: seq<Reminder>, k: Key): Option<nat> {
    var mine := FlatMap(rs, Attached(k)) + FlatMap(rs, Orphans(k));
    if mine != [] then Some(mine[0].cycle) else None
  }

  predicate Picks(r: Reminder, k: Key, attached: bool) {
    if attached then IsAttached(r, k) else Orphan(r, k)
  }

  function FirstCycle(rs: seq<Reminder>, k: Key, attached: bool): Option<nat> {
    if rs == [] then None
    else
      var before, r := FirstCycle(rs[..|rs| - 1], k, attached), rs[|rs| - 1];
      if before.None? && Picks(r, k, attached) then Some(r.cycle) else before
  }

  lemma {:induction false} FirstIsFirst(rs: seq<Reminder>, k: Key)
    ensures var xs := FlatMap(rs, Attached(k)); FirstCycle(rs, k, true) == if xs == [] then None else Some(xs[0].cycle)
    ensures var xs := FlatMap(rs, Orphans(k)); FirstCycle(rs, k, false) == if xs == [] then None else Some(xs[0].cycle)
  {
    if rs != [] {
      FirstIsFirst(rs[..|rs| - 1], k);
    }
  }

  lemma MineCycleIsFirst(rs: seq<Reminder>, k: Key)
    ensures MineCycle(rs, k) == if FirstCycle(rs, k, true).Some? then FirstCycle(rs, k, true) else FirstCycle(rs, k, false)
  {
    FirstIsFirst(rs, k);
  }

  lemma {:induction false} NoneFirst(rs: seq<Reminder>, k: Key, attached: bool)
    ensures FirstCycle(rs, k, attached).None? <==> forall i :: 0 <= i < |rs| ==> !Picks(rs[i], k, attached)
  {
    if rs != [] {
      NoneFirst(rs[..|rs| - 1], k, attached);
    }
  }

  lemma {:induction false} FirstIsThere(rs: seq<Reminder>, k: Key, attached: bool) returns (i: nat)
    requires FirstCycle(rs, k, attached).Some?
    ensures i < |rs| && Picks(rs[i], k, attached) && FirstCycle(rs, k, attached) == Some(rs[i].cycle)
  {
    var n := |rs| - 1;
    if FirstCycle(rs[..n], k, attached).Some? {
      i := FirstIsThere(rs[..n], k, attached);
    } else {
      i := n;
    }
  }

  lemma {:induction false} HighestIsAbove(rs: seq<Reminder>, kind: Kind, i: nat)
    requires i < |rs| && rs[i].kind == kind
    ensures MaxCycle(rs, kind).Some? && rs[i].cycle <= MaxCycle(rs, kind).value
  {
    var n := |rs| - 1;
    if i < n {
      HighestIsAbove(rs[..n], kind, i);
    }
  }

  /** A deadline without reminders takes a cycle that no reminder of its kind has. */
  lemma FreshCycle(rs: seq<Reminder>, k: Key, reminderCycle: nat, offset: int)
    requires MineCycle(rs, k).None?
    ensures !Taken(rs, k.kind, offset, CycleFor(rs, k, reminderCycle))
    ensures forall i :: 0 <= i < |rs| && rs[i].kind == k.kind ==> rs[i].cycle != CycleFor(rs, k, reminderCycle)
  {
    forall i | 0 <= i < |rs| && rs[i].kind == k.kind
      ensures rs[i].cycle != CycleFor(rs, k, reminderCycle)
    {
      HighestIsAbove(rs, k.kind, i);
    }
  }

  // ------------------------------------------------------------------ unaffected keys

  predicate SameReminder(r: Reminder, s: Reminder, k: Key) {
    SameSlot(r, s) && (IsAttached(r, k) <==> IsAttached(s, k)) && (Orphan(r, k) <==> Orphan(s, k))
  }

  predicate Foreign(r: Reminder, k: Key) {
    !IsAttached(r, k) && !Orphan(r, k)
  }

  /** Nothing that matters to `k` has changed, save for reminders of other deadlines added at the end. */
  ghost predicate SameFor(rs: seq<Reminder>, after: seq<Reminder>, k: Key) {
    && |rs| <= |after|
    && (forall i :: 0 <= i < |rs| ==> SameReminder(after[i], rs[i], k))
    && (forall i :: |rs| <= i < |after| ==> Foreign(after[i], k))
  }

  lemma SameForTransitive(a: seq<Reminder>, b: seq<Reminder>, c: seq<Reminder>, k: Key)
    requires SameFor(a, b, k) && SameFor(b, c, k)
    ensures SameFor(a, c, k)
  {
    forall i | 0 <= i < |a|
      ensures SameReminder(c[i], a[i], k)
    {
      assert SameReminder(b[i], a[i], k) && SameReminder(c[i], b[i], k);
    }
    forall i | |a| <= i < |c|
      ensures Foreign(c[i], k)
    {
      if i < |b| {
        assert SameReminder(c[i], b[i], k) && Foreign(b[i], k);
      }
    }
  }

  lemma {:induction false} SameFirst(rs: seq<Reminder>, after: seq<Reminder>, k: Key, attached: bool)
    requires SameFor(rs, after, k)
    ensures FirstCycle(after, k, attached) == FirstCycle(rs, k, attached)
    decreases |after|
  {
    if after != [] {
      var n := |after| - 1;
      if |rs| == |after| {
        SameFirst(rs[..n], after[..n], k, attached);
        assert SameReminder(after[n], rs[n], k);
      } else {
        SameFirst(rs, after[..n], k, attached);
        assert Foreign(after[n], k);
      }
    }
  }

  lemma SameCycle(rs: seq<Reminder>, after: seq<Reminder>, k: Key)
    requires SameFor(rs, after, k)
    ensures MineCycle(after, k) == MineCycle(rs, k)
  {
    SameFirst(rs, after, k, true);
    SameFirst(rs, after, k, false);
    MineCycleIsFirst(rs, k);
    MineCycleIsFirst(after, k);
  }

  lemma SameHas(rs: seq<Reminder>, after: seq<Reminder>, k: Key, offset: int)
    requires SameFor(rs, after, k)
    ensures Has(after, k, offset) <==> Has(rs, k, offset)
    ensures Owns(after, k, offset) <==> Owns(rs, k, offset)
    ensures NoOrphan(rs, k) ==> NoOrphan(after, k)
  {
    forall i | 0 <= i < |rs|
      ensures SameReminder(after[i], rs[i], k) && after[i] in after && rs[i] in rs
    {
    }
    forall i | |rs| <= i < |after|
      ensures Foreign(after[i], k)
    {
    }
  }

  /** Slots are never given up. */
  ghost predicate KeepsSlots(rs: seq<Reminder>, after: seq<Reminder>) {
    |rs| <= |after| && forall i :: 0 <= i < |rs| ==> SameSlot(after[i], rs[i])
  }

  lemma TakenStays(rs: seq<Reminder>, after: seq<Reminder>, kind: Kind, offset: int, cycle: nat)
    requires KeepsSlots(rs, after) && Taken(rs, kind, offset, cycle)
    ensures Taken(after, kind, offset, cycle)
  {
    var r :| r in rs && r.kind == kind && r.offsetDays == offset && r.cycle == cycle;
    var i :| 0 <= i < |rs| && rs[i] == r;
    assert SameSlot(after[i], rs[i]) && after[i] in after;
  }

  lemma PrefixTaken(rs: seq<Reminder>, after: seq<Reminder>, kind: Kind, offset: int, cycle: nat)
    requires rs <= after
    ensures Taken(rs, kind, offset, cycle) ==> Taken(after, kind, offset, cycle)
  {
    assert forall r :: r in rs ==> r in after;
  }

  // ------------------------------------------------------------ what is added, and where

  ghost predicate AddedFor(rs: seq<Reminder>, r: Reminder, missing: seq<int>, k: Key, cycle: nat, now: Instant) {
    r == Alert(k, r.offsetDays, cycle, now) && r.offsetDays in missing && !Taken(rs, k.kind, r.offsetDays, cycle)
  }

  /** Alerts go to the end of the table, each into a free slot of the deadline's cycle. */
  lemma {:induction false} AlertsAppend(rs: seq<Reminder>, missing: seq<int>, k: Key, cycle: nat, now: Instant)
    ensures var after := AddAlerts(rs, missing, k, cycle, now);
            && rs <= after
            && (forall i :: |rs| <= i < |after| ==> AddedFor(rs, after[i], missing, k, cycle, now))
  {
    if missing != [] {
      var init, offset := missing[..|missing| - 1], missing[|missing| - 1];
      AlertsAppend(rs, init, k, cycle, now);
      var before, after := AddAlerts(rs, init, k, cycle, now), AddAlerts(rs, missing, k, cycle, now);
      assert offset in missing && forall o :: o in init ==> o in missing;
      PrefixTaken(rs, before, k.kind, offset, cycle);
      forall i | |rs| <= i < |after|
        ensures AddedFor(rs, after[i], missing, k, cycle, now)
      {
        if i < |before| {
          assert AddedFor(rs, before[i], init, k, cycle, now);
        }
      }
    }
  }

  lemma AddedSlots(rs: seq<Reminder>, missing: seq<int>, k: Key, cycle: nat, now: Instant, offset: int)
    ensures var after := AddAlerts(rs, missing, k, cycle, now);
            Taken(after, k.kind, offset, cycle) ==> Taken(rs, k.kind, offset, cycle) || offset in missing
  {
    var after := AddAlerts(rs, missing, k, cycle, now);
    AlertsAppend(rs, missing, k, cycle, now);
    if Taken(after, k.kind, offset, cycle) {
      var r :| r in after && r.kind == k.kind && r.offsetDays == offset && r.cycle == cycle;
      var i :| 0 <= i < |after| && after[i] == r;
      if i < |rs| {
        assert after[i] == rs[i] && rs[i] in rs;
      } else {
        assert AddedFor(rs, after[i], missing, k, cycle, now);
      }
    }
  }

  lemma AddedOwns(rs: seq<Reminder>, missing: seq<int>, k: Key, cycle: nat, now: Instant, offset: int)
    ensures var after := AddAlerts(rs, missing, k, cycle, now);
            Owns(after, k, offset) ==> Owns(rs, k, offset) || (offset in missing && !Taken(rs, k.kind, offset, cycle))
  {
    var after := AddAlerts(rs, missing, k, cycle, now);
    AlertsAppend(rs, missing, k, cycle, now);
    if Owns(after, k, offset) {
      var r :| r in after && IsAttached(r, k) && r.offsetDays == offset;
      var i :| 0 <= i < |after| && after[i] == r;
      if i < |rs| {
        assert rs[i] in rs;
      } else {
        assert AddedFor(rs, after[i], missing, k, cycle, now);
      }
    }
  }

  /** Every missing threshold ends with a reminder in its slot, one added for it or one already there. */
  lemma {:induction false} SlotsEndTaken(rs: seq<Reminder>, missing: seq<int>, k: Key, cycle: nat, now: Instant, offset: int)
    requires offset in missing
    ensures var after := AddAlerts(rs, missing, k, cycle, now);
            if Taken(rs, k.kind, offset, cycle) then Taken(after, k.kind, offset, cycle)
            else Owns(after, k, offset) && Taken(after, k.kind, offset, cycle)
  {
    var init, last := missing[..|missing| - 1], missing[|missing| - 1];
    assert missing == init + [last];
    var before, after := AddAlerts(rs, init, k, cycle, now), AddAlerts(rs, missing, k, cycle, now);
    AlertsAppend(rs, init, k, cycle, now);
    AlertsAppend(rs, missing, k, cycle, now);
    PrefixTaken(rs, after, k.kind, offset, cycle);
    if Taken(rs, k.kind, offset, cycle) {
    } else if offset in init {
      SlotsEndTaken(rs, init, k, cycle, now, offset);
      assert forall r :: r in before ==> r in after;
    } else {
      AddedSlots(rs, init, k, cycle, now, offset);
      assert Alert(k, offset, cycle, now) in after;
    }
  }

  lemma {:induction false} NothingToAdd(rs: seq<Reminder>, missing: seq<int>, k: Key, cycle: nat, now: Instant)
    requires forall offset :: offset in missing ==> Taken(rs, k.kind, offset, cycle)
    ensures AddAlerts(rs, missing, k, cycle, now) == rs
  {
    if missing != [] {
      NothingToAdd(rs, missing[..|missing| - 1], k, cycle, now);
      assert missing[|missing| - 1] in missing;
    }
  }

  lemma MissingAre(rs: seq<Reminder>, thresholds: seq<int>, k: Key, offset: int)
    ensures offset in FlatMap(thresholds, Missing(rs, k)) <==> offset in thresholds && !Has(rs, k, offset)
  {
    FlatMapMembers(thresholds, Missing(rs, k), offset);
    assert forall o :: offset in Missing(rs, k)(o) <==> o == offset && !Has(rs, k, o);
  }

  // ------------------------------------------------------- what one computed deadline does

  /** The deadline needs nothing more: no reminder to adopt, every threshold has one or its slot is taken. */
  ghost predicate Quiet(rs: seq<Reminder>, k: Key, q: Request) {
    && NoOrphan(rs, k)
    && (forall offset :: offset in q.thresholds ==> Settles(rs, k, offset, q.reminderCycle))
  }

  predicate Settles(rs: seq<Reminder>, k: Key, offset: int, reminderCycle: nat) {
    Has(rs, k, offset) || Taken(rs, k.kind, offset, CycleFor(rs, k, reminderCycle))
  }

  lemma QuietIsFixed(rs: seq<Reminder>, k: Key, q: Request)
    requires Quiet(rs, k, q)
    ensures Materialize(rs, k, q) == rs
  {
    hide CycleFor, Has;
    var missing, cycle := FlatMap(q.thresholds, Missing(rs, k)), CycleFor(rs, k, q.reminderCycle);
    assert Adopt(rs, k) == rs;
    forall offset | offset in missing
      ensures Taken(rs, k.kind, offset, cycle)
    {
      MissingAre(rs, q.thresholds, k, offset);
      assert Settles(rs, k, offset, q.reminderCycle);
    }
    NothingToAdd(rs, missing, k, cycle, q.now);
  }

  /** Adoption keeps the cycle when the table is ordered. */
  lemma {:induction false} AdoptedFirst(rs: seq<Reminder>, k: Key)
    requires Ordered(rs)
    ensures FirstCycle(Adopt(rs, k), k, true)
            == if FirstCycle(rs, k, true).Some? then FirstCycle(rs, k, true) else FirstCycle(rs, k, false)
  {
    if rs != [] {
      var n := |rs| - 1;
      AdoptedFirst(rs[..n], k);
      assert Adopt(rs, k)[..n] == Adopt(rs[..n], k);
      if IsAttached(rs[n], k) {
        forall i | 0 <= i < n
          ensures !Picks(rs[..n][i], k, false)
        {
          assert !Overtakes(rs[i], rs[n]);
        }
        NoneFirst(rs[..n], k, false);
      }
    }
  }

  lemma AdoptSettles(rs: seq<Reminder>, k: Key)
    ensures NoOrphan(Adopt(rs, k), k)
    ensures KeepsSlots(rs, Adopt(rs, k))
    ensures forall offset :: Has(Adopt(rs, k), k, offset) <==> Has(rs, k, offset)
    ensures forall offset :: Owns(Adopt(rs, k), k, offset) <==> Has(rs, k, offset)
  {
    var after := Adopt(rs, k);
    assert forall i :: 0 <= i < |rs| ==> after[i] in after && rs[i] in rs;
    assert forall i :: 0 <= i < |rs| ==> (IsAttached(after[i], k) <==> IsAttached(rs[i], k) || Orphan(rs[i], k));
    forall offset
      ensures Owns(after, k, offset) <==> Has(rs, k, offset)
      ensures Has(after, k, offset) <==> Has(rs, k, offset)
    {
      OwnsAdopted(rs, k, offset);
    }
  }

  lemma OwnsAdopted(rs: seq<Reminder>, k: Key, offset: int)
    ensures Owns(Adopt(rs, k), k, offset) <==> Has(rs, k, offset)
    ensures Has(Adopt(rs, k), k, offset) <==> Has(rs, k, offset)
  {
    var after := Adopt(rs, k);
    if Has(rs, k, offset) {
      var r :| r in rs && r.kind == k.kind && r.offsetDays == offset && (r.deadline == Some(k) || Orphan(r, k));
      var i :| 0 <= i < |rs| && rs[i] == r;
      assert after[i] in after && IsAttached(after[i], k);
    }
    if Has(after, k, offset) {
      var r :| r in after && r.kind == k.kind && r.offsetDays == offset && (r.deadline == Some(k) || Orphan(r, k));
      var i :| 0 <= i < |after| && after[i] == r;
      assert rs[i] in rs;
    }
  }

  lemma {:induction false} FirstOfPrefix(rs: seq<Reminder>, after: seq<Reminder>, k: Key, attached: bool)
    requires rs <= after && FirstCycle(rs, k, attached).Some?
    ensures FirstCycle(after, k, attached) == FirstCycle(rs, k, attached)
    decreases |after|
  {
    if |rs| < |after| {
      FirstOfPrefix(rs, after[..|after| - 1], k, attached);
    } else {
      assert rs == after;
    }
  }

  lemma AdoptKeepsTaken(rs: seq<Reminder>, k: Key, kind: Kind, offset: int, cycle: nat)
    ensures Taken(Adopt(rs, k), kind, offset, cycle) <==> Taken(rs, kind, offset, cycle)
  {
    AdoptSettles(rs, k);
    if Taken(rs, kind, offset, cycle) {
      TakenStays(rs, Adopt(rs, k), kind, offset, cycle);
    }
    if Taken(Adopt(rs, k), kind, offset, cycle) {
      assert KeepsSlots(Adopt(rs, k), rs);
      TakenStays(Adopt(rs, k), rs, kind, offset, cycle);
    }
  }

  /** A threshold ends with a reminder of the deadline exactly when it had one or its slot was free. */
  lemma MaterializedOwns(rs: seq<Reminder>, k: Key, q: Request, offset: int)
    requires offset in q.thresholds
    ensures Owns(Materialize(rs, k, q), k, offset)
            <==> Has(rs, k, offset) || !Taken(rs, k.kind, offset, CycleFor(rs, k, q.reminderCycle))
  {
    hide CycleFor, Adopt, Taken;
    var adopted, cycle := Adopt(rs, k), CycleFor(rs, k, q.reminderCycle);
    var missing := FlatMap(q.thresholds, Missing(rs, k));
    var after := AddAlerts(adopted, missing, k, cycle, q.now);
    AdoptSettles(rs, k);
    AdoptKeepsTaken(rs, k, k.kind, offset, cycle);
    AlertsAppend(adopted, missing, k, cycle, q.now);
    AddedOwns(adopted, missing, k, cycle, q.now, offset);
    MissingAre(rs, q.thresholds, k, offset);
    if Has(rs, k, offset) {
      assert Owns(adopted, k, offset);
      assert forall r :: r in adopted ==> r in after;
    } else if !Taken(rs, k.kind, offset, cycle) {
      SlotsEndTaken(adopted, missing, k, cycle, q.now, offset);
    }
  }

  /** The slots a deadline takes: those of its cycle for the thresholds it has no reminder for. */
  lemma MaterializedTaken(rs: seq<Reminder>, k: Key, q: Request, kind: Kind, offset: int, cycle: nat)
    requires offset in q.thresholds
    ensures Taken(Materialize(rs, k, q), kind, offset, cycle)
            <==> Taken(rs, kind, offset, cycle)
                 || (kind == k.kind && cycle == CycleFor(rs, k, q.reminderCycle) && !Has(rs, k, offset))
  {
    hide CycleFor, Adopt, Has, AddAlerts, Taken, FlatMap, Missing;
    var adopted, own := Adopt(rs, k), CycleFor(rs, k, q.reminderCycle);
    var missing := FlatMap(q.thresholds, Missing(rs, k));
    AdoptKeepsTaken(rs, k, kind, offset, cycle);
    MissingAre(rs, q.thresholds, k, offset);
    AddedTaken(adopted, missing, k, own, q.now, kind, offset, cycle);
  }

  /** A slot taken after alerts are added was taken before, or is that of a missing threshold. */
  lemma AddedTaken(rs: seq<Reminder>, missing: seq<int>, k: Key, own: nat, now: Instant, kind: Kind, offset: int, cycle: nat)
    ensures Taken(AddAlerts(rs, missing, k, own, now), kind, offset, cycle)
            <==> Taken(rs, kind, offset, cycle) || (kind == k.kind && cycle == own && offset in missing)
  {
    hide AddAlerts;
    var after := AddAlerts(rs, missing, k, own, now);
    AlertsAppend(rs, missing, k, own, now);
    PrefixTaken(rs, after, kind, offset, cycle);
    if kind == k.kind && cycle == own && offset in missing {
      SlotsEndTaken(rs, missing, k, own, now, offset);
    } else if Taken(after, kind, offset, cycle) {
      var r :| r in after && r.kind == kind && r.offsetDays == offset && r.cycle == cycle;
      var i :| 0 <= i < |after| && after[i] == r;
      if i < |rs| {
        assert rs[i] in rs;
      } else {
        assert AddedFor(rs, after[i], missing, k, own, now);
      }
    }
  }

  lemma MaterializeSettles(rs: seq<Reminder>, k: Key, q: Request)
    requires Ordered(rs)
    ensures Quiet(Materialize(rs, k, q), k, q)
  {
    hide Adopt, Has, Taken, CycleFor, Ordered;
    var adopted, cycle := Adopt(rs, k), CycleFor(rs, k, q.reminderCycle);
    var missing := FlatMap(q.thresholds, Missing(rs, k));
    var after := Materialize(rs, k, q);
    AdoptSettles(rs, k);
    AlertsAppend(adopted, missing, k, cycle, q.now);
    forall i | 0 <= i < |after|
      ensures !Orphan(after[i], k)
    {
      if i < |adopted| {
        assert adopted[i] == after[i];
      } else {
        assert AddedFor(adopted, after[i], missing, k, cycle, q.now);
      }
    }
    forall offset | offset in q.thresholds
      ensures Settles(after, k, offset, q.reminderCycle)
    {
      MaterializedOwns(rs, k, q, offset);
      OwnIsHad(after, k, offset);
      if !Has(after, k, offset) {
        if MineCycle(rs, k).None? {
          FreshCycle(rs, k, q.reminderCycle, offset);
        } else {
          CycleStands(rs, k, q);
          MaterializedTaken(rs, k, q, k.kind, offset, cycle);
        }
      }
    }
  }

  lemma OwnIsHad(rs: seq<Reminder>, k: Key, offset: int)
    ensures Owns(rs, k, offset) ==> Has(rs, k, offset)
  {
  }

  lemma CycleIsMine(rs: seq<Reminder>, k: Key, reminderCycle: nat)
    requires MineCycle(rs, k).Some?
    ensures CycleFor(rs, k, reminderCycle) == MineCycle(rs, k).value
  {
  }

  /** A deadline that has or adopts reminders keeps its cycle once they are adopted and completed. */
  lemma CycleStands(rs: seq<Reminder>, k: Key, q: Request)
    requires Ordered(rs) && MineCycle(rs, k).Some?
    ensures MineCycle(Materialize(rs, k, q), k) == MineCycle(rs, k)
    ensures CycleFor(Materialize(rs, k, q), k, q.reminderCycle) == CycleFor(rs, k, q.reminderCycle)
  {
    hide Adopt, CycleFor, MineCycle;
    var adopted, after := Adopt(rs, k), Materialize(rs, k, q);
    AlertsAppend(adopted, FlatMap(q.thresholds, Missing(rs, k)), k, CycleFor(rs, k, q.reminderCycle), q.now);
    AdoptedFirst(rs, k);
    MineCycleIsFirst(rs, k);
    FirstOfPrefix(adopted, after, k, true);
    MineCycleIsFirst(after, k);
    CycleIsMine(rs, k, q.reminderCycle);
    CycleIsMine(after, k, q.reminderCycle);
  }

  lemma QuietStays(rs: seq<Reminder>, after: seq<Reminder>, k: Key, q: Request)
    requires Quiet(rs, k, q) && SameFor(rs, after, k) && KeepsSlots(rs, after)
    ensures Quiet(after, k, q)
  {
    hide Has, CycleFor, Taken, SameFor, KeepsSlots, MineCycle, NoOrphan;
    SameHas(rs, after, k, 0);
    forall offset | offset in q.thresholds
      ensures Settles(after, k, offset, q.reminderCycle)
    {
      assert Settles(rs, k, offset, q.reminderCycle);
      SameHas(rs, after, k, offset);
      if !Has(rs, k, offset) {
        if MineCycle(rs, k).None? {
          FreshCycle(rs, k, q.reminderCycle, offset);
        } else {
          SameCycle(rs, after, k);
          CycleIsMine(rs, k, q.reminderCycle);
          CycleIsMine(after, k, q.reminderCycle);
          TakenStays(rs, after, k.kind, offset, CycleFor(rs, k, q.reminderCycle));
        }
      }
    }
  }

  // ------------------------------------------------------------------ the other deadlines

  lemma ReviveIsSame(rs: seq<Reminder>, k: Key, now: Instant, j: Key)
    ensures SameFor(rs, Revive(rs, k, now), j) && KeepsSlots(rs, Revive(rs, k, now))
    ensures Ordered(rs) ==> Ordered(Revive(rs, k, now))
  {
    var after := Revive(rs, k, now);
    if Ordered(rs) {
      forall i, l | 0 <= i < l < |after|
        ensures !Overtakes(after[i], after[l])
      {
        assert !Overtakes(rs[i], rs[l]);
      }
    }
  }

  lemma CancelIsSame(rs: seq<Reminder>, keys: set<Key>, j: Key)
    ensures SameFor(rs, CancelAll(rs, keys), j) && KeepsSlots(rs, CancelAll(rs, keys)) && KeepsSlots(CancelAll(rs, keys), rs)
    ensures Ordered(rs) ==> Ordered(CancelAll(rs, keys))
  {
    var after := CancelAll(rs, keys);
    if Ordered(rs) {
      forall i, l | 0 <= i < l < |after|
        ensures !Overtakes(after[i], after[l])
      {
        assert !Overtakes(rs[i], rs[l]);
      }
    }
  }

  lemma MaterializeIsLocal(rs: seq<Reminder>, k: Key, q: Request, j: Key)
    ensures KeepsSlots(rs, Materialize(rs, k, q))
    ensures j != k ==> SameFor(rs, Materialize(rs, k, q), j)
  {
    hide CycleFor, Missing;
    var adopted, missing, cycle := Adopt(rs, k), FlatMap(q.thresholds, Missing(rs, k)), CycleFor(rs, k, q.reminderCycle);
    var after := Materialize(rs, k, q);
    AlertsAppend(adopted, missing, k, cycle, q.now);
    assert forall i :: 0 <= i < |rs| ==> after[i] == adopted[i];
    forall i | |rs| <= i < |after|
      ensures j != k ==> Foreign(after[i], j)
    {
      assert AddedFor(adopted, after[i], missing, k, cycle, q.now);
    }
  }

  lemma MaterializeKeepsOrder(rs: seq<Reminder>, k: Key, q: Request)
    requires Ordered(rs)
    ensures Ordered(Materialize(rs, k, q))
  {
    hide CycleFor, Missing;
    var adopted, missing, cycle := Adopt(rs, k), FlatMap(q.thresholds, Missing(rs, k)), CycleFor(rs, k, q.reminderCycle);
    var after := Materialize(rs, k, q);
    AlertsAppend(adopted, missing, k, cycle, q.now);
    AdoptSettles(rs, k);
    forall i, l | 0 <= i < l < |after|
      ensures !Overtakes(after[i], after[l])
    {
      if l < |rs| {
        assert after[i] == adopted[i] && after[l] == adopted[l] && !Overtakes(rs[i], rs[l]) && !Orphan(adopted[i], k);
      } else {
        assert AddedFor(adopted, after[l], missing, k, cycle, q.now);
        if i < |rs| {
          assert after[i] == adopted[i] && !Orphan(adopted[i], k);
        } else {
          assert AddedFor(adopted, after[i], missing, k, cycle, q.now);
        }
      }
    }
  }

  lemma WantedIsLocal(rs: seq<Reminder>, before: map<Key, Status>, k: Key, q: Request, j: Key)
    ensures KeepsSlots(rs, ForWanted(rs, before, k, q))
    ensures j != k ==> SameFor(rs, ForWanted(rs, before, k, q), j)
    ensures Ordered(rs) ==> Ordered(ForWanted(rs, before, k, q))
  {
    hide Materialize, Revive, Ordered, SameFor;
    var revived := if k in before && before[k] == OBSOLETE then Revive(rs, k, q.now) else rs;
    ReviveIsSame(rs, k, q.now, j);
    SameForItself(rs, j);
    if !q.Past(k) {
      MaterializeIsLocal(revived, k, q, j);
      if j != k {
        SameForTransitive(rs, revived, Materialize(revived, k, q), j);
      }
      if Ordered(rs) {
        MaterializeKeepsOrder(revived, k, q);
      }
    }
  }

  lemma SameForItself(rs: seq<Reminder>, k: Key)
    ensures SameFor(rs, rs, k)
  {
  }

  lemma {:induction false} AllWantedAreLocal(rs: seq<Reminder>, before: map<Key, Status>, wanted: seq<Key>, q: Request, j: Key)
    ensures KeepsSlots(rs, ForAllWanted(rs, before, wanted, q))
    ensures j !in wanted ==> SameFor(rs, ForAllWanted(rs, before, wanted, q), j)
    ensures Ordered(rs) ==> Ordered(ForAllWanted(rs, before, wanted, q))
  {
    hide ForWanted, Ordered, SameFor;
    if wanted == [] {
      SameForItself(rs, j);
    } else {
      var init, k := wanted[..|wanted| - 1], wanted[|wanted| - 1];
      AllWantedAreLocal(rs, before, init, q, j);
      var mid := ForAllWanted(rs, before, init, q);
      WantedIsLocal(mid, before, k, q, j);
      if j !in wanted {
        assert k in wanted && forall w :: w in init ==> w in wanted;
        SameForTransitive(rs, mid, ForWanted(mid, before, k, q), j);
      }
    }
  }

  // ------------------------------------------------------------------------ a second run

  lemma WantedSettles(rs: seq<Reminder>, before: map<Key, Status>, k: Key, q: Request)
    requires Ordered(rs) && !q.Past(k)
    ensures Quiet(ForWanted(rs, before, k, q), k, q)
  {
    hide Materialize, Revive, Ordered, SameFor, Quiet;
    ReviveIsSame(rs, k, q.now, k);
    MaterializeSettles(if k in before && before[k] == OBSOLETE then Revive(rs, k, q.now) else rs, k, q);
  }

  /** Once all computed deadlines have been dealt with, none of those to come needs anything more. */
  lemma {:induction false} AllSettle(rs: seq<Reminder>, before: map<Key, Status>, wanted: seq<Key>, q: Request)
    requires Ordered(rs)
    ensures forall k :: k in wanted && !q.Past(k) ==> Quiet(ForAllWanted(rs, before, wanted, q), k, q)
  {
    hide ForWanted, Ordered, SameFor, Quiet, KeepsSlots;
    if wanted != [] {
      var init, last := wanted[..|wanted| - 1], wanted[|wanted| - 1];
      AllSettle(rs, before, init, q);
      AllWantedAreLocal(rs, before, init, q, last);
      var mid := ForAllWanted(rs, before, init, q);
      forall k | k in wanted && !q.Past(k)
        ensures Quiet(ForWanted(mid, before, last, q), k, q)
      {
        if k == last {
          WantedSettles(mid, before, last, q);
        } else {
          assert wanted == init + [last];
          WantedIsLocal(mid, before, last, q, k);
          QuietStays(mid, ForWanted(mid, before, last, q), k, q);
        }
      }
    }
  }

  lemma {:induction false} NothingLeftToDo(rs: seq<Reminder>, before: map<Key, Status>, wanted: seq<Key>, q: Request)
    requires forall k :: k in wanted ==> k in before && before[k] != OBSOLETE
    requires forall k :: k in wanted && !q.Past(k) ==> Quiet(rs, k, q)
    ensures ForAllWanted(rs, before, wanted, q) == rs
  {
    if wanted != [] {
      var init, k := wanted[..|wanted| - 1], wanted[|wanted| - 1];
      assert k in wanted && forall w :: w in init ==> w in wanted;
      NothingLeftToDo(rs, before, init, q);
      if !q.Past(k) {
        QuietIsFixed(rs, k, q);
      }
    }
  }

  // ----------------------------------------------------------- thresholds left without one

  /** An earlier computed deadline of the same kind and cycle takes the slot first. */
  predicate TakesFirst(rs: seq<Reminder>, q: Request, j: nat, kind: Kind, offset: int, cycle: nat)
    requires j < |q.wanted|
  {
    var k := q.wanted[j];
    !q.Past(k) && k.kind == kind && MineCycle(rs, k) == Some(cycle) && !Has(rs, k, offset)
  }

  predicate OneTakesFirst(rs: seq<Reminder>, q: Request, n: nat, kind: Kind, offset: int, cycle: nat)
    requires n <= |q.wanted|
  {
    exists j :: 0 <= j < n && TakesFirst(rs, q, j, kind, offset, cycle)
  }

  /**
   * The slot of this threshold belongs to another: the deadline has reminders already, hence a cycle, none
   * for this threshold, and the slot of that cycle is held or goes to a deadline dealt with before it.
   */
  predicate SlotLost(rs: seq<Reminder>, q: Request, i: nat, offset: int)
    requires i < |q.wanted|
  {
    var k := q.wanted[i];
    var cycle := MineCycle(rs, k);
    && cycle.Some? && !Has(rs, k, offset)
    && (Taken(rs, k.kind, offset, cycle.value) || OneTakesFirst(rs, q, i, k.kind, offset, cycle.value))
  }

  lemma SlotStays(rs: seq<Reminder>, before: map<Key, Status>, k: Key, q: Request, kind: Kind, offset: int, cycle: nat)
    requires offset in q.thresholds
    ensures Taken(ForWanted(rs, before, k, q), kind, offset, cycle)
            <==> Taken(rs, kind, offset, cycle)
                 || (!q.Past(k) && kind == k.kind && !Has(rs, k, offset) && cycle == CycleAfterRevival(rs, before, k, q))
  {
    hide Materialize, CycleFor, Has, Taken;
    var revived := if k in before && before[k] == OBSOLETE then Revive(rs, k, q.now) else rs;
    ReviveIsSame(rs, k, q.now, k);
    SameForItself(rs, k);
    SameHas(rs, revived, k, offset);
    SameSlotsSameTaken(rs, revived, kind, offset, cycle);
    if !q.Past(k) {
      MaterializedTaken(revived, k, q, kind, offset, cycle);
    }
  }

  function CycleAfterRevival(rs: seq<Reminder>, before: map<Key, Status>, k: Key, q: Request): nat {
    CycleFor(if k in before && before[k] == OBSOLETE then Revive(rs, k, q.now) else rs, k, q.reminderCycle)
  }

  lemma SameSlotsSameTaken(rs: seq<Reminder>, after: seq<Reminder>, kind: Kind, offset: int, cycle: nat)
    requires KeepsSlots(rs, after) && |rs| == |after|
    ensures Taken(after, kind, offset, cycle) <==> Taken(rs, kind, offset, cycle)
  {
    assert KeepsSlots(after, rs);
    if Taken(rs, kind, offset, cycle) {
      TakenStays(rs, after, kind, offset, cycle);
    }
    if Taken(after, kind, offset, cycle) {
      TakenStays(after, rs, kind, offset, cycle);
    }
  }

  /** Some reminder of this kind has this cycle. */
  predicate HasCycle(rs: seq<Reminder>, kind: Kind, cycle: nat, at: nat) {
    at < |rs| && rs[at].kind == kind && rs[at].cycle == cycle
  }

  lemma MineIsThere(rs: seq<Reminder>, k: Key) returns (at: nat)
    requires MineCycle(rs, k).Some?
    ensures HasCycle(rs, k.kind, MineCycle(rs, k).value, at)
  {
    hide MineCycle;
    MineCycleIsFirst(rs, k);
    at := FirstIsThere(rs, k, FirstCycle(rs, k, true).Some?);
  }

  /** Whether a deadline takes a given cycle of its kind can be told before the run, when some reminder has it. */
  lemma CycleForetold(
      start: seq<Reminder>, rs: seq<Reminder>, before: map<Key, Status>, k: Key, q: Request, kind: Kind, cycle: nat, at: nat)
    requires SameFor(start, rs, k) && kind == k.kind && HasCycle(rs, kind, cycle, at)
    ensures CycleAfterRevival(rs, before, k, q) == cycle <==> MineCycle(start, k) == Some(cycle)
  {
    hide CycleFor, MineCycle, Taken;
    var revived := if k in before && before[k] == OBSOLETE then Revive(rs, k, q.now) else rs;
    ReviveIsSame(rs, k, q.now, k);
    SameForItself(rs, k);
    SameCycle(start, rs, k);
    SameCycle(rs, revived, k);
    if MineCycle(revived, k).None? {
      FreshCycle(revived, k, q.reminderCycle, 0);
      assert SameSlot(revived[at], rs[at]);
    } else {
      CycleIsMine(revived, k, q.reminderCycle);
    }
  }

  /** The slots taken when a deadline's turn comes: those of the start and those of earlier deadlines. */
  lemma {:induction false} TakenAtTurn(
      start: seq<Reminder>, before: map<Key, Status>, q: Request, n: nat, kind: Kind, offset: int, cycle: nat, at: nat)
    requires Distinct(q.wanted) && n <= |q.wanted| && offset in q.thresholds && HasCycle(start, kind, cycle, at)
    ensures Taken(ForAllWanted(start, before, q.wanted[..n], q), kind, offset, cycle)
            <==> Taken(start, kind, offset, cycle) || OneTakesFirst(start, q, n, kind, offset, cycle)
  {
    hide ForWanted, MineCycle, Taken, SameFor, Has, CycleAfterRevival;
    if n > 0 {
      var m, k := n - 1, q.wanted[n - 1];
      assert q.wanted[..n][..m] == q.wanted[..m] && q.wanted[..n][m] == k;
      assert k !in q.wanted[..m];
      TakenAtTurn(start, before, q, m, kind, offset, cycle, at);
      var rs := ForAllWanted(start, before, q.wanted[..m], q);
      AllWantedAreLocal(start, before, q.wanted[..m], q, k);
      assert SameSlot(rs[at], start[at]);
      SlotStays(rs, before, k, q, kind, offset, cycle);
      SameHas(start, rs, k, offset);
      if k.kind == kind {
        CycleForetold(start, rs, before, k, q, k.kind, cycle, at);
      }
      assert OneTakesFirst(start, q, n, kind, offset, cycle)
             <==> OneTakesFirst(start, q, m, kind, offset, cycle) || TakesFirst(start, q, m, kind, offset, cycle);
    }
  }

  lemma WantedOwns(rs: seq<Reminder>, before: map<Key, Status>, k: Key, q: Request, offset: int)
    requires offset in q.thresholds && !q.Past(k)
    ensures MineCycle(rs, k).None? ==> Owns(ForWanted(rs, before, k, q), k, offset)
    ensures MineCycle(rs, k).Some? ==> (Owns(ForWanted(rs, before, k, q), k, offset)
                                        <==> Has(rs, k, offset) || !Taken(rs, k.kind, offset, MineCycle(rs, k).value))
  {
    hide Materialize, CycleFor, Has, Taken, MineCycle;
    var revived := if k in before && before[k] == OBSOLETE then Revive(rs, k, q.now) else rs;
    ReviveIsSame(rs, k, q.now, k);
    SameForItself(rs, k);
    SameHas(rs, revived, k, offset);
    SameCycle(rs, revived, k);
    MaterializedOwns(revived, k, q, offset);
    if MineCycle(rs, k).None? {
      FreshCycle(revived, k, q.reminderCycle, offset);
    } else {
      CycleIsMine(revived, k, q.reminderCycle);
      SameSlotsSameTaken(rs, revived, k.kind, offset, MineCycle(rs, k).value);
    }
  }

  /** A deadline to come ends with a reminder of its own for a threshold exactly when its slot is not lost. */
  lemma OwnedExactly(start: seq<Reminder>, before: map<Key, Status>, q: Request, i: nat, offset: int)
    requires Distinct(q.wanted) && i < |q.wanted| && !q.Past(q.wanted[i]) && offset in q.thresholds
    ensures Owns(ForAllWanted(start, before, q.wanted, q), q.wanted[i], offset) <==> !SlotLost(start, q, i, offset)
  {
    hide ForWanted, MineCycle, Taken, SameFor, KeepsSlots, Has, Owns, OneTakesFirst;
    var k := q.wanted[i];
    assert k !in q.wanted[..i];
    var rs := ForAllWanted(start, before, q.wanted[..i], q);
    AllWantedAreLocal(start, before, q.wanted[..i], q, k);
    SameCycle(start, rs, k);
    SameHas(start, rs, k, offset);
    WantedOwns(rs, before, k, q, offset);
    if MineCycle(start, k).Some? {
      var at := MineIsThere(start, k);
      TakenAtTurn(start, before, q, i, k.kind, offset, MineCycle(start, k).value, at);
    }
    assert q.wanted[..i + 1] == q.wanted[..i] + [k] && q.wanted[..i + 1][..i] == q.wanted[..i];
    OwnedStays(start, before, q, i, |q.wanted|, offset);
    assert q.wanted[..|q.wanted|] == q.wanted;
  }

  /** Later deadlines leave what a deadline owns. */
  lemma {:induction false} OwnedStays(start: seq<Reminder>, before: map<Key, Status>, q: Request, i: nat, n: nat, offset: int)
    requires Distinct(q.wanted) && i < n <= |q.wanted|
    ensures Owns(ForAllWanted(start, before, q.wanted[..n], q), q.wanted[i], offset)
            <==> Owns(ForAllWanted(start, before, q.wanted[..i + 1], q), q.wanted[i], offset)
  {
    hide ForWanted, SameFor, KeepsSlots, Owns;
    if n > i + 1 {
      OwnedStays(start, before, q, i, n - 1, offset);
      assert q.wanted[..n][..n - 1] == q.wanted[..n - 1] && q.wanted[..n][n - 1] == q.wanted[n - 1];
      var rs := ForAllWanted(start, before, q.wanted[..n - 1], q);
      WantedIsLocal(rs, before, q.wanted[n - 1], q, q.wanted[i]);
      SameHas(rs, ForWanted(rs, before, q.wanted[n - 1], q), q.wanted[i], offset);
    }
  }

  // ------------------------------------------------------------- cycles that have one owner

  /** Every reminder belongs to a deadline, and no two deadlines of a kind share a cycle. */
  ghost predicate OneOwner(rs: seq<Reminder>) {
    && (forall i :: 0 <= i < |rs| ==> Owned(rs[i]))
    && (forall i, j :: 0 <= i < |rs| && 0 <= j < |rs| ==> Compatible(rs[i], rs[j]))
  }

  predicate Owned(r: Reminder) {
    r.deadline.Some? && r.deadline.value.kind == r.kind
  }

  predicate Compatible(r: Reminder, s: Reminder) {
    r.kind == s.kind && r.cycle == s.cycle ==> r.deadline == s.deadline
  }

  /** No threshold is lost in such a table: its own reminders are the only ones in a deadline's cycle. */
  lemma OneOwnerLosesNothing(rs: seq<Reminder>, q: Request, i: nat, offset: int)
    requires OneOwner(rs) && Distinct(q.wanted) && i < |q.wanted|
    ensures !SlotLost(rs, q, i, offset)
  {
    hide MineCycle, Has, Taken, OneOwner;
    var k := q.wanted[i];
    if MineCycle(rs, k).Some? {
      var cycle := MineCycle(rs, k).value;
      if Taken(rs, k.kind, offset, cycle) {
        HolderIsOwner(rs, k, offset);
      }
      forall j | 0 <= j < i
        ensures !TakesFirst(rs, q, j, k.kind, offset, cycle)
      {
        if MineCycle(rs, q.wanted[j]) == Some(cycle) && q.wanted[j].kind == k.kind {
          CyclesDiffer(rs, q.wanted[j], k);
        }
      }
    }
  }

  lemma HolderIsOwner(rs: seq<Reminder>, k: Key, offset: int)
    requires OneOwner(rs) && MineCycle(rs, k).Some? && Taken(rs, k.kind, offset, MineCycle(rs, k).value)
    ensures Has(rs, k, offset)
  {
    hide MineCycle;
    var m := OwnerOfCycle(rs, k);
    var r :| r in rs && r.kind == k.kind && r.offsetDays == offset && r.cycle == MineCycle(rs, k).value;
    var l :| 0 <= l < |rs| && rs[l] == r;
    assert Compatible(rs[l], rs[m]);
  }

  lemma CyclesDiffer(rs: seq<Reminder>, j: Key, k: Key)
    requires OneOwner(rs) && j.kind == k.kind && MineCycle(rs, k).Some? && MineCycle(rs, j) == MineCycle(rs, k)
    ensures j == k
  {
    hide MineCycle;
    var l := OwnerOfCycle(rs, j);
    var m := OwnerOfCycle(rs, k);
    assert Compatible(rs[l], rs[m]);
  }

  lemma OwnerOfCycle(rs: seq<Reminder>, k: Key) returns (i: nat)
    requires OneOwner(rs) && MineCycle(rs, k).Some?
    ensures i < |rs| && rs[i].kind == k.kind && rs[i].deadline == Some(k) && MineCycle(rs, k) == Some(rs[i].cycle)
  {
    hide MineCycle;
    MineCycleIsFirst(rs, k);
    i := FirstIsThere(rs, k, FirstCycle(rs, k, true).Some?);
    assert Owned(rs[i]);
  }

  lemma MaterializeKeepsOwners(rs: seq<Reminder>, k: Key, q: Request)
    requires OneOwner(rs)
    ensures OneOwner(Materialize(rs, k, q))
  {
    hide CycleFor, Missing, MineCycle, Taken;
    var missing, cycle := FlatMap(q.thresholds, Missing(rs, k)), CycleFor(rs, k, q.reminderCycle);
    assert Adopt(rs, k) == rs by { assert forall i :: 0 <= i < |rs| ==> Owned(rs[i]); }
    var after := Materialize(rs, k, q);
    AlertsAppend(rs, missing, k, cycle, q.now);
    forall i | 0 <= i < |rs|
      ensures rs[i].kind == k.kind && rs[i].cycle == cycle ==> rs[i].deadline == Some(k)
    {
      if MineCycle(rs, k).Some? {
        var m := OwnerOfCycle(rs, k);
        CycleIsMine(rs, k, q.reminderCycle);
        assert Compatible(rs[i], rs[m]);
      } else {
        FreshCycle(rs, k, q.reminderCycle, 0);
      }
    }
    forall i | 0 <= i < |after|
      ensures Owned(after[i]) && (i >= |rs| ==> after[i].kind == k.kind && after[i].cycle == cycle && after[i].deadline == Some(k))
    {
      if i < |rs| {
        assert after[i] == rs[i] && Owned(rs[i]);
      } else {
        assert AddedFor(rs, after[i], missing, k, cycle, q.now);
      }
    }
    forall i, j | 0 <= i < |after| && 0 <= j < |after|
      ensures Compatible(after[i], after[j])
    {
      if i < |rs| && j < |rs| {
        assert Compatible(rs[i], rs[j]);
      }
    }
  }

  lemma SameOwners(rs: seq<Reminder>, after: seq<Reminder>)
    requires |rs| == |after| && forall i :: 0 <= i < |rs| ==> SameSlot(after[i], rs[i]) && after[i].deadline == rs[i].deadline
    requires OneOwner(rs)
    ensures OneOwner(after)
  {
    forall i | 0 <= i < |after|
      ensures Owned(after[i])
    {
      assert Owned(rs[i]);
    }
    forall i, j | 0 <= i < |after| && 0 <= j < |after|
      ensures Compatible(after[i], after[j])
    {
      assert Compatible(rs[i], rs[j]);
    }
  }

  lemma {:induction false} AllWantedKeepOwners(rs: seq<Reminder>, before: map<Key, Status>, wanted: seq<Key>, q: Request)
    requires OneOwner(rs)
    ensures OneOwner(ForAllWanted(rs, before, wanted, q))
  {
    hide OneOwner, Materialize;
    if wanted != [] {
      var init, k := wanted[..|wanted| - 1], wanted[|wanted| - 1];
      AllWantedKeepOwners(rs, before, init, q);
      var mid := ForAllWanted(rs, before, init, q);
      SameOwners(mid, Revive(mid, k, q.now));
      MaterializeKeepsOwners(if k in before && before[k] == OBSOLETE then Revive(mid, k, q.now) else mid, k, q);
    }
  }
}

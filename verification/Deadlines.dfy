/**
 * Reconciliation of one contract's deadlines and reminders with what the domain computes
 * (apps/api/src/deadlines/deadlines.service.ts). Instants are milliseconds, due dates UTC day numbers;
 * a deadline is identified by its kind and due date, which the table declares unique.
 */
module Deadlines {
  import opened Outcomes
  import opened Sums

  const DAY_MS: int := 86_400_000

  type Instant = int

  function DayOf(t: Instant): int { t / DAY_MS }

  datatype Kind = PERIOD_END | NOTICE_DEADLINE | PRICE_REVISION | RENEWAL_DECISION | CHATEL_NOTICE | TERMINATION_EFFECTIVE

  datatype Key = Key(kind: Kind, due: int)

  datatype Status = OPEN | DONE | OBSOLETE

  datatype ReminderStatus = PENDING | SENT | CANCELLED | SKIPPED_OBSOLETE

  /** A reminder; `deadline` is absent on those made before the schedule of deadlines existed. */
  datatype Reminder = Reminder(kind: Kind, offsetDays: int, cycle: nat, dueAt: Instant, status: ReminderStatus, deadline: Option<Key>)

  datatype Table = Table(deadlines: map<Key, Status>, reminders: seq<Reminder>)

  /** One recalculation: what the domain wants, at an instant, with the thresholds of the tenant. */
  datatype Request = Request(wanted: seq<Key>, thresholds: seq<int>, now: Instant, reminderCycle: nat) {
    function Today(): int { DayOf(now) }

    predicate Past(k: Key) { k.due < Today() }

    /** The computed deadlines are held in a map by kind and day. */
    ghost predicate Valid() { Distinct(wanted) }
  }

  // ------------------------------------------------------------------- deadlines

  /** Where a deadline stands after the recalculation. */
  function Settled(before: Option<Status>, isWanted: bool, past: bool): Option<Status> {
    if isWanted then
      if past then Some(DONE)
      else if before == Some(DONE) then Some(DONE)
      else Some(OPEN)
    else if before == Some(OPEN) then Some(OBSOLETE)
    else before
  }

  function StatusOf(deadlines: map<Key, Status>, k: Key): Option<Status> {
    if k in deadlines then Some(deadlines[k]) else None
  }

  /** Is a computed deadline new, or revived from obsolescence? */
  predicate Appears(deadlines: map<Key, Status>, k: Key) { k !in deadlines || deadlines[k] == OBSOLETE }

  predicate Vanishes(deadlines: map<Key, Status>, k: Key, wanted: seq<Key>) {
    k in deadlines && deadlines[k] == OPEN && k !in wanted
  }

  function VanishingKeys(deadlines: map<Key, Status>, wanted: seq<Key>): set<Key> {
    set k | k in deadlines && Vanishes(deadlines, k, wanted)
  }

  function AppearingKeys(deadlines: map<Key, Status>, wanted: seq<Key>): set<Key> {
    set k | k in wanted && Appears(deadlines, k)
  }

  // ------------------------------------------------------------------- reminders

  /** An obsolete deadline cancels its pending reminders. */
  function Cancelled(r: Reminder, keys: set<Key>): Reminder {
    if r.status == PENDING && r.deadline.Some? && r.deadline.value in keys then r.(status := CANCELLED) else r
  }

  function CancelAll(rs: seq<Reminder>, keys: set<Key>): (after: seq<Reminder>)
    ensures |after| == |rs|
  {
    seq(|rs|, i requires 0 <= i < |rs| => Cancelled(rs[i], keys))
  }

  /** A revived deadline revives its cancelled reminders still to come. */
  function Revive(rs: seq<Reminder>, k: Key, now: Instant): seq<Reminder> {
    seq(|rs|, i requires 0 <= i < |rs| =>
      if rs[i].deadline == Some(k) && rs[i].status == CANCELLED && rs[i].dueAt > now then rs[i].(status := PENDING) else rs[i])
  }

  predicate Orphan(r: Reminder, k: Key) {
    r.kind == k.kind && r.deadline.None? && DayOf(r.dueAt) + r.offsetDays == k.due
  }

  /** Unattached reminders that match a deadline are adopted, not duplicated. */
  function Adopt(rs: seq<Reminder>, k: Key): seq<Reminder> {
    seq(|rs|, i requires 0 <= i < |rs| => if Orphan(rs[i], k) then rs[i].(deadline := Some(k)) else rs[i])
  }

  function Attached(k: Key): Reminder -> seq<Reminder> {
    (r: Reminder) => if r.kind == k.kind && r.deadline == Some(k) then [r] else []
  }

  function Orphans(k: Key): Reminder -> seq<Reminder> {
    (r: Reminder) => if Orphan(r, k) then [r] else []
  }

  function MaxCycle(rs: seq<Reminder>, kind: Kind): Option<nat> {
    if rs == [] then None
    else
      var before, r := MaxCycle(rs[..|rs| - 1], kind), rs[|rs| - 1];
      if r.kind == kind && (before.None? || r.cycle > before.value) then Some(r.cycle) else before
  }

  /** The cycle of the reminders a deadline already has, else one above those of its kind. */
  function CycleFor(rs: seq<Reminder>, k: Key, reminderCycle: nat): nat {
    var mine := FlatMap(rs, Attached(k)) + FlatMap(rs, Orphans(k));
    var highest := MaxCycle(rs, k.kind);
    if mine != [] then mine[0].cycle else if highest.Some? then highest.value + 1 else reminderCycle
  }

  predicate Has(rs: seq<Reminder>, k: Key, offset: int) {
    exists r :: r in rs && r.kind == k.kind && r.offsetDays == offset && (r.deadline == Some(k) || Orphan(r, k))
  }

  predicate Taken(rs: seq<Reminder>, kind: Kind, offset: int, cycle: nat) {
    exists r :: r in rs && r.kind == kind && r.offsetDays == offset && r.cycle == cycle
  }

  function Alert(k: Key, offset: int, cycle: nat, now: Instant): Reminder {
    var dueAt := (k.due - offset) * DAY_MS;
    Reminder(k.kind, offset, cycle, dueAt, if dueAt <= now then SKIPPED_OBSOLETE else PENDING, Some(k))
  }

  /** One row per missing threshold; a row that the uniqueness constraint refuses is skipped. */
  function AddAlerts(rs: seq<Reminder>, missing: seq<int>, k: Key, cycle: nat, now: Instant): seq<Reminder> {
    if missing == [] then rs
    else
      var before, offset := AddAlerts(rs, missing[..|missing| - 1], k, cycle, now), missing[|missing| - 1];
      if Taken(before, k.kind, offset, cycle) then before else before + [Alert(k, offset, cycle, now)]
  }

  function Missing(rs: seq<Reminder>, k: Key): int -> seq<int> {
    (offset: int) => if Has(rs, k, offset) then [] else [offset]
  }

  function Materialize(rs: seq<Reminder>, k: Key, q: Request): seq<Reminder> {
    AddAlerts(Adopt(rs, k), FlatMap(q.thresholds, Missing(rs, k)), k, CycleFor(rs, k, q.reminderCycle), q.now)
  }

  /** What one computed deadline does to the reminders, given where it stood before. */
  function ForWanted(rs: seq<Reminder>, before: map<Key, Status>, k: Key, q: Request): seq<Reminder> {
    var revived := if k in before && before[k] == OBSOLETE then Revive(rs, k, q.now) else rs;
    if q.Past(k) then revived else Materialize(revived, k, q)
  }

  function ForAllWanted(rs: seq<Reminder>, before: map<Key, Status>, wanted: seq<Key>, q: Request): seq<Reminder> {
    if wanted == [] then rs
    else ForWanted(ForAllWanted(rs, before, wanted[..|wanted| - 1], q), before, wanted[|wanted| - 1], q)
  }

  // ---------------------------------------------------------------- recalculation

  function SettledDeadlines(before: map<Key, Status>, q: Request): map<Key, Status> {
    map k | k in before.Keys + (set w | w in q.wanted) :: Settled(StatusOf(before, k), k in q.wanted, q.Past(k)).GetOr(OPEN)
  }

  function Recomputed(t: Table, q: Request): Table {
    Table(SettledDeadlines(t.deadlines, q),
          ForAllWanted(CancelAll(t.reminders, VanishingKeys(t.deadlines, q.wanted)), t.deadlines, q.wanted, q))
  }

  function WithoutVanished(before: map<Key, Status>, wanted: seq<Key>): map<Key, Status> {
    map k | k in before :: if Vanishes(before, k, wanted) then OBSOLETE else before[k]
  }

  /** Where a deadline stands once the first `n` computed ones have been dealt with. */
  function Standing(before: map<Key, Status>, q: Request, n: nat, k: Key): Option<Status>
    requires n <= |q.wanted|
  {
    if k in q.wanted[..n] then Settled(StatusOf(before, k), true, q.Past(k))
    else if Vanishes(before, k, q.wanted) then Some(OBSOLETE)
    else StatusOf(before, k)
  }

  function Progress(before: map<Key, Status>, q: Request, n: nat): map<Key, Status>
    requires n <= |q.wanted|
  {
    map k | k in before.Keys + (set w | w in q.wanted) && Standing(before, q, n, k).Some? :: Standing(before, q, n, k).value
  }

  lemma ProgressStart(before: map<Key, Status>, q: Request)
    ensures Progress(before, q, 0) == WithoutVanished(before, q.wanted)
  {
  }

  lemma ProgressEnd(before: map<Key, Status>, q: Request)
    ensures Progress(before, q, |q.wanted|) == SettledDeadlines(before, q)
  {
    assert q.wanted[..|q.wanted|] == q.wanted;
  }

  lemma StandingStep(before: map<Key, Status>, q: Request, i: nat, j: Key)
    requires Distinct(q.wanted) && i < |q.wanted|
    ensures var k := q.wanted[i];
            Standing(before, q, i + 1, j)
            == if j != k then Standing(before, q, i, j)
               else if Appears(before, k) then Some(if q.Past(k) then DONE else OPEN)
               else if before[k] == OPEN && q.Past(k) then Some(DONE)
               else Standing(before, q, i, k)
    ensures j == q.wanted[i] ==> Standing(before, q, i, j) == StatusOf(before, j)
  {
    assert q.wanted[..i + 1] == q.wanted[..i] + [q.wanted[i]];
    assert q.wanted[i] !in q.wanted[..i] && q.wanted[i] in q.wanted;
    assert j in q.wanted[..i + 1] <==> j in q.wanted[..i] || j == q.wanted[i];
  }

  lemma ProgressStep(before: map<Key, Status>, q: Request, i: nat)
    requires Distinct(q.wanted) && i < |q.wanted|
    ensures var k := q.wanted[i];
            Progress(before, q, i + 1)
            == if Appears(before, k) then Progress(before, q, i)[k := if q.Past(k) then DONE else OPEN]
               else if before[k] == OPEN && q.Past(k) then Progress(before, q, i)[k := DONE]
               else Progress(before, q, i)
  {
    hide Standing;
    assert q.wanted[i] in q.wanted;
    forall j
      ensures var k := q.wanted[i];
              Standing(before, q, i + 1, j)
              == if j != k then Standing(before, q, i, j)
                 else if Appears(before, k) then Some(if q.Past(k) then DONE else OPEN)
                 else if before[k] == OPEN && q.Past(k) then Some(DONE)
                 else Standing(before, q, i, k)
      ensures j == q.wanted[i] ==> Standing(before, q, i, j) == StatusOf(before, j)
    {
      StandingStep(before, q, i, j);
    }
    var k, a, b := q.wanted[i], Progress(before, q, i + 1), Progress(before, q, i);
    StandingStep(before, q, i, k);
    assert forall j :: j in a <==> j in before.Keys + (set w | w in q.wanted) && Standing(before, q, i + 1, j).Some?;
    assert forall j :: j in b <==> j in before.Keys + (set w | w in q.wanted) && Standing(before, q, i, j).Some?;
    assert k in a.Keys + b.Keys + {k};
    assert forall j :: j in a && j != k ==> j in b && a[j] == b[j];
    assert forall j :: j in b && j != k ==> j in a;
    assert a == if k in a then b[k := a[k]] else b - {k};
    if Appears(before, k) {
      assert Standing(before, q, i + 1, k) == Some(if q.Past(k) then DONE else OPEN);
      assert k in a && a[k] == if q.Past(k) then DONE else OPEN;
      assert a == b[k := if q.Past(k) then DONE else OPEN];
    } else if before[k] == OPEN && q.Past(k) {
      assert a == b[k := DONE];
    } else {
      assert a == b;
    }
  }

  class Store {
    var deadlines: map<Key, Status>
    var reminders: seq<Reminder>

    function Contents(): Table
      reads this
    {
      Table(deadlines, reminders)
    }

    constructor ()
      ensures Contents() == Table(map[], [])
    {
      deadlines, reminders := map[], [];
    }

    method Recompute(q: Request) returns (created: nat, obsoleted: nat, remindersCreated: int)
      requires q.Valid()
      modifies this
      ensures Contents() == Recomputed(old(Contents()), q)
      ensures created == |AppearingKeys(old(deadlines), q.wanted)|
      ensures obsoleted == |VanishingKeys(old(deadlines), q.wanted)|
      ensures remindersCreated == |reminders| - |old(reminders)|
    {
      hide ForWanted, Progress, AppearingKeys, VanishingKeys, CancelAll, SettledDeadlines;
      var before := deadlines;
      obsoleted := ObsoleteVanished(q);
      created, remindersCreated := 0, 0;
      ProgressStart(before, q);
      assert AppearingKeys(before, q.wanted[..0]) == {} by { NothingAppears(before); }
      for i := 0 to |q.wanted|
        invariant deadlines == Progress(before, q, i)
        invariant reminders == ForAllWanted(CancelAll(old(reminders), VanishingKeys(before, q.wanted)), before, q.wanted[..i], q)
        invariant created == |AppearingKeys(before, q.wanted[..i])|
        invariant remindersCreated == |reminders| - |old(reminders)|
      {
        assert q.wanted[..i + 1][..i] == q.wanted[..i];
        OneMoreAppears(before, q.wanted, i);
        ProgressStep(before, q, i);
        var k := q.wanted[i];
        var count := |reminders|;
        reminders := ForWanted(reminders, before, k, q);
        remindersCreated := remindersCreated + |reminders| - count;
        if Appears(before, k) {
          deadlines := deadlines[k := if q.Past(k) then DONE else OPEN];
          created := created + 1;
        } else if before[k] == OPEN && q.Past(k) {
          deadlines := deadlines[k := DONE];
        }
      }
      assert q.wanted[..|q.wanted|] == q.wanted;
      ProgressEnd(before, q);
    }

    /** Open deadlines no longer computed become obsolete, with their pending reminders. */
    method ObsoleteVanished(q: Request) returns (obsoleted: nat)
      modifies this
      ensures deadlines == WithoutVanished(old(deadlines), q.wanted)
      ensures reminders == CancelAll(old(reminders), VanishingKeys(old(deadlines), q.wanted))
      ensures obsoleted == |VanishingKeys(old(deadlines), q.wanted)|
    {
      hide Vanishes;
      var before := deadlines;
      var keys := VanishingKeys(before, q.wanted);
      var left := keys;
      obsoleted := 0;
      while left != {}
        invariant left <= keys
        invariant deadlines.Keys == before.Keys
        invariant forall k :: k in before ==> deadlines[k] == if k in keys - left then OBSOLETE else before[k]
        invariant reminders == CancelAll(old(reminders), keys - left)
        invariant obsoleted == |keys| - |left|
        decreases left
      {
        var k :| k in left;
        assert keys - (left - {k}) == (keys - left) + {k};
        CancelOneMore(old(reminders), keys - left, k);
        deadlines := deadlines[k := OBSOLETE];
        reminders := CancelAll(reminders, {k});
        left := left - {k};
        obsoleted := obsoleted + 1;
      }
      assert keys - left == keys;
    }
  }

  lemma CancelOneMore(rs: seq<Reminder>, keys: set<Key>, k: Key)
    ensures CancelAll(CancelAll(rs, keys), {k}) == CancelAll(rs, keys + {k})
  {
  }

  lemma NothingAppears(before: map<Key, Status>)
    ensures AppearingKeys(before, []) == {}
  {
  }

  lemma OneMoreAppears(before: map<Key, Status>, wanted: seq<Key>, i: nat)
    requires Distinct(wanted) && i < |wanted|
    ensures |AppearingKeys(before, wanted[..i + 1])| == |AppearingKeys(before, wanted[..i])| + (if Appears(before, wanted[i]) then 1 else 0)
  {
    assert wanted[..i + 1] == wanted[..i] + [wanted[i]];
    assert wanted[i] !in wanted[..i];
    if Appears(before, wanted[i]) {
      assert AppearingKeys(before, wanted[..i + 1]) == AppearingKeys(before, wanted[..i]) + {wanted[i]};
    } else {
      assert AppearingKeys(before, wanted[..i + 1]) == AppearingKeys(before, wanted[..i]);
    }
  }
}

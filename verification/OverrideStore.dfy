/**
 * Creation, approval, rejection and cancellation of overrides as interleaved reads and conditional
 * writes (apps/api/src/pricing/overrides.service.ts).
 */
module OverrideStore {
  import opened Outcomes
  import opened Sums
  import opened Calendar
  import opened Overrides

  datatype Status = PENDING_APPROVAL | ACTIVE | REJECTED | CANCELLED

  /** `given` is what the author asked for; the actors are filled in by the writes. */
  datatype Row = Row(
    given: PriceOverride, requiresSecondApproval: bool, status: Status,
    approvedBy: Option<string>, rejectedBy: Option<string>, cancelledBy: Option<string>)
  {
    function ToEngine(): PriceOverride { given.(approvedBy := approvedBy) }
  }

  type Rows = map<string, Row>

  datatype Request = Approve(user: string) | Reject(user: string) | Cancel(user: string)

  /** A request between its read and its write: what it saw. */
  datatype Flight = Flight(request: Request, id: string, seen: Status)

  datatype Event = Won(request: Request, id: string)

  // ------------------------------------------------------------------ what each step does

  /** `validateOverride`: a reason, a period in order, a readable price. */
  predicate ValidRequest(o: PriceOverride) {
    !Blank(o.reason) && ValidDay(o.validFrom) && ValidDay(o.validTo) && o.validFrom <= o.validTo && Price(o).Ok?
  }

  function NewRow(o: PriceOverride, computed: real, threshold: real): Row
    requires Price(o).Ok?
  {
    var needs := NeedsSecondApproval(GapPercent(Price(o).value, computed), threshold);
    Row(o.(approvedBy := None), needs, if needs then PENDING_APPROVAL else ACTIVE, None, None, None)
  }

  /** The read of a request, and the guards before its write: none when it stops there. */
  function ReadFor(rows: Rows, request: Request, id: string): Option<Flight> {
    if id !in rows then None
    else
      var o := rows[id];
      match request
      case Approve(user) =>
        if o.given.authorId == user || !(o.status == PENDING_APPROVAL || (o.status == ACTIVE && o.approvedBy.None?)) then None
        else Some(Flight(request, id, o.status))
      case Reject(user) => if o.given.authorId == user then None else Some(Flight(request, id, o.status))
      case Cancel(_) => Some(Flight(request, id, o.status))
  }

  /** Does the row still meet the condition of the update? */
  predicate Wins(rows: Rows, f: Flight) {
    f.id in rows &&
    match f.request
    case Approve(_) => rows[f.id].status == f.seen && rows[f.id].approvedBy.None?
    case Reject(_) => rows[f.id].status == PENDING_APPROVAL
    case Cancel(_) => rows[f.id].status in {PENDING_APPROVAL, ACTIVE}
  }

  function Written(o: Row, request: Request): Row {
    match request
    case Approve(user) => o.(status := ACTIVE, approvedBy := Some(user))
    case Reject(user) => o.(status := REJECTED, rejectedBy := Some(user))
    case Cancel(user) => o.(status := CANCELLED, cancelledBy := Some(user))
  }

  class Store {
    var rows: Rows
    var log: seq<Event>

    constructor ()
      ensures rows == map[] && log == []
    {
      rows, log := map[], [];
    }

    /** `id` is fresh: the original draws a new identifier for every creation. */
    method Create(id: string, o: PriceOverride, computed: real, threshold: real) returns (ok: bool)
      requires id !in rows
      modifies this
      ensures ok <==> ValidRequest(o)
      ensures rows == if ok then old(rows)[id := NewRow(o, computed, threshold)] else old(rows)
      ensures log == old(log)
    {
      ok := ValidRequest(o);
      if ok {
        rows := rows[id := NewRow(o, computed, threshold)];
      }
    }

    method Read(request: Request, id: string) returns (f: Option<Flight>)
      ensures f == ReadFor(rows, request, id)
    {
      if id !in rows {
        return None;
      }
      var o := rows[id];
      match request {
        case Approve(user) =>
          if o.given.authorId == user {
            return None;
          }
          var eligible := o.status == PENDING_APPROVAL || (o.status == ACTIVE && o.approvedBy.None?);
          if !eligible {
            return None;
          }
        case Reject(user) =>
          if o.given.authorId == user {
            return None;
          }
        case Cancel(_) =>
      }
      f := Some(Flight(request, id, o.status));
    }

    /** The conditional update: it counts one row, or the request has lost. */
    method Write(f: Flight) returns (won: bool)
      modifies this
      ensures won <==> Wins(old(rows), f)
      ensures rows == if won then old(rows)[f.id := Written(old(rows)[f.id], f.request)] else old(rows)
      ensures log == if won then old(log) + [Won(f.request, f.id)] else old(log)
    {
      won := Wins(rows, f);
      if won {
        rows := rows[f.id := Written(rows[f.id], f.request)];
        log := log + [Won(f.request, f.id)];
      }
    }
  }

  // ------------------------------------------------------------------ every interleaving

  /** The table, the requests in flight, and the writes won so far. */
  datatype World = World(rows: Rows, flights: map<nat, Flight>, log: seq<Event>)

  datatype Step =
    | Creates(id: string, given: PriceOverride, computed: real, threshold: real)
    | Reads(k: nat, request: Request, id: string)
    | Writes(k: nat)

  function Next(w: World, step: Step): World {
    match step
    case Creates(id, o, computed, threshold) =>
      if id in w.rows || !ValidRequest(o) then w else w.(rows := w.rows[id := NewRow(o, computed, threshold)])
    case Reads(k, request, id) =>
      var f := ReadFor(w.rows, request, id);
      if f.None? then w else w.(flights := w.flights[k := f.value])
    case Writes(k) =>
      if k !in w.flights then w
      else
        var f := w.flights[k];
        var landed := w.(flights := w.flights - {k});
        if Wins(w.rows, f) then landed.(rows := w.rows[f.id := Written(w.rows[f.id], f.request)], log := w.log + [Won(f.request, f.id)])
        else landed
  }

  const EMPTY := World(map[], map[], [])

  function RunFrom(w: World, steps: seq<Step>): World {
    if steps == [] then w else Next(RunFrom(w, steps[..|steps| - 1]), steps[|steps| - 1])
  }

  function Run(steps: seq<Step>): World { RunFrom(EMPTY, steps) }

  /** The constraints that the table itself declares on a row. */
  predicate RowConstraints(o: Row) {
    && (o.approvedBy.Some? ==> o.approvedBy.value != o.given.authorId)
    && (o.rejectedBy.Some? ==> o.rejectedBy.value != o.given.authorId)
    && match o.status
       case PENDING_APPROVAL => o.approvedBy.None? && o.rejectedBy.None? && o.cancelledBy.None?
       case ACTIVE => o.rejectedBy.None? && o.cancelledBy.None? && (o.requiresSecondApproval ==> o.approvedBy.Some?)
       case REJECTED => o.rejectedBy.Some? && o.approvedBy.None?
       case CANCELLED => o.cancelledBy.Some?
  }

  /** A flight's user may act on the row; an approval saw a state that can be approved. */
  predicate FlightSound(f: Flight, rows: Rows) {
    && f.id in rows
    && (!f.request.Cancel? ==> f.request.user != rows[f.id].given.authorId)
    && (f.request.Approve? ==> f.seen in {PENDING_APPROVAL, ACTIVE})
  }

  function ApprovalsOf(id: string): Event -> int {
    (e: Event) => if e.id == id && e.request.Approve? then 1 else 0
  }

  ghost predicate RowsSound(rows: Rows) {
    forall id :: id in rows ==> RowConstraints(rows[id]) && rows[id].given.approvedBy.None?
  }

  ghost predicate FlightsSound(flights: map<nat, Flight>, rows: Rows) {
    forall k :: k in flights ==> FlightSound(flights[k], rows)
  }

  /** The log tells who approved what, once. */
  ghost predicate LogSound(log: seq<Event>, rows: Rows) {
    && (forall e :: e in log ==> e.id in rows)
    && (forall id :: id in rows ==> SumBy(log, ApprovalsOf(id)) == if rows[id].approvedBy.Some? then 1 else 0)
    && (forall id :: id in rows && rows[id].approvedBy.Some? ==> Won(Approve(rows[id].approvedBy.value), id) in log)
  }

  ghost predicate Sound(w: World) {
    RowsSound(w.rows) && FlightsSound(w.flights, w.rows) && LogSound(w.log, w.rows)
  }

  /** A won write keeps the row's constraints. */
  lemma WrittenRow(rows: Rows, f: Flight)
    requires FlightSound(f, rows) && Wins(rows, f) && RowConstraints(rows[f.id])
    ensures RowConstraints(Written(rows[f.id], f.request))
    ensures Written(rows[f.id], f.request).given == rows[f.id].given
    ensures Written(rows[f.id], f.request).approvedBy == if f.request.Approve? then Some(f.request.user) else rows[f.id].approvedBy
  {
  }

  lemma CreatedIsSound(w: World, id: string, o: PriceOverride, computed: real, threshold: real)
    requires Sound(w) && id !in w.rows && ValidRequest(o)
    ensures Sound(Next(w, Creates(id, o, computed, threshold)))
  {
    NewRowIsSound(o, computed, threshold);
    hide NeedsSecondApproval, GapPercent, Price, ValidRequest, NewRow, RowConstraints, FlightsSound, LogSound;
    CreatedFlights(w.flights, w.rows, id, NewRow(o, computed, threshold));
    CreatedLog(w.log, w.rows, id, NewRow(o, computed, threshold));
  }

  lemma CreatedFlights(flights: map<nat, Flight>, rows: Rows, id: string, row: Row)
    requires FlightsSound(flights, rows) && id !in rows
    ensures FlightsSound(flights, rows[id := row])
  {
    forall k | k in flights
      ensures FlightSound(flights[k], rows[id := row])
    {
      assert FlightSound(flights[k], rows);
    }
  }

  lemma CreatedLog(log: seq<Event>, rows: Rows, id: string, row: Row)
    requires LogSound(log, rows) && id !in rows && row.approvedBy.None?
    ensures LogSound(log, rows[id := row])
  {
    hide SumBy, ApprovalsOf;
    forall e | e in log
      ensures ApprovalsOf(id)(e) == 0
    {
      NoEventYet(e, id);
    }
    SumByZero(log, ApprovalsOf(id));
  }

  lemma NewRowIsSound(o: PriceOverride, computed: real, threshold: real)
    requires ValidRequest(o)
    ensures RowConstraints(NewRow(o, computed, threshold)) && NewRow(o, computed, threshold).approvedBy.None?
    ensures NewRow(o, computed, threshold).given.approvedBy.None?
  {
    hide NeedsSecondApproval, GapPercent, Price;
  }

  lemma NoEventYet(e: Event, id: string)
    requires e.id != id
    ensures ApprovalsOf(id)(e) == 0
  {
  }

  lemma ReadIsSound(w: World, k: nat, request: Request, id: string)
    requires Sound(w)
    ensures Sound(Next(w, Reads(k, request, id)))
  {
    hide RowConstraints, LogSound;
    var f := ReadFor(w.rows, request, id);
    assert f.Some? ==> FlightSound(f.value, w.rows);
  }

  lemma WriteIsSound(w: World, k: nat)
    requires Sound(w)
    ensures Sound(Next(w, Writes(k)))
  {
    hide RowConstraints, FlightsSound, LogSound, Wins, Written, FlightSound;
    if k in w.flights {
      var f := w.flights[k];
      FlightIsSound(w, k);
      LandedFlights(w.flights, w.rows, k);
      if Wins(w.rows, f) {
        FlightId(f, w.rows);
        WrittenRow(w.rows, f);
        ApprovalWasFirst(w.rows, f);
        WrittenFlights(w.flights - {k}, w.rows, f.id, Written(w.rows[f.id], f.request));
        WrittenLog(w.log, w.rows, f);
      }
    }
  }

  lemma FlightIsSound(w: World, k: nat)
    requires Sound(w) && k in w.flights
    ensures FlightSound(w.flights[k], w.rows)
  {
  }

  lemma LandedFlights(flights: map<nat, Flight>, rows: Rows, k: nat)
    requires FlightsSound(flights, rows)
    ensures FlightsSound(flights - {k}, rows)
  {
    hide FlightSound;
  }

  lemma WrittenFlights(flights: map<nat, Flight>, rows: Rows, id: string, row: Row)
    requires FlightsSound(flights, rows) && id in rows && row.given == rows[id].given
    ensures FlightsSound(flights, rows[id := row])
  {
    hide FlightSound;
    forall k | k in flights
      ensures FlightSound(flights[k], rows[id := row])
    {
      SameAuthor(flights[k], rows, rows[id := row]);
    }
  }

  lemma WrittenLog(log: seq<Event>, rows: Rows, f: Flight)
    requires LogSound(log, rows) && f.id in rows && (f.request.Approve? ==> rows[f.id].approvedBy.None?)
    ensures LogSound(log + [Won(f.request, f.id)], rows[f.id := Written(rows[f.id], f.request)])
  {
    hide SumBy, ApprovalsOf;
    var e, after := Won(f.request, f.id), rows[f.id := Written(rows[f.id], f.request)];
    forall id | id in after
      ensures SumBy(log + [e], ApprovalsOf(id)) == if after[id].approvedBy.Some? then 1 else 0
    {
      OneMoreApproval(log, e, id);
    }
  }

  lemma OneMoreApproval(log: seq<Event>, e: Event, id: string)
    ensures SumBy(log + [e], ApprovalsOf(id)) == SumBy(log, ApprovalsOf(id)) + (if id == e.id && e.request.Approve? then 1 else 0)
  {
    SumByAppend(log, [e], ApprovalsOf(id));
    SumByOne(e, ApprovalsOf(id));
  }

  lemma FlightId(f: Flight, rows: Rows)
    requires FlightSound(f, rows)
    ensures f.id in rows
  {
  }

  lemma ApprovalWasFirst(rows: Rows, f: Flight)
    requires Wins(rows, f)
    ensures f.request.Approve? ==> rows[f.id].approvedBy.None?
  {
  }

  lemma SameAuthor(f: Flight, rows: Rows, after: Rows)
    requires FlightSound(f, rows) && rows.Keys == after.Keys && forall id :: id in rows ==> after[id].given == rows[id].given
    ensures FlightSound(f, after)
  {
  }

  lemma NextIsSound(w: World, step: Step)
    requires Sound(w)
    ensures Sound(Next(w, step))
  {
    hide Sound, Next;
    match step
    case Creates(id, o, computed, threshold) =>
      if id !in w.rows && ValidRequest(o) {
        CreatedIsSound(w, id, o, computed, threshold);
      } else {
        RefusedCreation(w, id, o, computed, threshold);
      }
    case Reads(k, request, id) => ReadIsSound(w, k, request, id);
    case Writes(k) => WriteIsSound(w, k);
  }

  lemma {:induction false} StaysSound(w: World, steps: seq<Step>)
    requires Sound(w)
    ensures Sound(RunFrom(w, steps))
  {
    hide Sound, Next;
    if steps != [] {
      StaysSound(w, steps[..|steps| - 1]);
      NextIsSound(RunFrom(w, steps[..|steps| - 1]), steps[|steps| - 1]);
    }
  }

  /** Over every interleaving the table keeps its constraints, and the log tells who approved what, once. */
  lemma RunsStaySound(steps: seq<Step>)
    ensures Sound(Run(steps))
  {
    EmptyIsSound();
    StaysSound(EMPTY, steps);
  }

  lemma RefusedCreation(w: World, id: string, o: PriceOverride, computed: real, threshold: real)
    requires id in w.rows || !ValidRequest(o)
    ensures Next(w, Creates(id, o, computed, threshold)) == w
  {
  }

  lemma EmptyIsSound()
    ensures Sound(EMPTY)
  {
  }

  /** However requests interleave, an override is approved at most once, and never by its author. */
  lemma AtMostOneApprovalWins(steps: seq<Step>, id: string)
    requires id in Run(steps).rows
    ensures var w := Run(steps);
            && SumBy(w.log, ApprovalsOf(id)) <= 1
            && (w.rows[id].approvedBy.Some? <==> SumBy(w.log, ApprovalsOf(id)) == 1)
            && (w.rows[id].approvedBy.Some? ==>
                  Won(Approve(w.rows[id].approvedBy.value), id) in w.log && w.rows[id].approvedBy.value != w.rows[id].given.authorId)
            && (w.rows[id].status == ACTIVE && w.rows[id].requiresSecondApproval ==> w.rows[id].approvedBy.Some?)
  {
    hide ApprovalsOf;
    RunsStaySound(steps);
  }

  /** A decided override stays decided: rejected and cancelled are final. */
  lemma ClosedIsFinal(w: World, step: Step, id: string)
    requires Sound(w) && id in w.rows && w.rows[id].status in {REJECTED, CANCELLED}
    ensures id in Next(w, step).rows && Next(w, step).rows[id] == w.rows[id]
  {
    hide RowConstraints, ApprovalsOf, ValidRequest, NewRow;
    if step.Writes? && step.k in w.flights {
      assert FlightSound(w.flights[step.k], w.rows);
    }
  }

  // ------------------------------------------------------- between a read and its write

  predicate Touches(e: Event, id: string) { e.id == id }

  predicate Closes(e: Event, id: string) { e.id == id && !e.request.Approve? }

  predicate Touched(log: seq<Event>, id: string) { exists i :: 0 <= i < |log| && Touches(log[i], id) }

  predicate Closed(log: seq<Event>, id: string) { exists i :: 0 <= i < |log| && Closes(log[i], id) }

  /** What the writes won since some instant have made of a row. */
  predicate Moved(before: Row, after: Row, since: seq<Event>, id: string) {
    && (!Touched(since, id) ==> after == before)
    && (Touched(since, id) ==> after.status != PENDING_APPROVAL && (after.status == ACTIVE ==> after.approvedBy.Some?))
    && (before.status in {PENDING_APPROVAL, ACTIVE} ==> (after.status in {PENDING_APPROVAL, ACTIVE} <==> !Closed(since, id)))
    && (before.status in {REJECTED, CANCELLED} ==> after == before)
  }

  lemma LogGrows(w: World, step: Step)
    ensures Next(w, step).log == w.log || (step.Writes? && step.k in w.flights && Wins(w.rows, w.flights[step.k])
            && Next(w, step).log == w.log + [Won(w.flights[step.k].request, w.flights[step.k].id)])
  {
    hide ValidRequest, NewRow;
  }

  lemma OneMoreEvent(log: seq<Event>, e: Event, id: string)
    ensures Touched(log + [e], id) <==> Touched(log, id) || Touches(e, id)
    ensures Closed(log + [e], id) <==> Closed(log, id) || Closes(e, id)
  {
    var more := log + [e];
    assert more[|log|] == e;
    assert forall i :: 0 <= i < |log| ==> more[i] == log[i];
  }

  /** A won write moves its own row as the event says, and no other. */
  lemma WriteMoves(before: Row, rows: Rows, f: Flight, since: seq<Event>, id: string)
    requires id in rows && f.id in rows && FlightSound(f, rows) && Wins(rows, f) && Moved(before, rows[id], since, id)
    ensures Moved(before, (if f.id == id then Written(rows[id], f.request) else rows[id]), since + [Won(f.request, f.id)], id)
  {
    hide Touched, Closed;
    OneMoreEvent(since, Won(f.request, f.id), id);
  }

  lemma MovesOn(before: Row, w: World, step: Step, since: seq<Event>, id: string)
    requires Sound(w) && id in w.rows && Moved(before, w.rows[id], since, id)
    ensures id in Next(w, step).rows
    ensures Next(w, step).log == w.log ==> Moved(before, Next(w, step).rows[id], since, id)
    ensures forall e :: Next(w, step).log == w.log + [e] ==> Moved(before, Next(w, step).rows[id], since + [e], id)
  {
    hide RowConstraints, LogSound, ValidRequest, NewRow, Moved, Written, Wins, FlightSound;
    if step.Writes? && step.k in w.flights && Wins(w.rows, w.flights[step.k]) {
      var f := w.flights[step.k];
      FlightIsSound(w, step.k);
      FlightId(f, w.rows);
      WriteMoves(before, w.rows, f, since, id);
      var e := Won(f.request, f.id);
      assert Next(w, step).log == w.log + [e];
      assert forall other :: w.log + [other] == w.log + [e] ==> (w.log + [other])[|w.log|] == other == e;
    } else {
      assert Next(w, step).log == w.log;
      assert forall e :: |w.log + [e]| == |w.log| + 1;
    }
  }

  lemma {:induction false} RowsMove(w: World, steps: seq<Step>, id: string)
    requires Sound(w) && id in w.rows
    ensures var after := RunFrom(w, steps);
            id in after.rows && w.log <= after.log && Moved(w.rows[id], after.rows[id], after.log[|w.log|..], id)
  {
    hide Sound, Next, Moved;
    if steps == [] {
      assert w.log[|w.log|..] == [];
      assert Moved(w.rows[id], w.rows[id], [], id) by { NothingMoves(w, id); }
    } else {
      var init, step := steps[..|steps| - 1], steps[|steps| - 1];
      RowsMove(w, init, id);
      StaysSound(w, init);
      var mid := RunFrom(w, init);
      MovesOn(w.rows[id], mid, step, mid.log[|w.log|..], id);
      LogGrows(mid, step);
      var after := Next(mid, step);
      if after.log != mid.log {
        assert after.log[|w.log|..] == mid.log[|w.log|..] + [after.log[|mid.log|]];
      }
    }
  }

  lemma NothingMoves(w: World, id: string)
    requires id in w.rows
    ensures Moved(w.rows[id], w.rows[id], [], id)
  {
  }

  /**
   * Whatever happens between the read of a request and its write, the request wins exactly when: nothing at
   * all was won on the row since, for an approval; nothing, and the row was pending, for a rejection;
   * neither a rejection nor a cancellation, and the row was not closed, for a cancellation.
   */
  lemma WinsExactlyWhenUndisturbed(w: World, request: Request, id: string, steps: seq<Step>)
    requires Sound(w) && ReadFor(w.rows, request, id).Some?
    ensures var after, f := RunFrom(w, steps), ReadFor(w.rows, request, id).value;
            && w.log <= after.log
            && var since := after.log[|w.log|..];
               Wins(after.rows, f) <==>
                 match request
                 case Approve(_) => !Touched(since, id)
                 case Reject(_) => !Touched(since, id) && w.rows[id].status == PENDING_APPROVAL
                 case Cancel(_) => !Closed(since, id) && w.rows[id].status in {PENDING_APPROVAL, ACTIVE}
  {
    hide RunFrom, Touched, Closed, Sound;
    RowsMove(w, steps, id);
    StaysSound(w, steps);
    RowIsSound(w, id);
    RowIsSound(RunFrom(w, steps), id);
    UntouchedIsOpen(RunFrom(w, steps).log[|w.log|..], id);
  }

  lemma RowIsSound(w: World, id: string)
    requires Sound(w) && id in w.rows
    ensures RowConstraints(w.rows[id])
  {
  }

  lemma UntouchedIsOpen(log: seq<Event>, id: string)
    ensures Closed(log, id) ==> Touched(log, id)
  {
    if Closed(log, id) {
      var i :| 0 <= i < |log| && Closes(log[i], id);
      assert Touches(log[i], id);
    }
  }

  // -------------------------------------------------------------- what the engine applies

  /** What the contract snapshot hands to the engine: the active overrides. */
  ghost predicate FromTable(overrides: seq<PriceOverride>, rows: Rows) {
    forall o :: o in overrides ==> exists id :: id in rows && rows[id].status == ACTIVE && o == rows[id].ToEngine()
  }

  /**
   * An override applied above the threshold was approved in this table, by someone other than its
   * author, exactly once.
   */
  lemma AppliedAboveThresholdWasApproved(steps: seq<Step>, overrides: seq<PriceOverride>, c: Case)
    requires FromTable(overrides, Run(steps).rows)
    requires Select(overrides, c).Ok? && Select(overrides, c).value.applied.Some? && Select(overrides, c).value.applied.value.requiresSecondApproval
    ensures var w := Run(steps);
            var a := Select(overrides, c).value.applied.value;
            exists id :: id in w.rows && w.rows[id].status == ACTIVE && a.source == w.rows[id].ToEngine()
                    && a.source.approvedBy.Some? && a.source.approvedBy.value != a.source.authorId
                    && Won(Approve(a.source.approvedBy.value), id) in w.log && SumBy(w.log, ApprovalsOf(id)) == 1
  {
    hide Select, ApprovalsOf, Run;
    var a := Select(overrides, c).value.applied.value;
    AppliedAboveThresholdIsApproved(overrides, c);
    AppliedIsStrictlyLatest(overrides, c);
    var id :| id in Run(steps).rows && Run(steps).rows[id].status == ACTIVE && a.source == Run(steps).rows[id].ToEngine();
    AtMostOneApprovalWins(steps, id);
  }
}

/**
 * What an activation demands and what it leaves (apps/api/src/pricing/schedules.service.ts): the trial of the
 * version by the engine, the statuses, and what every engaged version has been through.
 */
module Activations {
  import opened Outcomes
  import opened Sums
  import opened Calendar
  import opened PricingTypes
  import opened Engine
  import opened ScheduleStore

  /** One of everything that is provided. */
  ghost predicate OneOfEach(quantities: seq<ResolvedQuantity>, lines: seq<Line>) {
    && (forall q :: q in quantities ==> q.quantity == "1" && exists l :: l in lines && l.id == q.lineId && l.quantity == Some(Provider))
    && (forall l :: l in lines && l.quantity == Some(Provider) ==> exists q :: q in quantities && q.lineId == l.id)
  }

  /** The version priced alone, on its first day, with one of every provided quantity and no override. */
  ghost predicate IsTrial(input: PricingInput, row: Row, env: PricingInput) {
    && input.schedules == [Schedule(row.id, row.validFrom, row.validTo, row.lines)]
    && input.overrides == [] && OneOfEach(input.quantities, row.lines)
    && input.indexes == env.indexes && input.ruleCatalog == env.ruleCatalog && input.settings == env.settings
    && input.commitmentMonths == env.commitmentMonths && input.evaluate == env.evaluate
  }

  /** Data may still be missing on the day of the activation: the price will be refused then, not the version. */
  predicate MissingData(code: ErrorCode) {
    || code == INDEX_NOT_FOUND || code == INDEX_VALUE_NOT_FOUND || code == DUPLICATE_INDEX_VALUE || code == MISSING_QUANTITY
    || code == AMBIGUOUS_OVERRIDE || code == NO_SCHEDULE || code == OVERLAPPING_SCHEDULES
  }

  /** The engine prices the version on its first day, or lacks data to do so. */
  ghost predicate Computes(row: Row, env: PricingInput) {
    exists input :: IsTrial(input, row, env) && var r := PriceAt(input, row.validFrom); r.Ok? || MissingData(r.code)
  }

  function TrialInput(row: Row, env: PricingInput): PricingInput {
    env.(schedules := [row.ToEngine()], overrides := [], quantities := ProvidedByOne(row.lines))
  }

  lemma TrialIsTrial(row: Row, env: PricingInput)
    ensures IsTrial(TrialInput(row, env), row, env)
  {
    var quantities := ProvidedByOne(row.lines);
    forall q | q in quantities
      ensures q.quantity == "1" && exists l :: l in row.lines && l.id == q.lineId && l.quantity == Some(Provider)
    {
      FlatMapMembers(row.lines, AsOne(), q);
    }
    forall l | l in row.lines && l.quantity == Some(Provider)
      ensures exists q :: q in quantities && q.lineId == l.id
    {
      var q := ResolvedQuantity(l.id, "1", "activation-check", None);
      FlatMapMembers(row.lines, AsOne(), q);
      assert q in AsOne()(l);
    }
  }

  /**
   * What each activation answers: it goes through exactly for a draft with lines that the engine can price on
   * its first day, data aside, and that meets no engaged version starting on that day or later.
   */
  lemma ActivationAnswers(rows: Rows, version: nat, env: PricingInput)
    ensures var r := ActivationOutcome(rows, version, env);
            && (r == NotFound <==> version !in rows)
            && (r == NotDraft <==> version in rows && rows[version].status != DRAFT)
            && (r == EmptySchedule <==> IsDraft(rows, version) && rows[version].lines == [])
            && (r.Uncomputable? <==> IsDraft(rows, version) && rows[version].lines != [] && Refused(rows[version], env).Some?)
            && (r.Uncomputable? ==> Refused(rows[version], env) == Some(r.code))
            && (r == Overlap <==> Passes(rows, version, env) && AnyConflict(rows, rows[version].validFrom, rows[version].validTo))
            && (r == Done <==> Passes(rows, version, env) && !AnyConflict(rows, rows[version].validFrom, rows[version].validTo))
  {
    hide PriceAt, AnyConflict;
    if version in rows {
      StructuralIsTheRest(rows[version], env);
    }
  }

  /** The code that makes the version impossible to compute, if one does. */
  function Refused(row: Row, env: PricingInput): Option<ErrorCode> {
    var r := PriceAt(TrialInput(row, env), row.validFrom);
    if r.Err? && !MissingData(r.code) then Some(r.code) else None
  }

  ghost predicate Passes(rows: Rows, version: nat, env: PricingInput) {
    IsDraft(rows, version) && rows[version].lines != [] && Refused(rows[version], env).None?
  }

  lemma StructuralIsTheRest(row: Row, env: PricingInput)
    ensures row.lines != [] ==>
              ComputeRefusal(row, env) == if Refused(row, env).None? then Done else Uncomputable(Refused(row, env).value)
    ensures row.lines == [] ==> ComputeRefusal(row, env) == EmptySchedule
  {
    hide PriceAt;
  }

  lemma PassedComputes(row: Row, env: PricingInput)
    requires Refused(row, env).None?
    ensures Computes(row, env)
  {
    hide PriceAt, IsTrial, MissingData;
    TrialIsTrial(row, env);
  }

  // -------------------------------------------------------------- over every run

  /** This step engaged the version, with the lines and the first day it has had since. */
  ghost predicate EngagedAt(states: seq<Rows>, steps: seq<Step>, m: int, v: nat, row: Row)
    requires |states| == |steps| + 1
  {
    && 0 <= m < |steps| && steps[m].Activation? && steps[m].version == v && IsDraft(states[m], v)
    && states[m][v].lines == row.lines && states[m][v].id == row.id && states[m][v].validFrom == row.validFrom
    && row.lines != [] && Computes(states[m][v], steps[m].env)
  }

  /** A version superseded ends the day before an engaged one begins. */
  ghost predicate EndsBeforeAnother(rows: Rows, v: nat)
    requires v in rows
  {
    rows[v].validTo.Some? && exists w :: w in rows && rows[w].Engaged() && PreviousDay(rows[w].validFrom) == rows[v].validTo.value
  }

  ghost predicate SupersededEnd(rows: Rows) {
    forall v :: v in rows && rows[v].status == SUPERSEDED ==> EndsBeforeAnother(rows, v)
  }

  /** A step leaves engaged versions their lines, their first day and their status, but for those it closes. */
  lemma StepOnEngaged(before: Rows, step: Step, after: Rows, v: nat)
    requires Steps(before, step, after) && v in after && after[v].Engaged()
    ensures if v in before && before[v].Engaged()
            then after[v].lines == before[v].lines && after[v].id == before[v].id && after[v].validFrom == before[v].validFrom
                 && (before[v].status == SUPERSEDED ==> after[v].status == SUPERSEDED)
            else step.Activation? && step.version == v && ActivationOutcome(before, v, step.env) == Done
                 && after[v] == before[v].(status := ACTIVE)
    ensures forall w :: w in before && before[w].Engaged() ==> w in after && after[w].Engaged() && after[w].validFrom == before[w].validFrom
  {
    hide ComputeRefusal, AnyConflict, PreviousDay, Overlaps;
    match step {
      case Create(_, _, _) => CreationKeeps(before, step, after);
      case Update(_, _) =>
      case Delete(_) =>
      case Activation(version, env) =>
    }
  }

  lemma CreationKeeps(before: Rows, step: Step, after: Rows)
    requires step.Create? && Steps(before, step, after)
    ensures forall w :: w in before ==> w in after && after[w] == before[w]
    ensures forall w :: w in after && after[w].Engaged() ==> w in before && after[w] == before[w]
  {
    if after != before {
      var last: nat :| IsLast(before, last)
             && after == Drafted(before, last, step.id, if step.copyFrom.None? then step.edit else step.edit.(lines := before[step.copyFrom.value].lines));
      assert last + 1 !in before;
    }
  }

  lemma {:induction false} EngagedOnce(states: seq<Rows>, steps: seq<Step>, n: nat, v: nat) returns (m: nat)
    requires IsRun(states, steps) && n <= |steps| && v in states[n] && states[n][v].Engaged()
    ensures m < n && EngagedAt(states, steps, m, v, states[n][v])
  {
    hide ComputeRefusal, AnyConflict, Computes, ActivationOutcome, Passes;
    assert n > 0;
    StepOnEngaged(states[n - 1], steps[n - 1], states[n], v);
    if v in states[n - 1] && states[n - 1][v].Engaged() {
      m := EngagedOnce(states, steps, n - 1, v);
    } else {
      m := n - 1;
      EngagedComputes(states[m], v, steps[m].env);
    }
  }

  lemma EngagedComputes(rows: Rows, v: nat, env: PricingInput)
    requires ActivationOutcome(rows, v, env) == Done
    ensures IsDraft(rows, v) && rows[v].lines != [] && Computes(rows[v], env)
  {
    hide ActivationOutcome, AnyConflict, Computes, Refused;
    ActivationAnswers(rows, v, env);
    PassedComputes(rows[v], env);
  }

  lemma StepKeepsEnds(before: Rows, step: Step, after: Rows)
    requires Steps(before, step, after) && SupersededEnd(before)
    ensures SupersededEnd(after)
  {
    hide ActivationOutcome, PreviousDay, Overlaps, EndsBeforeAnother;
    forall v | v in after && after[v].status == SUPERSEDED
      ensures EndsBeforeAnother(after, v)
    {
      StepOnEngaged(before, step, after, v);
      if v in before && before[v].status == SUPERSEDED && after[v].validTo == before[v].validTo {
        StillEnds(before, after, v);
      } else {
        ClosedEnds(before, step, after, v);
      }
    }
  }

  lemma StillEnds(before: Rows, after: Rows, v: nat)
    requires v in before && v in after && after[v].validTo == before[v].validTo && EndsBeforeAnother(before, v)
    requires forall w :: w in before && before[w].Engaged() ==> w in after && after[w].Engaged() && after[w].validFrom == before[w].validFrom
    ensures EndsBeforeAnother(after, v)
  {
    hide PreviousDay;
  }

  lemma ClosedEnds(before: Rows, step: Step, after: Rows, v: nat)
    requires Steps(before, step, after) && v in after && after[v].status == SUPERSEDED
    requires v !in before || before[v].status != SUPERSEDED || after[v].validTo != before[v].validTo
    ensures EndsBeforeAnother(after, v)
  {
    hide ComputeRefusal, AnyConflict, PreviousDay, Overlaps;
    match step {
      case Create(_, _, _) => CreationKeeps(before, step, after);
      case Update(_, _) =>
      case Delete(_) =>
      case Activation(version, _) =>
        if after != before {
          assert after[version].Engaged() && after[version].validFrom == before[version].validFrom;
        }
    }
  }

  /**
   * Over every run: each engaged version was a draft that the engine could price, data aside, when it was
   * activated, and has kept its lines and its first day since; each one superseded ends the day before another
   * begins.
   */
  lemma {:induction false} EngagedVersionsComputed(states: seq<Rows>, steps: seq<Step>, n: nat)
    requires IsRun(states, steps) && n <= |steps|
    ensures forall v :: v in states[n] && states[n][v].Engaged() ==> exists m :: 0 <= m < n && EngagedAt(states, steps, m, v, states[n][v])
    ensures SupersededEnd(states[n])
  {
    hide Steps, EngagedAt, EndsBeforeAnother;
    forall v | v in states[n] && states[n][v].Engaged()
      ensures exists m :: 0 <= m < n && EngagedAt(states, steps, m, v, states[n][v])
    {
      var m := EngagedOnce(states, steps, n, v);
    }
    if n > 0 {
      EngagedVersionsComputed(states, steps, n - 1);
      StepKeepsEnds(states[n - 1], steps[n - 1], states[n]);
    }
  }

  // ---------------------------------------------------------- one step, row by row

  /** Engaged, and starting within the days of the draft. */
  predicate StartsWithin(e: Row, d: Row) {
    (e.status == ACTIVE || e.status == SUPERSEDED) && d.validFrom <= e.validFrom && (d.validTo.Some? ==> e.validFrom <= d.validTo.value)
  }

  /** Engaged earlier, and still running on the first day of the draft. */
  predicate RunsInto(e: Row, d: Row) {
    (e.status == ACTIVE || e.status == SUPERSEDED) && e.validFrom < d.validFrom && (e.validTo.Some? ==> d.validFrom <= e.validTo.value)
  }

  ghost predicate AllWellDated(rows: Rows) { forall v :: v in rows ==> rows[v].WellDated() }

  lemma OverlapReads(e: Row, d: Row)
    requires e.WellDated() && d.WellDated()
    ensures Conflicts(e, d.validFrom, d.validTo) <==> StartsWithin(e, d)
    ensures e.Engaged() && Overlaps(e, d.validFrom, d.validTo) && !Conflicts(e, d.validFrom, d.validTo) <==> RunsInto(e, d)
  {
    DatesAreBounded(d.validFrom);
    DatesAreBounded(e.validFrom);
    if e.validTo.Some? {
      DatesAreBounded(e.validTo.value);
    }
    if d.validTo.Some? {
      DatesAreBounded(d.validTo.value);
    }
    hide ValidDay;
  }

  /** A draft under the number after the highest one; the first one is numbered 1. */
  ghost predicate Numbered(before: Rows, n: nat) {
    n !in before && (forall v :: v in before ==> v < n) && (n == 1 || (n > 1 && n - 1 in before))
  }

  ghost predicate OthersStay(before: Rows, after: Rows, n: nat) {
    forall v :: v != n ==> (v in after <==> v in before) && (v in before ==> after[v] == before[v])
  }

  /** What an activation makes of each row: those that run into it end the day before, and it becomes active. */
  ghost predicate ActivationReads(before: Rows, after: Rows, n: nat)
    requires n in before
  {
    && after.Keys == before.Keys
    && (forall v :: v in before && v != n ==>
          after[v] == if RunsInto(before[v], before[n])
                      then Row(before[v].id, SUPERSEDED, before[v].validFrom, Some(PreviousDay(before[n].validFrom)), before[v].lines)
                      else before[v])
    && after[n] == Row(before[n].id, ACTIVE, before[n].validFrom, before[n].validTo, before[n].lines)
  }

  ghost predicate StepReads(before: Rows, step: Step, after: Rows) {
    match step
    case Create(id, e, copyFrom) =>
      if copyFrom.Some? && copyFrom.value !in before then after == before
      else exists n :: Numbered(before, n) && OthersStay(before, after, n) && n in after
             && after[n] == Row(id, DRAFT, e.validFrom, e.validTo, if copyFrom.Some? then before[copyFrom.value].lines else e.lines)
    case Update(n, e) =>
      if n in before && before[n].status == DRAFT
      then OthersStay(before, after, n) && n in after && after[n] == Row(before[n].id, DRAFT, e.validFrom, e.validTo, e.lines)
      else after == before
    case Delete(n) =>
      if n in before && before[n].status == DRAFT then OthersStay(before, after, n) && n !in after else after == before
    case Activation(n, env) =>
      if n in before && before[n].status == DRAFT && before[n].lines != [] && Refused(before[n], env).None?
         && forall v :: v in before ==> !StartsWithin(before[v], before[n])
      then ActivationReads(before, after, n)
      else after == before
  }

  /** Every step of a table of valid dates, told row by row. */
  lemma StepIsRead(before: Rows, step: Step, after: Rows)
    requires AllWellDated(before) && Steps(before, step, after)
    ensures StepReads(before, step, after)
  {
    hide PriceAt, PreviousDay, ValidDay, ComputeRefusal, AnyConflict, Refused;
    match step {
      case Create(id, e, copyFrom) =>
        if !(copyFrom.Some? && copyFrom.value !in before) {
          CreationReads(before, step, after);
        }
      case Update(_, _) =>
      case Delete(_) =>
      case Activation(n, env) =>
        ActivationAnswers(before, n, env);
        if n in before {
          ConflictsRead(before, n);
          if ActivationOutcome(before, n, env) == Done {
            ActivatedReads(before, n);
          }
        }
    }
  }

  lemma CreationReads(before: Rows, step: Step, after: Rows)
    requires step.Create? && Steps(before, step, after) && !(step.copyFrom.Some? && step.copyFrom.value !in before)
    ensures StepReads(before, step, after)
  {
    var last: nat :| IsLast(before, last)
             && after == Drafted(before, last, step.id, if step.copyFrom.None? then step.edit else step.edit.(lines := before[step.copyFrom.value].lines));
    assert Numbered(before, last + 1);
    assert OthersStay(before, after, last + 1);
  }

  lemma ConflictsRead(rows: Rows, n: nat)
    requires AllWellDated(rows) && n in rows
    ensures AnyConflict(rows, rows[n].validFrom, rows[n].validTo) <==> exists v :: v in rows && StartsWithin(rows[v], rows[n])
  {
    hide Conflicts, StartsWithin;
    forall v | v in rows
      ensures Conflicts(rows[v], rows[n].validFrom, rows[n].validTo) <==> StartsWithin(rows[v], rows[n])
    {
      OverlapReads(rows[v], rows[n]);
    }
  }

  lemma ActivatedReads(rows: Rows, n: nat)
    requires AllWellDated(rows) && IsDraft(rows, n) && !AnyConflict(rows, rows[n].validFrom, rows[n].validTo)
    ensures ActivationReads(rows, Activated(rows, n), n)
  {
    hide PreviousDay, RunsInto, Overlaps;
    forall v | v in rows && v != n
      ensures rows[v].Engaged() && Overlaps(rows[v], rows[n].validFrom, rows[n].validTo) <==> RunsInto(rows[v], rows[n])
    {
      assert !Conflicts(rows[v], rows[n].validFrom, rows[n].validTo);
      OverlapReads(rows[v], rows[n]);
    }
  }
}

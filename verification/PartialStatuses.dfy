/**
 * Per-choice statuses that leave out a value (apps/api/src/proposals/pricing-definition.ts,
 * `validateInDefinition`): exactly when validations make a price validated that nobody validated.
 */
module PartialStatuses {
  import opened Outcomes
  import opened Configuration
  import opened PriceStatuses

  ghost predicate OnlyValidates(steps: seq<Step>) {
    forall s :: s in steps ==> s.Validate?
  }

  /** After these validations the line is validated for the value, though nothing validated it for that value. */
  ghost predicate Unearned(lines: Lines, steps: seq<Step>, i: nat, value: string)
    requires i < |lines|
  {
    && OnlyValidates(steps)
    && i < |Run(lines, steps)| && Effective(Run(lines, steps)[i], value) == VALIDATED
    && !Earned(lines, steps, lines[i].key, lines[i].pricing, value)
  }

  /** The value is not listed, the line is to validate, and what is listed can still all be validated. */
  predicate Overreaches(l: Line, value: string) {
    && l.status == TO_VALIDATE && l.statusByChoice.Some?
    && var m := l.statusByChoice.value;
       && Waiting(m) != {} && "" !in Waiting(m)
       && (if l.pricing.ByChoice? then value !in m else value !in Waiting(m))
  }

  function Waiting(m: map<string, PriceStatus>): set<string> {
    set v | v in m && m[v] == TO_VALIDATE
  }

  // ------------------------------------------------------------------- runs of validations

  lemma {:induction false} ValidationsKeepLines(lines: Lines, steps: seq<Step>)
    requires DistinctKeys(lines) && OnlyValidates(steps)
    ensures DistinctKeys(Run(lines, steps)) && |Run(lines, steps)| == |lines|
    ensures forall j :: 0 <= j < |lines| ==>
              Run(lines, steps)[j].key == lines[j].key && Run(lines, steps)[j].pricing == lines[j].pricing
  {
    if steps != [] {
      var init, step := steps[..|steps| - 1], steps[|steps| - 1];
      assert step in steps && forall s :: s in init ==> s in steps;
      ValidationsKeepLines(lines, init);
      var before, after := Run(lines, init), Run(lines, steps);
      hide Run, Next;
      assert after == Next(before, step) by { LastStep(lines, steps); }
      SameLength(before, step);
      forall j | 0 <= j < |after|
        ensures after[j].key == before[j].key && after[j].pricing == before[j].pricing
      {
        StepKeepsKeys(before, step, j);
      }
    }
  }

  lemma LastStep(lines: Lines, steps: seq<Step>)
    requires steps != []
    ensures Run(lines, steps) == Next(Run(lines, steps[..|steps| - 1]), steps[|steps| - 1])
  {
  }

  lemma SameLength(lines: Lines, step: Step)
    requires step.Validate?
    ensures |Next(lines, step)| == |lines|
  {
  }

  // -------------------------------------------------------------------- one line's course

  /** What validations make of one line. */
  function Course(l: Line, steps: seq<Step>): Line {
    if steps == [] then l
    else
      var before, step := Course(l, steps[..|steps| - 1]), steps[|steps| - 1];
      LineAfter([], before, step)
  }

  predicate VouchesFor(l: Line, value: string, step: Step) {
    step.Validate? && step.key == l.key && (l.statusByChoice.Some? ==> step.value == Some(value))
  }

  predicate EarnedBy(l: Line, steps: seq<Step>, value: string) {
    if steps == [] then Effective(l, value) == VALIDATED
    else EarnedBy(l, steps[..|steps| - 1], value) || VouchesFor(Course(l, steps[..|steps| - 1]), value, steps[|steps| - 1])
  }

  lemma {:induction false} RunIsCourse(lines: Lines, steps: seq<Step>, i: nat)
    requires DistinctKeys(lines) && OnlyValidates(steps) && i < |lines|
    ensures i < |Run(lines, steps)| && Run(lines, steps)[i] == Course(lines[i], steps)
  {
    ValidationsKeepLines(lines, steps);
    if steps != [] {
      var init, step := steps[..|steps| - 1], steps[|steps| - 1];
      assert step in steps && forall s :: s in init ==> s in steps;
      RunIsCourse(lines, init, i);
      ValidationsKeepLines(lines, init);
      hide Run, Next;
      LastStep(lines, steps);
      NextAt(Run(lines, init), step, i);
    }
  }

  lemma {:induction false} EarnedIsEarnedBy(lines: Lines, steps: seq<Step>, i: nat, value: string)
    requires DistinctKeys(lines) && OnlyValidates(steps) && i < |lines|
    ensures Earned(lines, steps, lines[i].key, lines[i].pricing, value) <==> EarnedBy(lines[i], steps, value)
  {
    hide Run, Next, Course, PriceStatuses.LineOf, Effective;
    HeldHere(lines, steps, i);
    if steps == [] {
      assert Run(lines, steps) == lines by { EmptyRun(lines); }
    } else {
      var init, step := steps[..|steps| - 1], steps[|steps| - 1];
      assert step in steps && forall s :: s in init ==> s in steps;
      HeldHere(lines, init, i);
      EarnedIsEarnedBy(lines, init, i, value);
      RunIsCourse(lines, init, i);
      ValidationsKeepLines(lines, init);
    }
  }

  lemma EmptyRun(lines: Lines)
    ensures Run(lines, []) == lines
  {
  }

  lemma HeldHere(lines: Lines, steps: seq<Step>, i: nat)
    requires DistinctKeys(lines) && OnlyValidates(steps) && i < |lines|
    ensures i < |Run(lines, steps)| && Holds(Run(lines, steps), lines[i].key, lines[i].pricing)
    ensures PriceStatuses.LineOf(Run(lines, steps), lines[i].key) == Some(Run(lines, steps)[i])
  {
    hide Run, PriceStatuses.LineOf;
    ValidationsKeepLines(lines, steps);
    LineAt(Run(lines, steps), i);
  }

  // ------------------------------------------------------------------------ only then

  /** Without a vouching step, a value keeps its own status and others only go from waiting to validated. */
  ghost predicate Unvouched(l: Line, c: Line, value: string) {
    && c.key == l.key && c.pricing == l.pricing
    && match (l.statusByChoice, c.statusByChoice)
       case (None, None) => c == l
       case (Some(m), Some(n)) =>
         && m.Keys == n.Keys && (value in m ==> m[value] == n[value])
         && (forall w :: w in m ==> m[w] == n[w] || (w != "" && m[w] == TO_VALIDATE && n[w] == VALIDATED))
         && (|| c.status == l.status
             || (l.status == TO_VALIDATE && Waiting(m) != {} && "" !in Waiting(m) && value !in Waiting(m)))
       case _ => false
  }

  lemma UnvouchedStep(l: Line, c: Line, value: string, step: Step)
    requires step.Validate? && Unvouched(l, c, value) && !VouchesFor(c, value, step)
    ensures Unvouched(l, LineAfter([], c, step), value)
  {
    var after := ValidatedStatuses(c, step.value);
    if step.key == c.key && after.Some? && c.statusByChoice.Some? {
      var m, n, w := l.statusByChoice.value, c.statusByChoice.value, step.value.value;
      var n' := n[w := VALIDATED];
      assert w in m && w != value && m[w] == TO_VALIDATE;
      assert w in Waiting(m);
      if AllValidated(n') {
        assert "" in m ==> n'[""] == VALIDATED;
        assert value in m ==> n'[value] == VALIDATED;
      }
    }
  }

  lemma {:induction false} UnvouchedCourse(l: Line, steps: seq<Step>, value: string)
    requires OnlyValidates(steps) && !EarnedBy(l, steps, value)
    ensures Unvouched(l, Course(l, steps), value) && Effective(l, value) != VALIDATED
  {
    hide Unvouched, VouchesFor, LineAfter, Effective;
    if steps == [] {
      assert Unvouched(l, l, value) by { UnvouchedItself(l, value); }
    } else {
      var init, step := steps[..|steps| - 1], steps[|steps| - 1];
      assert step in steps && forall s :: s in init ==> s in steps;
      UnvouchedCourse(l, init, value);
      UnvouchedStep(l, Course(l, init), value, step);
    }
  }

  lemma UnvouchedItself(l: Line, value: string)
    ensures Unvouched(l, l, value)
  {
  }

  lemma OnlyThen(l: Line, steps: seq<Step>, value: string)
    requires OnlyValidates(steps) && !EarnedBy(l, steps, value) && Effective(Course(l, steps), value) == VALIDATED
    ensures Overreaches(l, value)
  {
    hide Course;
    UnvouchedCourse(l, steps, value);
  }

  // ---------------------------------------------------------------------------- and then

  function WithValidated(m: map<string, PriceStatus>, done: set<string>): map<string, PriceStatus> {
    map v | v in m :: if v in done then VALIDATED else m[v]
  }

  /** Validations of listed values, all but one of those waiting: the line itself is still to validate. */
  lemma {:induction false} ValidateSome(l: Line, done: set<string>) returns (steps: seq<Step>)
    requires l.statusByChoice.Some? && "" !in Waiting(l.statusByChoice.value) && done < Waiting(l.statusByChoice.value)
    ensures OnlyValidates(steps) && forall s :: s in steps ==> s.value.Some? && s.value.value in done
    ensures Course(l, steps) == l.(statusByChoice := Some(WithValidated(l.statusByChoice.value, done)))
    decreases done
  {
    var m := l.statusByChoice.value;
    if done == {} {
      steps := [];
      assert WithValidated(m, {}) == m;
    } else {
      var w :| w in done;
      var init := ValidateSome(l, done - {w});
      var step := Validate(l.key, Some(w));
      steps := init + [step];
      assert steps[..|steps| - 1] == init;
      assert WithValidated(m, done - {w})[w := VALIDATED] == WithValidated(m, done);
      assert !(Waiting(m) <= done);
      var left :| left in Waiting(m) && left !in done;
      assert WithValidated(m, done)[left] == TO_VALIDATE;
    }
  }

  lemma {:induction false} NeverVouched(l: Line, steps: seq<Step>, value: string)
    requires OnlyValidates(steps) && l.statusByChoice.Some? && Effective(l, value) != VALIDATED
    requires forall s :: s in steps ==> s.value != Some(value)
    ensures !EarnedBy(l, steps, value) && Course(l, steps).statusByChoice.Some?
  {
    if steps != [] {
      assert steps[|steps| - 1] in steps && forall s :: s in steps[..|steps| - 1] ==> s in steps;
      NeverVouched(l, steps[..|steps| - 1], value);
    }
  }

  /** The run: every waiting value is validated in turn, and the last one validates the line. */
  lemma AndThen(l: Line, value: string) returns (steps: seq<Step>)
    requires Overreaches(l, value)
    ensures OnlyValidates(steps) && !EarnedBy(l, steps, value) && Effective(Course(l, steps), value) == VALIDATED
  {
    var m := l.statusByChoice.value;
    var w :| w in Waiting(m);
    var init := ValidateSome(l, Waiting(m) - {w});
    steps := init + [Validate(l.key, Some(w))];
    assert steps[..|steps| - 1] == init;
    assert WithValidated(m, Waiting(m) - {w})[w := VALIDATED] == WithValidated(m, Waiting(m));
    assert AllValidated(WithValidated(m, Waiting(m)));
    NeverVouched(l, steps, value);
  }

  /**
   * Validations alone can make a line validated for a value that nobody validated exactly when its statuses
   * leave that value out, the line is to validate, and everything they do list can be validated.
   */
  lemma TooMuchIsValidatedExactlyWhen(lines: Lines, i: nat, value: string)
    requires DistinctKeys(lines) && i < |lines|
    ensures (exists steps :: Unearned(lines, steps, i, value)) <==> Overreaches(lines[i], value)
  {
    hide Run, Course, Overreaches, Effective, EarnedBy, Earned;
    forall steps | OnlyValidates(steps)
      ensures Unearned(lines, steps, i, value)
              <==> Effective(Course(lines[i], steps), value) == VALIDATED && !EarnedBy(lines[i], steps, value)
    {
      RunIsCourse(lines, steps, i);
      EarnedIsEarnedBy(lines, steps, i, value);
    }
    if Overreaches(lines[i], value) {
      var steps := AndThen(lines[i], value);
      assert Unearned(lines, steps, i, value);
    }
    forall steps | Unearned(lines, steps, i, value)
      ensures Overreaches(lines[i], value)
    {
      OnlyThen(lines[i], steps, value);
    }
  }

  /** Statuses that cover every priced value rule it out. */
  lemma CoveredNeverOverreaches(l: Line, value: string)
    requires Covered(l) && Priced(l, value)
    ensures !Overreaches(l, value)
  {
    hide Values, Waiting;
  }

  /** A line whose statuses leave out a priced value. */
  const PARTIAL := Line("k", Pricing.ByChoice("c", [("a", 100), ("b", 200)]), TO_VALIDATE, Some(map["a" := TO_VALIDATE]))

  /** Validating the only listed value validates the line, hence the value that nobody looked at. */
  lemma PartialStatusesValidateTooMuch()
    ensures Priced(PARTIAL, "b") && Effective(PARTIAL, "b") == TO_VALIDATE
    ensures exists steps :: Unearned([PARTIAL], steps, 0, "b")
  {
    assert ("b", 200) in PARTIAL.pricing.entries;
    assert "a" in Waiting(PARTIAL.statusByChoice.value);
    TooMuchIsValidatedExactlyWhen([PARTIAL], 0, "b");
  }
}

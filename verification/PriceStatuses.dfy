/**
 * Who may validate a price (apps/api/src/proposals/pricing-definition.ts): edits by the sales side,
 * validations by an administrator, validations taken over from the template.
 */
module PriceStatuses {
  import opened Outcomes
  import opened Configuration

  /** Prices are compared as written: the entries of a choice keep their order. */
  datatype Pricing = OnePrice(cents: int) | ByChoice(dependsOn: string, entries: seq<(string, int)>)

  datatype Line = Line(key: string, pricing: Pricing, status: PriceStatus, statusByChoice: Option<map<string, PriceStatus>>)

  type Lines = seq<Line>

  /** `effectiveLinePriceStatus`, for one value of the choice the price depends on. */
  function Effective(l: Line, value: string): PriceStatus {
    if l.statusByChoice.Some? && l.pricing.ByChoice? && value in l.statusByChoice.value then l.statusByChoice.value[value] else l.status
  }

  /** The line of that key; the last one when a key is repeated. */
  function LineOf(lines: Lines, key: string): Option<Line> {
    if lines == [] then None
    else if lines[|lines| - 1].key == key then Some(lines[|lines| - 1])
    else LineOf(lines[..|lines| - 1], key)
  }

  // ------------------------------------------------------------------ the three steps

  /** An edited line keeps its statuses when its price is unchanged, and is to validate otherwise. */
  function EnforceLine(l: Line, prev: Lines): Line {
    var p := LineOf(prev, l.key);
    if p.Some? && p.value.pricing == l.pricing then l.(status := p.value.status, statusByChoice := p.value.statusByChoice)
    else l.(status := TO_VALIDATE, statusByChoice := None)
  }

  function Enforce(next: Lines, prev: Lines): Lines {
    seq(|next|, i requires 0 <= i < |next| => EnforceLine(next[i], prev))
  }

  predicate AllValidated(m: map<string, PriceStatus>) { forall v :: v in m ==> m[v] == VALIDATED }

  function FirstLine(lines: Lines, key: string): Option<Line> {
    if lines == [] then None else if lines[0].key == key then Some(lines[0]) else FirstLine(lines[1..], key)
  }

  /** The statuses of a line once validated for a value, or as a whole; none when there is nothing to validate. */
  function ValidatedStatuses(l: Line, value: Option<string>): Option<(PriceStatus, Option<map<string, PriceStatus>>)> {
    if l.statusByChoice.Some? then
      if value.None? || value.value == "" || value.value !in l.statusByChoice.value || l.statusByChoice.value[value.value] != TO_VALIDATE then None
      else
        var m := l.statusByChoice.value[value.value := VALIDATED];
        Some((if AllValidated(m) then VALIDATED else l.status, Some(m)))
    else if l.status != TO_VALIDATE then None
    else Some((VALIDATED, None))
  }

  function ValidateLine(lines: Lines, key: string, value: Option<string>): Lines {
    var l := FirstLine(lines, key);
    if l.None? then lines
    else
      var after := ValidatedStatuses(l.value, value);
      if after.None? then lines
      else seq(|lines|, i requires 0 <= i < |lines| =>
             if lines[i].key == key then lines[i].(status := after.value.0, statusByChoice := after.value.1) else lines[i])
  }

  function Raised(mine: PriceStatus, theirs: PriceStatus): PriceStatus {
    if mine == TO_VALIDATE && theirs == VALIDATED then VALIDATED else mine
  }

  function MergedStatuses(mine: map<string, PriceStatus>, theirs: map<string, PriceStatus>): map<string, PriceStatus> {
    map v | v in mine :: if v in theirs then Raised(mine[v], theirs[v]) else mine[v]
  }

  /** The loop that fills the merged record, entry by entry. */
  method MergeStatuses(mine: map<string, PriceStatus>, theirs: map<string, PriceStatus>) returns (merged: map<string, PriceStatus>)
    ensures merged == MergedStatuses(mine, theirs)
  {
    merged := map[];
    var left := mine.Keys;
    while left != {}
      invariant left <= mine.Keys && merged.Keys == mine.Keys - left
      invariant forall v :: v in merged ==> merged[v] == if v in theirs then Raised(mine[v], theirs[v]) else mine[v]
      decreases left
    {
      var v :| v in left;
      merged := merged[v := if v in theirs then Raised(mine[v], theirs[v]) else mine[v]];
      left := left - {v};
    }
  }

  function MergeLine(l: Line, template: Lines): Line {
    var t := LineOf(template, l.key);
    if t.None? || t.value.pricing != l.pricing then l
    else
      var next := l.(status := Raised(l.status, t.value.status));
      if l.statusByChoice.Some? && t.value.statusByChoice.Some?
      then next.(statusByChoice := Some(MergedStatuses(l.statusByChoice.value, t.value.statusByChoice.value)))
      else next
  }

  function Merge(lines: Lines, template: Lines): Lines {
    seq(|lines|, i requires 0 <= i < |lines| => MergeLine(lines[i], template))
  }

  // --------------------------------------------------------------------------- runs

  datatype Step = Edit(next: Lines) | Validate(key: string, value: Option<string>) | TakeOver(template: Lines)

  function Next(lines: Lines, step: Step): Lines {
    match step
    case Edit(next) => Enforce(next, lines)
    case Validate(key, value) => ValidateLine(lines, key, value)
    case TakeOver(template) => Merge(lines, template)
  }

  function Run(initial: Lines, steps: seq<Step>): Lines {
    if steps == [] then initial else Next(Run(initial, steps[..|steps| - 1]), steps[|steps| - 1])
  }

  ghost predicate DistinctKeys(lines: Lines) {
    forall i, j :: 0 <= i < j < |lines| ==> lines[i].key != lines[j].key
  }

  function Values(p: Pricing): set<string> {
    if p.OnePrice? then {} else set e | e in p.entries :: e.0
  }

  /** Per-choice statuses, where there are any, cover every value that has a price. */
  predicate Covered(l: Line) {
    l.statusByChoice.Some? ==> l.pricing.ByChoice? && Values(l.pricing) <= l.statusByChoice.value.Keys
  }

  ghost predicate WellFormed(lines: Lines) {
    DistinctKeys(lines) && forall l :: l in lines ==> Covered(l)
  }

  /** The values that a line can be priced for: those of its choice, or any when it has one price. */
  predicate Priced(l: Line, value: string) { l.pricing.OnePrice? || value in Values(l.pricing) }

  /** The lines hold this key at this price. */
  predicate Holds(lines: Lines, key: string, pricing: Pricing) {
    LineOf(lines, key).Some? && LineOf(lines, key).value.pricing == pricing
  }

  /** An administrator validated this very line, for this value when it is validated by value. */
  predicate Vouches(lines: Lines, key: string, value: string, step: Step) {
    && step.Validate? && step.key == key
    && LineOf(lines, key).Some?
    && (LineOf(lines, key).value.statusByChoice.Some? ==> step.value == Some(value))
  }

  /** The template holds this key at this price, validated as a whole or for this value. */
  predicate TemplateVouches(template: Lines, key: string, pricing: Pricing, value: string) {
    && Holds(template, key, pricing)
    && (LineOf(template, key).value.status == VALIDATED
        || (LineOf(template, key).value.statusByChoice.Some? && value in LineOf(template, key).value.statusByChoice.value
            && LineOf(template, key).value.statusByChoice.value[value] == VALIDATED))
  }

  /**
   * Told from history alone, without looking at current statuses: the key has held this price without
   * interruption since it was validated for this value, at the start, by an administrator or in the template.
   */
  ghost predicate Earned(initial: Lines, steps: seq<Step>, key: string, pricing: Pricing, value: string) {
    if steps == [] then Holds(initial, key, pricing) && Effective(LineOf(initial, key).value, value) == VALIDATED
    else
      var before, step := steps[..|steps| - 1], steps[|steps| - 1];
      && Holds(Run(initial, steps), key, pricing)
      && Holds(Run(initial, before), key, pricing)
      && (|| Earned(initial, before, key, pricing, value)
          || Vouches(Run(initial, before), key, value, step)
          || (step.TakeOver? && TemplateVouches(step.template, key, pricing, value)))
  }

  // ---------------------------------------------------------------- what steps keep

  lemma {:induction false} LineOfMember(lines: Lines, key: string)
    ensures LineOf(lines, key).Some? <==> exists l :: l in lines && l.key == key
    ensures LineOf(lines, key).Some? ==> LineOf(lines, key).value in lines && LineOf(lines, key).value.key == key
  {
    if lines != [] {
      LineOfMember(lines[..|lines| - 1], key);
      assert lines == lines[..|lines| - 1] + [lines[|lines| - 1]];
    }
  }

  lemma LineAt(lines: Lines, i: nat)
    requires DistinctKeys(lines) && i < |lines|
    ensures LineOf(lines, lines[i].key) == Some(lines[i])
  {
    LineOfMember(lines, lines[i].key);
    var j :| 0 <= j < |lines| && lines[j] == LineOf(lines, lines[i].key).value;
  }

  lemma {:induction false} FirstIsLineOf(lines: Lines, key: string)
    requires DistinctKeys(lines)
    ensures FirstLine(lines, key) == LineOf(lines, key)
  {
    LineOfMember(lines, key);
    if lines != [] {
      assert lines == [lines[0]] + lines[1..];
      forall i, j | 0 <= i < j < |lines[1..]|
        ensures lines[1..][i].key != lines[1..][j].key
      {
        assert lines[i + 1].key != lines[j + 1].key;
      }
      FirstIsLineOf(lines[1..], key);
      LineOfMember(lines[1..], key);
      LineAt(lines, 0);
      if lines[0].key != key && LineOf(lines, key).Some? {
        var l := LineOf(lines, key).value;
        assert l in lines[1..];
        var m := LineOf(lines[1..], key).value;
        var i :| 0 <= i < |lines| && lines[i] == l;
        var j :| 0 < j < |lines| && lines[j] == m;
        assert i == j;
      }
    }
  }

  /** What a step does to the one line of a key. */
  function LineAfter(lines: Lines, l: Line, step: Step): Line {
    match step
    case Edit(next) => l
    case Validate(key, value) =>
      var after := ValidatedStatuses(l, value);
      if l.key != key || after.None? then l else l.(status := after.value.0, statusByChoice := after.value.1)
    case TakeOver(template) => MergeLine(l, template)
  }

  /** The lines after a step, index by index. */
  lemma NextAt(lines: Lines, step: Step, i: nat)
    requires DistinctKeys(lines) && i < |Next(lines, step)|
    ensures step.Edit? ==> i < |step.next| && Next(lines, step)[i] == EnforceLine(step.next[i], lines)
    ensures !step.Edit? ==> i < |lines| && Next(lines, step)[i] == LineAfter(lines, lines[i], step)
  {
    hide ValidatedStatuses, MergeLine, EnforceLine;
    if step.Validate? {
      FirstIsLineOf(lines, step.key);
      LineOfMember(lines, step.key);
      LineAt(lines, i);
    }
  }

  lemma StepKeepsKeys(lines: Lines, step: Step, i: nat)
    requires DistinctKeys(lines) && i < |Next(lines, step)|
    ensures step.Edit? ==> Next(lines, step)[i].key == step.next[i].key && |Next(lines, step)| == |step.next|
    ensures !step.Edit? ==> i < |lines| && |Next(lines, step)| == |lines|
                            && Next(lines, step)[i].key == lines[i].key && Next(lines, step)[i].pricing == lines[i].pricing
  {
    NextAt(lines, step, i);
  }

  /** Edits come checked: no key twice. */
  ghost predicate Checked(steps: seq<Step>) {
    forall s :: s in steps && s.Edit? ==> DistinctKeys(s.next)
  }

  lemma StepKeepsWellFormed(lines: Lines, step: Step)
    requires WellFormed(lines) && (step.Edit? ==> DistinctKeys(step.next))
    ensures WellFormed(Next(lines, step))
  {
    hide Next, Values;
    var after := Next(lines, step);
    forall i | 0 <= i < |after|
      ensures Covered(after[i])
      ensures step.Edit? ==> i < |step.next| && after[i].key == step.next[i].key
      ensures !step.Edit? ==> i < |lines| && after[i].key == lines[i].key
    {
      NextAt(lines, step, i);
      StepKeepsKeys(lines, step, i);
      if step.Edit? {
        LineOfMember(lines, step.next[i].key);
      } else {
        assert lines[i] in lines;
      }
    }
  }

  lemma {:induction false} RunsStayWellFormed(initial: Lines, steps: seq<Step>)
    requires WellFormed(initial) && Checked(steps)
    ensures WellFormed(Run(initial, steps))
  {
    hide WellFormed, Next;
    if steps != [] {
      assert steps[|steps| - 1] in steps && forall s :: s in steps[..|steps| - 1] ==> s in steps;
      RunsStayWellFormed(initial, steps[..|steps| - 1]);
      StepKeepsWellFormed(Run(initial, steps[..|steps| - 1]), steps[|steps| - 1]);
    }
  }

  /** A line validated after a step was so before at the same price, or the step vouches for it. */
  lemma ValidatedByStep(lines: Lines, step: Step, i: nat, value: string)
    requires WellFormed(lines) && (step.Edit? ==> DistinctKeys(step.next)) && i < |Next(lines, step)|
    requires var l := Next(lines, step)[i]; Priced(l, value) && Effective(l, value) == VALIDATED
    ensures var l := Next(lines, step)[i];
            && Holds(lines, l.key, l.pricing)
            && (|| Effective(LineOf(lines, l.key).value, value) == VALIDATED
                || Vouches(lines, l.key, value, step)
                || (step.TakeOver? && TemplateVouches(step.template, l.key, l.pricing, value)))
  {
    hide Next, Values, LineOf, AllValidated;
    NextAt(lines, step, i);
    var l := Next(lines, step)[i];
    LineOfMember(lines, l.key);
    match step
    case Edit(next) =>
    case Validate(key, w) =>
      LineAt(lines, i);
      assert Covered(lines[i]);
    case TakeOver(template) =>
      LineAt(lines, i);
      assert Covered(lines[i]);
  }

  /**
   * Nobody validates their own price: over every run of edits, validations and take-overs, a line is
   * validated for a value only if history says so, that key having kept that price ever since.
   */
  lemma {:induction false} ValidatedOnlyIfEarned(initial: Lines, steps: seq<Step>, l: Line, value: string)
    requires WellFormed(initial) && Checked(steps)
    requires l in Run(initial, steps) && Priced(l, value) && Effective(l, value) == VALIDATED
    ensures Earned(initial, steps, l.key, l.pricing, value)
  {
    hide Next, Effective, Priced, LineOf, WellFormed, Vouches, TemplateVouches, Holds;
    RunsStayWellFormed(initial, steps);
    var lines := Run(initial, steps);
    var i :| 0 <= i < |lines| && lines[i] == l;
    HoldsOwn(lines, i);
    if steps != [] {
      var init, step := steps[..|steps| - 1], steps[|steps| - 1];
      assert step in steps && forall s :: s in init ==> s in steps;
      RunsStayWellFormed(initial, init);
      ValidatedByStep(Run(initial, init), step, i, value);
      var before := LineOf(Run(initial, init), l.key);
      HeldLine(Run(initial, init), l.key, l.pricing);
      if Effective(before.value, value) == VALIDATED {
        SamePriced(l, before.value, value);
        ValidatedOnlyIfEarned(initial, init, before.value, value);
      }
    }
  }

  lemma HoldsOwn(lines: Lines, i: nat)
    requires WellFormed(lines) && i < |lines|
    ensures Holds(lines, lines[i].key, lines[i].pricing) && LineOf(lines, lines[i].key) == Some(lines[i])
  {
    LineAt(lines, i);
  }

  lemma HeldLine(lines: Lines, key: string, pricing: Pricing)
    requires Holds(lines, key, pricing)
    ensures LineOf(lines, key).Some? && LineOf(lines, key).value in lines
    ensures LineOf(lines, key).value.key == key && LineOf(lines, key).value.pricing == pricing
  {
    LineOfMember(lines, key);
  }

  lemma SamePriced(l: Line, m: Line, value: string)
    requires l.pricing == m.pricing && Priced(l, value)
    ensures Priced(m, value)
  {
  }

  /** Conversely an unchanged price loses nothing: an edit keeps its status for every value. */
  lemma UnchangedPriceKeepsStatus(lines: Lines, next: Lines, i: nat, value: string)
    requires i < |next| && Holds(lines, next[i].key, next[i].pricing)
    ensures Effective(Next(lines, Edit(next))[i], value) == Effective(LineOf(lines, next[i].key).value, value)
  {
    hide LineOf;
  }

  /** A changed price, or a new line, is to be validated, whatever the edit claimed. */
  lemma ChangedPriceIsToValidate(lines: Lines, next: Lines, i: nat, value: string)
    requires i < |next| && !Holds(lines, next[i].key, next[i].pricing)
    ensures Effective(Next(lines, Edit(next))[i], value) == TO_VALIDATE
  {
    hide LineOf;
  }
}

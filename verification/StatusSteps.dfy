/**
 * What each step does to the statuses of each line (apps/api/src/proposals/pricing-definition.ts), told from the
 * lines before it: no member of the steps is named here but `Next`.
 */
module StatusSteps {
  import opened Outcomes
  import opened Configuration
  import opened PriceStatuses

  /** The last line of that key. */
  ghost predicate LastOfKey(lines: Lines, key: string, k: int) {
    0 <= k < |lines| && lines[k].key == key && forall j :: k < j < |lines| ==> lines[j].key != key
  }

  lemma {:induction false} LastIsFound(lines: Lines, key: string)
    ensures PriceStatuses.LineOf(lines, key).None? <==> forall l :: l in lines ==> l.key != key
    ensures forall k :: LastOfKey(lines, key, k) ==> PriceStatuses.LineOf(lines, key) == Some(lines[k])
    ensures PriceStatuses.LineOf(lines, key).Some? ==> exists k :: LastOfKey(lines, key, k)
  {
    if lines != [] {
      var init, last := lines[..|lines| - 1], lines[|lines| - 1];
      assert lines == init + [last];
      LastIsFound(init, key);
      if last.key == key {
        assert LastOfKey(lines, key, |init|);
      } else {
        forall k
          ensures LastOfKey(lines, key, k) <==> LastOfKey(init, key, k)
        {
          assert forall j :: 0 <= j < |init| ==> lines[j] == init[j];
          assert lines[|init|] == last;
        }
      }
    }
  }

  /** The line of that key has that price. */
  ghost predicate SamePrice(lines: Lines, l: Line, k: int) {
    LastOfKey(lines, l.key, k) && lines[k].pricing == l.pricing
  }

  /** Statuses are kept with a price that stays, and set back to be validated with one that changes. */
  ghost predicate EditedAs(asked: Line, after: Line, lines: Lines) {
    && after.key == asked.key && after.pricing == asked.pricing
    && (forall k :: SamePrice(lines, asked, k) ==> after.status == lines[k].status && after.statusByChoice == lines[k].statusByChoice)
    && ((forall k :: !SamePrice(lines, asked, k)) ==> after.status == TO_VALIDATE && after.statusByChoice.None?)
  }

  /** The value named is validated, and the line with it once all its values are; a line without values as a whole. */
  ghost predicate ValidatedAs(before: Line, after: Line, value: Option<string>) {
    && after.key == before.key && after.pricing == before.pricing
    && match before.statusByChoice
       case None => after.status == VALIDATED && after.statusByChoice.None?
       case Some(m) =>
         if value.Some? && value.value != "" && value.value in m && m[value.value] == TO_VALIDATE then
           && after.statusByChoice == Some(m[value.value := VALIDATED])
           && after.status == (if forall w :: w in m && w != value.value ==> m[w] == VALIDATED then VALIDATED else before.status)
         else after == before
  }

  /** What the template validates at the same price is validated, and nothing is set back. */
  ghost predicate TakenOverAs(before: Line, after: Line, template: Lines) {
    && after.key == before.key && after.pricing == before.pricing
    && ((forall k :: !SamePrice(template, before, k)) ==> after == before)
    && forall k :: SamePrice(template, before, k) ==> RaisedTo(before, after, template[k])
  }

  ghost predicate RaisedTo(before: Line, after: Line, t: Line) {
    && (after.status == VALIDATED <==> before.status == VALIDATED || t.status == VALIDATED)
    && (before.statusByChoice.None? ==> after.statusByChoice.None?)
    && (before.statusByChoice.Some? ==>
          && after.statusByChoice.Some? && after.statusByChoice.value.Keys == before.statusByChoice.value.Keys
          && forall v :: v in before.statusByChoice.value ==>
               (after.statusByChoice.value[v] == VALIDATED <==>
                  before.statusByChoice.value[v] == VALIDATED
                  || (t.statusByChoice.Some? && v in t.statusByChoice.value && t.statusByChoice.value[v] == VALIDATED)))
  }

  lemma EditIsRead(asked: Line, lines: Lines)
    ensures EditedAs(asked, EnforceLine(asked, lines), lines)
  {
    LastIsFound(lines, asked.key);
    hide PriceStatuses.LineOf;
  }

  lemma TakeOverIsRead(before: Line, template: Lines)
    ensures TakenOverAs(before, MergeLine(before, template), template)
  {
    LastIsFound(template, before.key);
    hide PriceStatuses.LineOf;
    forall k | SamePrice(template, before, k)
      ensures RaisedTo(before, MergeLine(before, template), template[k])
    {
    }
    if MergeLine(before, template) != before {
      var k :| LastOfKey(template, before.key, k);
      assert SamePrice(template, before, k);
    }
  }

  lemma ValidationIsRead(before: Line, value: Option<string>)
    ensures ValidatedAs(before, LineAfter([before], before, Validate(before.key, value)), value)
  {
    if before.statusByChoice.Some? && value.Some? && value.value in before.statusByChoice.value {
      var m := before.statusByChoice.value;
      var validated := m[value.value := VALIDATED];
      assert forall w :: w in m ==> w in validated && validated[w] == if w == value.value then VALIDATED else m[w];
      assert validated.Keys == m.Keys;
    }
  }

  /** Each step, line by line: what is not named by it stays as it is. */
  lemma StepIsRead(lines: Lines, step: Step, i: nat)
    requires DistinctKeys(lines) && i < |Next(lines, step)|
    ensures var after := Next(lines, step);
            match step
            case Edit(asked) => |after| == |asked| && EditedAs(asked[i], after[i], lines)
            case Validate(key, value) =>
              |after| == |lines| && if lines[i].key == key then ValidatedAs(lines[i], after[i], value) else after[i] == lines[i]
            case TakeOver(template) => |after| == |lines| && TakenOverAs(lines[i], after[i], template)
  {
    NextAt(lines, step, i);
    StepKeepsKeys(lines, step, i);
    hide EditedAs, ValidatedAs, TakenOverAs, Next, ValidatedStatuses, MergeLine, EnforceLine;
    match step
    case Edit(asked) => EditIsRead(asked[i], lines);
    case Validate(key, value) =>
      if lines[i].key == key {
        ValidationIsRead(lines[i], value);
      }
    case TakeOver(template) => TakeOverIsRead(lines[i], template);
  }
}

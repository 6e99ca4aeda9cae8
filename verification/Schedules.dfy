/** Choice of the schedule version valid at a date (packages/pricing/src/schedule.ts). */
module Schedules {
  import opened Outcomes
  import opened Sums
  import opened Calendar
  import opened PricingTypes

  predicate ValidVersion(s: Schedule) {
    && ValidDay(s.validFrom)
    && (s.validTo.Some? ==> ValidDay(s.validTo.value) && s.validFrom <= s.validTo.value)
  }

  predicate InForce(s: Schedule, date: Day) {
    s.validFrom <= date && (s.validTo.None? || date <= s.validTo.value)
  }

  function Matching(date: Day): Schedule -> seq<Schedule> {
    (s: Schedule) => if InForce(s, date) then [s] else []
  }

  function SelectSchedule(schedules: seq<Schedule>, date: Day): Result<Schedule> {
    if !ValidDay(date) || exists s :: s in schedules && !ValidVersion(s) then Err(INVALID_DATE)
    else
      var matching := FlatMap(schedules, Matching(date));
      if |matching| == 0 then Err(NO_SCHEDULE)
      else if |matching| > 1 then Err(OVERLAPPING_SCHEDULES)
      else Ok(matching[0])
  }

  /** Two versions of a history never cover the same day. */
  ghost predicate Disjoint(schedules: seq<Schedule>) {
    forall i, j, d :: 0 <= i < j < |schedules| && InForce(schedules[i], d) ==> !InForce(schedules[j], d)
  }

  lemma {:induction false} MatchingOf(schedules: seq<Schedule>, date: Day)
    ensures |FlatMap(schedules, Matching(date))| == 0 <==> forall s :: s in schedules ==> !InForce(s, date)
    ensures Disjoint(schedules) ==> |FlatMap(schedules, Matching(date))| <= 1
  {
    if schedules != [] {
      var last := |schedules| - 1;
      MatchingOf(schedules[..last], date);
      assert schedules == schedules[..last] + [schedules[last]];
      if Disjoint(schedules) {
        assert forall i :: 0 <= i < last ==> schedules[..last][i] == schedules[i];
        assert Disjoint(schedules[..last]);
        if InForce(schedules[last], date) {
          forall s | s in schedules[..last]
            ensures !InForce(s, date)
          {
            var i :| 0 <= i < last && schedules[i] == s;
          }
        }
      }
    }
  }

  /** On a disjoint history the selection is the one version in force, and never ambiguous. */
  lemma SelectionOnDisjoint(schedules: seq<Schedule>, date: Day)
    requires ValidDay(date) && Disjoint(schedules) && forall s :: s in schedules ==> ValidVersion(s)
    ensures SelectSchedule(schedules, date) != Err(OVERLAPPING_SCHEDULES)
    ensures forall s :: SelectSchedule(schedules, date) == Ok(s) <==> s in schedules && InForce(s, date)
  {
    MatchingOf(schedules, date);
    var matching := FlatMap(schedules, Matching(date));
    forall s
      ensures SelectSchedule(schedules, date) == Ok(s) <==> s in schedules && InForce(s, date)
    {
      FlatMapMembers(schedules, Matching(date), s);
      assert |matching| == 1 ==> matching == [matching[0]];
    }
  }

  /** Versions that do not cover the date play no part in the selection. */
  lemma {:induction false} OthersPlayNoPart(schedules: seq<Schedule>, more: seq<Schedule>, date: Day)
    requires forall s :: s in more ==> ValidVersion(s) && !InForce(s, date)
    ensures SelectSchedule(schedules + more, date) == SelectSchedule(schedules, date)
  {
    FlatMapAppend(schedules, more, Matching(date));
    MatchingOf(more, date);
    assert FlatMap(schedules, Matching(date)) + [] == FlatMap(schedules, Matching(date));
    assert forall s :: s in schedules + more <==> s in schedules || s in more;
  }
}

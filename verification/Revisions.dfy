/** Next price revision of a contract (apps/api/src/pricing/pricing.service.ts, `nextRevisionDate`, `nextAnniversary`). */
module Revisions {
  import opened Outcomes
  import opened Calendar

  /** The anniversary of a day in a year: 29 February falls on the 28th in a common year. */
  function Anniversary(date: Day, year: int): Day {
    var last := DaysInMonth(year, Month(date));
    MakeDay(year, Month(date), if DayOfMonth(date) <= last then DayOfMonth(date) else last)
  }

  predicate LateEnough(day: Day, from: Day, after: Option<Day>) {
    day >= from && (after.Some? ==> day > after.value)
  }

  /** Days whose anniversaries can still be written with four digits. */
  predicate Bounded(d: Day) { ValidDay(d) && Year(d) < 9999 }

  lemma AnniversaryParts(date: Day, year: int)
    requires ValidDay(date) && 100 <= year <= 9999
    ensures ValidDay(Anniversary(date, year)) && Year(Anniversary(date, year)) == year && Month(Anniversary(date, year)) == Month(date)
  {
    DayParts(date);
    var last := DaysInMonth(year, Month(date));
    PartsOfDay(year, Month(date), if DayOfMonth(date) <= last then DayOfMonth(date) else last);
  }

  /** Days of a later year come later. */
  lemma LaterYearLaterDay(d: Day, e: Day)
    requires Year(d) < Year(e)
    ensures d < e
  {
  }

  /** Years go up until the anniversary is late enough, one past the latest bound at most. */
  method NextAnniversary(date: Day, from: Day, after: Option<Day>) returns (next: Day)
    requires Bounded(date) && Bounded(from) && (after.Some? ==> Bounded(after.value))
    ensures LateEnough(next, from, after) && ValidDay(next)
    ensures Year(next) > Year(date) && next == Anniversary(date, Year(next))
    ensures forall y :: Year(date) < y <= 9999 && LateEnough(Anniversary(date, y), from, after) ==> next <= Anniversary(date, y)
  {
    hide Year, ValidDay, Anniversary;
    assert 100 <= Year(date) < 9999 by { BoundedYear(date); }
    ghost var top := Latest(Year(from), if after.Some? then Year(after.value) else Year(from));
    assert top < 9999 by { BoundedYear(from); if after.Some? { BoundedYear(after.value); } }
    var year := Year(date) + 1;
    next := Anniversary(date, year);
    BoundedIsValid(date);
    AnniversaryParts(date, year);
    while !LateEnough(next, from, after)
      invariant Year(date) < year <= 9999
      invariant next == Anniversary(date, year) && ValidDay(next) && Year(next) == year
      invariant forall y :: Year(date) < y < year ==> !LateEnough(Anniversary(date, y), from, after)
      decreases 9999 - year
    {
      StillBelow(next, from, after);
      year := year + 1;
      next := Anniversary(date, year);
      AnniversaryParts(date, year);
    }
    forall y | Year(date) < y <= 9999 && LateEnough(Anniversary(date, y), from, after)
      ensures next <= Anniversary(date, y)
    {
      AnniversaryParts(date, y);
      if y > year {
        LaterYearLaterDay(next, Anniversary(date, y));
      }
    }
  }

  function Latest(a: int, b: int): int { if a >= b then a else b }

  lemma BoundedYear(d: Day)
    requires Bounded(d)
    ensures 100 <= Year(d) < 9999
  {
  }

  lemma BoundedIsValid(d: Day)
    requires Bounded(d)
    ensures ValidDay(d)
  {
  }

  /** A day that is too early has a year at most that of the bounds. */
  lemma StillBelow(day: Day, from: Day, after: Option<Day>)
    requires !LateEnough(day, from, after)
    ensures Year(day) <= Latest(Year(from), if after.Some? then Year(after.value) else Year(from))
  {
    if Year(day) > Latest(Year(from), if after.Some? then Year(after.value) else Year(from)) {
      LaterYearLaterDay(from, day);
      if after.Some? {
        LaterYearLaterDay(after.value, day);
      }
    }
  }

  /** What the loop finds, as a relation: the least anniversary of a later year that is late enough. */
  ghost predicate IsNext(next: Day, date: Day, from: Day, after: Option<Day>) {
    && LateEnough(next, from, after)
    && Year(next) > Year(date) && next == Anniversary(date, Year(next))
    && forall y :: Year(date) < y <= 9999 && LateEnough(Anniversary(date, y), from, after) ==> next <= Anniversary(date, y)
  }

  // ------------------------------------------------------------------ next revision

  /** A version of the schedule, and the revision dates of its lines. */
  datatype Version = Version(engaged: bool, validFrom: Day, validTo: Option<Day>, revisionDates: seq<Day>)

  /** The versions read: engaged, and not over before today. */
  predicate Read(v: Version, today: Day) {
    v.engaged && (v.validTo.None? || v.validTo.value >= today)
  }

  predicate Upcoming(rd: Day, v: Version, today: Day) { rd >= today && rd >= v.validFrom }

  /** A future revision borne by its version, or the next anniversary of a past one on an open version. */
  ghost predicate IsCandidate(c: Day, rd: Day, v: Version, today: Day) {
    if Upcoming(rd, v, today) then (v.validTo.None? || rd <= v.validTo.value) && c == rd
    else v.validTo.None? && IsNext(c, rd, today, Some(v.validFrom))
  }

  ghost predicate Candidate(c: Day, versions: seq<Version>, today: Day) {
    exists i, j :: 0 <= i < |versions| && 0 <= j < |versions[i].revisionDates|
            && Read(versions[i], today) && IsCandidate(c, versions[i].revisionDates[j], versions[i], today)
  }

  ghost predicate AllBounded(versions: seq<Version>) {
    forall v :: v in versions ==> Bounded(v.validFrom) && forall rd :: rd in v.revisionDates ==> Bounded(rd)
  }

  /** Does a revision date give a candidate at all? */
  predicate Yields(rd: Day, v: Version, today: Day) {
    if Upcoming(rd, v, today) then v.validTo.None? || rd <= v.validTo.value else v.validTo.None?
  }

  ghost predicate Found(candidates: seq<Day>, rd: Day, v: Version, today: Day) {
    exists c :: c in candidates && IsCandidate(c, rd, v, today)
  }

  lemma FoundAmongMore(candidates: seq<Day>, more: seq<Day>, rd: Day, v: Version, today: Day)
    requires Found(candidates, rd, v, today)
    ensures Found(candidates + more, rd, v, today)
  {
    var c :| c in candidates && IsCandidate(c, rd, v, today);
    assert c in candidates + more;
  }

  /** The candidates of one version, pushed in the order of its lines. */
  method CandidatesOf(v: Version, today: Day) returns (candidates: seq<Day>)
    requires Bounded(today) && Bounded(v.validFrom) && forall rd :: rd in v.revisionDates ==> Bounded(rd)
    ensures forall c :: c in candidates ==> exists j :: 0 <= j < |v.revisionDates| && IsCandidate(c, v.revisionDates[j], v, today)
    ensures forall j :: 0 <= j < |v.revisionDates| && Yields(v.revisionDates[j], v, today) ==> Found(candidates, v.revisionDates[j], v, today)
  {
    hide Year, ValidDay, Anniversary;
    candidates := [];
    for i := 0 to |v.revisionDates|
      invariant forall c :: c in candidates ==> exists j :: 0 <= j < i && IsCandidate(c, v.revisionDates[j], v, today)
      invariant forall j :: 0 <= j < i && Yields(v.revisionDates[j], v, today) ==> Found(candidates, v.revisionDates[j], v, today)
    {
      var rd := v.revisionDates[i];
      ghost var before := candidates;
      if Upcoming(rd, v, today) {
        if v.validTo.None? || rd <= v.validTo.value {
          candidates := candidates + [rd];
          assert IsCandidate(rd, v.revisionDates[i], v, today) && rd in candidates;
        }
      } else if v.validTo.None? {
        var next := NextAnniversary(rd, today, Some(v.validFrom));
        candidates := candidates + [next];
        assert IsCandidate(next, v.revisionDates[i], v, today) && next in candidates;
      }
      forall j | 0 <= j < i && Yields(v.revisionDates[j], v, today)
        ensures Found(candidates, v.revisionDates[j], v, today)
      {
        FoundAmongMore(before, candidates[|before|..], v.revisionDates[j], v, today);
        assert before + candidates[|before|..] == candidates;
      }
    }
  }

  /** The earliest of a day found so far and of candidates. */
  method Earliest(best: Option<Day>, candidates: seq<Day>) returns (next: Option<Day>)
    ensures next.Some? ==> next == best || next.value in candidates
    ensures best.Some? ==> next.Some? && next.value <= best.value
    ensures forall c :: c in candidates ==> next.Some? && next.value <= c
  {
    next := best;
    for k := 0 to |candidates|
      invariant next.Some? ==> next == best || next.value in candidates[..k]
      invariant best.Some? ==> next.Some? && next.value <= best.value
      invariant forall c :: c in candidates[..k] ==> next.Some? && next.value <= c
    {
      assert candidates[..k + 1] == candidates[..k] + [candidates[k]];
      if next.None? || candidates[k] < next.value {
        next := Some(candidates[k]);
      }
    }
    assert candidates[..|candidates|] == candidates;
  }

  /**
   * The next revision is the earliest candidate of the versions in force, and never before today;
   * there is none exactly when no version has a candidate.
   */
  method NextRevisionDate(versions: seq<Version>, today: Day) returns (next: Option<Day>)
    requires Bounded(today) && AllBounded(versions)
    ensures next.Some? ==> Candidate(next.value, versions, today) && next.value >= today
    ensures forall c :: Candidate(c, versions, today) && Year(c) <= 9999 ==> next.Some? && next.value <= c
  {
    hide Year, IsNext, Bounded, Candidate, IsCandidate, Complete, EarliestIn;
    next := None;
    NothingYet(today);
    assert versions[..0] == [];
    for i := 0 to |versions|
      invariant EarliestIn(next, versions[..i], today)
    {
      var v := versions[i];
      assert v in versions;
      ghost var best := next;
      if Read(v, today) {
        var candidates := CandidatesOf(v, today);
        CandidatesAreComplete(candidates, v, today);
        next := Earliest(next, candidates);
        EarliestWithMore(versions, i, today, best, next, candidates);
      } else {
        EarliestWithout(versions, i, today, next);
      }
    }
    assert versions[..|versions|] == versions;
    EarliestMeans(next, versions, today);
  }

  /** The earliest candidate of some versions, none before today. */
  ghost predicate EarliestIn(next: Option<Day>, versions: seq<Version>, today: Day) {
    && (next.Some? ==> Candidate(next.value, versions, today) && next.value >= today)
    && forall c :: Candidate(c, versions, today) && Year(c) <= 9999 ==> next.Some? && next.value <= c
  }

  lemma EarliestMeans(next: Option<Day>, versions: seq<Version>, today: Day)
    requires EarliestIn(next, versions, today)
    ensures next.Some? ==> Candidate(next.value, versions, today) && next.value >= today
    ensures forall c :: Candidate(c, versions, today) && Year(c) <= 9999 ==> next.Some? && next.value <= c
  {
    hide Candidate, Year;
  }

  lemma NothingYet(today: Day)
    ensures EarliestIn(None, [], today)
  {
    hide IsCandidate, Year;
  }

  lemma EarliestWithMore(versions: seq<Version>, i: nat, today: Day, best: Option<Day>, next: Option<Day>, candidates: seq<Day>)
    requires i < |versions| && Read(versions[i], today) && Complete(candidates, versions[i], today)
    requires EarliestIn(best, versions[..i], today)
    requires next.Some? ==> next == best || next.value in candidates
    requires best.Some? ==> next.Some? && next.value <= best.value
    requires forall c :: c in candidates ==> next.Some? && next.value <= c
    ensures EarliestIn(next, versions[..i + 1], today)
  {
    hide Candidate, Complete, Year, Read;
    CandidatesSplit(versions, i, today, candidates);
    if next.Some? && next != best {
      CandidateNotBefore(next.value, versions[i], today, candidates);
    }
  }

  lemma EarliestWithout(versions: seq<Version>, i: nat, today: Day, best: Option<Day>)
    requires i < |versions| && !Read(versions[i], today) && EarliestIn(best, versions[..i], today)
    ensures EarliestIn(best, versions[..i + 1], today)
  {
    hide Candidate, Year, Read;
    NoCandidate(versions, i, today);
  }

  ghost predicate Complete(candidates: seq<Day>, v: Version, today: Day) {
    && (forall c :: c in candidates ==> exists j :: 0 <= j < |v.revisionDates| && IsCandidate(c, v.revisionDates[j], v, today))
    && (forall c, j :: 0 <= j < |v.revisionDates| && IsCandidate(c, v.revisionDates[j], v, today) && Year(c) <= 9999 ==> exists b :: b in candidates && b <= c)
  }

  lemma CandidatesAreComplete(candidates: seq<Day>, v: Version, today: Day)
    requires forall c :: c in candidates ==> exists j :: 0 <= j < |v.revisionDates| && IsCandidate(c, v.revisionDates[j], v, today)
    requires forall j :: 0 <= j < |v.revisionDates| && Yields(v.revisionDates[j], v, today) ==> Found(candidates, v.revisionDates[j], v, today)
    ensures Complete(candidates, v, today)
  {
    hide Anniversary, Year;
    forall c, j | 0 <= j < |v.revisionDates| && IsCandidate(c, v.revisionDates[j], v, today) && Year(c) <= 9999
      ensures exists b :: b in candidates && b <= c
    {
      assert Yields(v.revisionDates[j], v, today);
      var b :| b in candidates && IsCandidate(b, v.revisionDates[j], v, today);
      assert b <= c;
    }
  }

  lemma CandidatesSplit(versions: seq<Version>, i: nat, today: Day, candidates: seq<Day>)
    requires i < |versions| && Read(versions[i], today) && Complete(candidates, versions[i], today)
    ensures forall c :: c in candidates ==> Candidate(c, versions[..i + 1], today)
    ensures forall c :: Candidate(c, versions[..i], today) ==> Candidate(c, versions[..i + 1], today)
    ensures forall c :: Candidate(c, versions[..i + 1], today) && Year(c) <= 9999 ==>
              Candidate(c, versions[..i], today) || exists b :: b in candidates && b <= c
  {
    hide IsCandidate, Year;
    var before, after := versions[..i], versions[..i + 1];
    assert after[i] == versions[i];
    forall c | c in candidates
      ensures Candidate(c, after, today)
    {
      var j :| 0 <= j < |versions[i].revisionDates| && IsCandidate(c, versions[i].revisionDates[j], versions[i], today);
      assert IsCandidate(c, after[i].revisionDates[j], after[i], today);
    }
    forall c | Candidate(c, before, today)
      ensures Candidate(c, after, today)
    {
      var k, j :| 0 <= k < |before| && 0 <= j < |before[k].revisionDates| && Read(before[k], today) && IsCandidate(c, before[k].revisionDates[j], before[k], today);
      assert after[k] == before[k];
    }
    forall c | Candidate(c, after, today) && Year(c) <= 9999
      ensures Candidate(c, before, today) || exists b :: b in candidates && b <= c
    {
      var k, j :| 0 <= k < |after| && 0 <= j < |after[k].revisionDates| && Read(after[k], today) && IsCandidate(c, after[k].revisionDates[j], after[k], today);
      if k < i {
        assert after[k] == before[k];
      }
    }
  }

  lemma NoCandidate(versions: seq<Version>, i: nat, today: Day)
    requires i < |versions| && !Read(versions[i], today)
    ensures forall c :: Candidate(c, versions[..i + 1], today) <==> Candidate(c, versions[..i], today)
  {
    hide IsCandidate;
    var before, after := versions[..i], versions[..i + 1];
    forall c
      ensures Candidate(c, after, today) <==> Candidate(c, before, today)
    {
      if Candidate(c, after, today) {
        var k, j :| 0 <= k < |after| && 0 <= j < |after[k].revisionDates| && Read(after[k], today) && IsCandidate(c, after[k].revisionDates[j], after[k], today);
        assert k != i && before[k] == after[k];
      }
      if Candidate(c, before, today) {
        var k, j :| 0 <= k < |before| && 0 <= j < |before[k].revisionDates| && Read(before[k], today) && IsCandidate(c, before[k].revisionDates[j], before[k], today);
        assert after[k] == before[k];
      }
    }
  }

  lemma CandidateNotBefore(c: Day, v: Version, today: Day, candidates: seq<Day>)
    requires Complete(candidates, v, today) && c in candidates
    ensures c >= today
  {
    hide Anniversary, Year;
  }

  // ------------------------------------------------------------ what the dates mean

  /** The same day of the same month of a later year; the 28th for a 29 February when that year has none. */
  predicate Recurs(e: Day, date: Day) {
    && ValidDay(e) && e / 10000 > date / 10000 && e / 100 % 100 == date / 100 % 100
    && (e % 100 == date % 100 || (date % 10000 == 229 && e % 10000 == 228 && !ValidDay(e + 1)))
  }

  lemma AnniversaryRecurs(e: Day, date: Day)
    requires Bounded(date)
    ensures Recurs(e, date) <==> Year(date) < Year(e) <= 9999 && e == Anniversary(date, Year(e))
  {
    DayParts(e);
    DayParts(date);
    TenThousand(e);
    TenThousand(date);
    if Year(date) < Year(e) <= 9999 {
      AnniversaryParts(date, Year(e));
      PartsOfDay(Year(e), Month(date), if DayOfMonth(date) <= DaysInMonth(Year(e), Month(date)) then DayOfMonth(date) else DaysInMonth(Year(e), Month(date)));
    }
    hide Year, Month, Period;
    if e == MakeDay(Year(e), 2, 28) {
      PartsOfDay(Year(e), 2, 29);
      assert e + 1 == MakeDay(Year(e), 2, 29);
    }
  }

  lemma TenThousand(d: Day)
    ensures d / 10000 == Year(d) && d % 10000 == 100 * Month(d) + DayOfMonth(d) && d / 100 % 100 == Month(d) && d % 100 == DayOfMonth(d)
  {
  }

  /** A later revision of the version that bears it, or the first recurrence of an earlier one on an open version. */
  ghost predicate RevisedOn(c: Day, rd: Day, v: Version, today: Day) {
    if rd >= today && rd >= v.validFrom then c == rd && (v.validTo.Some? ==> rd <= v.validTo.value)
    else
      && v.validTo.None? && Recurs(c, rd) && c >= today && c > v.validFrom
      && forall e :: Recurs(e, rd) && e >= today && e > v.validFrom ==> c <= e
  }

  /** Among the versions engaged and not over yet. */
  ghost predicate ComesOn(c: Day, versions: seq<Version>, today: Day) {
    exists i, j :: 0 <= i < |versions| && 0 <= j < |versions[i].revisionDates|
            && versions[i].engaged && (versions[i].validTo.Some? ==> today <= versions[i].validTo.value)
            && RevisedOn(c, versions[i].revisionDates[j], versions[i], today)
  }

  lemma NextRecurs(c: Day, rd: Day, v: Version, today: Day)
    requires Bounded(rd) && Year(c) <= 9999
    ensures IsCandidate(c, rd, v, today) <==> RevisedOn(c, rd, v, today)
  {
    if !Upcoming(rd, v, today) {
      hide Recurs, Anniversary, Bounded, Year;
      AnniversaryRecurs(c, rd);
      if IsNext(c, rd, today, Some(v.validFrom)) {
        forall e | Recurs(e, rd) && e >= today && e > v.validFrom
          ensures c <= e
        {
          AnniversaryRecurs(e, rd);
        }
      }
      if RevisedOn(c, rd, v, today) {
        forall y | Year(rd) < y <= 9999 && LateEnough(Anniversary(rd, y), today, Some(v.validFrom))
          ensures c <= Anniversary(rd, y)
        {
          BoundedYear(rd);
          BoundedIsValid(rd);
          AnniversaryParts(rd, y);
          AnniversaryRecurs(Anniversary(rd, y), rd);
        }
      }
    }
  }

  /** What `NextRevisionDate` returns, told from the calendar: the earliest day on which a revision comes, never before today. */
  lemma CandidatesComeOn(c: Day, versions: seq<Version>, today: Day)
    requires AllBounded(versions) && Year(c) <= 9999
    ensures Candidate(c, versions, today) <==> ComesOn(c, versions, today)
  {
    hide IsCandidate, RevisedOn, Year, Bounded;
    forall i, j | 0 <= i < |versions| && 0 <= j < |versions[i].revisionDates|
      ensures IsCandidate(c, versions[i].revisionDates[j], versions[i], today) <==> RevisedOn(c, versions[i].revisionDates[j], versions[i], today)
    {
      assert versions[i] in versions && versions[i].revisionDates[j] in versions[i].revisionDates;
      NextRecurs(c, versions[i].revisionDates[j], versions[i], today);
    }
  }
}

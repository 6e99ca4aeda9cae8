/**
 * What an index lookup and a revision read (packages/pricing/src/indexes.ts, revision.ts), told from the
 * series themselves: no member of the lookup is named here.
 */
module IndexReads {
  import opened Outcomes
  import opened DecimalText
  import opened Calendar
  import opened Indexes

  /** The first series of that code. */
  ghost predicate FirstSeries(indexes: seq<PriceIndex>, code: string, i: int) {
    0 <= i < |indexes| && indexes[i].code == code && forall j :: 0 <= j < i ==> indexes[j].code != code
  }

  /** Every value has a month, a publication day and a decimal of at most ten places, and no month comes twice. */
  ghost predicate WellFormed(values: seq<IndexValue>) {
    && (forall v :: v in values ==> GoodValue(v))
    && forall i, j :: 0 <= i < j < |values| ==> values[i].period != values[j].period
  }

  predicate GoodValue(v: IndexValue) {
    1 <= v.period % 100 <= 12 && 0 <= v.period < 1000000 && ValidDay(v.publishedAt) && ParseDecimal(v.value, 10, false).Ok?
  }

  /** The month of the date alone, or any month up to it whose value was out by the date. */
  predicate MayServe(v: IndexValue, date: Day, rule: LookupRule) {
    match rule
    case EXACT_PERIOD => v.period == date / 100
    case LATEST_PUBLISHED => v.period <= date / 100 && v.publishedAt <= date
  }

  /** The value shown is that of the latest month that may serve. */
  ghost predicate Shows(values: seq<IndexValue>, code: string, date: Day, rule: LookupRule, o: IndexObservation) {
    && o.indexCode == code && o.requestedDate == date && o.rule == rule
    && exists v :: v in values && MayServe(v, date, rule) && o.period == v.period && o.publishedAt == v.publishedAt
         && ParseDecimal(v.value, 10, false) == Ok(o.value)
         && forall w :: w in values && MayServe(w, date, rule) ==> w.period <= v.period
  }

  lemma {:induction false} FoundFirst(indexes: seq<PriceIndex>, code: string)
    ensures FindIndex(indexes, code).None? <==> forall i :: 0 <= i < |indexes| ==> indexes[i].code != code
    ensures FindIndex(indexes, code).Some? ==> exists i :: FirstSeries(indexes, code, i)
    ensures forall i :: FirstSeries(indexes, code, i) ==> FindIndex(indexes, code) == Some(indexes[i])
  {
    if indexes != [] {
      FoundFirst(indexes[1..], code);
      if indexes[0].code == code {
        assert FirstSeries(indexes, code, 0);
      } else {
        forall i | FirstSeries(indexes, code, i)
          ensures FindIndex(indexes, code) == Some(indexes[i])
        {
          assert FirstSeries(indexes[1..], code, i - 1);
        }
        if FindIndex(indexes, code).Some? {
          var i :| FirstSeries(indexes[1..], code, i);
          assert FirstSeries(indexes, code, i + 1);
        }
      }
    }
  }

  lemma CheckedIsWellFormed(values: seq<IndexValue>)
    ensures CheckValues(values).Ok? <==> WellFormed(values)
  {
    forall v
      ensures CheckValue(v).Ok? <==> GoodValue(v)
    {
      hide ParseDecimal;
    }
    hide CheckValue, CheckValues, GoodValue;
    CheckedPeriodsDistinct(values);
  }

  lemma SameElements(v: IndexValue, w: IndexValue, values: seq<IndexValue>)
    requires v in values && w in values && v.period == w.period && WellFormed(values)
    ensures v == w
  {
  }

  lemma ShownIsBest(values: seq<IndexValue>, code: string, date: Day, rule: LookupRule, o: IndexObservation)
    requires WellFormed(values)
    ensures Best(values, date, rule).Some? && Observe(Best(values, date, rule).value, code, date, rule) == Ok(o) <==> Shows(values, code, date, rule, o)
  {
    assert forall v :: Eligible(v, date, rule) <==> MayServe(v, date, rule);
    BestIsLatest(values, date, rule);
    hide ParseDecimal, Best, Eligible, MayServe, WellFormed;
    var best := Best(values, date, rule);
    if Shows(values, code, date, rule, o) {
      var v :| v in values && MayServe(v, date, rule) && o.period == v.period && o.publishedAt == v.publishedAt
               && ParseDecimal(v.value, 10, false) == Ok(o.value) && forall w :: w in values && MayServe(w, date, rule) ==> w.period <= v.period;
      SameElements(v, best.value, values);
    }
  }

  /** A lookup answers exactly what the first well-formed series of that code shows; each refusal has its cause. */
  lemma LookupExactly(indexes: seq<PriceIndex>, code: string, date: Day, rule: LookupRule)
    ensures forall o :: Lookup(indexes, code, date, rule) == Ok(o) <==>
              ValidDay(date) && exists i :: FirstSeries(indexes, code, i) && WellFormed(indexes[i].values) && Shows(indexes[i].values, code, date, rule, o)
    ensures Lookup(indexes, code, date, rule) == Err(INDEX_NOT_FOUND) <==>
              ValidDay(date) && forall i :: 0 <= i < |indexes| ==> indexes[i].code != code
    ensures Lookup(indexes, code, date, rule) == Err(INDEX_VALUE_NOT_FOUND) <==>
              ValidDay(date) && exists i :: FirstSeries(indexes, code, i) && WellFormed(indexes[i].values)
                                          && forall v :: v in indexes[i].values ==> !MayServe(v, date, rule)
  {
    hide WellFormed, ValidDay, Shows;
    FoundFirst(indexes, code);
    if FindIndex(indexes, code).Some? {
      var i :| FirstSeries(indexes, code, i);
      var values := indexes[i].values;
      OnlyOneFirst(indexes, code, i);
      CheckedIsWellFormed(values);
      if WellFormed(values) {
        forall o
          ensures Best(values, date, rule).Some? && Observe(Best(values, date, rule).value, code, date, rule) == Ok(o) <==> Shows(values, code, date, rule, o)
        {
          ShownIsBest(values, code, date, rule, o);
        }
        ServedWhenBest(values, code, date, rule);
      } else {
        OtherRefusals(values);
      }
    }
  }

  lemma OnlyOneFirst(indexes: seq<PriceIndex>, code: string, i: int)
    requires FirstSeries(indexes, code, i)
    ensures forall j :: FirstSeries(indexes, code, j) <==> j == i
  {
  }

  lemma ServedWhenBest(values: seq<IndexValue>, code: string, date: Day, rule: LookupRule)
    requires WellFormed(values)
    ensures Best(values, date, rule).None? <==> forall v :: v in values ==> !MayServe(v, date, rule)
    ensures Best(values, date, rule).Some? ==> Observe(Best(values, date, rule).value, code, date, rule).Ok?
  {
    assert forall v :: Eligible(v, date, rule) <==> MayServe(v, date, rule);
    hide ParseDecimal;
    BestIsLatest(values, date, rule);
  }

  lemma {:induction false} OtherRefusals(values: seq<IndexValue>)
    ensures CheckValues(values) != Err(INDEX_NOT_FOUND) && CheckValues(values) != Err(INDEX_VALUE_NOT_FOUND)
  {
    if values != [] {
      OtherRefusals(values[..|values| - 1]);
    }
  }

  // ---------------------------------------------------------------- revision

  /** The texts and readings of a revision: shares that make one, and a reference that is not zero. */
  ghost predicate RevisionRead(spec: RevisionSpec, indexes: seq<PriceIndex>, defaultLookup: LookupRule, r: RevisionComputation) {
    var rule := if spec.lookup.Some? then spec.lookup.value else defaultLookup;
    && ParseDecimal(spec.a, 6, false) == Ok(r.a) && ParseDecimal(spec.b, 6, false) == Ok(r.b) && r.a + r.b == 1.0
    && Lookup(indexes, spec.indexCode, spec.referenceDate, rule) == Ok(r.S0)
    && Lookup(indexes, spec.indexCode, spec.revisionDate, rule) == Ok(r.S1) && r.S0.value != 0.0
  }

  /** P1 = P0 x (a + b x S1 / S0), told by products. */
  predicate RevisionWorks(P0: real, r: RevisionComputation) {
    && r.ratio * r.S0.value == r.S1.value && r.coefficient == r.a + r.b * r.ratio
    && r.exact * r.S0.value == P0 * (r.a * r.S0.value + r.b * r.S1.value)
  }

  lemma WorksOnlyOneWay(P0: real, r: RevisionComputation)
    requires r.S0.value != 0.0
    ensures RevisionWorks(P0, r) <==> r == Revise(P0, r.a, r.b, r.S0, r.S1)
  {
    var x, s0, s1 := Revise(P0, r.a, r.b, r.S0, r.S1), r.S0.value, r.S1.value;
    RatioTimes(s1, s0);
    Distributes(P0, r.a, r.b, x.ratio, s0, s1);
    if RevisionWorks(P0, r) {
      SameQuotient(r.ratio, x.ratio, s0);
      SameQuotient(r.exact, x.exact, s0);
    }
  }

  lemma SameQuotient(x: real, y: real, s: real)
    requires s != 0.0 && x * s == y * s
    ensures x == y
  {
    assert (x - y) * s == 0.0;
  }

  lemma Distributes(P0: real, a: real, b: real, ratio: real, s0: real, s1: real)
    requires ratio * s0 == s1
    ensures P0 * (a + b * ratio) * s0 == P0 * (a * s0 + b * s1)
  {
    assert b * ratio * s0 == b * s1;
    assert (a + b * ratio) * s0 == a * s0 + b * s1;
  }

  /** A revision succeeds exactly on what it can read, with the one price its formula gives. */
  lemma RevisionExactly(P0: real, spec: RevisionSpec, indexes: seq<PriceIndex>, defaultLookup: LookupRule, r: RevisionComputation)
    ensures ComputeRevision(P0, spec, indexes, defaultLookup) == Ok(r) <==> RevisionRead(spec, indexes, defaultLookup, r) && RevisionWorks(P0, r)
  {
    hide ParseDecimal, Lookup, Revise, RevisionWorks;
    assert r.S0.value != 0.0 ==> Revise(P0, r.a, r.b, r.S0, r.S1).S0 == r.S0 by {
      if r.S0.value != 0.0 { RevisedKeeps(P0, r); }
    }
    if r.S0.value != 0.0 {
      WorksOnlyOneWay(P0, r);
    }
    if ComputeRevision(P0, spec, indexes, defaultLookup) == Ok(r) {
      RevisionReads(P0, spec, indexes, defaultLookup);
    }
  }

  lemma RevisedKeeps(P0: real, r: RevisionComputation)
    requires r.S0.value != 0.0
    ensures var x := Revise(P0, r.a, r.b, r.S0, r.S1); x.S0 == r.S0 && x.S1 == r.S1 && x.a == r.a && x.b == r.b
  {
  }
}

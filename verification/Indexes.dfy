/** Index lookup at a date and native revision (packages/pricing/src/indexes.ts, revision.ts). */
module Indexes {
  import opened Outcomes
  import opened DecimalText
  import opened Calendar

  datatype LookupRule = LATEST_PUBLISHED | EXACT_PERIOD

  datatype IndexValue = IndexValue(period: int, value: string, publishedAt: Day)

  datatype PriceIndex = PriceIndex(code: string, values: seq<IndexValue>)

  datatype IndexObservation =
    IndexObservation(indexCode: string, requestedDate: Day, rule: LookupRule, period: int, value: real, publishedAt: Day)

  const VALUE_SCALE: nat := 10

  function CheckValue(v: IndexValue): Result<()> {
    if !ValidPeriod(v.period) || !ValidDay(v.publishedAt) then Err(INVALID_DATE)
    else var value := ParseDecimal(v.value, VALUE_SCALE, false); if value.Err? then Err(value.code) else Ok(())
  }

  function Periods(values: seq<IndexValue>): set<int> {
    set v | v in values :: v.period
  }

  /** The validating loop: every value well formed, no period twice. */
  function CheckValues(values: seq<IndexValue>): Result<()> {
    if values == [] then Ok(())
    else
      var before := CheckValues(values[..|values| - 1]);
      var v := values[|values| - 1];
      if before.Err? then before
      else if CheckValue(v).Err? then CheckValue(v)
      else Check(v.period !in Periods(values[..|values| - 1]), DUPLICATE_INDEX_VALUE)
  }

  predicate Eligible(v: IndexValue, date: Day, rule: LookupRule) {
    match rule
    case EXACT_PERIOD => v.period == Period(date)
    case LATEST_PUBLISHED => v.period <= Period(date) && v.publishedAt <= date
  }

  /** Latest period among the eligible values, the first one found on a tie. */
  function Best(values: seq<IndexValue>, date: Day, rule: LookupRule): Option<IndexValue> {
    if values == [] then None
    else
      var best := Best(values[..|values| - 1], date, rule);
      var v := values[|values| - 1];
      if Eligible(v, date, rule) && (best.None? || v.period > best.value.period) then Some(v) else best
  }

  function FindIndex(indexes: seq<PriceIndex>, code: string): Option<PriceIndex> {
    if indexes == [] then None
    else if indexes[0].code == code then Some(indexes[0])
    else FindIndex(indexes[1..], code)
  }

  function Observe(v: IndexValue, code: string, date: Day, rule: LookupRule): Result<IndexObservation> {
    var value := ParseDecimal(v.value, VALUE_SCALE, false);
    if value.Err? then Err(value.code)
    else Ok(IndexObservation(code, date, rule, v.period, value.value, v.publishedAt))
  }

  function Lookup(indexes: seq<PriceIndex>, code: string, date: Day, rule: LookupRule): Result<IndexObservation> {
    if !ValidDay(date) then Err(INVALID_DATE)
    else
      var index := FindIndex(indexes, code);
      if index.None? then Err(INDEX_NOT_FOUND)
      else if CheckValues(index.value.values).Err? then Err(CheckValues(index.value.values).code)
      else
        var found := Best(index.value.values, date, rule);
        if found.None? then Err(INDEX_VALUE_NOT_FOUND) else Observe(found.value, code, date, rule)
  }

  method CheckSeries(values: seq<IndexValue>) returns (r: Result<()>)
    ensures r == CheckValues(values)
  {
    hide CheckValue;
    var seen: set<int> := {};
    for i := 0 to |values|
      invariant CheckValues(values[..i]).Ok?
      invariant seen == Periods(values[..i])
    {
      assert values[..i + 1][..i] == values[..i];
      CheckValuesPrefix(values, i + 1);
      var checked := CheckValue(values[i]);
      if checked.Err? {
        return checked;
      }
      if values[i].period in seen {
        return Err(DUPLICATE_INDEX_VALUE);
      }
      seen := seen + {values[i].period};
    }
    assert values[..|values|] == values;
    r := Ok(());
  }

  method LookupIndexValue(indexes: seq<PriceIndex>, code: string, date: Day, rule: LookupRule)
    returns (r: Result<IndexObservation>)
    ensures r == Lookup(indexes, code, date, rule)
  {
    if !ValidDay(date) {
      return Err(INVALID_DATE);
    }
    var index := FindIndex(indexes, code);
    if index.None? {
      return Err(INDEX_NOT_FOUND);
    }
    var checked := CheckSeries(index.value.values);
    if checked.Err? {
      return Err(checked.code);
    }
    var found := Best(index.value.values, date, rule);
    if found.None? {
      return Err(INDEX_VALUE_NOT_FOUND);
    }
    r := Observe(found.value, code, date, rule);
  }

  lemma {:induction false} CheckValuesPrefix(values: seq<IndexValue>, n: nat)
    requires n <= |values|
    ensures CheckValues(values[..n]).Err? ==> CheckValues(values) == CheckValues(values[..n])
    decreases |values|
  {
    if n < |values| {
      assert values[..|values| - 1][..n] == values[..n];
      CheckValuesPrefix(values[..|values| - 1], n);
    } else {
      assert values[..n] == values;
    }
  }

  // ------------------------------------------------------------- properties

  /** A validated series holds at most one value per period. */
  ghost predicate OncePerPeriod(values: seq<IndexValue>) {
    forall i, j :: 0 <= i < j < |values| ==> values[i].period != values[j].period
  }

  lemma OneMorePeriod(values: seq<IndexValue>)
    requires values != []
    ensures var before, last := values[..|values| - 1], values[|values| - 1];
            OncePerPeriod(values) <==> OncePerPeriod(before) && last.period !in Periods(before)
  {
    var n := |values| - 1;
    assert forall j :: 0 <= j < n ==> values[..n][j] == values[j];
    if OncePerPeriod(values) {
      forall v | v in values[..n]
        ensures v.period != values[n].period
      {
        var j :| 0 <= j < n && values[j] == v;
      }
    }
    if OncePerPeriod(values[..n]) && values[n].period !in Periods(values[..n]) {
      forall i, j | 0 <= i < j < |values|
        ensures values[i].period != values[j].period
      {
        assert values[..n][i] in values[..n];
      }
    }
  }

  ghost predicate AllChecked(values: seq<IndexValue>) {
    forall v :: v in values ==> CheckValue(v).Ok?
  }

  lemma OneMoreChecked(values: seq<IndexValue>)
    requires values != []
    ensures var before, last := values[..|values| - 1], values[|values| - 1];
            && (AllChecked(values) <==> AllChecked(before) && CheckValue(last).Ok?)
            && (CheckValues(values).Ok? <==> CheckValues(before).Ok? && CheckValue(last).Ok? && last.period !in Periods(before))
  {
    hide CheckValue, Periods;
    assert values == values[..|values| - 1] + [values[|values| - 1]];
  }

  lemma {:induction false} CheckedOnce(values: seq<IndexValue>)
    ensures CheckValues(values).Ok? <==> AllChecked(values) && OncePerPeriod(values)
  {
    if values != [] {
      hide *;
      CheckedOnce(values[..|values| - 1]);
      OneMoreChecked(values);
      OneMorePeriod(values);
    }
  }

  /** A series is accepted exactly when each of its values is and no period comes twice. */
  lemma CheckedPeriodsDistinct(values: seq<IndexValue>)
    ensures CheckValues(values).Ok? <==>
              && (forall v :: v in values ==> CheckValue(v).Ok?)
              && (forall i, j :: 0 <= i < j < |values| ==> values[i].period != values[j].period)
  {
    hide CheckValue, CheckValues;
    CheckedOnce(values);
  }

  lemma {:induction false} BestIsLatest(values: seq<IndexValue>, date: Day, rule: LookupRule)
    ensures var best := Best(values, date, rule);
            && (best.None? <==> forall v :: v in values ==> !Eligible(v, date, rule))
            && (best.Some? ==>
                  && best.value in values && Eligible(best.value, date, rule)
                  && forall v :: v in values && Eligible(v, date, rule) ==> v.period <= best.value.period)
  {
    if values != [] {
      var last := |values| - 1;
      BestIsLatest(values[..last], date, rule);
      assert values == values[..last] + [values[last]];
    }
  }

  /**
   * A lookup succeeds exactly when the series is well formed and has an eligible value, and then
   * it returns the one of the latest eligible period: nothing is interpolated or guessed.
   */
  lemma LookupIsLatestEligible(index: PriceIndex, date: Day, rule: LookupRule)
    requires ValidDay(date) && CheckValues(index.values).Ok?
    ensures var r := Lookup([index], index.code, date, rule);
            if exists v :: v in index.values && Eligible(v, date, rule) then
              && r.Ok?
              && (exists v :: v in index.values && Eligible(v, date, rule) && Observe(v, index.code, date, rule) == r)
              && forall v :: v in index.values && Eligible(v, date, rule) ==> v.period <= r.value.period
            else r == Err(INDEX_VALUE_NOT_FOUND)
  {
    CheckedPeriodsDistinct(index.values);
    BestIsLatest(index.values, date, rule);
    var best := Best(index.values, date, rule);
    if best.Some? {
      assert CheckValue(best.value).Ok?;
    }
  }

  /**
   * The result depends only on the eligible values: not on their order, and not on values of
   * later periods or, for LATEST_PUBLISHED, published after the date. A replay gives the same index.
   */
  lemma LookupReplays(index: PriceIndex, later: PriceIndex, date: Day, rule: LookupRule)
    requires ValidDay(date) && index.code == later.code
    requires CheckValues(index.values).Ok? && CheckValues(later.values).Ok?
    requires forall v :: Eligible(v, date, rule) ==> (v in index.values <==> v in later.values)
    ensures Lookup([later], later.code, date, rule) == Lookup([index], index.code, date, rule)
  {
    BestReplays(index.values, later.values, date, rule);
  }

  lemma BestReplays(values: seq<IndexValue>, later: seq<IndexValue>, date: Day, rule: LookupRule)
    requires CheckValues(values).Ok? && CheckValues(later).Ok?
    requires forall v :: Eligible(v, date, rule) ==> (v in values <==> v in later)
    ensures Best(values, date, rule) == Best(later, date, rule)
  {
    hide Best, CheckValues, Eligible;
    BestIsLatest(values, date, rule);
    BestIsLatest(later, date, rule);
    CheckedPeriodsDistinct(values);
    var a, b := Best(values, date, rule), Best(later, date, rule);
    assert a.Some? ==> a.value in later;
    assert b.Some? ==> b.value in values;
  }

  // --------------------------------------------------------------- revision

  datatype RevisionSpec = RevisionSpec(
    indexCode: string, a: string, b: string, referenceDate: Day, revisionDate: Day, lookup: Option<LookupRule>)

  datatype RevisionComputation = RevisionComputation(
    a: real, b: real, S0: IndexObservation, S1: IndexObservation, ratio: real, coefficient: real, exact: real)

  /** P1 = P0 x (a + b x S1 / S0), with a + b = 1 exactly. */
  function ComputeRevision(P0: real, spec: RevisionSpec, indexes: seq<PriceIndex>, defaultLookup: LookupRule)
    : Result<RevisionComputation>
  {
    var a :- ParseDecimal(spec.a, 6, false);
    var b :- ParseDecimal(spec.b, 6, false);
    var _ :- Check(a + b == 1.0, INVALID_REVISION_COEFFICIENTS);
    var rule := spec.lookup.GetOr(defaultLookup);
    var S0 :- Lookup(indexes, spec.indexCode, spec.referenceDate, rule);
    var S1 :- Lookup(indexes, spec.indexCode, spec.revisionDate, rule);
    if S0.value == 0.0 then Err(DIVISION_BY_ZERO)
    else Ok(Revise(P0, a, b, S0, S1))
  }

  /** The three operations in their fixed order: ratio, coefficient, price. */
  function Revise(P0: real, a: real, b: real, S0: IndexObservation, S1: IndexObservation): RevisionComputation
    requires S0.value != 0.0
  {
    var ratio := S1.value / S0.value;
    var coefficient := a + b * ratio;
    RevisionComputation(a, b, S0, S1, ratio, coefficient, P0 * coefficient)
  }

  lemma LookupNonNegative(indexes: seq<PriceIndex>, code: string, date: Day, rule: LookupRule)
    requires Lookup(indexes, code, date, rule).Ok?
    ensures Lookup(indexes, code, date, rule).value.value >= 0.0
  {
    var found := Best(FindIndex(indexes, code).value.values, date, rule);
    ParsedDecimal(found.value.value, VALUE_SCALE, false);
  }

  /** What a revision reads. */
  lemma RevisionReads(P0: real, spec: RevisionSpec, indexes: seq<PriceIndex>, defaultLookup: LookupRule)
    requires ComputeRevision(P0, spec, indexes, defaultLookup).Ok?
    ensures var r := ComputeRevision(P0, spec, indexes, defaultLookup).value;
            var rule := spec.lookup.GetOr(defaultLookup);
            && ParseDecimal(spec.a, 6, false) == Ok(r.a) && ParseDecimal(spec.b, 6, false) == Ok(r.b)
            && Lookup(indexes, spec.indexCode, spec.referenceDate, rule) == Ok(r.S0)
            && Lookup(indexes, spec.indexCode, spec.revisionDate, rule) == Ok(r.S1)
            && r.a + r.b == 1.0 && r.S0.value != 0.0
  {
    hide ParseDecimal, Lookup;
  }

  /** What it computes from what it reads. */
  lemma RevisionOperations(P0: real, spec: RevisionSpec, indexes: seq<PriceIndex>, defaultLookup: LookupRule)
    requires ComputeRevision(P0, spec, indexes, defaultLookup).Ok?
    ensures var r := ComputeRevision(P0, spec, indexes, defaultLookup).value;
            && r.ratio * r.S0.value == r.S1.value
            && r.coefficient == r.a + r.b * r.ratio
            && r.exact == P0 * r.coefficient
  {
    hide ParseDecimal, Lookup;
    var r := ComputeRevision(P0, spec, indexes, defaultLookup).value;
    RatioTimes(r.S1.value, r.S0.value);
  }

  lemma RatioTimes(x: real, y: real)
    requires y != 0.0
    ensures x / y * y == x
  {
  }

  lemma RevisionSigns(P0: real, spec: RevisionSpec, indexes: seq<PriceIndex>, defaultLookup: LookupRule)
    requires ComputeRevision(P0, spec, indexes, defaultLookup).Ok?
    ensures var r := ComputeRevision(P0, spec, indexes, defaultLookup).value;
            r.a >= 0.0 && r.b >= 0.0 && r.a + r.b == 1.0 && r.S0.value > 0.0 && r.S1.value >= 0.0
  {
    hide ParseDecimal, Lookup, ComputeRevision;
    RevisionReads(P0, spec, indexes, defaultLookup);
    var rule := spec.lookup.GetOr(defaultLookup);
    LookupNonNegative(indexes, spec.indexCode, spec.referenceDate, rule);
    LookupNonNegative(indexes, spec.indexCode, spec.revisionDate, rule);
    ParsedDecimal(spec.a, 6, false);
    ParsedDecimal(spec.b, 6, false);
  }

  /**
   * A revision never turns a price negative, leaves it unchanged when the index did not move or
   * the clause is fully fixed, and follows the direction of the index.
   */
  lemma RevisionFollowsIndex(P0: real, spec: RevisionSpec, indexes: seq<PriceIndex>, defaultLookup: LookupRule)
    requires P0 >= 0.0 && ComputeRevision(P0, spec, indexes, defaultLookup).Ok?
    ensures var r := ComputeRevision(P0, spec, indexes, defaultLookup).value;
            && r.exact >= 0.0
            && (r.S1.value == r.S0.value || r.b == 0.0 ==> r.exact == P0)
            && (r.S1.value >= r.S0.value ==> r.exact >= P0)
            && (r.S1.value <= r.S0.value ==> r.exact <= P0)
  {
    hide ComputeRevision;
    RevisionSigns(P0, spec, indexes, defaultLookup);
    RevisionOperations(P0, spec, indexes, defaultLookup);
    var r := ComputeRevision(P0, spec, indexes, defaultLookup).value;
    RatioOfIndexes(r.S0.value, r.S1.value, r.ratio);
    CoefficientAroundOne(r.a, r.b, r.ratio, r.coefficient);
    ScaledPrice(P0, r.coefficient);
  }

  lemma RatioOfIndexes(s0: real, s1: real, ratio: real)
    requires s0 > 0.0 && s1 >= 0.0 && ratio * s0 == s1
    ensures ratio >= 0.0
    ensures s1 >= s0 <==> ratio >= 1.0
    ensures s1 <= s0 <==> ratio <= 1.0
  {
    assert (ratio - 1.0) * s0 == s1 - s0;
  }

  lemma CoefficientAroundOne(a: real, b: real, ratio: real, c: real)
    requires a >= 0.0 && b >= 0.0 && a + b == 1.0 && ratio >= 0.0 && c == a + b * ratio
    ensures c >= 0.0
    ensures ratio == 1.0 || b == 0.0 ==> c == 1.0
    ensures ratio >= 1.0 ==> c >= 1.0
    ensures ratio <= 1.0 ==> c <= 1.0
  {
    assert c - 1.0 == b * (ratio - 1.0);
    assert b * ratio >= 0.0;
  }

  lemma ScaledPrice(p: real, c: real)
    requires p >= 0.0 && c >= 0.0
    ensures p * c >= 0.0
    ensures c == 1.0 ==> p * c == p
    ensures c >= 1.0 ==> p * c >= p
    ensures c <= 1.0 ==> p * c <= p
  {
    assert p * c - p == p * (c - 1.0);
  }
}

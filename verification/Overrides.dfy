/** Manual price overrides at a date (packages/pricing/src/overrides.ts). */
module Overrides {
  import opened Outcomes
  import opened Sums
  import opened Money
  import opened DecimalText
  import opened Calendar

  datatype PriceOverride = PriceOverride(
    id: string, lineId: string, unitPrice: string, validFrom: Day, validTo: Day,
    reason: string, authorId: string, approvedBy: Option<string>)

  datatype SkipReason = EMPTY_REASON | REQUIRES_SECOND_APPROVAL | SELF_APPROVAL | SUPERSEDED

  datatype Applied = Applied(source: PriceOverride, unitPrice: real, gapPercent: Option<real>, requiresSecondApproval: bool)

  datatype Skipped = Skipped(overrideId: string, reason: SkipReason, gapPercent: Option<real>)

  datatype Selection = Selection(applied: Option<Applied>, skipped: seq<Skipped>)

  /** Relative gap in percent; None when infinite (computed price zero, other price not). */
  function GapPercent(overridePrice: real, computedPrice: real): Option<real> {
    var diff := Abs(overridePrice - computedPrice);
    if computedPrice == 0.0 then (if diff == 0.0 then Some(0.0) else None)
    else Some(diff / Abs(computedPrice) * 100.0)
  }

  predicate NeedsSecondApproval(gap: Option<real>, threshold: real) {
    gap.None? || gap.value > threshold
  }

  /** Characters removed by `String.prototype.trim`. */
  predicate Blank(s: string) {
    forall c :: c in s ==>
      || '\U{0009}' <= c <= '\U{000D}' || '\U{2000}' <= c <= '\U{200A}'
      || c in {' ', '\U{00A0}', '\U{1680}', '\U{2028}', '\U{2029}', '\U{202F}', '\U{205F}', '\U{3000}', '\U{FEFF}'}
  }

  predicate Covers(o: PriceOverride, date: Day) {
    o.validFrom <= date <= o.validTo
  }

  function Price(o: PriceOverride): Result<real> {
    ParseDecimal(o.unitPrice, 6, false)
  }

  /** Why a covering override is set aside on its own merits, if it is. */
  function Refusal(o: PriceOverride, needs: bool): Option<SkipReason> {
    if Blank(o.reason) then Some(EMPTY_REASON)
    else if needs && (o.approvedBy.None? || o.approvedBy.value == "") then Some(REQUIRES_SECOND_APPROVAL)
    else if needs && o.approvedBy.value == o.authorId then Some(SELF_APPROVAL)
    else None
  }

  /** What the first loop does with one override: nothing, a refusal, or an eligible price. */
  datatype Case = Case(date: Day, computed: real, threshold: real) {
    predicate Readable(o: PriceOverride) {
      Covers(o, date) ==> Price(o).Ok?
    }

    function Judge(o: PriceOverride): Applied
      requires Price(o).Ok?
    {
      var gap := GapPercent(Price(o).value, computed);
      Applied(o, Price(o).value, gap, NeedsSecondApproval(gap, threshold))
    }

    function Refused(): PriceOverride -> seq<Skipped> {
      (o: PriceOverride) =>
        if !Covers(o, date) || Price(o).Err? then []
        else
          var a := Judge(o);
          match Refusal(o, a.requiresSecondApproval)
          case None => []
          case Some(reason) => [Skipped(o.id, reason, a.gapPercent)]
    }

    function Accepted(): PriceOverride -> seq<Applied> {
      (o: PriceOverride) =>
        if !Covers(o, date) || Price(o).Err? then []
        else
          var a := Judge(o);
          if Refusal(o, a.requiresSecondApproval).None? then [a] else []
    }
  }

  /** Index of the latest start, the first one on a tie. */
  function Latest(eligible: seq<Applied>): (k: nat)
    requires eligible != []
    ensures k < |eligible|
    ensures forall j :: 0 <= j < |eligible| ==> eligible[j].source.validFrom <= eligible[k].source.validFrom
  {
    if |eligible| == 1 then 0
    else
      var k := Latest(eligible[..|eligible| - 1]);
      if eligible[|eligible| - 1].source.validFrom > eligible[k].source.validFrom then |eligible| - 1 else k
  }

  function Superseded(latest: Applied): Applied -> seq<Skipped> {
    (a: Applied) => if a.source.validFrom == latest.source.validFrom then [] else [Skipped(a.source.id, SUPERSEDED, a.gapPercent)]
  }

  /** Number of eligible overrides that start on `day`. */
  function StartsOn(day: Day): Applied -> int {
    (a: Applied) => if a.source.validFrom == day then 1 else 0
  }

  function Select(overrides: seq<PriceOverride>, c: Case): Result<Selection> {
    if exists o :: o in overrides && !c.Readable(o) then Err(INVALID_DECIMAL)
    else
      var skipped := FlatMap(overrides, c.Refused());
      var eligible := FlatMap(overrides, c.Accepted());
      if eligible == [] then Ok(Selection(None, skipped))
      else
        var latest := eligible[Latest(eligible)];
        if SumBy(eligible, StartsOn(latest.source.validFrom)) > 1 then Err(AMBIGUOUS_OVERRIDE)
        else Ok(Selection(Some(latest), skipped + FlatMap(eligible, Superseded(latest))))
  }

  /** First loop of `selectOverride`. */
  method Sort(overrides: seq<PriceOverride>, c: Case)
    returns (ok: bool, skipped: seq<Skipped>, eligible: seq<Applied>)
    ensures ok <==> forall o :: o in overrides ==> c.Readable(o)
    ensures ok ==> skipped == FlatMap(overrides, c.Refused())
    ensures ok ==> eligible == FlatMap(overrides, c.Accepted())
  {
    hide Price, Refusal, GapPercent, NeedsSecondApproval, Covers, FlatMap;
    skipped, eligible := [], [];
    NothingSorted(c);
    assert overrides[..0] == [];
    for i := 0 to |overrides|
      invariant forall o :: o in overrides[..i] ==> c.Readable(o)
      invariant skipped == FlatMap(overrides[..i], c.Refused())
      invariant eligible == FlatMap(overrides[..i], c.Accepted())
    {
      var o := overrides[i];
      FlatMapStep(overrides, i, c.Refused());
      FlatMapStep(overrides, i, c.Accepted());
      ReadableSoFar(overrides, i, c);
      if Covers(o, c.date) {
        if Price(o).Err? {
          assert o in overrides && !c.Readable(o);
          return false, [], [];
        }
        var a := c.Judge(o);
        var refusal := Refusal(o, a.requiresSecondApproval);
        if refusal.Some? {
          skipped := skipped + [Skipped(o.id, refusal.value, a.gapPercent)];
        } else {
          eligible := eligible + [a];
        }
      }
    }
    assert overrides[..|overrides|] == overrides;
    ok := true;
  }

  lemma NothingSorted(c: Case)
    ensures FlatMap([], c.Refused()) == [] && FlatMap([], c.Accepted()) == []
  {
  }

  lemma ReadableSoFar(overrides: seq<PriceOverride>, i: nat, c: Case)
    requires i < |overrides| && forall o :: o in overrides[..i] ==> c.Readable(o)
    ensures c.Readable(overrides[i]) ==> forall o :: o in overrides[..i + 1] ==> c.Readable(o)
  {
    hide Price, Covers;
    assert overrides[..i + 1] == overrides[..i] + [overrides[i]];
  }

  method SelectOverride(overrides: seq<PriceOverride>, date: Day, computed: real, threshold: real)
    returns (r: Result<Selection>)
    ensures r == Select(overrides, Case(date, computed, threshold))
  {
    var c := Case(date, computed, threshold);
    var ok, skipped, eligible := Sort(overrides, c);
    if !ok {
      return Err(INVALID_DECIMAL);
    }
    if |eligible| == 0 {
      return Ok(Selection(None, skipped));
    }
    var latest := eligible[Latest(eligible)];
    var ties := SumBy(eligible, StartsOn(latest.source.validFrom));
    if ties > 1 {
      return Err(AMBIGUOUS_OVERRIDE);
    }
    var superseded: seq<Skipped> := [];
    for i := 0 to |eligible|
      invariant superseded == FlatMap(eligible[..i], Superseded(latest))
    {
      FlatMapStep(eligible, i, Superseded(latest));
      superseded := superseded + Superseded(latest)(eligible[i]);
    }
    assert eligible[..|eligible|] == eligible;
    r := Ok(Selection(Some(latest), skipped + superseded));
  }

  // ------------------------------------------------------------- properties

  function CoveringIds(date: Day): PriceOverride -> seq<string> {
    (o: PriceOverride) => if Covers(o, date) then [o.id] else []
  }

  function SkippedId(): Skipped -> seq<string> { (s: Skipped) => [s.overrideId] }

  function AppliedId(): Applied -> seq<string> { (a: Applied) => [a.source.id] }

  /** The first loop sends every covering override to exactly one of the two lists. */
  lemma {:induction false} SortPartitions(overrides: seq<PriceOverride>, c: Case)
    requires forall o :: o in overrides ==> c.Readable(o)
    ensures multiset(FlatMap(overrides, CoveringIds(c.date)))
         == multiset(FlatMap(FlatMap(overrides, c.Refused()), SkippedId()))
          + multiset(FlatMap(FlatMap(overrides, c.Accepted()), AppliedId()))
  {
    hide Price, Refusal, GapPercent, NeedsSecondApproval;
    if overrides != [] {
      var last := |overrides| - 1;
      var o := overrides[last];
      SortPartitions(overrides[..last], c);
      FlatMapAppend(FlatMap(overrides[..last], c.Refused()), c.Refused()(o), SkippedId());
      FlatMapAppend(FlatMap(overrides[..last], c.Accepted()), c.Accepted()(o), AppliedId());
      OneOfEach(o, c);
    }
  }

  lemma OneOfEach(o: PriceOverride, c: Case)
    requires c.Readable(o)
    ensures multiset(CoveringIds(c.date)(o))
         == multiset(FlatMap(c.Refused()(o), SkippedId())) + multiset(FlatMap(c.Accepted()(o), AppliedId()))
  {
    hide Price, Refusal, GapPercent, NeedsSecondApproval;
    if Covers(o, c.date) {
      var a := c.Judge(o);
      var refusal := Refusal(o, a.requiresSecondApproval);
      if refusal.Some? {
        FlatMapOne(Skipped(o.id, refusal.value, a.gapPercent), SkippedId());
      } else {
        FlatMapOne(a, AppliedId());
      }
    }
  }

  function AppliedIds(eligible: seq<Applied>): multiset<string> {
    multiset(FlatMap(eligible, AppliedId()))
  }

  function SupersededIds(eligible: seq<Applied>, latest: Applied): multiset<string> {
    multiset(FlatMap(FlatMap(eligible, Superseded(latest)), SkippedId()))
  }

  function Starts(eligible: seq<Applied>, day: Day): int {
    SumBy(eligible, StartsOn(day))
  }

  /** Only overrides that start on another day are superseded. */
  lemma {:induction false} SupersededOthers(eligible: seq<Applied>, latest: Applied)
    ensures Starts(eligible, latest.source.validFrom) >= 0
    ensures Starts(eligible, latest.source.validFrom) == 0 ==>
              latest !in eligible && AppliedIds(eligible) == SupersededIds(eligible, latest)
    ensures Starts(eligible, latest.source.validFrom) == 1 && latest in eligible ==>
              AppliedIds(eligible) == SupersededIds(eligible, latest) + multiset{latest.source.id}
  {
    if eligible != [] {
      var before, a := eligible[..|eligible| - 1], eligible[|eligible| - 1];
      assert eligible == before + [a];
      hide AppliedIds, SupersededIds, Starts;
      SupersededOthers(before, latest);
      SupersededStep(before, a, latest);
      LastOrBefore(before, a, latest);
      SwapLast(SupersededIds(before, latest), latest.source.id, a.source.id);
    }
  }

  lemma SwapLast(ids: multiset<string>, x: string, y: string)
    ensures ids + multiset{x} + multiset{y} == ids + multiset{y} + multiset{x}
    ensures ids + multiset{} == ids
  {
  }

  lemma LastOrBefore(before: seq<Applied>, a: Applied, x: Applied)
    ensures x in before + [a] <==> x in before || x == a
  {
  }

  lemma SupersededStep(before: seq<Applied>, a: Applied, latest: Applied)
    ensures AppliedIds(before + [a]) == AppliedIds(before) + multiset{a.source.id}
    ensures SupersededIds(before + [a], latest)
         == SupersededIds(before, latest)
          + (if a.source.validFrom == latest.source.validFrom then multiset{} else multiset{a.source.id})
    ensures Starts(before + [a], latest.source.validFrom)
         == Starts(before, latest.source.validFrom) + (if a.source.validFrom == latest.source.validFrom then 1 else 0)
  {
    SumByAppend(before, [a], StartsOn(latest.source.validFrom));
    SumByOne(a, StartsOn(latest.source.validFrom));
    FlatMapAppend(before, [a], AppliedId());
    FlatMapAppend(before, [a], Superseded(latest));
    FlatMapOne(a, AppliedId());
    FlatMapOne(a, Superseded(latest));
    FlatMapAppend(FlatMap(before, Superseded(latest)), Superseded(latest)(a), SkippedId());
    if a.source.validFrom != latest.source.validFrom {
      FlatMapOne(Skipped(a.source.id, SUPERSEDED, a.gapPercent), SkippedId());
    }
  }

  /**
   * A successful selection splits the overrides covering the date: one applied at most, all the
   * others skipped exactly once, whatever covers another period left out.
   */
  lemma SelectionSplits(overrides: seq<PriceOverride>, c: Case)
    requires Select(overrides, c).Ok?
    ensures var s := Select(overrides, c).value;
            multiset(FlatMap(overrides, CoveringIds(c.date)))
            == multiset(FlatMap(s.skipped, SkippedId()))
             + (if s.applied.None? then multiset{} else multiset{s.applied.value.source.id})
  {
    hide Price, Refusal, GapPercent, NeedsSecondApproval;
    SortPartitions(overrides, c);
    var refused, eligible := FlatMap(overrides, c.Refused()), FlatMap(overrides, c.Accepted());
    if eligible != [] {
      var latest := eligible[Latest(eligible)];
      SupersededOthers(eligible, latest);
      FlatMapAppend(refused, FlatMap(eligible, Superseded(latest)), SkippedId());
    }
  }

  /** The applied override was accepted, and every other accepted one starts strictly earlier. */
  lemma AppliedIsStrictlyLatest(overrides: seq<PriceOverride>, c: Case)
    requires Select(overrides, c).Ok? && Select(overrides, c).value.applied.Some?
    ensures var a := Select(overrides, c).value.applied.value;
            && a.source in overrides && Covers(a.source, c.date) && Price(a.source).Ok? && a == c.Judge(a.source)
            && Refusal(a.source, a.requiresSecondApproval).None?
            && forall b :: b in FlatMap(overrides, c.Accepted()) && b != a ==> b.source.validFrom < a.source.validFrom
  {
    hide Refusal, GapPercent, NeedsSecondApproval, Price, FlatMap, SumBy;
    var eligible := FlatMap(overrides, c.Accepted());
    var a := eligible[Latest(eligible)];
    FlatMapMembers(overrides, c.Accepted(), a);
    forall b | b in eligible && b != a
      ensures b.source.validFrom < a.source.validFrom
    {
      NotLaterThanLatest(eligible, b);
      if b.source.validFrom == a.source.validFrom {
        TwoStartsCounted(eligible, a, b);
      }
    }
  }

  lemma NotLaterThanLatest(eligible: seq<Applied>, b: Applied)
    requires b in eligible
    ensures b.source.validFrom <= eligible[Latest(eligible)].source.validFrom
  {
    var j :| 0 <= j < |eligible| && eligible[j] == b;
  }

  lemma {:induction false} TwoStartsCounted(eligible: seq<Applied>, a: Applied, b: Applied)
    requires a in eligible && b in eligible && a != b && a.source.validFrom == b.source.validFrom
    ensures SumBy(eligible, StartsOn(a.source.validFrom)) > 1
  {
    var last := |eligible| - 1;
    assert eligible == eligible[..last] + [eligible[last]];
    SumByNonNegative(eligible[..last], StartsOn(a.source.validFrom));
    if a in eligible[..last] && b in eligible[..last] {
      TwoStartsCounted(eligible[..last], a, b);
    } else {
      var other := if a in eligible[..last] then a else b;
      SupersededOthers(eligible[..last], other);
    }
  }

  /** Four eyes: above the threshold, no price is applied without an approver who is not the author. */
  lemma AppliedAboveThresholdIsApproved(overrides: seq<PriceOverride>, c: Case)
    requires Select(overrides, c).Ok? && Select(overrides, c).value.applied.Some?
    ensures var a := Select(overrides, c).value.applied.value;
            var gap := GapPercent(a.unitPrice, c.computed);
            && !Blank(a.source.reason)
            && (gap.None? || gap.value > c.threshold ==>
                  a.source.approvedBy.Some? && a.source.approvedBy.value !in {"", a.source.authorId})
  {
    hide GapPercent, Price;
    AppliedIsStrictlyLatest(overrides, c);
  }

  /** The list order has no influence: same error, same applied override, same skipped ones. */
  lemma SelectionIgnoresOrder(overrides: seq<PriceOverride>, other: seq<PriceOverride>, c: Case)
    requires multiset(overrides) == multiset(other)
    ensures var r, s := Select(overrides, c), Select(other, c);
            if r.Err? then s == r
            else s.Ok? && s.value.applied == r.value.applied && multiset(s.value.skipped) == multiset(r.value.skipped)
  {
    hide Price, Refusal, GapPercent, NeedsSecondApproval, Latest, FlatMap, SumBy, Superseded, StartsOn;
    SameMembers(overrides, other);
    FlatMapPermutation(overrides, other, c.Refused());
    FlatMapPermutation(overrides, other, c.Accepted());
    var xs, ys := FlatMap(overrides, c.Accepted()), FlatMap(other, c.Accepted());
    SameMembers(xs, ys);
    assert |multiset(xs)| == |xs| && |multiset(ys)| == |ys|;
    if xs != [] {
      var a, b := xs[Latest(xs)], ys[Latest(ys)];
      LatestStart(xs, ys);
      SumByPermutation(xs, ys, StartsOn(a.source.validFrom));
      if a != b {
        TwoStartsCounted(xs, a, b);
      }
      FlatMapPermutation(xs, ys, Superseded(a));
    }
  }

  lemma LatestStart(xs: seq<Applied>, ys: seq<Applied>)
    requires xs != [] && ys != [] && forall x :: x in xs <==> x in ys
    ensures xs[Latest(xs)].source.validFrom == ys[Latest(ys)].source.validFrom
    ensures xs[Latest(xs)] in ys && ys[Latest(ys)] in xs
  {
    assert xs[Latest(xs)] in ys && ys[Latest(ys)] in xs;
  }
}

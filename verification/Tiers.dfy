/**
 * Tier tables (packages/pricing/src/tiers.ts). A tier covers ]previous bound, upTo], the upper
 * bound included; the first one starts at 0.
 */
module Tiers {
  import opened Outcomes
  import opened Money
  import opened DecimalText

  datatype TierMode = GRADUATED | VOLUME

  datatype Tier = Tier(upTo: Option<string>, unitPrice: string)

  datatype TierTable = TierTable(mode: TierMode, tiers: seq<Tier>)

  datatype ParsedTier = ParsedTier(upTo: Option<real>, unitPrice: real)

  datatype TierBand = TierBand(from: real, to: Option<real>, quantity: real, unitPrice: real, amount: real)

  datatype TierComputation = TierComputation(mode: TierMode, exact: real, bands: seq<TierBand>)

  const SCALE: nat := 6

  // ---------------------------------------------------------------- parsing

  /** Bounds strictly increase above `from`, only the last tier may be unlimited, prices are not negative. */
  ghost predicate Tiling(ts: seq<ParsedTier>, from: real) {
    ts != [] ==>
      && ts[0].unitPrice >= 0.0
      && match ts[0].upTo
         case None => |ts| == 1
         case Some(bound) => bound > from && Tiling(ts[1..], bound)
  }

  /** Every bound has at most six decimals. */
  ghost predicate MicroBounds(ts: seq<ParsedTier>) {
    forall t :: t in ts && t.upTo.Some? ==> HasScale(t.upTo.value, SCALE)
  }

  /** One more tier after those already read; `prev` is the bound of the last limited tier. */
  function ParseTier(t: Tier, prev: real, isLast: bool): Result<ParsedTier> {
    var unitPrice := ParseDecimal(t.unitPrice, SCALE, false);
    if unitPrice.Err? then Err(unitPrice.code)
    else match t.upTo
      case None => if isLast then Ok(ParsedTier(None, unitPrice.value)) else Err(INVALID_LINE)
      case Some(text) =>
        var upTo := ParseDecimal(text, SCALE, false);
        if upTo.Err? then Err(upTo.code)
        else if upTo.value > prev then Ok(ParsedTier(Some(upTo.value), unitPrice.value))
        else Err(INVALID_LINE)
  }

  function Prepend<T>(xs: seq<T>, r: Result<seq<T>>): Result<seq<T>> {
    if r.Err? then r else Ok(xs + r.value)
  }

  lemma PrependNothing<T>(xs: seq<T>, r: Result<seq<T>>)
    ensures Prepend([], r) == r
    ensures r == Ok([]) ==> Prepend(xs, r) == Ok(xs)
  {
    if r.Ok? {
      assert [] + r.value == r.value && xs + [] == xs;
    }
  }

  lemma PrependTwice<T>(xs: seq<T>, ys: seq<T>, r: Result<seq<T>>)
    ensures Prepend(xs, Prepend(ys, r)) == Prepend(xs + ys, r)
  {
    if r.Ok? {
      assert xs + (ys + r.value) == xs + ys + r.value;
    }
  }

  /** The tiers read in order, each checked against the bound before it. */
  function ParseTiers(tiers: seq<Tier>, prev: real): (r: Result<seq<ParsedTier>>)
  {
    if tiers == [] then Ok([]) else
      var t := ParseTier(tiers[0], prev, |tiers| == 1);
      if t.Err? then Err(t.code) else
        Prepend([t.value], ParseTiers(tiers[1..], t.value.upTo.GetOr(prev)))
  }

  function ParseTierTable(table: TierTable): Result<seq<ParsedTier>> {
    if table.tiers == [] then Err(INVALID_LINE) else ParseTiers(table.tiers, 0.0)
  }

  lemma {:induction false} ParsedTiersTile(tiers: seq<Tier>, prev: real)
    requires ParseTiers(tiers, prev).Ok?
    ensures Tiling(ParseTiers(tiers, prev).value, prev)
    ensures MicroBounds(ParseTiers(tiers, prev).value)
    ensures |ParseTiers(tiers, prev).value| == |tiers|
  {
    if tiers != [] {
      var t := ParseTier(tiers[0], prev, |tiers| == 1).value;
      ParsedDecimal(tiers[0].unitPrice, SCALE, false);
      if t.upTo.Some? {
        ParsedDecimal(tiers[0].upTo.value, SCALE, false);
      }
      ParsedTiersTile(tiers[1..], t.upTo.GetOr(prev));
      var ts := ParseTiers(tiers, prev).value;
      assert ts[1..] == ParseTiers(tiers[1..], t.upTo.GetOr(prev)).value;
    }
  }

  /** The tier as its texts give it. */
  ghost predicate TierSays(text: Tier, t: ParsedTier) {
    && ParseDecimal(text.unitPrice, SCALE, false) == Ok(t.unitPrice)
    && (text.upTo.None? <==> t.upTo.None?)
    && (text.upTo.Some? && t.upTo.Some? ==> ParseDecimal(text.upTo.value, SCALE, false) == Ok(t.upTo.value))
  }

  ghost predicate TableSays(tiers: seq<Tier>, ts: seq<ParsedTier>) {
    |ts| == |tiers| && forall i :: 0 <= i < |ts| ==> TierSays(tiers[i], ts[i])
  }

  /** A table is accepted exactly when its texts read as tiers that follow one another, and is read as such. */
  lemma {:induction false} TableAccepted(tiers: seq<Tier>, prev: real, ts: seq<ParsedTier>)
    ensures ParseTiers(tiers, prev) == Ok(ts) <==> TableSays(tiers, ts) && Tiling(ts, prev)
    decreases |tiers|
  {
    hide ParseDecimal;
    if tiers != [] {
      if ts != [] {
        TableAccepted(tiers[1..], ts[0].upTo.GetOr(prev), ts[1..]);
        OneMoreTier(tiers, prev, ts);
        assert TableSays(tiers, ts) <==> TierSays(tiers[0], ts[0]) && TableSays(tiers[1..], ts[1..]) by {
          assert tiers == [tiers[0]] + tiers[1..] && ts == [ts[0]] + ts[1..];
        }
        PricesAreNatural(tiers[0].unitPrice);
        hide TableSays;
        assert |ts| == 1 ==> ts[1..] == [];
        assert |tiers| == 1 ==> tiers[1..] == [];
      }
    }
  }

  lemma PricesAreNatural(text: string)
    ensures ParseDecimal(text, SCALE, false).Ok? ==> ParseDecimal(text, SCALE, false).value >= 0.0
  {
    if ParseDecimal(text, SCALE, false).Ok? {
      ParsedDecimal(text, SCALE, false);
    }
  }

  lemma OneMoreTier(tiers: seq<Tier>, prev: real, ts: seq<ParsedTier>)
    requires tiers != [] && ts != []
    ensures ParseTiers(tiers, prev) == Ok(ts) <==>
              && ParseTier(tiers[0], prev, |tiers| == 1) == Ok(ts[0])
              && ParseTiers(tiers[1..], ts[0].upTo.GetOr(prev)) == Ok(ts[1..])
  {
    hide ParseTier;
    assert ts == [ts[0]] + ts[1..];
  }

  lemma ParseTiersFrom(tiers: seq<Tier>, i: nat, parsed: seq<ParsedTier>, prev: real)
    requires i < |tiers|
    ensures var t := ParseTier(tiers[i], prev, i == |tiers| - 1);
            Prepend(parsed, ParseTiers(tiers[i..], prev))
            == if t.Err? then Err(t.code)
               else Prepend(parsed + [t.value], ParseTiers(tiers[i + 1..], t.value.upTo.GetOr(prev)))
  {
    assert tiers[i..][1..] == tiers[i + 1..];
    var t := ParseTier(tiers[i], prev, i == |tiers| - 1);
    if t.Ok? {
      PrependTwice(parsed, [t.value], ParseTiers(tiers[i + 1..], t.value.upTo.GetOr(prev)));
    }
  }

  method ParseTable(table: TierTable) returns (r: Result<seq<ParsedTier>>)
    ensures r == ParseTierTable(table)
  {
    if |table.tiers| == 0 {
      return Err(INVALID_LINE);
    }
    var parsed: seq<ParsedTier> := [];
    var prev := 0.0;
    assert table.tiers[0..] == table.tiers;
    PrependNothing([], ParseTiers(table.tiers, 0.0));
    for i := 0 to |table.tiers|
      invariant ParseTiers(table.tiers, 0.0) == Prepend(parsed, ParseTiers(table.tiers[i..], prev))
    {
      ParseTiersFrom(table.tiers, i, parsed, prev);
      var t := ParseTier(table.tiers[i], prev, i == |table.tiers| - 1);
      if t.Err? {
        return Err(t.code);
      }
      parsed := parsed + [t.value];
      prev := t.value.upTo.GetOr(prev);
    }
    assert table.tiers[|table.tiers|..] == [];
    PrependNothing(parsed, ParseTiers([], prev));
    r := Ok(parsed);
  }

  // ------------------------------------------------------------ computation

  /** Whether the table reaches quantity `q`. */
  predicate Reaches(ts: seq<ParsedTier>, q: real) {
    ts != [] && match ts[|ts| - 1].upTo case None => true case Some(bound) => q <= bound
  }

  /** The tier holding the quantity `x`: the first whose upper bound is not below it. */
  function TierPrice(ts: seq<ParsedTier>, x: real): real
    requires Reaches(ts, x)
  {
    if ts[0].upTo.None? || x <= ts[0].upTo.value || |ts| == 1 then ts[0].unitPrice
    else TierPrice(ts[1..], x)
  }

  /** Upper end of the part of the first tier consumed by `q`. */
  function Top(t: ParsedTier, q: real): real {
    match t.upTo
    case None => q
    case Some(bound) => if q < bound then q else bound
  }

  function Cost(quantity: real, unitPrice: real): real { quantity * unitPrice }

  function Band(t: ParsedTier, from: real, quantity: real): TierBand {
    TierBand(from, t.upTo, quantity, t.unitPrice, Cost(quantity, t.unitPrice))
  }

  /** The slices of ]from, q] charged tier by tier. */
  function GraduatedBands(ts: seq<ParsedTier>, from: real, q: real): seq<TierBand> {
    if ts == [] || q <= from then []
    else
      var band := Band(ts[0], from, Top(ts[0], q) - from);
      if ts[0].upTo.None? then [band] else [band] + GraduatedBands(ts[1..], ts[0].upTo.value, q)
  }

  function SumAmounts(bands: seq<TierBand>): real {
    if bands == [] then 0.0 else bands[0].amount + SumAmounts(bands[1..])
  }

  /** The whole quantity at the price of the tier reached. */
  function VolumeBand(ts: seq<ParsedTier>, from: real, q: real): TierBand
    requires Reaches(ts, q)
  {
    if ts[0].upTo.None? || q <= ts[0].upTo.value || |ts| == 1 then Band(ts[0], from, q)
    else VolumeBand(ts[1..], ts[0].upTo.value, q)
  }

  function Tiered(mode: TierMode, ts: seq<ParsedTier>, q: real): TierComputation
    requires Reaches(ts, q)
  {
    match mode
    case VOLUME =>
      var band := VolumeBand(ts, 0.0, q);
      TierComputation(VOLUME, band.amount, [band])
    case GRADUATED =>
      var bands := GraduatedBands(ts, 0.0, q);
      TierComputation(GRADUATED, SumAmounts(bands), bands)
  }

  function TieredOf(table: TierTable, q: real): Result<TierComputation> {
    var ts := ParseTierTable(table);
    if ts.Err? then Err(ts.code)
    else if !Reaches(ts.value, q) then Err(INVALID_LINE)
    else Ok(Tiered(table.mode, ts.value, q))
  }

  lemma {:induction false} SumAmountsAppend(xs: seq<TierBand>, band: TierBand)
    ensures SumAmounts(xs + [band]) == SumAmounts(xs) + band.amount
  {
    if xs == [] {
      assert xs + [band] == [band] && [band][1..] == [];
    } else {
      assert (xs + [band])[1..] == xs[1..] + [band];
      SumAmountsAppend(xs[1..], band);
    }
  }

  lemma GraduatedBandsFrom(ts: seq<ParsedTier>, i: nat, bands: seq<TierBand>, from: real, q: real)
    requires i < |ts| && q > from
    ensures var t := ts[i];
            var band := Band(t, from, Top(t, q) - from);
            bands + GraduatedBands(ts[i..], from, q)
            == if t.upTo.None? then bands + [band]
               else bands + [band] + GraduatedBands(ts[i + 1..], t.upTo.value, q)
  {
    assert ts[i..][1..] == ts[i + 1..];
    if ts[i].upTo.Some? {
      var band := Band(ts[i], from, Top(ts[i], q) - from);
      var rest := GraduatedBands(ts[i + 1..], ts[i].upTo.value, q);
      assert bands + ([band] + rest) == bands + [band] + rest;
    }
  }

  /** The VOLUME loop: it always returns from inside, it never runs into the code below it. */
  method ChargeVolume(tiers: seq<ParsedTier>, quantity: real) returns (band: TierBand)
    requires Reaches(tiers, quantity)
    ensures band == VolumeBand(tiers, 0.0, quantity)
  {
    var from := 0.0;
    assert tiers[0..] == tiers;
    for i := 0 to |tiers|
      invariant i < |tiers| ==> VolumeBand(tiers[i..], from, quantity) == VolumeBand(tiers, 0.0, quantity)
      invariant i == |tiers| ==> tiers[i - 1].upTo.Some? && quantity > tiers[i - 1].upTo.value
    {
      var t := tiers[i];
      assert tiers[i..][1..] == tiers[i + 1..];
      if t.upTo.None? || quantity <= t.upTo.value {
        return Band(t, from, quantity);
      }
      from := t.upTo.value;
    }
    assert false;
  }

  lemma NoAmounts()
    ensures SumAmounts([]) == 0.0
  {
  }

  /** The GRADUATED loop, slice by slice. */
  method ChargeGraduated(tiers: seq<ParsedTier>, quantity: real) returns (total: real, bands: seq<TierBand>)
    ensures bands == GraduatedBands(tiers, 0.0, quantity)
    ensures total == SumAmounts(bands)
  {
    hide SumAmounts, Band, Top;
    bands, total := [], 0.0;
    var from, i := 0.0, 0;
    assert SumAmounts([]) == 0.0 by { NoAmounts(); }
    assert tiers[0..] == tiers;
    while i < |tiers| && quantity > from
      invariant 0 <= i <= |tiers|
      invariant bands + GraduatedBands(tiers[i..], from, quantity) == GraduatedBands(tiers, 0.0, quantity)
      invariant total == SumAmounts(bands)
    {
      var t := tiers[i];
      var band := Band(t, from, Top(t, quantity) - from);
      GraduatedBandsFrom(tiers, i, bands, from, quantity);
      SumAmountsAppend(bands, band);
      bands := bands + [band];
      total := total + band.amount;
      if t.upTo.None? {
        return;
      }
      from := t.upTo.value;
      i := i + 1;
    }
  }

  method ComputeTiered(table: TierTable, quantity: real) returns (r: Result<TierComputation>)
    ensures r == TieredOf(table, quantity)
  {
    hide ParseTierTable, GraduatedBands, SumAmounts;
    var parsed := ParseTable(table);
    if parsed.Err? {
      return Err(parsed.code);
    }
    var tiers := parsed.value;
    ParsedTableNonEmpty(table);
    var last := tiers[|tiers| - 1];
    if last.upTo.Some? && quantity > last.upTo.value {
      return Err(INVALID_LINE);
    }
    if table.mode == VOLUME {
      var band := ChargeVolume(tiers, quantity);
      return Ok(TierComputation(VOLUME, band.amount, [band]));
    }
    var total, bands := ChargeGraduated(tiers, quantity);
    r := Ok(TierComputation(GRADUATED, total, bands));
  }

  lemma ParsedTableNonEmpty(table: TierTable)
    ensures ParseTierTable(table).Ok? ==> ParseTierTable(table).value != []
  {
    if ParseTierTable(table).Ok? {
      ParsedTiersTile(table.tiers, 0.0);
    }
  }

  // ------------------------------------------------------------- properties

  function Graduated(ts: seq<ParsedTier>, from: real, q: real): real {
    SumAmounts(GraduatedBands(ts, from, q))
  }

  lemma GraduatedUnfold(ts: seq<ParsedTier>, from: real, q: real)
    requires Tiling(ts, from) && Reaches(ts, q)
    ensures q <= from ==> Graduated(ts, from, q) == 0.0
    ensures q > from && (ts[0].upTo.None? || q <= ts[0].upTo.value) ==>
              Graduated(ts, from, q) == Cost(q - from, ts[0].unitPrice)
    ensures q > from && ts[0].upTo.Some? && q > ts[0].upTo.value ==>
              && Reaches(ts[1..], q)
              && Graduated(ts, from, q)
                 == Cost(ts[0].upTo.value - from, ts[0].unitPrice) + Graduated(ts[1..], ts[0].upTo.value, q)
  {
    if q > from {
      var band := Band(ts[0], from, Top(ts[0], q) - from);
      var rest := if ts[0].upTo.None? then [] else GraduatedBands(ts[1..], ts[0].upTo.value, q);
      assert GraduatedBands(ts, from, q) == [band] + rest;
      assert ([band] + rest)[1..] == rest;
      if ts[0].upTo.None? || q <= ts[0].upTo.value {
        assert rest == [] && Top(ts[0], q) == q;
        assert band == Band(ts[0], from, q - from);
        assert GraduatedBands(ts, from, q) == [band] && [band][1..] == [];
        assert SumAmounts([band]) == band.amount + SumAmounts([]);
      }
    }
  }

  /** The consecutive bands start at `from`, end at `q`, and each is priced over its whole width. */
  ghost predicate BandsTile(bands: seq<TierBand>, from: real, q: real) {
    if bands == [] then q <= from
    else
      && bands[0].from == from
      && bands[0].quantity > 0.0
      && bands[0].amount == Cost(bands[0].quantity, bands[0].unitPrice)
      && (bands[0].to.Some? ==> from + bands[0].quantity <= bands[0].to.value)
      && if |bands| == 1 then from + bands[0].quantity == q
         else bands[0].to == Some(from + bands[0].quantity) && BandsTile(bands[1..], from + bands[0].quantity, q)
  }

  /** The GRADUATED bands tile ]0, q] without gap or overlap. */
  lemma {:induction false} GraduatedBandsTile(ts: seq<ParsedTier>, from: real, q: real)
    requires Tiling(ts, from) && Reaches(ts, q)
    ensures BandsTile(GraduatedBands(ts, from, q), from, q)
    decreases |ts|
  {
    hide Cost;
    if q > from && ts[0].upTo.Some? {
      var bound := ts[0].upTo.value;
      var rest := GraduatedBands(ts[1..], bound, q);
      var bands := GraduatedBands(ts, from, q);
      assert bands[1..] == rest;
      if q > bound {
        GraduatedBandsTile(ts[1..], bound, q);
      } else {
        assert rest == [];
      }
    }
  }

  lemma CostSplit(x: real, y: real, p: real)
    ensures Cost(x + y, p) == Cost(x, p) + Cost(y, p)
    ensures Cost(0.0, p) == 0.0
  {
  }

  lemma CostMonotone(x: real, y: real, p: real)
    requires x <= y && p >= 0.0
    ensures Cost(x, p) <= Cost(y, p)
    ensures x >= 0.0 ==> Cost(x, p) >= 0.0
  {
  }

  lemma CostOfPrices(x: real, p: real, q: real)
    requires x >= 0.0 && p <= q
    ensures Cost(x, p) <= Cost(x, q)
  {
  }

  /** GRADUATED is monotone in the quantity, on every real quantity the table reaches. */
  lemma {:induction false} GraduatedMonotone(ts: seq<ParsedTier>, from: real, q1: real, q2: real)
    requires Tiling(ts, from) && Reaches(ts, q2) && q1 <= q2
    ensures 0.0 <= Graduated(ts, from, q1) <= Graduated(ts, from, q2)
    decreases |ts|
  {
    hide Cost, Graduated;
    GraduatedUnfold(ts, from, q1);
    GraduatedUnfold(ts, from, q2);
    if q2 > from {
      var p := ts[0].unitPrice;
      if ts[0].upTo.Some? && q2 > ts[0].upTo.value {
        var bound := ts[0].upTo.value;
        GraduatedMonotone(ts[1..], bound, if q1 < bound then bound else q1, q2);
        GraduatedUnfold(ts[1..], bound, bound);
        CostMonotone(if from < q1 <= bound then q1 - from else 0.0, bound - from, p);
      } else {
        CostMonotone(if from < q1 then q1 - from else 0.0, q2 - from, p);
      }
    }
  }

  /** The sum, over the micro-units 1..n, of the price of the tier that holds each. */
  function MicroSum(ts: seq<ParsedTier>, n: nat): real
    requires n > 0 ==> Reaches(ts, Micro(n))
  {
    if n == 0 then 0.0
    else
      assert Micro(n - 1) <= Micro(n);
      MicroSum(ts, n - 1) + Cost(0.000001, TierPrice(ts, Micro(n)))
  }

  function Micro(n: int): real { n as real / 1000000.0 }

  /** Quantities and bounds have at most six decimals: a bound never falls inside a micro-unit. */
  lemma BoundOutsideMicroUnit(bound: real, n: int)
    requires HasScale(bound, SCALE)
    ensures bound <= Micro(n - 1) || Micro(n) <= bound
  {
    assert Pow10(SCALE) == 1000000;
    assert Shift(SCALE) == 1000000.0;
    var m := (bound * Shift(SCALE)).Floor;
    assert bound == Micro(m);
    assert m <= n - 1 || n <= m;
  }

  lemma {:induction false} GraduatedMicroStep(ts: seq<ParsedTier>, from: real, n: nat)
    requires Tiling(ts, from) && MicroBounds(ts) && Reaches(ts, Micro(n)) && n > 0 && from <= Micro(n - 1)
    ensures Graduated(ts, from, Micro(n)) == Graduated(ts, from, Micro(n - 1)) + Cost(0.000001, TierPrice(ts, Micro(n)))
    decreases |ts|
  {
    hide Cost, Graduated;
    var x, y, p := Micro(n - 1), Micro(n), ts[0].unitPrice;
    GraduatedUnfold(ts, from, x);
    GraduatedUnfold(ts, from, y);
    assert y == x + 0.000001;
    if ts[0].upTo.Some? && y > ts[0].upTo.value {
      var bound := ts[0].upTo.value;
      BoundOutsideMicroUnit(bound, n);
      GraduatedMicroStep(ts[1..], bound, n);
      GraduatedUnfold(ts[1..], bound, bound);
      assert x == bound ==> Graduated(ts, from, x) == Cost(bound - from, p);
    } else {
      CostSplit(x - from, 0.000001, p);
      assert x - from + 0.000001 == y - from;
    }
  }

  /** GRADUATED charges each unit, down to the micro-unit, at the price of the tier it falls in. */
  lemma {:induction false} GraduatedIsMicroSum(ts: seq<ParsedTier>, n: nat)
    requires Tiling(ts, 0.0) && MicroBounds(ts) && Reaches(ts, Micro(n))
    ensures Graduated(ts, 0.0, Micro(n)) == MicroSum(ts, n)
  {
    GraduatedUnfold(ts, 0.0, Micro(n));
    if n > 0 {
      assert Micro(n - 1) <= Micro(n);
      GraduatedIsMicroSum(ts, n - 1);
      GraduatedMicroStep(ts, 0.0, n);
    }
  }

  ghost predicate NonIncreasingPrices(ts: seq<ParsedTier>) {
    forall i, j :: 0 <= i <= j < |ts| ==> ts[i].unitPrice >= ts[j].unitPrice
  }

  function Volume(ts: seq<ParsedTier>, q: real): real
    requires Reaches(ts, q)
  {
    Cost(q, TierPrice(ts, q))
  }

  lemma {:induction false} VolumeBandIsVolume(ts: seq<ParsedTier>, from: real, q: real)
    requires Reaches(ts, q)
    ensures VolumeBand(ts, from, q).amount == Volume(ts, q)
    ensures VolumeBand(ts, from, q).quantity == q
  {
    if !(ts[0].upTo.None? || q <= ts[0].upTo.value || |ts| == 1) {
      VolumeBandIsVolume(ts[1..], ts[0].upTo.value, q);
    }
  }

  lemma {:induction false} TierPriceInTable(ts: seq<ParsedTier>, q: real)
    requires Reaches(ts, q)
    ensures exists i :: 0 <= i < |ts| && ts[i].unitPrice == TierPrice(ts, q)
  {
    if !(ts[0].upTo.None? || q <= ts[0].upTo.value || |ts| == 1) {
      TierPriceInTable(ts[1..], q);
      var i :| 0 <= i < |ts| - 1 && ts[1..][i].unitPrice == TierPrice(ts[1..], q);
      assert ts[i + 1].unitPrice == TierPrice(ts, q);
    }
  }

  /** With non-increasing prices, a larger quantity never has a larger unit price. */
  lemma {:induction false} TierPriceDecreases(ts: seq<ParsedTier>, q1: real, q2: real)
    requires Reaches(ts, q2) && q1 <= q2 && NonIncreasingPrices(ts)
    ensures TierPrice(ts, q1) >= TierPrice(ts, q2)
  {
    TierPriceInTable(ts, q2);
    if !(ts[0].upTo.None? || q1 <= ts[0].upTo.value || |ts| == 1) {
      TierPriceDecreases(ts[1..], q1, q2);
    }
  }

  /** With non-increasing prices, charging by slices is never below charging all at the tier reached. */
  lemma {:induction false} GraduatedAboveVolume(ts: seq<ParsedTier>, from: real, q: real)
    requires Tiling(ts, from) && Reaches(ts, q) && q >= from && NonIncreasingPrices(ts)
    ensures Graduated(ts, from, q) >= Cost(q - from, TierPrice(ts, q))
    decreases |ts|
  {
    hide Cost, Graduated;
    GraduatedUnfold(ts, from, q);
    var p := TierPrice(ts, q);
    CostSplit(0.0, 0.0, p);
    if q > from && ts[0].upTo.Some? && q > ts[0].upTo.value {
      var bound := ts[0].upTo.value;
      GraduatedAboveVolume(ts[1..], bound, q);
      TierPriceInTable(ts, q);
      CostOfPrices(bound - from, p, ts[0].unitPrice);
      CostSplit(bound - from, q - bound, p);
      assert bound - from + (q - bound) == q - from;
    }
  }

  /** With non-increasing prices, further units never cost more than the price at `x`. */
  lemma {:induction false} GraduatedTangent(ts: seq<ParsedTier>, from: real, x: real, d: real)
    requires Tiling(ts, from) && Reaches(ts, x + d) && x >= from && d >= 0.0 && NonIncreasingPrices(ts)
    ensures Graduated(ts, from, x + d) <= Graduated(ts, from, x) + Cost(d, TierPrice(ts, x))
    decreases |ts|
  {
    hide Cost, Graduated;
    GraduatedUnfold(ts, from, x);
    GraduatedUnfold(ts, from, x + d);
    var p := ts[0].unitPrice;
    CostSplit(x - from, d, p);
    assert x - from + d == x + d - from;
    if ts[0].upTo.Some? && x + d > ts[0].upTo.value {
      var bound := ts[0].upTo.value;
      if x > bound {
        GraduatedTangent(ts[1..], bound, x, d);
      } else {
        var over := x + d - bound;
        assert bound + over == x + d && bound - from + over == x + d - from;
        GraduatedTangent(ts[1..], bound, bound, over);
        GraduatedUnfold(ts[1..], bound, bound);
        TierPriceInTable(ts[1..], bound);
        CostOfPrices(over, TierPrice(ts[1..], bound), p);
        CostSplit(bound - from, over, p);
      }
    }
  }

  /** With non-increasing prices, splitting an order never makes it cheaper. */
  lemma GraduatedSubadditive(ts: seq<ParsedTier>, a: real, b: real)
    requires Tiling(ts, 0.0) && Reaches(ts, a + b) && a >= 0.0 && b >= 0.0 && NonIncreasingPrices(ts)
    ensures Graduated(ts, 0.0, a + b) <= Graduated(ts, 0.0, a) + Graduated(ts, 0.0, b)
  {
    hide Cost, Graduated;
    var small, large := if a <= b then a else b, if a <= b then b else a;
    assert small + large == a + b == large + small;
    GraduatedTangent(ts, 0.0, large, small);
    TierPriceDecreases(ts, small, large);
    CostOfPrices(small, TierPrice(ts, large), TierPrice(ts, small));
    GraduatedAboveVolume(ts, 0.0, small);
    assert small - 0.0 == small;
  }

  /** VOLUME is monotone within one tier. */
  lemma VolumeMonotoneInTier(ts: seq<ParsedTier>, q1: real, q2: real)
    requires Tiling(ts, 0.0) && Reaches(ts, q2) && q1 <= q2
    requires VolumeBand(ts, 0.0, q1).from == VolumeBand(ts, 0.0, q2).from
    ensures Volume(ts, q1) <= Volume(ts, q2)
  {
    SameTierSamePrice(ts, 0.0, q1, q2);
    CostMonotone(q1, q2, TierPrice(ts, q1));
  }

  lemma {:induction false} SameTierSamePrice(ts: seq<ParsedTier>, from: real, q1: real, q2: real)
    requires Tiling(ts, from) && Reaches(ts, q1) && Reaches(ts, q2)
    requires VolumeBand(ts, from, q1).from == VolumeBand(ts, from, q2).from
    ensures TierPrice(ts, q1) == TierPrice(ts, q2) >= 0.0
    ensures VolumeBand(ts, from, q1).from >= from
    decreases |ts|
  {
    if |ts| > 1 {
      var bound := ts[0].upTo.value;
      if q1 > bound {
        VolumeBandFrom(ts[1..], bound, q1);
      }
      if q2 > bound {
        VolumeBandFrom(ts[1..], bound, q2);
      }
      if q1 > bound && q2 > bound {
        SameTierSamePrice(ts[1..], bound, q1, q2);
      }
    }
  }

  lemma {:induction false} VolumeBandFrom(ts: seq<ParsedTier>, from: real, q: real)
    requires Tiling(ts, from) && Reaches(ts, q)
    ensures VolumeBand(ts, from, q).from >= from
  {
    if !(ts[0].upTo.None? || q <= ts[0].upTo.value || |ts| == 1) {
      VolumeBandFrom(ts[1..], ts[0].upTo.value, q);
    }
  }

  // ------------------------------------------- when VOLUME rises with the quantity

  const MICRO := 0.000001

  /** One micro-unit above its bound, a tier hands over to a price that keeps the amount from falling. */
  ghost predicate Rises(t: ParsedTier, next: ParsedTier) {
    t.upTo.Some? ==> Cost(t.upTo.value, t.unitPrice) <= Cost(t.upTo.value + MICRO, next.unitPrice)
  }

  ghost predicate ThresholdsRise(ts: seq<ParsedTier>) {
    forall i :: 0 <= i < |ts| - 1 ==> Rises(ts[i], ts[i + 1])
  }

  /** More units never cost less, on the quantities of six decimals the table reaches. */
  ghost predicate VolumeRises(ts: seq<ParsedTier>) {
    forall q1, q2 ::
      0.0 <= q1 <= q2 && HasScale(q1, SCALE) && HasScale(q2, SCALE) && Reaches(ts, q1) && Reaches(ts, q2) ==>
        Volume(ts, q1) <= Volume(ts, q2)
  }

  /** Two quantities of six decimals are at least a micro-unit apart. */
  lemma NextMicro(x: real, y: real)
    requires HasScale(x, SCALE)
    ensures HasScale(x + MICRO, SCALE)
    ensures HasScale(y, SCALE) && x < y ==> x + MICRO <= y
  {
    assert Pow10(SCALE) == 1000000;
    assert Shift(SCALE) == 1000000.0;
    var m := (x * Shift(SCALE)).Floor;
    assert (x + MICRO) * Shift(SCALE) == (m + 1) as real;
    if HasScale(y, SCALE) && x < y {
      var n := (y * Shift(SCALE)).Floor;
      assert m + 1 <= n;
    }
  }

  /** A bound belongs to its own tier, the micro-unit above it to the next one. */
  lemma {:induction false} ThresholdPrices(ts: seq<ParsedTier>, from: real, i: nat)
    requires Tiling(ts, from) && MicroBounds(ts) && i < |ts| - 1
    ensures ts[i].upTo.Some? && ts[i].upTo.value > from && HasScale(ts[i].upTo.value, SCALE)
    ensures var bound := ts[i].upTo.value;
            && Reaches(ts, bound + MICRO)
            && TierPrice(ts, bound) == ts[i].unitPrice
            && TierPrice(ts, bound + MICRO) == ts[i + 1].unitPrice
    decreases i
  {
    assert ts[1..][|ts| - 2] == ts[|ts| - 1];
    if i == 0 {
      NextBoundIsAbove(ts, from);
    } else {
      assert ts[1..][i - 1] == ts[i] && ts[1..][i] == ts[i + 1];
      ThresholdPrices(ts[1..], ts[0].upTo.value, i - 1);
    }
  }

  /** The first threshold: one micro-unit above it the second tier still holds. */
  lemma NextBoundIsAbove(ts: seq<ParsedTier>, from: real)
    requires Tiling(ts, from) && MicroBounds(ts) && |ts| > 1
    ensures Reaches(ts[1..], ts[0].upTo.value + MICRO)
    ensures TierPrice(ts[1..], ts[0].upTo.value + MICRO) == ts[1].unitPrice
  {
    var bound := ts[0].upTo.value;
    assert ts[0] in ts && ts[1] in ts;
    LastBoundAbove(ts[1..], bound);
    if ts[1].upTo.Some? {
      NextMicro(bound, ts[1].upTo.value);
    }
    var last := ts[1..][|ts| - 2];
    assert last in ts;
    if last.upTo.Some? {
      NextMicro(bound, last.upTo.value);
    }
  }

  lemma {:induction false} LastBoundAbove(ts: seq<ParsedTier>, from: real)
    requires Tiling(ts, from) && ts != []
    ensures ts[|ts| - 1].upTo.Some? ==> ts[|ts| - 1].upTo.value > from
  {
    if |ts| > 1 {
      LastBoundAbove(ts[1..], ts[0].upTo.value);
    }
  }

  lemma {:induction false} RisingThresholdsSuffice(ts: seq<ParsedTier>, from: real, q1: real, q2: real)
    requires Tiling(ts, from) && MicroBounds(ts) && ThresholdsRise(ts)
    requires q1 <= q2 && HasScale(q1, SCALE) && HasScale(q2, SCALE) && Reaches(ts, q2)
    ensures Reaches(ts, q1) && Volume(ts, q1) <= Volume(ts, q2)
    decreases |ts|
  {
    hide Cost;
    var p := ts[0].unitPrice;
    if ts[0].upTo.None? || q2 <= ts[0].upTo.value {
      CostMonotone(q1, q2, p);
    } else {
      var bound := ts[0].upTo.value;
      TailRises(ts);
      if q1 > bound {
        RisingThresholdsSuffice(ts[1..], bound, q1, q2);
      } else {
        assert ts[0] in ts;
        NextMicro(bound, q2);
        NextBoundIsAbove(ts, from);
        RisingThresholdsSuffice(ts[1..], bound, bound + MICRO, q2);
        CostMonotone(q1, bound, p);
        assert Rises(ts[0], ts[1]);
      }
    }
  }

  lemma TailRises(ts: seq<ParsedTier>)
    requires MicroBounds(ts) && ThresholdsRise(ts) && ts != []
    ensures MicroBounds(ts[1..]) && ThresholdsRise(ts[1..])
  {
    var rest := ts[1..];
    forall i | 0 <= i < |rest| - 1
      ensures Rises(rest[i], rest[i + 1])
    {
      assert Rises(ts[i + 1], ts[i + 2]);
    }
  }

  /**
   * VOLUME is monotone in the quantity exactly when no threshold lowers the amount: the bound at the
   * price of its tier costs at most one micro-unit more at the price of the next.
   */
  lemma VolumeMonotoneExactlyWhen(ts: seq<ParsedTier>)
    requires Tiling(ts, 0.0) && MicroBounds(ts) && ts != []
    ensures VolumeRises(ts) <==> ThresholdsRise(ts)
  {
    hide Cost, TierPrice, Tiling;
    if ThresholdsRise(ts) {
      forall q1, q2 | 0.0 <= q1 <= q2 && HasScale(q1, SCALE) && HasScale(q2, SCALE) && Reaches(ts, q1) && Reaches(ts, q2)
        ensures Volume(ts, q1) <= Volume(ts, q2)
      {
        RisingThresholdsSuffice(ts, 0.0, q1, q2);
      }
    }
    if VolumeRises(ts) {
      forall i | 0 <= i < |ts| - 1
        ensures Rises(ts[i], ts[i + 1])
      {
        ThresholdPrices(ts, 0.0, i);
        var bound := ts[i].upTo.value;
        NextMicro(bound, bound);
        assert Volume(ts, bound) <= Volume(ts, bound + MICRO);
      }
    }
  }

  /**
   * The documented threshold effect: 10 units at 300 euros and 11 at 275. The next price is lower, and 10
   * units at 30 euros cost more than 10.000001 at 25.
   */
  lemma VolumeIsNotMonotone()
    ensures var ts := [ParsedTier(Some(10.0), 30.0), ParsedTier(None, 25.0)];
            && Tiling(ts, 0.0) && !VolumeRises(ts)
            && Volume(ts, 10.0) == 300.0 && Volume(ts, 11.0) == 275.0
  {
    var ts := [ParsedTier(Some(10.0), 30.0), ParsedTier(None, 25.0)];
    assert ts[1..] == [ParsedTier(None, 25.0)];
    assert Tiling(ts[1..], 10.0);
    TenHasScale();
    VolumeMonotoneExactlyWhen(ts);
    assert !Rises(ts[0], ts[1]);
  }

  lemma TenHasScale()
    ensures HasScale(10.0, SCALE)
  {
    assert Shift(SCALE) == 1000000.0;
    assert 10.0 * Shift(SCALE) == 10000000 as real;
  }
}

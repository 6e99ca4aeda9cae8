/**
 * Dated price history of one item of the grid (apps/api/src/contract-kinds/price-grid.service.ts,
 * `applyPrices`; packages/domain/src/price-grid/price-grid.ts, `priceInEffect`). A variant is
 * identified by its duration in months; identifiers grow with time and are modelled by position.
 */
module PriceGrid {
  import opened Outcomes
  import opened Money
  import opened Calendar

  datatype Price = Price(id: nat, effectiveFrom: Day, unitPrice: real, purchase: Option<real>)

  datatype Variant = Variant(archived: bool, prices: seq<Price>)

  /** A requested price; none withdraws the duration from sale. */
  datatype DurationPrice = DurationPrice(months: nat, unitPrice: Option<real>, purchase: Option<real>)

  datatype GridError = UNKNOWN_TERM | TERM_ARCHIVED

  datatype Counts = Counts(pricesAdded: nat, withdrawn: nat, restored: nat)

  datatype Applied = Applied(variants: map<nat, Variant>, counts: Counts) | Refused(error: GridError)

  // -------------------------------------------------------------- price in effect

  predicate Supersedes(p: Price, best: Price) {
    p.effectiveFrom > best.effectiveFrom || (p.effectiveFrom == best.effectiveFrom && p.id > best.id)
  }

  /** Latest day of effect up to `day`, then latest entry. */
  function InEffect(prices: seq<Price>, day: Day): Option<Price> {
    if prices == [] then None
    else
      var best, p := InEffect(prices[..|prices| - 1], day), prices[|prices| - 1];
      if p.effectiveFrom <= day && (best.None? || Supersedes(p, best.value)) then Some(p) else best
  }

  method PriceInEffect(prices: seq<Price>, day: Day) returns (best: Option<Price>)
    ensures best == InEffect(prices, day)
  {
    best := None;
    for i := 0 to |prices|
      invariant best == InEffect(prices[..i], day)
    {
      assert prices[..i + 1][..i] == prices[..i];
      var p := prices[i];
      if p.effectiveFrom > day {
        continue;
      }
      if best.None? || Supersedes(p, best.value) {
        best := Some(p);
      }
    }
    assert prices[..|prices|] == prices;
  }

  // ------------------------------------------------------------------ equal decimals

  /** `Number` reads a decimal as a float: any function of the decimal. */
  type Float = real -> real

  predicate SameNumber(num: Float, a: real, b: real) { num(a) == num(b) }

  predicate SamePurchase(num: Float, a: Option<real>, b: Option<real>) {
    if a.None? || b.None? then a == b else SameNumber(num, a.value, b.value)
  }

  predicate AlreadyInEffect(num: Float, current: Option<Price>, unitPrice: real, purchase: Option<real>) {
    current.Some? && SameNumber(num, current.value.unitPrice, unitPrice) && SamePurchase(num, current.value.purchase, purchase)
  }

  // ------------------------------------------------------------------- one duration

  function Withdrawn(v: Variant): Variant { v.(archived := true) }

  /** A variant put on sale at a price from `from`: nothing is written when that price is already in effect. */
  function Priced(v: Variant, from: Day, unitPrice: real, purchase: Option<real>, num: Float): Variant {
    Variant(false,
            if AlreadyInEffect(num, InEffect(v.prices, from), unitPrice, purchase) then v.prices
            else v.prices + [Price(|v.prices|, from, unitPrice, purchase)])
  }

  const NEW_VARIANT := Variant(false, [])

  function VariantOf(variants: map<nat, Variant>, months: nat): Variant {
    if months in variants then variants[months] else NEW_VARIANT
  }

  function Add(c: Counts, added: bool, withdrawn: bool, restored: bool): Counts {
    Counts(c.pricesAdded + (if added then 1 else 0), c.withdrawn + (if withdrawn then 1 else 0), c.restored + (if restored then 1 else 0))
  }

  function ApplyOne(st: Applied, p: DurationPrice, terms: map<nat, bool>, from: Day, num: Float): Applied {
    if st.Refused? then st
    else if p.months !in terms then Refused(UNKNOWN_TERM)
    else
      var v := VariantOf(st.variants, p.months);
      if p.unitPrice.None? then
        if p.months in st.variants && !v.archived
        then Applied(st.variants[p.months := Withdrawn(v)], Add(st.counts, false, true, false))
        else st
      else if terms[p.months] then Refused(TERM_ARCHIVED)
      else
        var after := Priced(v, from, p.unitPrice.value, p.purchase, num);
        Applied(st.variants[p.months := after], Add(st.counts, |after.prices| > |v.prices|, false, v.archived))
  }

  function ApplyPrices(variants: map<nat, Variant>, prices: seq<DurationPrice>, terms: map<nat, bool>, from: Day, num: Float): Applied {
    if prices == [] then Applied(variants, Counts(0, 0, 0))
    else ApplyOne(ApplyPrices(variants, prices[..|prices| - 1], terms, from, num), prices[|prices| - 1], terms, from, num)
  }

  ghost predicate DistinctMonths(prices: seq<DurationPrice>) {
    forall i, j :: 0 <= i < j < |prices| ==> prices[i].months != prices[j].months
  }

  class Item {
    /** Terms of the catalogue: are they archived? */
    var terms: map<nat, bool>
    var variants: map<nat, Variant>

    constructor (terms: map<nat, bool>)
      ensures this.terms == terms && variants == map[]
    {
      this.terms := terms;
      variants := map[];
    }

    /** One transaction: an unknown or archived term undoes what was already written. */
    method SetPrices(prices: seq<DurationPrice>, from: Day, num: Float) returns (r: Applied)
      requires DistinctMonths(prices)
      modifies this`variants
      ensures r == ApplyPrices(old(variants), prices, terms, from, num)
      ensures variants == if r.Refused? then old(variants) else r.variants
    {
      hide Supersedes, InEffect;
      var stored := variants;
      var counts := Counts(0, 0, 0);
      for i := 0 to |prices|
        invariant terms == old(terms)
        invariant ApplyPrices(stored, prices[..i], terms, from, num) == Applied(variants, counts)
        invariant forall j :: i <= j < |prices| ==>
                    && VariantOf(variants, prices[j].months) == VariantOf(stored, prices[j].months)
                    && (prices[j].months in variants <==> prices[j].months in stored)
      {
        assert prices[..i + 1][..i] == prices[..i];
        RefusedStays(stored, prices, i + 1, terms, from, num);
        var p := prices[i];
        if p.months !in terms {
          variants := stored;
          return Refused(UNKNOWN_TERM);
        }
        var v := VariantOf(stored, p.months);
        if p.unitPrice.None? {
          if p.months in stored && !v.archived {
            variants := variants[p.months := Withdrawn(v)];
            counts := Add(counts, false, true, false);
          }
          continue;
        }
        if terms[p.months] {
          variants := stored;
          return Refused(TERM_ARCHIVED);
        }
        var current := PriceInEffect(v.prices, from);
        if AlreadyInEffect(num, current, p.unitPrice.value, p.purchase) {
          variants := variants[p.months := Variant(false, v.prices)];
          counts := Add(counts, false, false, v.archived);
        } else {
          variants := variants[p.months := Variant(false, v.prices + [Price(|v.prices|, from, p.unitPrice.value, p.purchase)])];
          counts := Add(counts, true, false, v.archived);
        }
      }
      assert prices[..|prices|] == prices;
      r := Applied(variants, counts);
    }
  }

  lemma {:induction false} RefusedStays(
      variants: map<nat, Variant>, prices: seq<DurationPrice>, n: nat, terms: map<nat, bool>, from: Day, num: Float)
    requires n <= |prices|
    ensures ApplyPrices(variants, prices[..n], terms, from, num).Refused? ==>
              ApplyPrices(variants, prices, terms, from, num) == ApplyPrices(variants, prices[..n], terms, from, num)
    decreases |prices|
  {
    if n < |prices| {
      assert prices[..|prices| - 1][..n] == prices[..n];
      RefusedStays(variants, prices[..|prices| - 1], n, terms, from, num);
    } else {
      assert prices[..n] == prices;
    }
  }

  // ------------------------------------------------------------- the price in effect

  /** Identifiers grow in the order of entry. */
  ghost predicate Numbered(prices: seq<Price>) {
    forall i :: 0 <= i < |prices| ==> prices[i].id == i
  }

  /** The price in effect has the latest day of effect up to the day, then the highest identifier, in whatever order they are listed. */
  lemma {:induction false} InEffectIsLatest(prices: seq<Price>, day: Day)
    requires forall i, j :: 0 <= i < j < |prices| ==> prices[i].id != prices[j].id
    ensures var best := InEffect(prices, day);
            && (best.None? <==> forall p :: p in prices ==> p.effectiveFrom > day)
            && (best.Some? ==> best.value in prices && best.value.effectiveFrom <= day
                               && forall p :: p in prices && p.effectiveFrom <= day && p != best.value ==>
                                    p.effectiveFrom < best.value.effectiveFrom
                                    || (p.effectiveFrom == best.value.effectiveFrom && p.id < best.value.id))
  {
    if prices != [] {
      var init, p := prices[..|prices| - 1], prices[|prices| - 1];
      assert prices == init + [p];
      InEffectIsLatest(init, day);
      forall q | q in init
        ensures q.id != p.id
      {
        var i :| 0 <= i < |init| && init[i] == q;
        assert prices[i].id == q.id;
      }
    }
  }

  lemma AppendedInEffect(prices: seq<Price>, p: Price, day: Day)
    requires Numbered(prices) && p.id == |prices|
    ensures day < p.effectiveFrom ==> InEffect(prices + [p], day) == InEffect(prices, day)
    ensures day == p.effectiveFrom ==> InEffect(prices + [p], day) == Some(p)
  {
    assert (prices + [p])[..|prices|] == prices;
    InEffectIsLatest(prices, day);
    var best := InEffect(prices, day);
    if best.Some? {
      var i :| 0 <= i < |prices| && prices[i] == best.value;
    }
  }

  // ---------------------------------------------------------------- what a call does

  function RequestFor(prices: seq<DurationPrice>, months: nat): Option<DurationPrice> {
    if prices == [] then None
    else if prices[|prices| - 1].months == months then Some(prices[|prices| - 1])
    else RequestFor(prices[..|prices| - 1], months)
  }

  /** What one duration becomes, from its own request alone. */
  function After(variants: map<nat, Variant>, request: Option<DurationPrice>, months: nat, from: Day, num: Float): Option<Variant> {
    var before := if months in variants then Some(variants[months]) else None;
    if request.None? then before
    else if request.value.unitPrice.None? then (if before.None? then None else Some(Withdrawn(before.value)))
    else Some(Priced(before.GetOr(NEW_VARIANT), from, request.value.unitPrice.value, request.value.purchase, num))
  }

  function Look(variants: map<nat, Variant>, months: nat): Option<Variant> {
    if months in variants then Some(variants[months]) else None
  }

  /** A successful call changes each duration by its own request only. */
  lemma {:induction false} EachByItsRequest(
      variants: map<nat, Variant>, prices: seq<DurationPrice>, terms: map<nat, bool>, from: Day, num: Float,
      months: nat)
    requires DistinctMonths(prices) && ApplyPrices(variants, prices, terms, from, num).Applied?
    ensures Look(ApplyPrices(variants, prices, terms, from, num).variants, months)
         == After(variants, RequestFor(prices, months), months, from, num)
  {
    hide Priced;
    if prices != [] {
      var init, p := prices[..|prices| - 1], prices[|prices| - 1];
      EachByItsRequest(variants, init, terms, from, num, months);
      if p.months == months {
        NotRequested(init, months);
      }
    }
  }

  lemma {:induction false} NotRequested(prices: seq<DurationPrice>, months: nat)
    requires forall p :: p in prices ==> p.months != months
    ensures RequestFor(prices, months) == None
  {
    if prices != [] {
      NotRequested(prices[..|prices| - 1], months);
    }
  }

  /** The floats compare equal where the decimals differ: the request is taken for the price already in effect. */
  predicate Confused(num: Float, current: Option<Price>, unitPrice: real, purchase: Option<real>) {
    AlreadyInEffect(num, current, unitPrice, purchase) && !(current.value.unitPrice == unitPrice && current.value.purchase == purchase)
  }

  lemma PricedOutcome(v: Variant, from: Day, unitPrice: real, purchase: Option<real>, num: Float)
    requires Numbered(v.prices)
    ensures var after := Priced(v, from, unitPrice, purchase, num);
            && !after.archived && Numbered(after.prices) && v.prices <= after.prices && |after.prices| <= |v.prices| + 1
            && (forall day :: day < from ==> InEffect(after.prices, day) == InEffect(v.prices, day))
            && InEffect(after.prices, from).Some?
            && (InEffect(after.prices, from).value.unitPrice == unitPrice && InEffect(after.prices, from).value.purchase == purchase
                <==> !Confused(num, InEffect(v.prices, from), unitPrice, purchase))
            && Priced(after, from, unitPrice, purchase, num) == after
  {
    hide InEffect;
    var p := Price(|v.prices|, from, unitPrice, purchase);
    forall day
      ensures day < from ==> InEffect(v.prices + [p], day) == InEffect(v.prices, day)
      ensures day == from ==> InEffect(v.prices + [p], day) == Some(p)
    {
      AppendedInEffect(v.prices, p, day);
    }
    var after := Priced(v, from, unitPrice, purchase, num);
    if !AlreadyInEffect(num, InEffect(v.prices, from), unitPrice, purchase) {
      assert InEffect(after.prices, from) == Some(p);
      assert AlreadyInEffect(num, Some(p), unitPrice, purchase);
    }
  }

  ghost predicate AllNumbered(variants: map<nat, Variant>) {
    forall m :: m in variants ==> Numbered(variants[m].prices)
  }

  /**
   * History is only appended to: after a call taking effect on `from`, the price in effect on every
   * earlier day is what it was, for every duration, and durations not in the call are untouched.
   */
  lemma PastPricesStand(
      variants: map<nat, Variant>, prices: seq<DurationPrice>, terms: map<nat, bool>, from: Day, num: Float,
      months: nat)
    requires AllNumbered(variants) && DistinctMonths(prices) && ApplyPrices(variants, prices, terms, from, num).Applied?
    ensures var before, after := Look(variants, months), Look(ApplyPrices(variants, prices, terms, from, num).variants, months);
            && (before.Some? ==> after.Some? && before.value.prices <= after.value.prices && |after.value.prices| <= |before.value.prices| + 1)
            && (forall day :: day < from && after.Some? ==>
                  InEffect(after.value.prices, day) == InEffect(before.GetOr(NEW_VARIANT).prices, day))
            && (RequestFor(prices, months).None? ==> after == before)
            && (after.Some? ==> Numbered(after.value.prices))
  {
    hide InEffect, Priced;
    EachByItsRequest(variants, prices, terms, from, num, months);
    var request := RequestFor(prices, months);
    if request.Some? && request.value.unitPrice.Some? {
      PricedOutcome(Look(variants, months).GetOr(NEW_VARIANT), from, request.value.unitPrice.value, request.value.purchase, num);
    }
  }

  /**
   * A priced duration ends on sale, with a price in effect on `from`: exactly the requested one, unless
   * a different price was in effect that the floats of `Number` cannot tell from it; a duration
   * without price ends withdrawn.
   */
  lemma RequestIsMet(
      variants: map<nat, Variant>, prices: seq<DurationPrice>, terms: map<nat, bool>, from: Day, num: Float,
      months: nat)
    requires AllNumbered(variants) && DistinctMonths(prices) && ApplyPrices(variants, prices, terms, from, num).Applied?
    requires RequestFor(prices, months).Some?
    ensures var request := RequestFor(prices, months).value;
            var before, after := Look(variants, months).GetOr(NEW_VARIANT), Look(ApplyPrices(variants, prices, terms, from, num).variants, months);
            if request.unitPrice.None? then after.Some? ==> after.value.archived
            else
              && after.Some? && !after.value.archived && InEffect(after.value.prices, from).Some?
              && (InEffect(after.value.prices, from).value.unitPrice == request.unitPrice.value
                  && InEffect(after.value.prices, from).value.purchase == request.purchase
                  <==> !Confused(num, InEffect(before.prices, from), request.unitPrice.value, request.purchase))
  {
    hide InEffect, Priced, Confused;
    EachByItsRequest(variants, prices, terms, from, num, months);
    var request := RequestFor(prices, months).value;
    if request.unitPrice.Some? {
      PricedOutcome(Look(variants, months).GetOr(NEW_VARIANT), from, request.unitPrice.value, request.purchase, num);
    }
  }

  // ----------------------------------------------------------------- the same call again

  lemma RepeatedOne(variants: map<nat, Variant>, p: DurationPrice, terms: map<nat, bool>, from: Day, num: Float, counts: Counts)
    requires p.months in terms && (p.unitPrice.Some? ==> !terms[p.months])
    requires p.unitPrice.None? ==> (p.months in variants ==> variants[p.months].archived)
    requires p.unitPrice.Some? ==> p.months in variants && Priced(variants[p.months], from, p.unitPrice.value, p.purchase, num) == variants[p.months]
    ensures ApplyOne(Applied(variants, counts), p, terms, from, num) == Applied(variants, counts)
  {
    hide Priced;
    if p.unitPrice.Some? {
      assert !variants[p.months].archived by { PricedIsOnSale(variants[p.months], from, p.unitPrice.value, p.purchase, num); }
      assert variants[p.months := variants[p.months]] == variants;
    }
  }

  lemma PricedIsOnSale(v: Variant, from: Day, unitPrice: real, purchase: Option<real>, num: Float)
    ensures !Priced(v, from, unitPrice, purchase, num).archived
  {
  }

  lemma {:induction false} AcceptedTerms(
      variants: map<nat, Variant>, prices: seq<DurationPrice>, terms: map<nat, bool>, from: Day, num: Float)
    requires ApplyPrices(variants, prices, terms, from, num).Applied?
    ensures forall p :: p in prices ==> p.months in terms && (p.unitPrice.Some? ==> !terms[p.months])
  {
    hide Priced;
    if prices != [] {
      AcceptedTerms(variants, prices[..|prices| - 1], terms, from, num);
      assert prices == prices[..|prices| - 1] + [prices[|prices| - 1]];
    }
  }

  lemma {:induction false} RepeatedAll(
      variants: map<nat, Variant>, prices: seq<DurationPrice>, terms: map<nat, bool>, from: Day, num: Float)
    requires forall p :: p in prices ==> p.months in terms && (p.unitPrice.Some? ==> !terms[p.months])
    requires forall p :: p in prices && p.unitPrice.None? ==> (p.months in variants ==> variants[p.months].archived)
    requires forall p :: p in prices && p.unitPrice.Some? ==>
               p.months in variants && Priced(variants[p.months], from, p.unitPrice.value, p.purchase, num) == variants[p.months]
    ensures ApplyPrices(variants, prices, terms, from, num) == Applied(variants, Counts(0, 0, 0))
  {
    hide Priced, ApplyOne;
    if prices != [] {
      RepeatedAll(variants, prices[..|prices| - 1], terms, from, num);
      RepeatedOne(variants, prices[|prices| - 1], terms, from, num, Counts(0, 0, 0));
    }
  }

  lemma {:induction false} RequestOfMember(prices: seq<DurationPrice>, p: DurationPrice)
    requires DistinctMonths(prices) && p in prices
    ensures RequestFor(prices, p.months) == Some(p)
  {
    var init, last := prices[..|prices| - 1], prices[|prices| - 1];
    assert prices == init + [last];
    if last != p {
      RequestOfMember(init, p);
    }
  }

  /** The same call again adds, withdraws and restores nothing, and leaves everything as it is. */
  lemma SecondCallWritesNothing(
      variants: map<nat, Variant>, prices: seq<DurationPrice>, terms: map<nat, bool>, from: Day, num: Float)
    requires AllNumbered(variants) && DistinctMonths(prices) && ApplyPrices(variants, prices, terms, from, num).Applied?
    ensures var once := ApplyPrices(variants, prices, terms, from, num).variants;
            ApplyPrices(once, prices, terms, from, num) == Applied(once, Counts(0, 0, 0))
  {
    hide Priced, InEffect;
    var once := ApplyPrices(variants, prices, terms, from, num).variants;
    AcceptedTerms(variants, prices, terms, from, num);
    forall p | p in prices
      ensures p.unitPrice.None? ==> (p.months in once ==> once[p.months].archived)
      ensures p.unitPrice.Some? ==> p.months in once && Priced(once[p.months], from, p.unitPrice.value, p.purchase, num) == once[p.months]
    {
      RequestOfMember(prices, p);
      EachByItsRequest(variants, prices, terms, from, num, p.months);
      if p.unitPrice.Some? {
        PricedOutcome(Look(variants, p.months).GetOr(NEW_VARIANT), from, p.unitPrice.value, p.purchase, num);
      }
    }
    RepeatedAll(once, prices, terms, from, num);
  }

  // ------------------------------------------------------------- where floats fall short

  /**
   * The double nearest to a decimal between 2^46 and 2^47, as IEEE 754 rounds it: a multiple of 1/64,
   * ties to even. Other decimals are left as they are.
   */
  function Double(x: real): real {
    if 70368744177664.0 <= x < 140737488355328.0 then Round(x * 64.0, HALF_EVEN) as real / 64.0 else x
  }

  /** Prices a millionth apart, within the range of the grid, share a double: the new one is not written. */
  lemma FloatsConfuseWidePrices()
    ensures var stored, asked := 99999999999999.000001, 99999999999999.000002;
            var v := Variant(false, [Price(0, 20260101, stored, None)]);
            && SameNumber(Double, stored, asked)
            && Priced(v, 20260101, asked, None, Double) == v
            && Confused(Double, InEffect(v.prices, 20260101), asked, None)
  {
    var stored, asked := 99999999999999.000001, 99999999999999.000002;
    RoundIsTheRounding(stored * 64.0, 6399999999999936, HALF_EVEN);
    RoundIsTheRounding(asked * 64.0, 6399999999999936, HALF_EVEN);
    var v := Variant(false, [Price(0, 20260101, stored, None)]);
    assert v.prices[..0] == [];
    assert InEffect(v.prices, 20260101) == Some(v.prices[0]);
  }

  /** Below 2^33 a double is within 2^-21 of the decimal it is read from: half the gap between two doubles there. */
  ghost predicate NearBelow2To33(num: Float) {
    forall x :: 0.0 <= x < 8589934592.0 ==> Abs(num(x) - x) * 2097152.0 <= 1.0
  }

  predicate Narrow(x: real) { 0.0 <= x < 8589934592.0 }

  /** There, two prices of six decimals never share a double. */
  lemma NarrowPricesAreDistinct(num: Float, a: real, b: real)
    requires NearBelow2To33(num) && Narrow(a) && Narrow(b) && HasScale(a, 6) && HasScale(b, 6)
    ensures SameNumber(num, a, b) <==> a == b
  {
    var m := WholeUnits(a, 6);
    var n := WholeUnits(b, 6);
    assert Shift(6) == 1000000.0 by { assert Pow10(6) == 1000000; }
    assert Abs(num(a) - a) * 2097152.0 <= 1.0 && Abs(num(b) - b) * 2097152.0 <= 1.0;
    if m != n {
      assert Abs(a - b) * 1000000.0 >= 1.0;
    }
  }

  /** Hence a requested price is never taken for another, as long as prices stay below 2^33. */
  lemma NarrowPricesAreNeverConfused(num: Float, current: Option<Price>, unitPrice: real, purchase: Option<real>)
    requires NearBelow2To33(num) && Narrow(unitPrice) && HasScale(unitPrice, 6)
    requires purchase.Some? ==> Narrow(purchase.value) && HasScale(purchase.value, 6)
    requires current.Some? ==> Narrow(current.value.unitPrice) && HasScale(current.value.unitPrice, 6)
    requires current.Some? && current.value.purchase.Some? ==> Narrow(current.value.purchase.value) && HasScale(current.value.purchase.value, 6)
    ensures !Confused(num, current, unitPrice, purchase)
  {
    hide HasScale, NearBelow2To33, SameNumber, Narrow;
    if current.Some? {
      NarrowPricesAreDistinct(num, current.value.unitPrice, unitPrice);
      if current.value.purchase.Some? && purchase.Some? {
        NarrowPricesAreDistinct(num, current.value.purchase.value, purchase.value);
      }
    }
  }
}

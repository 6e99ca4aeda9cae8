/**
 * What one call on the price grid does, told from its requests (apps/api/src/contract-kinds/price-grid.service.ts,
 * `applyPrices`): which calls are refused, what each duration becomes, and what is counted.
 */
module GridReads {
  import opened Outcomes
  import opened Sums
  import opened Calendar
  import opened PriceGrid

  /** An unknown term, or a price on an archived one. */
  predicate Bad(p: DurationPrice, terms: map<nat, bool>) { p.months !in terms || (p.unitPrice.Some? && terms[p.months]) }

  /** The first request that is refused. */
  ghost predicate FirstBad(prices: seq<DurationPrice>, terms: map<nat, bool>, i: int) {
    0 <= i < |prices| && Bad(prices[i], terms) && forall j :: 0 <= j < i ==> !Bad(prices[j], terms)
  }

  lemma OneRefused(st: Applied, p: DurationPrice, terms: map<nat, bool>, from: Day, num: Float)
    ensures st.Refused? ==> ApplyOne(st, p, terms, from, num) == st
    ensures st.Applied? && !Bad(p, terms) ==> ApplyOne(st, p, terms, from, num).Applied?
    ensures st.Applied? && Bad(p, terms) ==> ApplyOne(st, p, terms, from, num) == Refused(if p.months in terms then TERM_ARCHIVED else UNKNOWN_TERM)
  {
    hide Priced, Add, VariantOf;
  }

  lemma FirstOfMore(init: seq<DurationPrice>, last: DurationPrice, terms: map<nat, bool>, i: int)
    ensures FirstBad(init + [last], terms, i)
            <==> FirstBad(init, terms, i) || (i == |init| && Bad(last, terms) && forall p :: p in init ==> !Bad(p, terms))
  {
    hide Bad;
    var prices := init + [last];
    assert prices[|init|] == last && forall j :: 0 <= j < |init| ==> prices[j] == init[j];
    if i == |init| && FirstBad(prices, terms, i) {
      forall p | p in init
        ensures !Bad(p, terms)
      {
        var j :| 0 <= j < |init| && init[j] == p;
        assert !Bad(prices[j], terms);
      }
    }
    assert forall j :: 0 <= j < |init| ==> init[j] in init;
  }

  lemma {:induction false} RefusedExactlyWhen(
      variants: map<nat, Variant>, prices: seq<DurationPrice>, terms: map<nat, bool>, from: Day, num: Float)
    ensures ApplyPrices(variants, prices, terms, from, num).Applied? <==> forall p :: p in prices ==> !Bad(p, terms)
    ensures forall i :: FirstBad(prices, terms, i) ==>
              ApplyPrices(variants, prices, terms, from, num) == Refused(if prices[i].months in terms then TERM_ARCHIVED else UNKNOWN_TERM)
  {
    if prices != [] {
      var init, last := prices[..|prices| - 1], prices[|prices| - 1];
      assert prices == init + [last];
      RefusedExactlyWhen(variants, init, terms, from, num);
      OneRefused(ApplyPrices(variants, init, terms, from, num), last, terms, from, num);
      hide ApplyOne, Bad;
      forall i | FirstBad(prices, terms, i)
        ensures ApplyPrices(variants, prices, terms, from, num) == Refused(if prices[i].months in terms then TERM_ARCHIVED else UNKNOWN_TERM)
      {
        FirstOfMore(init, last, terms, i);
        if i < |init| {
          BadIsThere(init, terms, i);
        }
      }
    }
  }

  lemma BadIsThere(prices: seq<DurationPrice>, terms: map<nat, bool>, i: int)
    requires FirstBad(prices, terms, i)
    ensures prices[i] in prices && Bad(prices[i], terms)
  {
  }

  // ---------------------------------------------------------------- one duration

  predicate SameNumbers(num: Float, p: Price, unitPrice: real, purchase: Option<real>) {
    && num(p.unitPrice) == num(unitPrice)
    && (p.purchase.Some? <==> purchase.Some?) && (p.purchase.Some? && purchase.Some? ==> num(p.purchase.value) == num(purchase.value))
  }

  /** In effect on the day: no other entry of that day or before comes after it. */
  ghost predicate IsInEffect(prices: seq<Price>, day: Day, p: Price) {
    && p in prices && p.effectiveFrom <= day
    && forall q :: q in prices && q.effectiveFrom <= day && q != p ==> q.effectiveFrom < p.effectiveFrom || (q.effectiveFrom == p.effectiveFrom && q.id < p.id)
  }

  /** Withdrawn, or on sale at the price asked: entered unless the price in effect has the same numbers. */
  ghost predicate Becomes(before: Option<Variant>, after: Option<Variant>, p: DurationPrice, from: Day, num: Float) {
    var history := if before.Some? then before.value.prices else [];
    match p.unitPrice
    case None => after == if before.None? then None else Some(Variant(true, history))
    case Some(unitPrice) =>
      after == Some(Variant(false,
        if exists c :: IsInEffect(history, from, c) && SameNumbers(num, c, unitPrice, p.purchase) then history
        else history + [Price(|history|, from, unitPrice, p.purchase)]))
  }

  ghost predicate DistinctIds(prices: seq<Price>) { forall i, j :: 0 <= i < j < |prices| ==> prices[i].id != prices[j].id }

  ghost predicate AllDistinct(variants: map<nat, Variant>) { forall m :: m in variants ==> DistinctIds(variants[m].prices) }

  lemma EffectIsRead(prices: seq<Price>, day: Day)
    requires DistinctIds(prices)
    ensures forall p :: InEffect(prices, day) == Some(p) <==> IsInEffect(prices, day, p)
  {
    InEffectIsLatest(prices, day);
    hide InEffect;
  }

  lemma PricedBecomes(v: Variant, p: DurationPrice, from: Day, num: Float)
    requires DistinctIds(v.prices) && p.unitPrice.Some?
    ensures var after := Priced(v, from, p.unitPrice.value, p.purchase, num);
            Becomes(Some(v), Some(after), p, from, num) && (v.prices == [] ==> Becomes(None, Some(after), p, from, num))
  {
    EffectIsRead(v.prices, from);
    hide InEffect, IsInEffect;
    var current := InEffect(v.prices, from);
    assert AlreadyInEffect(num, current, p.unitPrice.value, p.purchase)
           <==> current.Some? && SameNumbers(num, current.value, p.unitPrice.value, p.purchase);
  }

  /** The request for a duration, at most one, decides what it becomes; the others leave it as it is. */
  lemma DurationsRead(
      variants: map<nat, Variant>, prices: seq<DurationPrice>, terms: map<nat, bool>, from: Day, num: Float, months: nat)
    requires AllDistinct(variants) && DistinctMonths(prices) && ApplyPrices(variants, prices, terms, from, num).Applied?
    ensures var before, after := Look(variants, months), Look(ApplyPrices(variants, prices, terms, from, num).variants, months);
            && (forall p :: p in prices && p.months == months ==> Becomes(before, after, p, from, num))
            && ((forall p :: p in prices ==> p.months != months) ==> after == before)
  {
    EachByItsRequest(variants, prices, terms, from, num, months);
    RequestFound(prices, months);
    hide ApplyPrices, Priced, Becomes, RequestFor;
    var request := RequestFor(prices, months);
    if request.Some? {
      var p := request.value;
      var v := Look(variants, months).GetOr(NEW_VARIANT);
      if p.unitPrice.Some? {
        PricedBecomes(v, p, from, num);
      } else {
        WithdrawnBecomes(Look(variants, months), p, from, num);
      }
    }
  }

  lemma WithdrawnBecomes(before: Option<Variant>, p: DurationPrice, from: Day, num: Float)
    requires p.unitPrice.None?
    ensures Becomes(before, if before.None? then None else Some(Withdrawn(before.value)), p, from, num)
  {
  }

  lemma {:induction false} RequestFound(prices: seq<DurationPrice>, months: nat)
    requires DistinctMonths(prices)
    ensures RequestFor(prices, months).None? <==> forall p :: p in prices ==> p.months != months
    ensures forall p :: p in prices && p.months == months ==> RequestFor(prices, months) == Some(p)
    ensures RequestFor(prices, months).Some? ==> RequestFor(prices, months).value in prices && RequestFor(prices, months).value.months == months
  {
    if prices != [] {
      var init, last := prices[..|prices| - 1], prices[|prices| - 1];
      assert prices == init + [last];
      RequestFound(init, months);
      forall p | p in init
        ensures p.months != last.months
      {
        var i :| 0 <= i < |init| && init[i] == p;
        assert prices[i].months != prices[|init|].months;
      }
    }
  }

  // -------------------------------------------------------------------- the counts

  /** Requests that enter a price, that withdraw a duration on sale, that put a withdrawn one back. */
  function Entered(before: map<nat, Variant>, after: map<nat, Variant>): DurationPrice -> int {
    (p: DurationPrice) =>
      if p.months in after && |after[p.months].prices| > (if p.months in before then |before[p.months].prices| else 0) then 1 else 0
  }

  function TakenOffSale(before: map<nat, Variant>, after: map<nat, Variant>): DurationPrice -> int {
    (p: DurationPrice) => if p.months in before && p.months in after && !before[p.months].archived && after[p.months].archived then 1 else 0
  }

  function PutBack(before: map<nat, Variant>, after: map<nat, Variant>): DurationPrice -> int {
    (p: DurationPrice) => if p.months in before && p.months in after && before[p.months].archived && !after[p.months].archived then 1 else 0
  }

  ghost predicate CountsRead(c: Counts, prices: seq<DurationPrice>, before: map<nat, Variant>, after: map<nat, Variant>) {
    && c.pricesAdded == SumBy(prices, Entered(before, after)) && c.withdrawn == SumBy(prices, TakenOffSale(before, after))
    && c.restored == SumBy(prices, PutBack(before, after))
  }

  lemma SumByElsewhere(prices: seq<DurationPrice>, f: DurationPrice -> int, g: DurationPrice -> int)
    requires forall p :: p in prices ==> f(p) == g(p)
    ensures SumBy(prices, f) == SumBy(prices, g)
  {
    SumByPointwise(prices, prices, f, g);
  }

  /** The counts returned are those of the requests that changed something, told by what stands before and after. */
  lemma {:induction false} CountsAreRead(
      variants: map<nat, Variant>, prices: seq<DurationPrice>, terms: map<nat, bool>, from: Day, num: Float)
    requires DistinctMonths(prices) && ApplyPrices(variants, prices, terms, from, num).Applied?
    ensures var r := ApplyPrices(variants, prices, terms, from, num); CountsRead(r.counts, prices, variants, r.variants)
  {
    if prices != [] {
      var init, last := prices[..|prices| - 1], prices[|prices| - 1];
      assert prices == init + [last];
      var st, r := ApplyPrices(variants, init, terms, from, num), ApplyPrices(variants, prices, terms, from, num);
      CountsAreRead(variants, init, terms, from, num);
      forall p | p in init
        ensures p.months != last.months
      {
        var i :| 0 <= i < |init| && init[i] == p;
        assert prices[i].months != prices[|init|].months;
      }
      EachByItsRequest(variants, init, terms, from, num, last.months);
      NotRequested(init, last.months);
      OneCounted(variants, st, r, init, last, terms, from, num);
    }
  }

  lemma OneCounted(
      variants: map<nat, Variant>, st: Applied, r: Applied, init: seq<DurationPrice>, last: DurationPrice,
      terms: map<nat, bool>, from: Day, num: Float)
    requires st.Applied? && r.Applied? && r == ApplyOne(st, last, terms, from, num)
    requires Look(st.variants, last.months) == Look(variants, last.months)
    requires (forall p :: p in init ==> p.months != last.months) && CountsRead(st.counts, init, variants, st.variants)
    ensures CountsRead(r.counts, init + [last], variants, r.variants)
  {
    hide InEffect, AlreadyInEffect, SumBy;
    assert forall m :: m != last.months ==> (m in r.variants <==> m in st.variants) && (m in st.variants ==> r.variants[m] == st.variants[m]);
    SumByElsewhere(init, Entered(variants, st.variants), Entered(variants, r.variants));
    SumByElsewhere(init, TakenOffSale(variants, st.variants), TakenOffSale(variants, r.variants));
    SumByElsewhere(init, PutBack(variants, st.variants), PutBack(variants, r.variants));
    SumBySnoc(init, last, Entered(variants, r.variants));
    SumBySnoc(init, last, TakenOffSale(variants, r.variants));
    SumBySnoc(init, last, PutBack(variants, r.variants));
  }

  lemma SumBySnoc(init: seq<DurationPrice>, last: DurationPrice, f: DurationPrice -> int)
    ensures SumBy(init + [last], f) == SumBy(init, f) + f(last)
  {
    SumByAppend(init, [last], f);
    SumByOne(last, f);
  }
}

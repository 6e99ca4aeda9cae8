/** Totals of priced lines (packages/pricing/src/price-at.ts, `computeTotals`). */
module Totals {
  import opened Sums
  import opened Money
  import opened PricingTypes

  datatype VatBase = VatBase(rate: real, base: int)

  datatype VatBreakdown = VatBreakdown(rate: real, baseHtCents: int, vatCents: int)

  datatype PricingTotals = PricingTotals(
    htCents: int, vatCents: int, ttcCents: int, vatByRate: seq<VatBreakdown>,
    monthlyLinesCents: int, quarterlyLinesCents: int, yearlyLinesCents: int, oneOffCents: int,
    monthlyRecurringCents: int, annualRecurringCents: int)

  function Ht(): PricedLine -> int { (l: PricedLine) => l.totalHtCents }

  function HtOf(r: Recurrence): PricedLine -> int {
    (l: PricedLine) => if l.recurrence == r then l.totalHtCents else 0
  }

  function HtAt(rate: real): PricedLine -> int {
    (l: PricedLine) => if l.vat == rate then l.totalHtCents else 0
  }

  /** Adds an amount to the group of its rate, groups sorted by rate. */
  function Insert(groups: seq<VatBase>, rate: real, cents: int): seq<VatBase> {
    if groups == [] || rate < groups[0].rate then [VatBase(rate, cents)] + groups
    else if rate == groups[0].rate then [VatBase(rate, groups[0].base + cents)] + groups[1..]
    else [groups[0]] + Insert(groups[1..], rate, cents)
  }

  function Grouped(lines: seq<PricedLine>): seq<VatBase> {
    if lines == [] then []
    else
      var l := lines[|lines| - 1];
      Insert(Grouped(lines[..|lines| - 1]), l.vat, l.totalHtCents)
  }

  /** VAT of one rate, on the sum of its lines, rounded once. */
  function Vat(base: int, rate: real, mode: RoundingMode): int {
    ToCents(CentsToEuros(base) * rate / 100.0, mode)
  }

  function Breakdown(g: VatBase, mode: RoundingMode): VatBreakdown {
    VatBreakdown(g.rate, g.base, Vat(g.base, g.rate, mode))
  }

  function Breakdowns(groups: seq<VatBase>, mode: RoundingMode): seq<VatBreakdown> {
    seq(|groups|, i requires 0 <= i < |groups| => Breakdown(groups[i], mode))
  }

  function BaseOf(): VatBreakdown -> int { (v: VatBreakdown) => v.baseHtCents }

  function VatOf(): VatBreakdown -> int { (v: VatBreakdown) => v.vatCents }

  /** A quarter counts for three months, a year for twelve; rounded once, together. */
  function Normalised(quarterly: int, yearly: int, mode: RoundingMode): int {
    ToCents(CentsToEuros(quarterly) / 3.0 + CentsToEuros(yearly) / 12.0, mode)
  }

  function MakeTotals(
      ht: int, monthly: int, quarterly: int, yearly: int, oneOff: int, vatByRate: seq<VatBreakdown>,
      mode: RoundingMode)
    : PricingTotals
  {
    var vat := SumBy(vatByRate, VatOf());
    PricingTotals(ht, vat, ht + vat, vatByRate, monthly, quarterly, yearly, oneOff,
                  monthly + Normalised(quarterly, yearly, mode), monthly * 12 + quarterly * 4 + yearly)
  }

  function TotalsOf(lines: seq<PricedLine>, mode: RoundingMode): PricingTotals {
    MakeTotals(SumBy(lines, Ht()), SumBy(lines, HtOf(MONTHLY)), SumBy(lines, HtOf(QUARTERLY)), SumBy(lines, HtOf(YEARLY)),
               SumBy(lines, HtOf(ONE_OFF)), Breakdowns(Grouped(lines), mode), mode)
  }

  // ------------------------------------------------- what the groups are

  ghost predicate Increasing(groups: seq<VatBase>) {
    forall i, j :: 0 <= i < j < |groups| ==> groups[i].rate < groups[j].rate
  }

  /** One group per rate met, in increasing order, holding exactly the lines of that rate. */
  ghost predicate IsGrouping(groups: seq<VatBase>, lines: seq<PricedLine>) {
    && Increasing(groups)
    && (forall g :: g in groups ==> g.base == SumBy(lines, HtAt(g.rate)) && exists l :: l in lines && l.vat == g.rate)
    && (forall l :: l in lines ==> exists g :: g in groups && g.rate == l.vat)
  }

  function RateBase(groups: seq<VatBase>, rate: real): int {
    if groups == [] then 0 else (if groups[0].rate == rate then groups[0].base else 0) + RateBase(groups[1..], rate)
  }

  function Rates(groups: seq<VatBase>): set<real> { set g | g in groups :: g.rate }

  lemma IncreasingTail(groups: seq<VatBase>)
    requires Increasing(groups) && groups != []
    ensures Increasing(groups[1..])
    ensures forall g :: g in groups[1..] ==> groups[0].rate < g.rate
    ensures Rates(groups) == {groups[0].rate} + Rates(groups[1..])
  {
    assert groups == [groups[0]] + groups[1..];
    RatesCons(groups[0], groups[1..]);
  }

  lemma IncreasingCons(g: VatBase, rest: seq<VatBase>)
    requires Increasing(rest) && forall h :: h in rest ==> g.rate < h.rate
    ensures Increasing([g] + rest)
    ensures Rates([g] + rest) == {g.rate} + Rates(rest)
  {
    assert forall i :: 0 <= i < |rest| ==> rest[i] in rest;
    RatesCons(g, rest);
  }

  lemma {:induction false} InsertKeepsOrder(groups: seq<VatBase>, rate: real, cents: int)
    requires Increasing(groups)
    ensures Increasing(Insert(groups, rate, cents))
    ensures Rates(Insert(groups, rate, cents)) == Rates(groups) + {rate}
  {
    hide Rates, Increasing;
    if groups == [] {
      EmptyIncreasing();
      IncreasingCons(VatBase(rate, cents), groups);
    } else {
      IncreasingTail(groups);
      var first, rest := groups[0], groups[1..];
      if rate < first.rate {
        assert groups == [first] + rest;
        IncreasingCons(VatBase(rate, cents), groups);
      } else if rate == first.rate {
        IncreasingCons(VatBase(rate, first.base + cents), rest);
      } else {
        InsertKeepsOrder(rest, rate, cents);
        InsertedRates(rest, rate, cents, first.rate);
        IncreasingCons(first, Insert(rest, rate, cents));
      }
    }
  }

  lemma EmptyIncreasing()
    ensures Increasing([])
  {
  }

  lemma {:induction false} InsertedRates(groups: seq<VatBase>, rate: real, cents: int, below: real)
    requires below < rate && forall g :: g in groups ==> below < g.rate
    ensures forall g :: g in Insert(groups, rate, cents) ==> below < g.rate
  {
    if groups != [] && groups[0].rate < rate {
      InsertedRates(groups[1..], rate, cents, below);
    }
  }

  lemma RatesCons(g: VatBase, groups: seq<VatBase>)
    ensures Rates([g] + groups) == {g.rate} + Rates(groups)
  {
    assert forall h :: h in [g] + groups <==> h == g || h in groups;
  }

  lemma {:induction false} InsertAddsToRate(groups: seq<VatBase>, rate: real, cents: int, other: real)
    ensures RateBase(Insert(groups, rate, cents), other) == RateBase(groups, other) + if other == rate then cents else 0
  {
    var after := Insert(groups, rate, cents);
    if groups == [] || rate < groups[0].rate {
      assert after[1..] == groups;
    } else if rate == groups[0].rate {
      assert after[1..] == groups[1..];
    } else {
      InsertAddsToRate(groups[1..], rate, cents, other);
      assert after[1..] == Insert(groups[1..], rate, cents);
    }
  }

  lemma {:induction false} IncreasingRateBase(groups: seq<VatBase>, k: nat)
    requires Increasing(groups) && k < |groups|
    ensures RateBase(groups, groups[k].rate) == groups[k].base
  {
    if k == 0 {
      NoRateBelow(groups[1..], groups[0].rate);
    } else {
      IncreasingRateBase(groups[1..], k - 1);
    }
  }

  lemma {:induction false} NoRateBelow(groups: seq<VatBase>, rate: real)
    requires forall g :: g in groups ==> g.rate != rate
    ensures RateBase(groups, rate) == 0
  {
    if groups != [] {
      assert groups[0] in groups;
      NoRateBelow(groups[1..], rate);
    }
  }

  function VatRates(lines: seq<PricedLine>): set<real> { set l | l in lines :: l.vat }

  lemma OneMoreRate(lines: seq<PricedLine>)
    requires lines != []
    ensures VatRates(lines) == VatRates(lines[..|lines| - 1]) + {lines[|lines| - 1].vat}
  {
    var init, l := lines[..|lines| - 1], lines[|lines| - 1];
    assert lines == init + [l];
    assert forall m :: m in lines <==> m in init || m == l;
  }

  lemma {:induction false} GroupedRates(lines: seq<PricedLine>, rate: real)
    ensures Increasing(Grouped(lines))
    ensures RateBase(Grouped(lines), rate) == SumBy(lines, HtAt(rate))
    ensures Rates(Grouped(lines)) == VatRates(lines)
  {
    if lines != [] {
      hide Insert, RateBase, Rates, Increasing, VatRates;
      var init, l := lines[..|lines| - 1], lines[|lines| - 1];
      GroupedRates(init, rate);
      InsertKeepsOrder(Grouped(init), l.vat, l.totalHtCents);
      InsertAddsToRate(Grouped(init), l.vat, l.totalHtCents, rate);
      OneMoreRate(lines);
    }
  }

  lemma GroupedIsGrouping(lines: seq<PricedLine>)
    ensures IsGrouping(Grouped(lines), lines)
  {
    var groups := Grouped(lines);
    GroupedRates(lines, 0.0);
    forall g | g in groups
      ensures g.base == SumBy(lines, HtAt(g.rate)) && exists l :: l in lines && l.vat == g.rate
    {
      var k :| 0 <= k < |groups| && groups[k] == g;
      GroupedRates(lines, g.rate);
      IncreasingRateBase(groups, k);
      assert g.rate in Rates(groups);
    }
    forall l | l in lines
      ensures exists g :: g in groups && g.rate == l.vat
    {
      assert l.vat in Rates(groups);
    }
  }

  /** There is only one grouping of a collection of lines, so the order of the loop cannot matter. */
  lemma {:induction false} GroupingIsUnique(xs: seq<VatBase>, ys: seq<VatBase>)
    requires Increasing(xs) && Increasing(ys)
    requires forall g :: g in xs <==> g in ys
    ensures xs == ys
  {
    assert ys != [] ==> ys[0] in xs;
    if xs != [] {
      assert xs[0] in ys;
      SameFirst(xs, ys);
      SameRest(xs, ys);
      SameRest(ys, xs);
      GroupingIsUnique(xs[1..], ys[1..]);
      assert xs == [xs[0]] + xs[1..] && ys == [ys[0]] + ys[1..];
    }
  }

  lemma SameFirst(xs: seq<VatBase>, ys: seq<VatBase>)
    requires Increasing(xs) && Increasing(ys) && xs != [] && ys != []
    requires forall g :: g in xs <==> g in ys
    ensures xs[0] == ys[0]
  {
    assert xs[0] in xs && ys[0] in ys;
    var i :| 0 <= i < |xs| && xs[i] == ys[0];
    var j :| 0 <= j < |ys| && ys[j] == xs[0];
  }

  lemma SameRest(xs: seq<VatBase>, ys: seq<VatBase>)
    requires Increasing(xs) && Increasing(ys) && xs != [] && ys != [] && xs[0] == ys[0]
    requires forall g :: g in xs <==> g in ys
    ensures Increasing(xs[1..])
    ensures forall g :: g in xs[1..] ==> g in ys[1..]
  {
    forall g | g in xs[1..]
      ensures g in ys[1..]
    {
      var i :| 1 <= i < |xs| && xs[i] == g;
      assert g in ys && g != ys[0];
      var j :| 0 <= j < |ys| && ys[j] == g;
      assert ys[1..][j - 1] == g;
    }
  }

  lemma SameGroupings(xs: seq<VatBase>, lines: seq<PricedLine>, ys: seq<VatBase>, other: seq<PricedLine>)
    requires IsGrouping(xs, lines) && IsGrouping(ys, other) && multiset(lines) == multiset(other)
    ensures xs == ys
  {
    hide SumBy, IsGrouping;
    SameMembers(lines, other);
    forall rate
      ensures SumBy(lines, HtAt(rate)) == SumBy(other, HtAt(rate))
    {
      SumByPermutation(lines, other, HtAt(rate));
    }
    GroupMembers(xs, lines, ys, other);
    GroupMembers(ys, other, xs, lines);
    GroupingOrder(xs, lines);
    GroupingOrder(ys, other);
    GroupingIsUnique(xs, ys);
  }

  lemma GroupingOrder(xs: seq<VatBase>, lines: seq<PricedLine>)
    requires IsGrouping(xs, lines)
    ensures Increasing(xs)
  {
  }

  lemma GroupMembers(xs: seq<VatBase>, lines: seq<PricedLine>, ys: seq<VatBase>, other: seq<PricedLine>)
    requires IsGrouping(xs, lines) && IsGrouping(ys, other)
    requires forall l :: l in lines ==> l in other
    requires forall rate :: SumBy(lines, HtAt(rate)) == SumBy(other, HtAt(rate))
    ensures forall g :: g in xs ==> g in ys
  {
    forall g | g in xs
      ensures g in ys
    {
      hide SumBy;
      var l :| l in lines && l.vat == g.rate;
      assert SumBy(lines, HtAt(g.rate)) == SumBy(other, HtAt(g.rate));
      var h :| h in ys && h.rate == l.vat;
      assert h == g;
    }
  }

  // ------------------------------------------------------------ the loop

  lemma LastIsGreatest(groups: seq<VatBase>, g: VatBase)
    requires Increasing(groups) && forall h :: h in groups ==> h.rate < g.rate
    ensures Increasing(groups + [g])
  {
    assert forall i :: 0 <= i < |groups| ==> groups[i] in groups;
  }

  /** `[...byRate.values()].sort(...)`: the rates met, in increasing order. */
  method SortRates(byRate: map<real, int>) returns (groups: seq<VatBase>)
    ensures Increasing(groups)
    ensures forall g :: g in groups <==> g.rate in byRate && g.base == byRate[g.rate]
  {
    EmptyIncreasing();
    hide Increasing;
    groups := [];
    var rest := byRate.Keys;
    while rest != {}
      invariant rest <= byRate.Keys
      invariant Increasing(groups)
      invariant forall g :: g in groups <==> g.rate in byRate && g.rate !in rest && g.base == byRate[g.rate]
      invariant forall g, r :: g in groups && r in rest ==> g.rate < r
      decreases rest
    {
      LeastExists(rest);
      var least :| least in rest && forall r :: r in rest ==> least <= r;
      var g := VatBase(least, byRate[least]);
      assert forall h :: h in groups + [g] <==> h in groups || h == g;
      LastIsGreatest(groups, g);
      groups := groups + [g];
      rest := rest - {least};
    }
  }

  lemma Pick<T>(s: set<T>) returns (x: T)
    requires s != {}
    ensures x in s
  {
    x :| x in s;
  }

  lemma {:induction false} LeastExists(s: set<real>)
    requires s != {}
    ensures exists m :: m in s && forall r :: r in s ==> m <= r
  {
    var x := Pick(s);
    var rest := s - {x};
    if rest == {} {
      forall r | r in s ensures x <= r {
        assert r == x || r in rest;
      }
    } else {
      LeastExists(rest);
      var m: real :| m in rest && forall r :: r in rest ==> m <= r;
      var least := if x < m then x else m;
      forall r | r in s ensures least <= r {
        if r != x {
          assert r in rest;
        }
      }
      assert least in s;
    }
  }

  method ComputeTotals(lines: seq<PricedLine>, mode: RoundingMode) returns (t: PricingTotals)
    ensures t == TotalsOf(lines, mode)
  {
    hide MakeTotals, Breakdowns, IsGrouping;
    var ht, monthly, quarterly, yearly, oneOff := 0, 0, 0, 0, 0;
    for i := 0 to |lines|
      invariant ht == SumBy(lines[..i], Ht())
      invariant monthly == SumBy(lines[..i], HtOf(MONTHLY)) && quarterly == SumBy(lines[..i], HtOf(QUARTERLY))
      invariant yearly == SumBy(lines[..i], HtOf(YEARLY)) && oneOff == SumBy(lines[..i], HtOf(ONE_OFF))
    {
      var l := lines[i];
      assert lines[..i + 1][..i] == lines[..i];
      ht := ht + l.totalHtCents;
      match l.recurrence {
        case MONTHLY => monthly := monthly + l.totalHtCents;
        case QUARTERLY => quarterly := quarterly + l.totalHtCents;
        case YEARLY => yearly := yearly + l.totalHtCents;
        case ONE_OFF => oneOff := oneOff + l.totalHtCents;
      }
    }
    assert lines[..|lines|] == lines;
    var byRate := SumRates(lines);
    var groups := SortRates(byRate);
    MapIsGrouping(byRate, groups, lines);
    GroupedIsGrouping(lines);
    SameGroupings(groups, lines, Grouped(lines), lines);
    t := MakeTotals(ht, monthly, quarterly, yearly, oneOff, Breakdowns(groups, mode), mode);
  }

  /** The map filled by the loop of `computeTotals`. */
  method SumRates(lines: seq<PricedLine>) returns (byRate: map<real, int>)
    ensures byRate.Keys == set l | l in lines :: l.vat
    ensures forall r :: r in byRate ==> byRate[r] == SumBy(lines, HtAt(r))
  {
    hide SumBy;
    byRate := map[];
    for i := 0 to |lines|
      invariant byRate.Keys == set l | l in lines[..i] :: l.vat
      invariant forall r :: r in byRate ==> byRate[r] == SumBy(lines[..i], HtAt(r))
    {
      var l := lines[i];
      SumOneMore(byRate, lines, i);
      byRate := byRate[l.vat := (if l.vat in byRate then byRate[l.vat] else 0) + l.totalHtCents];
    }
    assert lines[..|lines|] == lines;
  }

  lemma SumOneMore(byRate: map<real, int>, lines: seq<PricedLine>, i: nat)
    requires i < |lines| && byRate.Keys == (set l | l in lines[..i] :: l.vat)
    requires forall r :: r in byRate ==> byRate[r] == SumBy(lines[..i], HtAt(r))
    ensures var l := lines[i];
            var after := byRate[l.vat := (if l.vat in byRate then byRate[l.vat] else 0) + l.totalHtCents];
            && after.Keys == (set m | m in lines[..i + 1] :: m.vat)
            && forall r :: r in after ==> after[r] == SumBy(lines[..i + 1], HtAt(r))
  {
    hide SumBy;
    var l := lines[i];
    assert lines[..i + 1] == lines[..i] + [l];
    if l.vat !in byRate {
      SumByZero(lines[..i], HtAt(l.vat));
    }
    forall r
      ensures SumBy(lines[..i + 1], HtAt(r)) == SumBy(lines[..i], HtAt(r)) + (if l.vat == r then l.totalHtCents else 0)
    {
      SumByStep(lines, i, HtAt(r));
    }
  }

  lemma MapIsGrouping(byRate: map<real, int>, groups: seq<VatBase>, lines: seq<PricedLine>)
    requires byRate.Keys == set l | l in lines :: l.vat
    requires forall r :: r in byRate ==> byRate[r] == SumBy(lines, HtAt(r))
    requires Increasing(groups)
    requires forall g :: g in groups <==> g.rate in byRate && g.base == byRate[g.rate]
    ensures IsGrouping(groups, lines)
  {
    forall l | l in lines
      ensures exists g :: g in groups && g.rate == l.vat
    {
      assert l.vat in byRate.Keys;
      assert VatBase(l.vat, byRate[l.vat]) in groups;
    }
    forall g | g in groups
      ensures exists l :: l in lines && l.vat == g.rate
    {
      assert g.rate in byRate.Keys;
    }
  }

  // ------------------------------------------------------------ properties

  /** The totals do not depend on the order of the lines. */
  lemma TotalsIgnoreOrder(lines: seq<PricedLine>, other: seq<PricedLine>, mode: RoundingMode)
    requires multiset(lines) == multiset(other)
    ensures TotalsOf(lines, mode) == TotalsOf(other, mode)
  {
    hide MakeTotals, Breakdowns, IsGrouping;
    SumByPermutation(lines, other, Ht());
    SumByPermutation(lines, other, HtOf(MONTHLY));
    SumByPermutation(lines, other, HtOf(QUARTERLY));
    SumByPermutation(lines, other, HtOf(YEARLY));
    SumByPermutation(lines, other, HtOf(ONE_OFF));
    GroupedIsGrouping(lines);
    GroupedIsGrouping(other);
    SameGroupings(Grouped(lines), lines, Grouped(other), other);
  }

  function GroupBase(): VatBase -> int { (g: VatBase) => g.base }

  lemma {:induction false} InsertAddsBase(groups: seq<VatBase>, rate: real, cents: int)
    ensures SumBy(Insert(groups, rate, cents), GroupBase()) == SumBy(groups, GroupBase()) + cents
  {
    if groups == [] || rate < groups[0].rate {
      SumByAppend([VatBase(rate, cents)], groups, GroupBase());
      SumByOne(VatBase(rate, cents), GroupBase());
    } else {
      assert groups == [groups[0]] + groups[1..];
      SumByAppend([groups[0]], groups[1..], GroupBase());
      SumByOne(groups[0], GroupBase());
      if rate == groups[0].rate {
        SumByAppend([VatBase(rate, groups[0].base + cents)], groups[1..], GroupBase());
        SumByOne(VatBase(rate, groups[0].base + cents), GroupBase());
      } else {
        InsertAddsBase(groups[1..], rate, cents);
        SumByAppend([groups[0]], Insert(groups[1..], rate, cents), GroupBase());
      }
    }
  }

  lemma {:induction false} GroupsHoldEverything(lines: seq<PricedLine>)
    ensures SumBy(Grouped(lines), GroupBase()) == SumBy(lines, Ht())
  {
    hide Insert;
    if lines != [] {
      var l := lines[|lines| - 1];
      GroupsHoldEverything(lines[..|lines| - 1]);
      InsertAddsBase(Grouped(lines[..|lines| - 1]), l.vat, l.totalHtCents);
    }
  }

  lemma {:induction false} RecurrencesHoldEverything(lines: seq<PricedLine>)
    ensures SumBy(lines, Ht()) == SumBy(lines, HtOf(MONTHLY)) + SumBy(lines, HtOf(QUARTERLY)) + SumBy(lines, HtOf(YEARLY)) + SumBy(lines, HtOf(ONE_OFF))
  {
    if lines != [] {
      RecurrencesHoldEverything(lines[..|lines| - 1]);
    }
  }

  /** No cent is lost or counted twice: by recurrence, by VAT rate, and in the total with tax. */
  lemma TotalsConserve(lines: seq<PricedLine>, mode: RoundingMode)
    ensures var t := TotalsOf(lines, mode);
            && t.htCents == t.monthlyLinesCents + t.quarterlyLinesCents + t.yearlyLinesCents + t.oneOffCents
            && t.htCents == SumBy(t.vatByRate, BaseOf())
            && t.vatCents == SumBy(t.vatByRate, VatOf())
            && t.ttcCents == t.htCents + t.vatCents
  {
    RecurrencesHoldEverything(lines);
    GroupsHoldEverything(lines);
    SumByPointwise(Breakdowns(Grouped(lines), mode), Grouped(lines), BaseOf(), GroupBase());
  }

  /** Exact VAT of an amount, in cents, before any rounding. */
  function ExactVat(cents: int, rate: real): real { cents as real * rate / 100.0 }

  function ExactVatOfLines(lines: seq<PricedLine>): real {
    if lines == [] then 0.0
    else ExactVatOfLines(lines[..|lines| - 1]) + ExactVat(lines[|lines| - 1].totalHtCents, lines[|lines| - 1].vat)
  }

  function ExactVatOfGroups(groups: seq<VatBase>): real {
    if groups == [] then 0.0 else ExactVat(groups[0].base, groups[0].rate) + ExactVatOfGroups(groups[1..])
  }

  lemma ExactVatAdds(a: int, b: int, rate: real)
    ensures ExactVat(a + b, rate) == ExactVat(a, rate) + ExactVat(b, rate)
  {
  }

  lemma {:induction false} InsertAddsExactVat(groups: seq<VatBase>, rate: real, cents: int)
    ensures ExactVatOfGroups(Insert(groups, rate, cents)) == ExactVatOfGroups(groups) + ExactVat(cents, rate)
  {
    hide ExactVat;
    var after := Insert(groups, rate, cents);
    if groups == [] || rate < groups[0].rate {
      assert after[1..] == groups;
    } else if rate == groups[0].rate {
      assert after[1..] == groups[1..];
      ExactVatAdds(groups[0].base, cents, rate);
    } else {
      InsertAddsExactVat(groups[1..], rate, cents);
      assert after[1..] == Insert(groups[1..], rate, cents);
    }
  }

  lemma {:induction false} GroupsHoldExactVat(lines: seq<PricedLine>)
    ensures ExactVatOfGroups(Grouped(lines)) == ExactVatOfLines(lines)
  {
    hide ExactVat, Insert;
    if lines != [] {
      var l := lines[|lines| - 1];
      GroupsHoldExactVat(lines[..|lines| - 1]);
      InsertAddsExactVat(Grouped(lines[..|lines| - 1]), l.vat, l.totalHtCents);
    }
  }

  lemma VatWithinHalfCent(base: int, rate: real, mode: RoundingMode)
    ensures Abs(Vat(base, rate, mode) as real - ExactVat(base, rate)) <= 0.5
  {
    var euros := CentsToEuros(base) * rate / 100.0;
    assert euros * 100.0 == ExactVat(base, rate);
    RoundIsTheRounding(euros * 100.0, Vat(base, rate, mode), mode);
  }

  lemma {:induction false} BreakdownsNearExact(groups: seq<VatBase>, mode: RoundingMode)
    ensures Abs(SumBy(Breakdowns(groups, mode), VatOf()) as real - ExactVatOfGroups(groups)) <= 0.5 * |groups| as real
    decreases |groups|
  {
    hide ExactVat, Vat;
    var all := Breakdowns(groups, mode);
    if groups == [] {
      assert all == [];
    } else {
      BreakdownsNearExact(groups[1..], mode);
      assert all == [all[0]] + Breakdowns(groups[1..], mode);
      SumByAppend([all[0]], Breakdowns(groups[1..], mode), VatOf());
      SumByOne(all[0], VatOf());
      VatWithinHalfCent(groups[0].base, groups[0].rate, mode);
    }
  }

  /** VAT is off the exact sum of the VAT of the lines by at most half a cent per rate, not per line. */
  lemma VatErrorPerRate(lines: seq<PricedLine>, mode: RoundingMode)
    ensures var t := TotalsOf(lines, mode);
            Abs(t.vatCents as real - ExactVatOfLines(lines)) <= 0.5 * |t.vatByRate| as real
  {
    GroupsHoldExactVat(lines);
    BreakdownsNearExact(Grouped(lines), mode);
  }

  /** The monthly figure is rounded once: twelve of them are within six cents of the yearly figure. */
  lemma MonthlyTimesTwelve(lines: seq<PricedLine>, mode: RoundingMode)
    ensures var t := TotalsOf(lines, mode);
            -6 <= 12 * t.monthlyRecurringCents - t.annualRecurringCents <= 6
  {
    var q, y := SumBy(lines, HtOf(QUARTERLY)), SumBy(lines, HtOf(YEARLY));
    var euros := CentsToEuros(q) / 3.0 + CentsToEuros(y) / 12.0;
    assert 12.0 * (euros * 100.0) == (4 * q + y) as real;
    RoundIsTheRounding(euros * 100.0, Normalised(q, y, mode), mode);
  }

  lemma {:induction false} GroupedNonNegative(groups: seq<VatBase>, mode: RoundingMode)
    requires forall g :: g in groups ==> g.base >= 0 && g.rate >= 0.0
    ensures SumBy(Breakdowns(groups, mode), VatOf()) >= 0
  {
    forall v | v in Breakdowns(groups, mode)
      ensures v.vatCents >= 0
    {
      var k :| 0 <= k < |groups| && v == Breakdown(groups[k], mode);
      assert groups[k] in groups;
      VatNonNegative(groups[k].base, groups[k].rate, mode);
    }
    SumByNonNegative(Breakdowns(groups, mode), VatOf());
  }

  lemma VatNonNegative(base: int, rate: real, mode: RoundingMode)
    requires base >= 0 && rate >= 0.0
    ensures Vat(base, rate, mode) >= 0
  {
    ProductOrder(rate, 0.0, CentsToEuros(base));
    RoundMonotone(0.0, CentsToEuros(base) * rate / 100.0 * 100.0, mode);
  }

  /** When no rate has a negative base, HT, VAT and the total with tax are not negative. */
  lemma TotalsNonNegative(lines: seq<PricedLine>, mode: RoundingMode)
    requires forall l :: l in lines ==> l.vat >= 0.0
    requires forall rate :: SumBy(lines, HtAt(rate)) >= 0
    ensures var t := TotalsOf(lines, mode); t.htCents >= 0 && t.vatCents >= 0 && t.ttcCents >= 0
  {
    GroupedIsGrouping(lines);
    GroupsHoldEverything(lines);
    SumByNonNegative(Grouped(lines), GroupBase());
    GroupedNonNegative(Grouped(lines), mode);
  }

  // -------------------------------------------------------- buckets of a proposal

  function Only(r: Recurrence): PricedLine -> seq<PricedLine> {
    (l: PricedLine) => if l.recurrence == r then [l] else []
  }

  /** The lines of one recurrence. */
  function Bucket(lines: seq<PricedLine>, r: Recurrence): seq<PricedLine> {
    FlatMap(lines, Only(r))
  }

  lemma {:induction false} BucketSums(lines: seq<PricedLine>, r: Recurrence)
    ensures SumBy(Bucket(lines, r), Ht()) == SumBy(lines, HtOf(r))
    ensures forall l :: l in Bucket(lines, r) ==> l in lines
  {
    if lines != [] {
      var init, l := lines[..|lines| - 1], lines[|lines| - 1];
      BucketSums(init, r);
      assert lines == init + [l];
      SumByAppend(Bucket(init, r), Only(r)(l), Ht());
      if l.recurrence == r {
        SumByOne(l, Ht());
      }
    }
  }

  lemma {:induction false} OneRateOneGroup(lines: seq<PricedLine>, rate: real)
    requires lines != [] && forall l :: l in lines ==> l.vat == rate
    ensures Grouped(lines) == [VatBase(rate, SumBy(lines, Ht()))]
  {
    var init, l := lines[..|lines| - 1], lines[|lines| - 1];
    assert lines == init + [l];
    if init != [] {
      OneRateOneGroup(init, rate);
    }
  }

  lemma OneRateVat(lines: seq<PricedLine>, rate: real, mode: RoundingMode)
    requires forall l :: l in lines ==> l.vat == rate
    ensures TotalsOf(lines, mode).vatCents == Vat(SumBy(lines, Ht()), rate, mode)
  {
    if lines != [] {
      OneRateOneGroup(lines, rate);
      var v := Breakdown(VatBase(rate, SumBy(lines, Ht())), mode);
      assert Breakdowns(Grouped(lines), mode) == [v];
      SumByOne(v, VatOf());
    } else {
      assert Breakdowns(Grouped(lines), mode) == [];
      VatOfNothing(rate, mode);
    }
  }

  lemma VatOfNothing(rate: real, mode: RoundingMode)
    ensures Vat(0, rate, mode) == 0
  {
    assert CentsToEuros(0) * rate / 100.0 == 0.0;
  }

  /**
   * Lines of one VAT rate, split into the four buckets: HT adds up exactly, and the four bucket
   * VATs, each rounded on its own, add up to the overall VAT within two cents.
   */
  lemma BucketsNearTotal(lines: seq<PricedLine>, rate: real, mode: RoundingMode)
    requires forall l :: l in lines ==> l.vat == rate
    ensures var t := TotalsOf(lines, mode);
            var m, q, y, o := TotalsOf(Bucket(lines, MONTHLY), mode), TotalsOf(Bucket(lines, QUARTERLY), mode),
                              TotalsOf(Bucket(lines, YEARLY), mode), TotalsOf(Bucket(lines, ONE_OFF), mode);
            && m.htCents + q.htCents + y.htCents + o.htCents == t.htCents
            && -2 <= m.vatCents + q.vatCents + y.vatCents + o.vatCents - t.vatCents <= 2
  {
    hide Vat, Grouped, Breakdowns, Normalised, FlatMap;
    RecurrencesHoldEverything(lines);
    BucketVat(lines, MONTHLY, rate, mode);
    BucketVat(lines, QUARTERLY, rate, mode);
    BucketVat(lines, YEARLY, rate, mode);
    BucketVat(lines, ONE_OFF, rate, mode);
    OneRateVat(lines, rate, mode);
    FourRoundings(SumBy(lines, HtOf(MONTHLY)), SumBy(lines, HtOf(QUARTERLY)), SumBy(lines, HtOf(YEARLY)),
                  SumBy(lines, HtOf(ONE_OFF)), rate, mode);
  }

  lemma BucketVat(lines: seq<PricedLine>, r: Recurrence, rate: real, mode: RoundingMode)
    requires forall l :: l in lines ==> l.vat == rate
    ensures TotalsOf(Bucket(lines, r), mode).htCents == SumBy(lines, HtOf(r))
    ensures TotalsOf(Bucket(lines, r), mode).vatCents == Vat(SumBy(lines, HtOf(r)), rate, mode)
  {
    BucketSums(lines, r);
    OneRateVat(Bucket(lines, r), rate, mode);
  }

  lemma FourRoundings(a: int, b: int, c: int, d: int, rate: real, mode: RoundingMode)
    ensures -2 <= Vat(a, rate, mode) + Vat(b, rate, mode) + Vat(c, rate, mode) + Vat(d, rate, mode)
                  - Vat(a + b + c + d, rate, mode) <= 2
  {
    hide Vat, ExactVat;
    VatWithinHalfCent(a, rate, mode);
    VatWithinHalfCent(b, rate, mode);
    VatWithinHalfCent(c, rate, mode);
    VatWithinHalfCent(d, rate, mode);
    VatWithinHalfCent(a + b + c + d, rate, mode);
    ExactVatAdds(a, b, rate);
    ExactVatAdds(a + b, c, rate);
    ExactVatAdds(a + b + c, d, rate);
  }
}

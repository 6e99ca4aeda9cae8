/**
 * What the totals are, told from the lines alone (packages/pricing/src/price-at.ts, `computeTotals`): the
 * recurrences, the weights and the rounding are written out here, so that one set of totals answers.
 */
module TotalsReads {
  import opened Sums
  import opened Money
  import opened PricingTypes
  import opened Totals

  /** The HT of the lines of one recurrence. */
  function Recurring(r: Recurrence): PricedLine -> int { (l: PricedLine) => if l.recurrence == r then l.totalHtCents else 0 }

  function Taxed(rate: real): PricedLine -> int { (l: PricedLine) => if l.vat == rate then l.totalHtCents else 0 }

  function Charged(): PricedLine -> int { (l: PricedLine) => l.totalHtCents }

  function Tax(): VatBreakdown -> int { (v: VatBreakdown) => v.vatCents }

  /** The tax of a base at a rate in percents, in cents and not rounded yet. */
  function TaxOn(baseCents: int, rate: real): real { baseCents as real * rate / 100.0 }

  /** Each rate of the lines once, in increasing order, its VAT rounded once in the mode of the settings. */
  ghost predicate VatReads(vatByRate: seq<VatBreakdown>, lines: seq<PricedLine>, mode: RoundingMode) {
    && (forall i, j :: 0 <= i < j < |vatByRate| ==> vatByRate[i].rate < vatByRate[j].rate)
    && (forall l :: l in lines ==> exists v :: v in vatByRate && v.rate == l.vat)
    && (forall v :: v in vatByRate ==> RateReads(v, lines, mode))
  }

  ghost predicate RateReads(v: VatBreakdown, lines: seq<PricedLine>, mode: RoundingMode) {
    && (exists l :: l in lines && l.vat == v.rate)
    && v.baseHtCents == SumBy(lines, Taxed(v.rate))
    && IsRounding(TaxOn(v.baseHtCents, v.rate), v.vatCents, mode)
  }

  /** A quarter weighs a third of itself each month and a year a twelfth, rounded once and together. */
  ghost predicate TotalsRead(t: PricingTotals, lines: seq<PricedLine>, mode: RoundingMode) {
    && t.htCents == SumBy(lines, Charged())
    && t.monthlyLinesCents == SumBy(lines, Recurring(MONTHLY)) && t.quarterlyLinesCents == SumBy(lines, Recurring(QUARTERLY))
    && t.yearlyLinesCents == SumBy(lines, Recurring(YEARLY)) && t.oneOffCents == SumBy(lines, Recurring(ONE_OFF))
    && VatReads(t.vatByRate, lines, mode)
    && t.vatCents == SumBy(t.vatByRate, Tax()) && t.ttcCents == t.htCents + t.vatCents
    && t.annualRecurringCents == 12 * t.monthlyLinesCents + 4 * t.quarterlyLinesCents + t.yearlyLinesCents
    && IsRounding((4 * t.quarterlyLinesCents + t.yearlyLinesCents) as real / 12.0, t.monthlyRecurringCents - t.monthlyLinesCents, mode)
  }

  lemma VatIsTheRounding(base: int, rate: real, vat: int, mode: RoundingMode)
    ensures vat == Vat(base, rate, mode) <==> IsRounding(TaxOn(base, rate), vat, mode)
  {
    hide IsRounding, Round;
    var euros := CentsToEuros(base) * rate / 100.0;
    assert euros * 100.0 == TaxOn(base, rate);
    RoundIsTheRounding(euros * 100.0, vat, mode);
  }

  lemma MonthsAreTheRounding(quarterly: int, yearly: int, months: int, mode: RoundingMode)
    ensures months == Normalised(quarterly, yearly, mode) <==> IsRounding((4 * quarterly + yearly) as real / 12.0, months, mode)
  {
    hide IsRounding, Round;
    var euros := CentsToEuros(quarterly) / 3.0 + CentsToEuros(yearly) / 12.0;
    assert euros * 100.0 == (4 * quarterly + yearly) as real / 12.0;
    RoundIsTheRounding(euros * 100.0, months, mode);
  }

  lemma SameSums(lines: seq<PricedLine>)
    ensures SumBy(lines, Charged()) == SumBy(lines, Ht())
    ensures forall r :: SumBy(lines, Recurring(r)) == SumBy(lines, HtOf(r))
    ensures forall rate :: SumBy(lines, Taxed(rate)) == SumBy(lines, HtAt(rate))
  {
    SumByPointwise(lines, lines, Charged(), Ht());
    forall r
      ensures SumBy(lines, Recurring(r)) == SumBy(lines, HtOf(r))
    {
      SumByPointwise(lines, lines, Recurring(r), HtOf(r));
    }
    forall rate
      ensures SumBy(lines, Taxed(rate)) == SumBy(lines, HtAt(rate))
    {
      SumByPointwise(lines, lines, Taxed(rate), HtAt(rate));
    }
  }

  /** The groups a list of VAT lines stands for. */
  function Groups(vatByRate: seq<VatBreakdown>): seq<VatBase> {
    seq(|vatByRate|, i requires 0 <= i < |vatByRate| => VatBase(vatByRate[i].rate, vatByRate[i].baseHtCents))
  }

  ghost predicate IsGroup(g: VatBase, lines: seq<PricedLine>) {
    g.base == SumBy(lines, HtAt(g.rate)) && exists l :: l in lines && l.vat == g.rate
  }

  lemma GroupReads(g: VatBase, v: VatBreakdown, lines: seq<PricedLine>, mode: RoundingMode)
    requires g == VatBase(v.rate, v.baseHtCents)
    ensures IsGroup(g, lines) && v == Breakdown(g, mode) <==> RateReads(v, lines, mode)
  {
    hide Vat, IsRounding, TaxOn, SumBy;
    SumByPointwise(lines, lines, Taxed(v.rate), HtAt(v.rate));
    VatIsTheRounding(v.baseHtCents, v.rate, v.vatCents, mode);
  }

  lemma BreakdownReads(groups: seq<VatBase>, lines: seq<PricedLine>, mode: RoundingMode)
    requires IsGrouping(groups, lines)
    ensures VatReads(Breakdowns(groups, mode), lines, mode)
  {
    var all := Breakdowns(groups, mode);
    forall v | v in all
      ensures RateReads(v, lines, mode)
    {
      var i :| 0 <= i < |groups| && v == Breakdown(groups[i], mode);
      assert groups[i] in groups;
      hide SumBy, Vat, RateReads;
      assert IsGroup(groups[i], lines);
      GroupReads(groups[i], v, lines, mode);
    }
    hide RateReads, SumBy, Vat;
    forall l | l in lines
      ensures exists v :: v in all && v.rate == l.vat
    {
      var g :| g in groups && g.rate == l.vat;
      var i :| 0 <= i < |groups| && g == groups[i];
      assert all[i] in all;
    }
  }

  lemma ReadIsGrouping(vatByRate: seq<VatBreakdown>, lines: seq<PricedLine>, mode: RoundingMode)
    requires VatReads(vatByRate, lines, mode)
    ensures IsGrouping(Groups(vatByRate), lines) && vatByRate == Breakdowns(Groups(vatByRate), mode)
  {
    hide SumBy, Vat, RateReads, IsGroup;
    var groups := Groups(vatByRate);
    forall i | 0 <= i < |groups|
      ensures vatByRate[i] == Breakdown(groups[i], mode) && IsGroup(groups[i], lines)
    {
      var v := vatByRate[i];
      assert RateReads(v, lines, mode);
      GroupReads(groups[i], v, lines, mode);
    }
    forall l | l in lines
      ensures exists g :: g in groups && g.rate == l.vat
    {
      var v :| v in vatByRate && v.rate == l.vat;
      var i :| 0 <= i < |vatByRate| && v == vatByRate[i];
      assert groups[i] in groups;
    }
    GroupsAreGroups(groups, lines);
  }

  lemma GroupsAreGroups(groups: seq<VatBase>, lines: seq<PricedLine>)
    requires forall i :: 0 <= i < |groups| ==> IsGroup(groups[i], lines)
    ensures forall g :: g in groups ==> g.base == SumBy(lines, HtAt(g.rate)) && exists l :: l in lines && l.vat == g.rate
  {
    hide SumBy;
  }

  lemma SameTax(vatByRate: seq<VatBreakdown>)
    ensures SumBy(vatByRate, Tax()) == SumBy(vatByRate, VatOf())
  {
    SumByPointwise(vatByRate, vatByRate, Tax(), VatOf());
  }

  /** The totals are the only ones that read so from the lines, ties of every rounding included. */
  lemma TotalsExactly(lines: seq<PricedLine>, t: PricingTotals, mode: RoundingMode)
    ensures t == TotalsOf(lines, mode) <==> TotalsRead(t, lines, mode)
  {
    hide SumBy, IsRounding, VatReads, IsGrouping, Breakdowns, Normalised, Grouped;
    SameSums(lines);
    SameTax(t.vatByRate);
    GroupedIsGrouping(lines);
    BreakdownReads(Grouped(lines), lines, mode);
    MonthsAreTheRounding(t.quarterlyLinesCents, t.yearlyLinesCents, t.monthlyRecurringCents - t.monthlyLinesCents, mode);
    if TotalsRead(t, lines, mode) {
      ReadIsGrouping(t.vatByRate, lines, mode);
      SameGroupings(Groups(t.vatByRate), lines, Grouped(lines), lines);
    }
  }
}

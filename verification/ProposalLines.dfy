/** How the engine prices the manual lines a proposal gives it: exactly, in whole cents, whatever the date. */
module ProposalLines {
  import opened Outcomes
  import opened Money
  import opened DecimalText
  import opened Tiers
  import opened Overrides
  import opened PricingTypes
  import opened LinePricing
  import opened Proposals

  /** Nothing but the schedule: no override may apply. */
  predicate NoOverrides(ctx: Ctx) { ctx.overridesByLine == map[] }

  predicate Simple(kind: LineKind) { kind in {UNIT, HOURLY, SETUP_FEE, FLAT_MONTHLY} }

  lemma NothingSelected(c: Case)
    ensures Select([], c) == Ok(Selection(None, []))
  {
  }

  lemma ProductOfCents(qty: nat, cents: int)
    ensures Cost(qty as real, CentsToEuros(cents)) == CentsToEuros(qty * cents)
  {
    Hundredth(qty as real, cents as real);
    assert qty as real * cents as real == (qty * cents) as real;
  }

  lemma Hundredth(x: real, y: real)
    ensures x * (y / 100.0) == x * y / 100.0
  {
  }

  /** What the engine makes of such a line, trace included; the date does not appear. */
  function PlainPriced(line: Line, recurrence: Recurrence, qty: nat, cents: int, charged: int, vat: real, s: Settings): PricedLine {
    var euros, unit, total := CentsToEuros(cents), CentsToEuros(charged), CentsToEuros(qty * charged);
    Priced(line, recurrence, qty as real, unit, vat, qty * charged,
           [TraceStep.Quantity("FIXED", qty as real, None), BasePrice(euros), Rounding(UNIT_PRICE, euros, unit, s.unitPriceScale, s.rounding),
            LineTotal(unit, qty as real, total), Rounding(LINE_TOTAL, total, total, 2, s.rounding)])
  }

  /** The unit price in cents once rounded to the scale of the settings. */
  function ChargedCents(cents: int, scale: nat, mode: RoundingMode): int {
    ToCents(RoundToScale(CentsToEuros(cents), scale, mode), mode)
  }

  /** At any scale the rounded unit price is a whole number of cents; it is the price given when the scale holds it. */
  lemma ChargedIsWhole(cents: int, scale: nat, mode: RoundingMode)
    ensures RoundToScale(CentsToEuros(cents), scale, mode) == CentsToEuros(ChargedCents(cents, scale, mode))
    ensures ChargedCents(cents, scale, mode) == cents <==> HasScale(CentsToEuros(cents), scale)
  {
    hide ToCents, CentsToEuros, RoundToScale, HasScale;
    var euros := CentsToEuros(cents);
    RoundToScaleFixed(euros, scale, mode);
    CentsRoundTrip(cents, mode);
    if scale >= 2 {
      CentsHaveScale(cents, scale);
    } else {
      var n := TensOfCents(RoundToScale(euros, scale, mode), scale);
      CentsRoundTrip(n, mode);
    }
  }

  lemma TensOfCents(x: real, scale: nat) returns (cents: int)
    requires scale < 2 && HasScale(x, scale)
    ensures x == CentsToEuros(cents)
  {
    assert Shift(1) == 10.0 && Shift(0) == 1.0;
    var n := WholeUnits(x, scale);
    cents := if scale == 1 then 10 * n else 100 * n;
  }

  predicate Readable(qty: nat, cents: int) {
    qty < Pow10(MAX_INTEGER_DIGITS) && 0 <= cents < 100 * Pow10(MAX_INTEGER_DIGITS)
  }

  /** At any scale of unit prices, the total is exactly quantity times the cents left by that scale. */
  lemma PlainLineAtScale(
      id: string, code: string, kind: LineKind, recurrence: Option<Recurrence>, qty: nat, cents: int, vat: string,
      ctx: Ctx)
    requires Simple(kind) && NoOverrides(ctx)
    ensures var line := ManualLine(id, code, kind, recurrence, qty, cents, vat);
            var charged := ChargedCents(cents, ctx.settings.unitPriceScale, ctx.settings.rounding);
            && (RegularLine(line, ctx).Ok? <==> ParseVat(line).Ok? && ResolveRecurrence(line).Ok? && Readable(qty, cents))
            && (RegularLine(line, ctx).Ok? ==>
                  RegularLine(line, ctx)
                  == Ok(PlainPriced(line, ResolveRecurrence(line).value, qty, cents, charged, ParseVat(line).value, ctx.settings)))
  {
    hide ParseVat, ResolveRecurrence, RoundToScale, ToCents, CentsToEuros, Cost, Select;
    hide ParseDecimal, NatText, CentsText, WorkOut, ResolveQuantity, Pow10, Finish, ChargedCents;
    var line := ManualLine(id, code, kind, recurrence, qty, cents, vat);
    PlainQuantity(line, qty, ctx);
    PlainWork(line, qty, cents, ctx);
    assert CheckShape(line).Ok?;
    if ParseVat(line).Ok? && ResolveRecurrence(line).Ok? && Readable(qty, cents) {
      PlainFinish(line, qty, cents, ParseVat(line).value, ResolveRecurrence(line).value, ctx);
    }
  }

  /** With at least two decimals kept on unit prices, the total is exactly quantity times unit cents. */
  lemma PlainLinePriced(
      id: string, code: string, kind: LineKind, recurrence: Option<Recurrence>, qty: nat, cents: int, vat: string,
      ctx: Ctx)
    requires Simple(kind) && NoOverrides(ctx) && ctx.settings.unitPriceScale >= 2
    ensures var line := ManualLine(id, code, kind, recurrence, qty, cents, vat);
            && (RegularLine(line, ctx).Ok? <==> ParseVat(line).Ok? && ResolveRecurrence(line).Ok? && Readable(qty, cents))
            && (RegularLine(line, ctx).Ok? ==>
                  RegularLine(line, ctx)
                  == Ok(PlainPriced(line, ResolveRecurrence(line).value, qty, cents, cents, ParseVat(line).value, ctx.settings)))
  {
    hide *;
    PlainLineAtScale(id, code, kind, recurrence, qty, cents, vat, ctx);
    CentsHaveScale(cents, ctx.settings.unitPriceScale);
    ChargedIsWhole(cents, ctx.settings.unitPriceScale, ctx.settings.rounding);
  }

  lemma PlainQuantity(line: Line, qty: nat, ctx: Ctx)
    requires line.quantity == Some(Fixed(NatText(qty)))
    ensures ResolveQuantity(line, ctx).Ok? <==> qty < Pow10(MAX_INTEGER_DIGITS)
    ensures ResolveQuantity(line, ctx).Ok? ==> ResolveQuantity(line, ctx).value == TraceStep.Quantity("FIXED", qty as real, None)
  {
    hide ParseDecimal, NatText, Pow10;
    NatTextParses(qty, 6, false);
  }

  lemma PlainWork(line: Line, qty: nat, cents: int, ctx: Ctx)
    requires line.mode == MANUAL && Simple(line.kind) && line.unitPrice == Some(CentsText(cents)) && line.revision.None?
    ensures WorkOut(line, qty as real, ctx).Ok? <==> 0 <= cents < 100 * Pow10(MAX_INTEGER_DIGITS)
    ensures WorkOut(line, qty as real, ctx).Ok? ==>
              WorkOut(line, qty as real, ctx).value == Stage(Unit(CentsToEuros(cents)), [BasePrice(CentsToEuros(cents))])
  {
    hide ParseDecimal, CentsText, Pow10, CentsToEuros;
    CentsTextParses(cents, 6);
  }

  lemma PlainFinish(line: Line, qty: nat, cents: int, vat: real, recurrence: Recurrence, ctx: Ctx)
    requires NoOverrides(ctx) && line.kind != HOUR_PACK
    ensures Finish(line, ctx, vat, recurrence, TraceStep.Quantity("FIXED", qty as real, None), Unit(CentsToEuros(cents)), [BasePrice(CentsToEuros(cents))])
         == Ok(PlainPriced(line, recurrence, qty, cents, ChargedCents(cents, ctx.settings.unitPriceScale, ctx.settings.rounding), vat, ctx.settings))
  {
    hide RoundToScale, ToCents, CentsToEuros, Cost, Select, ChargedCents;
    var s, euros := ctx.settings, CentsToEuros(cents);
    var charged := ChargedCents(cents, s.unitPriceScale, s.rounding);
    var unit := CentsToEuros(charged);
    ChargedIsWhole(cents, s.unitPriceScale, s.rounding);
    var price := Unit(euros);
    assert ComputedUnit(price, qty as real, s) == unit;
    NothingSelected(ctx.OverrideCase(unit));
    assert ctx.OverridesOf(line.id) == [];
    ProductOfCents(qty, charged);
    CentsRoundTrip(qty * charged, s.rounding);
    assert SkippedSteps([]) == [];
    var q := TraceStep.Quantity("FIXED", qty as real, None);
    var rounding := RoundingStep(price, qty as real, s);
    assert SelectionSteps(Selection(None, []), unit) == [] && HourPackSteps(line, unit, s) == [];
    assert [q] + [BasePrice(euros)] + [rounding] + [] + [] + TotalSteps(unit, qty as real, CentsToEuros(qty * charged), s)
        == PlainPriced(line, recurrence, qty, cents, charged, vat, s).trace;
  }

  /**
   * A line of whole cents is charged what is shown, quantity times unit cents, exactly when the unit price
   * scale can hold its price: with fewer than two decimals, prices that need them are charged differently.
   */
  lemma ShownPriceIsChargedExactlyWhenScaled(
      id: string, code: string, kind: LineKind, recurrence: Option<Recurrence>, qty: nat, cents: int, vat: string,
      ctx: Ctx)
    requires Simple(kind) && NoOverrides(ctx) && qty > 0
    requires RegularLine(ManualLine(id, code, kind, recurrence, qty, cents, vat), ctx).Ok?
    ensures var p := RegularLine(ManualLine(id, code, kind, recurrence, qty, cents, vat), ctx).value;
            var scale := ctx.settings.unitPriceScale;
            && (p.totalHtCents == qty * cents <==> HasScale(CentsToEuros(cents), scale))
            && (p.unitPrice == CentsToEuros(cents) <==> HasScale(CentsToEuros(cents), scale))
            && (HasScale(CentsToEuros(cents), scale) <==> scale >= 2 || cents % (if scale == 1 then 10 else 100) == 0)
  {
    hide RegularLine, ChargedCents, ManualLine, HasScale;
    var scale, mode := ctx.settings.unitPriceScale, ctx.settings.rounding;
    var charged := ChargedCents(cents, scale, mode);
    PlainLineAtScale(id, code, kind, recurrence, qty, cents, vat, ctx);
    ChargedIsWhole(cents, scale, mode);
    SameUnits(qty, charged, cents);
    if scale >= 2 {
      CentsHaveScale(cents, scale);
    } else {
      WholeTens(cents);
    }
  }

  lemma SameUnits(qty: nat, a: int, b: int)
    requires qty > 0
    ensures qty * a == qty * b <==> a == b
    ensures CentsToEuros(a) == CentsToEuros(b) <==> a == b
  {
    if qty * a == qty * b {
      assert qty * (a - b) == 0;
    }
  }

  /** With one decimal on unit prices, one unit at 15 cents is charged 20 cents, in either rounding mode. */
  lemma FifteenCentsAreChargedTwenty(id: string, ctx: Ctx)
    requires NoOverrides(ctx) && ctx.settings.unitPriceScale == 1
    ensures var p := RegularLine(ManualLine(id, id, FLAT_MONTHLY, None, 1, 15, "20"), ctx);
            p.Ok? && p.value.totalHtCents == 20 && p.value.unitPrice == 0.2
  {
    hide RegularLine, ParseDecimal, NatText, CentsText, ChargedCents, Readable;
    TwentyParses();
    FifteenIsReadable();
    PlainLineAtScale(id, id, FLAT_MONTHLY, None, 1, 15, "20", ctx);
    FifteenRounds(ctx.settings.rounding);
  }

  lemma TwentyParses()
    ensures ParseDecimal("20", 4, false) == Ok(20.0)
  {
    assert NatText(20) == "20" by {
      assert NatText(2) == "2";
    }
    assert Pow10(MAX_INTEGER_DIGITS) >= 100 by {
      Pow10Grows(2, MAX_INTEGER_DIGITS);
    }
    hide ParseDecimal, NatText, Pow10;
    NatTextParses(20, 4, false);
  }

  lemma FifteenIsReadable()
    ensures Readable(1, 15)
  {
    Pow10Grows(1, MAX_INTEGER_DIGITS);
  }

  lemma FifteenRounds(mode: RoundingMode)
    ensures ChargedCents(15, 1, mode) == 20
  {
    assert Shift(1) == 10.0;
    RoundIsTheRounding(1.5, 2, mode);
    assert RoundToScale(CentsToEuros(15), 1, mode) == CentsToEuros(20);
    CentsRoundTrip(20, mode);
  }

  lemma WholeTens(cents: int)
    ensures HasScale(CentsToEuros(cents), 1) <==> cents % 10 == 0
    ensures HasScale(CentsToEuros(cents), 0) <==> cents % 100 == 0
  {
    assert Shift(1) == 10.0 && Shift(0) == 1.0;
    WholeQuotient(cents / 10, cents % 10, 10.0);
    WholeQuotient(cents / 100, cents % 100, 100.0);
    assert CentsToEuros(cents) * 10.0 == cents as real / 10.0 && CentsToEuros(cents) * 1.0 == cents as real / 100.0;
  }

  lemma WholeQuotient(q: int, rest: int, unit: real)
    requires 0 <= rest && rest as real < unit && (unit == 10.0 || unit == 100.0)
    ensures IsWhole((q as real * unit + rest as real) / unit) <==> rest == 0
  {
    assert (q as real * unit + rest as real) / unit == q as real + rest as real / unit;
    assert 0.0 <= rest as real / unit < 1.0;
    assert ((q as real * unit + rest as real) / unit).Floor == q;
  }
}

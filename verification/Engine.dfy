/** Discounts and the entry point of the engine (packages/pricing/src/price-at.ts). */
module Engine {
  import opened Outcomes
  import opened Sums
  import opened Money
  import opened DecimalText
  import opened Calendar
  import opened Overrides
  import opened PricingTypes
  import opened LinePricing
  import opened Totals
  import opened Schedules

  datatype PricingResult = PricingResult(
    date: Day, scheduleId: string, scheduleValidFrom: Day, scheduleValidTo: Option<Day>,
    settings: Settings, lines: seq<PricedLine>, totals: PricingTotals)

  // --------------------------------------------------------------- discounts

  function InOrder(regular: map<string, PricedLine>): Line -> seq<PricedLine> {
    (l: Line) => if l.kind != DISCOUNT && l.id in regular then [regular[l.id]] else []
  }

  /** The lines a discount applies to, among the regular lines already priced. */
  function Targets(target: DiscountTarget, all: seq<Line>, regular: map<string, PricedLine>): Result<seq<PricedLine>> {
    match target
    case Subtotal => Ok(FlatMap(all, InOrder(regular)))
    case Lines(ids) =>
      if !Distinct(ids) || exists id :: id in ids && id !in regular then Err(INVALID_LINE)
      else Ok(seq(|ids|, i requires 0 <= i < |ids| => regular[ids[i]]))
  }

  /** Targets share one VAT rate and one recurrence, and the discount contradicts neither. */
  predicate Homogeneous(line: Line, vat: real, targets: seq<PricedLine>)
    requires targets != []
  {
    && (forall t :: t in targets ==> t.vat == targets[0].vat && t.recurrence == targets[0].recurrence)
    && vat == targets[0].vat
    && (line.recurrence.Some? ==> line.recurrence.value == targets[0].recurrence)
  }

  function PercentOf(base: real, percent: real): real { base * percent / 100.0 }

  /** What is taken off, in exact euros. */
  function Reduction(d: DiscountSpec, baseCents: int): Result<(real, real)> {
    var value :- ParseDecimal(d.value, if d.kind == PERCENT then 4 else 6, false);
    match d.kind
    case PERCENT =>
      if value > 100.0 then Err(DISCOUNT_EXCEEDS_BASE) else Ok((value, PercentOf(CentsToEuros(baseCents), value)))
    case AMOUNT =>
      if value > CentsToEuros(baseCents) then Err(DISCOUNT_EXCEEDS_BASE) else Ok((value, value))
  }

  function TargetIds(targets: seq<PricedLine>): seq<string> {
    seq(|targets|, i requires 0 <= i < |targets| => targets[i].lineId)
  }

  function DiscountPriced(
      line: Line, d: DiscountSpec, vat: real, targets: seq<PricedLine>, reduction: (real, real), mode: RoundingMode)
    : PricedLine
    requires targets != []
  {
    var exact := -reduction.1;
    var cents := ToCents(exact, mode);
    PricedLine(line.id, line.code, DISCOUNT, line.mode, targets[0].recurrence, 1.0, CentsToEuros(cents), vat, cents,
               [Discounted(d.kind, reduction.0, TargetIds(targets), SumBy(targets, Ht()), exact),
                Rounding(LINE_TOTAL, exact, CentsToEuros(cents), 2, mode)])
  }

  function DiscountLine(line: Line, all: seq<Line>, regular: map<string, PricedLine>, s: Settings): Result<PricedLine> {
    if line.mode != MANUAL || line.discount.None? then Err(INVALID_LINE)
    else
      var d := line.discount.value;
      var vat :- ParseVat(line);
      var targets :- Targets(d.appliesTo, all, regular);
      if targets == [] then Err(INVALID_LINE)
      else if !Homogeneous(line, vat, targets) then Err(DISCOUNT_TARGET_MISMATCH)
      else
        var reduction :- Reduction(d, SumBy(targets, Ht()));
        Ok(DiscountPriced(line, d, vat, targets, reduction, s.rounding))
  }

  // ------------------------------------------------------------ the two passes

  /** First pass: the regular lines, in schedule order, up to the first error. */
  function RegularPass(lines: seq<Line>, ctx: Ctx): Result<map<string, PricedLine>> {
    if lines == [] then Ok(map[])
    else
      var before :- RegularPass(lines[..|lines| - 1], ctx);
      var l := lines[|lines| - 1];
      if l.kind == DISCOUNT then Ok(before)
      else
        var p :- RegularLine(l, ctx);
        Ok(before[l.id := p])
  }

  /** Second pass: the discounts of a prefix of the lines. */
  function DiscountPass(lines: seq<Line>, all: seq<Line>, regular: map<string, PricedLine>, s: Settings)
    : Result<map<string, PricedLine>>
  {
    if lines == [] then Ok(map[])
    else
      var before :- DiscountPass(lines[..|lines| - 1], all, regular, s);
      var l := lines[|lines| - 1];
      if l.kind != DISCOUNT then Ok(before)
      else
        var p :- DiscountLine(l, all, regular, s);
        Ok(before[l.id := p])
  }

  function LineIds(lines: seq<Line>): seq<string> {
    seq(|lines|, i requires 0 <= i < |lines| => lines[i].id)
  }

  function ForLine(id: string): PriceOverride -> seq<PriceOverride> {
    (o: PriceOverride) => if o.lineId == id then [o] else []
  }

  /** Overrides grouped by line, in their order. */
  function OverrideMap(overrides: seq<PriceOverride>): map<string, seq<PriceOverride>> {
    map o | o in overrides :: o.lineId := FlatMap(overrides, ForLine(o.lineId))
  }

  /** Provided quantities by line, the last one given wins. */
  function QuantityMap(quantities: seq<ResolvedQuantity>): map<string, ResolvedQuantity> {
    if quantities == [] then map[]
    else
      var q := quantities[|quantities| - 1];
      QuantityMap(quantities[..|quantities| - 1])[q.lineId := q]
  }

  function MakeCtx(input: PricingInput, date: Day, s: Settings): Ctx {
    Ctx(date, s, input.indexes, input.ruleCatalog, input.commitmentMonths,
        OverrideMap(input.overrides), QuantityMap(input.quantities), input.evaluate)
  }

  /** Output in schedule order. */
  function Assemble(lines: seq<Line>, regular: map<string, PricedLine>, discounts: map<string, PricedLine>): seq<PricedLine>
    requires forall l :: l in lines ==> l.id in regular || l.id in discounts
  {
    seq(|lines|, i requires 0 <= i < |lines| =>
      if lines[i].id in regular then regular[lines[i].id] else discounts[lines[i].id])
  }

  /** The priced lines of a schedule. */
  function PriceLines(lines: seq<Line>, ctx: Ctx): Result<seq<PricedLine>> {
    if !Distinct(LineIds(lines)) then Err(INVALID_LINE)
    else
      var regular :- RegularPass(lines, ctx);
      var discounts :- DiscountPass(lines, lines, regular, ctx.settings);
      PassKeys(lines, lines, ctx, regular);
      Ok(Assemble(lines, regular, discounts))
  }

  function PriceAt(input: PricingInput, date: Day): Result<PricingResult> {
    if !ValidDay(date) then Err(INVALID_DATE)
    else
      var settings :- ResolveSettings(input.settings);
      var schedule :- SelectSchedule(input.schedules, date);
      var lines :- PriceLines(schedule.lines, MakeCtx(input, date, settings));
      Ok(PricingResult(date, schedule.id, schedule.validFrom, schedule.validTo, settings, lines, TotalsOf(lines, settings.rounding)))
  }

  lemma {:induction false} PassKeys(lines: seq<Line>, all: seq<Line>, ctx: Ctx, regular: map<string, PricedLine>)
    ensures RegularPass(lines, ctx).Ok? ==>
              RegularPass(lines, ctx).value.Keys == set l | l in lines && l.kind != DISCOUNT :: l.id
    ensures DiscountPass(lines, all, regular, ctx.settings).Ok? ==>
              DiscountPass(lines, all, regular, ctx.settings).value.Keys == set l | l in lines && l.kind == DISCOUNT :: l.id
  {
    hide RegularLine, DiscountLine;
    if lines != [] {
      var init := lines[..|lines| - 1];
      PassKeys(init, all, ctx, regular);
      assert lines == init + [lines[|lines| - 1]];
    }
  }

  // ------------------------------------------------------ the imperative form

  lemma {:induction false} RegularPassPrefix(lines: seq<Line>, n: nat, ctx: Ctx)
    requires n <= |lines|
    ensures RegularPass(lines[..n], ctx).Err? ==> RegularPass(lines, ctx) == RegularPass(lines[..n], ctx)
    decreases |lines|
  {
    hide RegularLine;
    if n < |lines| {
      assert lines[..|lines| - 1][..n] == lines[..n];
      RegularPassPrefix(lines[..|lines| - 1], n, ctx);
    } else {
      assert lines[..n] == lines;
    }
  }

  lemma {:induction false} DiscountPassPrefix(
      lines: seq<Line>, n: nat, all: seq<Line>, regular: map<string, PricedLine>, s: Settings)
    requires n <= |lines|
    ensures DiscountPass(lines[..n], all, regular, s).Err? ==>
              DiscountPass(lines, all, regular, s) == DiscountPass(lines[..n], all, regular, s)
    decreases |lines|
  {
    hide DiscountLine;
    if n < |lines| {
      assert lines[..|lines| - 1][..n] == lines[..n];
      DiscountPassPrefix(lines[..|lines| - 1], n, all, regular, s);
    } else {
      assert lines[..n] == lines;
    }
  }

  /** `overridesByLine`: one list per line, filled by pushing. */
  method GroupOverrides(overrides: seq<PriceOverride>) returns (byLine: map<string, seq<PriceOverride>>)
    ensures byLine == OverrideMap(overrides)
  {
    byLine := map[];
    for i := 0 to |overrides|
      invariant byLine == OverrideMap(overrides[..i])
    {
      var o := overrides[i];
      OverrideMapStep(overrides[..i], o);
      assert overrides[..i + 1] == overrides[..i] + [o];
      byLine := byLine[o.lineId := (if o.lineId in byLine then byLine[o.lineId] else []) + [o]];
    }
    assert overrides[..|overrides|] == overrides;
  }

  lemma OverrideMapStep(before: seq<PriceOverride>, o: PriceOverride)
    ensures var m := OverrideMap(before);
            OverrideMap(before + [o]) == m[o.lineId := (if o.lineId in m then m[o.lineId] else []) + [o]]
  {
    var m, after := OverrideMap(before), OverrideMap(before + [o]);
    var expected := m[o.lineId := (if o.lineId in m then m[o.lineId] else []) + [o]];
    assert forall p :: p in before + [o] <==> p in before || p == o;
    assert after.Keys == expected.Keys;
    forall id | id in after
      ensures after[id] == expected[id]
    {
      PushedList(before, o, id);
    }
  }

  lemma PushedList(before: seq<PriceOverride>, o: PriceOverride, id: string)
    ensures FlatMap(before + [o], ForLine(id)) == FlatMap(before, ForLine(id)) + (if o.lineId == id then [o] else [])
    ensures id !in OverrideMap(before) ==> FlatMap(before, ForLine(id)) == []
  {
    FlatMapAppend(before, [o], ForLine(id));
    FlatMapOne(o, ForLine(id));
    if id !in OverrideMap(before) {
      NothingForLine(before, id);
    }
  }

  lemma {:induction false} NothingForLine(overrides: seq<PriceOverride>, id: string)
    requires forall o :: o in overrides ==> o.lineId != id
    ensures FlatMap(overrides, ForLine(id)) == []
  {
    if overrides != [] {
      NothingForLine(overrides[..|overrides| - 1], id);
    }
  }

  /** No line id appears twice. */
  method CheckLineIds(lines: seq<Line>) returns (ok: bool)
    ensures ok <==> Distinct(LineIds(lines))
  {
    var seen: set<string> := {};
    for i := 0 to |lines|
      invariant seen == set l | l in lines[..i] :: l.id
      invariant Distinct(LineIds(lines[..i]))
    {
      DistinctStep(lines, i);
      if lines[i].id in seen {
        return false;
      }
      seen := seen + {lines[i].id};
    }
    assert lines[..|lines|] == lines;
    ok := true;
  }

  method PriceRegularLines(lines: seq<Line>, ctx: Ctx) returns (r: Result<map<string, PricedLine>>)
    ensures r == RegularPass(lines, ctx)
  {
    hide RegularLine;
    var regular: map<string, PricedLine> := map[];
    for i := 0 to |lines|
      invariant RegularPass(lines[..i], ctx) == Ok(regular)
    {
      assert lines[..i + 1][..i] == lines[..i];
      RegularPassPrefix(lines, i + 1, ctx);
      if lines[i].kind != DISCOUNT {
        var p := PriceRegularLine(lines[i], ctx);
        if p.Err? {
          return Err(p.code);
        }
        regular := regular[lines[i].id := p.value];
      }
    }
    assert lines[..|lines|] == lines;
    r := Ok(regular);
  }

  method PriceDiscountLines(lines: seq<Line>, regular: map<string, PricedLine>, s: Settings)
    returns (r: Result<map<string, PricedLine>>)
    ensures r == DiscountPass(lines, lines, regular, s)
  {
    hide DiscountLine;
    var discounts: map<string, PricedLine> := map[];
    for i := 0 to |lines|
      invariant DiscountPass(lines[..i], lines, regular, s) == Ok(discounts)
    {
      assert lines[..i + 1][..i] == lines[..i];
      DiscountPassPrefix(lines, i + 1, lines, regular, s);
      if lines[i].kind == DISCOUNT {
        var p := DiscountLine(lines[i], lines, regular, s);
        if p.Err? {
          return Err(p.code);
        }
        discounts := discounts[lines[i].id := p.value];
      }
    }
    assert lines[..|lines|] == lines;
    r := Ok(discounts);
  }

  /** Regular lines first, then the discounts on their rounded totals; output in schedule order. */
  method PriceScheduleLines(lines: seq<Line>, ctx: Ctx) returns (r: Result<seq<PricedLine>>)
    ensures r == PriceLines(lines, ctx)
  {
    hide RegularPass, DiscountPass, Distinct;
    var distinct := CheckLineIds(lines);
    if !distinct {
      return Err(INVALID_LINE);
    }
    var regular := PriceRegularLines(lines, ctx);
    if regular.Err? {
      return Err(regular.code);
    }
    var discounts := PriceDiscountLines(lines, regular.value, ctx.settings);
    if discounts.Err? {
      return Err(discounts.code);
    }
    PassKeys(lines, lines, ctx, regular.value);
    r := Ok(Assemble(lines, regular.value, discounts.value));
  }

  lemma DistinctStep(lines: seq<Line>, i: nat)
    requires i < |lines| && Distinct(LineIds(lines[..i]))
    ensures lines[i].id in (set l | l in lines[..i] :: l.id) ==> !Distinct(LineIds(lines))
    ensures lines[i].id !in (set l | l in lines[..i] :: l.id) ==> Distinct(LineIds(lines[..i + 1]))
    ensures (set l | l in lines[..i + 1] :: l.id) == (set l | l in lines[..i] :: l.id) + {lines[i].id}
  {
    assert lines[..i + 1] == lines[..i] + [lines[i]];
    if lines[i].id in (set l | l in lines[..i] :: l.id) {
      var k :| 0 <= k < i && lines[k].id == lines[i].id;
      assert LineIds(lines)[k] == LineIds(lines)[i];
    } else {
      assert forall k :: 0 <= k < i ==> lines[k] in lines[..i] && LineIds(lines[..i + 1])[k] == LineIds(lines[..i])[k];
    }
  }

  /** `priceAt`: the one version of the date, its lines, its totals. */
  method Compute(input: PricingInput, date: Day) returns (r: Result<PricingResult>)
    ensures r == PriceAt(input, date)
  {
    hide PriceLines, TotalsOf, SelectSchedule, ResolveSettings;
    if !ValidDay(date) {
      return Err(INVALID_DATE);
    }
    var settings :- ResolveSettings(input.settings);
    var schedule :- SelectSchedule(input.schedules, date);
    var byLine := GroupOverrides(input.overrides);
    var ctx := Ctx(date, settings, input.indexes, input.ruleCatalog, input.commitmentMonths,
                   byLine, QuantityMap(input.quantities), input.evaluate);
    var lines := PriceScheduleLines(schedule.lines, ctx);
    if lines.Err? {
      return Err(lines.code);
    }
    var totals := ComputeTotals(lines.value, settings.rounding);
    r := Ok(PricingResult(date, schedule.id, schedule.validFrom, schedule.validTo, settings, lines.value, totals));
  }
}

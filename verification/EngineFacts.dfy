/** What holds of whole schedules priced by `priceAt` (packages/pricing/src/price-at.ts). */
module EngineFacts {
  import opened Outcomes
  import opened Sums
  import opened Money
  import opened DecimalText
  import opened Overrides
  import opened PricingTypes
  import opened LinePricing
  import opened LineFacts
  import opened Totals
  import opened Engine

  // ------------------------------------------------------------ line by line

  /** The passes succeed exactly when every line does, and hold each line's own price. */
  lemma {:induction false} RegularPassPointwise(lines: seq<Line>, ctx: Ctx)
    requires Distinct(LineIds(lines))
    ensures RegularPass(lines, ctx).Ok? <==> forall l :: l in lines && l.kind != DISCOUNT ==> RegularLine(l, ctx).Ok?
    ensures RegularPass(lines, ctx).Ok? ==>
              forall l :: l in lines && l.kind != DISCOUNT ==>
                l.id in RegularPass(lines, ctx).value && RegularPass(lines, ctx).value[l.id] == RegularLine(l, ctx).value
  {
    hide RegularLine;
    if lines != [] {
      var init, last := lines[..|lines| - 1], lines[|lines| - 1];
      assert lines == init + [last];
      IdsOfPrefix(init, last);
      RegularPassPointwise(init, ctx);
    }
  }

  lemma IdsOfPrefix(init: seq<Line>, last: Line)
    requires Distinct(LineIds(init + [last]))
    ensures Distinct(LineIds(init))
    ensures forall l :: l in init ==> l.id != last.id
  {
    var ids := LineIds(init + [last]);
    assert forall i :: 0 <= i < |init| ==> ids[i] == LineIds(init)[i] == init[i].id;
    assert ids[|init|] == last.id;
  }

  lemma {:induction false} DiscountPassPointwise(lines: seq<Line>, all: seq<Line>, regular: map<string, PricedLine>, s: Settings)
    requires Distinct(LineIds(lines))
    ensures DiscountPass(lines, all, regular, s).Ok? <==>
              forall l :: l in lines && l.kind == DISCOUNT ==> DiscountLine(l, all, regular, s).Ok?
    ensures DiscountPass(lines, all, regular, s).Ok? ==>
              forall l :: l in lines && l.kind == DISCOUNT ==>
                && l.id in DiscountPass(lines, all, regular, s).value
                && DiscountPass(lines, all, regular, s).value[l.id] == DiscountLine(l, all, regular, s).value
  {
    hide DiscountLine;
    if lines != [] {
      var init, last := lines[..|lines| - 1], lines[|lines| - 1];
      assert lines == init + [last];
      IdsOfPrefix(init, last);
      DiscountPassPointwise(init, all, regular, s);
    }
  }

  /** A schedule is priced exactly when its ids are distinct and each of its lines can be priced. */
  lemma PricedExactlyWhen(lines: seq<Line>, ctx: Ctx)
    ensures PriceLines(lines, ctx).Ok? <==>
              && Distinct(LineIds(lines)) && RegularPass(lines, ctx).Ok?
              && forall l :: l in lines && l.kind == DISCOUNT ==> DiscountLine(l, lines, RegularPass(lines, ctx).value, ctx.settings).Ok?
  {
    hide RegularLine, DiscountLine, RegularPass, DiscountPass, Assemble;
    if Distinct(LineIds(lines)) && RegularPass(lines, ctx).Ok? {
      DiscountPassPointwise(lines, lines, RegularPass(lines, ctx).value, ctx.settings);
    }
  }

  /** The result lists, in schedule order, each line's own price. */
  lemma PricedLineByLine(lines: seq<Line>, ctx: Ctx, i: nat)
    requires i < |lines| && PriceLines(lines, ctx).Ok?
    ensures |PriceLines(lines, ctx).value| == |lines|
    ensures lines[i].kind == DISCOUNT ==>
              DiscountLine(lines[i], lines, RegularPass(lines, ctx).value, ctx.settings) == Ok(PriceLines(lines, ctx).value[i])
    ensures lines[i].kind != DISCOUNT ==> RegularLine(lines[i], ctx) == Ok(PriceLines(lines, ctx).value[i])
    ensures lines[i].kind != DISCOUNT ==>
              lines[i].id in RegularPass(lines, ctx).value && RegularPass(lines, ctx).value[lines[i].id] == PriceLines(lines, ctx).value[i]
  {
    hide RegularLine, DiscountLine, RegularPass, DiscountPass;
    var regular := RegularPass(lines, ctx).value;
    assert lines[i] in lines;
    PassKeys(lines, lines, ctx, regular);
    if lines[i].kind == DISCOUNT {
      DiscountPassPointwise(lines, lines, regular, ctx.settings);
      DistinctIdsDistinguish(lines, i);
    } else {
      RegularPassPointwise(lines, ctx);
    }
  }

  lemma DistinctIdsDistinguish(lines: seq<Line>, i: nat)
    requires Distinct(LineIds(lines)) && i < |lines|
    ensures forall l :: l in lines && l.id == lines[i].id ==> l == lines[i]
  {
    forall l | l in lines && l.id == lines[i].id
      ensures l == lines[i]
    {
      var k :| 0 <= k < |lines| && lines[k] == l;
      assert LineIds(lines)[k] == LineIds(lines)[i];
    }
  }

  // --------------------------------------------------------------- discounts

  lemma {:induction false} TargetsNonNegative(targets: seq<PricedLine>)
    requires forall t :: t in targets ==> t.totalHtCents >= 0
    ensures SumBy(targets, Ht()) >= 0
  {
    SumByNonNegative(targets, Ht());
  }

  lemma ReductionWithinBase(d: DiscountSpec, baseCents: int, mode: RoundingMode)
    requires baseCents >= 0 && Reduction(d, baseCents).Ok?
    ensures -baseCents <= ToCents(-Reduction(d, baseCents).value.1, mode) <= 0
    ensures Reduction(d, baseCents).value.0 >= 0.0
  {
    hide ToCents;
    ReductionBounds(d, baseCents);
    hide Reduction;
    CentsOfNegative(Reduction(d, baseCents).value.1, baseCents, mode);
  }

  lemma ReductionBounds(d: DiscountSpec, baseCents: int)
    requires baseCents >= 0 && Reduction(d, baseCents).Ok?
    ensures 0.0 <= Reduction(d, baseCents).value.1 <= CentsToEuros(baseCents)
    ensures Reduction(d, baseCents).value.0 >= 0.0
  {
    hide ParseDecimal, PercentOf, CentsToEuros;
    ParsedDecimal(d.value, if d.kind == PERCENT then 4 else 6, false);
    if d.kind == PERCENT {
      EurosNonNegative(baseCents);
      ShareOfBase(CentsToEuros(baseCents), Reduction(d, baseCents).value.0);
    }
  }

  lemma EurosNonNegative(cents: int)
    requires cents >= 0
    ensures CentsToEuros(cents) >= 0.0
  {
  }

  lemma ShareOfBase(base: real, percent: real)
    requires base >= 0.0 && 0.0 <= percent <= 100.0
    ensures 0.0 <= PercentOf(base, percent) <= base
  {
    ShareBounds(base, percent);
    Hundredth(base * percent, base);
  }

  lemma ShareBounds(base: real, percent: real)
    requires base >= 0.0 && 0.0 <= percent <= 100.0
    ensures 0.0 <= base * percent <= base * 100.0
  {
    assert base * (100.0 - percent) >= 0.0;
    assert base * (100.0 - percent) == base * 100.0 - base * percent;
  }

  lemma Hundredth(x: real, base: real)
    requires 0.0 <= x <= base * 100.0
    ensures 0.0 <= x / 100.0 <= base
  {
  }

  lemma CentsOfNegative(off: real, baseCents: int, mode: RoundingMode)
    requires 0.0 <= off <= CentsToEuros(baseCents)
    ensures -baseCents <= ToCents(-off, mode) <= 0
  {
    CentsRoundTrip(-baseCents, mode);
    CentsRoundTrip(0, mode);
    RoundMonotone(-off * 100.0, 0.0, mode);
    RoundMonotone(CentsToEuros(-baseCents) * 100.0, -off * 100.0, mode);
  }

  /** The regular lines already priced, none negative, each under its own id. */
  ghost predicate PricedMap(regular: map<string, PricedLine>) {
    forall id :: id in regular ==> regular[id].lineId == id && regular[id].kind != DISCOUNT && regular[id].totalHtCents >= 0
  }

  lemma {:induction false} TargetsComeFromMap(target: DiscountTarget, all: seq<Line>, regular: map<string, PricedLine>)
    requires Targets(target, all, regular).Ok?
    ensures forall t :: t in Targets(target, all, regular).value ==> exists id :: id in regular && t == regular[id]
  {
    var targets := Targets(target, all, regular).value;
    forall t | t in targets
      ensures exists id :: id in regular && t == regular[id]
    {
      if target.Subtotal? {
        FlatMapMembers(all, InOrder(regular), t);
      } else {
        var k :| 0 <= k < |targets| && targets[k] == t;
        assert target.lineIds[k] in regular;
      }
    }
  }

  /**
   * A discount takes off between nothing and the sum of its targets, shares their VAT rate and
   * recurrence, and its trace replays: base from the listed lines, then the exact amount, then cents.
   */
  lemma DiscountWithinTargets(line: Line, all: seq<Line>, regular: map<string, PricedLine>, s: Settings)
    requires PricedMap(regular) && DiscountLine(line, all, regular, s).Ok?
    ensures var p := DiscountLine(line, all, regular, s).value;
            var targets := Targets(line.discount.value.appliesTo, all, regular);
            && targets.Ok? && targets.value != []
            && -SumBy(targets.value, Ht()) <= p.totalHtCents <= 0
            && (forall t :: t in targets.value ==> t.vat == p.vat && t.recurrence == p.recurrence)
            && p.kind == DISCOUNT && p.lineId == line.id
            && |p.trace| == 2 && p.trace[0].Discounted?
            && p.trace[0].baseHtCents == SumBy(targets.value, Ht())
            && p.totalHtCents == ToCents(p.trace[0].exact, s.rounding)
            && p.trace[0].exact == -(if p.trace[0].kind == PERCENT then PercentOf(CentsToEuros(p.trace[0].baseHtCents), p.trace[0].value) else p.trace[0].value)
  {
    hide ParseDecimal, ToCents, FlatMap, SumBy;
    var d := line.discount.value;
    var targets := Targets(d.appliesTo, all, regular).value;
    TargetsComeFromMap(d.appliesTo, all, regular);
    TargetsNonNegative(targets);
    ReductionWithinBase(d, SumBy(targets, Ht()), s.rounding);
  }

  lemma {:induction false} PassIsPricedMap(lines: seq<Line>, ctx: Ctx)
    requires RegularPass(lines, ctx).Ok?
    ensures PricedMap(RegularPass(lines, ctx).value)
    ensures forall id :: id in RegularPass(lines, ctx).value ==> 0.0 <= RegularPass(lines, ctx).value[id].vat <= 100.0
  {
    hide RegularLine;
    if lines != [] {
      PassIsPricedMap(lines[..|lines| - 1], ctx);
      var l := lines[|lines| - 1];
      if l.kind != DISCOUNT {
        RegularLineNonNegative(l, ctx);
        RegularLineIdentity(l, ctx);
      }
    }
  }

  lemma RegularLineIdentity(l: Line, ctx: Ctx)
    requires RegularLine(l, ctx).Ok?
    ensures RegularLine(l, ctx).value.lineId == l.id && RegularLine(l, ctx).value.kind == l.kind
  {
    hide WorkOut, ParseDecimal, Select, CheckShape, ResolveQuantity, ResolveRecurrence;
    QuantityIsQuantity(l, ctx);
  }

  // --------------------------------------------- disjoint discounts keep HT positive

  /** A way to pick lines, by VAT rate, by recurrence, or all of them. */
  datatype Choice = AtRate(rate: real) | InRecurrence(recurrence: Recurrence) | Everything {
    predicate Picks(l: PricedLine) {
      match this
      case AtRate(r) => l.vat == r
      case InRecurrence(r) => l.recurrence == r
      case Everything => true
    }

    /** HT of a picked line. */
    function Amount(): PricedLine -> int {
      (l: PricedLine) => if Picks(l) then l.totalHtCents else 0
    }

    /** HT of a picked line with one of these ids. */
    function Within(ids: set<string>): PricedLine -> int {
      (l: PricedLine) => if Picks(l) && l.lineId in ids then l.totalHtCents else 0
    }
  }

  function IdSet(targets: seq<PricedLine>): set<string> { set t | t in targets :: t.lineId }

  /** The lines of the schedule that a discount line applies to. */
  function TargetSet(line: Line, all: seq<Line>, regular: map<string, PricedLine>): set<string> {
    if line.discount.None? then {}
    else
      var targets := Targets(line.discount.value.appliesTo, all, regular);
      if targets.Err? then {} else IdSet(targets.value)
  }

  ghost predicate DisjointTargets(lines: seq<Line>, all: seq<Line>, regular: map<string, PricedLine>) {
    forall i, j :: 0 <= i < j < |lines| && lines[i].kind == DISCOUNT && lines[j].kind == DISCOUNT ==>
      TargetSet(lines[i], all, regular) !! TargetSet(lines[j], all, regular)
  }

  lemma {:induction false} WithinUnion(lines: seq<PricedLine>, c: Choice, a: set<string>, b: set<string>)
    requires a !! b
    ensures SumBy(lines, c.Within(a + b)) == SumBy(lines, c.Within(a)) + SumBy(lines, c.Within(b))
  {
    SumByPlus(lines, c.Within(a), c.Within(b), c.Within(a + b));
  }

  ghost predicate DistinctLineIds(lines: seq<PricedLine>) {
    forall i, j :: 0 <= i < j < |lines| ==> lines[i].lineId != lines[j].lineId
  }

  lemma {:induction false} WithinOne(lines: seq<PricedLine>, c: Choice, t: PricedLine)
    requires DistinctLineIds(lines) && t in lines && c.Picks(t)
    ensures SumBy(lines, c.Within({t.lineId})) == t.totalHtCents
  {
    var k :| 0 <= k < |lines| && lines[k] == t;
    var rest := lines[..k] + lines[k + 1..];
    SumByTakeOut(lines, k, c.Within({t.lineId}));
    forall l | l in rest
      ensures c.Within({t.lineId})(l) == 0
    {
      var m :| 0 <= m < |rest| && rest[m] == l;
      assert l == if m < k then lines[m] else lines[m + 1];
    }
    SumByZero(rest, c.Within({t.lineId}));
  }

  /** The base of a discount is the HT of the targeted lines, found in the schedule. */
  lemma {:induction false} BaseIsWithin(lines: seq<PricedLine>, c: Choice, targets: seq<PricedLine>)
    requires DistinctLineIds(lines) && DistinctLineIds(targets)
    requires forall t :: t in targets ==> t in lines && c.Picks(t)
    ensures SumBy(targets, Ht()) == SumBy(lines, c.Within(IdSet(targets)))
  {
    if targets == [] {
      SumByZero(lines, c.Within(IdSet(targets)));
    } else {
      var init, t := targets[..|targets| - 1], targets[|targets| - 1];
      assert targets == init + [t];
      BaseIsWithin(lines, c, init);
      assert IdSet(targets) == IdSet(init) + {t.lineId};
      assert t.lineId !in IdSet(init);
      WithinUnion(lines, c, IdSet(init), {t.lineId});
      WithinOne(lines, c, t);
    }
  }

  lemma {:induction false} SubtotalDistinct(all: seq<Line>, regular: map<string, PricedLine>)
    requires Distinct(LineIds(all)) && PricedMap(regular)
    ensures DistinctLineIds(FlatMap(all, InOrder(regular)))
    ensures forall t :: t in FlatMap(all, InOrder(regular)) ==> exists l :: l in all && l.id == t.lineId
  {
    if all != [] {
      var init, last := all[..|all| - 1], all[|all| - 1];
      assert all == init + [last];
      IdsOfPrefix(init, last);
      SubtotalDistinct(init, regular);
    }
  }

  lemma TargetsDistinct(target: DiscountTarget, all: seq<Line>, regular: map<string, PricedLine>)
    requires Distinct(LineIds(all)) && PricedMap(regular) && Targets(target, all, regular).Ok?
    ensures DistinctLineIds(Targets(target, all, regular).value)
  {
    if target.Subtotal? {
      SubtotalDistinct(all, regular);
    }
  }

  /** HT of the regular lines picked, and of the discounts picked. */
  function RegularAmount(c: Choice): PricedLine -> int {
    (l: PricedLine) => if l.kind != DISCOUNT then c.Amount()(l) else 0
  }

  function DiscountAmount(c: Choice): PricedLine -> int {
    (l: PricedLine) => if l.kind == DISCOUNT then c.Amount()(l) else 0
  }

  /** The priced schedule the discount argument is about. */
  ghost predicate PricedSchedule(lines: seq<Line>, regular: map<string, PricedLine>, s: Settings, priced: seq<PricedLine>) {
    && Distinct(LineIds(lines)) && PricedMap(regular) && |priced| == |lines| && DistinctLineIds(priced)
    && (forall id :: id in regular ==> regular[id] in priced)
    && forall i :: 0 <= i < |lines| ==>
         if lines[i].kind == DISCOUNT then DiscountLine(lines[i], lines, regular, s) == Ok(priced[i])
         else lines[i].id in regular && priced[i] == regular[lines[i].id]
  }

  /** All the ids targeted by the first `n` lines. */
  function Targeted(lines: seq<Line>, n: nat, regular: map<string, PricedLine>): set<string>
    requires n <= |lines|
  {
    if n == 0 then {}
    else Targeted(lines, n - 1, regular) + if lines[n - 1].kind == DISCOUNT then TargetSet(lines[n - 1], lines, regular) else {}
  }

  lemma {:induction false} TargetedLater(lines: seq<Line>, n: nat, k: nat, regular: map<string, PricedLine>)
    requires n <= k < |lines| && lines[k].kind == DISCOUNT && DisjointTargets(lines, lines, regular)
    ensures Targeted(lines, n, regular) !! TargetSet(lines[k], lines, regular)
  {
    hide TargetSet;
    if n > 0 {
      TargetedLater(lines, n - 1, k, regular);
    }
  }

  /** One discount, picked or not, never outweighs the picked part of its own targets. */
  lemma OneDiscount(lines: seq<Line>, regular: map<string, PricedLine>, s: Settings, priced: seq<PricedLine>, c: Choice, k: nat)
    requires PricedSchedule(lines, regular, s, priced) && k < |lines| && lines[k].kind == DISCOUNT
    ensures c.Amount()(priced[k]) >= -SumBy(priced, c.Within(TargetSet(lines[k], lines, regular)))
    ensures forall id :: id in TargetSet(lines[k], lines, regular) ==> id in regular
  {
    hide ParseDecimal, SumBy;
    var targets := Targets(lines[k].discount.value.appliesTo, lines, regular).value;
    DiscountWithinTargets(lines[k], lines, regular, s);
    TargetsComeFromMap(lines[k].discount.value.appliesTo, lines, regular);
    TargetsDistinct(lines[k].discount.value.appliesTo, lines, regular);
    assert TargetSet(lines[k], lines, regular) == IdSet(targets);
    if c.Picks(priced[k]) {
      BaseIsWithin(priced, c, targets);
    } else {
      forall l | l in priced
        ensures c.Within(IdSet(targets))(l) == 0
      {
        NotPicked(priced, c, targets, l);
      }
      SumByZero(priced, c.Within(IdSet(targets)));
    }
  }

  lemma NotPicked(priced: seq<PricedLine>, c: Choice, targets: seq<PricedLine>, l: PricedLine)
    requires DistinctLineIds(priced) && l in priced
    requires forall t :: t in targets ==> t in priced && !c.Picks(t)
    ensures c.Within(IdSet(targets))(l) == 0
  {
    if l.lineId in IdSet(targets) {
      var t :| t in targets && t.lineId == l.lineId;
      var i :| 0 <= i < |priced| && priced[i] == l;
      var j :| 0 <= j < |priced| && priced[j] == t;
      assert i == j;
    }
  }

  lemma {:induction false} DiscountsWithinTargeted(
    lines: seq<Line>, regular: map<string, PricedLine>, s: Settings, priced: seq<PricedLine>, c: Choice, n: nat)
    requires PricedSchedule(lines, regular, s, priced) && DisjointTargets(lines, lines, regular) && n <= |lines|
    ensures SumBy(priced[..n], DiscountAmount(c)) >= -SumBy(priced, c.Within(Targeted(lines, n, regular)))
    ensures forall id :: id in Targeted(lines, n, regular) ==> id in regular
  {
    hide *;
    if n == 0 {
      NothingTargeted(lines, priced, regular, c);
    } else {
      DiscountsWithinTargeted(lines, regular, s, priced, c, n - 1);
      OneMoreLine(lines, regular, s, priced, c, n - 1);
    }
  }

  lemma NothingTargeted(lines: seq<Line>, priced: seq<PricedLine>, regular: map<string, PricedLine>, c: Choice)
    ensures SumBy(priced[..0], DiscountAmount(c)) >= -SumBy(priced, c.Within(Targeted(lines, 0, regular)))
    ensures forall id :: id !in Targeted(lines, 0, regular)
  {
    SumByZero(priced, c.Within({}));
  }

  /** Line `k` takes off at most what it adds to the targets. */
  lemma OneMoreLine(lines: seq<Line>, regular: map<string, PricedLine>, s: Settings, priced: seq<PricedLine>, c: Choice, k: nat)
    requires PricedSchedule(lines, regular, s, priced) && DisjointTargets(lines, lines, regular) && k < |lines|
    requires forall id :: id in Targeted(lines, k, regular) ==> id in regular
    ensures |priced| == |lines|
    ensures SumBy(priced[..k + 1], DiscountAmount(c)) - SumBy(priced[..k], DiscountAmount(c))
            >= SumBy(priced, c.Within(Targeted(lines, k, regular))) - SumBy(priced, c.Within(Targeted(lines, k + 1, regular)))
    ensures forall id :: id in Targeted(lines, k + 1, regular) ==> id in regular
  {
    hide TargetSet, DiscountLine, SumBy, DisjointTargets;
    KindAt(lines, regular, s, priced, k);
    SumByStep(priced, k, DiscountAmount(c));
    if lines[k].kind == DISCOUNT {
      hide PricedSchedule;
      OneDiscount(lines, regular, s, priced, c, k);
      TargetedLater(lines, k, k, regular);
      WithinUnion(priced, c, Targeted(lines, k, regular), TargetSet(lines[k], lines, regular));
    } else {
      assert Targeted(lines, k + 1, regular) == Targeted(lines, k, regular);
    }
  }

  lemma KindAt(lines: seq<Line>, regular: map<string, PricedLine>, s: Settings, priced: seq<PricedLine>, i: nat)
    requires PricedSchedule(lines, regular, s, priced) && i < |lines|
    ensures priced[i].kind == DISCOUNT <==> lines[i].kind == DISCOUNT
  {
    hide DiscountLine;
    if lines[i].kind == DISCOUNT {
      KindOfDiscount(lines[i], lines, regular, s);
    }
  }

  lemma KindOfDiscount(line: Line, all: seq<Line>, regular: map<string, PricedLine>, s: Settings)
    requires DiscountLine(line, all, regular, s).Ok?
    ensures DiscountLine(line, all, regular, s).value.kind == DISCOUNT
    ensures DiscountLine(line, all, regular, s).value.lineId == line.id
  {
    hide ParseDecimal;
  }

  /** What the discounts take off is at most what the regular lines bring. */
  lemma PickedNonNegative(lines: seq<Line>, regular: map<string, PricedLine>, s: Settings, priced: seq<PricedLine>, c: Choice)
    requires PricedSchedule(lines, regular, s, priced) && DisjointTargets(lines, lines, regular)
    ensures SumBy(priced, c.Amount()) >= 0
  {
    hide TargetSet, DiscountLine, SumBy;
    var n := |lines|;
    DiscountsWithinTargeted(lines, regular, s, priced, c, n);
    assert priced[..n] == priced;
    SumByPlus(priced, RegularAmount(c), DiscountAmount(c), c.Amount());
    var targeted := Targeted(lines, n, regular);
    forall l | l in priced
      ensures RegularAmount(c)(l) >= c.Within(targeted)(l)
    {
      RegularOrUntouched(lines, regular, s, priced, l, targeted);
    }
    SumByOrder(priced, c.Within(targeted), RegularAmount(c));
  }

  lemma RegularOrUntouched(
      lines: seq<Line>, regular: map<string, PricedLine>, s: Settings, priced: seq<PricedLine>, l: PricedLine,
      targeted: set<string>)
    requires PricedSchedule(lines, regular, s, priced) && l in priced
    requires forall id :: id in targeted ==> id in regular
    ensures l.kind == DISCOUNT ==> l.lineId !in targeted
    ensures l.kind != DISCOUNT ==> l.totalHtCents >= 0
  {
    hide DiscountLine;
    var i :| 0 <= i < |priced| && priced[i] == l;
    if l.lineId in regular {
      var j :| 0 <= j < |priced| && priced[j] == regular[l.lineId];
      assert i == j;
    }
    KindAt(lines, regular, s, priced, i);
  }

  lemma {:induction false} SumByOrder<T>(xs: seq<T>, f: T -> int, g: T -> int)
    requires forall x :: x in xs ==> f(x) <= g(x)
    ensures SumBy(xs, f) <= SumBy(xs, g)
  {
    if xs != [] {
      SumByOrder(xs[..|xs| - 1], f, g);
    }
  }

  lemma PricedLinesFormSchedule(lines: seq<Line>, ctx: Ctx)
    requires PriceLines(lines, ctx).Ok?
    ensures PricedSchedule(lines, RegularPass(lines, ctx).value, ctx.settings, PriceLines(lines, ctx).value)
    ensures forall p :: p in PriceLines(lines, ctx).value ==> p.vat >= 0.0
  {
    hide RegularLine, DiscountLine, RegularPass, PriceLines;
    PricedExactlyWhen(lines, ctx);
    var regular := RegularPass(lines, ctx).value;
    var priced := PriceLines(lines, ctx).value;
    PassIsPricedMap(lines, ctx);
    PassKeys(lines, lines, ctx, regular);
    assert |priced| == |lines| by {
      if lines != [] {
        PricedLineByLine(lines, ctx, 0);
      } else {
        EmptySchedule(lines, ctx);
      }
    }
    forall i | 0 <= i < |lines|
      ensures priced[i].lineId == lines[i].id && priced[i].vat >= 0.0
      ensures lines[i].kind != DISCOUNT ==> lines[i].id in regular && priced[i] == regular[lines[i].id]
      ensures lines[i].kind == DISCOUNT ==> DiscountLine(lines[i], lines, regular, ctx.settings) == Ok(priced[i])
    {
      PricedLineByLine(lines, ctx, i);
      if lines[i].kind == DISCOUNT {
        DiscountIdentity(lines[i], lines, regular, ctx.settings);
      }
    }
    forall i, j | 0 <= i < j < |priced|
      ensures priced[i].lineId != priced[j].lineId
    {
      assert LineIds(lines)[i] == lines[i].id && LineIds(lines)[j] == lines[j].id;
    }
    forall id | id in regular
      ensures regular[id] in priced
    {
      var l :| l in lines && l.kind != DISCOUNT && l.id == id;
      var i :| 0 <= i < |lines| && lines[i] == l;
      assert priced[i] == regular[id];
    }
  }

  lemma EmptySchedule(lines: seq<Line>, ctx: Ctx)
    requires lines == [] && PriceLines(lines, ctx).Ok?
    ensures PriceLines(lines, ctx).value == []
  {
  }

  lemma DiscountIdentity(line: Line, all: seq<Line>, regular: map<string, PricedLine>, s: Settings)
    requires DiscountLine(line, all, regular, s).Ok?
    ensures DiscountLine(line, all, regular, s).value.lineId == line.id
    ensures 0.0 <= DiscountLine(line, all, regular, s).value.vat <= 100.0
  {
    hide ParseDecimal, Targets, Homogeneous, Reduction, SumBy, DiscountPriced;
    var targets := Targets(line.discount.value.appliesTo, all, regular).value;
    DiscountKeepsId(line, line.discount.value, ParseVat(line).value, targets, Reduction(line.discount.value, SumBy(targets, Ht())).value, s.rounding);
    ParsedDecimal(line.vatRatePercent, 4, false);
  }

  lemma DiscountKeepsId(line: Line, d: DiscountSpec, vat: real, targets: seq<PricedLine>, reduction: (real, real), mode: RoundingMode)
    requires targets != []
    ensures DiscountPriced(line, d, vat, targets, reduction, mode).lineId == line.id
    ensures DiscountPriced(line, d, vat, targets, reduction, mode).vat == vat
  {
    hide ToCents, SumBy;
  }

  /**
   * When no line is discounted twice, the HT of every VAT rate and of every recurrence stays at or
   * above zero, and so do VAT and the total with tax.
   */
  lemma DisjointDiscountsKeepTotalsPositive(lines: seq<Line>, ctx: Ctx)
    requires PriceLines(lines, ctx).Ok? && DisjointTargets(lines, lines, RegularPass(lines, ctx).value)
    ensures var priced := PriceLines(lines, ctx).value;
            var t := TotalsOf(priced, ctx.settings.rounding);
            && (forall rate :: SumBy(priced, HtAt(rate)) >= 0)
            && t.monthlyLinesCents >= 0 && t.quarterlyLinesCents >= 0 && t.yearlyLinesCents >= 0 && t.oneOffCents >= 0
            && t.htCents >= 0 && t.vatCents >= 0 && t.ttcCents >= 0
  {
    hide RegularPass, TargetSet, Normalised, Breakdowns, Grouped;
    var priced := PriceLines(lines, ctx).value;
    var regular := RegularPass(lines, ctx).value;
    PricedLinesFormSchedule(lines, ctx);
    forall rate
      ensures SumBy(priced, HtAt(rate)) >= 0
    {
      PickedNonNegative(lines, regular, ctx.settings, priced, AtRate(rate));
      SumByPointwise(priced, priced, HtAt(rate), AtRate(rate).Amount());
    }
    forall r: Recurrence
      ensures SumBy(priced, HtOf(r)) >= 0
    {
      PickedNonNegative(lines, regular, ctx.settings, priced, InRecurrence(r));
      SumByPointwise(priced, priced, HtOf(r), InRecurrence(r).Amount());
    }
    TotalsNonNegative(priced, ctx.settings.rounding);
  }
}

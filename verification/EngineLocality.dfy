/** What `priceAt` does not depend on: line order, other lines' overrides, other versions, later index values. */
module EngineLocality {
  import opened Outcomes
  import opened Sums
  import opened Money
  import opened DecimalText
  import opened Calendar
  import opened Indexes
  import opened Overrides
  import opened PricingTypes
  import opened LinePricing
  import opened LineFacts
  import opened Totals
  import opened Schedules
  import opened Engine
  import opened EngineFacts

  // ------------------------------------------------------- order of the lines

  lemma DistinctOccursOnce<T>(xs: seq<T>, x: T)
    requires Distinct(xs)
    ensures multiset(xs)[x] <= 1
  {
    if x in xs {
      var k :| 0 <= k < |xs| && xs[k] == x;
      assert xs == xs[..k] + [x] + xs[k + 1..];
      assert x !in xs[..k] && x !in xs[k + 1..];
    }
  }

  lemma TwiceOccursTwice<T>(xs: seq<T>, i: nat, j: nat)
    requires i < j < |xs| && xs[i] == xs[j]
    ensures multiset(xs)[xs[i]] >= 2
  {
    assert xs == xs[..j] + [xs[j]] + xs[j + 1..];
    assert xs[..j][i] == xs[i];
  }

  lemma DistinctIdsMakeDistinctLines(lines: seq<Line>)
    requires Distinct(LineIds(lines))
    ensures Distinct(lines)
  {
    forall i, j | 0 <= i < j < |lines|
      ensures lines[i] != lines[j]
    {
      assert LineIds(lines)[i] != LineIds(lines)[j];
    }
  }

  lemma PermutedIdsDistinct(lines: seq<Line>, other: seq<Line>)
    requires multiset(lines) == multiset(other) && Distinct(LineIds(lines))
    ensures Distinct(LineIds(other))
  {
    SameMembers(lines, other);
    DistinctIdsMakeDistinctLines(lines);
    forall i, j | 0 <= i < j < |other|
      ensures LineIds(other)[i] != LineIds(other)[j]
    {
      if other[i].id == other[j].id {
        assert other[i] in lines && other[j] in lines;
        var k :| 0 <= k < |lines| && lines[k] == other[i];
        DistinctIdsDistinguish(lines, k);
        TwiceOccursTwice(other, i, j);
        DistinctOccursOnce(lines, other[i]);
      }
    }
  }

  lemma RegularPassIgnoresOrder(lines: seq<Line>, other: seq<Line>, ctx: Ctx)
    requires multiset(lines) == multiset(other) && Distinct(LineIds(lines)) && RegularPass(lines, ctx).Ok?
    ensures Distinct(LineIds(other)) && RegularPass(other, ctx) == RegularPass(lines, ctx)
  {
    hide RegularLine, RegularPass;
    PermutedIdsDistinct(lines, other);
    SameMembers(lines, other);
    RegularPassPointwise(lines, ctx);
    RegularPassPointwise(other, ctx);
    PassKeys(lines, lines, ctx, map[]);
    PassKeys(other, other, ctx, map[]);
    assert RegularPass(other, ctx).value == RegularPass(lines, ctx).value;
  }

  /** A priced line without its trace, and a pricing outcome without it. */
  function Bare(p: PricedLine): PricedLine { p.(trace := []) }

  function BareResult(r: Result<PricedLine>): Result<PricedLine> {
    if r.Err? then r else Ok(Bare(r.value))
  }

  predicate SameButOrder(a: Result<seq<PricedLine>>, b: Result<seq<PricedLine>>) {
    if a.Ok? then b.Ok? && multiset(a.value) == multiset(b.value) else a == b
  }

  lemma TargetsIgnoreOrder(target: DiscountTarget, lines: seq<Line>, other: seq<Line>, regular: map<string, PricedLine>)
    requires multiset(lines) == multiset(other)
    ensures SameButOrder(Targets(target, lines, regular), Targets(target, other, regular))
  {
    FlatMapPermutation(lines, other, InOrder(regular));
  }

  lemma EmptyTogether<T>(xs: seq<T>, ys: seq<T>)
    requires multiset(xs) == multiset(ys)
    ensures xs == [] <==> ys == []
  {
    SameMembers(xs, ys);
    assert xs != [] ==> xs[0] in ys;
    assert ys != [] ==> ys[0] in xs;
  }

  /** The order of the schedule only shows in the list of targets a subtotal discount traces. */
  lemma DiscountIgnoresOrder(line: Line, lines: seq<Line>, other: seq<Line>, regular: map<string, PricedLine>, s: Settings)
    requires multiset(lines) == multiset(other)
    ensures BareResult(DiscountLine(line, lines, regular, s)) == BareResult(DiscountLine(line, other, regular, s))
  {
    hide ParseDecimal, Targets, Reduction, SumBy, ToCents, CentsToEuros;
    if line.mode == MANUAL && line.discount.Some? && ParseVat(line).Ok? {
      var target := line.discount.value.appliesTo;
      TargetsIgnoreOrder(target, lines, other, regular);
      var a, b := Targets(target, lines, regular), Targets(target, other, regular);
      if a.Ok? {
        EmptyTogether(a.value, b.value);
        SameMembers(a.value, b.value);
        SumByPermutation(a.value, b.value, Ht());
        if a.value != [] {
          assert a.value[0] in b.value && b.value[0] in a.value;
        }
      }
    }
  }

  /**
   * Permuting the lines of a schedule permutes the priced lines and keeps the totals: each regular
   * line keeps its price with its trace, each discount its price.
   */
  lemma OrderOfLinesDoesNotMatter(lines: seq<Line>, other: seq<Line>, ctx: Ctx)
    requires multiset(lines) == multiset(other) && PriceLines(lines, ctx).Ok?
    ensures PriceLines(other, ctx).Ok?
    ensures var a, b := PriceLines(lines, ctx).value, PriceLines(other, ctx).value;
            && |a| == |lines| && |b| == |other|
            && (forall i, j :: 0 <= i < |lines| && 0 <= j < |other| && lines[i] == other[j] ==>
                  Bare(a[i]) == Bare(b[j]) && (lines[i].kind != DISCOUNT ==> a[i] == b[j]))
            && TotalsOf(a, ctx.settings.rounding) == TotalsOf(b, ctx.settings.rounding)
  {
    hide RegularLine, DiscountLine, RegularPass, PriceLines, TotalsOf, Bare;
    PricedExactlyWhen(lines, ctx);
    RegularPassIgnoresOrder(lines, other, ctx);
    SameMembers(lines, other);
    var regular := RegularPass(lines, ctx).value;
    forall l | l in other && l.kind == DISCOUNT
      ensures DiscountLine(l, other, regular, ctx.settings).Ok?
    {
      DiscountIgnoresOrder(l, lines, other, regular, ctx.settings);
    }
    PricedExactlyWhen(other, ctx);
    PricedLength(lines, ctx);
    PricedLength(other, ctx);
    forall i, j | 0 <= i < |lines| && 0 <= j < |other| && lines[i] == other[j]
      ensures Bare(PriceLines(lines, ctx).value[i]) == Bare(PriceLines(other, ctx).value[j])
      ensures lines[i].kind != DISCOUNT ==> PriceLines(lines, ctx).value[i] == PriceLines(other, ctx).value[j]
    {
      PricedLineByLine(lines, ctx, i);
      PricedLineByLine(other, ctx, j);
      if lines[i].kind == DISCOUNT {
        DiscountIgnoresOrder(lines[i], lines, other, regular, ctx.settings);
      }
    }
    MatchedTotals(lines, other, PriceLines(lines, ctx).value, PriceLines(other, ctx).value, ctx.settings.rounding);
  }

  lemma PricedLength(lines: seq<Line>, ctx: Ctx)
    requires PriceLines(lines, ctx).Ok?
    ensures |PriceLines(lines, ctx).value| == |lines|
  {
    hide RegularPass, DiscountPass, DiscountLine, RegularLine;
  }

  function BareLines(lines: seq<PricedLine>): seq<PricedLine> {
    seq(|lines|, i requires 0 <= i < |lines| => Bare(lines[i]))
  }

  /** Totals never look at a trace. */
  lemma {:induction false} TotalsOfBare(lines: seq<PricedLine>, mode: RoundingMode)
    ensures TotalsOf(BareLines(lines), mode) == TotalsOf(lines, mode)
  {
    hide Breakdowns, Normalised;
    SumByPointwise(BareLines(lines), lines, Ht(), Ht());
    forall r: Recurrence
      ensures SumBy(BareLines(lines), HtOf(r)) == SumBy(lines, HtOf(r))
    {
      SumByPointwise(BareLines(lines), lines, HtOf(r), HtOf(r));
    }
    GroupedOfBare(lines);
  }

  lemma {:induction false} GroupedOfBare(lines: seq<PricedLine>)
    ensures Grouped(BareLines(lines)) == Grouped(lines)
  {
    if lines != [] {
      assert BareLines(lines)[..|lines| - 1] == BareLines(lines[..|lines| - 1]);
      GroupedOfBare(lines[..|lines| - 1]);
    }
  }

  /** Lines matched one to one by equal schedule lines form the same multiset. */
  lemma {:induction false} MatchedLines(xs: seq<Line>, ys: seq<Line>, a: seq<PricedLine>, b: seq<PricedLine>)
    requires |xs| == |a| && |ys| == |b| && multiset(xs) == multiset(ys)
    requires forall i, j :: 0 <= i < |xs| && 0 <= j < |ys| && xs[i] == ys[j] ==> a[i] == b[j]
    ensures multiset(a) == multiset(b)
    decreases |xs|
  {
    if xs == [] {
      assert |ys| == |multiset(ys)| == 0;
    } else {
      var last := |xs| - 1;
      assert xs[last] in multiset(ys);
      var k :| 0 <= k < |ys| && ys[k] == xs[last];
      TakeOut(xs, last);
      TakeOut(ys, k);
      MatchedRest(xs, ys, a, b, last, k);
      assert xs[last] == ys[k];
      SplitAt(a, last);
      SplitAt(b, k);
      MatchedLines(xs[..last] + xs[last + 1..], ys[..k] + ys[k + 1..], a[..last] + a[last + 1..], b[..k] + b[k + 1..]);
    }
  }

  lemma SplitAt<T>(xs: seq<T>, k: nat)
    requires k < |xs|
    ensures multiset(xs) == multiset(xs[..k] + xs[k + 1..]) + multiset{xs[k]}
  {
    assert xs == xs[..k] + [xs[k]] + xs[k + 1..];
  }

  lemma MatchedRest(xs: seq<Line>, ys: seq<Line>, a: seq<PricedLine>, b: seq<PricedLine>, last: nat, k: nat)
    requires |xs| == |a| && |ys| == |b| && last < |xs| && k < |ys|
    requires forall i, j :: 0 <= i < |xs| && 0 <= j < |ys| && xs[i] == ys[j] ==> a[i] == b[j]
    ensures var xs1, ys1, a1, b1 := xs[..last] + xs[last + 1..], ys[..k] + ys[k + 1..], a[..last] + a[last + 1..], b[..k] + b[k + 1..];
            forall i, j :: 0 <= i < |xs1| && 0 <= j < |ys1| && xs1[i] == ys1[j] ==> a1[i] == b1[j]
  {
    var xs1, ys1 := xs[..last] + xs[last + 1..], ys[..k] + ys[k + 1..];
    forall i, j | 0 <= i < |xs1| && 0 <= j < |ys1| && xs1[i] == ys1[j]
      ensures (a[..last] + a[last + 1..])[i] == (b[..k] + b[k + 1..])[j]
    {
      var i0, j0 := if i < last then i else i + 1, if j < k then j else j + 1;
      assert xs[i0] == ys[j0];
    }
  }

  lemma MatchedTotals(xs: seq<Line>, ys: seq<Line>, a: seq<PricedLine>, b: seq<PricedLine>, mode: RoundingMode)
    requires |xs| == |a| && |ys| == |b| && multiset(xs) == multiset(ys)
    requires forall i, j :: 0 <= i < |xs| && 0 <= j < |ys| && xs[i] == ys[j] ==> Bare(a[i]) == Bare(b[j])
    ensures TotalsOf(a, mode) == TotalsOf(b, mode)
  {
    hide TotalsOf, Bare;
    MatchedLines(xs, ys, BareLines(a), BareLines(b));
    TotalsOfBare(a, mode);
    TotalsOfBare(b, mode);
    TotalsIgnoreOrder(BareLines(a), BareLines(b), mode);
  }

  // ------------------------------------------------------------ what is looked at

  ghost predicate SameForAll(lines: seq<Line>, c: Ctx, d: Ctx) {
    c.settings == d.settings && forall l :: l in lines && l.kind != DISCOUNT ==> SameFor(l, c, d)
  }

  lemma {:induction false} RegularPassIsLocal(lines: seq<Line>, c: Ctx, d: Ctx)
    requires SameForAll(lines, c, d)
    ensures RegularPass(lines, c) == RegularPass(lines, d)
  {
    hide RegularLine, SameFor;
    if lines != [] {
      RegularPassIsLocal(lines[..|lines| - 1], c, d);
      var l := lines[|lines| - 1];
      if l.kind != DISCOUNT {
        RegularLineIsLocal(l, c, d);
      }
    }
  }

  lemma PriceLinesIsLocal(lines: seq<Line>, c: Ctx, d: Ctx)
    requires SameForAll(lines, c, d)
    ensures PriceLines(lines, c) == PriceLines(lines, d)
  {
    hide RegularPass, DiscountPass, Assemble, SameFor;
    RegularPassIsLocal(lines, c, d);
    PassKeysSame(lines, c, d);
  }

  lemma PassKeysSame(lines: seq<Line>, c: Ctx, d: Ctx)
    ensures RegularPass(lines, c).Ok? && DiscountPass(lines, lines, RegularPass(lines, c).value, c.settings).Ok? ==>
              forall l :: l in lines ==> l.id in RegularPass(lines, c).value || l.id in DiscountPass(lines, lines, RegularPass(lines, c).value, c.settings).value
  {
    if RegularPass(lines, c).Ok? {
      PassKeys(lines, lines, c, RegularPass(lines, c).value);
    }
  }

  // ----------------------------------------------------------- relevant overrides

  /** The overrides of these lines that cover the date: all that pricing can see of the list. */
  function Relevant(ids: set<string>, date: Day): PriceOverride -> seq<PriceOverride> {
    (o: PriceOverride) => if o.lineId in ids && Covers(o, date) then [o] else []
  }

  lemma {:induction false} RelevantForLine(overrides: seq<PriceOverride>, ids: set<string>, date: Day, id: string)
    requires id in ids
    ensures Covering(FlatMap(overrides, ForLine(id)), date) == FlatMap(FlatMap(overrides, Relevant(ids, date)), ForLine(id))
  {
    if overrides != [] {
      var init, o := overrides[..|overrides| - 1], overrides[|overrides| - 1];
      RelevantForLine(init, ids, date, id);
      FlatMapAppend(FlatMap(init, Relevant(ids, date)), Relevant(ids, date)(o), ForLine(id));
      FlatMapOne(o, ForLine(id));
      FlatMapAppend(FlatMap(init, ForLine(id)), ForLine(id)(o), OnlyCovering(date));
      FlatMapOne(o, OnlyCovering(date));
    }
  }

  lemma OverridesOfLine(input: PricingInput, date: Day, s: Settings, id: string)
    ensures MakeCtx(input, date, s).OverridesOf(id) == FlatMap(input.overrides, ForLine(id))
  {
    PushedList(input.overrides, PriceOverride("", id, "", 0, 0, "", "", None), id);
  }

  /** What two snapshots must share for one date to be priced alike. */
  ghost predicate SameView(a: PricingInput, b: PricingInput, date: Day, lines: seq<Line>, s: Settings) {
    && a.ruleCatalog == b.ruleCatalog && a.commitmentMonths == b.commitmentMonths && a.evaluate == b.evaluate
    && FlatMap(a.overrides, Relevant(IdsOf(lines), date)) == FlatMap(b.overrides, Relevant(IdsOf(lines), date))
    && (forall l :: l in lines && l.quantity == Some(Provider) ==>
          && (l.id in QuantityMap(a.quantities) <==> l.id in QuantityMap(b.quantities))
          && (l.id in QuantityMap(a.quantities) ==> QuantityMap(a.quantities)[l.id] == QuantityMap(b.quantities)[l.id]))
    && forall l, code, day, rule :: l in lines && (day, rule) in Consulted(l, date, s) ==>
         Lookup(a.indexes, code, day, rule) == Lookup(b.indexes, code, day, rule)
  }

  function IdsOf(lines: seq<Line>): set<string> { set l | l in lines :: l.id }

  lemma SameViewForLine(a: PricingInput, b: PricingInput, date: Day, lines: seq<Line>, s: Settings, l: Line)
    requires SameView(a, b, date, lines, s) && l in lines
    ensures SameFor(l, MakeCtx(a, date, s), MakeCtx(b, date, s))
  {
    hide OverrideMap, Lookup, QuantityMap, Consulted, Relevant, Covering;
    OverridesOfLine(a, date, s, l.id);
    OverridesOfLine(b, date, s, l.id);
    RelevantForLine(a.overrides, IdsOf(lines), date, l.id);
    RelevantForLine(b.overrides, IdsOf(lines), date, l.id);
  }

  /**
   * The price at a date is a function of the version in force, of the overrides of its lines that
   * cover the date, of their quantities, and of what the consulted days can see of the indexes.
   */
  lemma PriceAtIsLocal(a: PricingInput, b: PricingInput, date: Day)
    requires a.settings == b.settings && SelectSchedule(a.schedules, date) == SelectSchedule(b.schedules, date)
    requires ResolveSettings(a.settings).Ok? && SelectSchedule(a.schedules, date).Ok? ==>
               SameView(a, b, date, SelectSchedule(a.schedules, date).value.lines, ResolveSettings(a.settings).value)
    ensures PriceAt(a, date) == PriceAt(b, date)
  {
    hide SelectSchedule, ResolveSettings, PriceLines, TotalsOf, SameView, MakeCtx;
    if ResolveSettings(a.settings).Ok? && SelectSchedule(a.schedules, date).Ok? {
      var lines, s := SelectSchedule(a.schedules, date).value.lines, ResolveSettings(a.settings).value;
      var c, d := MakeCtx(a, date, s), MakeCtx(b, date, s);
      forall l | l in lines && l.kind != DISCOUNT
        ensures SameFor(l, c, d)
      {
        SameViewForLine(a, b, date, lines, s, l);
      }
      assert c.settings == s == d.settings by { CtxSettings(a, date, s); CtxSettings(b, date, s); }
      PriceLinesIsLocal(lines, c, d);
    }
  }

  lemma CtxSettings(a: PricingInput, date: Day, s: Settings)
    ensures MakeCtx(a, date, s).settings == s
  {
  }

  /** Overrides of other lines, or of other periods, change nothing wherever they stand in the list. */
  lemma OtherOverridesChangeNothing(
      a: PricingInput, before: seq<PriceOverride>, more: seq<PriceOverride>, after: seq<PriceOverride>, date: Day)
    requires a.overrides == before + after
    requires SelectSchedule(a.schedules, date).Ok? ==>
               forall o :: o in more ==> o.lineId !in IdsOf(SelectSchedule(a.schedules, date).value.lines) || !Covers(o, date)
    ensures PriceAt(a.(overrides := before + more + after), date) == PriceAt(a, date)
  {
    hide SelectSchedule, PriceAt, Lookup, Consulted, QuantityMap, Relevant, FlatMap, Covers, IdsOf;
    if SelectSchedule(a.schedules, date).Ok? {
      var ids := IdsOf(SelectSchedule(a.schedules, date).value.lines);
      FlatMapAppend(before + more, after, Relevant(ids, date));
      FlatMapAppend(before, more, Relevant(ids, date));
      FlatMapAppend(before, after, Relevant(ids, date));
      NothingRelevant(more, ids, date);
      assert FlatMap(before, Relevant(ids, date)) + [] == FlatMap(before, Relevant(ids, date));
    }
    PriceAtIsLocal(a.(overrides := before + more + after), a, date);
  }

  lemma {:induction false} NothingRelevant(overrides: seq<PriceOverride>, ids: set<string>, date: Day)
    requires forall o :: o in overrides ==> o.lineId !in ids || !Covers(o, date)
    ensures FlatMap(overrides, Relevant(ids, date)) == []
  {
    if overrides != [] {
      NothingRelevant(overrides[..|overrides| - 1], ids, date);
    }
  }

  /** Versions that do not cover the date, past or to come, change nothing. */
  lemma OtherVersionsChangeNothing(a: PricingInput, more: seq<Schedule>, date: Day)
    requires forall v :: v in more ==> ValidVersion(v) && !InForce(v, date)
    ensures PriceAt(a.(schedules := a.schedules + more), date) == PriceAt(a, date)
  {
    hide SelectSchedule, PriceAt, Lookup, Consulted, QuantityMap, Relevant;
    OthersPlayNoPart(a.schedules, more, date);
    PriceAtIsLocal(a.(schedules := a.schedules + more), a, date);
  }

  // ------------------------------------------------------------- later publications

  /** A series and the same series some time later: more values, none of them visible from `last`. */
  ghost predicate LaterSeries(index: PriceIndex, later: PriceIndex, last: Day) {
    && index.code == later.code
    && CheckValues(index.values).Ok? && CheckValues(later.values).Ok?
    && (forall v :: v in index.values ==> v in later.values)
    && (forall v :: v in later.values && v !in index.values ==> v.publishedAt > last)
  }

  ghost predicate LaterIndexes(indexes: seq<PriceIndex>, later: seq<PriceIndex>, last: Day) {
    |indexes| == |later| && forall i :: 0 <= i < |indexes| ==> LaterSeries(indexes[i], later[i], last)
  }

  lemma {:induction false} LaterLookup(indexes: seq<PriceIndex>, later: seq<PriceIndex>, last: Day, code: string, day: Day)
    requires LaterIndexes(indexes, later, last) && day <= last
    ensures Lookup(later, code, day, LATEST_PUBLISHED) == Lookup(indexes, code, day, LATEST_PUBLISHED)
    decreases |indexes|
  {
    hide CheckValues, Best, Observe;
    if indexes != [] && ValidDay(day) {
      assert LaterSeries(indexes[0], later[0], last);
      if indexes[0].code == code {
        BestReplays(indexes[0].values, later[0].values, day, LATEST_PUBLISHED);
      } else {
        forall i | 0 <= i < |indexes[1..]|
          ensures LaterSeries(indexes[1..][i], later[1..][i], last)
        {
          assert LaterSeries(indexes[i + 1], later[i + 1], last);
        }
        LaterLookup(indexes[1..], later[1..], last, code, day);
      }
    }
  }

  /** Every index read of these lines is under LATEST_PUBLISHED from a day up to `last`. */
  ghost predicate ReadsUpTo(lines: seq<Line>, date: Day, s: Settings, last: Day) {
    forall l, day, rule :: l in lines && (day, rule) in Consulted(l, date, s) ==> rule == LATEST_PUBLISHED && day <= last
  }

  /**
   * Replay: index values published after every consulted day change nothing, so a past price
   * computed under LATEST_PUBLISHED is found again whatever has been published since.
   */
  lemma LaterPublicationsChangeNothing(a: PricingInput, later: seq<PriceIndex>, last: Day, date: Day)
    requires LaterIndexes(a.indexes, later, last)
    requires ResolveSettings(a.settings).Ok? && SelectSchedule(a.schedules, date).Ok? ==>
               ReadsUpTo(SelectSchedule(a.schedules, date).value.lines, date, ResolveSettings(a.settings).value, last)
    ensures PriceAt(a.(indexes := later), date) == PriceAt(a, date)
  {
    hide SelectSchedule, ResolveSettings, PriceAt, Consulted, QuantityMap, Relevant, LaterIndexes, Lookup;
    if ResolveSettings(a.settings).Ok? && SelectSchedule(a.schedules, date).Ok? {
      var lines, s := SelectSchedule(a.schedules, date).value.lines, ResolveSettings(a.settings).value;
      forall l, code, day, rule | l in lines && (day, rule) in Consulted(l, date, s)
        ensures Lookup(later, code, day, rule) == Lookup(a.indexes, code, day, rule)
      {
        LaterLookup(a.indexes, later, last, code, day);
      }
    }
    PriceAtIsLocal(a.(indexes := later), a, date);
  }
}

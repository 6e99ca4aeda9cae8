/**
 * What a discount line is, told from its own texts and from the lines it aims at
 * (packages/pricing/src/price-at.ts, `priceDiscountLine`).
 */
module DiscountReads {
  import opened Outcomes
  import opened Sums
  import opened Money
  import opened DecimalText
  import opened PricingTypes
  import opened LinePricing
  import opened Totals
  import opened Engine
  import opened EngineFacts

  /** `at` lists, in schedule order, the places of all the regular lines already priced. */
  ghost predicate RegularPlaces(at: seq<int>, all: seq<Line>, regular: map<string, PricedLine>) {
    && (forall j, k :: 0 <= j < k < |at| ==> at[j] < at[k])
    && (forall i :: i in at <==> 0 <= i < |all| && all[i].kind != DISCOUNT && all[i].id in regular)
  }

  /** `ids` are the lines aimed at: those listed, each once, or every regular line in turn. */
  ghost predicate AimsAt(target: DiscountTarget, all: seq<Line>, regular: map<string, PricedLine>, ids: seq<string>) {
    match target
    case Lines(given) => ids == given && forall j, k :: 0 <= j < k < |given| ==> given[j] != given[k]
    case Subtotal => exists at :: RegularPlaces(at, all, regular) && IdsAt(at, all, ids)
  }

  ghost predicate IdsAt(at: seq<int>, all: seq<Line>, ids: seq<string>) {
    |ids| == |at| && forall k :: 0 <= k < |at| ==> 0 <= at[k] < |all| && ids[k] == all[at[k]].id
  }

  function Priced(ids: seq<string>, regular: map<string, PricedLine>): seq<PricedLine>
    requires forall id :: id in ids ==> id in regular
  {
    seq(|ids|, k requires 0 <= k < |ids| => assert ids[k] in ids; regular[ids[k]])
  }

  /** What the discount is set on: a MANUAL line, its own value, its rate and priced lines of that rate and one recurrence. */
  ghost predicate Set(line: Line, all: seq<Line>, regular: map<string, PricedLine>, ids: seq<string>, vat: real) {
    && line.mode == MANUAL && line.discount.Some?
    && ParseDecimal(line.vatRatePercent, 4, false) == Ok(vat) && vat <= 100.0
    && AimsAt(line.discount.value.appliesTo, all, regular, ids)
    && ids != [] && forall id :: id in ids ==> id in regular
  }

  ghost predicate Uniform(line: Line, targets: seq<PricedLine>, vat: real, recurrence: Recurrence) {
    && (forall t :: t in targets ==> t.vat == vat && t.recurrence == recurrence)
    && (line.recurrence.Some? ==> line.recurrence.value == recurrence)
  }

  /** The value as its text gives it: at most four decimals of percents, or six of euros. */
  predicate ValueOf(d: DiscountSpec, v: real) {
    match d.kind
    case PERCENT => ParseDecimal(d.value, 4, false) == Ok(v)
    case AMOUNT => ParseDecimal(d.value, 6, false) == Ok(v)
  }

  predicate TooMuch(d: DiscountSpec, v: real, baseCents: int) {
    match d.kind
    case PERCENT => v > 100.0
    case AMOUNT => v * 100.0 > baseCents as real
  }

  /** What is taken off, in euros. */
  predicate TakesOff(d: DiscountSpec, v: real, baseCents: int, exact: real) {
    match d.kind
    case PERCENT => exact * 10000.0 == -(baseCents as real * v)
    case AMOUNT => exact == -v
  }

  function Charged(): PricedLine -> int { (l: PricedLine) => l.totalHtCents }

  /** The priced discount, field by field and step by step. */
  ghost predicate DiscountRead(
      line: Line, all: seq<Line>, regular: map<string, PricedLine>, mode: RoundingMode, ids: seq<string>, v: real, exact: real, p: PricedLine)
  {
    && Set(line, all, regular, ids, p.vat)
    && Uniform(line, Priced(ids, regular), p.vat, p.recurrence)
    && var d, base := line.discount.value, SumBy(Priced(ids, regular), Charged());
       && ValueOf(d, v) && !TooMuch(d, v, base) && TakesOff(d, v, base, exact)
       && IsRounding(exact * 100.0, p.totalHtCents, mode)
       && p == PricedLine(line.id, line.code, DISCOUNT, MANUAL, p.recurrence, 1.0, p.totalHtCents as real / 100.0, p.vat, p.totalHtCents,
                          [Discounted(d.kind, v, ids, base, exact), Rounding(LINE_TOTAL, exact, p.totalHtCents as real / 100.0, 2, mode)])
  }

  // ------------------------------------------------------------------- the places

  lemma NextPlace(at: seq<int>, init: seq<Line>, last: Line, regular: map<string, PricedLine>)
    requires RegularPlaces(at, init, regular)
    ensures RegularPlaces(at + if last.kind != DISCOUNT && last.id in regular then [|init|] else [], init + [last], regular)
  {
    var more := at + if last.kind != DISCOUNT && last.id in regular then [|init|] else [];
    forall j, k | 0 <= j < k < |more|
      ensures more[j] < more[k]
    {
      assert more[j] in at;
    }
    forall i
      ensures i in more <==> 0 <= i < |init| + 1 && (init + [last])[i].kind != DISCOUNT && (init + [last])[i].id in regular
    {
      assert i in more <==> i in at || (i == |init| && last.kind != DISCOUNT && last.id in regular);
    }
  }

  lemma {:induction false} PlacesOf(all: seq<Line>, regular: map<string, PricedLine>) returns (at: seq<int>)
    ensures RegularPlaces(at, all, regular) && ListedAt(FlatMap(all, InOrder(regular)), at, all, regular)
  {
    if all == [] {
      at := [];
    } else {
      var init, last := all[..|all| - 1], all[|all| - 1];
      assert all == init + [last];
      at := PlacesOf(init, regular);
      hide *;
      NextPlace(at, init, last, regular);
      NextListed(at, init, last, regular);
      at := at + if last.kind != DISCOUNT && last.id in regular then [|init|] else [];
    }
  }

  ghost predicate ListedAt(found: seq<PricedLine>, at: seq<int>, all: seq<Line>, regular: map<string, PricedLine>) {
    && |at| == |found|
    && forall k :: 0 <= k < |at| ==> 0 <= at[k] < |all| && all[at[k]].id in regular && found[k] == regular[all[at[k]].id]
  }

  lemma NextListed(at: seq<int>, init: seq<Line>, last: Line, regular: map<string, PricedLine>)
    requires ListedAt(FlatMap(init, InOrder(regular)), at, init, regular)
    ensures ListedAt(FlatMap(init + [last], InOrder(regular)), at + if last.kind != DISCOUNT && last.id in regular then [|init|] else [], init + [last], regular)
  {
    FlatMapAppend(init, [last], InOrder(regular));
    FlatMapOne(last, InOrder(regular));
    hide FlatMap;
  }

  function Elements(xs: seq<int>): set<int> { set i | i in xs }

  lemma {:induction false} SamePlaces(xs: seq<int>, ys: seq<int>)
    requires forall j, k :: 0 <= j < k < |xs| ==> xs[j] < xs[k]
    requires forall j, k :: 0 <= j < k < |ys| ==> ys[j] < ys[k]
    requires Elements(xs) == Elements(ys)
    ensures xs == ys
  {
    if ys != [] {
      AllButLast(ys);
    }
    if xs != [] {
      AllButLast(xs);
      SamePlaces(xs[..|xs| - 1], ys[..|ys| - 1]);
      assert xs == xs[..|xs| - 1] + [xs[|xs| - 1]] && ys == ys[..|ys| - 1] + [ys[|ys| - 1]];
    }
  }

  lemma AllButLast(xs: seq<int>)
    requires xs != [] && forall j, k :: 0 <= j < k < |xs| ==> xs[j] < xs[k]
    ensures Elements(xs[..|xs| - 1]) == Elements(xs) - {xs[|xs| - 1]}
    ensures xs[|xs| - 1] in Elements(xs) && forall i :: i in Elements(xs) ==> i <= xs[|xs| - 1]
  {
    var init, last := xs[..|xs| - 1], xs[|xs| - 1];
    assert xs == init + [last];
    forall i | i in Elements(init)
      ensures i != last
    {
      var k :| 0 <= k < |init| && init[k] == i;
      assert xs[k] < xs[|xs| - 1];
    }
  }

  /** The lines a discount applies to are those it aims at, and no others. */
  lemma TargetsAimedAt(target: DiscountTarget, all: seq<Line>, regular: map<string, PricedLine>)
    requires Targets(target, all, regular).Ok?
    ensures exists ids :: AimsAt(target, all, regular, ids) && (forall id :: id in ids ==> id in regular) && Targets(target, all, regular) == Ok(Priced(ids, regular))
  {
    match target
    case Lines(given) =>
      assert AimsAt(target, all, regular, given) && Targets(target, all, regular).value == Priced(given, regular);
    case Subtotal =>
      var at := PlacesOf(all, regular);
      var ids := seq(|at|, k requires 0 <= k < |at| => all[at[k]].id);
      assert IdsAt(at, all, ids);
      assert AimsAt(target, all, regular, ids);
      assert Targets(target, all, regular).value == Priced(ids, regular);
  }

  lemma AimedAtAreTargets(target: DiscountTarget, all: seq<Line>, regular: map<string, PricedLine>, ids: seq<string>)
    requires AimsAt(target, all, regular, ids) && forall id :: id in ids ==> id in regular
    ensures Targets(target, all, regular) == Ok(Priced(ids, regular))
  {
    match target
    case Lines(given) =>
      assert Targets(target, all, regular).value == Priced(ids, regular);
    case Subtotal =>
      var at :| RegularPlaces(at, all, regular) && IdsAt(at, all, ids);
      var places := PlacesOf(all, regular);
      assert forall i :: i in at <==> i in places;
      SamePlaces(at, places);
      assert FlatMap(all, InOrder(regular)) == Priced(ids, regular);
  }

  // ------------------------------------------------------------------ the discount

  lemma SameBase(targets: seq<PricedLine>)
    ensures SumBy(targets, Charged()) == SumBy(targets, Ht())
  {
    SumByPointwise(targets, targets, Charged(), Ht());
  }

  lemma UniformIsHomogeneous(line: Line, targets: seq<PricedLine>, vat: real)
    requires targets != []
    ensures forall recurrence :: Uniform(line, targets, vat, recurrence) <==> Homogeneous(line, vat, targets) && recurrence == targets[0].recurrence
  {
    assert targets[0] in targets;
  }

  lemma TakenOff(d: DiscountSpec, baseCents: int, v: real, exact: real)
    ensures ValueOf(d, v) && !TooMuch(d, v, baseCents) && TakesOff(d, v, baseCents, exact) <==> Reduction(d, baseCents) == Ok((v, -exact))
  {
    hide ParseDecimal, PercentOf;
    assert CentsToEuros(baseCents) * 100.0 == baseCents as real;
    ShareTaken(baseCents, v, exact);
  }

  lemma ShareTaken(baseCents: int, v: real, exact: real)
    ensures exact * 10000.0 == -(baseCents as real * v) <==> PercentOf(CentsToEuros(baseCents), v) == -exact
  {
    var euros := CentsToEuros(baseCents);
    assert euros * 100.0 == baseCents as real;
    assert euros * v * 100.0 == baseCents as real * v;
  }

  lemma TargetsOfPriced(ids: seq<string>, regular: map<string, PricedLine>)
    requires forall id :: id in ids ==> id in regular && regular[id].lineId == id
    ensures TargetIds(Priced(ids, regular)) == ids
  {
    forall k | 0 <= k < |ids|
      ensures TargetIds(Priced(ids, regular))[k] == ids[k]
    {
      assert ids[k] in ids;
    }
  }

  /** Priced lines are filed under their own ids. */
  ghost predicate Filed(regular: map<string, PricedLine>) { forall id :: id in regular ==> regular[id].lineId == id }

  lemma DiscountIsSo(line: Line, d: DiscountSpec, ids: seq<string>, regular: map<string, PricedLine>, v: real, exact: real, s: Settings, p: PricedLine)
    requires ids != [] && (forall id :: id in ids ==> id in regular) && Filed(regular) && line.mode == MANUAL && p.recurrence == Priced(ids, regular)[0].recurrence
    ensures p == DiscountPriced(line, d, p.vat, Priced(ids, regular), (v, -exact), s.rounding)
            <==> IsRounding(exact * 100.0, p.totalHtCents, s.rounding)
                 && p == PricedLine(line.id, line.code, DISCOUNT, MANUAL, p.recurrence, 1.0, p.totalHtCents as real / 100.0, p.vat, p.totalHtCents,
                                    [Discounted(d.kind, v, ids, SumBy(Priced(ids, regular), Charged()), exact),
                                     Rounding(LINE_TOTAL, exact, p.totalHtCents as real / 100.0, 2, s.rounding)])
  {
    hide IsRounding, Round, SumBy;
    SameBase(Priced(ids, regular));
    TargetsOfPriced(ids, regular);
    RoundIsTheRounding(exact * 100.0, p.totalHtCents, s.rounding);
    assert -(-exact) == exact;
  }

  /** A discount is priced exactly when it can be read so, and then in only one way. */
  lemma DiscountExactly(line: Line, all: seq<Line>, regular: map<string, PricedLine>, s: Settings, p: PricedLine)
    requires Filed(regular)
    ensures DiscountLine(line, all, regular, s) == Ok(p) <==> exists ids, v, exact :: DiscountRead(line, all, regular, s.rounding, ids, v, exact, p)
  {
    if DiscountLine(line, all, regular, s) == Ok(p) {
      ReadsAsDiscount(line, all, regular, s, p);
    }
    if ids, v, exact :| DiscountRead(line, all, regular, s.rounding, ids, v, exact, p) {
      DiscountAsRead(line, all, regular, s, ids, v, exact, p);
    }
  }

  lemma ReadsAsDiscount(line: Line, all: seq<Line>, regular: map<string, PricedLine>, s: Settings, p: PricedLine)
    requires Filed(regular) && DiscountLine(line, all, regular, s) == Ok(p)
    ensures exists ids, v, exact :: DiscountRead(line, all, regular, s.rounding, ids, v, exact, p)
  {
    hide Targets, Reduction, AimsAt, Homogeneous, ParseDecimal, IsRounding, SumBy, Uniform, ValueOf, TooMuch, TakesOff;
    var d := line.discount.value;
    TargetsAimedAt(d.appliesTo, all, regular);
    var ids :| AimsAt(d.appliesTo, all, regular, ids) && (forall id :: id in ids ==> id in regular) && Targets(d.appliesTo, all, regular) == Ok(Priced(ids, regular));
    var targets := Priced(ids, regular);
    SameBase(targets);
    UniformIsHomogeneous(line, targets, p.vat);
    var reduction := Reduction(d, SumBy(targets, Ht())).value;
    TakenOff(d, SumBy(targets, Ht()), reduction.0, -reduction.1);
    DiscountIsSo(line, d, ids, regular, reduction.0, -reduction.1, s, p);
    assert DiscountRead(line, all, regular, s.rounding, ids, reduction.0, -reduction.1, p);
  }

  lemma DiscountAsRead(
      line: Line, all: seq<Line>, regular: map<string, PricedLine>, s: Settings, ids: seq<string>, v: real, exact: real, p: PricedLine)
    requires Filed(regular) && DiscountRead(line, all, regular, s.rounding, ids, v, exact, p)
    ensures DiscountLine(line, all, regular, s) == Ok(p)
  {
    hide Targets, Reduction, AimsAt, Homogeneous, ParseDecimal, IsRounding, SumBy, Uniform, ValueOf, TooMuch, TakesOff;
    var d := line.discount.value;
    AimedAtAreTargets(d.appliesTo, all, regular, ids);
    var targets := Priced(ids, regular);
    SameBase(targets);
    UniformIsHomogeneous(line, targets, p.vat);
    TakenOff(d, SumBy(targets, Ht()), v, exact);
    DiscountIsSo(line, d, ids, regular, v, exact, s, p);
  }

  /** Refused for what it takes off exactly when nothing else is wrong with it and its value is too much. */
  lemma ExceedsExactlyWhen(line: Line, all: seq<Line>, regular: map<string, PricedLine>, s: Settings)
    ensures DiscountLine(line, all, regular, s) == Err(DISCOUNT_EXCEEDS_BASE) <==>
              exists ids, vat, recurrence, v :: Exceeds(line, all, regular, ids, vat, recurrence, v)
    ensures DiscountLine(line, all, regular, s) == Err(DISCOUNT_TARGET_MISMATCH) <==>
              exists ids, vat :: Mismatched(line, all, regular, ids, vat)
  {
    if ids, vat, recurrence, v :| Exceeds(line, all, regular, ids, vat, recurrence, v) {
      ExceedsIsRefused(line, all, regular, s, ids, vat, recurrence, v);
    }
    if ids, vat :| Mismatched(line, all, regular, ids, vat) {
      MismatchIsRefused(line, all, regular, s, ids, vat);
    }
    if DiscountLine(line, all, regular, s) in {Err(DISCOUNT_EXCEEDS_BASE), Err(DISCOUNT_TARGET_MISMATCH)} {
      RefusedFor(line, all, regular, s);
    }
  }

  ghost predicate Exceeds(line: Line, all: seq<Line>, regular: map<string, PricedLine>, ids: seq<string>, vat: real, recurrence: Recurrence, v: real) {
    && Set(line, all, regular, ids, vat) && Uniform(line, Priced(ids, regular), vat, recurrence)
    && ValueOf(line.discount.value, v) && TooMuch(line.discount.value, v, SumBy(Priced(ids, regular), Charged()))
  }

  ghost predicate Mismatched(line: Line, all: seq<Line>, regular: map<string, PricedLine>, ids: seq<string>, vat: real) {
    Set(line, all, regular, ids, vat) && forall recurrence :: !Uniform(line, Priced(ids, regular), vat, recurrence)
  }

  lemma TooMuchIsRefused(d: DiscountSpec, baseCents: int)
    ensures Reduction(d, baseCents) == Err(DISCOUNT_EXCEEDS_BASE) <==> exists v :: ValueOf(d, v) && TooMuch(d, v, baseCents)
  {
    NeverExceeding(d.value, if d.kind == PERCENT then 4 else 6);
    hide ParseDecimal;
    assert CentsToEuros(baseCents) * 100.0 == baseCents as real;
    if Reduction(d, baseCents) == Err(DISCOUNT_EXCEEDS_BASE) {
      var v := ParseDecimal(d.value, if d.kind == PERCENT then 4 else 6, false).value;
      assert ValueOf(d, v) && TooMuch(d, v, baseCents);
    }
  }

  lemma NeverExceeding(text: string, scale: nat)
    ensures ParseDecimal(text, scale, false) != Err(DISCOUNT_EXCEEDS_BASE) && ParseDecimal(text, scale, false) != Err(DISCOUNT_TARGET_MISMATCH)
  {
  }

  lemma ExceedsIsRefused(
      line: Line, all: seq<Line>, regular: map<string, PricedLine>, s: Settings, ids: seq<string>, vat: real, recurrence: Recurrence, v: real)
    requires Exceeds(line, all, regular, ids, vat, recurrence, v)
    ensures DiscountLine(line, all, regular, s) == Err(DISCOUNT_EXCEEDS_BASE)
  {
    hide Targets, Reduction, AimsAt, Homogeneous, ParseDecimal, SumBy, Uniform, ValueOf, TooMuch;
    var d, targets := line.discount.value, Priced(ids, regular);
    AimedAtAreTargets(d.appliesTo, all, regular, ids);
    SameBase(targets);
    UniformIsHomogeneous(line, targets, vat);
    TooMuchIsRefused(d, SumBy(targets, Ht()));
  }

  lemma MismatchIsRefused(line: Line, all: seq<Line>, regular: map<string, PricedLine>, s: Settings, ids: seq<string>, vat: real)
    requires Mismatched(line, all, regular, ids, vat)
    ensures DiscountLine(line, all, regular, s) == Err(DISCOUNT_TARGET_MISMATCH)
  {
    hide Targets, Reduction, AimsAt, Homogeneous, ParseDecimal, SumBy, Uniform;
    var d, targets := line.discount.value, Priced(ids, regular);
    AimedAtAreTargets(d.appliesTo, all, regular, ids);
    UniformIsHomogeneous(line, targets, vat);
    assert !Uniform(line, targets, vat, targets[0].recurrence);
  }

  lemma RefusedFor(line: Line, all: seq<Line>, regular: map<string, PricedLine>, s: Settings)
    requires DiscountLine(line, all, regular, s) in {Err(DISCOUNT_EXCEEDS_BASE), Err(DISCOUNT_TARGET_MISMATCH)}
    ensures DiscountLine(line, all, regular, s) == Err(DISCOUNT_EXCEEDS_BASE) ==>
              exists ids, vat, recurrence, v :: Exceeds(line, all, regular, ids, vat, recurrence, v)
    ensures DiscountLine(line, all, regular, s) == Err(DISCOUNT_TARGET_MISMATCH) ==> exists ids, vat :: Mismatched(line, all, regular, ids, vat)
  {
    OtherDefects(line, all, regular);
    hide Targets, Reduction, AimsAt, Homogeneous, ParseDecimal, SumBy, Uniform, ValueOf, TooMuch, Mismatched, Exceeds;
    var vat, d := ParseVat(line).value, line.discount.value;
    TargetsAimedAt(d.appliesTo, all, regular);
    var ids :| AimsAt(d.appliesTo, all, regular, ids) && (forall id :: id in ids ==> id in regular) && Targets(d.appliesTo, all, regular) == Ok(Priced(ids, regular));
    var targets := Priced(ids, regular);
    SameBase(targets);
    assert Set(line, all, regular, ids, vat);
    hide Set, ParseVat;
    if Homogeneous(line, vat, targets) {
      ReductionErrors(d, SumBy(targets, Ht()));
      ExceedsAt(line, all, regular, ids, vat);
    } else {
      MismatchAt(line, all, regular, ids, vat);
    }
  }

  /** Nothing else is refused with these codes. */
  lemma OtherDefects(line: Line, all: seq<Line>, regular: map<string, PricedLine>)
    ensures ParseVat(line).Err? ==> ParseVat(line).code != DISCOUNT_EXCEEDS_BASE && ParseVat(line).code != DISCOUNT_TARGET_MISMATCH
    ensures line.discount.Some? ==> Targets(line.discount.value.appliesTo, all, regular) != Err(DISCOUNT_EXCEEDS_BASE)
                                    && Targets(line.discount.value.appliesTo, all, regular) != Err(DISCOUNT_TARGET_MISMATCH)
  {
    NeverExceeding(line.vatRatePercent, 4);
    hide ParseDecimal, FlatMap;
  }

  lemma MismatchAt(line: Line, all: seq<Line>, regular: map<string, PricedLine>, ids: seq<string>, vat: real)
    requires Set(line, all, regular, ids, vat) && !Homogeneous(line, vat, Priced(ids, regular))
    ensures Mismatched(line, all, regular, ids, vat)
  {
    hide AimsAt, ParseDecimal, Homogeneous, Uniform;
    UniformIsHomogeneous(line, Priced(ids, regular), vat);
  }

  lemma ExceedsAt(line: Line, all: seq<Line>, regular: map<string, PricedLine>, ids: seq<string>, vat: real)
    requires Set(line, all, regular, ids, vat) && Homogeneous(line, vat, Priced(ids, regular))
    ensures Reduction(line.discount.value, SumBy(Priced(ids, regular), Charged())) == Err(DISCOUNT_EXCEEDS_BASE) ==>
              exists recurrence, v :: Exceeds(line, all, regular, ids, vat, recurrence, v)
  {
    hide AimsAt, ParseDecimal, Homogeneous, Uniform, Reduction, ValueOf, TooMuch, SumBy;
    var targets := Priced(ids, regular);
    UniformIsHomogeneous(line, targets, vat);
    TooMuchIsRefused(line.discount.value, SumBy(targets, Charged()));
    if v :| ValueOf(line.discount.value, v) && TooMuch(line.discount.value, v, SumBy(targets, Charged())) {
      assert Exceeds(line, all, regular, ids, vat, targets[0].recurrence, v);
    }
  }

  lemma ReductionErrors(d: DiscountSpec, baseCents: int)
    ensures Reduction(d, baseCents) != Err(DISCOUNT_TARGET_MISMATCH)
  {
    NeverExceeding(d.value, if d.kind == PERCENT then 4 else 6);
    hide ParseDecimal;
  }

  // ------------------------------------------------------------ in a priced schedule

  lemma FiledById(lines: seq<Line>, ctx: Ctx)
    requires PriceLines(lines, ctx).Ok?
    ensures Filed(RegularPass(lines, ctx).value)
  {
    hide RegularLine, DiscountLine, Assemble;
    PassIsPricedMap(lines, ctx);
  }

  /** Every discount of every priced schedule reads so from the result lines it aims at. */
  lemma PricedDiscount(lines: seq<Line>, ctx: Ctx, i: nat)
    requires PriceLines(lines, ctx).Ok? && i < |lines| && lines[i].kind == DISCOUNT
    ensures RegularPass(lines, ctx).Ok?
    ensures var (all, regular) := (PriceLines(lines, ctx).value, RegularPass(lines, ctx).value);
            && |all| == |lines|
            && (forall j :: 0 <= j < |lines| && lines[j].kind != DISCOUNT ==> lines[j].id in regular && regular[lines[j].id] == all[j])
            && exists ids, v, exact :: DiscountRead(lines[i], lines, regular, ctx.settings.rounding, ids, v, exact, all[i])
  {
    PricedExactlyWhen(lines, ctx);
    hide RegularLine, DiscountLine, PriceLines, RegularPass, DiscountRead, Filed;
    FiledById(lines, ctx);
    PricedLineByLine(lines, ctx, i);
    forall j | 0 <= j < |lines| && lines[j].kind != DISCOUNT
      ensures lines[j].id in RegularPass(lines, ctx).value && RegularPass(lines, ctx).value[lines[j].id] == PriceLines(lines, ctx).value[j]
    {
      PricedLineByLine(lines, ctx, j);
    }
    DiscountExactly(lines[i], lines, RegularPass(lines, ctx).value, ctx.settings, PriceLines(lines, ctx).value[i]);
  }
}

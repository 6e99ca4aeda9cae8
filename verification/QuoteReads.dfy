/**
 * What a quote shows, told from the model and from the configuration (packages/pricing/src/proposal.ts,
 * `toEngineLine`, `buildEngineLines`, `quoteProposal`): the lines of its schedule field by field, the targets of
 * its discounts, its minimum, and each line shown with its status.
 */
module QuoteReads {
  import opened Outcomes
  import opened Sums
  import opened Money
  import opened DecimalText
  import opened PricingTypes
  import opened Engine
  import opened Configuration
  import opened ConfigurationFacts
  import opened Proposals
  import DiscountReads

  // ------------------------------------------------------------- lines of the schedule

  /** The article of the grid for the choice made when the line has one, else the key of the line. */
  predicate CodeIs(l: ProposalLine, choices: map<string, string>, code: string) {
    match l.pricing
    case OnePrice(_) => code == if l.variants.Some? && "*" in l.variants.value then l.variants.value["*"] else l.key
    case ByChoice(choice, _) =>
      code == if l.variants.Some? && choice in choices && choices[choice] in l.variants.value then l.variants.value[choices[choice]] else l.key
  }

  predicate KindIs(l: ProposalLine, kind: LineKind) {
    match l.billing
    case OneTime => kind == SETUP_FEE
    case NotBilled => kind == (if l.hourly then HOURLY else UNIT)
    case _ => kind == UNIT
  }

  predicate RecurrenceIs(b: Billing, recurrence: Option<Recurrence>) {
    match b
    case OneTime => recurrence == None
    case NotBilled => recurrence == Some(ONE_OFF)
    case Monthly => recurrence == Some(MONTHLY)
    case Quarterly => recurrence == Some(QUARTERLY)
    case Yearly => recurrence == Some(YEARLY)
  }

  /** The price given at the choices made. */
  predicate PriceIs(p: UnitPricing, choices: map<string, string>, cents: int) {
    match p
    case OnePrice(given) => cents == given
    case ByChoice(choice, prices) => choice in choices && choices[choice] in prices && cents == prices[choices[choice]]
  }

  /** A line entered by hand: so many, at so many cents. */
  ghost predicate LineSays(line: Line, l: ProposalLine, qty: nat, cents: int, choices: map<string, string>, vat: string) {
    && CodeIs(l, choices, line.code) && KindIs(l, line.kind) && RecurrenceIs(l.billing, line.recurrence)
    && line == Line(l.key, line.code, line.kind, MANUAL, vat, Some(Fixed(NatText(qty))), line.recurrence, Some(CentsText(cents)),
                    None, None, None, None, None, None)
  }

  /** Charged: retained, not for information, in a whole quantity of at least one; at no price when it has none. */
  ghost predicate Charged(line: Line, l: ProposalLine, cfg: Configured, vat: string) {
    && l.kind != Info && l.key in cfg.included && cfg.included[l.key] >= 1.0 && cfg.included[l.key] == cfg.included[l.key].Floor as real
    && ((exists cents :: PriceIs(l.pricing, cfg.choices, cents) && LineSays(line, l, cfg.included[l.key].Floor, cents, cfg.choices, vat))
        || ((forall cents :: !PriceIs(l.pricing, cfg.choices, cents)) && LineSays(line, l, cfg.included[l.key].Floor, 0, cfg.choices, vat)))
  }

  /** Displayed: for information, at its price and for nothing. */
  ghost predicate Shown(line: Line, l: ProposalLine, cfg: Configured, vat: string) {
    l.kind == Info && exists cents :: PriceIs(l.pricing, cfg.choices, cents) && LineSays(line, l, 0, cents, cfg.choices, vat)
  }

  /** `ids` are, in order, the keys retained in some quantity. */
  ghost predicate Kept(keys: seq<string>, included: map<string, real>, ids: seq<string>) {
    exists at :: KeptAt(keys, included, at) && IdsAt(keys, at, ids)
  }

  ghost predicate KeptAt(keys: seq<string>, included: map<string, real>, at: seq<int>) {
    && (forall j, k :: 0 <= j < k < |at| ==> at[j] < at[k])
    && (forall i :: i in at <==> 0 <= i < |keys| && keys[i] in included && included[keys[i]] > 0.0)
  }

  ghost predicate IdsAt(keys: seq<string>, at: seq<int>, ids: seq<string>) {
    |ids| == |at| && forall k :: 0 <= k < |at| ==> 0 <= at[k] < |keys| && ids[k] == keys[at[k]]
  }

  /** A discount on the retained lines it names, once the line that triggers it is retained. */
  ghost predicate Discounts(line: Line, r: Rule, cfg: Configured, vat: string) {
    && r.DiscountPercent? && r.when in cfg.included
    && exists ids :: ids != [] && Kept(r.appliesTo, cfg.included, ids) && DiscountSays(line, r, ids, vat)
  }

  predicate DiscountSays(line: Line, r: Rule, ids: seq<string>, vat: string) {
    r.DiscountPercent? &&
    line == Line(r.key, r.key, DISCOUNT, MANUAL, vat, None, None, None, None, None, None, None, None, Some(DiscountSpec(PERCENT, r.percent, Lines(ids))))
  }

  lemma EngineLineSays(l: ProposalLine, qty: nat, cents: int, def: Definition, cfg: Configured)
    ensures forall line :: line == EngineLine(l, qty, cents, def, cfg) <==> LineSays(line, l, qty, cents, cfg.choices, def.vat)
  {
    hide NatText, CentsText;
  }

  lemma PriceIsGiven(l: ProposalLine, choices: map<string, string>)
    ensures forall cents :: UnitPriceCents(l, choices) == Some(cents) <==> PriceIs(l.pricing, choices, cents)
  {
  }

  lemma ChargedIsBilled(line: Line, l: ProposalLine, def: Definition, cfg: Configured)
    ensures line in Billed(def, cfg)(l) <==> Charged(line, l, cfg, def.vat)
    ensures line in Displayed(def, cfg)(l) <==> Shown(line, l, cfg, def.vat)
  {
    hide EngineLine, UnitPriceCents, PriceIs, LineSays;
    PriceIsGiven(l, cfg.choices);
    var price := UnitPriceCents(l, cfg.choices);
    EngineLineSays(l, Units(l, cfg), price.GetOr(0), def, cfg);
    EngineLineSays(l, 0, price.GetOr(0), def, cfg);
    if price.Some? {
      assert PriceIs(l.pricing, cfg.choices, price.value);
    }
  }

  lemma {:induction false} PlacesKept(keys: seq<string>, cfg: Configured) returns (at: seq<int>)
    ensures KeptAt(keys, cfg.included, at) && IdsAt(keys, at, FlatMap(keys, Present(cfg)))
  {
    if keys == [] {
      at := [];
    } else {
      var init, last := keys[..|keys| - 1], keys[|keys| - 1];
      assert keys == init + [last];
      at := PlacesKept(init, cfg);
      FlatMapSnoc(init, last, Present(cfg));
      hide FlatMap, KeptAt;
      NextKept(init, last, cfg.included, at);
      NextId(init, last, at, FlatMap(init, Present(cfg)));
      hide IdsAt;
      at := at + if last in cfg.included && cfg.included[last] > 0.0 then [|init|] else [];
    }
  }

  lemma NextId(init: seq<string>, last: string, at: seq<int>, ids: seq<string>)
    requires IdsAt(init, at, ids)
    ensures IdsAt(init + [last], at + [], ids + []) && IdsAt(init + [last], at + [|init|], ids + [last])
  {
    assert at + [] == at && ids + [] == ids;
  }

  lemma NextKept(init: seq<string>, last: string, included: map<string, real>, at: seq<int>)
    requires KeptAt(init, included, at)
    ensures KeptAt(init + [last], included, at + if last in included && included[last] > 0.0 then [|init|] else [])
  {
    var more := at + if last in included && included[last] > 0.0 then [|init|] else [];
    var keys := init + [last];
    forall j, k | 0 <= j < k < |more|
      ensures more[j] < more[k]
    {
      assert more[j] in at;
    }
    forall i
      ensures i in more <==> 0 <= i < |keys| && keys[i] in included && included[keys[i]] > 0.0
    {
      assert i in more <==> i in at || (i == |init| && last in included && included[last] > 0.0);
    }
  }

  lemma KeptIsPresent(keys: seq<string>, cfg: Configured)
    ensures forall ids :: Kept(keys, cfg.included, ids) <==> ids == FlatMap(keys, Present(cfg))
  {
    var at := PlacesKept(keys, cfg);
    forall ids
      ensures Kept(keys, cfg.included, ids) <==> ids == FlatMap(keys, Present(cfg))
    {
      if Kept(keys, cfg.included, ids) {
        var other :| KeptAt(keys, cfg.included, other) && IdsAt(keys, other, ids);
        assert forall i :: i in at <==> i in other;
        DiscountReads.SamePlaces(at, other);
      }
    }
  }

  lemma DiscountIsSaid(line: Line, r: Rule, def: Definition, cfg: Configured)
    ensures line in Proposals.Discounts(def, cfg)(r) <==> Discounts(line, r, cfg, def.vat)
  {
    if r.DiscountPercent? {
      hide Kept, FlatMap;
      KeptIsPresent(r.appliesTo, cfg);
      var ids := FlatMap(r.appliesTo, Present(cfg));
      assert Kept(r.appliesTo, cfg.included, ids);
      assert Discounts(line, r, cfg, def.vat) <==> r.when in cfg.included && ids != [] && DiscountSays(line, r, ids, def.vat);
    }
  }

  /** The lines priced first are those charged, those displayed and the discounts, and no others. */
  lemma LinesAreRead(line: Line, def: Definition, cfg: Configured)
    ensures line in EngineLines(def, cfg) <==>
              || (exists l :: l in def.lines && (Charged(line, l, cfg, def.vat) || Shown(line, l, cfg, def.vat)))
              || (exists r :: r in def.rules && Discounts(line, r, cfg, def.vat))
  {
    hide FlatMap, Charged, Shown, Discounts;
    FlatMapMembers(def.lines, Billed(def, cfg), line);
    FlatMapMembers(def.lines, Displayed(def, cfg), line);
    FlatMapMembers(def.rules, Proposals.Discounts(def, cfg), line);
    forall l | l in def.lines
      ensures line in Billed(def, cfg)(l) <==> Charged(line, l, cfg, def.vat)
      ensures line in Displayed(def, cfg)(l) <==> Shown(line, l, cfg, def.vat)
    {
      ChargedIsBilled(line, l, def, cfg);
    }
    forall r | r in def.rules
      ensures line in Proposals.Discounts(def, cfg)(r) <==> Discounts(line, r, cfg, def.vat)
    {
      DiscountIsSaid(line, r, def, cfg);
    }
  }

  // ------------------------------------------------------------------ the minimum

  /** The first monthly minimum of the model. */
  ghost predicate FirstMinimum(rules: seq<Rule>, i: int) {
    0 <= i < |rules| && rules[i].MinimumMonthly? && forall j :: 0 <= j < i ==> !rules[j].MinimumMonthly?
  }

  lemma {:induction false} MinimumFound(rules: seq<Rule>)
    ensures MinimumOf(rules).None? <==> forall r :: r in rules ==> !r.MinimumMonthly?
    ensures forall i :: FirstMinimum(rules, i) ==> MinimumOf(rules) == Some(rules[i])
    ensures MinimumOf(rules).Some? ==> exists i :: FirstMinimum(rules, i)
  {
    if rules != [] {
      MinimumFound(rules[1..]);
      assert rules == [rules[0]] + rules[1..];
      if rules[0].MinimumMonthly? {
        assert FirstMinimum(rules, 0);
      } else {
        forall i | FirstMinimum(rules, i)
          ensures MinimumOf(rules) == Some(rules[i])
        {
          assert FirstMinimum(rules[1..], i - 1);
        }
        if i :| FirstMinimum(rules[1..], i) {
          assert FirstMinimum(rules, i + 1);
        }
      }
    }
  }

  /** The complement: one more monthly line, for what is missing. */
  predicate ComplementSays(line: Line, r: Rule, missing: int, vat: string) {
    line == Line(r.key, r.key, FLAT_MONTHLY, MANUAL, vat, Some(Fixed("1")), None, Some(CentsText(missing)), None, None, None, None, None, None)
  }

  // ---------------------------------------------------------------- the lines shown

  /** The status of a price: of the variant chosen when it has one, of the line, of the rule, or validated. */
  ghost predicate StatusReads(key: string, def: Definition, choices: map<string, string>, status: PriceStatus) {
    if exists l :: l in def.lines && l.key == key then exists l :: l in def.lines && l.key == key && LineStatus(l, choices, status)
    else if exists r :: r in def.rules && r.key == key then exists i :: FirstOfKey(def.rules, key, i) && RuleSays(def.rules[i], status)
    else status == VALIDATED
  }

  predicate LineStatus(l: ProposalLine, choices: map<string, string>, status: PriceStatus) {
    status ==
    match l.pricing
    case OnePrice(_) => l.priceStatus
    case ByChoice(choice, _) =>
      if l.priceStatusByChoice.Some? && choice in choices && choices[choice] in l.priceStatusByChoice.value
      then l.priceStatusByChoice.value[choices[choice]]
      else l.priceStatus
  }

  ghost predicate FirstOfKey(rules: seq<Rule>, key: string, i: int) {
    0 <= i < |rules| && rules[i].key == key && forall j :: 0 <= j < i ==> rules[j].key != key
  }

  predicate RuleSays(r: Rule, status: PriceStatus) {
    if r.MinimumMonthly? || r.DiscountPercent? then status == r.status else status == VALIDATED
  }

  lemma {:induction false} RuleFound(rules: seq<Rule>, key: string)
    ensures RuleOf(rules, key).None? <==> forall r :: r in rules ==> r.key != key
    ensures forall i :: FirstOfKey(rules, key, i) ==> RuleOf(rules, key) == Some(rules[i])
    ensures RuleOf(rules, key).Some? ==> exists i :: FirstOfKey(rules, key, i)
  {
    if rules != [] {
      RuleFound(rules[1..], key);
      assert rules == [rules[0]] + rules[1..];
      if rules[0].key == key {
        assert FirstOfKey(rules, key, 0);
      } else {
        forall i | FirstOfKey(rules, key, i)
          ensures RuleOf(rules, key) == Some(rules[i])
        {
          assert FirstOfKey(rules[1..], key, i - 1);
        }
        if i :| FirstOfKey(rules[1..], key, i) {
          assert FirstOfKey(rules, key, i + 1);
        }
      }
    }
  }

  lemma {:induction false} LineFound(lines: seq<ProposalLine>, key: string)
    ensures LineOf(lines, key).None? <==> forall l :: l in lines ==> l.key != key
    ensures LineOf(lines, key).Some? ==> LineOf(lines, key).value in lines && LineOf(lines, key).value.key == key
  {
    if lines != [] {
      LineFound(lines[..|lines| - 1], key);
      assert lines == lines[..|lines| - 1] + [lines[|lines| - 1]];
    }
  }

  lemma StatusIsRead(key: string, def: Definition, cfg: Configured)
    requires DistinctKeys(def.lines)
    ensures forall status :: status == StatusOf(key, def, cfg) <==> StatusReads(key, def, cfg.choices, status)
  {
    LineFound(def.lines, key);
    RuleFound(def.rules, key);
    hide LineOf, RuleOf;
    if LineOf(def.lines, key).Some? {
      var l := LineOf(def.lines, key).value;
      forall m | m in def.lines && m.key == key
        ensures m == l
      {
        SameKeySameLine(def.lines, l, m);
      }
    } else if RuleOf(def.rules, key).Some? {
      var i :| FirstOfKey(def.rules, key, i);
    }
  }

  /** A line shown as it is priced: its unit price in cents, the whole amount for a discount. */
  ghost predicate ShownAs(q: QuotedLine, p: PricedLine, def: Definition, choices: map<string, string>) {
    && q.key == p.lineId && q.quantity == p.quantity && q.totalHtCents == p.totalHtCents
    && (p.kind == DISCOUNT ==> q.unitPriceCents == p.totalHtCents)
    && (p.kind != DISCOUNT ==> IsRounding(p.unitPrice * 100.0, q.unitPriceCents, HALF_AWAY_FROM_ZERO))
    && StatusReads(p.lineId, def, choices, q.priceStatus)
  }

  ghost predicate ForInformation(key: string, def: Definition) { exists l :: l in def.lines && l.key == key && l.kind == Info }

  lemma LineIsShown(q: QuotedLine, p: PricedLine, def: Definition, cfg: Configured)
    requires DistinctKeys(def.lines)
    ensures q == QuoteLine(p, def, cfg) <==> ShownAs(q, p, def, cfg.choices)
  {
    hide StatusOf, StatusReads, IsRounding, Round;
    StatusIsRead(p.lineId, def, cfg);
    RoundIsTheRounding(p.unitPrice * 100.0, q.unitPriceCents, HALF_AWAY_FROM_ZERO);
  }

  lemma InformationIsTold(p: PricedLine, def: Definition)
    requires DistinctKeys(def.lines)
    ensures IsInfo(p, def) <==> ForInformation(p.lineId, def)
  {
    LineFound(def.lines, p.lineId);
    hide LineOf;
    if LineOf(def.lines, p.lineId).Some? {
      var l := LineOf(def.lines, p.lineId).value;
      forall m | m in def.lines && m.key == p.lineId
        ensures m == l
      {
        SameKeySameLine(def.lines, l, m);
      }
    }
  }

  lemma ShownLines(lines: seq<PricedLine>, def: Definition, cfg: Configured, info: bool, q: QuotedLine)
    requires DistinctKeys(def.lines)
    ensures q in FlatMap(lines, Quoted(def, cfg, info))
            <==> exists p :: p in lines && (ForInformation(p.lineId, def) <==> info) && ShownAs(q, p, def, cfg.choices)
  {
    hide FlatMap, ShownAs, ForInformation, QuoteLine, IsInfo, DistinctKeys;
    FlatMapMembers(lines, Quoted(def, cfg, info), q);
    forall p | p in lines
      ensures q in Quoted(def, cfg, info)(p) <==> (ForInformation(p.lineId, def) <==> info) && ShownAs(q, p, def, cfg.choices)
    {
      LineIsShown(q, p, def, cfg);
      InformationIsTold(p, def);
    }
  }

  lemma {:induction false} EachShownOnce(lines: seq<PricedLine>, def: Definition, cfg: Configured)
    ensures |FlatMap(lines, Quoted(def, cfg, false))| + |FlatMap(lines, Quoted(def, cfg, true))| == |lines|
  {
    hide QuoteLine, IsInfo;
    if lines != [] {
      EachShownOnce(lines[..|lines| - 1], def, cfg);
    }
  }

  // --------------------------------------------------------------------- the quote

  /** Nothing can be priced: a quantity that is not a whole number, a line without price or a choice that is not offered. */
  ghost predicate NothingPriced(cfg: Configured) {
    || (exists k :: k in cfg.included && (cfg.included[k] < 0.0 || cfg.included[k] != cfg.included[k].Floor as real))
    || (exists e :: e in cfg.errors && (e.NoPrice? || e.InvalidChoice?))
  }

  /** The first lines, and the complement when what they charge each month is below the minimum of the model. */
  ghost predicate ScheduleReads(s: Schedule, def: Definition, cfg: Configured, opts: QuoteOptions) {
    && s.id == opts.scheduleId && s.validFrom == opts.date && s.validTo.None?
    && exists first :: FirstPriced(first, def, cfg, opts)
         && if forall i :: !FirstMinimum(def.rules, i) then s.lines == EngineLines(def, cfg)
            else forall i :: FirstMinimum(def.rules, i) ==> MinimumReads(s, first, def.rules[i], def, cfg)
  }

  ghost predicate FirstPriced(first: PricingResult, def: Definition, cfg: Configured, opts: QuoteOptions) {
    PriceAt(Alone(Schedule(opts.scheduleId, opts.date, None, EngineLines(def, cfg)), opts.settings), opts.date) == Ok(first)
  }

  ghost predicate MinimumReads(s: Schedule, first: PricingResult, r: Rule, def: Definition, cfg: Configured)
    requires r.MinimumMonthly?
  {
    if r.amountCents <= first.totals.monthlyLinesCents then s.lines == EngineLines(def, cfg)
    else
      && |s.lines| == |EngineLines(def, cfg)| + 1 && s.lines[..|s.lines| - 1] == EngineLines(def, cfg)
      && ComplementSays(s.lines[|s.lines| - 1], r, r.amountCents - first.totals.monthlyLinesCents, def.vat)
  }

  /** A schedule priced on its own: no index, override, quantity nor catalogue beside it. */
  function Alone(s: Schedule, settings: PartialSettings): PricingInput { PricingInput([s], [], [], [], [], settings, None, NoFormula) }

  lemma OneIsPrinted()
    ensures NatText(1) == "1"
  {
  }

  lemma ComplementIsSaid(s: Schedule, def: Definition, cfg: Configured, opts: QuoteOptions)
    requires PriceProposal(def, cfg, opts).Ok? && PriceProposal(def, cfg, opts).value.0 == s
    ensures ScheduleReads(s, def, cfg, opts) && PriceAt(Alone(s, opts.settings), opts.date) == Ok(PriceProposal(def, cfg, opts).value.1)
  {
    hide PriceAt, EngineLines, CentsText, NatText;
    MinimumFound(def.rules);
    OneIsPrinted();
    hide MinimumOf;
    var first := PriceAt(Alone(Schedule(opts.scheduleId, opts.date, None, EngineLines(def, cfg)), opts.settings), opts.date).value;
    assert FirstPriced(first, def, cfg, opts);
    forall i | FirstMinimum(def.rules, i)
      ensures MinimumReads(s, first, def.rules[i], def, cfg)
    {
    }
  }

  /**
   * Every quote, told from the model: nothing is priced exactly when a quantity or a choice forbids it; otherwise the
   * schedule is the one read so, priced alone, and each priced line is shown once, among the lines or for information.
   */
  lemma QuoteIsRead(def: Definition, sel: SelectionInput, opts: QuoteOptions, shown: QuotedLine)
    requires DistinctKeys(def.lines) && QuoteProposal(def, sel, opts).Ok?
    ensures var quote, cfg := QuoteProposal(def, sel, opts).value, Configure(def, sel);
            && quote.choices == cfg.choices && quote.quantities == cfg.included && quote.commitmentMonths == cfg.commitmentMonths
            && (quote.engineSchedule.None? <==> NothingPriced(cfg)) && (quote.engineResult.None? <==> NothingPriced(cfg))
            && (NothingPriced(cfg) ==> quote.errors == cfg.errors && quote.lines == [] == quote.infoLines)
            && (!NothingPriced(cfg) ==>
                  && ScheduleReads(quote.engineSchedule.value, def, cfg, opts)
                  && PriceAt(Alone(quote.engineSchedule.value, opts.settings), opts.date) == Ok(quote.engineResult.value)
                  && |quote.lines| + |quote.infoLines| == |quote.engineResult.value.lines|
                  && (shown in quote.lines <==>
                        exists p :: p in quote.engineResult.value.lines && !ForInformation(p.lineId, def) && ShownAs(shown, p, def, cfg.choices))
                  && (shown in quote.infoLines <==>
                        exists p :: p in quote.engineResult.value.lines && ForInformation(p.lineId, def) && ShownAs(shown, p, def, cfg.choices)))
  {
    hide Configure, PriceProposal, ResolveSettings, ScheduleReads, PriceAt, FlatMap, BucketFor, ShownAs, ForInformation, DistinctKeys;
    var cfg := Configure(def, sel);
    if Priceable(cfg) {
      var priced := PriceProposal(def, cfg, opts).value;
      ComplementIsSaid(priced.0, def, cfg, opts);
      ShownLines(priced.1.lines, def, cfg, false, shown);
      ShownLines(priced.1.lines, def, cfg, true, shown);
      EachShownOnce(priced.1.lines, def, cfg);
    }
  }
}

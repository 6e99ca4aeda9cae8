/**
 * What a configuration reads from the client and from the model (packages/pricing/src/proposal.ts, `configure`):
 * the quantity of each retained line, the duration, and each of its errors exactly.
 */
module ConfigurationReads {
  import opened Outcomes
  import opened Configuration
  import opened ConfigurationFacts

  // ------------------------------------------------------------------ quantities

  /** The client's quantity, else the default of the model, else the value of its tag, nothing without one. */
  predicate QuantityGiven(l: ProposalLine, sel: SelectionInput, q: real) {
    if l.key in sel.quantities then q == sel.quantities[l.key]
    else if l.quantity.None? then q == 0.0
    else match l.quantity.value.default
         case Number(v) => q == v
         case FromTag(tag) => q == if tag in sel.context then sel.context[tag] else 0.0
  }

  /** No quantity from the client, and a tag that the context does not resolve. */
  predicate TagUnresolved(l: ProposalLine, sel: SelectionInput) {
    l.key !in sel.quantities && l.quantity.Some? && l.quantity.value.default.FromTag? && l.quantity.value.default.tag !in sel.context
  }

  /** A line of commissioning takes the quantity of another one. */
  predicate TakesAnother(l: ProposalLine, other: string) {
    l.kind == Setup && l.quantity.Some? && l.quantity.value.linkedTo == Some(other) && other != ""
  }

  lemma OwnIsGiven(l: ProposalLine, sel: SelectionInput)
    ensures QuantityGiven(l, sel, RawQuantity(l, sel).GetOr(0.0))
    ensures RawQuantity(l, sel).None? <==> TagUnresolved(l, sel)
    ensures forall other :: TakesAnother(l, other) <==> Linked(l) == Some(other)
  {
  }

  /** The retained lines before commissioning follows, and the errors noted on the way. */
  function BeforeSetup(def: Definition, sel: SelectionInput): Retained {
    RulePasses(BasePass(def.lines, sel), def, sel)
  }

  lemma RetainedAreSound(def: Definition, sel: SelectionInput)
    requires DistinctKeys(def.lines)
    ensures Sound(BeforeSetup(def, sel), def, sel)
  {
    hide Sound, BasePass, RequiredPass, AutoPass;
    BaseIsSound(def.lines, def, sel);
    PassesAreSound(def.rules, BasePass(def.lines, sel), def, sel);
    PassesAreSound(def.rules, RequiredPass(def.rules, BasePass(def.lines, sel), def, sel), def, sel);
  }

  /** Commissioning leaves alone the lines that follow none that is retained. */
  lemma {:induction false} SetupLeaves(lines: seq<ProposalLine>, included: map<string, real>, k: string)
    requires k in included
    requires forall l :: l in lines && l.key == k && Linked(l).Some? ==> Linked(l).value !in SetupPass(lines, included)
    ensures k in SetupPass(lines, included) && SetupPass(lines, included)[k] == included[k]
  {
    hide Linked;
    if lines != [] {
      var init, last := lines[..|lines| - 1], lines[|lines| - 1];
      assert lines == init + [last];
      assert SetupPass(init, included).Keys <= SetupPass(lines, included).Keys;
      SetupLeaves(init, included, k);
    }
  }

  lemma {:induction false} SetupAdds(lines: seq<ProposalLine>, included: map<string, real>)
    ensures forall k :: k in SetupPass(lines, included) && k !in included ==>
              exists l :: l in lines && l.key == k && Linked(l).Some? && Linked(l).value in SetupPass(lines, included)
  {
    hide Linked;
    if lines != [] {
      var init, last := lines[..|lines| - 1], lines[|lines| - 1];
      assert lines == init + [last];
      SetupAdds(init, included);
    }
  }

  /**
   * Every retained line has the quantity the client gives, else the default of the model, else the value of
   * its tag; but a line of commissioning that follows a retained one, which takes its quantity.
   */
  lemma RetainedQuantities(def: Definition, sel: SelectionInput, l: ProposalLine)
    requires DistinctKeys(def.lines) && l in def.lines && l.key in Configure(def, sel).included
    requires forall other :: TakesAnother(l, other) ==> other !in Configure(def, sel).included
    ensures QuantityGiven(l, sel, Configure(def, sel).included[l.key])
  {
    hide Sound, BasePass, RulePasses, LineOf, ResolveChoices, ChoiceErrors, SelectionErrors, CheckErrors, CommitmentMonths, RawQuantity, Linked, TakesAnother, QuantityGiven;
    var retained := BeforeSetup(def, sel);
    RetainedAreSound(def, sel);
    OwnIsGiven(l, sel);
    LineOfOwnKey(def.lines, l);
    forall m | m in def.lines && m.key == l.key
      ensures m == l
    {
      SameKeySameLine(def.lines, l, m);
    }
    SetupAdds(def.lines, retained.included);
    SetupLeaves(def.lines, retained.included, l.key);
    OwnQuantityOf(retained, def, sel, l);
  }

  lemma OwnQuantityOf(st: Retained, def: Definition, sel: SelectionInput, l: ProposalLine)
    requires Sound(st, def, sel) && l.key in st.included && LineOf(def.lines, l.key) == Some(l)
    ensures st.included[l.key] == RawQuantity(l, sel).GetOr(0.0)
  {
    hide RawQuantity, LineOf;
  }

  // -------------------------------------------------------------------- duration

  /** A choice that bears durations: one of its options does. */
  predicate BearsDurations(c: Choice) { exists k :: 0 <= k < |c.options| && c.options[k].commitmentMonths.Some? }

  /** The first choice that bears durations, and the first of its options that has the value kept. */
  ghost predicate DurationFrom(def: Definition, choices: map<string, string>, i: int, j: int) {
    && 0 <= i < |def.choices| && BearsDurations(def.choices[i]) && (forall k :: 0 <= k < i ==> !BearsDurations(def.choices[k]))
    && def.choices[i].key in choices
    && var options, kept := def.choices[i].options, choices[def.choices[i].key];
       0 <= j < |options| && options[j].value == kept && forall k :: 0 <= k < j ==> options[k].value != kept
  }

  /** The duration of the commitment is that of the option kept, and nothing without one. */
  lemma DurationOfChoice(def: Definition, choices: map<string, string>)
    ensures forall i, j :: DurationFrom(def, choices, i, j) ==>
              var months := def.choices[i].options[j].commitmentMonths;
              CommitmentMonths(def, choices) == if months.Some? then months.value else 0
    ensures (forall i, j :: !DurationFrom(def, choices, i, j)) ==> CommitmentMonths(def, choices) == 0
  {
    forall c
      ensures Commits(c) <==> BearsDurations(c)
    {
      if Commits(c) {
        var o :| o in c.options && o.commitmentMonths.Some?;
        var k :| 0 <= k < |c.options| && c.options[k] == o;
      }
      if BearsDurations(c) {
        var k :| 0 <= k < |c.options| && c.options[k].commitmentMonths.Some?;
        assert c.options[k] in c.options;
      }
    }
    hide Commits, BearsDurations;
    forall i, j | DurationFrom(def, choices, i, j)
      ensures CommitmentChoice(def.choices) == Some(def.choices[i])
      ensures OptionOf(def.choices[i].options, choices[def.choices[i].key]) == Some(def.choices[i].options[j])
    {
      FirstThatCommits(def.choices, i);
      FirstOfValue(def.choices[i].options, choices[def.choices[i].key], j);
    }
    if CommitmentChoice(def.choices).Some? && CommitmentChoice(def.choices).value.key in choices {
      var i := PlaceOfChoice(def.choices);
      var options, kept := def.choices[i].options, choices[def.choices[i].key];
      if OptionOf(options, kept).Some? {
        var j := PlaceOfOption(options, kept);
        assert DurationFrom(def, choices, i, j);
      }
    }
  }

  lemma {:induction false} PlaceOfChoice(choices: seq<Choice>) returns (i: nat)
    requires CommitmentChoice(choices).Some?
    ensures i < |choices| && CommitmentChoice(choices) == Some(choices[i]) && Commits(choices[i]) && forall k :: 0 <= k < i ==> !Commits(choices[k])
  {
    hide Commits;
    if Commits(choices[0]) {
      i := 0;
    } else {
      i := PlaceOfChoice(choices[1..]);
      i := i + 1;
    }
  }

  lemma {:induction false} PlaceOfOption(options: seq<ChoiceOption>, value: string) returns (j: nat)
    requires OptionOf(options, value).Some?
    ensures j < |options| && options[j].value == value && forall k :: 0 <= k < j ==> options[k].value != value
  {
    if options[0].value == value {
      j := 0;
    } else {
      j := PlaceOfOption(options[1..], value);
      j := j + 1;
    }
  }

  lemma {:induction false} FirstThatCommits(choices: seq<Choice>, i: nat)
    requires i < |choices| && Commits(choices[i]) && forall k :: 0 <= k < i ==> !Commits(choices[k])
    ensures CommitmentChoice(choices) == Some(choices[i])
  {
    hide Commits;
    if i > 0 {
      FirstThatCommits(choices[1..], i - 1);
    }
  }

  lemma {:induction false} FirstOfValue(options: seq<ChoiceOption>, value: string, j: nat)
    requires j < |options| && options[j].value == value && forall k :: 0 <= k < j ==> options[k].value != value
    ensures OptionOf(options, value) == Some(options[j])
  {
    if j > 0 {
      FirstOfValue(options[1..], value, j - 1);
    }
  }

  /** The default of a choice is its first option marked so, else its first option. */
  lemma {:induction false} DefaultIsMarked(c: Choice, j: nat)
    requires j < |c.options|
    requires if c.options[j].default then forall k :: 0 <= k < j ==> !c.options[k].default
             else j == 0 && forall k :: 0 <= k < |c.options| ==> !c.options[k].default
    ensures DefaultChoice(c) == c.options[j].value
  {
    FirstMarked(c.options, j);
  }

  lemma {:induction false} FirstMarked(options: seq<ChoiceOption>, j: nat)
    requires j < |options|
    ensures options[j].default && (forall k :: 0 <= k < j ==> !options[k].default) ==> FirstDefault(options) == Some(options[j].value)
    ensures (forall k :: 0 <= k < |options| ==> !options[k].default) ==> FirstDefault(options) == None
  {
    if |options| > 1 {
      FirstMarked(options[1..], if j > 0 then j - 1 else 0);
      assert forall k :: 0 <= k < |options| - 1 ==> options[1..][k] == options[k + 1];
    }
  }

  /** A rule preselects the value of the first range that holds the field, ends included. */
  lemma {:induction false} PreselectsFirstRange(ranges: seq<Range>, v: real, j: nat)
    requires j < |ranges|
    requires (ranges[j].min.Some? ==> ranges[j].min.value <= v) && (ranges[j].max.Some? ==> v <= ranges[j].max.value)
    requires forall k :: 0 <= k < j ==> (ranges[k].min.Some? && ranges[k].min.value > v) || (ranges[k].max.Some? && v > ranges[k].max.value)
    ensures FirstRange(ranges, v) == Some(ranges[j].value)
  {
    if j > 0 {
      PreselectsFirstRange(ranges[1..], v, j - 1);
    }
  }

  // ---------------------------------------------------------------------- errors

  /** The configuration retains this quantity of the line. */
  predicate Has(c: Configured, k: string, q: real) { k in c.included && c.included[k] == q }

  predicate Present(c: Configured, k: string) { k in c.included && c.included[k] > 0.0 }

  predicate WholeNumber(q: real) { q >= 0.0 && q == q.Floor as real }

  /** The line of that key and its bounds, when its retained quantity is a whole number. */
  ghost predicate Bounded(def: Definition, c: Configured, k: string, l: ProposalLine, b: QuantityBounds) {
    l in def.lines && l.key == k && l.quantity == Some(b) && k in c.included && WholeNumber(c.included[k])
  }

  /** When each error is reported, told from the model, the client's input and what is retained. */
  ghost predicate Reported(e: ConfigError, def: Definition, sel: SelectionInput, c: Configured) {
    match e
    case InvalidChoice(k) =>
      exists h :: h in def.choices && h.key == k && !(k in c.choices && exists o :: o in h.options && o.value == c.choices[k])
    case UnknownChoice(k) => k in sel.choices && forall h :: h in def.choices ==> h.key != k
    case NotAnOption(k) => k in sel.selectedOptions && forall l :: l in def.lines && l.key == k ==> l.kind != Optional
    case UnknownLine(k) => k in sel.quantities && forall l :: l in def.lines ==> l.key != k
    case UnresolvedTag(k) => k in RuleKeys(def, sel) && exists l :: l in def.lines && l.key == k && TagUnresolved(l, sel)
    case BadQuantity(k) => k in c.included && !WholeNumber(c.included[k])
    case BelowMinimum(k) => exists l, b :: Bounded(def, c, k, l, b) && l.kind != Setup && c.included[k] < b.min
    case AboveMaximum(k) => exists l, b :: Bounded(def, c, k, l, b) && b.max.Some? && c.included[k] > b.max.value
    case AboveLimit(k) =>
      exists l, b :: Bounded(def, c, k, l, b) && b.maxFrom.Some? && b.maxFrom.value != ""
        && c.included[k] > if b.maxFrom.value in c.included then c.included[b.maxFrom.value] else 0.0
    case NotEditable(k) =>
      exists l, b :: Bounded(def, c, k, l, b) && l.kind != Setup && !b.editableByClient && k in sel.quantities
        && b.default.Number? && c.included[k] != b.default.value
    case MissingRequired(key) =>
      exists r :: r in def.rules && r.Requires? && r.key == key && r.line in c.included && exists k :: k in r.needs && k !in c.included
    case NoneSelected(key) =>
      exists r :: r in def.rules && r.AtLeastOne? && r.key == key && forall k :: k in r.lines ==> !Present(c, k)
    case NoPrice(k) => Present(c, k) && exists l :: l in def.lines && l.key == k && UnitPriceCents(l, c.choices).None?
    case DurationNotQuarterly => false
    case DurationNotYearly => false
  }

  lemma ChoiceErrorsAre(def: Definition, sel: SelectionInput, c: Configured, e: ConfigError)
    ensures e in ChoiceErrors(def, sel, c.choices) <==> (e.InvalidChoice? || e.UnknownChoice?) && Reported(e, def, sel, c)
  {
  }

  lemma SelectionErrorsAre(def: Definition, sel: SelectionInput, c: Configured, e: ConfigError)
    requires DistinctKeys(def.lines)
    ensures e in SelectionErrors(def, sel) <==> (e.NotAnOption? || e.UnknownLine?) && Reported(e, def, sel, c)
  {
    hide LineOf;
    if e.NotAnOption? || e.UnknownLine? {
      LineOfMembers(def.lines, e.key);
      forall l | l in def.lines && l.key == e.key
        ensures LineOf(def.lines, e.key) == Some(l)
      {
        LineOfOwnKey(def.lines, l);
      }
    }
  }

  lemma LineErrorsAre(def: Definition, sel: SelectionInput, c: Configured, k: string, e: ConfigError)
    requires DistinctKeys(def.lines) && k in c.included && LineOf(def.lines, k).Some?
    ensures e in LineErrors(k, def, c.included, sel)
            <==> (e.BadQuantity? || e.BelowMinimum? || e.AboveMaximum? || e.AboveLimit? || e.NotEditable?) && e.key == k && Reported(e, def, sel, c)
  {
    hide LineOf, RuleKeys, UnitPriceCents;
    var l := LineOf(def.lines, k).value;
    LineOfMembers(def.lines, k);
    forall m | m in def.lines && m.key == k
      ensures m == l
    {
      SameKeySameLine(def.lines, l, m);
    }
    BoundErrorsAre(l, c.included[k], c.included, sel, e);
    if l.quantity.Some? && ValidQuantity(c.included[k]) {
      assert Bounded(def, c, k, l, l.quantity.value);
    }
  }

  lemma BoundErrorsAre(l: ProposalLine, q: real, included: map<string, real>, sel: SelectionInput, e: ConfigError)
    ensures e in BoundErrors(l, q, included, sel) <==>
              || (e == BadQuantity(l.key) && !WholeNumber(q))
              || (WholeNumber(q) && l.quantity.Some?
                  && var b := l.quantity.value;
                     || (e == BelowMinimum(l.key) && l.kind != Setup && q < b.min)
                     || (e == AboveMaximum(l.key) && b.max.Some? && q > b.max.value)
                     || (e == AboveLimit(l.key) && b.maxFrom.Some? && b.maxFrom.value != ""
                         && q > if b.maxFrom.value in included then included[b.maxFrom.value] else 0.0)
                     || (e == NotEditable(l.key) && !b.editableByClient && l.kind != Setup && l.key in sel.quantities
                         && b.default.Number? && q != b.default.value))
  {
  }

  lemma RuleErrorsAre(def: Definition, sel: SelectionInput, c: Configured, e: ConfigError)
    ensures (exists r :: r in def.rules && e in RuleErrors(r, c.included))
            <==> (e.MissingRequired? || e.NoneSelected?) && Reported(e, def, sel, c)
  {
    hide RuleKeys, UnitPriceCents;
    forall r | r in def.rules
      ensures e in RuleErrors(r, c.included) <==>
                || (r.Requires? && e == MissingRequired(r.key) && r.line in c.included && exists k :: k in r.needs && k !in c.included)
                || (r.AtLeastOne? && e == NoneSelected(r.key) && forall k :: k in r.lines ==> !Present(c, k))
    {
      OneRuleErrors(r, c, e);
    }
  }

  lemma OneRuleErrors(r: Rule, c: Configured, e: ConfigError)
    ensures e in RuleErrors(r, c.included) <==>
              || (r.Requires? && e == MissingRequired(r.key) && r.line in c.included && exists k :: k in r.needs && k !in c.included)
              || (r.AtLeastOne? && e == NoneSelected(r.key) && forall k :: k in r.lines ==> !Present(c, k))
  {
    if r.AtLeastOne? {
      assert AnyOf(r.lines, c.included) <==> exists k :: k in r.lines && Present(c, k);
    }
  }

  lemma PriceErrorsAre(def: Definition, sel: SelectionInput, c: Configured, e: ConfigError)
    ensures (exists l :: l in def.lines && e in PriceErrors(l, c.included, c.choices)) <==> e.NoPrice? && Reported(e, def, sel, c)
  {
    hide RuleKeys, UnitPriceCents;
  }

  /** The tags left unresolved are those of the lines retained. */
  ghost predicate TagsOnly(st: Retained, def: Definition, sel: SelectionInput) {
    forall e :: e in st.errors <==>
      e.UnresolvedTag? && e.key in st.included && LineOf(def.lines, e.key).Some? && TagUnresolved(LineOf(def.lines, e.key).value, sel)
  }

  lemma IncludeNotes(st: Retained, l: ProposalLine, def: Definition, sel: SelectionInput)
    requires TagsOnly(st, def, sel) && LineOf(def.lines, l.key) == Some(l)
    ensures TagsOnly(Include(st, l, sel), def, sel)
  {
    hide LineOf, RawQuantity, TagUnresolved;
    OwnIsGiven(l, sel);
  }

  lemma {:induction false} BaseNotes(lines: seq<ProposalLine>, def: Definition, sel: SelectionInput)
    requires DistinctKeys(def.lines) && forall l :: l in lines ==> l in def.lines
    ensures TagsOnly(BasePass(lines, sel), def, sel)
  {
    hide LineOf, TagsOnly, RawQuantity;
    if lines == [] {
      assert TagsOnly(Retained(map[], {}), def, sel) by { NothingNoted(def, sel); }
    } else {
      var init, l := lines[..|lines| - 1], lines[|lines| - 1];
      assert l in lines && forall m :: m in init ==> m in lines;
      BaseNotes(init, def, sel);
      if Picked(l, sel) {
        LineOfOwnKey(def.lines, l);
        IncludeNotes(BasePass(init, sel), l, def, sel);
      }
    }
  }

  lemma NothingNoted(def: Definition, sel: SelectionInput)
    ensures TagsOnly(Retained(map[], {}), def, sel)
  {
  }

  lemma {:induction false} PassesNote(rules: seq<Rule>, st: Retained, def: Definition, sel: SelectionInput)
    requires TagsOnly(st, def, sel)
    ensures TagsOnly(RequiredPass(rules, st, def, sel), def, sel) && TagsOnly(AutoPass(rules, st, def, sel), def, sel)
  {
    hide TagsOnly, LineOf, AnyOf;
    if rules != [] {
      var init, r := rules[..|rules| - 1], rules[|rules| - 1];
      PassesNote(init, st, def, sel);
      if (r.RequiredIfAny? || r.AutoInclude?) && LineOf(def.lines, r.line).Some? {
        LineOfMembers(def.lines, r.line);
        IncludeNotes(RequiredPass(init, st, def, sel), LineOf(def.lines, r.line).value, def, sel);
        IncludeNotes(AutoPass(init, st, def, sel), LineOf(def.lines, r.line).value, def, sel);
      }
    }
  }

  lemma TagErrorsAre(def: Definition, sel: SelectionInput, c: Configured, e: ConfigError)
    requires DistinctKeys(def.lines)
    ensures e in BeforeSetup(def, sel).errors <==> e.UnresolvedTag? && Reported(e, def, sel, c)
  {
    hide LineOf, BasePass, RequiredPass, AutoPass, TagUnresolved, UnitPriceCents;
    BaseNotes(def.lines, def, sel);
    var base := BasePass(def.lines, sel);
    PassesNote(def.rules, base, def, sel);
    PassesNote(def.rules, RequiredPass(def.rules, base, def, sel), def, sel);
    KeysBeforeSetup(def, sel);
    if e.UnresolvedTag? {
      LineOfMembers(def.lines, e.key);
      forall l | l in def.lines && l.key == e.key
        ensures LineOf(def.lines, e.key) == Some(l)
      {
        LineOfOwnKey(def.lines, l);
      }
    }
  }

  lemma KeysBeforeSetup(def: Definition, sel: SelectionInput)
    requires DistinctKeys(def.lines)
    ensures BeforeSetup(def, sel).included.Keys == RuleKeys(def, sel)
  {
    hide BasePass, RequiredPass, AutoPass;
  }

  lemma CheckErrorsAre(def: Definition, sel: SelectionInput, c: Configured, e: ConfigError)
    ensures e in CheckErrors(def, sel, c.included, c.choices) <==>
              || (exists k :: k in c.included && e in LineErrors(k, def, c.included, sel))
              || (exists r :: r in def.rules && e in RuleErrors(r, c.included))
              || (exists l :: l in def.lines && e in PriceErrors(l, c.included, c.choices))
  {
    hide LineErrors, RuleErrors, PriceErrors;
  }

  lemma AllLineErrorsAre(def: Definition, sel: SelectionInput, c: Configured, e: ConfigError)
    requires DistinctKeys(def.lines) && forall k :: k in c.included ==> LineOf(def.lines, k).Some?
    ensures (exists k :: k in c.included && e in LineErrors(k, def, c.included, sel))
            <==> (e.BadQuantity? || e.BelowMinimum? || e.AboveMaximum? || e.AboveLimit? || e.NotEditable?) && Reported(e, def, sel, c)
  {
    hide LineErrors, LineOf, RuleKeys, UnitPriceCents;
    forall k | k in c.included
      ensures e in LineErrors(k, def, c.included, sel)
              <==> (e.BadQuantity? || e.BelowMinimum? || e.AboveMaximum? || e.AboveLimit? || e.NotEditable?) && e.key == k && Reported(e, def, sel, c)
    {
      LineErrorsAre(def, sel, c, k, e);
    }
  }

  /** A configuration reports exactly the errors that its input and what it retains call for. */
  lemma ErrorsExactly(def: Definition, sel: SelectionInput, e: ConfigError)
    requires DistinctKeys(def.lines)
    ensures e in Configure(def, sel).errors <==> Reported(e, def, sel, Configure(def, sel))
  {
    hide ResolveChoices, BasePass, RulePasses, SetupPass, ChoiceErrors, SelectionErrors, CheckErrors, CommitmentMonths, LineErrors, RuleErrors, PriceErrors;
    var c := Configure(def, sel);
    assert BeforeSetup(def, sel) == RulePasses(BasePass(def.lines, sel), def, sel);
    RetainedLines(def, sel);
    ChoiceErrorsAre(def, sel, c, e);
    SelectionErrorsAre(def, sel, c, e);
    TagErrorsAre(def, sel, c, e);
    CheckErrorsAre(def, sel, c, e);
    AllLineErrorsAre(def, sel, c, e);
    RuleErrorsAre(def, sel, c, e);
    PriceErrorsAre(def, sel, c, e);
  }
}

/** First step of a proposal: which lines are retained, in what quantity (packages/pricing/src/proposal.ts, `configure`). */
module Configuration {
  import opened Outcomes
  import opened Money

  datatype PriceStatus = VALIDATED | TO_VALIDATE

  datatype Billing = OneTime | Monthly | Quarterly | Yearly | NotBilled

  datatype ProposalKind = Required | Optional | Setup | Info

  /** A number, or a merge tag that the context resolves. */
  datatype DefaultQuantity = Number(value: real) | FromTag(tag: string)

  datatype QuantityBounds = QuantityBounds(
    default: DefaultQuantity, min: real, max: Option<real>, maxFrom: Option<string>, linkedTo: Option<string>, editableByClient: bool)

  datatype UnitPricing = OnePrice(cents: int) | ByChoice(dependsOn: string, byChoice: map<string, int>)

  datatype ProposalLine = ProposalLine(
    key: string, kind: ProposalKind, billing: Billing, hourly: bool, quantity: Option<QuantityBounds>, pricing: UnitPricing,
    priceStatus: PriceStatus, priceStatusByChoice: Option<map<string, PriceStatus>>, variants: Option<map<string, string>>)

  datatype ChoiceOption = ChoiceOption(value: string, default: bool, commitmentMonths: Option<nat>)

  datatype Choice = Choice(key: string, options: seq<ChoiceOption>)

  datatype Range = Range(min: Option<real>, max: Option<real>, value: string)

  datatype Rule =
    | MinimumMonthly(key: string, amountCents: int, status: PriceStatus)
    | Requires(key: string, line: string, needs: seq<string>)
    | RequiredIfAny(key: string, line: string, ifAny: seq<string>)
    | AutoInclude(key: string, line: string, when: string)
    | AtLeastOne(key: string, lines: seq<string>)
    | DiscountPercent(key: string, percent: string, appliesTo: seq<string>, when: string, status: PriceStatus)
    | PreselectChoice(key: string, choice: string, field: string, ranges: seq<Range>)

  datatype Definition = Definition(choices: seq<Choice>, lines: seq<ProposalLine>, rules: seq<Rule>, vat: string)

  /** `context` holds the fields whose value is a finite number. */
  datatype SelectionInput = SelectionInput(
    choices: map<string, string>, quantities: map<string, real>, selectedOptions: set<string>, context: map<string, real>)

  datatype ConfigError =
    | InvalidChoice(key: string) | UnknownChoice(key: string) | NotAnOption(key: string) | UnknownLine(key: string)
    | UnresolvedTag(key: string) | BadQuantity(key: string) | BelowMinimum(key: string) | AboveMaximum(key: string)
    | AboveLimit(key: string) | NotEditable(key: string) | MissingRequired(key: string) | NoneSelected(key: string)
    | NoPrice(key: string) | DurationNotQuarterly | DurationNotYearly

  datatype Configured = Configured(
    choices: map<string, string>, commitmentMonths: nat, included: map<string, real>, errors: set<ConfigError>)

  // ------------------------------------------------------------------- choices

  function FirstDefault(options: seq<ChoiceOption>): Option<string> {
    if options == [] then None
    else if options[0].default then Some(options[0].value)
    else FirstDefault(options[1..])
  }

  function DefaultChoice(c: Choice): string {
    FirstDefault(c.options).GetOr(if c.options == [] then "" else c.options[0].value)
  }

  function Defaults(choices: seq<Choice>): map<string, string> {
    if choices == [] then map[]
    else
      var c := choices[|choices| - 1];
      Defaults(choices[..|choices| - 1])[c.key := DefaultChoice(c)]
  }

  predicate InRange(r: Range, v: real) {
    (r.min.Some? ==> r.min.value <= v) && (r.max.Some? ==> v <= r.max.value)
  }

  function FirstRange(ranges: seq<Range>, v: real): Option<string> {
    if ranges == [] then None
    else if InRange(ranges[0], v) then Some(ranges[0].value)
    else FirstRange(ranges[1..], v)
  }

  function Preselect(r: Rule, out: map<string, string>, sel: SelectionInput): map<string, string> {
    if !r.PreselectChoice? || r.field !in sel.context then out
    else
      var hit := FirstRange(r.ranges, sel.context[r.field]);
      if hit.None? then out else out[r.choice := hit.value]
  }

  function Preselected(rules: seq<Rule>, out: map<string, string>, sel: SelectionInput): map<string, string> {
    if rules == [] then out else Preselect(rules[|rules| - 1], Preselected(rules[..|rules| - 1], out, sel), sel)
  }

  /** Default of the model, then preselection by the context, then the explicit choice. */
  function ResolveChoices(def: Definition, sel: SelectionInput): map<string, string> {
    Preselected(def.rules, Defaults(def.choices), sel) + sel.choices
  }

  predicate Offers(c: Choice, value: string) { exists o :: o in c.options && o.value == value }

  function ChoiceErrors(def: Definition, sel: SelectionInput, choices: map<string, string>): set<ConfigError> {
    (set c | c in def.choices && !(c.key in choices && Offers(c, choices[c.key])) :: InvalidChoice(c.key))
    + (set k | k in sel.choices && !(exists c :: c in def.choices && c.key == k) :: UnknownChoice(k))
  }

  predicate Commits(c: Choice) { exists o :: o in c.options && o.commitmentMonths.Some? }

  function CommitmentChoice(choices: seq<Choice>): Option<Choice> {
    if choices == [] then None
    else if Commits(choices[0]) then Some(choices[0])
    else CommitmentChoice(choices[1..])
  }

  function OptionOf(options: seq<ChoiceOption>, value: string): Option<ChoiceOption> {
    if options == [] then None
    else if options[0].value == value then Some(options[0])
    else OptionOf(options[1..], value)
  }

  function CommitmentMonths(def: Definition, choices: map<string, string>): nat {
    var c := CommitmentChoice(def.choices);
    if c.None? || c.value.key !in choices then 0
    else
      var o := OptionOf(c.value.options, choices[c.value.key]);
      if o.None? then 0 else o.value.commitmentMonths.GetOr(0)
  }

  function UnitPriceCents(l: ProposalLine, choices: map<string, string>): Option<int> {
    match l.pricing
    case OnePrice(cents) => Some(cents)
    case ByChoice(dependsOn, byChoice) =>
      if dependsOn in choices && choices[dependsOn] in byChoice then Some(byChoice[choices[dependsOn]]) else None
  }

  // ---------------------------------------------------------------- quantities

  /** The line of that key; the last one when a key is repeated. */
  function LineOf(lines: seq<ProposalLine>, key: string): Option<ProposalLine> {
    if lines == [] then None
    else if lines[|lines| - 1].key == key then Some(lines[|lines| - 1])
    else LineOf(lines[..|lines| - 1], key)
  }

  /** Explicit quantity, else default, else the value of its tag; none when the tag is unresolved. */
  function RawQuantity(l: ProposalLine, sel: SelectionInput): Option<real> {
    if l.key in sel.quantities then Some(sel.quantities[l.key])
    else if l.quantity.None? then Some(0.0)
    else
      match l.quantity.value.default
      case Number(v) => Some(v)
      case FromTag(tag) => if tag in sel.context then Some(sel.context[tag]) else None
  }

  /** Retained lines with their quantities, and the tags left unresolved on the way. */
  datatype Retained = Retained(included: map<string, real>, errors: set<ConfigError>)

  function Include(st: Retained, l: ProposalLine, sel: SelectionInput): Retained {
    Retained(st.included[l.key := RawQuantity(l, sel).GetOr(0.0)],
             st.errors + if RawQuantity(l, sel).None? then {UnresolvedTag(l.key)} else {})
  }

  function Quantity(included: map<string, real>, key: string): real {
    if key in included then included[key] else 0.0
  }

  predicate Picked(l: ProposalLine, sel: SelectionInput) {
    l.kind == Required || (l.kind == Optional && l.key in sel.selectedOptions)
  }

  function BasePass(lines: seq<ProposalLine>, sel: SelectionInput): Retained {
    if lines == [] then Retained(map[], {})
    else
      var before, l := BasePass(lines[..|lines| - 1], sel), lines[|lines| - 1];
      if Picked(l, sel) then Include(before, l, sel) else before
  }

  predicate AnyOf(keys: seq<string>, included: map<string, real>) {
    exists k :: k in keys && Quantity(included, k) > 0.0
  }

  function RequiredStep(r: Rule, st: Retained, def: Definition, sel: SelectionInput): Retained {
    if !r.RequiredIfAny? then st
    else
      var target := LineOf(def.lines, r.line);
      if target.Some? && AnyOf(r.ifAny, st.included) && r.line !in st.included then Include(st, target.value, sel) else st
  }

  function AutoStep(r: Rule, st: Retained, def: Definition, sel: SelectionInput): Retained {
    if !r.AutoInclude? then st
    else
      var target := LineOf(def.lines, r.line);
      if target.Some? && r.when in st.included && target.value.kind != Setup && r.line !in st.included
      then Include(st, target.value, sel) else st
  }

  function RequiredPass(rules: seq<Rule>, st: Retained, def: Definition, sel: SelectionInput): Retained {
    if rules == [] then st else RequiredStep(rules[|rules| - 1], RequiredPass(rules[..|rules| - 1], st, def, sel), def, sel)
  }

  function AutoPass(rules: seq<Rule>, st: Retained, def: Definition, sel: SelectionInput): Retained {
    if rules == [] then st else AutoStep(rules[|rules| - 1], AutoPass(rules[..|rules| - 1], st, def, sel), def, sel)
  }

  /** The two inclusion passes, each rule once, in order. */
  function RulePasses(st: Retained, def: Definition, sel: SelectionInput): Retained {
    AutoPass(def.rules, RequiredPass(def.rules, st, def, sel), def, sel)
  }

  function Linked(l: ProposalLine): Option<string> {
    if l.kind != Setup || l.quantity.None? || l.quantity.value.linkedTo == Some("") then None else l.quantity.value.linkedTo
  }

  /** A setup line takes the quantity of the line it is linked to. */
  function SetupStep(l: ProposalLine, included: map<string, real>): map<string, real> {
    var linked := Linked(l);
    if linked.Some? && linked.value in included then included[l.key := included[linked.value]] else included
  }

  function SetupPass(lines: seq<ProposalLine>, included: map<string, real>): map<string, real> {
    if lines == [] then included else SetupStep(lines[|lines| - 1], SetupPass(lines[..|lines| - 1], included))
  }

  // -------------------------------------------------------------------- checks

  predicate ValidQuantity(q: real) { IsWhole(q) && q >= 0.0 }

  function Flag(bad: bool, e: ConfigError): set<ConfigError> { if bad then {e} else {} }

  function BoundErrors(l: ProposalLine, q: real, included: map<string, real>, sel: SelectionInput): set<ConfigError> {
    if !ValidQuantity(q) then {BadQuantity(l.key)}
    else if l.quantity.None? then {}
    else
      var b := l.quantity.value;
      Flag(l.kind != Setup && q < b.min, BelowMinimum(l.key))
      + Flag(b.max.Some? && q > b.max.value, AboveMaximum(l.key))
      + Flag(b.maxFrom.Some? && b.maxFrom.value != "" && q > Quantity(included, b.maxFrom.value), AboveLimit(l.key))
      + Flag(!b.editableByClient && l.kind != Setup && l.key in sel.quantities && b.default.Number? && q != b.default.value, NotEditable(l.key))
  }

  function LineErrors(k: string, def: Definition, included: map<string, real>, sel: SelectionInput): set<ConfigError>
    requires k in included
  {
    var l := LineOf(def.lines, k);
    if l.None? then {} else BoundErrors(l.value, included[k], included, sel)
  }

  function RuleErrors(r: Rule, included: map<string, real>): set<ConfigError> {
    match r
    case Requires(key, line, needed) => Flag(line in included && exists k :: k in needed && k !in included, MissingRequired(key))
    case AtLeastOne(key, lines) => Flag(!AnyOf(lines, included), NoneSelected(key))
    case _ => {}
  }

  function PriceErrors(l: ProposalLine, included: map<string, real>, choices: map<string, string>): set<ConfigError> {
    Flag(Quantity(included, l.key) > 0.0 && UnitPriceCents(l, choices).None?, NoPrice(l.key))
  }

  function SelectionErrors(def: Definition, sel: SelectionInput): set<ConfigError> {
    (set k | k in sel.selectedOptions && !(LineOf(def.lines, k).Some? && LineOf(def.lines, k).value.kind == Optional) :: NotAnOption(k))
    + (set k | k in sel.quantities && LineOf(def.lines, k).None? :: UnknownLine(k))
  }

  function CheckErrors(def: Definition, sel: SelectionInput, included: map<string, real>, choices: map<string, string>): set<ConfigError> {
    (set k, e | k in included && e in LineErrors(k, def, included, sel) :: e)
    + (set r, e | r in def.rules && e in RuleErrors(r, included) :: e)
    + (set l, e | l in def.lines && e in PriceErrors(l, included, choices) :: e)
  }

  function Configure(def: Definition, sel: SelectionInput): Configured {
    var choices := ResolveChoices(def, sel);
    var retained := RulePasses(BasePass(def.lines, sel), def, sel);
    var included := SetupPass(def.lines, retained.included);
    Configured(choices, CommitmentMonths(def, choices), included,
               ChoiceErrors(def, sel, choices) + SelectionErrors(def, sel) + retained.errors + CheckErrors(def, sel, included, choices))
  }

  // ------------------------------------------------------- the imperative form

  /** The map of retained lines and the errors, updated by one loop after the other. */
  method RetainLines(def: Definition, sel: SelectionInput) returns (included: map<string, real>, errors: set<ConfigError>)
    ensures included == SetupPass(def.lines, RulePasses(BasePass(def.lines, sel), def, sel).included)
    ensures errors == RulePasses(BasePass(def.lines, sel), def, sel).errors
  {
    hide LineOf, RawQuantity, AnyOf;
    var st := Retained(map[], {});
    for i := 0 to |def.lines|
      invariant st == BasePass(def.lines[..i], sel)
    {
      assert def.lines[..i + 1][..i] == def.lines[..i];
      if Picked(def.lines[i], sel) {
        st := Include(st, def.lines[i], sel);
      }
    }
    assert def.lines[..|def.lines|] == def.lines;
    ghost var base := st;
    for i := 0 to |def.rules|
      invariant st == RequiredPass(def.rules[..i], base, def, sel)
    {
      assert def.rules[..i + 1][..i] == def.rules[..i];
      st := RequiredStep(def.rules[i], st, def, sel);
    }
    assert def.rules[..|def.rules|] == def.rules;
    ghost var required := st;
    for i := 0 to |def.rules|
      invariant st == AutoPass(def.rules[..i], required, def, sel)
    {
      assert def.rules[..i + 1][..i] == def.rules[..i];
      st := AutoStep(def.rules[i], st, def, sel);
    }
    included, errors := st.included, st.errors;
    for i := 0 to |def.lines|
      invariant included == SetupPass(def.lines[..i], st.included)
    {
      assert def.lines[..i + 1][..i] == def.lines[..i];
      included := SetupStep(def.lines[i], included);
    }
  }

  method CheckConfiguration(def: Definition, sel: SelectionInput, included: map<string, real>, choices: map<string, string>)
    returns (errors: set<ConfigError>)
    ensures errors == CheckErrors(def, sel, included, choices)
  {
    hide LineErrors, RuleErrors, PriceErrors;
    errors := {};
    var keys := included.Keys;
    while keys != {}
      invariant keys <= included.Keys
      invariant errors == set k, e | k in included.Keys - keys && e in LineErrors(k, def, included, sel) :: e
      decreases keys
    {
      var k :| k in keys;
      ghost var done := included.Keys - keys;
      errors := errors + LineErrors(k, def, included, sel);
      keys := keys - {k};
      assert included.Keys - keys == done + {k};
    }
    assert included.Keys - keys == included.Keys;
    var ruleErrors: set<ConfigError> := {};
    for i := 0 to |def.rules|
      invariant ruleErrors == set r, e | r in def.rules[..i] && e in RuleErrors(r, included) :: e
    {
      assert def.rules[..i + 1] == def.rules[..i] + [def.rules[i]];
      ruleErrors := ruleErrors + RuleErrors(def.rules[i], included);
    }
    assert def.rules[..|def.rules|] == def.rules;
    var priceErrors: set<ConfigError> := {};
    for i := 0 to |def.lines|
      invariant priceErrors == set l, e | l in def.lines[..i] && e in PriceErrors(l, included, choices) :: e
    {
      assert def.lines[..i + 1] == def.lines[..i] + [def.lines[i]];
      priceErrors := priceErrors + PriceErrors(def.lines[i], included, choices);
    }
    assert def.lines[..|def.lines|] == def.lines;
    errors := errors + ruleErrors + priceErrors;
  }

  method RunConfigure(def: Definition, sel: SelectionInput) returns (c: Configured)
    ensures c == Configure(def, sel)
  {
    hide ResolveChoices, ChoiceErrors, SelectionErrors, RulePasses, BasePass, SetupPass, CheckErrors, CommitmentMonths;
    var choices := ResolveChoices(def, sel);
    var included, tagErrors := RetainLines(def, sel);
    var checkErrors := CheckConfiguration(def, sel, included, choices);
    c := Configured(choices, CommitmentMonths(def, choices), included,
                    ChoiceErrors(def, sel, choices) + SelectionErrors(def, sel) + tagErrors + checkErrors);
  }
}

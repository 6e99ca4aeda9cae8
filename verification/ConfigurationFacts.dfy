/** What a configuration without errors promises, and what one pass of the inclusion rules reaches. */
module ConfigurationFacts {
  import opened Outcomes
  import opened Configuration

  ghost predicate DistinctKeys(lines: seq<ProposalLine>) {
    forall i, j :: 0 <= i < j < |lines| ==> lines[i].key != lines[j].key
  }

  lemma {:induction false} LineOfMembers(lines: seq<ProposalLine>, key: string)
    ensures LineOf(lines, key).Some? <==> exists l :: l in lines && l.key == key
    ensures LineOf(lines, key).Some? ==> LineOf(lines, key).value in lines && LineOf(lines, key).value.key == key
  {
    if lines != [] {
      LineOfMembers(lines[..|lines| - 1], key);
      assert lines == lines[..|lines| - 1] + [lines[|lines| - 1]];
    }
  }

  lemma LineOfOwnKey(lines: seq<ProposalLine>, l: ProposalLine)
    requires DistinctKeys(lines) && l in lines
    ensures LineOf(lines, l.key) == Some(l)
  {
    LineOfMembers(lines, l.key);
    SameKeySameLine(lines, l, LineOf(lines, l.key).value);
  }

  lemma SameKeySameLine(lines: seq<ProposalLine>, l: ProposalLine, m: ProposalLine)
    requires DistinctKeys(lines) && l in lines && m in lines && l.key == m.key
    ensures l == m
  {
    var i :| 0 <= i < |lines| && lines[i] == l;
    var j :| 0 <= j < |lines| && lines[j] == m;
  }

  // ------------------------------------------------------ what is retained and why

  /** The quantity that a retained line has before setup lines are linked. */
  function OwnQuantity(k: string, def: Definition, sel: SelectionInput): real {
    var l := LineOf(def.lines, k);
    if l.None? then 0.0 else RawQuantity(l.value, sel).GetOr(0.0)
  }

  /** Every retained key is a line at its own quantity, its unresolved tag noted. */
  ghost predicate Sound(st: Retained, def: Definition, sel: SelectionInput) {
    forall k :: k in st.included ==>
      && LineOf(def.lines, k).Some?
      && st.included[k] == OwnQuantity(k, def, sel)
      && (RawQuantity(LineOf(def.lines, k).value, sel).None? ==> UnresolvedTag(k) in st.errors)
  }

  lemma IncludeIsSound(st: Retained, l: ProposalLine, def: Definition, sel: SelectionInput)
    requires Sound(st, def, sel) && LineOf(def.lines, l.key) == Some(l)
    ensures Sound(Include(st, l, sel), def, sel)
  {
    hide LineOf, RawQuantity;
  }

  function BaseKeys(lines: seq<ProposalLine>, sel: SelectionInput): set<string> {
    set l | l in lines && Picked(l, sel) :: l.key
  }

  lemma {:induction false} BaseIsSound(lines: seq<ProposalLine>, def: Definition, sel: SelectionInput)
    requires DistinctKeys(def.lines) && forall l :: l in lines ==> l in def.lines
    ensures Sound(BasePass(lines, sel), def, sel)
    ensures BasePass(lines, sel).included.Keys == BaseKeys(lines, sel)
  {
    hide Sound, LineOf, RawQuantity;
    if lines == [] {
      assert Sound(BasePass(lines, sel), def, sel) by { EmptyIsSound(def, sel); }
    } else {
      var init, l := lines[..|lines| - 1], lines[|lines| - 1];
      assert lines == init + [l];
      BaseIsSound(init, def, sel);
      LineOfOwnKey(def.lines, l);
      if Picked(l, sel) {
        IncludeIsSound(BasePass(init, sel), l, def, sel);
        assert BaseKeys(lines, sel) == BaseKeys(init, sel) + {l.key};
      } else {
        assert BaseKeys(lines, sel) == BaseKeys(init, sel);
      }
    }
  }

  lemma EmptyIsSound(def: Definition, sel: SelectionInput)
    ensures Sound(Retained(map[], {}), def, sel)
  {
  }

  /** In a sound state, a rule step adds at most its line and keeps the state sound. */
  lemma StepIsSound(r: Rule, st: Retained, def: Definition, sel: SelectionInput)
    requires Sound(st, def, sel)
    ensures Sound(RequiredStep(r, st, def, sel), def, sel) && Sound(AutoStep(r, st, def, sel), def, sel)
  {
    hide Sound, AnyOf, RawQuantity;
    if r.RequiredIfAny? {
      LineOfMembers(def.lines, r.line);
      if LineOf(def.lines, r.line).Some? {
        IncludeIsSound(st, LineOf(def.lines, r.line).value, def, sel);
      }
    }
    if r.AutoInclude? {
      LineOfMembers(def.lines, r.line);
      if LineOf(def.lines, r.line).Some? {
        IncludeIsSound(st, LineOf(def.lines, r.line).value, def, sel);
      }
    }
  }

  lemma {:induction false} PassesAreSound(rules: seq<Rule>, st: Retained, def: Definition, sel: SelectionInput)
    requires Sound(st, def, sel)
    ensures Sound(RequiredPass(rules, st, def, sel), def, sel) && Sound(AutoPass(rules, st, def, sel), def, sel)
  {
    hide Sound, RequiredStep, AutoStep;
    if rules != [] {
      PassesAreSound(rules[..|rules| - 1], st, def, sel);
      StepIsSound(rules[|rules| - 1], RequiredPass(rules[..|rules| - 1], st, def, sel), def, sel);
      StepIsSound(rules[|rules| - 1], AutoPass(rules[..|rules| - 1], st, def, sel), def, sel);
    }
  }

  // -------------------------------------------------------- the rules as a closure

  /** The rule asks for its line in the set of keys, quantities being each line's own. */
  predicate Triggered(r: Rule, keys: set<string>, def: Definition, sel: SelectionInput) {
    match r
    case RequiredIfAny(_, line, ifAny) =>
      LineOf(def.lines, line).Some? && exists k :: k in ifAny && k in keys && OwnQuantity(k, def, sel) > 0.0
    case AutoInclude(_, line, when) =>
      LineOf(def.lines, line).Some? && LineOf(def.lines, line).value.kind != Setup && when in keys
    case _ => false
  }

  function Target(r: Rule): string {
    match r
    case RequiredIfAny(_, line, _) => line
    case AutoInclude(_, line, _) => line
    case _ => ""
  }

  ghost predicate Closed(keys: set<string>, def: Definition, sel: SelectionInput) {
    forall r :: r in def.rules && Triggered(r, keys, def, sel) ==> Target(r) in keys
  }

  /** What one step does to the keys of a sound state. */
  lemma StepKeys(r: Rule, st: Retained, def: Definition, sel: SelectionInput)
    requires Sound(st, def, sel)
    ensures RequiredStep(r, st, def, sel).included.Keys
         == st.included.Keys + (if r.RequiredIfAny? && Triggered(r, st.included.Keys, def, sel) then {Target(r)} else {})
    ensures AutoStep(r, st, def, sel).included.Keys
         == st.included.Keys + (if r.AutoInclude? && Triggered(r, st.included.Keys, def, sel) then {Target(r)} else {})
  {
    hide RawQuantity, LineOf, OwnQuantity;
    if r.RequiredIfAny? {
      LineOfMembers(def.lines, r.line);
      assert AnyOf(r.ifAny, st.included) <==> exists k :: k in r.ifAny && k in st.included.Keys && OwnQuantity(k, def, sel) > 0.0 by {
        assert forall k :: k in r.ifAny && Quantity(st.included, k) > 0.0 ==> k in st.included.Keys && OwnQuantity(k, def, sel) > 0.0;
        assert forall k :: k in r.ifAny && k in st.included.Keys && OwnQuantity(k, def, sel) > 0.0 ==> Quantity(st.included, k) > 0.0;
      }
    }
    if r.AutoInclude? {
      LineOfMembers(def.lines, r.line);
    }
  }

  lemma TriggeredGrows(r: Rule, keys: set<string>, more: set<string>, def: Definition, sel: SelectionInput)
    requires Triggered(r, keys, def, sel) && keys <= more
    ensures Triggered(r, more, def, sel)
  {
    hide OwnQuantity, LineOf;
  }

  function RequiredKeys(rules: seq<Rule>, st: Retained, def: Definition, sel: SelectionInput): set<string> {
    RequiredPass(rules, st, def, sel).included.Keys
  }

  function AutoKeys(rules: seq<Rule>, st: Retained, def: Definition, sel: SelectionInput): set<string> {
    AutoPass(rules, st, def, sel).included.Keys
  }

  lemma LastStepKeys(rules: seq<Rule>, st: Retained, def: Definition, sel: SelectionInput)
    requires Sound(st, def, sel) && rules != []
    ensures var init, r := rules[..|rules| - 1], rules[|rules| - 1];
            && RequiredKeys(rules, st, def, sel) == RequiredKeys(init, st, def, sel)
               + (if r.RequiredIfAny? && Triggered(r, RequiredKeys(init, st, def, sel), def, sel) then {Target(r)} else {})
            && AutoKeys(rules, st, def, sel) == AutoKeys(init, st, def, sel)
               + (if r.AutoInclude? && Triggered(r, AutoKeys(init, st, def, sel), def, sel) then {Target(r)} else {})
  {
    hide Sound, RequiredStep, AutoStep, Triggered;
    var init, r := rules[..|rules| - 1], rules[|rules| - 1];
    PassesAreSound(init, st, def, sel);
    StepKeys(r, RequiredPass(init, st, def, sel), def, sel);
    StepKeys(r, AutoPass(init, st, def, sel), def, sel);
  }

  lemma {:induction false} PassesGrow(rules: seq<Rule>, st: Retained, def: Definition, sel: SelectionInput)
    requires Sound(st, def, sel)
    ensures st.included.Keys <= RequiredKeys(rules, st, def, sel) && st.included.Keys <= AutoKeys(rules, st, def, sel)
  {
    if rules != [] {
      hide *;
      PassesGrow(rules[..|rules| - 1], st, def, sel);
      LastStepKeys(rules, st, def, sel);
    }
  }

  /** A pass never leaves a closed set it started in. */
  lemma {:induction false} PassesStayInside(
      rules: seq<Rule>, st: Retained, keys: set<string>, def: Definition, sel: SelectionInput)
    requires Sound(st, def, sel) && Closed(keys, def, sel) && st.included.Keys <= keys
    requires forall r :: r in rules ==> r in def.rules
    ensures RequiredKeys(rules, st, def, sel) <= keys && AutoKeys(rules, st, def, sel) <= keys
  {
    hide Sound, RequiredStep, AutoStep, Triggered;
    if rules != [] {
      var init, r := rules[..|rules| - 1], rules[|rules| - 1];
      assert r in rules && forall q :: q in init ==> q in rules;
      PassesStayInside(init, st, keys, def, sel);
      LastStepKeys(rules, st, def, sel);
      hide RequiredKeys, AutoKeys;
      if Triggered(r, RequiredKeys(init, st, def, sel), def, sel) {
        TriggeredGrows(r, RequiredKeys(init, st, def, sel), keys, def, sel);
      }
      if Triggered(r, AutoKeys(init, st, def, sel), def, sel) {
        TriggeredGrows(r, AutoKeys(init, st, def, sel), keys, def, sel);
      }
    }
  }

  /** The keys retained by the rules, from the required lines and the ticked options. */
  function RuleKeys(def: Definition, sel: SelectionInput): set<string> {
    RulePasses(BasePass(def.lines, sel), def, sel).included.Keys
  }

  /**
   * Nothing is retained without a reason: the two passes stay inside every set of keys that holds
   * the required lines and ticked options and is closed under the inclusion rules.
   */
  lemma RetainedIsWithinEveryClosure(def: Definition, sel: SelectionInput, keys: set<string>)
    requires DistinctKeys(def.lines) && BaseKeys(def.lines, sel) <= keys && Closed(keys, def, sel)
    ensures BaseKeys(def.lines, sel) <= RuleKeys(def, sel) <= keys
  {
    hide Sound, Closed, BasePass, RequiredPass, AutoPass, BaseKeys;
    var base := BasePass(def.lines, sel);
    BaseIsSound(def.lines, def, sel);
    var required := RequiredPass(def.rules, base, def, sel);
    PassesAreSound(def.rules, base, def, sel);
    PassesGrow(def.rules, base, def, sel);
    PassesGrow(def.rules, required, def, sel);
    PassesStayInside(def.rules, base, keys, def, sel);
    PassesStayInside(def.rules, required, keys, def, sel);
  }

  // ------------------------------------------------ when one pass is enough

  /** A pass that adds no key leaves each of its rules satisfied. */
  lemma {:induction false} StablePassIsClosed(rules: seq<Rule>, st: Retained, def: Definition, sel: SelectionInput)
    requires Sound(st, def, sel)
    ensures RequiredKeys(rules, st, def, sel) == st.included.Keys ==>
              forall r :: r in rules && r.RequiredIfAny? && Triggered(r, st.included.Keys, def, sel) ==> Target(r) in st.included.Keys
    ensures AutoKeys(rules, st, def, sel) == st.included.Keys ==>
              forall r :: r in rules && r.AutoInclude? && Triggered(r, st.included.Keys, def, sel) ==> Target(r) in st.included.Keys
  {
    if rules != [] {
      hide *;
      var init, last := rules[..|rules| - 1], rules[|rules| - 1];
      assert rules == init + [last];
      StablePassIsClosed(init, st, def, sel);
      PassesGrow(init, st, def, sel);
      LastStepKeys(rules, st, def, sel);
    }
  }

  /** The other rules of a definition play no part in closure. */
  lemma InertRule(r: Rule, keys: set<string>, def: Definition, sel: SelectionInput)
    requires Triggered(r, keys, def, sel)
    ensures r.RequiredIfAny? || r.AutoInclude?
  {
  }

  /**
   * The single pass reaches the closure exactly when running the rules a second time would add
   * nothing.
   */
  lemma ClosedExactlyWhenStable(def: Definition, sel: SelectionInput)
    requires DistinctKeys(def.lines)
    ensures var once := RulePasses(BasePass(def.lines, sel), def, sel);
            Closed(once.included.Keys, def, sel) <==> RulePasses(once, def, sel).included.Keys == once.included.Keys
  {
    hide Sound, Triggered, BasePass, RequiredPass, AutoPass;
    var base := BasePass(def.lines, sel);
    BaseIsSound(def.lines, def, sel);
    PassesAreSound(def.rules, base, def, sel);
    PassesAreSound(def.rules, RequiredPass(def.rules, base, def, sel), def, sel);
    var once := RulePasses(base, def, sel);
    var again := RequiredPass(def.rules, once, def, sel);
    PassesAreSound(def.rules, once, def, sel);
    PassesGrow(def.rules, once, def, sel);
    PassesGrow(def.rules, again, def, sel);
    if Closed(once.included.Keys, def, sel) {
      PassesStayInside(def.rules, once, once.included.Keys, def, sel);
      PassesStayInside(def.rules, again, once.included.Keys, def, sel);
    }
    if RulePasses(once, def, sel).included.Keys == once.included.Keys {
      StablePassIsClosed(def.rules, once, def, sel);
      StablePassIsClosed(def.rules, again, def, sel);
      forall r | r in def.rules && Triggered(r, once.included.Keys, def, sel)
        ensures Target(r) in once.included.Keys
      {
        InertRule(r, once.included.Keys, def, sel);
      }
    }
  }

  /** Does the arrival of `key` bear on the trigger of `r`? */
  predicate Watches(r: Rule, key: string) {
    match r
    case RequiredIfAny(_, _, ifAny) => key in ifAny
    case AutoInclude(_, _, when) => key == when
    case _ => false
  }

  predicate RunsAfter(rules: seq<Rule>, j: int, i: int)
    requires 0 <= i < |rules| && 0 <= j < |rules|
  {
    (rules[j].AutoInclude? && (rules[i].RequiredIfAny? || j > i)) || (rules[j].RequiredIfAny? && rules[i].RequiredIfAny? && j > i)
  }

  /** No rule watches a line that a rule running after it may add. */
  predicate WellOrdered(rules: seq<Rule>) {
    forall i, j :: 0 <= i < |rules| && 0 <= j < |rules| && RunsAfter(rules, j, i) ==> !Watches(rules[i], Target(rules[j]))
  }

  lemma UnwatchedArrival(r: Rule, keys: set<string>, key: string, def: Definition, sel: SelectionInput)
    requires !Watches(r, key) && Triggered(r, keys + {key}, def, sel)
    ensures Triggered(r, keys, def, sel)
  {
    hide LineOf, OwnQuantity;
  }

  ghost predicate Satisfied(r: Rule, keys: set<string>, def: Definition, sel: SelectionInput) {
    Triggered(r, keys, def, sel) ==> Target(r) in keys
  }

  lemma StaysSatisfied(r: Rule, keys: set<string>, key: string, added: set<string>, def: Definition, sel: SelectionInput)
    requires Satisfied(r, keys, def, sel) && (added == {} || (added == {key} && !Watches(r, key)))
    ensures Satisfied(r, keys + added, def, sel)
  {
    hide Triggered, Watches, Target;
    if added == {} {
      assert keys + added == keys;
    } else if Triggered(r, keys + added, def, sel) {
      UnwatchedArrival(r, keys, key, def, sel);
    }
  }

  lemma {:induction false} RequiredPassSatisfies(n: nat, st: Retained, def: Definition, sel: SelectionInput)
    requires Sound(st, def, sel) && WellOrdered(def.rules) && n <= |def.rules|
    ensures forall i :: 0 <= i < n && def.rules[i].RequiredIfAny? ==> Satisfied(def.rules[i], RequiredKeys(def.rules[..n], st, def, sel), def, sel)
  {
    if n > 0 {
      var rules := def.rules[..n];
      assert rules[..n - 1] == def.rules[..n - 1] && rules[n - 1] == def.rules[n - 1];
      RequiredPassSatisfies(n - 1, st, def, sel);
      LastStepKeys(rules, st, def, sel);
      var before, after := RequiredKeys(rules[..n - 1], st, def, sel), RequiredKeys(rules, st, def, sel);
      var r := rules[n - 1];
      var added := if r.RequiredIfAny? && Triggered(r, before, def, sel) then {Target(r)} else {};
      assert after == before + added;
      hide RequiredKeys, Triggered, Target, Watches;
      forall i | 0 <= i < n && def.rules[i].RequiredIfAny?
        ensures Satisfied(def.rules[i], after, def, sel)
      {
        if i < n - 1 {
          assert r.RequiredIfAny? ==> RunsAfter(def.rules, n - 1, i);
          StaysSatisfied(def.rules[i], before, Target(r), added, def, sel);
        } else {
          OwnRule(r, before, added, def, sel);
        }
      }
    }
  }

  /** A rule that has just run is satisfied, whether or not it watches its own line. */
  lemma OwnRule(r: Rule, before: set<string>, added: set<string>, def: Definition, sel: SelectionInput)
    requires added == if Triggered(r, before, def, sel) then {Target(r)} else {}
    ensures Satisfied(r, before + added, def, sel)
  {
    hide Triggered, Target;
    assert Triggered(r, before, def, sel) || before + added == before;
  }

  lemma {:induction false} AutoPassSatisfies(n: nat, st: Retained, def: Definition, sel: SelectionInput)
    requires Sound(st, def, sel) && WellOrdered(def.rules) && n <= |def.rules|
    requires forall i :: 0 <= i < |def.rules| && def.rules[i].RequiredIfAny? ==> Satisfied(def.rules[i], st.included.Keys, def, sel)
    ensures forall i :: 0 <= i < |def.rules| && (def.rules[i].RequiredIfAny? || (i < n && def.rules[i].AutoInclude?)) ==>
              Satisfied(def.rules[i], AutoKeys(def.rules[..n], st, def, sel), def, sel)
  {
    if n == 0 {
      assert def.rules[..0] == [];
    } else {
      var rules := def.rules[..n];
      assert rules[..n - 1] == def.rules[..n - 1] && rules[n - 1] == def.rules[n - 1];
      AutoPassSatisfies(n - 1, st, def, sel);
      LastStepKeys(rules, st, def, sel);
      var before, after := AutoKeys(rules[..n - 1], st, def, sel), AutoKeys(rules, st, def, sel);
      var r := rules[n - 1];
      var added := if r.AutoInclude? && Triggered(r, before, def, sel) then {Target(r)} else {};
      assert after == before + added;
      hide AutoKeys, Triggered, Target, Watches, Satisfied;
      forall i | 0 <= i < |def.rules| && (def.rules[i].RequiredIfAny? || (i < n && def.rules[i].AutoInclude?))
        ensures Satisfied(def.rules[i], after, def, sel)
      {
        if i < n - 1 || def.rules[i].RequiredIfAny? {
          assert r.AutoInclude? ==> RunsAfter(def.rules, n - 1, i);
          StaysSatisfied(def.rules[i], before, Target(r), added, def, sel);
        } else {
          OwnRule(r, before, added, def, sel);
        }
      }
    }
  }

  /**
   * When no rule watches a line that a later rule may add, one pass is enough: the retained keys
   * are closed, hence the least closed set over the required lines and ticked options.
   */
  lemma WellOrderedPassIsClosure(def: Definition, sel: SelectionInput)
    requires DistinctKeys(def.lines) && WellOrdered(def.rules)
    ensures Closed(RuleKeys(def, sel), def, sel)
  {
    hide Sound, BasePass, RequiredPass, AutoPass, WellOrdered, Satisfied;
    var base := BasePass(def.lines, sel);
    BaseIsSound(def.lines, def, sel);
    PassesAreSound(def.rules, base, def, sel);
    assert def.rules[..|def.rules|] == def.rules;
    RequiredPassSatisfies(|def.rules|, base, def, sel);
    var required := RequiredPass(def.rules, base, def, sel);
    AutoPassSatisfies(|def.rules|, required, def, sel);
    forall r | r in def.rules && Triggered(r, RuleKeys(def, sel), def, sel)
      ensures Target(r) in RuleKeys(def, sel)
    {
      var i :| 0 <= i < |def.rules| && def.rules[i] == r;
      InertRule(r, RuleKeys(def, sel), def, sel);
      SatisfiedMeans(r, RuleKeys(def, sel), def, sel);
    }
  }

  lemma SatisfiedMeans(r: Rule, keys: set<string>, def: Definition, sel: SelectionInput)
    requires Satisfied(r, keys, def, sel) && Triggered(r, keys, def, sel)
    ensures Target(r) in keys
  {
  }

  // ---------------------------------------- when one pass is enough whatever is ticked

  /** The same selection with other options ticked. */
  function Ticked(sel: SelectionInput, options: set<string>): SelectionInput { sel.(selectedOptions := options) }

  /** The keys that one pass of the rules of each kind reaches, as sets. */
  function Reached(rules: seq<Rule>, keys: set<string>, def: Definition, sel: SelectionInput, auto: bool): set<string> {
    if rules == [] then keys
    else
      var before, r := Reached(rules[..|rules| - 1], keys, def, sel, auto), rules[|rules| - 1];
      if (if auto then r.AutoInclude? else r.RequiredIfAny?) && Triggered(r, before, def, sel) then before + {Target(r)} else before
  }

  lemma {:induction false} ReachedKeys(rules: seq<Rule>, st: Retained, def: Definition, sel: SelectionInput)
    requires Sound(st, def, sel)
    ensures RequiredKeys(rules, st, def, sel) == Reached(rules, st.included.Keys, def, sel, false)
    ensures AutoKeys(rules, st, def, sel) == Reached(rules, st.included.Keys, def, sel, true)
  {
    if rules != [] {
      hide Sound, Triggered;
      ReachedKeys(rules[..|rules| - 1], st, def, sel);
      LastStepKeys(rules, st, def, sel);
    }
  }

  /** The premises of a rule are alternatives: one of the two sets triggers it by itself. */
  lemma TriggerSplits(r: Rule, a: set<string>, b: set<string>, def: Definition, sel: SelectionInput)
    ensures Triggered(r, a + b, def, sel) <==> Triggered(r, a, def, sel) || Triggered(r, b, def, sel)
  {
    hide OwnQuantity, LineOf;
  }

  /** Hence a pass distributes over the union of what it starts from. */
  lemma {:induction false} ReachedSplits(rules: seq<Rule>, a: set<string>, b: set<string>, def: Definition, sel: SelectionInput, auto: bool)
    ensures Reached(rules, a + b, def, sel, auto) == Reached(rules, a, def, sel, auto) + Reached(rules, b, def, sel, auto)
  {
    if rules != [] {
      hide Triggered;
      var init := rules[..|rules| - 1];
      ReachedSplits(init, a, b, def, sel, auto);
      TriggerSplits(rules[|rules| - 1], Reached(init, a, def, sel, auto), Reached(init, b, def, sel, auto), def, sel);
    }
  }

  lemma ClosedSplits(a: set<string>, b: set<string>, def: Definition, sel: SelectionInput)
    requires Closed(a, def, sel) && Closed(b, def, sel)
    ensures Closed(a + b, def, sel)
  {
    hide Triggered;
    forall r | r in def.rules && Triggered(r, a + b, def, sel)
      ensures Target(r) in a + b
    {
      TriggerSplits(r, a, b, def, sel);
    }
  }

  /** Quantities, hence triggers, do not depend on what is ticked. */
  lemma TickingIsNotQuantity(def: Definition, sel: SelectionInput, options: set<string>)
    ensures forall r, keys :: Triggered(r, keys, def, Ticked(sel, options)) <==> Triggered(r, keys, def, sel)
    ensures forall keys :: Closed(keys, def, Ticked(sel, options)) <==> Closed(keys, def, sel)
  {
    hide LineOf, Triggered, Target;
    forall k
      ensures OwnQuantity(k, def, Ticked(sel, options)) == OwnQuantity(k, def, sel)
    {
    }
    hide OwnQuantity;
    forall r, keys
      ensures Triggered(r, keys, def, Ticked(sel, options)) <==> Triggered(r, keys, def, sel)
    {
      SameTrigger(r, keys, def, sel, Ticked(sel, options));
    }
  }

  lemma SameTrigger(r: Rule, keys: set<string>, def: Definition, sel: SelectionInput, other: SelectionInput)
    requires forall k :: OwnQuantity(k, def, other) == OwnQuantity(k, def, sel)
    ensures Triggered(r, keys, def, other) <==> Triggered(r, keys, def, sel)
  {
    hide OwnQuantity, LineOf;
  }

  lemma {:induction false} SameReached(rules: seq<Rule>, keys: set<string>, def: Definition, sel: SelectionInput, options: set<string>, auto: bool)
    ensures Reached(rules, keys, def, Ticked(sel, options), auto) == Reached(rules, keys, def, sel, auto)
  {
    if rules != [] {
      hide Triggered;
      SameReached(rules[..|rules| - 1], keys, def, sel, options, auto);
      TickingIsNotQuantity(def, sel, options);
    }
  }

  /** What both passes reach from the required lines and the ticked options. */
  function FromTicked(def: Definition, sel: SelectionInput, options: set<string>): set<string> {
    Reached(def.rules, Reached(def.rules, BaseKeys(def.lines, Ticked(sel, options)), def, sel, false), def, sel, true)
  }

  lemma RuleKeysFromTicked(def: Definition, sel: SelectionInput, options: set<string>)
    requires DistinctKeys(def.lines)
    ensures RuleKeys(def, Ticked(sel, options)) == FromTicked(def, sel, options)
  {
    hide Sound, Triggered, BasePass, BaseKeys, RequiredPass, AutoPass, Reached;
    var now := Ticked(sel, options);
    var base := BasePass(def.lines, now);
    BaseIsSound(def.lines, def, now);
    PassesAreSound(def.rules, base, def, now);
    ReachedKeys(def.rules, base, def, now);
    ReachedKeys(def.rules, RequiredPass(def.rules, base, def, now), def, now);
    SameReached(def.rules, base.included.Keys, def, sel, options, false);
    SameReached(def.rules, Reached(def.rules, base.included.Keys, def, sel, false), def, sel, options, true);
  }

  lemma FromTickedSplits(def: Definition, sel: SelectionInput, some: set<string>, others: set<string>)
    ensures FromTicked(def, sel, some + others) == FromTicked(def, sel, some) + FromTicked(def, sel, others)
  {
    hide Triggered, Reached;
    var a, b := BaseKeys(def.lines, Ticked(sel, some)), BaseKeys(def.lines, Ticked(sel, others));
    assert BaseKeys(def.lines, Ticked(sel, some + others)) == a + b;
    ReachedSplits(def.rules, a, b, def, sel, false);
    ReachedSplits(def.rules, Reached(def.rules, a, def, sel, false), Reached(def.rules, b, def, sel, false), def, sel, true);
  }

  /** One pass is enough for a set of options when it is enough for none and for each of them alone. */
  lemma {:induction false} EnoughOneByOne(def: Definition, sel: SelectionInput, options: set<string>)
    requires Closed(FromTicked(def, sel, {}), def, sel)
    requires forall k :: k in options ==> Closed(FromTicked(def, sel, {k}), def, sel)
    ensures Closed(FromTicked(def, sel, options), def, sel)
    decreases options
  {
    hide Closed, FromTicked;
    if options != {} {
      var k :| k in options;
      EnoughOneByOne(def, sel, options - {k});
      FromTickedSplits(def, sel, options - {k}, {k});
      assert options == (options - {k}) + {k};
      ClosedSplits(FromTicked(def, sel, options - {k}), FromTicked(def, sel, {k}), def, sel);
    }
  }

  /**
   * One pass of the rules reaches the closure whatever is ticked exactly when it does so with nothing ticked
   * and with each option of the model ticked alone.
   */
  lemma EnoughWhateverIsTicked(def: Definition, sel: SelectionInput)
    requires DistinctKeys(def.lines)
    ensures (forall options :: Closed(RuleKeys(def, Ticked(sel, options)), def, Ticked(sel, options)))
            <==> Closed(RuleKeys(def, Ticked(sel, {})), def, Ticked(sel, {}))
                 && forall l :: l in def.lines && l.kind == Optional ==>
                      Closed(RuleKeys(def, Ticked(sel, {l.key})), def, Ticked(sel, {l.key}))
  {
    hide Closed, FromTicked, RuleKeys;
    forall options
      ensures Closed(RuleKeys(def, Ticked(sel, options)), def, Ticked(sel, options)) <==> Closed(FromTicked(def, sel, options), def, sel)
    {
      RuleKeysFromTicked(def, sel, options);
      TickingIsNotQuantity(def, sel, options);
    }
    if && Closed(FromTicked(def, sel, {}), def, sel)
       && forall l :: l in def.lines && l.kind == Optional ==> Closed(FromTicked(def, sel, {l.key}), def, sel)
    {
      forall options
        ensures Closed(FromTicked(def, sel, options), def, sel)
      {
        forall k | k in options
          ensures Closed(FromTicked(def, sel, {k}), def, sel)
        {
          if !exists l :: l in def.lines && l.kind == Optional && l.key == k {
            NotAnOptionAddsNothing(def, sel, k);
          }
        }
        EnoughOneByOne(def, sel, options);
      }
    }
  }

  lemma NotAnOptionAddsNothing(def: Definition, sel: SelectionInput, k: string)
    requires !exists l :: l in def.lines && l.kind == Optional && l.key == k
    ensures FromTicked(def, sel, {k}) == FromTicked(def, sel, {})
  {
    hide Reached;
    assert BaseKeys(def.lines, Ticked(sel, {k})) == BaseKeys(def.lines, Ticked(sel, {}));
  }

  // ------------------------------------------------- an order in which it is not enough

  function PlainLine(key: string, kind: ProposalKind): ProposalLine {
    ProposalLine(key, kind, Monthly, false, None, OnePrice(100), VALIDATED, None, None)
  }

  const CHAIN := Definition(
    [], [PlainLine("a", Required), PlainLine("b", Optional), PlainLine("c", Optional)],
    [AutoInclude("r1", "c", "b"), AutoInclude("r2", "b", "a")], "20")

  const NOTHING_CHOSEN := SelectionInput(map[], map[], {}, map[])

  /** Written in the other order, a chain of two inclusions stops half-way: one pass is not a closure. */
  lemma OnePassCanStopShort()
    ensures DistinctKeys(CHAIN.lines)
    ensures RuleKeys(CHAIN, NOTHING_CHOSEN) == {"a", "b"}
    ensures !Closed(RuleKeys(CHAIN, NOTHING_CHOSEN), CHAIN, NOTHING_CHOSEN)
  {
    assert DistinctKeys(CHAIN.lines);
    LineOfOwnKey(CHAIN.lines, CHAIN.lines[1]);
    LineOfOwnKey(CHAIN.lines, CHAIN.lines[2]);
    assert BaseKeys(CHAIN.lines, NOTHING_CHOSEN) == {"a"};
    BackwardChain(CHAIN, NOTHING_CHOSEN, "a", "b", "c");
  }

  /** So it is with any two inclusions written against their direction. */
  lemma BackwardChain(def: Definition, sel: SelectionInput, a: string, b: string, c: string)
    requires DistinctKeys(def.lines) && a != b && b != c && a != c && BaseKeys(def.lines, sel) == {a}
    requires LineOf(def.lines, b).Some? && LineOf(def.lines, b).value.kind != Setup
    requires LineOf(def.lines, c).Some? && LineOf(def.lines, c).value.kind != Setup
    requires |def.rules| == 2 && def.rules[0].AutoInclude? && def.rules[1].AutoInclude?
    requires def.rules[0].line == c && def.rules[0].when == b && def.rules[1].line == b && def.rules[1].when == a
    ensures RuleKeys(def, sel) == {a, b} && !Closed(RuleKeys(def, sel), def, sel)
  {
    hide *;
    RuleKeysFromTicked(def, sel, sel.selectedOptions);
    SameOptions(def, sel);
    NoRequiredRule(def.rules, {a}, def, sel);
    TwoInclusions(def.rules, {a}, def, sel);
    InclusionTriggers(def.rules[0], {a}, def, sel);
    InclusionTriggers(def.rules[1], {a}, def, sel);
    InclusionTriggers(def.rules[0], {a, b}, def, sel);
    assert {a} + {b} == {a, b};
    OpenRule(def.rules[0], {a, b}, def, sel);
  }

  lemma SameOptions(def: Definition, sel: SelectionInput)
    ensures Ticked(sel, sel.selectedOptions) == sel
    ensures FromTicked(def, sel, sel.selectedOptions)
         == Reached(def.rules, Reached(def.rules, BaseKeys(def.lines, sel), def, sel, false), def, sel, true)
  {
    hide Reached, BaseKeys;
  }

  lemma {:induction false} NoRequiredRule(rules: seq<Rule>, keys: set<string>, def: Definition, sel: SelectionInput)
    requires |rules| == 2 && rules[0].AutoInclude? && rules[1].AutoInclude?
    ensures Reached(rules, keys, def, sel, false) == keys
  {
    hide Triggered;
    var first := rules[..1];
    assert rules[..|rules| - 1] == first && first[..|first| - 1] == [] && first[0] == rules[0];
    assert Reached([], keys, def, sel, false) == keys;
    assert Reached(first, keys, def, sel, false) == keys;
  }

  lemma TwoInclusions(rules: seq<Rule>, keys: set<string>, def: Definition, sel: SelectionInput)
    requires |rules| == 2 && rules[0].AutoInclude? && rules[1].AutoInclude?
    ensures var once := if Triggered(rules[0], keys, def, sel) then keys + {rules[0].line} else keys;
            Reached(rules, keys, def, sel, true) == if Triggered(rules[1], once, def, sel) then once + {rules[1].line} else once
  {
    hide Triggered;
    var first := rules[..1];
    assert rules[..|rules| - 1] == first && first[..|first| - 1] == [] && first[0] == rules[0];
    assert Reached([], keys, def, sel, true) == keys;
    assert Reached(first, keys, def, sel, true) == if Triggered(rules[0], keys, def, sel) then keys + {rules[0].line} else keys;
  }

  lemma InclusionTriggers(r: Rule, keys: set<string>, def: Definition, sel: SelectionInput)
    requires r.AutoInclude? && LineOf(def.lines, r.line).Some? && LineOf(def.lines, r.line).value.kind != Setup
    ensures Triggered(r, keys, def, sel) <==> r.when in keys
  {
    hide LineOf;
  }

  lemma OpenRule(r: Rule, keys: set<string>, def: Definition, sel: SelectionInput)
    requires r in def.rules && r.AutoInclude? && Triggered(r, keys, def, sel) && r.line !in keys
    ensures !Closed(keys, def, sel)
  {
    hide Triggered;
  }

  // ------------------------------------------------------------ which choice is kept

  /** The value that a rule preselects for a choice, from a field of the context. */
  function Preselects(r: Rule, key: string, sel: SelectionInput): Option<string> {
    if r.PreselectChoice? && r.choice == key && r.field in sel.context then FirstRange(r.ranges, sel.context[r.field]) else None
  }

  lemma PreselectStep(r: Rule, out: map<string, string>, sel: SelectionInput, key: string)
    ensures var after, hit := Preselect(r, out, sel), Preselects(r, key, sel);
            && (hit.Some? ==> key in after && after[key] == hit.value)
            && (hit.None? ==> (key in after <==> key in out))
            && (hit.None? && key in out ==> after[key] == out[key])
  {
    hide FirstRange;
  }

  /** Rule `i` is the last one that preselects a value for the choice. */
  predicate LastHit(rules: seq<Rule>, i: int, key: string, sel: SelectionInput) {
    0 <= i < |rules| && Preselects(rules[i], key, sel).Some? && forall j :: i < j < |rules| ==> Preselects(rules[j], key, sel).None?
  }

  predicate NoHit(rules: seq<Rule>, key: string, sel: SelectionInput) {
    forall r :: r in rules ==> Preselects(r, key, sel).None?
  }

  lemma {:induction false} LastPreselectionWins(rules: seq<Rule>, out: map<string, string>, sel: SelectionInput, key: string)
    ensures var kept := Preselected(rules, out, sel);
            && (NoHit(rules, key, sel) ==> (key in kept <==> key in out) && (key in out ==> kept[key] == out[key]))
            && (forall i :: LastHit(rules, i, key, sel) ==> key in kept && kept[key] == Preselects(rules[i], key, sel).value)
  {
    hide Preselects, Preselect;
    if rules != [] {
      var init, last := rules[..|rules| - 1], rules[|rules| - 1];
      LastPreselectionWins(init, out, sel, key);
      PreselectStep(last, Preselected(init, out, sel), sel, key);
      assert rules == init + [last] && last in rules;
      forall i | LastHit(rules, i, key, sel)
        ensures i < |init| ==> LastHit(init, i, key, sel)
      {
        if i < |init| {
          assert forall j :: i < j < |init| ==> init[j] == rules[j];
        }
      }
      assert NoHit(rules, key, sel) ==> NoHit(init, key, sel);
    }
  }

  lemma {:induction false} PreselectionKeeps(rules: seq<Rule>, out: map<string, string>, sel: SelectionInput, key: string)
    requires key in out
    ensures key in Preselected(rules, out, sel)
  {
    hide FirstRange;
    if rules != [] {
      PreselectionKeeps(rules[..|rules| - 1], out, sel, key);
    }
  }

  lemma {:induction false} OwnDefault(choices: seq<Choice>, c: Choice)
    requires c in choices && forall i, j :: 0 <= i < j < |choices| ==> choices[i].key != choices[j].key
    ensures c.key in Defaults(choices) && Defaults(choices)[c.key] == DefaultChoice(c)
  {
    hide DefaultChoice;
    var init, last := choices[..|choices| - 1], choices[|choices| - 1];
    assert choices == init + [last];
    if last != c {
      var i :| 0 <= i < |choices| && choices[i] == c;
      OwnDefault(init, c);
    }
  }

  /**
   * A choice keeps the client's explicit value; without one, that of the last rule that preselects it
   * from the context; without any, the default of the model.
   */
  lemma ChoicePrecedence(def: Definition, sel: SelectionInput, c: Choice)
    requires c in def.choices && forall i, j :: 0 <= i < j < |def.choices| ==> def.choices[i].key != def.choices[j].key
    ensures c.key in ResolveChoices(def, sel)
    ensures var kept := ResolveChoices(def, sel)[c.key];
            && (c.key in sel.choices ==> kept == sel.choices[c.key])
            && (c.key !in sel.choices ==>
                  && (forall i :: LastHit(def.rules, i, c.key, sel) ==> kept == Preselects(def.rules[i], c.key, sel).value)
                  && (NoHit(def.rules, c.key, sel) ==> kept == DefaultChoice(c)))
  {
    hide Preselects, Preselected, Defaults, DefaultChoice, LastHit, NoHit;
    OwnDefault(def.choices, c);
    PreselectionKeeps(def.rules, Defaults(def.choices), sel, c.key);
    LastPreselectionWins(def.rules, Defaults(def.choices), sel, c.key);
  }

  // ----------------------------------------------------- a configuration without errors

  lemma {:induction false} SetupKeepsOthers(lines: seq<ProposalLine>, included: map<string, real>)
    ensures included.Keys <= SetupPass(lines, included).Keys
    ensures forall k :: k in SetupPass(lines, included) ==>
              k in included || exists l :: l in lines && Linked(l).Some? && l.key == k
    ensures forall k :: k in included && (forall l :: l in lines && l.key == k ==> Linked(l).None?) ==>
              SetupPass(lines, included)[k] == included[k]
  {
    hide Linked;
    if lines != [] {
      var init, last := lines[..|lines| - 1], lines[|lines| - 1];
      assert lines == init + [last];
      SetupKeepsOthers(init, included);
    }
  }

  /** A setup line is retained with the quantity of the line it is linked to. */
  lemma {:induction false} SetupFollows(lines: seq<ProposalLine>, included: map<string, real>, l: ProposalLine)
    requires DistinctKeys(lines) && l in lines && Linked(l).Some? && Linked(l).value in included
    requires forall m :: m in lines && m.key == Linked(l).value ==> Linked(m).None?
    ensures l.key in SetupPass(lines, included) && SetupPass(lines, included)[l.key] == included[Linked(l).value]
  {
    var init, last := lines[..|lines| - 1], lines[|lines| - 1];
    assert lines == init + [last];
    hide Linked;
    SetupKeepsOthers(init, included);
    if last != l {
      SetupFollows(init, included, l);
      SameKeyOnce(lines, l, last);
    }
  }

  lemma SameKeyOnce(lines: seq<ProposalLine>, l: ProposalLine, m: ProposalLine)
    requires DistinctKeys(lines) && l in lines && m in lines && l != m
    ensures l.key != m.key
  {
    if l.key == m.key {
      SameKeySameLine(lines, l, m);
    }
  }

  /** What the bounds of a retained line promise. */
  predicate WithinBounds(l: ProposalLine, q: real, included: map<string, real>, sel: SelectionInput) {
    && ValidQuantity(q)
    && (l.quantity.Some? ==>
          var b := l.quantity.value;
          && (l.kind != Setup ==> q >= b.min)
          && (b.max.Some? ==> q <= b.max.value)
          && (b.maxFrom.Some? && b.maxFrom.value != "" ==> q <= Quantity(included, b.maxFrom.value))
          && (!b.editableByClient && l.kind != Setup && l.key in sel.quantities && b.default.Number? ==> q == b.default.value))
  }

  lemma NoBoundError(l: ProposalLine, q: real, included: map<string, real>, sel: SelectionInput)
    ensures BoundErrors(l, q, included, sel) == {} <==> WithinBounds(l, q, included, sel)
  {
    hide ValidQuantity;
    if ValidQuantity(q) && l.quantity.Some? {
      var b := l.quantity.value;
      FlagEmpty(l.kind != Setup && q < b.min, BelowMinimum(l.key));
      FlagEmpty(b.max.Some? && q > b.max.value, AboveMaximum(l.key));
      FlagEmpty(b.maxFrom.Some? && b.maxFrom.value != "" && q > Quantity(included, b.maxFrom.value), AboveLimit(l.key));
      FlagEmpty(!b.editableByClient && l.kind != Setup && l.key in sel.quantities && b.default.Number? && q != b.default.value, NotEditable(l.key));
      hide Flag;
    }
  }

  lemma FlagEmpty(bad: bool, e: ConfigError)
    ensures Flag(bad, e) == {} <==> !bad
    ensures bad ==> e in Flag(bad, e)
  {
  }

  /**
   * A configuration without errors: every retained line is a line of the model within its bounds,
   * REQUIRES and AT_LEAST_ONE hold, every choice has an offered value, every retained line a price,
   * and every setup line the quantity of the line it is linked to.
   */
  lemma ErrorFreeConfiguration(def: Definition, sel: SelectionInput)
    requires DistinctKeys(def.lines) && Configure(def, sel).errors == {}
    ensures var c := Configure(def, sel);
            && (forall k :: k in c.included ==>
                  LineOf(def.lines, k).Some? && WithinBounds(LineOf(def.lines, k).value, c.included[k], c.included, sel))
            && (forall r :: r in def.rules && r.Requires? && r.line in c.included ==> forall k :: k in r.needs ==> k in c.included)
            && (forall r :: r in def.rules && r.AtLeastOne? ==> AnyOf(r.lines, c.included))
            && (forall h :: h in def.choices ==> h.key in c.choices && Offers(h, c.choices[h.key]))
            && (forall l :: l in def.lines && Quantity(c.included, l.key) > 0.0 ==> UnitPriceCents(l, c.choices).Some?)
            && (forall l :: l in def.lines && Linked(l).Some? && Linked(l).value in RuleKeys(def, sel)
                            && (forall m :: m in def.lines && m.key == Linked(l).value ==> m.kind != Setup) ==>
                  l.key in c.included && Linked(l).value in c.included && c.included[l.key] == c.included[Linked(l).value])
            && (forall k :: k in c.included ==>
                  k in RuleKeys(def, sel) || exists l :: l in def.lines && Linked(l).Some? && l.key == k)
  {
    hide LineOf, BasePass, RulePasses, SetupPass, ResolveChoices, WithinBounds;
    hide BoundErrors, RuleErrors, PriceErrors, UnitPriceCents, AnyOf, Linked;
    var c := Configure(def, sel);
    RetainedLines(def, sel);
    NoCheckErrors(def, sel, c.included, c.choices);
    SetupLines(def, sel);
    ChoiceErrorsFound(def, sel, c.choices);
  }

  lemma ChoiceErrorsFound(def: Definition, sel: SelectionInput, choices: map<string, string>)
    ensures forall h :: h in def.choices && !(h.key in choices && Offers(h, choices[h.key])) ==>
              InvalidChoice(h.key) in ChoiceErrors(def, sel, choices)
  {
    hide Offers;
  }

  lemma RetainedLines(def: Definition, sel: SelectionInput)
    requires DistinctKeys(def.lines)
    ensures forall k :: k in Configure(def, sel).included ==> LineOf(def.lines, k).Some?
    ensures forall k :: k in Configure(def, sel).included ==>
              k in RuleKeys(def, sel) || exists l :: l in def.lines && Linked(l).Some? && l.key == k
  {
    hide Sound, BasePass, RequiredPass, AutoPass, ResolveChoices, ChoiceErrors, SelectionErrors, CheckErrors, Linked, LineOf;
    var base := BasePass(def.lines, sel);
    BaseIsSound(def.lines, def, sel);
    PassesAreSound(def.rules, base, def, sel);
    var required := RequiredPass(def.rules, base, def, sel);
    PassesAreSound(def.rules, required, def, sel);
    var retained := RulePasses(base, def, sel);
    SetupKeepsOthers(def.lines, retained.included);
    forall k | k in Configure(def, sel).included
      ensures LineOf(def.lines, k).Some?
    {
      SoundLine(retained, def, sel, k);
      LineOfMembers(def.lines, k);
    }
  }

  lemma SoundLine(st: Retained, def: Definition, sel: SelectionInput, k: string)
    requires Sound(st, def, sel)
    ensures k in st.included ==> LineOf(def.lines, k).Some?
  {
  }

  lemma SetupLines(def: Definition, sel: SelectionInput)
    requires DistinctKeys(def.lines)
    ensures forall l :: l in def.lines && Linked(l).Some? && Linked(l).value in RuleKeys(def, sel)
                        && (forall m :: m in def.lines && m.key == Linked(l).value ==> m.kind != Setup) ==>
              var included := Configure(def, sel).included;
              l.key in included && Linked(l).value in included && included[l.key] == included[Linked(l).value]
  {
    hide BasePass, RulePasses, ResolveChoices, ChoiceErrors, SelectionErrors, CheckErrors, SetupPass;
    var retained := RulePasses(BasePass(def.lines, sel), def, sel).included;
    forall l | l in def.lines && Linked(l).Some? && Linked(l).value in retained
               && (forall m :: m in def.lines && m.key == Linked(l).value ==> m.kind != Setup)
      ensures var included := Configure(def, sel).included;
              l.key in included && Linked(l).value in included && included[l.key] == included[Linked(l).value]
    {
      SetupKeepsOthers(def.lines, retained);
      SetupFollows(def.lines, retained, l);
    }
  }

  lemma NoCheckErrors(def: Definition, sel: SelectionInput, included: map<string, real>, choices: map<string, string>)
    requires CheckErrors(def, sel, included, choices) == {}
    ensures forall k :: k in included && LineOf(def.lines, k).Some? ==> WithinBounds(LineOf(def.lines, k).value, included[k], included, sel)
    ensures forall r :: r in def.rules && r.Requires? && r.line in included ==> forall k :: k in r.needs ==> k in included
    ensures forall r :: r in def.rules && r.AtLeastOne? ==> AnyOf(r.lines, included)
    ensures forall l :: l in def.lines && Quantity(included, l.key) > 0.0 ==> UnitPriceCents(l, choices).Some?
  {
    hide LineOf, WithinBounds, BoundErrors, UnitPriceCents, AnyOf;
    forall k | k in included && LineOf(def.lines, k).Some?
      ensures WithinBounds(LineOf(def.lines, k).value, included[k], included, sel)
    {
      assert forall e :: e in LineErrors(k, def, included, sel) ==> e in CheckErrors(def, sel, included, choices);
      NoBoundError(LineOf(def.lines, k).value, included[k], included, sel);
    }
    forall r | r in def.rules
      ensures RuleErrors(r, included) == {}
    {
      assert forall e :: e in RuleErrors(r, included) ==> e in CheckErrors(def, sel, included, choices);
    }
    forall l | l in def.lines
      ensures PriceErrors(l, included, choices) == {}
    {
      assert forall e :: e in PriceErrors(l, included, choices) ==> e in CheckErrors(def, sel, included, choices);
    }
    forall r | r in def.rules && r.AtLeastOne?
      ensures AnyOf(r.lines, included)
    {
      FlagEmpty(!AnyOf(r.lines, included), NoneSelected(r.key));
    }
    forall r | r in def.rules && r.Requires? && r.line in included
      ensures forall k :: k in r.needs ==> k in included
    {
      FlagEmpty(r.line in included && exists k :: k in r.needs && k !in included, MissingRequired(r.key));
    }
    forall l | l in def.lines && Quantity(included, l.key) > 0.0
      ensures UnitPriceCents(l, choices).Some?
    {
      FlagEmpty(Quantity(included, l.key) > 0.0 && UnitPriceCents(l, choices).None?, NoPrice(l.key));
    }
  }
}

/** The rule catalogue: grid prices and threshold adjustments (packages/pricing/src/rules.ts). */
module Rules {
  import opened Outcomes
  import opened DecimalText
  import opened Tiers

  datatype GridEntry = GridEntry(articleCode: string, unitPrice: string)

  datatype VolumeThreshold = VolumeThreshold(minQuantity: string, percent: string)

  datatype CommitmentThreshold = CommitmentThreshold(minMonths: int, percent: string)

  datatype PricingRule =
    | Grid(id: string, entries: seq<GridEntry>)
    | TiersRule(id: string, table: TierTable)
    | VolumeDiscount(id: string, volumes: seq<VolumeThreshold>)
    | CommitmentDiscount(id: string, commitments: seq<CommitmentThreshold>)

  /** A threshold that was read: from `min` on, `percent` off. */
  datatype Step = Step(min: real, percent: real)

  datatype Adjustment = Adjustment(ruleId: string, basis: real, threshold: Option<real>, percent: real)

  function FindRule(catalog: seq<PricingRule>, id: string): Result<PricingRule> {
    if catalog == [] then Err(RULE_NOT_FOUND)
    else if catalog[0].id == id then Ok(catalog[0])
    else FindRule(catalog[1..], id)
  }

  function GridUnitPrice(entries: seq<GridEntry>, articleCode: string): Result<real> {
    if entries == [] then Err(RULE_NOT_FOUND)
    else if entries[0].articleCode == articleCode then ParseDecimal(entries[0].unitPrice, 6, false)
    else GridUnitPrice(entries[1..], articleCode)
  }

  function ParsePercent(text: string): Result<real> {
    var percent := ParseDecimal(text, 6, false);
    if percent.Ok? && percent.value > 100.0 then Err(INVALID_LINE) else percent
  }

  predicate IsAdjustment(rule: PricingRule) {
    rule.VolumeDiscount? || rule.CommitmentDiscount?
  }

  function Thresholds(rule: PricingRule): nat
    requires IsAdjustment(rule)
  {
    if rule.VolumeDiscount? then |rule.volumes| else |rule.commitments|
  }

  /** The i-th threshold of an adjustment rule, parsed and checked. */
  function ReadStep(rule: PricingRule, i: nat): Result<Step>
    requires IsAdjustment(rule) && i < Thresholds(rule)
  {
    match rule
    case VolumeDiscount(_, volumes) =>
      var min := ParseDecimal(volumes[i].minQuantity, 6, false);
      var percent := ParsePercent(volumes[i].percent);
      if min.Err? then Err(min.code)
      else if percent.Err? then Err(percent.code)
      else Ok(Step(min.value, percent.value))
    case CommitmentDiscount(_, commitments) =>
      var percent := ParsePercent(commitments[i].percent);
      if percent.Err? then Err(percent.code) else Ok(Step(commitments[i].minMonths as real, percent.value))
  }

  /** The first `n` thresholds, or the error of the first one that is malformed. */
  function ReadSteps(rule: PricingRule, n: nat): (r: Result<seq<Step>>)
    requires IsAdjustment(rule) && n <= Thresholds(rule)
    ensures r.Ok? ==> |r.value| == n
  {
    if n == 0 then Ok([])
    else
      var before := ReadSteps(rule, n - 1);
      if before.Err? then before
      else
        var step := ReadStep(rule, n - 1);
        if step.Err? then Err(step.code) else Ok(before.value + [step.value])
  }

  /** Highest threshold not above the basis, the first one listed on a tie. */
  function Highest(steps: seq<Step>, basis: real): Option<Step> {
    if steps == [] then None
    else
      var best := Highest(steps[..|steps| - 1], basis);
      var s := steps[|steps| - 1];
      if s.min <= basis && (best.None? || s.min > best.value.min) then Some(s) else best
  }

  /** What the rule compares with its thresholds: the quantity, or the committed months. */
  function Basis(rule: PricingRule, quantity: real, months: Option<int>): Result<real> {
    if rule.VolumeDiscount? then Ok(quantity)
    else if rule.CommitmentDiscount? then
      if months.None? || months.value < 0 then Err(MISSING_CONTEXT) else Ok(months.value as real)
    else Err(INVALID_LINE)
  }

  function Chosen(rule: PricingRule, basis: real, best: Option<Step>): Adjustment {
    match best
    case None => Adjustment(rule.id, basis, None, 0.0)
    case Some(s) => Adjustment(rule.id, basis, Some(s.min), s.percent)
  }

  function AdjustmentOf(rule: PricingRule, quantity: real, months: Option<int>): Result<Adjustment> {
    var basis := Basis(rule, quantity, months);
    if basis.Err? then Err(basis.code)
    else
      var steps := ReadSteps(rule, Thresholds(rule));
      if steps.Err? then Err(steps.code) else Ok(Chosen(rule, basis.value, Highest(steps.value, basis.value)))
  }

  method AdjustmentFor(rule: PricingRule, quantity: real, months: Option<int>) returns (r: Result<Adjustment>)
    ensures r == AdjustmentOf(rule, quantity, months)
  {
    hide ReadStep, Chosen;
    var basis := Basis(rule, quantity, months);
    if basis.Err? {
      return Err(basis.code);
    }
    var best: Option<Step> := None;
    ghost var steps: seq<Step> := [];
    for i := 0 to Thresholds(rule)
      invariant ReadSteps(rule, i) == Ok(steps)
      invariant best == Highest(steps, basis.value)
    {
      ReadStepsPrefix(rule, i + 1, Thresholds(rule));
      var step := ReadStep(rule, i);
      if step.Err? {
        return Err(step.code);
      }
      if step.value.min <= basis.value && (best.None? || step.value.min > best.value.min) {
        best := Some(step.value);
      }
      steps := steps + [step.value];
      assert steps[..i] + [step.value] == steps;
    }
    r := Ok(Chosen(rule, basis.value, best));
  }

  lemma {:induction false} ReadStepsPrefix(rule: PricingRule, m: nat, n: nat)
    requires IsAdjustment(rule) && m <= n <= Thresholds(rule)
    ensures ReadSteps(rule, m).Err? ==> ReadSteps(rule, n) == ReadSteps(rule, m)
    decreases n
  {
    hide ReadStep;
    if m < n {
      ReadStepsPrefix(rule, m, n - 1);
    }
  }

  // ------------------------------------------------------------- properties

  lemma {:induction false} HighestIsReached(steps: seq<Step>, basis: real)
    ensures var best := Highest(steps, basis);
            && (best.None? <==> forall s :: s in steps ==> s.min > basis)
            && (best.Some? ==>
                  && best.value in steps && best.value.min <= basis
                  && forall s :: s in steps && s.min <= basis ==> s.min <= best.value.min)
  {
    if steps != [] {
      var last := |steps| - 1;
      HighestIsReached(steps[..last], basis);
      assert steps == steps[..last] + [steps[last]];
    }
  }

  /** The order in which distinct thresholds are listed does not matter. */
  lemma HighestIgnoresOrder(steps: seq<Step>, other: seq<Step>, basis: real)
    requires multiset(steps) == multiset(other)
    requires forall i, j :: 0 <= i < j < |steps| ==> steps[i].min != steps[j].min
    ensures Highest(steps, basis) == Highest(other, basis)
  {
    hide Highest;
    HighestIsReached(steps, basis);
    HighestIsReached(other, basis);
    assert forall s :: s in steps <==> s in multiset(steps);
    assert forall s :: s in other <==> s in multiset(other);
  }

  lemma StepPercent(rule: PricingRule, i: nat)
    requires IsAdjustment(rule) && i < Thresholds(rule) && ReadStep(rule, i).Ok?
    ensures 0.0 <= ReadStep(rule, i).value.percent <= 100.0
  {
    hide ParseDecimal;
    ParsedDecimal(if rule.VolumeDiscount? then rule.volumes[i].percent else rule.commitments[i].percent, 6, false);
  }

  lemma {:induction false} StepPercents(rule: PricingRule, n: nat)
    requires IsAdjustment(rule) && n <= Thresholds(rule) && ReadSteps(rule, n).Ok?
    ensures forall s :: s in ReadSteps(rule, n).value ==> 0.0 <= s.percent <= 100.0
  {
    hide ReadStep;
    if n > 0 {
      StepPercents(rule, n - 1);
      StepPercent(rule, n - 1);
      var before, step := ReadSteps(rule, n - 1).value, ReadStep(rule, n - 1).value;
      assert ReadSteps(rule, n).value == before + [step];
      hide ReadSteps;
    }
  }

  // --------------------------------------------------- what is read, and where

  ghost predicate FirstRule(catalog: seq<PricingRule>, id: string, i: int) {
    0 <= i < |catalog| && catalog[i].id == id && forall j :: 0 <= j < i ==> catalog[j].id != id
  }

  /** The rule found is the first of its id, and none is found exactly when none has it. */
  lemma {:induction false} RuleFound(catalog: seq<PricingRule>, id: string)
    ensures forall i :: FirstRule(catalog, id, i) ==> FindRule(catalog, id) == Ok(catalog[i])
    ensures FindRule(catalog, id) == Err(RULE_NOT_FOUND) <==> forall r :: r in catalog ==> r.id != id
  {
    if catalog != [] {
      RuleFound(catalog[1..], id);
      assert catalog == [catalog[0]] + catalog[1..];
      forall i | FirstRule(catalog, id, i)
        ensures FindRule(catalog, id) == Ok(catalog[i])
      {
        if i > 0 {
          assert FirstRule(catalog[1..], id, i - 1);
        }
      }
    }
  }

  ghost predicate FirstEntry(entries: seq<GridEntry>, articleCode: string, i: int) {
    0 <= i < |entries| && entries[i].articleCode == articleCode && forall j :: 0 <= j < i ==> entries[j].articleCode != articleCode
  }

  /** A grid gives the price of the first entry of the article, and none exactly when the article is absent. */
  lemma {:induction false} GridPriceFound(entries: seq<GridEntry>, articleCode: string)
    ensures forall i :: FirstEntry(entries, articleCode, i) ==>
              GridUnitPrice(entries, articleCode) == ParseDecimal(entries[i].unitPrice, 6, false)
    ensures GridUnitPrice(entries, articleCode) == Err(RULE_NOT_FOUND) <==> forall e :: e in entries ==> e.articleCode != articleCode
  {
    if entries != [] {
      GridPriceFound(entries[1..], articleCode);
      assert entries == [entries[0]] + entries[1..];
      NeverNotFound(entries[0].unitPrice);
      hide ParseDecimal;
      forall i | FirstEntry(entries, articleCode, i)
        ensures GridUnitPrice(entries, articleCode) == ParseDecimal(entries[i].unitPrice, 6, false)
      {
        if i > 0 {
          assert FirstEntry(entries[1..], articleCode, i - 1);
        }
      }
    }
  }

  lemma NeverNotFound(text: string)
    ensures ParseDecimal(text, 6, false) != Err(RULE_NOT_FOUND)
  {
  }

  /** The i-th threshold as the texts of the rule give it. */
  ghost predicate Says(rule: PricingRule, i: nat, min: real, percent: real)
    requires IsAdjustment(rule) && i < Thresholds(rule)
  {
    && 0.0 <= percent <= 100.0
    && if rule.VolumeDiscount?
       then ParseDecimal(rule.volumes[i].minQuantity, 6, false) == Ok(min) && ParseDecimal(rule.volumes[i].percent, 6, false) == Ok(percent)
       else min == rule.commitments[i].minMonths as real && ParseDecimal(rule.commitments[i].percent, 6, false) == Ok(percent)
  }

  ghost predicate StepReadable(rule: PricingRule, i: nat)
    requires IsAdjustment(rule) && i < Thresholds(rule)
  {
    exists min, percent :: Says(rule, i, min, percent)
  }

  lemma StepSays(rule: PricingRule, i: nat)
    requires IsAdjustment(rule) && i < Thresholds(rule)
    ensures ReadStep(rule, i).Ok? ==> Says(rule, i, ReadStep(rule, i).value.min, ReadStep(rule, i).value.percent)
    ensures forall min, percent :: Says(rule, i, min, percent) ==> ReadStep(rule, i) == Ok(Step(min, percent))
  {
    hide ParseDecimal;
    if ReadStep(rule, i).Ok? {
      StepPercent(rule, i);
    }
  }

  lemma {:induction false} StepsSay(rule: PricingRule, n: nat)
    requires IsAdjustment(rule) && n <= Thresholds(rule)
    ensures ReadSteps(rule, n).Ok? <==> forall i :: 0 <= i < n ==> ReadStep(rule, i).Ok?
    ensures ReadSteps(rule, n).Ok? ==> forall i :: 0 <= i < n ==> ReadStep(rule, i) == Ok(ReadSteps(rule, n).value[i])
  {
    hide ReadStep;
    if n > 0 {
      StepsSay(rule, n - 1);
    }
  }

  /** The i-th threshold is the one kept: reached, above every other one reached, the first listed on a tie. */
  ghost predicate IsHighest(rule: PricingRule, basis: real, i: int, min: real, percent: real)
    requires IsAdjustment(rule)
  {
    && 0 <= i < Thresholds(rule) && Says(rule, i, min, percent) && min <= basis
    && forall j, m, p :: 0 <= j < Thresholds(rule) && Says(rule, j, m, p) && m <= basis ==> m < min || (m == min && i <= j)
  }

  lemma {:induction false} HighestPlace(steps: seq<Step>, basis: real) returns (i: nat)
    requires Highest(steps, basis).Some?
    ensures i < |steps| && Highest(steps, basis) == Some(steps[i]) && steps[i].min <= basis
    ensures forall j :: 0 <= j < |steps| && steps[j].min <= basis ==> steps[j].min < steps[i].min || (steps[j].min == steps[i].min && i <= j)
  {
    var last := |steps| - 1;
    if Highest(steps[..last], basis).Some? {
      i := HighestPlace(steps[..last], basis);
      if steps[last].min <= basis && steps[last].min > steps[i].min {
        i := last;
      } else {
        assert forall j :: 0 <= j < last ==> steps[..last][j] == steps[j];
      }
    } else {
      HighestIsReached(steps[..last], basis);
      i := last;
      assert forall j :: 0 <= j < last ==> steps[j] in steps[..last];
    }
  }

  /**
   * What an adjustment takes off, read from the texts of the rule: the percentage of the highest threshold
   * that the quantity, or the committed months, reach; nothing when none is reached.
   */
  lemma AdjustmentReads(rule: PricingRule, quantity: real, months: Option<int>)
    ensures AdjustmentOf(rule, quantity, months).Ok? <==>
              && IsAdjustment(rule) && (rule.CommitmentDiscount? ==> months.Some? && months.value >= 0)
              && forall i :: 0 <= i < Thresholds(rule) ==> StepReadable(rule, i)
    ensures AdjustmentOf(rule, quantity, months).Ok? ==>
              var adj := AdjustmentOf(rule, quantity, months).value;
              && adj.ruleId == rule.id && adj.basis == (if rule.VolumeDiscount? then quantity else months.value as real)
              && (adj.threshold.Some? ==> exists i :: IsHighest(rule, adj.basis, i, adj.threshold.value, adj.percent))
              && (adj.threshold.None? ==>
                    adj.percent == 0.0 && forall i, min, percent :: 0 <= i < Thresholds(rule) && Says(rule, i, min, percent) ==> min > adj.basis)
  {
    hide Says, ReadStep, ReadSteps, Highest, IsHighest;
    if IsAdjustment(rule) {
      ReadExactlyWhen(rule);
    }
    if AdjustmentOf(rule, quantity, months).Ok? {
      var steps := ReadSteps(rule, Thresholds(rule)).value;
      ChosenSays(rule, Basis(rule, quantity, months).value, steps);
    }
  }

  lemma ReadExactlyWhen(rule: PricingRule)
    requires IsAdjustment(rule)
    ensures ReadSteps(rule, Thresholds(rule)).Ok? <==>
              forall i :: 0 <= i < Thresholds(rule) ==> StepReadable(rule, i)
  {
    hide Says, ReadStep, ReadSteps;
    forall i | 0 <= i < Thresholds(rule)
      ensures ReadStep(rule, i).Ok? <==> StepReadable(rule, i)
    {
      StepSays(rule, i);
    }
    StepsSay(rule, Thresholds(rule));
  }

  /** The step chosen, told by the texts. */
  lemma ChosenSays(rule: PricingRule, basis: real, steps: seq<Step>)
    requires IsAdjustment(rule) && ReadSteps(rule, Thresholds(rule)) == Ok(steps)
    ensures var best := Highest(steps, basis);
            && (best.Some? ==> exists i :: IsHighest(rule, basis, i, best.value.min, best.value.percent))
            && (best.None? ==> forall i, min, percent :: 0 <= i < Thresholds(rule) && Says(rule, i, min, percent) ==> min > basis)
  {
    hide Says, ReadStep, ReadSteps, Highest;
    StepsSay(rule, Thresholds(rule));
    forall i, min, percent | 0 <= i < Thresholds(rule) && Says(rule, i, min, percent)
      ensures steps[i] == Step(min, percent) && steps[i] in steps
    {
      StepSays(rule, i);
    }
    HighestIsReached(steps, basis);
    var best := Highest(steps, basis);
    if best.Some? {
      var i := HighestPlace(steps, basis);
      StepSays(rule, i);
      assert IsHighest(rule, basis, i, best.value.min, best.value.percent);
    }
  }

  /** An adjustment takes between nothing and everything off, and exactly nothing below every threshold. */
  lemma AdjustmentWithinBounds(rule: PricingRule, quantity: real, months: Option<int>)
    requires AdjustmentOf(rule, quantity, months).Ok?
    ensures var adj := AdjustmentOf(rule, quantity, months).value;
            && 0.0 <= adj.percent <= 100.0
            && (adj.threshold.None? ==> adj.percent == 0.0)
            && (adj.threshold.Some? ==> adj.threshold.value <= adj.basis)
  {
    var basis := Basis(rule, quantity, months).value;
    StepPercents(rule, Thresholds(rule));
    HighestIsReached(ReadSteps(rule, Thresholds(rule)).value, basis);
  }

  lemma {:induction false} GridPriceNonNegative(entries: seq<GridEntry>, articleCode: string)
    requires GridUnitPrice(entries, articleCode).Ok?
    ensures GridUnitPrice(entries, articleCode).value >= 0.0
  {
    hide ParseDecimal;
    if entries[0].articleCode == articleCode {
      ParsedDecimal(entries[0].unitPrice, 6, false);
    } else {
      GridPriceNonNegative(entries[1..], articleCode);
    }
  }
}

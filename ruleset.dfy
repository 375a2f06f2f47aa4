/**
 * Ruleset.py: a ruleset read from its JSON description. Every key under `rules` is
 * optional and falls back to a default; `RuleSet.instances` is the registry class below.
 * A key that is present is `Some(value)`; the seed's value may itself be JSON `null`.
 */
module Rulesets {
  import opened Wrappers

  /** One entry of `rules.criteria.numerical`: the measure, its weight and `ASC`/`DESC`. */
  datatype NumericalCriterion = NumericalCriterion(measure: string, weight: real, ascending: bool)

  datatype CriteriaConfig = CriteriaConfig(numerical: Option<seq<NumericalCriterion>>)

  /** The `rules` object. `random` holds the truth value of whatever the file gives. */
  datatype RulesConfig = RulesConfig(random: Option<bool>, seed: Option<Option<int>>,
                                     criteria: Option<CriteriaConfig>, dynamic: Option<bool>)

  datatype RuleSetConfig = RuleSetConfig(id: int, name: string, description: string, rules: Option<RulesConfig>)

  datatype RuleSet = RuleSet(id: int, name: string, description: string, random: bool,
                             seed: Option<int>, numericalCriteria: seq<NumericalCriterion>, dynamic: bool)

  /**
   * The first `try`: `random` and `seed` are read together, so a ruleset missing either
   * key is not random and has no seed, even when `random` was given as true.
   */
  function RandomAndSeed(rules: Option<RulesConfig>): (r: (bool, Option<int>))
    ensures r.0 <==> rules.Some? && rules.value.random == Some(true) && rules.value.seed.Some?
    ensures rules.Some? && rules.value.random.Some? && rules.value.seed.Some? ==> r.1 == rules.value.seed.value
    ensures rules.None? || rules.value.random.None? || rules.value.seed.None? ==> r == (false, None)
  {
    match rules
    case Some(RulesConfig(Some(random), Some(seed), _, _)) => (random, seed)
    case _ => (false, None)
  }

  /** The second `try`: a missing `criteria` or `numerical` gives no numerical criteria. */
  function NumericalCriteria(rules: Option<RulesConfig>): (r: seq<NumericalCriterion>)
    ensures rules.Some? && rules.value.criteria.Some? && rules.value.criteria.value.numerical.Some? ==>
      r == rules.value.criteria.value.numerical.value
    ensures rules.None? || rules.value.criteria.None? || rules.value.criteria.value.numerical.None? ==> r == []
  {
    match rules
    case Some(RulesConfig(_, _, Some(CriteriaConfig(Some(numerical))), _)) => numerical
    case _ => []
  }

  /** The third `try`: a missing `dynamic` makes the ruleset static. */
  function Dynamic(rules: Option<RulesConfig>): (r: bool)
    ensures r <==> rules.Some? && rules.value.dynamic == Some(true)
  {
    match rules
    case Some(RulesConfig(_, _, _, Some(dynamic))) => dynamic
    case _ => false
  }

  /** The ruleset `RuleSet.__init__` builds from its description. */
  function MakeRuleSet(c: RuleSetConfig): (r: RuleSet)
    ensures r.id == c.id && r.name == c.name && r.description == c.description
    ensures (r.random, r.seed) == RandomAndSeed(c.rules)
    ensures r.numericalCriteria == NumericalCriteria(c.rules) && r.dynamic == Dynamic(c.rules)
  {
    var (random, seed) := RandomAndSeed(c.rules);
    RuleSet(c.id, c.name, c.description, random, seed, NumericalCriteria(c.rules), Dynamic(c.rules))
  }

  /** A description without a `rules` object gives a static, non-random ruleset without criteria. */
  lemma NoRulesDefaults(c: RuleSetConfig)
    requires c.rules.None?
    ensures var r := MakeRuleSet(c);
      !r.random && r.seed == None && r.numericalCriteria == [] && !r.dynamic
  {
  }

  /** `RuleSet.instances`. */
  class RuleSetRegistry {
    var instances: seq<RuleSet>

    constructor ()
      ensures instances == []
    {
      instances := [];
    }

    /** `RuleSet.__init__`: the new ruleset is appended to the registry. */
    method NewRuleSet(c: RuleSetConfig) returns (r: RuleSet)
      modifies this
      ensures r == MakeRuleSet(c)
      ensures instances == old(instances) + [r]
    {
      r := MakeRuleSet(c);
      instances := instances + [r];
    }

    /** `load_rulesets`: one ruleset per entry of the file's `rulesets`, in file order. */
    method LoadRulesets(file: seq<RuleSetConfig>)
      modifies this
      ensures |instances| == old(|instances|) + |file|
      ensures instances[..old(|instances|)] == old(instances)
      ensures forall i :: 0 <= i < |file| ==> instances[old(|instances|) + i] == MakeRuleSet(file[i])
    {
      var i := 0;
      while i < |file|
        invariant 0 <= i <= |file|
        invariant |instances| == old(|instances|) + i
        invariant instances[..old(|instances|)] == old(instances)
        invariant forall j :: 0 <= j < i ==> instances[old(|instances|) + j] == MakeRuleSet(file[j])
      {
        var _ := NewRuleSet(file[i]);
        i := i + 1;
      }
    }
  }
}

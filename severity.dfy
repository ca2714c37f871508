/**
 * `normalizeSeverity` (node/eslint-config/utils/severity.ts, and the older revision in
 * eslint-config/utils/severity.ts): rewrites every rule entry of every flat config to one
 * severity, keeping each rule's options.
 */
module Severity {
  import opened Wrappers
  import opened Collections
  import opened FlatConfigs

  /** `Linter.RuleSeverity`: `0 | 1 | 2 | 'off' | 'warn' | 'error'`. */
  predicate IsSeverity(v: Value) {
    v == Num(0) || v == Num(1) || v == Num(2) || v == Str("off") || v == Str("warn") || v == Str("error")
  }

  /** `isEmptyish(config.rules)`: absent or `{}`. */
  predicate HasNoRules(config: Config) {
    config.rules.None? || config.rules.value == []
  }

  /** The rule-entry callback: empty entries kept, bare severities replaced, array heads replaced. */
  function NormalizeRuleValue(severity: Value, ruleValue: Value): (r: Value)
    ensures IsEmptyish(ruleValue) ==> r == ruleValue
    ensures !IsEmptyish(ruleValue) && (ruleValue.Str? || ruleValue.Num?) ==> r == severity
    ensures !IsEmptyish(ruleValue) && ruleValue.Arr? ==>
      r.Arr? && |r.items| == |ruleValue.items| && r.items[0] == severity && r.items[1..] == ruleValue.items[1..]
    ensures !(ruleValue.Str? || ruleValue.Num? || ruleValue.Arr?) ==> r == ruleValue
  {
    if IsEmptyish(ruleValue) then ruleValue
    else if ruleValue.Str? || ruleValue.Num? then severity
    else if ruleValue.Arr? then Arr([severity] + ruleValue.items[1..])
    else ruleValue
  }

  /** One config: unchanged without rules, otherwise `merge` with the rewritten rules. */
  function NormalizeConfig(severity: Value, config: Config): (r: Config)
    ensures HasNoRules(config) ==> r == config
    ensures r.(rules := config.rules) == config && r.rules.Some? == config.rules.Some?
    ensures config.rules.Some? ==> Keys(r.rules.value) == Keys(config.rules.value)
  {
    if HasNoRules(config) then config
    else config.(rules := Some(MapValues(config.rules.value, v => NormalizeRuleValue(severity, v))))
  }

  /** `normalizeSeverity`, current revision. */
  function NormalizeSeverity(configs: seq<Config>, severity: Value): (r: seq<Config>)
    ensures |r| == |configs|
    ensures forall i :: 0 <= i < |configs| ==> r[i] == NormalizeConfig(severity, configs[i])
  {
    seq(|configs|, i requires 0 <= i < |configs| => NormalizeConfig(severity, configs[i]))
  }

  /**
   * Each rule entry's value after normalisation, by key: a key keeps its position and
   * its value is the rewritten original.
   */
  lemma NormalizedRulesByKey(configs: seq<Config>, severity: Value, i: nat, j: nat)
    requires i < |configs| && configs[i].rules.Some? && j < |configs[i].rules.value|
    ensures var r := NormalizeSeverity(configs, severity)[i];
      && r.rules.Some? && j < |r.rules.value|
      && r.rules.value[j].key == configs[i].rules.value[j].key
      && r.rules.value[j].value == NormalizeRuleValue(severity, configs[i].rules.value[j].value)
  {
  }

  /** A target severity is itself a bare severity that normalises to itself. */
  lemma RuleValueIdempotent(severity: Value, v: Value)
    requires IsSeverity(severity)
    ensures NormalizeRuleValue(severity, NormalizeRuleValue(severity, v)) == NormalizeRuleValue(severity, v)
  {
    if !IsEmptyish(v) && v.Arr? {
      var r := NormalizeRuleValue(severity, v);
      assert r.items != [];
      assert [severity] + r.items[1..] == r.items;
    }
  }

  /** Normalising twice with the same severity gives the result of normalising once. */
  lemma NormalizeSeverityIdempotent(configs: seq<Config>, severity: Value)
    requires IsSeverity(severity)
    ensures NormalizeSeverity(NormalizeSeverity(configs, severity), severity) == NormalizeSeverity(configs, severity)
  {
    var once := NormalizeSeverity(configs, severity);
    var twice := NormalizeSeverity(once, severity);
    forall i | 0 <= i < |configs|
      ensures twice[i] == once[i]
    {
      var c := configs[i];
      if !HasNoRules(c) {
        var rules := c.rules.value;
        var r1 := once[i].rules.value;
        assert r1 != [] by { assert |r1| == |rules|; }
        var r2 := twice[i].rules.value;
        forall j | 0 <= j < |rules|
          ensures r2[j] == r1[j]
        {
          RuleValueIdempotent(severity, rules[j].value);
        }
        assert r2 == r1;
      }
    }
  }

  /** The rule entries `RuleConfig | undefined` allows: a severity or an array. */
  predicate IsRuleEntry(v: Value) {
    v.Undefined? || v.Str? || v.Num? || v.Arr?
  }

  predicate WellTypedRules(configs: seq<Config>) {
    forall i, j :: 0 <= i < |configs| && configs[i].rules.Some? && 0 <= j < |configs[i].rules.value| ==>
      IsRuleEntry(configs[i].rules.value[j].value)
  }

  /**
   * The older rule-entry callback: every non-empty entry that is not a bare severity is
   * treated as an array, so the entry must be one of the types the config allows.
   */
  function LegacyNormalizeRuleValue(severity: Value, ruleValue: Value): (r: Value)
    requires IsRuleEntry(ruleValue)
    ensures IsEmptyish(ruleValue) ==> r == ruleValue
    ensures !IsEmptyish(ruleValue) && (ruleValue.Str? || ruleValue.Num?) ==> r == severity
    ensures !IsEmptyish(ruleValue) && ruleValue.Arr? ==>
      r.Arr? && |r.items| == |ruleValue.items| && r.items[0] == severity && r.items[1..] == ruleValue.items[1..]
  {
    if IsEmptyish(ruleValue) then ruleValue
    else if ruleValue.Str? || ruleValue.Num? then severity
    else Arr([severity] + ruleValue.items[1..])
  }

  function LegacyNormalizeConfig(severity: Value, config: Config): (r: Config)
    requires config.rules.Some? ==> forall j :: 0 <= j < |config.rules.value| ==> IsRuleEntry(config.rules.value[j].value)
    ensures HasNoRules(config) ==> r == config
    ensures r.(rules := config.rules) == config && r.rules.Some? == config.rules.Some?
    ensures config.rules.Some? ==> Keys(r.rules.value) == Keys(config.rules.value)
  {
    if HasNoRules(config) then config
    else
      var rules := config.rules.value;
      config.(rules := Some(seq(|rules|, j requires 0 <= j < |rules| =>
        Entry(rules[j].key, LegacyNormalizeRuleValue(severity, rules[j].value)))))
  }

  /** `normalizeSeverity`, older revision. */
  function LegacyNormalizeSeverity(configs: seq<Config>, severity: Value): (r: seq<Config>)
    requires WellTypedRules(configs)
    ensures |r| == |configs|
    ensures forall i :: 0 <= i < |configs| ==> r[i] == LegacyNormalizeConfig(severity, configs[i])
  {
    seq(|configs|, i requires 0 <= i < |configs| => LegacyNormalizeConfig(severity, configs[i]))
  }

  /** On the configs their type allows, both revisions compute the same configs. */
  lemma RevisionsAgree(configs: seq<Config>, severity: Value)
    requires WellTypedRules(configs)
    ensures LegacyNormalizeSeverity(configs, severity) == NormalizeSeverity(configs, severity)
  {
    forall i | 0 <= i < |configs|
      ensures LegacyNormalizeConfig(severity, configs[i]) == NormalizeConfig(severity, configs[i])
    {
      var c := configs[i];
      if !HasNoRules(c) {
        var a := LegacyNormalizeConfig(severity, c).rules.value;
        var b := NormalizeConfig(severity, c).rules.value;
        assert |a| == |b|;
        forall j | 0 <= j < |a| ensures a[j] == b[j] {
          assert IsRuleEntry(c.rules.value[j].value);
        }
        assert a == b;
      }
    }
  }
}

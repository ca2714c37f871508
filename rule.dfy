/**
 * Rule-record helpers (eslint-config/utils/rule.ts): a rules record setting many rules
 * to one severity, the names of the rules a set of plugins defines, and the record that
 * turns off every core ESLint rule a plugin redefines.
 */
module RuleUtils {
  import opened Wrappers
  import opened Strings
  import opened Collections
  import opened FlatConfigs

  /** `createRules`: `mapToObj` pairing every name with the severity. */
  function CreateRules(ruleNames: seq<string>, severity: Value): Obj<Value> {
    FromEntries(seq(|ruleNames|, i requires 0 <= i < |ruleNames| => Entry(ruleNames[i], severity)))
  }

  /** Every name becomes a key, once, in order of first appearance, mapped to the severity. */
  lemma CreateRulesSpec(ruleNames: seq<string>, severity: Value)
    ensures Keys(CreateRules(ruleNames, severity)) == Distinct(ruleNames)
    ensures forall k :: k in Keys(CreateRules(ruleNames, severity)) <==> k in ruleNames
    ensures forall i :: 0 <= i < |CreateRules(ruleNames, severity)| ==> CreateRules(ruleNames, severity)[i].value == severity
  {
    var pairs := seq(|ruleNames|, i requires 0 <= i < |ruleNames| => Entry(ruleNames[i], severity));
    FromEntriesSpec(pairs, severity);
    assert Keys(pairs) == ruleNames;
    DistinctSpec(ruleNames);
  }

  /** The recorded name of rule `ruleName` of plugin `pluginName`. */
  function RuleName(withPluginName: bool, pluginName: string, ruleName: string): string {
    if withPluginName then pluginName + "/" + ruleName else ruleName
  }

  /** The names one plugin's rules contribute, in order, deprecated rules left out. */
  function RulesNames(withPluginName: bool, pluginName: string, rules: Obj<RuleModule>): seq<string> {
    if rules == [] then [] else
      var last := rules[|rules| - 1];
      RulesNames(withPluginName, pluginName, rules[..|rules| - 1])
        + (if IsTruthy(last.value.deprecated) then [] else [RuleName(withPluginName, pluginName, last.key)])
  }

  /** A plugin without rules, or with an empty rules record, contributes nothing. */
  function PluginRuleNames(withPluginName: bool, pluginName: string, plugin: Plugin): seq<string> {
    match plugin.rules
    case None => []
    case Some(rules) => RulesNames(withPluginName, pluginName, rules)
  }

  function PluginRuleNamesOf(plugins: Obj<Plugin>, withPluginName: bool): (r: seq<seq<string>>)
    ensures |r| == |plugins|
    ensures forall i :: 0 <= i < |plugins| ==> r[i] == PluginRuleNames(withPluginName, plugins[i].key, plugins[i].value)
  {
    seq(|plugins|, i requires 0 <= i < |plugins| => PluginRuleNames(withPluginName, plugins[i].key, plugins[i].value))
  }

  /** The contents of the `Set` `collectRuleNames` fills, in iteration order. */
  function RuleNamesOf(plugins: Obj<Plugin>, withPluginName: bool): seq<string> {
    Distinct(Flatten(PluginRuleNamesOf(plugins, withPluginName)))
  }

  /** The inner `forEachObj` over one plugin's rules. */
  method AddRuleNames(names: seq<string>, ghost seen: seq<string>, withPluginName: bool, pluginName: string, rules: Obj<RuleModule>)
    returns (r: seq<string>)
    requires names == Distinct(seen)
    ensures r == Distinct(seen + RulesNames(withPluginName, pluginName, rules))
  {
    r := names;
    var j := 0;
    assert seen + RulesNames(withPluginName, pluginName, rules[..0]) == seen;
    while j < |rules|
      invariant 0 <= j <= |rules|
      invariant r == Distinct(seen + RulesNames(withPluginName, pluginName, rules[..j]))
    {
      AddRuleNamesStep(seen, withPluginName, pluginName, rules, j, r);
      if !IsTruthy(rules[j].value.deprecated) {
        r := Insert(r, RuleName(withPluginName, pluginName, rules[j].key));
      }
      j := j + 1;
    }
    assert rules[..j] == rules;
  }

  lemma AddRuleNamesStep(seen: seq<string>, withPluginName: bool, pluginName: string, rules: Obj<RuleModule>, j: nat, r: seq<string>)
    requires j < |rules| && r == Distinct(seen + RulesNames(withPluginName, pluginName, rules[..j]))
    ensures Distinct(seen + RulesNames(withPluginName, pluginName, rules[..j + 1]))
      == if IsTruthy(rules[j].value.deprecated) then r else Insert(r, RuleName(withPluginName, pluginName, rules[j].key))
  {
    RulesNamesStep(withPluginName, pluginName, rules, j);
    var before := RulesNames(withPluginName, pluginName, rules[..j]);
    if !IsTruthy(rules[j].value.deprecated) {
      var name := RuleName(withPluginName, pluginName, rules[j].key);
      DistinctStep(seen + before, name);
      assert seen + (before + [name]) == seen + before + [name];
    } else {
      assert before + [] == before;
    }
  }

  lemma RulesNamesStep(withPluginName: bool, pluginName: string, rules: Obj<RuleModule>, j: nat)
    requires j < |rules|
    ensures RulesNames(withPluginName, pluginName, rules[..j + 1])
      == RulesNames(withPluginName, pluginName, rules[..j])
        + (if IsTruthy(rules[j].value.deprecated) then [] else [RuleName(withPluginName, pluginName, rules[j].key)])
  {
    assert rules[..j + 1][..j] == rules[..j];
  }

  /** `collectRuleNames`; `options` is `shouldWithPluginName`, `None` when not given. */
  method CollectRuleNames(plugins: Obj<Plugin>, shouldWithPluginName: Option<bool>) returns (names: seq<string>)
    ensures names == RuleNamesOf(plugins, shouldWithPluginName.GetOr(true))
  {
    var withPluginName := shouldWithPluginName.GetOr(true);
    ghost var lists := PluginRuleNamesOf(plugins, withPluginName);
    names := [];
    var i := 0;
    while i < |plugins|
      invariant 0 <= i <= |plugins|
      invariant names == Distinct(Flatten(lists[..i]))
    {
      var pluginName := plugins[i].key;
      var plugin := plugins[i].value;
      assert lists[..i + 1] == lists[..i] + [lists[i]];
      FlattenSnoc(lists[..i], lists[i]);
      if plugin.rules.Some? && plugin.rules.value != [] {
        names := AddRuleNames(names, Flatten(lists[..i]), withPluginName, pluginName, plugin.rules.value);
      } else {
        assert lists[i] == [];
        assert Flatten(lists[..i]) + [] == Flatten(lists[..i]);
      }
      i := i + 1;
    }
    assert lists[..i] == lists;
  }

  /** Rule `j` of `rules` is not deprecated and is recorded as `name`. */
  predicate RecordsAs(withPluginName: bool, pluginName: string, rules: Obj<RuleModule>, j: int, name: string) {
    0 <= j < |rules| && !IsTruthy(rules[j].value.deprecated) && name == RuleName(withPluginName, pluginName, rules[j].key)
  }

  lemma {:induction false} RulesNamesMember(withPluginName: bool, pluginName: string, rules: Obj<RuleModule>, name: string)
    ensures name in RulesNames(withPluginName, pluginName, rules) <==>
      exists j :: RecordsAs(withPluginName, pluginName, rules, j, name)
  {
    if rules != [] {
      var init := rules[..|rules| - 1];
      RulesNamesMember(withPluginName, pluginName, init, name);
      if exists j :: RecordsAs(withPluginName, pluginName, rules, j, name) {
        var j :| RecordsAs(withPluginName, pluginName, rules, j, name);
        if j < |init| {
          assert init[j] == rules[j];
          assert RecordsAs(withPluginName, pluginName, init, j, name);
        }
      }
      if RecordsAs(withPluginName, pluginName, rules, |rules| - 1, name) {
        assert name in RulesNames(withPluginName, pluginName, rules);
      }
      if exists j :: RecordsAs(withPluginName, pluginName, init, j, name) {
        var j :| RecordsAs(withPluginName, pluginName, init, j, name);
        assert init[j] == rules[j];
        assert RecordsAs(withPluginName, pluginName, rules, j, name);
      }
    }
  }

  /**
   * The collected names have no duplicates and are exactly the names of the rules some
   * plugin defines and does not mark deprecated, `plugin/rule` or bare as asked.
   */
  lemma RuleNamesSpec(plugins: Obj<Plugin>, withPluginName: bool, name: string)
    ensures NoDuplicates(RuleNamesOf(plugins, withPluginName))
    ensures name in RuleNamesOf(plugins, withPluginName) <==>
      exists i, j :: 0 <= i < |plugins| && plugins[i].value.rules.Some?
        && RecordsAs(withPluginName, plugins[i].key, plugins[i].value.rules.value, j, name)
  {
    var lists := PluginRuleNamesOf(plugins, withPluginName);
    DistinctSpec(Flatten(lists));
    FlattenMember(lists, name);
    if name in Flatten(lists) {
      var i :| 0 <= i < |lists| && name in lists[i];
      RulesNamesMember(withPluginName, plugins[i].key, plugins[i].value.rules.value, name);
    }
    if exists i, j :: 0 <= i < |plugins| && plugins[i].value.rules.Some?
        && RecordsAs(withPluginName, plugins[i].key, plugins[i].value.rules.value, j, name)
    {
      var i, j :| 0 <= i < |plugins| && plugins[i].value.rules.Some?
        && RecordsAs(withPluginName, plugins[i].key, plugins[i].value.rules.value, j, name);
      RulesNamesMember(withPluginName, plugins[i].key, plugins[i].value.rules.value, name);
      assert name in lists[i];
    }
  }

  /** Names come out in the order their first registration appears. */
  lemma RuleNamesOrder(plugins: Obj<Plugin>, withPluginName: bool, i: nat, j: nat)
    requires i < j < |RuleNamesOf(plugins, withPluginName)|
    ensures var names := RuleNamesOf(plugins, withPluginName);
      var all := Flatten(PluginRuleNamesOf(plugins, withPluginName));
      names[i] in all && names[j] in all && FirstIndex(all, names[i]) < FirstIndex(all, names[j])
  {
    DistinctFirstOccurrenceOrder(Flatten(PluginRuleNamesOf(plugins, withPluginName)), i, j);
  }

  /**
   * `createDisabledBuiltinExtendedRules`: the core rule names (the keys of
   * `js.configs.all.rules`, a parameter here) that some plugin also defines under the
   * same bare name, each mapped to `'off'`.
   */
  function CreateDisabledBuiltinExtendedRules(builtinRuleNames: seq<string>, plugins: Obj<Plugin>): Obj<Value> {
    var disabledNames := MultisetIntersection(builtinRuleNames, multiset(RuleNamesOf(plugins, false)));
    FromEntries(seq(|disabledNames|, i requires 0 <= i < |disabledNames| => Entry(disabledNames[i], Str("off"))))
  }

  /**
   * Its keys are exactly the core rule names a plugin redefines, each once, and every
   * value is `'off'`.
   */
  lemma DisabledBuiltinExtendedRulesSpec(builtinRuleNames: seq<string>, plugins: Obj<Plugin>, name: string)
    requires NoDuplicates(builtinRuleNames)
    ensures var r := CreateDisabledBuiltinExtendedRules(builtinRuleNames, plugins);
      && NoDuplicates(Keys(r))
      && (name in Keys(r) <==> name in builtinRuleNames && name in RuleNamesOf(plugins, false))
      && forall i :: 0 <= i < |r| ==> r[i].value == Str("off")
  {
    var disabledNames := MultisetIntersection(builtinRuleNames, multiset(RuleNamesOf(plugins, false)));
    var pairs := seq(|disabledNames|, i requires 0 <= i < |disabledNames| => Entry(disabledNames[i], Str("off")));
    FromEntriesSpec(pairs, Str("off"));
    assert Keys(pairs) == disabledNames;
    DistinctSpec(disabledNames);
    MultisetIntersectionMember(builtinRuleNames, multiset(RuleNamesOf(plugins, false)), name);
  }
}

/**
 * `collectPluginNames` (node/eslint-config/utils/plugin.ts; the same body as
 * `collectPluginNamesByConfigs` in eslint-config/utils/plugin.ts): the plugin names
 * registered across a list of flat configs, each once, in order of first appearance.
 */
module PluginNames {
  import opened Wrappers
  import opened Collections
  import opened FlatConfigs

  /** `keys(config.plugins)`, nothing when `plugins` is empty or absent. */
  function PluginKeys(config: Config): seq<string> {
    match config.plugins
    case None => []
    case Some(plugins) => Keys(plugins)
  }

  /** Every config's plugin keys, config by config. */
  function PluginKeysOf(configs: seq<Config>): (r: seq<seq<string>>)
    ensures |r| == |configs| && forall i :: 0 <= i < |configs| ==> r[i] == PluginKeys(configs[i])
  {
    seq(|configs|, i requires 0 <= i < |configs| => PluginKeys(configs[i]))
  }

  /** The names the `Set` ends up holding, in its iteration order. */
  function PluginNamesOf(configs: seq<Config>): seq<string> {
    Distinct(Flatten(PluginKeysOf(configs)))
  }

  /** The loop over configs, adding the plugin keys of each config that has plugins. */
  method CollectPluginNames(configs: seq<Config>) returns (names: seq<string>)
    ensures names == PluginNamesOf(configs)
  {
    ghost var lists := PluginKeysOf(configs);
    names := [];
    var i := 0;
    while i < |configs|
      invariant 0 <= i <= |configs|
      invariant names == Distinct(Flatten(lists[..i]))
    {
      var config := configs[i];
      assert lists[..i + 1] == lists[..i] + [lists[i]];
      FlattenSnoc(lists[..i], lists[i]);
      if config.plugins.Some? && config.plugins.value != [] {
        names := AddAll(names, Flatten(lists[..i]), Keys(config.plugins.value));
      } else {
        assert lists[i] == [];
        assert Flatten(lists[..i]) + [] == Flatten(lists[..i]);
      }
      i := i + 1;
    }
    assert lists[..i] == lists;
  }

  /**
   * The result has no duplicates and holds exactly the plugin keys of the configs;
   * a config without plugins contributes nothing.
   */
  lemma PluginNamesSpec(configs: seq<Config>, name: string)
    ensures NoDuplicates(PluginNamesOf(configs))
    ensures name in PluginNamesOf(configs) <==>
      exists i :: 0 <= i < |configs| && configs[i].plugins.Some? && name in Keys(configs[i].plugins.value)
  {
    var lists := PluginKeysOf(configs);
    DistinctSpec(Flatten(lists));
    FlattenMember(lists, name);
  }

  /** Names come out in the order their first registration appears across the configs. */
  lemma PluginNamesOrder(configs: seq<Config>, i: nat, j: nat)
    requires i < j < |PluginNamesOf(configs)|
    ensures var names := PluginNamesOf(configs); var all := Flatten(PluginKeysOf(configs));
      names[i] in all && names[j] in all && FirstIndex(all, names[i]) < FirstIndex(all, names[j])
  {
    DistinctFirstOccurrenceOrder(Flatten(PluginKeysOf(configs)), i, j);
  }

  /** Configs without plugins may be dropped without changing the result. */
  lemma ConfigsWithoutPluginsContributeNothing(configs: seq<Config>, config: Config)
    requires config.plugins.None? || config.plugins.value == []
    ensures PluginNamesOf(configs + [config]) == PluginNamesOf(configs)
  {
    var lists := PluginKeysOf(configs + [config]);
    assert lists == PluginKeysOf(configs) + [[]];
    FlattenSnoc(PluginKeysOf(configs), []);
    assert Flatten(PluginKeysOf(configs)) + [] == Flatten(PluginKeysOf(configs));
  }
}

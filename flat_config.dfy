/**
 * The parts of an ESLint flat config (`Config` from `eslint/config`) that the config
 * utilities read: its name, plugins, rules and settings. Every other field is kept as
 * an opaque list of entries.
 */
module FlatConfigs {
  import opened Wrappers
  import opened Collections

  /** A rule module: `meta?.deprecated`, `undefined` when there is no `meta`. */
  datatype RuleModule = RuleModule(deprecated: Value)

  /** A plugin: its `rules` record, `None` when absent. */
  datatype Plugin = Plugin(rules: Option<Obj<RuleModule>>)

  datatype Config = Config(
    name: Option<string>,
    plugins: Option<Obj<Plugin>>,
    rules: Option<Obj<Value>>,
    settings: Option<Obj<Value>>,
    others: Obj<Value>)
}

/**
 * Audit settings (eslint-config/utils/audit.ts): a config may opt out of having every
 * rule prepended during an audit by setting `settings.audit.shouldPrependAllRules` to
 * `false`; this module reads that setting and lists the config names it applies to.
 */
module AuditSettings {
  import opened Wrappers
  import opened Strings
  import opened Collections
  import opened FlatConfigs

  const AuditSettingsNamespace: string := "audit"
  const ShouldPrependAllRulesKey: string := "shouldPrependAllRules"

  /** The parsed settings: `shouldPrependAllRules`, `None` when not given. */
  datatype Settings = Settings(shouldPrependAllRules: Option<bool>)

  /** The schema parse error, carrying the rejected value. */
  datatype AuditError = InvalidAuditSettings(settings: Value)

  /** `defineAuditSettings`: the settings placed under their namespace. */
  function DefineAuditSettings(settings: Settings): (r: Obj<Value>)
    ensures Lookup(r, AuditSettingsNamespace).Some?
    ensures ParseAuditSettings(Lookup(r, AuditSettingsNamespace).value) == Success(settings)
  {
    var fields := match settings.shouldPrependAllRules
      case None => []
      case Some(b) => [Entry(ShouldPrependAllRulesKey, Bool(b))];
    [Entry(AuditSettingsNamespace, ObjVal(fields))]
  }

  /**
   * `auditSettingsSchema.parse`: an object whose `shouldPrependAllRules`, if present and
   * not `undefined`, is a boolean; unknown keys are dropped, anything else throws.
   */
  function ParseAuditSettings(v: Value): (r: Result<Settings, AuditError>)
    ensures r.Failure? ==> r.error == InvalidAuditSettings(v)
  {
    if !v.ObjVal? then Failure(InvalidAuditSettings(v))
    else
      var flag := Lookup(v.fields, ShouldPrependAllRulesKey);
      if flag.None? || flag.value.Undefined? then Success(Settings(None))
      else if flag.value.Bool? then Success(Settings(Some(flag.value.b)))
      else Failure(InvalidAuditSettings(v))
  }

  /** `config.settings?.audit`, `None` for `undefined`. */
  function RawAuditSettings(config: Config): Option<Value> {
    match config.settings
    case None => None
    case Some(settings) => Lookup(settings, AuditSettingsNamespace)
  }

  /** `resolveAuditSettingsByConfig`: `undefined` and `null` read as `{}`. */
  function ResolveAuditSettings(config: Config): Result<Settings, AuditError> {
    var raw := RawAuditSettings(config);
    if raw.None? || raw.value.Undefined? || raw.value.Null? then ParseAuditSettings(ObjVal([]))
    else ParseAuditSettings(raw.value)
  }

  /**
   * Absent audit settings resolve to "not given", so the config has not opted out; a
   * value that is not an object, or whose flag is not a boolean, throws.
   */
  lemma ResolveAuditSettingsSpec(config: Config)
    ensures RawAuditSettings(config).None? ==> ResolveAuditSettings(config) == Success(Settings(None))
    ensures ResolveAuditSettings(config).Failure? <==>
      (RawAuditSettings(config).Some?
       && var v := RawAuditSettings(config).value;
       && v != Undefined && v != Null
       && (!v.ObjVal? || (Lookup(v.fields, ShouldPrependAllRulesKey).Some?
             && !Lookup(v.fields, ShouldPrependAllRulesKey).value.Bool?
             && !Lookup(v.fields, ShouldPrependAllRulesKey).value.Undefined?)))
  {
  }

  /** The config's settings parse and say `shouldPrependAllRules: false`. */
  predicate OptsOut(config: Config) {
    ResolveAuditSettings(config) == Success(Settings(Some(false)))
  }

  predicate IsMalformed(config: Config) {
    ResolveAuditSettings(config).Failure?
  }

  /** `config.name?.trim()` kept only when truthy. */
  function TrimmedName(config: Config): (r: Option<string>)
    ensures r.Some? ==> r.value != []
  {
    if config.name.Some? && Trim(config.name.value) != [] then Some(Trim(config.name.value)) else None
  }

  /** The trimmed, non-empty names of the configs, in order. */
  function TrimmedNames(configs: seq<Config>): (r: seq<string>)
    ensures forall x :: x in r <==> exists c :: c in configs && TrimmedName(c) == Some(x)
  {
    if configs == [] then [] else
      var init := configs[..|configs| - 1];
      var last := configs[|configs| - 1];
      assert configs == init + [last];
      TrimmedNames(init) + (if TrimmedName(last).Some? then [TrimmedName(last).value] else [])
  }

  /**
   * The first pipe: the trimmed names of the opted-out configs. The schema parse throws
   * at the first config, in order, whose settings are malformed.
   */
  function ExactConfigNames(configs: seq<Config>): (r: Result<seq<string>, AuditError>)
    ensures r.Failure? ==>
      (exists i :: 0 <= i < |configs| && ResolveAuditSettings(configs[i]) == Failure(r.error)
         && forall j :: 0 <= j < i ==> !IsMalformed(configs[j]))
    ensures r.Success? <==> forall c :: c in configs ==> !IsMalformed(c)
    ensures r.Success? ==> forall x :: x in r.value <==> exists c :: c in configs && OptsOut(c) && TrimmedName(c) == Some(x)
  {
    match FindIndex(configs, IsMalformed)
    case Some(i) => Failure(ResolveAuditSettings(configs[i]).error)
    case None =>
      var optedOut := Filter(configs, OptsOut);
      assert forall c :: c in optedOut <==> c in configs && OptsOut(c) by {
        forall c | c in configs && OptsOut(c) ensures c in optedOut {
          var i :| 0 <= i < |configs| && configs[i] == c;
        }
        forall c | c in optedOut ensures c in configs && OptsOut(c) {
          var i :| 0 <= i < |optedOut| && optedOut[i] == c;
        }
      }
      Success(TrimmedNames(optedOut))
  }

  predicate StartsWithSome(name: string, prefixes: seq<string>) {
    exists k :: 0 <= k < |prefixes| && StartsWith(name, prefixes[k])
  }

  /**
   * `collectSkipPrependAllRulesConfigNames`: the trimmed names, in config order, that
   * start with the name of some opted-out config.
   */
  function CollectSkipPrependAllRulesConfigNames(configs: seq<Config>): Result<seq<string>, AuditError> {
    match ExactConfigNames(configs)
    case Failure(e) => Failure(e)
    case Success(exact) => Success(Filter(TrimmedNames(configs), (name: string) => StartsWithSome(name, exact)))
  }

  /** The collection throws exactly when some config's audit settings are malformed. */
  lemma CollectFailsOnMalformed(configs: seq<Config>)
    ensures CollectSkipPrependAllRulesConfigNames(configs).Success? <==> forall c :: c in configs ==> !IsMalformed(c)
    ensures CollectSkipPrependAllRulesConfigNames(configs).Failure? ==>
      CollectSkipPrependAllRulesConfigNames(configs).error == ExactConfigNames(configs).error
  {
  }

  /** Blank names are never listed. */
  lemma CollectNoBlankNames(configs: seq<Config>)
    ensures var r := CollectSkipPrependAllRulesConfigNames(configs);
      r.Success? ==> [] !in r.value
  {
    var exact := ExactConfigNames(configs);
    if exact.Success? {
      var r := Filter(TrimmedNames(configs), (n: string) => StartsWithSome(n, exact.value));
      assert forall i :: 0 <= i < |r| ==> r[i] in TrimmedNames(configs);
    }
  }

  /** A listed name is the trimmed name of a config and extends an opted-out config's name. */
  lemma CollectSound(configs: seq<Config>, name: string)
    ensures var r := CollectSkipPrependAllRulesConfigNames(configs);
      r.Success? && name in r.value ==>
        && (exists c :: c in configs && TrimmedName(c) == Some(name))
        && exists o :: o in configs && OptsOut(o) && TrimmedName(o).Some? && StartsWith(name, TrimmedName(o).value)
  {
    var exact := ExactConfigNames(configs);
    if exact.Success? {
      var r := Filter(TrimmedNames(configs), (n: string) => StartsWithSome(n, exact.value));
      if name in r {
        var m :| 0 <= m < |r| && r[m] == name;
        var k :| 0 <= k < |exact.value| && StartsWith(name, exact.value[k]);
        assert exact.value[k] in exact.value;
      }
    }
  }

  /** A config name that extends an opted-out config's name is listed. */
  lemma CollectComplete(configs: seq<Config>, c: Config, o: Config)
    requires c in configs && TrimmedName(c).Some?
    requires o in configs && OptsOut(o) && TrimmedName(o).Some? && StartsWith(TrimmedName(c).value, TrimmedName(o).value)
    ensures var r := CollectSkipPrependAllRulesConfigNames(configs);
      r.Success? ==> TrimmedName(c).value in r.value
  {
    var exact := ExactConfigNames(configs);
    if exact.Success? {
      var names := TrimmedNames(configs);
      var p := (n: string) => StartsWithSome(n, exact.value);
      var name := TrimmedName(c).value;
      var k :| 0 <= k < |exact.value| && exact.value[k] == TrimmedName(o).value;
      assert p(name);
      var m :| 0 <= m < |names| && names[m] == name;
    }
  }

  /** Every opted-out config's own trimmed name is listed. */
  lemma CollectListsOptedOut(configs: seq<Config>, c: Config)
    requires c in configs && OptsOut(c) && TrimmedName(c).Some?
    ensures var r := CollectSkipPrependAllRulesConfigNames(configs);
      r.Success? ==> TrimmedName(c).value in r.value
  {
    CollectComplete(configs, c, c);
  }

  /** With no opted-out config nothing is listed. */
  lemma CollectEmptyWithoutOptOut(configs: seq<Config>)
    requires forall c :: c in configs ==> !OptsOut(c)
    ensures var r := CollectSkipPrependAllRulesConfigNames(configs);
      r.Success? ==> r.value == []
  {
    var r := CollectSkipPrependAllRulesConfigNames(configs);
    if r.Success? && r.value != [] {
      var x := r.value[0];
      CollectSound(configs, x);
    }
  }
}

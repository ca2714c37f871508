/**
 * eslint-config/local-plugin/rules/module-identifier-naming-convention.ts, the older
 * revision of the module-identifier rule. It reads the older case variants
 * (utils/string.ts, fields `raw`, `camelCase`, `pascalCase`), tests and replaces through a
 * per-`create()` `RegexSourceMatcher`, and has no blank-path guard: every extracted binding
 * goes through selection. Its visitors are the same code as the newest revision's
 * (`ModuleIdentifier.Bindings`, `ModuleIdentifier.ModulePath`).
 */
module ModuleIdentifierLegacy {
  import opened Wrappers
  import opened Strings
  import opened Foreign
  import opened Matchers
  import opened Selection
  import opened RegexSourceMatching
  import Collections
  import LibString
  import UtilsString
  import ModuleIdentifier

  /** The `mode` switch; `replace` goes through the matcher and may come back `null`. */
  function ExpectedIdentifier(e: RegexEngine, c: Casing, m: Matcher, variants: UtilsString.CaseVariants,
                              st: MatcherState): Step<Option<string>> {
    match m.mode
    case Equal(identifier) => Step(st, Some(identifier))
    case CamelCase => Step(st, Some(variants.camelCase))
    case PascalCase => Step(st, Some(variants.pascalCase))
    case Replace(replacement, t) =>
      var r := MatcherReplace(e, m.regexSource, variants.raw, replacement, st);
      match r.value
      case None => Step(r.state, None)
      case Some(replaced) =>
        var replacedVariants := UtilsString.GetSanitizedCaseVariants(c, replaced);
        Step(r.state, Some(match t
          case KeepAsIs => replaced
          case ToCamelCase => replacedVariants.camelCase
          case ToPascalCase => replacedVariants.pascalCase))
  }

  function ReportTo(st: MatcherState, d: Diagnostic): MatcherState {
    st.(diags := st.diags + [d])
  }

  /** `lintModuleIdentifier` (older revision). */
  function Lint(e: RegexEngine, c: Casing, opts: Options, b: Binding, variants: UtilsString.CaseVariants,
                st: MatcherState): MatcherState {
    var ms := MatcherList(opts);
    var sel := SelectMatcher(e, ms, 0, b.kind, variants.raw, st);
    match sel.value
    case None => if IgnoresUnmatched(opts) then sel.state else ReportTo(sel.state, MatcherNotFound(variants.raw))
    case Some(j) =>
      var expected := ExpectedIdentifier(e, c, ms[j], variants, sel.state);
      match expected.value
      case None => expected.state
      case Some(name) =>
        if b.name == name then expected.state
        else ReportTo(expected.state, InvalidName(b.name, variants.raw, name))
  }

  /**
   * For a matcher whose regex compiles, the expectation is the newest revision's, and the
   * `replace` call reports nothing: its source compiled when selection tested it.
   */
  lemma ExpectedAgrees(e: RegexEngine, c: Casing, m: Matcher, path: string, st: MatcherState)
    requires Coherent(e, st) && e.compiles(Regex(m.regexSource, []))
    ensures var expected := ExpectedIdentifier(e, c, m, UtilsString.GetSanitizedCaseVariants(c, path), st);
      && expected.value == ModuleIdentifier.ExpectedIdentifier(e, c, m, LibString.GetSanitizedCaseVariants(c, path))
      && SinkOf(expected.state) == SinkOf(st) && Coherent(e, expected.state)
  {
    if m.mode.Replace? {
      GetOrCompileSpec(e, m.regexSource, st);
      MatcherReplaceSpec(e, m.regexSource, path, m.mode.replacement, st);
      UtilsString.AgreesWithNewerRevision(c, e.replaceFirst(Regex(m.regexSource, []), path, m.mode.replacement));
    }
  }

  /**
   * Whatever the path, blank or not, the older revision reports exactly what the newest
   * revision's selection and verdict report; the newest revision only adds the blank-path
   * guard. This carries first-match selection, report-once, the `matcherNotFound` and
   * mismatch outcomes and the unreachable `null` replacement over to this revision.
   */
  lemma AgreesWithNewestUnguarded(e: RegexEngine, c: Casing, opts: Options, b: Binding, path: string, st: MatcherState)
    requires Coherent(e, st)
    ensures var out := Lint(e, c, opts, b, UtilsString.GetSanitizedCaseVariants(c, path), st);
      Coherent(e, out)
      && SinkOf(out) == ModuleIdentifier.LintSelected(e, c, opts, b, LibString.GetSanitizedCaseVariants(c, path), SinkOf(st))
  {
    var ms := MatcherList(opts);
    var sel := SelectMatcher(e, ms, 0, b.kind, path, st);
    SelectMatcherAgrees(e, ms, 0, b.kind, path, st);
    SelectFirstMatch(e, ms, 0, b.kind, path, SinkOf(st));
    if sel.value.None? {
      if !IgnoresUnmatched(opts) {
        ReportedOnceOther(sel.state.reported, sel.state.diags, MatcherNotFound(path));
      }
    } else {
      var m := ms[sel.value.value];
      var expected := ExpectedIdentifier(e, c, m, UtilsString.GetSanitizedCaseVariants(c, path), sel.state);
      ExpectedAgrees(e, c, m, path, sel.state);
      if expected.value.Some? && b.name != expected.value.value {
        ReportedOnceOther(expected.state.reported, expected.state.diags, InvalidName(b.name, path, expected.value.value));
      }
    }
  }

  /**
   * The revisions differ on blank paths: with no matchers configured, the empty path draws
   * `matcherNotFound` here and nothing from the newest revision.
   */
  lemma BlankPathDiverges(e: RegexEngine, c: Casing, b: Binding, st: MatcherState)
    ensures Lint(e, c, Options(None, None), b, UtilsString.GetSanitizedCaseVariants(c, ""), st).diags
         == st.diags + [MatcherNotFound("")]
    ensures ModuleIdentifier.Lint(e, c, Options(None, None), b, LibString.GetSanitizedCaseVariants(c, ""), SinkOf(st))
         == SinkOf(st)
  {
  }

  /**
   * With the default options and a regex engine for which `^.*$` compiles and matches the
   * path, the binding is held to the path's camelCase form, blank path included.
   */
  lemma DefaultOptionsOutcome(e: RegexEngine, c: Casing, b: Binding, path: string, st: MatcherState)
    requires Coherent(e, st)
    requires e.compiles(Regex(AnyPathSource, [])) && e.test(Regex(AnyPathSource, []), path)
    ensures var camel := UtilsString.GetSanitizedCaseVariants(c, path).camelCase;
      Lint(e, c, DefaultOptions, b, UtilsString.GetSanitizedCaseVariants(c, path), st).diags
      == st.diags + (if b.name == camel then [] else [InvalidName(b.name, path, camel)])
  {
    GetOrCompileSpec(e, AnyPathSource, st);
  }

  /** Lint one binding after another. */
  function LintAll(e: RegexEngine, c: Casing, opts: Options, bs: seq<Binding>, variants: UtilsString.CaseVariants,
                   st: MatcherState): MatcherState
    decreases |bs|
  {
    if bs == [] then st else LintAll(e, c, opts, bs[1..], variants, Lint(e, c, opts, bs[0], variants, st))
  }

  /** The visitors, as in the newest revision. */
  function Visit(e: RegexEngine, c: Casing, opts: Options, d: Declaration, st: MatcherState): MatcherState {
    match ModuleIdentifier.ModulePath(d)
    case None => st
    case Some(path) => LintAll(e, c, opts, ModuleIdentifier.Bindings(d), UtilsString.GetSanitizedCaseVariants(c, path), st)
  }

  lemma LintAllOne(e: RegexEngine, c: Casing, opts: Options, b: Binding, variants: UtilsString.CaseVariants, st: MatcherState)
    ensures LintAll(e, c, opts, [b], variants, st) == Lint(e, c, opts, b, variants, st)
  {
    assert [b][1..] == [];
  }

  lemma {:induction false} LintAllAppend(e: RegexEngine, c: Casing, opts: Options, x: seq<Binding>, y: seq<Binding>,
                                         variants: UtilsString.CaseVariants, st: MatcherState)
    ensures LintAll(e, c, opts, x + y, variants, st) == LintAll(e, c, opts, y, variants, LintAll(e, c, opts, x, variants, st))
    decreases |x|
  {
    if x != [] {
      assert (x + y)[1..] == x[1..] + y;
      LintAllAppend(e, c, opts, x[1..], y, variants, Lint(e, c, opts, x[0], variants, st));
    } else {
      assert x + y == y;
    }
  }

  /** The rule instance of one `create()` call of the older revision. */
  class LegacyModuleIdentifierRule {
    const casing: Casing
    const options: Options
    const regexSourceMatcher: RegexSourceMatcher

    ghost predicate Valid()
      reads this, regexSourceMatcher
    {
      regexSourceMatcher.Valid()
    }

    constructor (engine: RegexEngine, casing: Casing, options: Options)
      ensures Valid() && fresh(regexSourceMatcher)
      ensures regexSourceMatcher.engine == engine && this.casing == casing && this.options == options
      ensures regexSourceMatcher.State() == MatcherState(map[], {}, [])
    {
      this.casing := casing;
      this.options := options;
      regexSourceMatcher := new RegexSourceMatcher(engine);
    }

    /** `lintModuleIdentifier` (older revision). */
    method LintModuleIdentifier(b: Binding, variants: UtilsString.CaseVariants)
      requires Valid()
      modifies regexSourceMatcher
      ensures Valid()
      ensures regexSourceMatcher.State() == Lint(regexSourceMatcher.engine, casing, options, b, variants, old(regexSourceMatcher.State()))
    {
      var ms := MatcherList(options);
      var matched := regexSourceMatcher.FindMatcher(ms, b.kind, variants.raw);
      if matched.None? {
        if IgnoresUnmatched(options) {
          return;
        }
        regexSourceMatcher.Report(MatcherNotFound(variants.raw));
        return;
      }
      var matcher := ms[matched.value];
      var expected: Option<string>;
      match matcher.mode {
        case Equal(identifier) =>
          expected := Some(identifier);
        case CamelCase =>
          expected := Some(variants.camelCase);
        case PascalCase =>
          expected := Some(variants.pascalCase);
        case Replace(replacement, t) =>
          var replaced := regexSourceMatcher.Replace(matcher.regexSource, variants.raw, replacement);
          if replaced.None? {
            return;
          }
          var replacedVariants := UtilsString.GetSanitizedCaseVariants(casing, replaced.value);
          expected := Some(match t
            case KeepAsIs => replaced.value
            case ToCamelCase => replacedVariants.camelCase
            case ToPascalCase => replacedVariants.pascalCase);
      }
      if b.name != expected.value {
        regexSourceMatcher.Report(InvalidName(b.name, variants.raw, expected.value));
      }
    }

    /** The `ImportDeclaration` visitor. */
    method VisitImport(source: string, specs: seq<ImportSpecifier>)
      requires Valid()
      modifies regexSourceMatcher
      ensures Valid()
      ensures regexSourceMatcher.State()
           == Visit(regexSourceMatcher.engine, casing, options, ImportDeclaration(source, specs), old(regexSourceMatcher.State()))
    {
      var variants := UtilsString.GetSanitizedCaseVariants(casing, source);
      var defaultName := ModuleIdentifier.FindLocal(specs, ModuleIdentifier.IsDefaultSpecifier);
      var namespaceName := ModuleIdentifier.FindLocal(specs, ModuleIdentifier.IsNamespaceSpecifier);
      var namedDefaultName := ModuleIdentifier.FindLocal(specs, ModuleIdentifier.IsNamedDefaultSpecifier);
      var e := regexSourceMatcher.engine;
      var x := ModuleIdentifier.Optional(Default, defaultName);
      var y := ModuleIdentifier.Optional(Namespace, namespaceName);
      var z := ModuleIdentifier.Optional(Default, namedDefaultName);
      LintAllAppend(e, casing, options, x + y, z, variants, regexSourceMatcher.State());
      LintAllAppend(e, casing, options, x, y, variants, regexSourceMatcher.State());
      if defaultName.Some? {
        LintAllOne(e, casing, options, Binding(Default, defaultName.value), variants, regexSourceMatcher.State());
        LintModuleIdentifier(Binding(Default, defaultName.value), variants);
      }
      if namespaceName.Some? {
        LintAllOne(e, casing, options, Binding(Namespace, namespaceName.value), variants, regexSourceMatcher.State());
        LintModuleIdentifier(Binding(Namespace, namespaceName.value), variants);
      }
      if namedDefaultName.Some? {
        LintAllOne(e, casing, options, Binding(Default, namedDefaultName.value), variants, regexSourceMatcher.State());
        LintModuleIdentifier(Binding(Default, namedDefaultName.value), variants);
      }
    }

    /** The `ExportAllDeclaration` visitor. */
    method VisitExportAll(source: string, exported: Option<ModuleExportName>)
      requires Valid()
      modifies regexSourceMatcher
      ensures Valid()
      ensures regexSourceMatcher.State()
           == Visit(regexSourceMatcher.engine, casing, options, ExportAllDeclaration(source, exported), old(regexSourceMatcher.State()))
    {
      var variants := UtilsString.GetSanitizedCaseVariants(casing, source);
      var namespaceName := if exported.Some? then NameProperty(exported.value) else None;
      if namespaceName.Some? {
        LintAllOne(regexSourceMatcher.engine, casing, options, Binding(Namespace, namespaceName.value), variants, regexSourceMatcher.State());
        LintModuleIdentifier(Binding(Namespace, namespaceName.value), variants);
      }
    }

    /** The `ExportNamedDeclaration` visitor. */
    method VisitExportNamed(source: Option<string>, specs: seq<ExportSpecifier>)
      requires Valid()
      modifies regexSourceMatcher
      ensures Valid()
      ensures regexSourceMatcher.State()
           == Visit(regexSourceMatcher.engine, casing, options, ExportNamedDeclaration(source, specs), old(regexSourceMatcher.State()))
    {
      if source.None? {
        return;
      }
      var variants := UtilsString.GetSanitizedCaseVariants(casing, source.value);
      var found := Collections.FindIndex(specs, ModuleIdentifier.IsDefaultExportSpecifier);
      if found.Some? {
        var b := Binding(Default, NodeText(specs[found.value].exported));
        LintAllOne(regexSourceMatcher.engine, casing, options, b, variants, regexSourceMatcher.State());
        LintModuleIdentifier(b, variants);
      }
    }
  }
}

/**
 * node/eslint-config/local-plugin/rules/module-identifier-naming-convention.ts, the newest
 * revision of the rule that checks default and namespace bindings against the module path.
 *
 * `lintModuleIdentifier` skips a blank path, selects a matcher (`Selection.Select`), and
 * then reports `matcherNotFound`, or `invalidModuleIdentifier` when the binding's name
 * differs from the name the selected matcher expects. Regex tests and replacements go
 * through the memoized functions of lib/utils/regex.ts, modelled by their unmemoized
 * results (`LibRegex`). The per-`create()` set `reportedInvalidRegexSources` and the
 * report sink are the fields of `ModuleIdentifierRule`.
 */
module ModuleIdentifier {
  import opened Wrappers
  import opened Strings
  import opened Collections
  import opened Foreign
  import opened Matchers
  import opened Selection
  import LibRegex
  import LibString

  /** The `transformMode` switch applied to the replaced module path's variants. */
  function Transformed(c: Casing, t: Transform, replaced: string): string {
    var variants := LibString.GetSanitizedCaseVariants(c, replaced);
    match t
    case KeepAsIs => variants.raw.value
    case ToCamelCase => variants.camelCase
    case ToPascalCase => variants.pascalCase
  }

  /**
   * The `mode` switch: the identifier the selected matcher expects, or `None` when the
   * replacement came back `null`.
   */
  function ExpectedIdentifier(e: RegexEngine, c: Casing, m: Matcher, variants: LibString.CaseVariants): Option<string> {
    match m.mode
    case Equal(identifier) => Some(identifier)
    case CamelCase => Some(variants.camelCase)
    case PascalCase => Some(variants.pascalCase)
    case Replace(replacement, t) =>
      match LibRegex.RegexReplace(e, m.regexSource, variants.raw.value, replacement)
      case None => None
      case Some(replaced) => Some(Transformed(c, t, replaced))
  }

  /**
   * The name a matcher whose regex compiles asks for, written directly in terms of the
   * foreign functions: the configured identifier, the camel or Pascal form of the
   * sanitized path, or the first-match replacement, optionally camel or Pascal cased.
   */
  function WantedName(e: RegexEngine, c: Casing, m: Matcher, path: string): string
    requires e.compiles(Regex(m.regexSource, []))
  {
    match m.mode
    case Equal(identifier) => identifier
    case CamelCase => c.toCamelCase(LibString.Sanitize(path))
    case PascalCase => Capitalize(c, c.toCamelCase(LibString.Sanitize(path)))
    case Replace(replacement, t) =>
      var replaced := e.replaceFirst(Regex(m.regexSource, []), path, replacement);
      match t
      case KeepAsIs => replaced
      case ToCamelCase => c.toCamelCase(LibString.Sanitize(replaced))
      case ToPascalCase => Capitalize(c, c.toCamelCase(LibString.Sanitize(replaced)))
  }

  /**
   * Lines 145-237: what is reported once selection has finished, given the selected index:
   * `matcherNotFound` unless `ignoreUnMatched === true`, or `invalidModuleIdentifier` when
   * the name differs from the expected one; never an `invalidRegexSource`.
   */
  function Verdict(e: RegexEngine, c: Casing, opts: Options, b: Binding, variants: LibString.CaseVariants,
                   index: Option<nat>): (r: Option<Diagnostic>)
    requires index.Some? ==> index.value < |MatcherList(opts)|
    ensures r.Some? ==> !r.value.InvalidRegexSource?
  {
    match index
    case None => if IgnoresUnmatched(opts) then None else Some(MatcherNotFound(variants.raw.value))
    case Some(j) =>
      match ExpectedIdentifier(e, c, MatcherList(opts)[j], variants)
      case None => None
      case Some(expected) =>
        if b.name == expected then None else Some(InvalidName(b.name, variants.raw.value, expected))
  }

  /** Lines 118-237: selection, then its verdict. */
  function LintSelected(e: RegexEngine, c: Casing, opts: Options, b: Binding, variants: LibString.CaseVariants, s: Sink): Sink {
    var sel := Select(e, MatcherList(opts), 0, b.kind, variants.raw.value, s);
    match Verdict(e, c, opts, b, variants, sel.index)
    case None => sel.sink
    case Some(d) => Report(sel.sink, d)
  }

  /** `lintModuleIdentifier`: a path that trims to the empty string is skipped. */
  function Lint(e: RegexEngine, c: Casing, opts: Options, b: Binding, variants: LibString.CaseVariants, s: Sink): Sink {
    if Trim(variants.raw.value) == [] then s else LintSelected(e, c, opts, b, variants, s)
  }

  /** An empty or whitespace-only module path yields no diagnostic, whatever the matchers. */
  lemma BlankPathIsSilent(e: RegexEngine, c: Casing, opts: Options, b: Binding, path: string, s: Sink)
    requires IsBlank(path)
    ensures Lint(e, c, opts, b, LibString.GetSanitizedCaseVariants(c, path), s) == s
  {
    TrimEmptyIffBlank(path);
  }

  /** The selected matcher's expectation is `WantedName`; in particular it is never `null`. */
  lemma SelectedExpectation(e: RegexEngine, c: Casing, m: Matcher, kind: Kind, path: string)
    requires Selects(e, m, kind, path)
    ensures ExpectedIdentifier(e, c, m, LibString.GetSanitizedCaseVariants(c, path)) == Some(WantedName(e, c, m, path))
  {
  }

  /**
   * If no matcher is selected, `ignoreUnMatched === true` adds nothing after selection's own
   * reports; otherwise exactly one `matcherNotFound` carrying the path follows them.
   */
  lemma UnmatchedOutcome(e: RegexEngine, c: Casing, opts: Options, b: Binding, path: string, s: Sink)
    requires !IsBlank(path)
    requires forall j :: 0 <= j < |MatcherList(opts)| ==> !Selects(e, MatcherList(opts)[j], b.kind, path)
    ensures var sel := Select(e, MatcherList(opts), 0, b.kind, path, s);
      Lint(e, c, opts, b, LibString.GetSanitizedCaseVariants(c, path), s)
      == if IgnoresUnmatched(opts) then sel.sink else Report(sel.sink, MatcherNotFound(path))
  {
    TrimEmptyIffBlank(path);
    SelectFirstMatch(e, MatcherList(opts), 0, b.kind, path, s);
  }

  /**
   * If matcher `j` is the first that applies and tests true, the only report after
   * selection's own is `invalidModuleIdentifier`, made exactly when the actual name
   * differs from the name that matcher asks for.
   */
  lemma MatchedOutcome(e: RegexEngine, c: Casing, opts: Options, b: Binding, path: string, s: Sink, j: nat)
    requires !IsBlank(path)
    requires j < |MatcherList(opts)| && Selects(e, MatcherList(opts)[j], b.kind, path)
    requires forall k :: 0 <= k < j ==> !Selects(e, MatcherList(opts)[k], b.kind, path)
    ensures var sel := Select(e, MatcherList(opts), 0, b.kind, path, s);
      var wanted := WantedName(e, c, MatcherList(opts)[j], path);
      Lint(e, c, opts, b, LibString.GetSanitizedCaseVariants(c, path), s)
      == if b.name == wanted then sel.sink else Report(sel.sink, InvalidName(b.name, path, wanted))
  {
    TrimEmptyIffBlank(path);
    SelectIsFirstMatch(e, MatcherList(opts), 0, b.kind, path, s, j);
    SelectedExpectation(e, c, MatcherList(opts)[j], b.kind, path);
  }

  /** With the default options, a path `^.*$` matches is held to its camelCase form. */
  lemma DefaultOptionsOutcome(e: RegexEngine, c: Casing, b: Binding, path: string, s: Sink)
    requires !IsBlank(path)
    requires e.compiles(Regex(AnyPathSource, [])) && e.test(Regex(AnyPathSource, []), path)
    ensures var camel := LibString.GetSanitizedCaseVariants(c, path).camelCase;
      Lint(e, c, DefaultOptions, b, LibString.GetSanitizedCaseVariants(c, path), s)
      == if b.name == camel then s else Report(s, InvalidName(b.name, path, camel))
  {
    var ms := MatcherList(DefaultOptions);
    assert ms == [Matcher(All, AnyPathSource, CamelCase)];
    assert LibRegex.RegexTest(e, AnyPathSource, path) == Some(true);
    assert Probe(e, ms[0], b.kind, path, s) == Probed(true, s);
    assert Select(e, ms, 0, b.kind, path, s) == Selected(Some(0), s);
    MatchedOutcome(e, c, DefaultOptions, b, path, s, 0);
  }

  /** Linting keeps the sink an exact record of the reported sources. */
  lemma LintKeepsSinkValid(e: RegexEngine, c: Casing, opts: Options, b: Binding, variants: LibString.CaseVariants, s: Sink)
    requires SinkValid(e, s)
    ensures SinkValid(e, Lint(e, c, opts, b, variants, s))
  {
    var sel := Select(e, MatcherList(opts), 0, b.kind, variants.raw.value, s);
    SelectKeepsSinkValid(e, MatcherList(opts), 0, b.kind, variants.raw.value, s);
    var verdict := Verdict(e, c, opts, b, variants, sel.index);
    if verdict.Some? {
      ReportKeepsSinkValid(e, sel.sink, verdict.value);
    }
  }

  /** Linting one binding. */
  lemma LintAllOne(e: RegexEngine, c: Casing, opts: Options, b: Binding, variants: LibString.CaseVariants, s: Sink)
    ensures LintAll(e, c, opts, [b], variants, s) == Lint(e, c, opts, b, variants, s)
  {
    assert [b][1..] == [];
  }

  /** Lint one binding after another. */
  function LintAll(e: RegexEngine, c: Casing, opts: Options, bs: seq<Binding>, variants: LibString.CaseVariants, s: Sink): Sink
    decreases |bs|
  {
    if bs == [] then s else LintAll(e, c, opts, bs[1..], variants, Lint(e, c, opts, bs[0], variants, s))
  }

  predicate IsDefaultSpecifier(sp: ImportSpecifier) { sp.ImportDefaultSpecifier? }
  predicate IsNamespaceSpecifier(sp: ImportSpecifier) { sp.ImportNamespaceSpecifier? }
  /** `{ default as x }`. */
  predicate IsNamedDefaultSpecifier(sp: ImportSpecifier) {
    sp.ImportNamedSpecifier? && NodeText(sp.imported) == "default"
  }
  predicate IsDefaultExportSpecifier(sp: ExportSpecifier) { NodeText(sp.local) == "default" }

  /** `find(specifiers, p)?.local.name`. */
  function FindLocal(specs: seq<ImportSpecifier>, p: ImportSpecifier -> bool): Option<string> {
    match FindIndex(specs, p)
    case None => None
    case Some(k) => Some(specs[k].local)
  }

  function Optional(kind: Kind, name: Option<string>): seq<Binding> {
    if name.Some? then [Binding(kind, name.value)] else []
  }

  /**
   * The bindings each visitor checks, in order: an import's default, then namespace, then
   * `{ default as x }` binding; `export * as ns` as a namespace; `export { default as x }`
   * as a default.
   */
  function Bindings(d: Declaration): seq<Binding> {
    match d
    case ImportDeclaration(_, specs) =>
      Optional(Default, FindLocal(specs, IsDefaultSpecifier))
      + Optional(Namespace, FindLocal(specs, IsNamespaceSpecifier))
      + Optional(Default, FindLocal(specs, IsNamedDefaultSpecifier))
    case ExportAllDeclaration(_, exported) =>
      Optional(Namespace, if exported.Some? then NameProperty(exported.value) else None)
    case ExportNamedDeclaration(_, specs) =>
      match FindIndex(specs, IsDefaultExportSpecifier)
      case None => []
      case Some(k) => [Binding(Default, NodeText(specs[k].exported))]
  }

  /** The module path a visitor reads; an `export { ... }` without `from` has none. */
  function ModulePath(d: Declaration): Option<string> {
    match d
    case ImportDeclaration(source, _) => Some(source)
    case ExportAllDeclaration(source, _) => Some(source)
    case ExportNamedDeclaration(source, _) => source
  }

  /** The visitors: each binding of a declaration with a module path is linted in order. */
  function Visit(e: RegexEngine, c: Casing, opts: Options, d: Declaration, s: Sink): Sink {
    match ModulePath(d)
    case None => s
    case Some(path) => LintAll(e, c, opts, Bindings(d), LibString.GetSanitizedCaseVariants(c, path), s)
  }

  /** `k` is the index of the first specifier satisfying `p`, or `None` when none does. */
  predicate IsFirstOrNone(specs: seq<ImportSpecifier>, p: ImportSpecifier -> bool, k: Option<nat>) {
    match k
    case None => forall i :: 0 <= i < |specs| ==> !p(specs[i])
    case Some(k) => k < |specs| && p(specs[k]) && forall j :: 0 <= j < k ==> !p(specs[j])
  }

  /** The binding of the specifier at `k`, if any. */
  function BindingAt(kind: Kind, specs: seq<ImportSpecifier>, k: Option<nat>): seq<Binding>
    requires k.Some? ==> k.value < |specs|
  {
    if k.Some? then [Binding(kind, specs[k.value].local)] else []
  }

  lemma FindLocalOfFirst(specs: seq<ImportSpecifier>, p: ImportSpecifier -> bool, k: Option<nat>)
    requires IsFirstOrNone(specs, p, k)
    ensures k.Some? ==> k.value < |specs|
    ensures Optional(Default, FindLocal(specs, p)) == BindingAt(Default, specs, k)
    ensures Optional(Namespace, FindLocal(specs, p)) == BindingAt(Namespace, specs, k)
  {
  }

  /**
   * An import checks, in this order and each only when present, the local name of its first
   * default specifier as a default, of its first namespace specifier as a namespace, and of
   * its first `{ default as x }` specifier as a default.
   */
  lemma ImportBindingsShape(source: string, specs: seq<ImportSpecifier>, kd: Option<nat>, kn: Option<nat>, knd: Option<nat>)
    requires IsFirstOrNone(specs, IsDefaultSpecifier, kd)
    requires IsFirstOrNone(specs, IsNamespaceSpecifier, kn)
    requires IsFirstOrNone(specs, IsNamedDefaultSpecifier, knd)
    ensures Bindings(ImportDeclaration(source, specs))
         == BindingAt(Default, specs, kd) + BindingAt(Namespace, specs, kn) + BindingAt(Default, specs, knd)
  {
    FindLocalOfFirst(specs, IsDefaultSpecifier, kd);
    FindLocalOfFirst(specs, IsNamespaceSpecifier, kn);
    FindLocalOfFirst(specs, IsNamedDefaultSpecifier, knd);
  }

  /** `export * as ns from` checks `ns` as a namespace; a string-literal name is not read. */
  lemma ExportAllBindings(source: string, exported: Option<ModuleExportName>)
    ensures Bindings(ExportAllDeclaration(source, exported))
         == if exported.Some? && exported.value.Identifier? then [Binding(Namespace, exported.value.name)] else []
  {
  }

  /** A source-less `export { ... }` is skipped entirely. */
  lemma LocalExportIsSkipped(e: RegexEngine, c: Casing, opts: Options, specs: seq<ExportSpecifier>, s: Sink)
    ensures Visit(e, c, opts, ExportNamedDeclaration(None, specs), s) == s
  {
  }

  /**
   * The rule instance of one `create()` call: its options, the sources already reported
   * and the diagnostics reported so far.
   */
  class ModuleIdentifierRule {
    const engine: RegexEngine
    const casing: Casing
    const options: Options
    var reported: set<string>
    var diags: seq<Diagnostic>

    function Current(): Sink
      reads this
    {
      Sink(reported, diags)
    }

    ghost predicate Valid()
      reads this
    {
      SinkValid(engine, Current())
    }

    constructor (engine: RegexEngine, casing: Casing, options: Options)
      ensures Valid()
      ensures this.engine == engine && this.casing == casing && this.options == options
      ensures Current() == Sink({}, [])
    {
      this.engine := engine;
      this.casing := casing;
      this.options := options;
      reported := {};
      diags := [];
      ReportedOnceEmpty();
    }

    /** `lintModuleIdentifier`, with `find` written out as the loop it performs. */
    method LintModuleIdentifier(b: Binding, variants: LibString.CaseVariants)
      requires Valid()
      modifies this
      ensures Valid()
      ensures Current() == Lint(engine, casing, options, b, variants, old(Current()))
    {
      LintKeepsSinkValid(engine, casing, options, b, variants, Current());
      var modulePath := variants.raw.value;
      if Trim(modulePath) == [] {
        return;
      }
      var ms := MatcherList(options);
      var i := 0;
      var matched: Option<nat> := None;
      while i < |ms| && matched.None?
        invariant i <= |ms|
        invariant matched.None? ==> Select(engine, ms, 0, b.kind, modulePath, old(Current()))
                                    == Select(engine, ms, i, b.kind, modulePath, Current())
        invariant matched.Some? ==> Select(engine, ms, 0, b.kind, modulePath, old(Current()))
                                    == Selected(matched, Current())
        decreases |ms| - i
      {
        var matcher := ms[i];
        if Applies(matcher.applicability, b.kind) {
          var isMatched := LibRegex.RegexTest(engine, matcher.regexSource, modulePath);
          if isMatched.None? {
            if matcher.regexSource !in reported {
              diags := diags + [InvalidRegexSource(matcher.regexSource)];
              reported := reported + {matcher.regexSource};
            }
          } else if isMatched.value {
            matched := Some(i);
          }
        }
        i := i + 1;
      }
      if matched.None? {
        if IgnoresUnmatched(options) {
          return;
        }
        diags := diags + [MatcherNotFound(modulePath)];
        return;
      }
      var expected := ExpectedIdentifier(engine, casing, ms[matched.value], variants);
      if expected.None? {
        return;
      }
      if b.name != expected.value {
        diags := diags + [InvalidName(b.name, modulePath, expected.value)];
      }
    }

    /** The `ImportDeclaration` visitor. */
    method VisitImport(source: string, specs: seq<ImportSpecifier>)
      requires Valid()
      modifies this
      ensures Valid()
      ensures Current() == Visit(engine, casing, options, ImportDeclaration(source, specs), old(Current()))
    {
      var variants := LibString.GetSanitizedCaseVariants(casing, source);
      var defaultName := FindLocal(specs, IsDefaultSpecifier);
      var namespaceName := FindLocal(specs, IsNamespaceSpecifier);
      var namedDefaultName := FindLocal(specs, IsNamedDefaultSpecifier);
      LintAllSplits(engine, casing, options, Optional(Default, defaultName),
                    Optional(Namespace, namespaceName), Optional(Default, namedDefaultName), variants, Current());
      if defaultName.Some? {
        LintAllOne(engine, casing, options, Binding(Default, defaultName.value), variants, Current());
        LintModuleIdentifier(Binding(Default, defaultName.value), variants);
      }
      if namespaceName.Some? {
        LintAllOne(engine, casing, options, Binding(Namespace, namespaceName.value), variants, Current());
        LintModuleIdentifier(Binding(Namespace, namespaceName.value), variants);
      }
      if namedDefaultName.Some? {
        LintAllOne(engine, casing, options, Binding(Default, namedDefaultName.value), variants, Current());
        LintModuleIdentifier(Binding(Default, namedDefaultName.value), variants);
      }
    }

    /** The `ExportAllDeclaration` visitor. */
    method VisitExportAll(source: string, exported: Option<ModuleExportName>)
      requires Valid()
      modifies this
      ensures Valid()
      ensures Current() == Visit(engine, casing, options, ExportAllDeclaration(source, exported), old(Current()))
    {
      var variants := LibString.GetSanitizedCaseVariants(casing, source);
      var namespaceName := if exported.Some? then NameProperty(exported.value) else None;
      if namespaceName.Some? {
        LintAllOne(engine, casing, options, Binding(Namespace, namespaceName.value), variants, Current());
        LintModuleIdentifier(Binding(Namespace, namespaceName.value), variants);
      }
    }

    /** The `ExportNamedDeclaration` visitor. */
    method VisitExportNamed(source: Option<string>, specs: seq<ExportSpecifier>)
      requires Valid()
      modifies this
      ensures Valid()
      ensures Current() == Visit(engine, casing, options, ExportNamedDeclaration(source, specs), old(Current()))
    {
      if source.None? {
        return;
      }
      var variants := LibString.GetSanitizedCaseVariants(casing, source.value);
      var found := FindIndex(specs, IsDefaultExportSpecifier);
      if found.Some? {
        var b := Binding(Default, NodeText(specs[found.value].exported));
        LintAllOne(engine, casing, options, b, variants, Current());
        LintModuleIdentifier(b, variants);
      }
    }
  }

  /** Linting three optional groups in turn is linting their concatenation. */
  lemma LintAllSplits(e: RegexEngine, c: Casing, opts: Options, x: seq<Binding>, y: seq<Binding>, z: seq<Binding>,
                      variants: LibString.CaseVariants, s: Sink)
    requires |x| <= 1 && |y| <= 1 && |z| <= 1
    ensures LintAll(e, c, opts, x + y + z, variants, s)
         == LintAll(e, c, opts, z, variants, LintAll(e, c, opts, y, variants, LintAll(e, c, opts, x, variants, s)))
  {
    LintAllAppend(e, c, opts, x + y, z, variants, s);
    LintAllAppend(e, c, opts, x, y, variants, s);
  }

  lemma {:induction false} LintAllAppend(e: RegexEngine, c: Casing, opts: Options, x: seq<Binding>, y: seq<Binding>,
                                         variants: LibString.CaseVariants, s: Sink)
    ensures LintAll(e, c, opts, x + y, variants, s) == LintAll(e, c, opts, y, variants, LintAll(e, c, opts, x, variants, s))
    decreases |x|
  {
    if x != [] {
      assert (x + y)[1..] == x[1..] + y;
      LintAllAppend(e, c, opts, x[1..], y, variants, Lint(e, c, opts, x[0], variants, s));
    } else {
      assert x + y == y;
    }
  }
}

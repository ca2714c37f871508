/**
 * eslint-config/local-plugin/rules/restrict-non-named-import-name.ts: the naming rule for
 * default and namespace imports, keyed by package name.
 *
 * Its spelling of the shared configuration: `importType` is the applicability, `value`
 * the `equal` target, and mode `template` carries `template` (the replacement) and
 * `transform`. Unlike lib/utils/string.ts, its own `getNameVariants` sanitizes with
 * `/[^0-9a-z]+/giv`, so each maximal run of replaced characters becomes one space.
 */
module RestrictImportName {
  import opened Wrappers
  import opened Foreign
  import opened Matchers
  import opened Selection
  import opened RegexSourceMatching
  import LibString
  import LibRegex

  /** Drop the replaced characters at the front of `s`. */
  function DropReplaced(s: string): (r: string)
    ensures |r| <= |s| && r == s[|s| - |r|..]
    ensures r != [] ==> LibString.IsKept(r[0])
  {
    if s != [] && !LibString.IsKept(s[0]) then DropReplaced(s[1..]) else s
  }

  /** `input.replace(/[^0-9a-z]+/giv, ' ')`: one space per maximal run of replaced characters. */
  function SanitizeRuns(s: string): string
    decreases |s|
  {
    if s == [] then []
    else if LibString.IsKept(s[0]) then [s[0]] + SanitizeRuns(s[1..])
    else [' '] + SanitizeRuns(DropReplaced(s[1..]))
  }

  /** Drop the spaces at the front of `t`. */
  function DropSpaces(t: string): (r: string)
    ensures |r| <= |t|
  {
    if t != [] && t[0] == ' ' then DropSpaces(t[1..]) else t
  }

  /** Collapse every run of spaces into one space. */
  function SqueezeSpaces(t: string): string
    decreases |t|
  {
    if t == [] then []
    else if t[0] == ' ' then [' '] + SqueezeSpaces(DropSpaces(t[1..]))
    else [t[0]] + SqueezeSpaces(t[1..])
  }

  lemma SanitizeTail(s: string)
    requires s != []
    ensures LibString.Sanitize(s)[1..] == LibString.Sanitize(s[1..])
  {
  }

  lemma SanitizeHead(s: string)
    requires s != []
    ensures LibString.Sanitize(s) != []
    ensures LibString.Sanitize(s)[0] == if LibString.IsKept(s[0]) then s[0] else ' '
  {
  }

  lemma {:induction false} DropSpacesOfSanitized(s: string)
    ensures DropSpaces(LibString.Sanitize(s)) == LibString.Sanitize(DropReplaced(s))
    decreases |s|
  {
    if s == [] {
      assert LibString.Sanitize(s) == [];
    } else {
      var t := LibString.Sanitize(s);
      SanitizeHead(s);
      if LibString.IsKept(s[0]) {
        assert t[0] != ' ';
        assert DropReplaced(s) == s;
      } else {
        assert DropSpaces(t) == DropSpaces(t[1..]);
        SanitizeTail(s);
        assert DropReplaced(s) == DropReplaced(s[1..]);
        DropSpacesOfSanitized(s[1..]);
      }
    }
  }

  /**
   * The run-wise replacement equals the character-wise one of lib/utils/string.ts with
   * each run of spaces collapsed: kept characters never are spaces.
   */
  lemma {:induction false} SanitizeRunsIsSqueezedSanitize(s: string)
    ensures SanitizeRuns(s) == SqueezeSpaces(LibString.Sanitize(s))
    decreases |s|
  {
    if s != [] {
      var t := LibString.Sanitize(s);
      SanitizeTail(s);
      if LibString.IsKept(s[0]) {
        assert t[0] == s[0] && s[0] != ' ';
        SanitizeRunsIsSqueezedSanitize(s[1..]);
      } else {
        DropSpacesOfSanitized(s[1..]);
        SanitizeRunsIsSqueezedSanitize(DropReplaced(s[1..]));
      }
    }
  }

  /** The result holds only kept characters and spaces, and never two spaces in a row. */
  lemma {:induction false} SanitizeRunsShape(s: string)
    ensures var r := SanitizeRuns(s);
      (forall i :: 0 <= i < |r| ==> LibString.IsKept(r[i]) || r[i] == ' ')
      && (forall i :: 0 <= i < |r| - 1 ==> !(r[i] == ' ' && r[i + 1] == ' '))
      && (r != [] && r[0] == ' ' ==> s != [] && !LibString.IsKept(s[0]))
    decreases |s|
  {
    if s != [] {
      var r := SanitizeRuns(s);
      if LibString.IsKept(s[0]) {
        SanitizeRunsShape(s[1..]);
        assert r[1..] == SanitizeRuns(s[1..]);
      } else {
        var rest := DropReplaced(s[1..]);
        SanitizeRunsShape(rest);
        assert r[1..] == SanitizeRuns(rest);
        if |r| > 1 {
          assert rest != [] && LibString.IsKept(rest[0]);
          assert r[1] == rest[0];
        }
      }
    }
  }

  datatype NameVariants = NameVariants(camelCase: string, pascalCase: string)

  /** `getNameVariants`. */
  function GetNameVariants(c: Casing, input: string): (v: NameVariants)
    ensures v.pascalCase == Capitalize(c, v.camelCase)
  {
    var camelCase := c.toCamelCase(SanitizeRuns(input));
    NameVariants(camelCase, Capitalize(c, camelCase))
  }

  /**
   * Names whose character-wise sanitizations agree once runs of spaces are collapsed give
   * the same variants: `a--b`, `a_b` and `a b` all name one package form.
   */
  lemma GetNameVariantsIgnoreRunLength(c: Casing, a: string, b: string)
    requires SqueezeSpaces(LibString.Sanitize(a)) == SqueezeSpaces(LibString.Sanitize(b))
    ensures GetNameVariants(c, a) == GetNameVariants(c, b)
  {
    SanitizeRunsIsSqueezedSanitize(a);
    SanitizeRunsIsSqueezedSanitize(b);
  }

  /** remeda's `only()`: the single element of a one-element array, otherwise `undefined`. */
  function Only<T>(xs: seq<T>): Option<T> {
    if |xs| == 1 then Some(xs[0]) else None
  }

  /** `filter(type)` then `map(local.name)` over the declaration's specifiers. */
  function LocalsOf(specs: seq<ImportSpecifier>, p: ImportSpecifier -> bool): seq<string>
    decreases |specs|
  {
    if specs == [] then []
    else (if p(specs[0]) then [specs[0].local] else []) + LocalsOf(specs[1..], p)
  }

  /** The names collected are the local names of the specifiers that pass, and only those. */
  lemma {:induction false} LocalsOfMembers(specs: seq<ImportSpecifier>, p: ImportSpecifier -> bool)
    ensures var ls := LocalsOf(specs, p);
      (|ls| == 0 <==> forall i :: 0 <= i < |specs| ==> !p(specs[i]))
      && (forall n :: n in ls <==> exists i :: 0 <= i < |specs| && p(specs[i]) && specs[i].local == n)
    decreases |specs|
  {
    if specs != [] {
      var tail := specs[1..];
      LocalsOfMembers(tail, p);
      forall n ensures n in LocalsOf(specs, p) <==> exists i :: 0 <= i < |specs| && p(specs[i]) && specs[i].local == n {
        if n in LocalsOf(tail, p) {
          var i :| 0 <= i < |tail| && p(tail[i]) && tail[i].local == n;
          assert specs[i + 1] == tail[i];
        }
        if exists i :: 0 <= i < |specs| && p(specs[i]) && specs[i].local == n {
          var i :| 0 <= i < |specs| && p(specs[i]) && specs[i].local == n;
          if i > 0 {
            assert tail[i - 1] == specs[i];
          }
        }
      }
      if forall i :: 0 <= i < |specs| ==> !p(specs[i]) {
        forall i | 0 <= i < |tail| ensures !p(tail[i]) {
          assert tail[i] == specs[i + 1];
        }
      }
    }
  }

  /** A single specifier that passes yields exactly its local name. */
  lemma {:induction false} LocalsOfSingle(specs: seq<ImportSpecifier>, p: ImportSpecifier -> bool, k: nat)
    requires k < |specs| && p(specs[k])
    requires forall i :: 0 <= i < |specs| && p(specs[i]) ==> i == k
    ensures LocalsOf(specs, p) == [specs[k].local]
    decreases |specs|
  {
    var tail := specs[1..];
    if k == 0 {
      forall i | 0 <= i < |tail| ensures !p(tail[i]) {
        assert tail[i] == specs[i + 1];
      }
      LocalsOfMembers(tail, p);
    } else {
      assert !p(specs[0]);
      forall i | 0 <= i < |tail| && p(tail[i]) ensures i == k - 1 {
        assert tail[i] == specs[i + 1];
      }
      LocalsOfSingle(tail, p, k - 1);
    }
  }

  /** Two specifiers that pass yield at least two names. */
  lemma {:induction false} LocalsOfTwo(specs: seq<ImportSpecifier>, p: ImportSpecifier -> bool, k: nat, l: nat)
    requires k < l < |specs| && p(specs[k]) && p(specs[l])
    ensures |LocalsOf(specs, p)| >= 2
    decreases |specs|
  {
    var tail := specs[1..];
    assert tail[l - 1] == specs[l];
    if k == 0 {
      LocalsOfMembers(tail, p);
    } else {
      assert tail[k - 1] == specs[k];
      LocalsOfTwo(tail, p, k - 1, l - 1);
    }
  }

  predicate IsDefaultSpecifier(sp: ImportSpecifier) { sp.ImportDefaultSpecifier? }
  predicate IsNamespaceSpecifier(sp: ImportSpecifier) { sp.ImportNamespaceSpecifier? }

  datatype ParsedImport = ParsedImport(
    packageName: string,
    defaultImportName: Option<string>,
    namespaceImportName: Option<string>,
    camelCaseImportName: string,
    pascalCaseImportName: string)

  /** `parseImportDeclaration`. */
  function ParseImportDeclaration(c: Casing, source: string, specs: seq<ImportSpecifier>): ParsedImport {
    var variants := GetNameVariants(c, source);
    ParsedImport(source, Only(LocalsOf(specs, IsDefaultSpecifier)), Only(LocalsOf(specs, IsNamespaceSpecifier)),
                 variants.camelCase, variants.pascalCase)
  }

  /**
   * The default (namespace) import name is the local name of the one default (namespace)
   * specifier when there is exactly one, and is absent when there is none or several;
   * named specifiers never give a name to check. The package-name variants are the
   * run-sanitized camel form and its capitalisation.
   */
  lemma ParseImportDeclarationSpec(c: Casing, source: string, specs: seq<ImportSpecifier>, p: ImportSpecifier -> bool)
    requires p == IsDefaultSpecifier || p == IsNamespaceSpecifier
    ensures var parsed := ParseImportDeclaration(c, source, specs);
      var name := if p == IsDefaultSpecifier then parsed.defaultImportName else parsed.namespaceImportName;
      && parsed.packageName == source
      && parsed.camelCaseImportName == c.toCamelCase(SanitizeRuns(source))
      && parsed.pascalCaseImportName == Capitalize(c, parsed.camelCaseImportName)
      && ((forall i :: 0 <= i < |specs| ==> !p(specs[i])) ==> name.None?)
      && (forall k, l :: 0 <= k < l < |specs| && p(specs[k]) && p(specs[l]) ==> name.None?)
      && (forall k :: 0 <= k < |specs| && p(specs[k]) && (forall i :: 0 <= i < |specs| && p(specs[i]) ==> i == k)
            ==> name == Some(specs[k].local))
  {
    LocalsOfMembers(specs, p);
    forall k, l | 0 <= k < l < |specs| && p(specs[k]) && p(specs[l]) ensures |LocalsOf(specs, p)| >= 2 {
      LocalsOfTwo(specs, p, k, l);
    }
    forall k | 0 <= k < |specs| && p(specs[k]) && (forall i :: 0 <= i < |specs| && p(specs[i]) ==> i == k)
      ensures LocalsOf(specs, p) == [specs[k].local]
    {
      LocalsOfSingle(specs, p, k);
    }
  }

  /** One default or namespace import name to check, with its package name's variants. */
  datatype Subject = Subject(kind: Kind, importName: string, packageName: string,
                             camelCaseImportName: string, pascalCaseImportName: string)

  function ReportTo(st: MatcherState, d: Diagnostic): MatcherState {
    st.(diags := st.diags + [d])
  }

  /** The `transform` switch applied to the replaced package name. */
  function Transformed(c: Casing, t: Transform, transformedName: string): string {
    var variants := GetNameVariants(c, transformedName);
    match t
    case KeepAsIs => transformedName
    case ToCamelCase => variants.camelCase
    case ToPascalCase => variants.pascalCase
  }

  /** The `mode` switch; `template` goes through the matcher and may come back `null`. */
  function ExpectedImportName(e: RegexEngine, c: Casing, m: Matcher, sub: Subject, st: MatcherState): Step<Option<string>> {
    match m.mode
    case Equal(value) => Step(st, Some(value))
    case CamelCase => Step(st, Some(sub.camelCaseImportName))
    case PascalCase => Step(st, Some(sub.pascalCaseImportName))
    case Replace(template, t) =>
      var r := MatcherReplace(e, m.regexSource, sub.packageName, template, st);
      match r.value
      case None => Step(r.state, None)
      case Some(transformedName) => Step(r.state, Some(Transformed(c, t, transformedName)))
  }

  /** `checkImportName`. */
  function Check(e: RegexEngine, c: Casing, opts: Options, sub: Subject, st: MatcherState): MatcherState {
    var ms := MatcherList(opts);
    var sel := SelectMatcher(e, ms, 0, sub.kind, sub.packageName, st);
    match sel.value
    case None => if IgnoresUnmatched(opts) then sel.state else ReportTo(sel.state, MatcherNotFound(sub.packageName))
    case Some(j) =>
      var expected := ExpectedImportName(e, c, ms[j], sub, sel.state);
      match expected.value
      case None => expected.state
      case Some(name) =>
        if sub.importName == name then expected.state
        else ReportTo(expected.state, InvalidName(sub.importName, sub.packageName, name))
  }

  /** The subject a parsed declaration hands to `checkImportName`. */
  function SubjectOf(kind: Kind, importName: string, parsed: ParsedImport): Subject {
    Subject(kind, importName, parsed.packageName, parsed.camelCaseImportName, parsed.pascalCaseImportName)
  }

  /**
   * The name a matcher whose regex compiles asks for, written directly in terms of the
   * foreign functions: the configured value, the camel or Pascal form of the run-sanitized
   * package name, or the first-match replacement of the template, optionally camel or
   * Pascal cased after the same sanitizing.
   */
  function WantedImportName(e: RegexEngine, c: Casing, m: Matcher, packageName: string): string
    requires e.compiles(Regex(m.regexSource, []))
  {
    match m.mode
    case Equal(value) => value
    case CamelCase => c.toCamelCase(SanitizeRuns(packageName))
    case PascalCase => Capitalize(c, c.toCamelCase(SanitizeRuns(packageName)))
    case Replace(template, t) =>
      var replaced := e.replaceFirst(Regex(m.regexSource, []), packageName, template);
      match t
      case KeepAsIs => replaced
      case ToCamelCase => c.toCamelCase(SanitizeRuns(replaced))
      case ToPascalCase => Capitalize(c, c.toCamelCase(SanitizeRuns(replaced)))
  }

  /**
   * For a matcher whose regex compiles, the expectation is `WantedImportName` (the `null`
   * replacement cannot happen) and reports nothing: the source compiled when selection
   * tested it.
   */
  lemma ExpectedImportNameSpec(e: RegexEngine, c: Casing, m: Matcher, kind: Kind, importName: string,
                               source: string, specs: seq<ImportSpecifier>, st: MatcherState)
    requires Coherent(e, st) && e.compiles(Regex(m.regexSource, []))
    ensures var sub := SubjectOf(kind, importName, ParseImportDeclaration(c, source, specs));
      var expected := ExpectedImportName(e, c, m, sub, st);
      && expected.value == Some(WantedImportName(e, c, m, source))
      && SinkOf(expected.state) == SinkOf(st) && Coherent(e, expected.state)
  {
    if m.mode.Replace? {
      GetOrCompileSpec(e, m.regexSource, st);
      MatcherReplaceSpec(e, m.regexSource, source, m.mode.replacement, st);
    }
  }

  /** Checking keeps the matcher's state coherent, whatever the options and the subject. */
  lemma CheckKeepsCoherent(e: RegexEngine, c: Casing, opts: Options, sub: Subject, st: MatcherState)
    requires Coherent(e, st)
    ensures Coherent(e, Check(e, c, opts, sub, st))
  {
    var ms := MatcherList(opts);
    var sel := SelectMatcher(e, ms, 0, sub.kind, sub.packageName, st);
    SelectMatcherAgrees(e, ms, 0, sub.kind, sub.packageName, st);
    if sel.value.None? {
      if !IgnoresUnmatched(opts) {
        ReportedOnceOther(sel.state.reported, sel.state.diags, MatcherNotFound(sub.packageName));
      }
    } else {
      var m := ms[sel.value.value];
      if m.mode.Replace? {
        GetOrCompileSpec(e, m.regexSource, sel.state);
      }
      var expected := ExpectedImportName(e, c, m, sub, sel.state);
      if expected.value.Some? && sub.importName != expected.value.value {
        ReportedOnceOther(expected.state.reported, expected.state.diags,
                          InvalidName(sub.importName, sub.packageName, expected.value.value));
      }
    }
  }

  /**
   * If no matcher applies and tests true on the package name, `ignoreUnMatched === true`
   * adds nothing after selection's own reports; otherwise one `matcherNotFound` follows.
   */
  lemma UnmatchedOutcome(e: RegexEngine, c: Casing, opts: Options, sub: Subject, st: MatcherState)
    requires Coherent(e, st)
    requires forall j :: 0 <= j < |MatcherList(opts)| ==> !Selects(e, MatcherList(opts)[j], sub.kind, sub.packageName)
    ensures var sel := Select(e, MatcherList(opts), 0, sub.kind, sub.packageName, SinkOf(st));
      SinkOf(Check(e, c, opts, sub, st))
      == if IgnoresUnmatched(opts) then sel.sink else Report(sel.sink, MatcherNotFound(sub.packageName))
  {
    var ms := MatcherList(opts);
    SelectMatcherAgrees(e, ms, 0, sub.kind, sub.packageName, st);
    SelectFirstMatch(e, ms, 0, sub.kind, sub.packageName, SinkOf(st));
  }

  /**
   * If matcher `j` is the first that applies and tests true on the package name, the only
   * report after selection's own is `invalidImportName`, made exactly when the import name
   * differs from the name that matcher asks for.
   */
  lemma MatchedOutcome(e: RegexEngine, c: Casing, opts: Options, kind: Kind, importName: string,
                       source: string, specs: seq<ImportSpecifier>, st: MatcherState, j: nat)
    requires Coherent(e, st)
    requires j < |MatcherList(opts)| && Selects(e, MatcherList(opts)[j], kind, source)
    requires forall k :: 0 <= k < j ==> !Selects(e, MatcherList(opts)[k], kind, source)
    ensures var sel := Select(e, MatcherList(opts), 0, kind, source, SinkOf(st));
      var wanted := WantedImportName(e, c, MatcherList(opts)[j], source);
      var sub := SubjectOf(kind, importName, ParseImportDeclaration(c, source, specs));
      SinkOf(Check(e, c, opts, sub, st))
      == if importName == wanted then sel.sink else Report(sel.sink, InvalidName(importName, source, wanted))
  {
    var ms := MatcherList(opts);
    var sel := SelectMatcher(e, ms, 0, kind, source, st);
    SelectMatcherAgrees(e, ms, 0, kind, source, st);
    SelectIsFirstMatch(e, ms, 0, kind, source, SinkOf(st), j);
    ExpectedImportNameSpec(e, c, ms[j], kind, importName, source, specs, sel.state);
  }

  /**
   * With the default options and a regex engine for which `^.*$` compiles and matches the
   * package name, every default and namespace import name is held to the package name's
   * camelCase form.
   */
  lemma DefaultOptionsOutcome(e: RegexEngine, c: Casing, kind: Kind, importName: string,
                              source: string, specs: seq<ImportSpecifier>, st: MatcherState)
    requires Coherent(e, st)
    requires e.compiles(Regex(AnyPathSource, [])) && e.test(Regex(AnyPathSource, []), source)
    ensures var camel := c.toCamelCase(SanitizeRuns(source));
      var sub := SubjectOf(kind, importName, ParseImportDeclaration(c, source, specs));
      Check(e, c, DefaultOptions, sub, st).diags
      == st.diags + (if importName == camel then [] else [InvalidName(importName, source, camel)])
  {
    GetOrCompileSpec(e, AnyPathSource, st);
  }

  /** The `ImportDeclaration` visitor: the default import name, then the namespace one. */
  function Visit(e: RegexEngine, c: Casing, opts: Options, source: string, specs: seq<ImportSpecifier>,
                 st: MatcherState): MatcherState {
    var parsed := ParseImportDeclaration(c, source, specs);
    var afterDefault := match parsed.defaultImportName
      case None => st
      case Some(n) => Check(e, c, opts, SubjectOf(Default, n, parsed), st);
    match parsed.namespaceImportName
    case None => afterDefault
    case Some(n) => Check(e, c, opts, SubjectOf(Namespace, n, parsed), afterDefault)
  }

  /** A declaration with named specifiers only (or none) is never checked. */
  lemma NamedImportsAreNotChecked(e: RegexEngine, c: Casing, opts: Options, source: string,
                                  specs: seq<ImportSpecifier>, st: MatcherState)
    requires forall i :: 0 <= i < |specs| ==> specs[i].ImportNamedSpecifier?
    ensures Visit(e, c, opts, source, specs, st) == st
  {
    ParseImportDeclarationSpec(c, source, specs, IsDefaultSpecifier);
    ParseImportDeclarationSpec(c, source, specs, IsNamespaceSpecifier);
  }

  /** The rule instance of one `create()` call. */
  class ImportNameRule {
    const casing: Casing
    const options: Options
    const regexMatcher: RegexSourceMatcher

    ghost predicate Valid()
      reads this, regexMatcher
    {
      regexMatcher.Valid()
    }

    constructor (engine: RegexEngine, casing: Casing, options: Options)
      ensures Valid() && fresh(regexMatcher)
      ensures regexMatcher.engine == engine && this.casing == casing && this.options == options
      ensures regexMatcher.State() == MatcherState(map[], {}, [])
    {
      this.casing := casing;
      this.options := options;
      regexMatcher := new RegexSourceMatcher(engine);
    }

    /** `checkImportName`. */
    method CheckImportName(sub: Subject)
      requires Valid()
      modifies regexMatcher
      ensures Valid()
      ensures regexMatcher.State() == Check(regexMatcher.engine, casing, options, sub, old(regexMatcher.State()))
    {
      var ms := MatcherList(options);
      var matched := regexMatcher.FindMatcher(ms, sub.kind, sub.packageName);
      if matched.None? {
        if IgnoresUnmatched(options) {
          return;
        }
        regexMatcher.Report(MatcherNotFound(sub.packageName));
        return;
      }
      var matcher := ms[matched.value];
      var expectedImportName: string;
      match matcher.mode {
        case Equal(value) =>
          expectedImportName := value;
        case CamelCase =>
          expectedImportName := sub.camelCaseImportName;
        case PascalCase =>
          expectedImportName := sub.pascalCaseImportName;
        case Replace(template, t) =>
          var transformedName := regexMatcher.Replace(matcher.regexSource, sub.packageName, template);
          if transformedName.None? {
            return;
          }
          var transformedNameVariants := GetNameVariants(casing, transformedName.value);
          expectedImportName := transformedName.value;
          match t {
            case KeepAsIs =>
            case ToCamelCase =>
              expectedImportName := transformedNameVariants.camelCase;
            case ToPascalCase =>
              expectedImportName := transformedNameVariants.pascalCase;
          }
      }
      if sub.importName != expectedImportName {
        regexMatcher.Report(InvalidName(sub.importName, sub.packageName, expectedImportName));
      }
    }

    /** The `ImportDeclaration` visitor. */
    method VisitImportDeclaration(source: string, specs: seq<ImportSpecifier>)
      requires Valid()
      modifies regexMatcher
      ensures Valid()
      ensures regexMatcher.State() == Visit(regexMatcher.engine, casing, options, source, specs, old(regexMatcher.State()))
    {
      var parsed := ParseImportDeclaration(casing, source, specs);
      if parsed.defaultImportName.Some? {
        CheckImportName(SubjectOf(Default, parsed.defaultImportName.value, parsed));
      }
      if parsed.namespaceImportName.Some? {
        CheckImportName(SubjectOf(Namespace, parsed.namespaceImportName.value, parsed));
      }
    }
  }
}

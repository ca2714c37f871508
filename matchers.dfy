/**
 * The configuration, diagnostics and declaration shapes shared by the two naming rules
 * (module-identifier-naming-convention in two revisions, restrict-non-named-import-name).
 *
 * The rules spell the same concepts differently: `type` / `importType` for applicability,
 * `identifier` / `value` for the `equal` target, `replace` with `replacement` and
 * `transformMode` / `template` with `template` and `transform`. One datatype stands for
 * each concept; the rule modules document which spelling they read.
 */
module Matchers {
  import opened Wrappers

  /** The kind of binding being checked. */
  datatype Kind = Default | Namespace

  /** A matcher's `type` / `importType`: `'all'`, `'default'` or `'namespace'`. */
  datatype Applicability = All | OnlyKind(kind: Kind)

  /** `['all', type].includes(matcher.type)`. */
  predicate Applies(a: Applicability, k: Kind) {
    a.All? || a.kind == k
  }

  /** `transformMode` / `transform`: `'none'`, `'camelCase'` or `'PascalCase'`. */
  datatype Transform = KeepAsIs | ToCamelCase | ToPascalCase

  /**
   * The matcher's mode: `equal` with its expected identifier, `camelCase`, `PascalCase`, or
   * `replace` / `template` with its replacement string and transform.
   */
  datatype Mode =
    | Equal(identifier: string)
    | CamelCase
    | PascalCase
    | Replace(replacement: string, transform: Transform)

  datatype Matcher = Matcher(applicability: Applicability, regexSource: string, mode: Mode)

  /** The rule options object; both fields are optional in the schema. */
  datatype Options = Options(ignoreUnMatched: Option<bool>, matchers: Option<seq<Matcher>>)

  /** `ruleOptions.matchers ?? []`. */
  function MatcherList(o: Options): seq<Matcher> {
    o.matchers.GetOr([])
  }

  /** `ruleOptions.ignoreUnMatched === true`. */
  predicate IgnoresUnmatched(o: Options) {
    o.ignoreUnMatched == Some(true)
  }

  /** `^.*$`, the source of the default matcher. */
  const AnyPathSource: string := "^.*$"

  /** The default options of all three rules: one camelCase matcher for every path. */
  const DefaultOptions: Options :=
    Options(Some(false), Some([Matcher(All, AnyPathSource, CamelCase)]))

  /**
   * A reported problem. `MatcherNotFound` and `InvalidName` carry the subject (module path
   * or package name); `InvalidName` stands for `invalidModuleIdentifier` and
   * `invalidImportName` and carries the actual and the expected name.
   */
  datatype Diagnostic =
    | InvalidRegexSource(regexSource: string)
    | MatcherNotFound(subject: string)
    | InvalidName(actual: string, subject: string, expected: string)

  /** How many `invalidRegexSource` reports for `source` a diagnostic list holds. */
  function CountInvalid(diags: seq<Diagnostic>, source: string): nat {
    if diags == [] then 0
    else CountInvalid(diags[..|diags| - 1], source)
         + (if diags[|diags| - 1] == InvalidRegexSource(source) then 1 else 0)
  }

  lemma CountInvalidAppend(diags: seq<Diagnostic>, d: Diagnostic, source: string)
    ensures CountInvalid(diags + [d], source)
         == CountInvalid(diags, source) + (if d == InvalidRegexSource(source) then 1 else 0)
  {
    assert (diags + [d])[..|diags|] == diags;
  }

  /**
   * Every source in `reported` has been reported exactly once and no other source has been
   * reported: the set the rules keep is an exact record of the sink.
   */
  ghost predicate ReportedOnce(reported: set<string>, diags: seq<Diagnostic>) {
    forall source :: CountInvalid(diags, source) == (if source in reported then 1 else 0)
  }

  lemma ReportedOnceEmpty()
    ensures ReportedOnce({}, [])
  {
  }

  /** Appending anything but an `invalidRegexSource` report keeps the record exact. */
  lemma ReportedOnceOther(reported: set<string>, diags: seq<Diagnostic>, d: Diagnostic)
    requires ReportedOnce(reported, diags) && !d.InvalidRegexSource?
    ensures ReportedOnce(reported, diags + [d])
  {
    forall source ensures CountInvalid(diags + [d], source) == (if source in reported then 1 else 0) {
      CountInvalidAppend(diags, d, source);
    }
  }

  /** Reporting a source not yet in the set and adding it keeps the record exact. */
  lemma ReportedOnceNew(reported: set<string>, diags: seq<Diagnostic>, source: string)
    requires ReportedOnce(reported, diags) && source !in reported
    ensures ReportedOnce(reported + {source}, diags + [InvalidRegexSource(source)])
  {
    forall s ensures CountInvalid(diags + [InvalidRegexSource(source)], s) == (if s in reported + {source} then 1 else 0) {
      CountInvalidAppend(diags, InvalidRegexSource(source), s);
    }
  }

  /** A module specifier or an import/export name: an `Identifier` or a string `Literal`. */
  datatype ModuleExportName = Identifier(name: string) | StringLiteral(value: string)

  /** `getNodeText`: the identifier's name or the literal's value. */
  function NodeText(n: ModuleExportName): string {
    match n
    case Identifier(name) => name
    case StringLiteral(value) => value
  }

  /** `node.exported?.name`: only an identifier node has a `name`. */
  function NameProperty(n: ModuleExportName): Option<string> {
    match n
    case Identifier(name) => Some(name)
    case StringLiteral(_) => None
  }

  /** The specifiers of an `ImportDeclaration`; `local` is always an identifier. */
  datatype ImportSpecifier =
    | ImportDefaultSpecifier(local: string)
    | ImportNamespaceSpecifier(local: string)
    | ImportNamedSpecifier(imported: ModuleExportName, local: string)

  datatype ExportSpecifier = ExportSpecifier(local: ModuleExportName, exported: ModuleExportName)

  /** The three declarations the rules visit, with the fields they read. */
  datatype Declaration =
    | ImportDeclaration(source: string, specifiers: seq<ImportSpecifier>)
    | ExportAllDeclaration(allSource: string, exported: Option<ModuleExportName>)
    | ExportNamedDeclaration(namedSource: Option<string>, exportSpecifiers: seq<ExportSpecifier>)

  /** One binding to check: its kind and its actual local name. */
  datatype Binding = Binding(kind: Kind, name: string)
}

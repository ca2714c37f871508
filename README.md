# Naming-convention lint rules and config utilities, in Dafny

This project models the core of a personal ESLint configuration repository.

The centre is a string-to-identifier rule engine, used by two custom lint rules:

- `module-identifier-naming-convention`, in a newest and an older revision;
- `restrict-non-named-import-name`.

For each default or namespace binding of an `import`/`export`, the engine:

1. takes the module path (or package name), the kind of the binding and its local name;
2. scans an ordered list of matchers and selects the first one that applies to the kind and whose regex tests true;
3. computes the identifier that matcher expects (a fixed name, the camelCase or PascalCase form of the sanitized path, or a first-match regex replacement optionally case-converted);
4. reports `matcherNotFound`, `invalidRegexSource` (once per source and rule instance) or `invalidModuleIdentifier`/`invalidImportName`.

Around the engine the project models:

- the string and regex helpers it relies on;
- a set of configuration utilities: severity normalisation, plugin and rule name collection, audit settings, npm package-name parsing, `package.json` membership checks, comment-command location and matching, the sort-objects command, and the CLI file partition.

Foreign libraries are parameters. They are records of total functions:

- the `RegExp` engine is `Foreign.RegexEngine`, with `compiles`, `test` and `replaceFirst`;
- remeda's and `String.prototype`'s case functions are `Foreign.Casing`.

Where a property needs something of them, it is stated as a hypothesis:

- `Foreign.AsciiFaithful`: the case maps act as the ASCII maps on ASCII text;
- `SortObjectsCommand.AnchoredLiteralsAreExact`: `^lit$` matches only `lit`.
- `CommentCommands.CommandRegexIsDelimitedSearch`: the boundary-wrapped command regex compiles and finds the command delimited by the start, the end, whitespace or a word boundary.

The report sink of an ESLint rule is an appended `seq<Diagnostic>`.

Columns and `length` count UTF-16 code units, as ECMAScript does (`Strings.Utf16Length`): a character outside the Basic Multilingual Plane counts twice.

State that the source changes in place is kept in place.

| Entity | Dafny class | What it holds |
|---|---|---|
| per-`create()` regex cache and reported-source set (older rule, import-name rule) | `RegexSourceMatching.RegexSourceMatcher` | the cache, the reported sources and the sink |
| newest rule's reported set | `ModuleIdentifier.ModuleIdentifierRule` | the reported sources |
| `memoize` caches of `lib/utils/regex.ts` | `LibRegex.RegexMemo` | a map per memoized function |

In each class, each method is proved equal to a pure function of the old state, and the properties are lemmas about those functions.

The loops that fill a `Set` are methods with loop invariants, proved against a specification function:

- `PluginNames.CollectPluginNames`;
- `RuleUtils.CollectRuleNames`;
- `Collections.AddAll`.

Several functions exist as identical copies in two files, and each is modelled once:

- `splitLines` of utils/string.ts and lib/utils/string.ts: `LibString.SplitLines`;
- `getOrCompileRegex`, `test` and `replace` of the older module-identifier rule and of the import-name rule: `RegexSourceMatching.RegexSourceMatcher`;
- `parsePackageName` of node/utils/package.ts and node/utils/ensure.ts: `Packages.ParsePackageName`;
- `getCommandLoc` of the command utilities and of the sort-objects command: `CommentCommands.GetCommandLoc`;
- `collectPluginNames` and `collectPluginNamesByConfigs`: `PluginNames.CollectPluginNames`;
- both `analyzeVerifyFiles`, whose only difference is the option name `shouldIgnoreUnknown`/`ignoreUnknown`: `CliHelper.AnalyzeVerifyFiles`.

## Model

| member | source | states |
|---|---|---|
| LibString.SanitizeShape | lib/utils/string.ts:27 | sanitizing keeps the length; a kept character stays in place, every other becomes one space, and only kept characters and spaces remain |
| LibString.PascalCaseIsCapitalizedCamelCase | lib/utils/string.ts:36-37 | PascalCase differs from camelCase only in its first character, which is upper-cased, and has its length for ASCII-faithful case maps |
| LibString.DerivedVariantsIgnoreReplacedCharacters | lib/utils/string.ts:27-41 | inputs that agree wherever either holds a kept character have equal derived variants |
| LibString.FirstLineBreak | lib/utils/string.ts:14 | finds the first CR or LF at or after a position, and gives a match length of 2 exactly for CRLF |
| LibString.SplitLinesHaveNoBreaks | lib/utils/string.ts:14 | no line produced by `splitLines` contains CR or LF |
| LibString.SplitLinesCount | lib/utils/string.ts:14 | there is one more line than separators, with CRLF counted once |
| LibString.SplitLinesJoin | lib/utils/string.ts:14 | joining the lines with LF gives the text with CRLF and lone CR rewritten as LF, so nothing but separators is lost |
| UtilsString.AgreesWithNewerRevision | utils/string.ts:11-18 | the older variants equal the corresponding fields of the newer record |
| UtilsString.DerivedVariantsIgnoreReplacedCharacters | utils/string.ts:12-15 | inputs differing only in which replaced characters they hold have equal camelCase and pascalCase |
| LibRegex.CacheKeyInjective | lib/utils/regex.ts:17-33 | argument lists of one length that avoid the separator character get distinct cache keys |
| LibRegex.CacheKeyCollision | lib/utils/regex.ts:17-33 | two different argument pairs containing the separator share one key |
| LibRegex.TestHit | lib/utils/regex.ts:17-24 | a cached test result for separator-free arguments is the unmemoized result |
| LibRegex.ReplaceHit | lib/utils/regex.ts:26-33 | a cached replacement for separator-free arguments is the unmemoized result |
| LibRegex.RegexMemo.MemoizedCompileRegex | lib/utils/regex.ts:6-15 | returns the unmemoized result and records it under the source, leaving the other caches alone |
| LibRegex.RegexMemo.MemoizedRegexTest | lib/utils/regex.ts:17-24 | a miss stores and returns the unmemoized result and caches the compiled source; a hit changes no cache; on separator-free history a hit returns the unmemoized result too |
| LibRegex.RegexMemo.MemoizedRegexReplace | lib/utils/regex.ts:26-33 | as for test, including the compile cache: memoization is transparent while no call used the separator |
| Matchers.ReportedOnceNew | node/eslint-config/local-plugin/rules/module-identifier-naming-convention.ts:128-136 | reporting a source not yet recorded and recording it keeps exactly one `invalidRegexSource` per recorded source |
| Selection.Select | node/eslint-config/local-plugin/rules/module-identifier-naming-convention.ts:118-143 | the selected index lies within the matcher list |
| Selection.SelectFirstMatch | node/eslint-config/local-plugin/rules/module-identifier-naming-convention.ts:118-143 | the selected matcher applies and tests true, and every earlier one does not; with no selection none does |
| Selection.SelectIsFirstMatch | node/eslint-config/local-plugin/rules/module-identifier-naming-convention.ts:118-143 | the earliest matcher that applies and tests true is the one selected |
| Selection.SelectIgnoresLaterMatchers | node/eslint-config/local-plugin/rules/module-identifier-naming-convention.ts:118-143 | matchers after the selected one are never probed: replacing them changes neither the selection nor the reports |
| Selection.SelectKeepsSinkValid | node/eslint-config/local-plugin/rules/module-identifier-naming-convention.ts:125-139 | after selection each recorded source is uncompilable and has exactly one `invalidRegexSource` report |
| Selection.SelectAppendsOnlyInvalidReports | node/eslint-config/local-plugin/rules/module-identifier-naming-convention.ts:125-139 | selection only appends, and only `invalidRegexSource` reports |
| Selection.SelectReports | node/eslint-config/local-plugin/rules/module-identifier-naming-convention.ts:125-139 | the reported set grows by exactly the sources of the applicable, uncompilable matchers that selection probed before it stopped |
| ModuleIdentifier.Verdict | node/eslint-config/local-plugin/rules/module-identifier-naming-convention.ts:145-237 | what follows selection is never an `invalidRegexSource` report |
| ModuleIdentifier.BlankPathIsSilent | node/eslint-config/local-plugin/rules/module-identifier-naming-convention.ts:112-116 | an empty or whitespace-only module path leaves the sink unchanged, whatever the matchers |
| ModuleIdentifier.SelectedExpectation | node/eslint-config/local-plugin/rules/module-identifier-naming-convention.ts:173-232 | a selected matcher's expectation is never `null` and is the configured identifier, the camel or Pascal form, or the transformed first-match replacement |
| ModuleIdentifier.UnmatchedOutcome | node/eslint-config/local-plugin/rules/module-identifier-naming-convention.ts:145-157 | with no matcher selected, `ignoreUnMatched === true` adds nothing after selection, otherwise exactly one `matcherNotFound` with the path |
| ModuleIdentifier.MatchedOutcome | node/eslint-config/local-plugin/rules/module-identifier-naming-convention.ts:159-232 | with matcher j selected, `invalidModuleIdentifier` is reported exactly when the name differs from the expected one |
| ModuleIdentifier.DefaultOptionsOutcome | node/eslint-config/local-plugin/rules/module-identifier-naming-convention.ts:259-264 | under the default options, a non-blank path that the engine's `^.*$` matches is held to its camelCase form |
| ModuleIdentifier.LintKeepsSinkValid | node/eslint-config/local-plugin/rules/module-identifier-naming-convention.ts:128-136 | linting keeps each reported source reported exactly once |
| ModuleIdentifier.ImportBindingsShape | node/eslint-config/local-plugin/rules/module-identifier-naming-convention.ts:274-318 | an import checks, in this order and each only when present, the local name of its first default specifier as a default, of its first namespace specifier as a namespace and of its first `{ default as x }` specifier as a default |
| ModuleIdentifier.ExportAllBindings | node/eslint-config/local-plugin/rules/module-identifier-naming-convention.ts:319-332 | `export * as ns from` checks `ns` as a namespace, and only an identifier name |
| ModuleIdentifier.LocalExportIsSkipped | node/eslint-config/local-plugin/rules/module-identifier-naming-convention.ts:333-336 | a source-less `export { ... }` reports nothing |
| ModuleIdentifier.LintAllAppend | node/eslint-config/local-plugin/rules/module-identifier-naming-convention.ts:296-317 | linting two binding lists in turn is linting their concatenation |
| ModuleIdentifier.ModuleIdentifierRule.LintModuleIdentifier | node/eslint-config/local-plugin/rules/module-identifier-naming-convention.ts:100-238 | the `find` loop and the mode switch leave the rule's sink equal to `Lint` of the old sink |
| ModuleIdentifier.ModuleIdentifierRule.VisitImport | node/eslint-config/local-plugin/rules/module-identifier-naming-convention.ts:274-318 | the import visitor's new sink is `Visit` of the old one |
| ModuleIdentifier.ModuleIdentifierRule.VisitExportAll | node/eslint-config/local-plugin/rules/module-identifier-naming-convention.ts:319-332 | the export-all visitor's new sink is `Visit` of the old one |
| ModuleIdentifier.ModuleIdentifierRule.VisitExportNamed | node/eslint-config/local-plugin/rules/module-identifier-naming-convention.ts:333-359 | the named-export visitor's new sink is `Visit` of the old one |
| RegexSourceMatching.GetOrCompileSpec | eslint-config/local-plugin/rules/module-identifier-naming-convention.ts:111-136 | compiles a source at most once and caches its pattern or `null` for good; reports an invalid source once and records it |
| RegexSourceMatching.MatcherTestSpec | eslint-config/local-plugin/rules/module-identifier-naming-convention.ts:139-143 | `test` is false for an invalid source and the pattern's test otherwise |
| RegexSourceMatching.MatcherReplaceSpec | eslint-config/local-plugin/rules/module-identifier-naming-convention.ts:145-154 | `replace` is `null` exactly for an invalid source and the first-match replacement otherwise |
| RegexSourceMatching.SelectMatcherAgrees | eslint-config/local-plugin/rules/module-identifier-naming-convention.ts:170-183 | selection through the per-rule cache picks the same matcher and reports the same sources as selection through the pure regex functions |
| RegexSourceMatching.RegexSourceMatcher.GetOrCompileRegex | eslint-config/local-plugin/rules/module-identifier-naming-convention.ts:111-136 | returns the compiled pattern or `null`; the new cache, reported set and sink are those of `GetOrCompile` |
| RegexSourceMatching.RegexSourceMatcher.Test | eslint-config/local-plugin/rules/module-identifier-naming-convention.ts:139-143 | true exactly when the source compiles and its pattern tests true, with the state of `MatcherTest` |
| RegexSourceMatching.RegexSourceMatcher.Replace | eslint-config/local-plugin/rules/module-identifier-naming-convention.ts:145-154 | the unmemoized replacement result, with the state of `MatcherReplace` |
| RegexSourceMatching.RegexSourceMatcher.FindMatcher | eslint-config/local-plugin/rules/module-identifier-naming-convention.ts:170-183 | the `find` loop returns and leaves what `SelectMatcher` specifies |
| ModuleIdentifierLegacy.ExpectedAgrees | eslint-config/local-plugin/rules/module-identifier-naming-convention.ts:217-279 | for a compilable matcher the older mode switch expects the same name as the newest one |
| ModuleIdentifierLegacy.AgreesWithNewestUnguarded | eslint-config/local-plugin/rules/module-identifier-naming-convention.ts:158-285 | without the blank guard, the older revision reports what the newest one reports for a non-blank path |
| ModuleIdentifierLegacy.BlankPathDiverges | eslint-config/local-plugin/rules/module-identifier-naming-convention.ts:168-197 | under matcher-less options the older revision reports `matcherNotFound` for the empty path while the newest one is silent |
| ModuleIdentifierLegacy.DefaultOptionsOutcome | eslint-config/local-plugin/rules/module-identifier-naming-convention.ts:306-313 | under the default options, a path that the engine's `^.*$` matches is held to its camelCase form |
| ModuleIdentifierLegacy.LintAllAppend | eslint-config/local-plugin/rules/module-identifier-naming-convention.ts:341-362 | linting two binding lists in turn is linting their concatenation |
| ModuleIdentifierLegacy.LegacyModuleIdentifierRule.LintModuleIdentifier | eslint-config/local-plugin/rules/module-identifier-naming-convention.ts:158-285 | the matcher object's new state is `Lint` of its old state |
| ModuleIdentifierLegacy.LegacyModuleIdentifierRule.VisitImport | eslint-config/local-plugin/rules/module-identifier-naming-convention.ts:319-363 | the import visitor's new state is `Visit` of the old one |
| ModuleIdentifierLegacy.LegacyModuleIdentifierRule.VisitExportAll | eslint-config/local-plugin/rules/module-identifier-naming-convention.ts:364-377 | the export-all visitor's new state is `Visit` of the old one |
| ModuleIdentifierLegacy.LegacyModuleIdentifierRule.VisitExportNamed | eslint-config/local-plugin/rules/module-identifier-naming-convention.ts:378-404 | the named-export visitor's new state is `Visit` of the old one |
| RestrictImportName.SanitizeRunsIsSqueezedSanitize | eslint-config/local-plugin/rules/restrict-non-named-import-name.ts:106 | the per-run replacement is the per-character one with each run of spaces collapsed into one |
| RestrictImportName.SanitizeRunsShape | eslint-config/local-plugin/rules/restrict-non-named-import-name.ts:106 | the result holds only kept characters and spaces, never two spaces in a row |
| RestrictImportName.GetNameVariantsIgnoreRunLength | eslint-config/local-plugin/rules/restrict-non-named-import-name.ts:103-111 | names whose sanitizations agree once runs of spaces are collapsed get equal camelCase and PascalCase variants, so a run of replaced characters counts as one separator whatever its length |
| RestrictImportName.LocalsOfMembers | eslint-config/local-plugin/rules/restrict-non-named-import-name.ts:125-128 | the collected names are exactly the local names of the passing specifiers, and there are none exactly when no specifier passes |
| RestrictImportName.ParseImportDeclarationSpec | eslint-config/local-plugin/rules/restrict-non-named-import-name.ts:113-146 | a default or namespace name is extracted exactly when one specifier of that kind exists, and it is that specifier's local name |
| RestrictImportName.ExpectedImportNameSpec | eslint-config/local-plugin/rules/restrict-non-named-import-name.ts:282-356 | for a compilable matcher the expected name is the configured value, the camel or Pascal form, or the template replacement overwritten only for a case transform |
| RestrictImportName.CheckKeepsCoherent | eslint-config/local-plugin/rules/restrict-non-named-import-name.ts:190-362 | checking keeps the cache consistent with the engine and each invalid source reported once |
| RestrictImportName.UnmatchedOutcome | eslint-config/local-plugin/rules/restrict-non-named-import-name.ts:268-280 | without a selected matcher, silence under `ignoreUnMatched === true`, otherwise one `matcherNotFound` with the package name |
| RestrictImportName.MatchedOutcome | eslint-config/local-plugin/rules/restrict-non-named-import-name.ts:282-356 | with matcher j selected, `invalidImportName` is reported exactly when the import name differs from the expected one |
| RestrictImportName.DefaultOptionsOutcome | eslint-config/local-plugin/rules/restrict-non-named-import-name.ts:166-173 | under the default options, when the engine's `^.*$` matches the package name, an import name is held to the camelCase form of the run-sanitized package name |
| RestrictImportName.NamedImportsAreNotChecked | eslint-config/local-plugin/rules/restrict-non-named-import-name.ts:364-395 | a declaration with only named specifiers leaves the state unchanged |
| RestrictImportName.ImportNameRule.CheckImportName | eslint-config/local-plugin/rules/restrict-non-named-import-name.ts:241-362 | the rule's new matcher state is `Check` of the old one |
| RestrictImportName.ImportNameRule.VisitImportDeclaration | eslint-config/local-plugin/rules/restrict-non-named-import-name.ts:364-395 | the visitor's new state is `Visit` of the old one: the default name, then the namespace name |
| FilePatterns.AsciiCaseInsensitiveGlob | node/utils/file-patterns.ts:57-73 | for ASCII input, each letter becomes `[lU]` and every other character is copied; the empty glob maps to the empty string |
| FilePatterns.AsciiGlobLength | node/utils/file-patterns.ts:60-72 | a glob of length n with k letters expands to length n + 3k |
| FilePatterns.AsciiGlobIgnoresCase | node/utils/file-patterns.ts:58-70 | globs that differ only in letter case give the same pattern |
| Packages.ReadName | node/utils/package.ts:11 | a name is read exactly when the text starts with a name character; the name is maximal and followed by the rest |
| Packages.ParsePackageName | node/utils/package.ts:7-28 | a rejection carries the thrown error for this path |
| Packages.ParsePackageNameSound | node/utils/package.ts:11-27 | an accepted path is scope + name, optionally followed by `/` and a line-terminator-free subpath, and starts with the package name |
| Packages.ParsePackageNameRoundTrip | node/utils/package.ts:11-27 | a valid scope and name, with or without a line-terminator-free subpath, parse back to themselves |
| Packages.PackageNameShape | node/utils/package.ts:11-27 | a scoped package name holds exactly one `/`, an unscoped one none, and neither an uppercase letter |
| Packages.ParsePackageNameRejectsStart | node/utils/package.ts:17-21 | the empty path and paths starting with `.`, `_`, `/` or an uppercase letter throw |
| Packages.ParsePackageNameRejectsUppercase | node/utils/package.ts:17-21 | an unscoped path with an uppercase letter before its first `/` throws |
| Packages.NpmPackageOfParsablePath | node/utils/package.ts:30-34 | paths starting with `.` or `/` are not npm packages, and neither are alias matches or builtins |
| NodeEnsure.DependencyNamesSpec | node/utils/ensure.ts:40-45 | a name is a dependency exactly when it is a key of an object field whose lower-cased name ends with `dependencies` |
| NodeEnsure.EnsureModulePathInPackage | node/utils/ensure.ts:37-56 | a success returns the module path unchanged |
| NodeEnsure.EnsureModulePathInPackageSpec | node/utils/ensure.ts:47-55 | succeeds exactly when the path parses and its package name is a dependency; otherwise the parse error or the missing-package error |
| NodeEnsure.SubpathIsIgnored | node/utils/ensure.ts:47-51 | `pkg/sub` is accepted exactly when `pkg` is |
| NodeEnsure.EnsureModulePathsAccepted | node/utils/ensure.ts:58-66 | all paths are accepted exactly when each is, and then the input comes back with its order and length |
| NodeEnsure.EnsureModulePathsFirstFailure | node/utils/ensure.ts:58-66 | a rejection carries the first failing path's error, every earlier path being accepted |
| UtilsEnsure.CheckedSpec | utils/ensure.ts:16-46 | the corrected checks succeed exactly when every entry is present, return the input unchanged, and otherwise name exactly the missing entries |
| UtilsEnsure.AsWrittenIsStricter | utils/ensure.ts:16-46 | whatever the checks as written accept, the corrected ones accept |
| UtilsEnsure.DuplicateScriptIsRejected | utils/ensure.ts:16-27 | with scripts `{a}`, the input `["a","a"]` passes the corrected check but fails the check as written, naming `a` |
| CommentCommands.CommandMatcherSpec | node/eslint-config/presets/command/utils.ts:6-16 | for a literal command on an engine that reads the boundary-wrapped source as written, the matcher exists and accepts a comment exactly when its trimmed value holds the command with the start, whitespace or a word boundary before it and the end, whitespace or a word boundary after it |
| CommentCommands.MatchIgnoresPadding | node/eslint-config/presets/command/utils.ts:12-16 | whitespace around the comment value never changes whether the command matches |
| CommentCommands.GetCommandLoc | node/eslint-config/presets/command/utils.ts:19-48 | the result is the comment's own location, or a single-line span exactly as wide as the command in UTF-16 code units |
| CommentCommands.GetCommandLocFallback | node/eslint-config/presets/command/utils.ts:32-34 | when no line contains the command, the comment's location is returned |
| CommentCommands.GetCommandLocTargetsLastLine | node/eslint-config/presets/command/utils.ts:26-47 | the span is on line `start.line + index` of the last line containing the command, at the UTF-16 length of the text before the first occurrence on that line, plus `start.column + 2` on the first line |
| CommentCommands.AstralCharacterCountsTwice | node/eslint-config/presets/command/utils.ts:36-41 | on the comment value ` 😀 @cmd` the command starts at column `start.column + 6`: the character outside the Basic Multilingual Plane counts as two code units |
| SortObjectsCommand.CommandRegexSourceFor | eslint-config/presets/command/perfectionist-sort-objects.ts:22-33 | a regex source exists exactly for block and line comments |
| SortObjectsCommand.MatchCommand | eslint-config/presets/command/perfectionist-sort-objects.ts:16-36 | any other comment type throws; otherwise the result is the regex test on the trimmed value |
| SortObjectsCommand.LineCommentMatchesExactly | eslint-config/presets/command/perfectionist-sort-objects.ts:20-35 | a line comment matches exactly when its trimmed value is the command |
| SortObjectsCommand.Action | eslint-config/presets/command/perfectionist-sort-objects.ts:84-130 | reports the missing object exactly when no object is found but a declaration is; reports only objects with two or more properties whose fix changed the text, at the command's location, with the temporary prefix stripped |
| Severity.NormalizeRuleValue | node/eslint-config/utils/severity.ts:27-42 | empty values pass through; strings and numbers become the severity; an array keeps its length and tail under the new head |
| Severity.NormalizeConfig | node/eslint-config/utils/severity.ts:19-43 | a config without rules is returned as is; otherwise only `rules` changes and its keys are kept |
| Severity.NormalizedRulesByKey | node/eslint-config/utils/severity.ts:26-27 | each rule key keeps its position and maps to the normalized old value |
| Severity.NormalizeSeverityIdempotent | node/eslint-config/utils/severity.ts:15-44 | normalizing twice is normalizing once |
| Severity.RevisionsAgree | eslint-config/utils/severity.ts:24-36 | on well-typed rule values the older revision gives what the newer one gives |
| PluginNames.CollectPluginNames | node/eslint-config/utils/plugin.ts:4-18 | the loop returns the first-occurrence de-duplication of all configs' plugin keys |
| PluginNames.PluginNamesSpec | node/eslint-config/utils/plugin.ts:5-17 | the names have no duplicates and a name is listed exactly when some config has it as a plugin key |
| PluginNames.PluginNamesOrder | eslint-config/utils/plugin.ts:8-18 | names appear in order of first occurrence across the configs |
| PluginNames.ConfigsWithoutPluginsContributeNothing | node/eslint-config/utils/plugin.ts:10-12 | appending a config with absent or empty `plugins` leaves the result unchanged |
| RuleUtils.CreateRulesSpec | eslint-config/utils/rule.ts:16-17 | every given name is a key mapped to the severity, and the key set is the name set |
| RuleUtils.CollectRuleNames | eslint-config/utils/rule.ts:22-53 | the nested loops return the specification list, with `shouldWithPluginName` defaulting to true |
| RuleUtils.RuleNamesSpec | eslint-config/utils/rule.ts:28-52 | no duplicates; a name is listed exactly when a plugin with rules has a rule that is not deprecated and is recorded under that name |
| RuleUtils.RuleNamesOrder | eslint-config/utils/rule.ts:28-52 | names appear in insertion order |
| RuleUtils.DisabledBuiltinExtendedRulesSpec | eslint-config/utils/rule.ts:55-64 | the keys are without duplicates exactly the builtin names that some plugin also defines unprefixed, each mapped to `off` |
| AuditSettings.DefineAuditSettings | eslint-config/utils/audit.ts:14-18 | the settings placed under `audit` parse back to themselves |
| AuditSettings.ParseAuditSettings | eslint-config/utils/audit.ts:8-10 | a rejection carries the rejected value |
| AuditSettings.ResolveAuditSettingsSpec | eslint-config/utils/audit.ts:20-24 | absent settings resolve to "not given"; resolution throws exactly for a value that is not an object or has a non-boolean flag |
| AuditSettings.ExactConfigNames | eslint-config/utils/audit.ts:27-36 | fails at the first malformed config; succeeds exactly when none is malformed, listing the trimmed names of the opted-out configs |
| AuditSettings.CollectFailsOnMalformed | eslint-config/utils/audit.ts:20-36 | the collection throws exactly when some config's audit settings are malformed |
| AuditSettings.CollectSound | eslint-config/utils/audit.ts:38-45 | a listed name is some config's trimmed name and starts with an opted-out config's trimmed name |
| AuditSettings.CollectComplete | eslint-config/utils/audit.ts:38-45 | every trimmed config name that starts with an opted-out name is listed |
| AuditSettings.CollectListsOptedOut | eslint-config/utils/audit.ts:27-45 | every opted-out config's own trimmed, non-empty name is listed |
| AuditSettings.CollectEmptyWithoutOptOut | eslint-config/utils/audit.ts:27-45 | with no opted-out config the result is empty |
| AuditSettings.CollectNoBlankNames | eslint-config/utils/audit.ts:34-41 | a blank name is never listed |
| CliHelper.Partition | node/utils/cli-helper.ts:58-62 | the two halves together hold exactly the input's elements |
| CliHelper.PartitionIsFilters | node/utils/cli-helper.ts:61 | the halves are the order-preserving filters by the predicate and by its negation |
| CliHelper.UnknownFilesDescription | node/utils/cli-helper.ts:69-75 | the description is the title, a blank line, one bullet per unknown file, a blank line and the hint |
| CliHelper.AnalyzeVerifyFilesSpec | node/utils/cli-helper.ts:52-85 | exits with status 1, the unknown-files title and the description of the unknown files exactly when unknown files exist and the flag is not true; otherwise related files are those in `allRelatedFiles`, unknown ones the rest, in order, and verification runs exactly when `files` is undefined or a related file exists |
| CliHelper.NoFilesRunsVerification | utils/cli-helper.ts:57-82 | with `files` undefined both lists are empty and verification runs |

## Left out

- The host ESLint machinery is not modelled: AST traversal, `RuleCreator`, `context.report` formatting, JSON-schema validation and inference. Options are taken as already validated into `Matchers.Options`.
- `getNodeText` and the AST node shapes are reduced to `Matchers.ModuleExportName` and the specifier datatypes.
- An unknown `mode` or `transform` throws in the source. The matcher datatype has no such value, so those `throw` branches cannot be represented.
- The regex engine, remeda's word-splitting case functions and `String.prototype` case maps are foreign parameters. `$<name>` expansion and regex semantics are not modelled.
- `NULL_CHAR`, imported by lib/utils/regex.ts, is a separator parameter of `LibRegex`. Its value is not defined by the string module shown.
- `memoizedGetCaseVariants` of the newest rule is modelled by `LibString.GetSanitizedCaseVariants`, its unmemoized value.
- Field names differ between the rule revisions: `type`/`importType`, `identifier`/`value`, `replacement`/`template`, `transformMode`/`transform`. All of them map to one `Matchers.Matcher` datatype.
- Only the newest module-identifier revision has the blank-path guard. The older revision is modelled without it (`ModuleIdentifierLegacy.BlankPathDiverges`).
- Sanitization differs between revisions. lib/utils/string.ts and utils/string.ts replace per character; restrict-non-named-import-name.ts replaces per run (`RestrictImportName.SanitizeRunsIsSqueezedSanitize`).
- The regex tests and replacements of the newest rule use the unmemoized functions. `LibRegex.RegexMemo` separately proves the memoized ones equal to them while no argument contains the separator.
- `keys()` of a value that is not an object is modelled as no keys.
- `ensureModulePathsInPackage` runs its checks under `Promise.all`. They are modelled in index order, and the first failure in that order is the one reported.
- `readPackage`, `memoizedReadPackageJson` and the module-level `await` are not modelled. The parsed `package.json` is a parameter.
- `printMessage` and `process.exit(1)` in `analyzeVerifyFiles` are modelled as the `CliHelper.Exit` outcome carrying the title and description.
- `toRelativePosixPath` is a parameter.
- `Linter.verifyAndFix` in the sort-objects action is a parameter. Its sorting is not modelled, and the `fix` callback is represented by its replacement text.
- `context.findNodeBelow` results are inputs of the sort-objects action. Only the first declarator of a declaration is represented.
- `js.configs.all.rules` of `createDisabledBuiltinExtendedRules` is a parameter: the list of builtin rule names.
- remeda's `intersection` is modelled as keeping the builtin names in their order. It is proved only for a builtin list without duplicates.
- Zod's parsing is modelled only for the one declared field: unknown keys are dropped, a non-object or a non-boolean flag is rejected.
- Severity.LegacyNormalizeSeverity: requires rule values of the declared types; the older source sends any other non-empty value through `drop`/`concat`, which is not modelled.
- FilePatterns.AsciiCaseInsensitiveGlob: stated only for ASCII globs and ASCII-faithful case maps, because for other text the result depends on the foreign case maps. Also, `split(…, '')` cuts the two case forms into UTF-16 code units while `FilePatterns.ToCaseInsensitiveGlob` zips characters, so a cased letter outside the Basic Multilingual Plane differs: for `𐐀` the source copies the shared high surrogate and brackets the two low surrogates, the model gives one bracket of both letters.
- Object keys are modelled in insertion order (`Collections.Obj`, `Collections.SetProperty`, `RuleUtils.CreateRulesSpec`). ECMAScript lists array-index keys such as `"0"` and `"1"` first, in ascending numeric order; the order matters only for the rule and plugin names collected, which are never array indices; elsewhere only membership of a key is used.
- Numbers in `Collections.Value` are integers (`Num(n: int)`). Fractions and `NaN` are not modelled: `isTruthy(NaN)` is false in ECMAScript, while every `Num` other than `0` is truthy here. The rule values and `deprecated` flags these functions read are integers or booleans.
- CommentCommands.CreateCommandMatcher and SortObjectsCommand.MatchCommand: the `exec` match array is modelled as the boolean `test`, because the callers use only whether it matched.
- ModuleIdentifier.DefaultOptionsOutcome, ModuleIdentifierLegacy.DefaultOptionsOutcome and RestrictImportName.DefaultOptionsOutcome: stated for a path or package name that the flagless `^.*$` matches. On one containing LF, CR, U+2028 or U+2029 that regex fails, so the default options report `matcherNotFound` instead (`ModuleIdentifier.UnmatchedOutcome` and `RestrictImportName.UnmatchedOutcome` state it, and `ModuleIdentifierLegacy.AgreesWithNewestUnguarded` carries it to the older revision).

## Findings

| source | as written | input that shows it | evidently intended | confidence | as-written member | corrected member |
|---|---|---|---|---|---|---|
| utils/ensure.ts:19-21 | remeda's `difference` removes one occurrence per element of the second list, so a repeated name is reported missing | scripts `{a}`, `ensureScriptsInPackage(["a","a"])` throws naming `a`; the same holds for `ensureDependenciesInPackage` at utils/ensure.ts:38-40 | accept an input whose every entry is a script or dependency, and name only entries that are absent | not executed | UtilsEnsure.DuplicateScriptIsRejected | UtilsEnsure.CheckedSpec |

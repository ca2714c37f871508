/**
 * The libraries the repository calls but does not define, as records of total functions.
 *
 * `RegexEngine` stands for the `RegExp` constructor (`compiles` is false exactly when
 * `new RegExp(source, flags)` throws), `RegExp.prototype.test` and `String.prototype.replace`
 * with a non-global pattern, which replaces the first match only. `Casing` stands for
 * `String.prototype.toLowerCase` / `toUpperCase` and remeda's word-splitting case functions.
 * Every property proved about the repository's code holds for every such record.
 */
module Foreign {
  import opened Wrappers
  import Strings

  /** A regular expression as written: its source text and its flags. */
  datatype Regex = Regex(source: string, flags: string)

  /** A successfully constructed `RegExp`. */
  datatype Pattern = Pattern(regex: Regex)

  datatype RegexEngine = RegexEngine(
    compiles: Regex -> bool,
    test: (Regex, string) -> bool,
    replaceFirst: (Regex, string, string) -> string)

  /** `new RegExp(source)` with no flags, `None` when the constructor throws. */
  function Compile(e: RegexEngine, source: string): Option<Pattern> {
    if e.compiles(Regex(source, [])) then Some(Pattern(Regex(source, []))) else None
  }

  /** `pattern.test(text)`; a flagless pattern keeps no `lastIndex` state. */
  function Test(e: RegexEngine, p: Pattern, text: string): bool {
    e.test(p.regex, text)
  }

  /** `text.replace(pattern, replacement)` for a flagless pattern. */
  function ReplaceFirst(e: RegexEngine, p: Pattern, text: string, replacement: string): string {
    e.replaceFirst(p.regex, text, replacement)
  }

  datatype Casing = Casing(
    toLowerCase: string -> string,
    toUpperCase: string -> string,
    toCamelCase: string -> string,
    toKebabCase: string -> string,
    toSnakeCase: string -> string,
    toTitleCase: string -> string)

  /** remeda's `capitalize`: upper-case the first character, keep the rest. */
  function Capitalize(c: Casing, s: string): string {
    if s == [] then [] else c.toUpperCase([s[0]]) + s[1..]
  }

  /** The case maps agree with plain ASCII case mapping on ASCII strings. */
  ghost predicate AsciiFaithful(c: Casing) {
    forall s :: Strings.IsAscii(s) ==>
      c.toLowerCase(s) == Strings.AsciiLower(s) && c.toUpperCase(s) == Strings.AsciiUpper(s)
  }
}

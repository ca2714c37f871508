/**
 * utils/string.ts, the older revision of lib/utils/string.ts. It sanitizes with
 * `raw.replace(/[^0-9a-z]/giv, ' ')`, which under the `g` flag is the same per-character
 * replacement, and derives only camelCase and pascalCase. Its `splitLines` is the same
 * expression as the newer one and is modelled by `LibString.SplitLines`.
 */
module UtilsString {
  import opened Foreign
  import LibString

  datatype CaseVariants = CaseVariants(camelCase: string, pascalCase: string, raw: string)

  /** `getSanitizedCaseVariants` (older revision). */
  function GetSanitizedCaseVariants(c: Casing, raw: string): (v: CaseVariants)
    ensures v.raw == raw
    ensures v.pascalCase == Capitalize(c, v.camelCase)
  {
    var sanitized := LibString.Sanitize(raw);
    var camelCase := c.toCamelCase(sanitized);
    CaseVariants(camelCase, Capitalize(c, camelCase), raw)
  }

  /** The older variants are the corresponding fields of the newer record. */
  lemma AgreesWithNewerRevision(c: Casing, raw: string)
    ensures var older, newer := GetSanitizedCaseVariants(c, raw), LibString.GetSanitizedCaseVariants(c, raw);
      older.raw == newer.raw.value && older.camelCase == newer.camelCase
      && older.pascalCase == newer.pascalCase
  {
  }

  /** Inputs differing only in which replaced characters they hold give equal camelCase and pascalCase. */
  lemma DerivedVariantsIgnoreReplacedCharacters(c: Casing, a: string, b: string)
    requires |a| == |b|
    requires forall i :: 0 <= i < |a| && (LibString.IsKept(a[i]) || LibString.IsKept(b[i])) ==> a[i] == b[i]
    ensures GetSanitizedCaseVariants(c, a).camelCase == GetSanitizedCaseVariants(c, b).camelCase
    ensures GetSanitizedCaseVariants(c, a).pascalCase == GetSanitizedCaseVariants(c, b).pascalCase
  {
    assert LibString.Sanitize(a) == LibString.Sanitize(b);
  }
}

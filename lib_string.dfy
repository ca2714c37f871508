/**
 * lib/utils/string.ts: line splitting and the sanitized case variants of a string.
 *
 * Sanitization is `raw.replaceAll(/[^0-9a-z]/giv, ' ')`. Under the `v` and `i` flags the
 * negated class is matched after simple case folding, so a character is kept when it
 * folds into `[0-9a-z]`: the ASCII digits and letters, and also U+017F (long s, folds to
 * `s`) and U+212A (Kelvin sign, folds to `k`). Every other character becomes one space.
 */
module LibString {
  import opened Wrappers
  import opened Strings
  import opened Foreign

  /** Characters that `[^0-9a-z]` with flags `giv` does not match. */
  predicate IsKept(c: char) {
    IsAsciiDigit(c) || IsAsciiLetter(c) || c == '\U{17F}' || c == '\U{212A}'
  }

  /** `raw.replaceAll(/[^0-9a-z]/giv, ' ')`: one space per replaced character. */
  function Sanitize(raw: string): string {
    seq(|raw|, i requires 0 <= i < |raw| => if IsKept(raw[i]) then raw[i] else ' ')
  }

  /** The length is kept, kept characters stay in place, and nothing else but spaces remains. */
  lemma SanitizeShape(raw: string)
    ensures |Sanitize(raw)| == |raw|
    ensures forall i :: 0 <= i < |raw| && IsKept(raw[i]) ==> Sanitize(raw)[i] == raw[i]
    ensures forall i :: 0 <= i < |raw| && !IsKept(raw[i]) ==> Sanitize(raw)[i] == ' '
    ensures forall i :: 0 <= i < |raw| ==> IsKept(Sanitize(raw)[i]) || Sanitize(raw)[i] == ' '
  {
  }

  datatype RawVariants = RawVariants(value: string, lowercase: string, uppercase: string)

  /** The `CaseVariants` record; field `raw` holds the unsanitized forms. */
  datatype CaseVariants = CaseVariants(
    raw: RawVariants,
    camelCase: string,
    pascalCase: string,
    kebabCase: string,
    snakeCase: string,
    screamingSnakeCase: string,
    titleCase: string)

  /** `getSanitizedCaseVariants`. */
  function GetSanitizedCaseVariants(c: Casing, raw: string): (v: CaseVariants)
    ensures v.raw == RawVariants(raw, c.toLowerCase(raw), c.toUpperCase(raw))
    ensures v.pascalCase == Capitalize(c, v.camelCase)
    ensures v.screamingSnakeCase == c.toUpperCase(v.snakeCase)
  {
    var sanitized := Sanitize(raw);
    CaseVariants(
      RawVariants(raw, c.toLowerCase(raw), c.toUpperCase(raw)),
      c.toCamelCase(sanitized),
      Capitalize(c, c.toCamelCase(sanitized)),
      c.toKebabCase(sanitized),
      c.toSnakeCase(sanitized),
      c.toUpperCase(c.toSnakeCase(sanitized)),
      c.toTitleCase(sanitized))
  }

  /**
   * PascalCase is camelCase with only its first character upper-cased; for an ASCII
   * camelCase and ASCII-faithful case maps the two have the same length.
   */
  lemma PascalCaseIsCapitalizedCamelCase(c: Casing, raw: string)
    ensures var v := GetSanitizedCaseVariants(c, raw);
      (v.camelCase == [] ==> v.pascalCase == [])
      && (v.camelCase != [] ==> v.pascalCase == c.toUpperCase([v.camelCase[0]]) + v.camelCase[1..])
    ensures var v := GetSanitizedCaseVariants(c, raw);
      AsciiFaithful(c) && IsAscii(v.camelCase) && v.camelCase != [] ==>
        |v.pascalCase| == |v.camelCase| && v.pascalCase[0] == AsciiUpperChar(v.camelCase[0])
        && v.pascalCase[1..] == v.camelCase[1..]
  {
    var v := GetSanitizedCaseVariants(c, raw);
    if AsciiFaithful(c) && IsAscii(v.camelCase) && v.camelCase != [] {
      var head := [v.camelCase[0]];
      assert IsAscii(head);
      assert c.toUpperCase(head) == AsciiUpper(head);
    }
  }

  /**
   * Two inputs that agree wherever either has a kept character, and so differ only in
   * which other characters they hold, have the same derived variants.
   */
  lemma DerivedVariantsIgnoreReplacedCharacters(c: Casing, a: string, b: string)
    requires |a| == |b|
    requires forall i :: 0 <= i < |a| && (IsKept(a[i]) || IsKept(b[i])) ==> a[i] == b[i]
    ensures var va, vb := GetSanitizedCaseVariants(c, a), GetSanitizedCaseVariants(c, b);
      va.camelCase == vb.camelCase && va.pascalCase == vb.pascalCase
      && va.kebabCase == vb.kebabCase && va.snakeCase == vb.snakeCase
      && va.screamingSnakeCase == vb.screamingSnakeCase && va.titleCase == vb.titleCase
  {
    assert Sanitize(a) == Sanitize(b);
  }

  predicate IsLineBreakChar(c: char) { c == '\r' || c == '\n' }

  /** The first position at which `/\r\n|\r|\n/` matches, and the length of that match. */
  function FirstLineBreak(text: string, from: nat): (r: Option<(nat, nat)>)
    requires from <= |text|
    ensures r.Some? ==> from <= r.value.0 < |text| && IsLineBreakChar(text[r.value.0])
    ensures r.Some? ==> r.value.0 + r.value.1 <= |text|
    ensures r.Some? ==> r.value.1 == (if text[r.value.0] == '\r' && r.value.0 + 1 < |text| && text[r.value.0 + 1] == '\n' then 2 else 1)
    ensures forall j :: from <= j < |text| && (r.None? || j < r.value.0) ==> !IsLineBreakChar(text[j])
    decreases |text| - from
  {
    if from == |text| then None
    else if text[from] == '\r' && from + 1 < |text| && text[from + 1] == '\n' then Some((from, 2))
    else if IsLineBreakChar(text[from]) then Some((from, 1))
    else FirstLineBreak(text, from + 1)
  }

  /** `split(text, /\r\n|\r|\n/v)`. */
  function SplitLines(text: string): (lines: seq<string>)
    ensures |lines| >= 1
    decreases |text|
  {
    match FirstLineBreak(text, 0)
    case None => [text]
    case Some((i, n)) => [text[..i]] + SplitLines(text[i + n..])
  }

  /** The number of line separators, `\r\n` counting once, found by a left-to-right scan. */
  function CountLineBreaks(text: string): nat {
    if text == [] then 0
    else if text[0] == '\r' && |text| > 1 && text[1] == '\n' then 1 + CountLineBreaks(text[2..])
    else if IsLineBreakChar(text[0]) then 1 + CountLineBreaks(text[1..])
    else CountLineBreaks(text[1..])
  }

  /** The text with every `\r\n` and every lone `\r` written as `\n`. */
  function NormalizeLineBreaks(text: string): string {
    if text == [] then []
    else if text[0] == '\r' && |text| > 1 && text[1] == '\n' then "\n" + NormalizeLineBreaks(text[2..])
    else if IsLineBreakChar(text[0]) then "\n" + NormalizeLineBreaks(text[1..])
    else [text[0]] + NormalizeLineBreaks(text[1..])
  }

  /** Scanning over a prefix without line-break characters finds no separator. */
  lemma {:induction false} PlainPrefix(text: string, i: nat)
    requires i <= |text|
    requires forall j :: 0 <= j < i ==> !IsLineBreakChar(text[j])
    ensures CountLineBreaks(text) == CountLineBreaks(text[i..])
    ensures NormalizeLineBreaks(text) == text[..i] + NormalizeLineBreaks(text[i..])
  {
    if i > 0 {
      PlainPrefix(text[1..], i - 1);
      assert text[1..][i - 1..] == text[i..];
      assert text[..i] == [text[0]] + text[1..][..i - 1];
    }
  }

  /** Splitting at the first separator: the scans agree on what comes before and after it. */
  lemma {:induction false} FirstBreakStep(text: string)
    requires FirstLineBreak(text, 0).Some?
    ensures var (i, n) := FirstLineBreak(text, 0).value;
      CountLineBreaks(text) == 1 + CountLineBreaks(text[i + n..])
      && NormalizeLineBreaks(text) == text[..i] + "\n" + NormalizeLineBreaks(text[i + n..])
  {
    var (i, n) := FirstLineBreak(text, 0).value;
    var rest := text[i + n..];
    PlainPrefix(text, i);
    var tail := text[i..];
    assert tail[0] == text[i];
    if n == 2 {
      assert tail[1] == '\n' && tail[2..] == rest;
    } else {
      assert tail[1..] == rest;
    }
  }

  /** No line contains CR or LF. */
  lemma {:induction false} SplitLinesHaveNoBreaks(text: string)
    ensures forall k, j :: 0 <= k < |SplitLines(text)| && 0 <= j < |SplitLines(text)[k]| ==>
      !IsLineBreakChar(SplitLines(text)[k][j])
    decreases |text|
  {
    match FirstLineBreak(text, 0)
    case None =>
    case Some((i, n)) =>
      SplitLinesHaveNoBreaks(text[i + n..]);
  }

  /** There is one more line than there are separators, `\r\n` counting as one. */
  lemma {:induction false} SplitLinesCount(text: string)
    ensures |SplitLines(text)| == CountLineBreaks(text) + 1
    decreases |text|
  {
    match FirstLineBreak(text, 0)
    case None =>
      PlainPrefix(text, |text|);
      assert text[|text|..] == [];
    case Some((i, n)) =>
      SplitLinesCount(text[i + n..]);
      FirstBreakStep(text);
  }

  /** Joining the lines with `\n` gives the text with its line endings normalized. */
  lemma {:induction false} SplitLinesJoin(text: string)
    ensures JoinWith(SplitLines(text), "\n") == NormalizeLineBreaks(text)
    decreases |text|
  {
    match FirstLineBreak(text, 0)
    case None =>
      PlainPrefix(text, |text|);
      assert text[|text|..] == [];
      assert text[..|text|] == text;
    case Some((i, n)) =>
      var rest := text[i + n..];
      SplitLinesJoin(rest);
      FirstBreakStep(text);
      JoinWithCons(text[..i], SplitLines(rest), "\n");
  }

  lemma {:induction false} JoinWithCons(head: string, rest: seq<string>, sep: string)
    requires |rest| >= 1
    ensures JoinWith([head] + rest, sep) == head + sep + JoinWith(rest, sep)
    decreases |rest|
  {
    var all := [head] + rest;
    if |rest| == 1 {
      assert all[..1] == [head];
    } else {
      assert all[..|all| - 1] == [head] + rest[..|rest| - 1];
      JoinWithCons(head, rest[..|rest| - 1], sep);
    }
  }
}

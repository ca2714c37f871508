/**
 * node/utils/file-patterns.ts: `toCaseInsensitiveGlob`, which turns every cased
 * character of a glob into a two-character bracket class.
 *
 * The lower and upper forms are `raw.lowercase` and `raw.UPPERCASE` of `getCaseVariants`,
 * that is `toLowerCase(glob)` and `toUpperCase(glob)`; they need not have the glob's length
 * (`'İ'.toLowerCase()` has two code units), and `zipWith` stops at the shorter one.
 *
 * `split(…, '')` cuts each form into UTF-16 code units; the model zips characters, which
 * is the same for text inside the Basic Multilingual Plane. A cased letter outside it
 * differs: the source copies a shared high surrogate and brackets the low surrogates.
 */
module FilePatterns {
  import opened Strings
  import opened Foreign

  /** remeda's `zipWith`: pairs position by position up to the shorter input. */
  function ZipWith<A, B, C>(xs: seq<A>, ys: seq<B>, f: (A, B) -> C): (r: seq<C>)
    ensures |r| == if |xs| < |ys| then |xs| else |ys|
    ensures forall i :: 0 <= i < |r| ==> r[i] == f(xs[i], ys[i])
  {
    var n := if |xs| < |ys| then |xs| else |ys|;
    seq(n, i requires 0 <= i < n => f(xs[i], ys[i]))
  }

  /** The `zipWith` callback: a caseless position is copied, a cased one becomes `[lU]`. */
  function Pair(lowercase: char, uppercase: char): string {
    if lowercase == uppercase then [lowercase] else ['[', lowercase, uppercase, ']']
  }

  /** `toCaseInsensitiveGlob`. */
  function ToCaseInsensitiveGlob(c: Casing, glob: string): string {
    Concat(ZipWith(c.toLowerCase(glob), c.toUpperCase(glob), Pair))
  }

  /** The glob an ASCII-faithful case mapping gives, written character by character. */
  function AsciiPiece(ch: char): string {
    if IsAsciiLetter(ch) then ['[', AsciiLowerChar(ch), AsciiUpperChar(ch), ']'] else [ch]
  }

  function AsciiGlob(glob: string): string {
    if glob == [] then [] else AsciiGlob(glob[..|glob| - 1]) + AsciiPiece(glob[|glob| - 1])
  }

  function CountLetters(s: string): nat {
    if s == [] then 0 else CountLetters(s[..|s| - 1]) + (if IsAsciiLetter(s[|s| - 1]) then 1 else 0)
  }

  lemma PairIsAsciiPiece(ch: char)
    requires ch < '\U{80}'
    ensures Pair(AsciiLowerChar(ch), AsciiUpperChar(ch)) == AsciiPiece(ch)
  {
    if IsAsciiUpper(ch) {
      assert AsciiLowerChar(ch) != AsciiUpperChar(ch);
    }
  }

  lemma {:induction false} ZipConcatIsAsciiGlob(glob: string)
    requires IsAscii(glob)
    ensures Concat(ZipWith(AsciiLower(glob), AsciiUpper(glob), Pair)) == AsciiGlob(glob)
    decreases |glob|
  {
    if glob != [] {
      var n := |glob| - 1;
      var zs := ZipWith(AsciiLower(glob), AsciiUpper(glob), Pair);
      var init := glob[..n];
      assert IsAscii(init) by {
        forall i | 0 <= i < |init| ensures init[i] < '\U{80}' {
          assert init[i] == glob[i];
        }
      }
      assert zs[..n] == ZipWith(AsciiLower(init), AsciiUpper(init), Pair);
      ZipConcatIsAsciiGlob(init);
      PairIsAsciiPiece(glob[n]);
    }
  }

  /**
   * For an ASCII glob and case maps that agree with ASCII case mapping, every letter
   * becomes `[lU]` with the lowercase form first and every other character is copied; in
   * particular the empty glob maps to the empty string.
   */
  lemma AsciiCaseInsensitiveGlob(c: Casing, glob: string)
    requires AsciiFaithful(c) && IsAscii(glob)
    ensures ToCaseInsensitiveGlob(c, glob) == AsciiGlob(glob)
    ensures glob == [] ==> ToCaseInsensitiveGlob(c, glob) == []
  {
    ZipConcatIsAsciiGlob(glob);
  }

  /** An ASCII glob of length n with k letters expands to length n + 3k. */
  lemma {:induction false} AsciiGlobLength(glob: string)
    ensures |AsciiGlob(glob)| == |glob| + 3 * CountLetters(glob)
    decreases |glob|
  {
    if glob != [] {
      AsciiGlobLength(glob[..|glob| - 1]);
    }
  }

  lemma PieceIgnoresCase(a: char, b: char)
    requires AsciiLowerChar(a) == AsciiLowerChar(b)
    ensures AsciiPiece(a) == AsciiPiece(b)
  {
  }

  /** ASCII globs that differ only in letter case give the same pattern. */
  lemma {:induction false} AsciiGlobIgnoresCase(g1: string, g2: string)
    requires AsciiLower(g1) == AsciiLower(g2)
    ensures AsciiGlob(g1) == AsciiGlob(g2)
    decreases |g1|
  {
    assert |g1| == |AsciiLower(g1)| == |g2|;
    if g1 != [] {
      var n := |g1| - 1;
      assert AsciiLowerChar(g1[n]) == AsciiLower(g1)[n] == AsciiLowerChar(g2[n]);
      PieceIgnoresCase(g1[n], g2[n]);
      assert AsciiLower(g1[..n]) == AsciiLower(g1)[..n];
      assert AsciiLower(g2[..n]) == AsciiLower(g2)[..n];
      AsciiGlobIgnoresCase(g1[..n], g2[..n]);
      assert AsciiGlob(g1) == AsciiGlob(g1[..n]) + AsciiPiece(g1[n]);
      assert AsciiGlob(g2) == AsciiGlob(g2[..n]) + AsciiPiece(g2[n]);
    }
  }
}

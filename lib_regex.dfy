/**
 * lib/utils/regex.ts: regex compilation, test and replace that absorb an invalid source
 * into `null`, each wrapped by `memoize`. The unmemoized bodies are functions; `RegexMemo`
 * models the hidden caches, keyed by the source text for compilation and by the
 * arguments joined with a separator character (`NULL_CHAR`) for test and replace.
 */
module LibRegex {
  import opened Wrappers
  import opened Foreign
  import opened Strings

  /** The body of `memoizedCompileRegex`: `null` exactly when `new RegExp(source)` throws. */
  function CompileRegex(e: RegexEngine, source: string): (r: Option<Pattern>)
    ensures r.None? <==> !e.compiles(Regex(source, []))
    ensures r.Some? ==> r.value.regex == Regex(source, [])
  {
    Compile(e, source)
  }

  /** The body of `memoizedRegexTest`: `null` iff the source is invalid, else `regex.test(text)`. */
  function RegexTest(e: RegexEngine, source: string, text: string): (r: Option<bool>)
    ensures r.None? <==> !e.compiles(Regex(source, []))
    ensures r.Some? ==> r.value == e.test(Regex(source, []), text)
  {
    match CompileRegex(e, source)
    case None => None
    case Some(p) => Some(Test(e, p, text))
  }

  /**
   * The body of `memoizedRegexReplace`: `null` iff the source is invalid, else
   * `text.replace(regex, replacement)` with a flagless pattern, so the first match only.
   */
  function RegexReplace(e: RegexEngine, source: string, text: string, replacement: string): (r: Option<string>)
    ensures r.None? <==> !e.compiles(Regex(source, []))
    ensures r.Some? ==> r.value == e.replaceFirst(Regex(source, []), text, replacement)
  {
    match CompileRegex(e, source)
    case None => None
    case Some(p) => Some(ReplaceFirst(e, p, text, replacement))
  }

  /** `join(parameters, NULL_CHAR)`. */
  function CacheKey(args: seq<string>, separator: char): string {
    JoinWith(args, [separator])
  }

  predicate AvoidsSeparator(args: seq<string>, separator: char) {
    forall i :: 0 <= i < |args| ==> separator !in args[i]
  }

  lemma SeparatorInLongerTail(x: string, y: string, x': string, y': string, sep: char)
    requires x + [sep] + y == x' + [sep] + y'
    requires |y| < |y'|
    ensures sep in y'
  {
    var w := x + [sep] + y;
    assert w[|x|] == sep;
    assert w[|x|] == y'[|x| - |x'| - 1];
  }

  lemma SplitAtLastSeparator(x: string, y: string, x': string, y': string, sep: char)
    requires x + [sep] + y == x' + [sep] + y'
    requires sep !in y && sep !in y'
    ensures x == x' && y == y'
  {
    var w := x + [sep] + y;
    if |y| < |y'| {
      SeparatorInLongerTail(x, y, x', y', sep);
      assert false;
    } else if |y'| < |y| {
      SeparatorInLongerTail(x', y', x, y, sep);
      assert false;
    }
    assert x == w[..|x|] && x' == w[..|x'|];
    assert y == w[|x| + 1..] && y' == w[|x'| + 1..];
  }

  /** Argument lists of one length that avoid the separator get distinct keys. */
  lemma {:induction false} CacheKeyInjective(a: seq<string>, b: seq<string>, separator: char)
    requires |a| == |b|
    requires AvoidsSeparator(a, separator) && AvoidsSeparator(b, separator)
    requires CacheKey(a, separator) == CacheKey(b, separator)
    ensures a == b
  {
    if |a| == 1 {
      assert a == [a[0]] && b == [b[0]];
    } else if |a| > 1 {
      var n := |a|;
      SplitAtLastSeparator(CacheKey(a[..n - 1], separator), a[n - 1],
                           CacheKey(b[..n - 1], separator), b[n - 1], separator);
      CacheKeyInjective(a[..n - 1], b[..n - 1], separator);
      assert a == a[..n - 1] + [a[n - 1]] && b == b[..n - 1] + [b[n - 1]];
    }
  }

  /** Without that proviso two different calls can share a key. */
  lemma CacheKeyPair(p: string, q: string, separator: char)
    ensures CacheKey([p, q], separator) == p + [separator] + q
  {
    assert [p, q][..1] == [p];
    assert JoinWith([p], [separator]) == p;
    assert JoinWith([p, q], [separator]) == JoinWith([p], [separator]) + [separator] + q;
  }

  lemma CacheKeyCollision(separator: char)
    ensures ["a" + [separator], "b"] != ["a", [separator] + "b"]
    ensures CacheKey(["a" + [separator], "b"], separator) == CacheKey(["a", [separator] + "b"], separator)
  {
    assert ["a" + [separator], "b"][0] != ["a", [separator] + "b"][0];
    CacheKeyPair("a" + [separator], "b", separator);
    CacheKeyPair("a", [separator] + "b", separator);
    assert ("a" + [separator]) + [separator] + "b" == "a" + [separator] + ([separator] + "b");
  }

  /** Each cached test result is the unmemoized result for the arguments that stored it. */
  ghost predicate TestEntries(e: RegexEngine, separator: char, tested: map<string, Option<bool>>, args: map<string, seq<string>>) {
    && args.Keys == tested.Keys
    && forall k :: k in tested ==>
         && |args[k]| == 2 && CacheKey(args[k], separator) == k
         && tested[k] == RegexTest(e, args[k][0], args[k][1])
  }

  /** Each cached replacement is the unmemoized result for the arguments that stored it. */
  ghost predicate ReplaceEntries(e: RegexEngine, separator: char, replaced: map<string, Option<string>>, args: map<string, seq<string>>) {
    && args.Keys == replaced.Keys
    && forall k :: k in replaced ==>
         && |args[k]| == 3 && CacheKey(args[k], separator) == k
         && replaced[k] == RegexReplace(e, args[k][0], args[k][1], args[k][2])
  }

  ghost predicate ArgsAvoidSeparator(args: map<string, seq<string>>, separator: char) {
    forall k :: k in args ==> AvoidsSeparator(args[k], separator)
  }

  lemma StoreTest(e: RegexEngine, separator: char, tested: map<string, Option<bool>>, args: map<string, seq<string>>,
                  source: string, text: string)
    requires TestEntries(e, separator, tested, args)
    ensures var k := CacheKey([source, text], separator);
      TestEntries(e, separator, tested[k := RegexTest(e, source, text)], args[k := [source, text]])
  {
  }

  lemma StoreReplace(e: RegexEngine, separator: char, replaced: map<string, Option<string>>, args: map<string, seq<string>>,
                     source: string, text: string, replacement: string)
    requires ReplaceEntries(e, separator, replaced, args)
    ensures var k := CacheKey([source, text, replacement], separator);
      ReplaceEntries(e, separator, replaced[k := RegexReplace(e, source, text, replacement)], args[k := [source, text, replacement]])
  {
  }

  /** A hit on these arguments returns their own unmemoized result when no call used the separator. */
  lemma TestHit(e: RegexEngine, separator: char, tested: map<string, Option<bool>>, args: map<string, seq<string>>,
                source: string, text: string)
    requires TestEntries(e, separator, tested, args) && ArgsAvoidSeparator(args, separator)
    requires AvoidsSeparator([source, text], separator)
    requires CacheKey([source, text], separator) in tested
    ensures tested[CacheKey([source, text], separator)] == RegexTest(e, source, text)
  {
    var k := CacheKey([source, text], separator);
    CacheKeyInjective(args[k], [source, text], separator);
  }

  lemma ReplaceHit(e: RegexEngine, separator: char, replaced: map<string, Option<string>>, args: map<string, seq<string>>,
                   source: string, text: string, replacement: string)
    requires ReplaceEntries(e, separator, replaced, args) && ArgsAvoidSeparator(args, separator)
    requires AvoidsSeparator([source, text, replacement], separator)
    requires CacheKey([source, text, replacement], separator) in replaced
    ensures replaced[CacheKey([source, text, replacement], separator)] == RegexReplace(e, source, text, replacement)
  {
    var k := CacheKey([source, text, replacement], separator);
    CacheKeyInjective(args[k], [source, text, replacement], separator);
  }

  /** The three `memoize` caches of lib/utils/regex.ts. */
  class RegexMemo {
    const engine: RegexEngine
    const separator: char
    var compiled: map<string, Option<Pattern>>
    var tested: map<string, Option<bool>>
    var replaced: map<string, Option<string>>
    /** The arguments of the call that filled each key. */
    ghost var testArgs: map<string, seq<string>>
    ghost var replaceArgs: map<string, seq<string>>

    /** Every cached value is what the unmemoized function gives for the arguments that stored it. */
    ghost predicate Valid()
      reads this
    {
      && (forall s :: s in compiled ==> compiled[s] == CompileRegex(engine, s))
      && TestEntries(engine, separator, tested, testArgs)
      && ReplaceEntries(engine, separator, replaced, replaceArgs)
    }

    /** Every call so far passed arguments free of the separator. */
    ghost predicate SeparatorFree()
      reads this
    {
      ArgsAvoidSeparator(testArgs, separator) && ArgsAvoidSeparator(replaceArgs, separator)
    }

    constructor (engine: RegexEngine, separator: char)
      ensures Valid() && SeparatorFree()
      ensures this.engine == engine && this.separator == separator
      ensures compiled == map[] && tested == map[] && replaced == map[]
    {
      this.engine := engine;
      this.separator := separator;
      compiled, tested, replaced := map[], map[], map[];
      testArgs, replaceArgs := map[], map[];
    }

    /** `memoizedCompileRegex`: transparent, since its key is the source itself. */
    method MemoizedCompileRegex(source: string) returns (p: Option<Pattern>)
      requires Valid()
      modifies this
      ensures Valid()
      ensures p == CompileRegex(engine, source)
      ensures compiled == old(compiled)[source := p]
      ensures tested == old(tested) && replaced == old(replaced)
      ensures testArgs == old(testArgs) && replaceArgs == old(replaceArgs)
    {
      if source in compiled {
        p := compiled[source];
      } else {
        p := CompileRegex(engine, source);
        compiled := compiled[source := p];
      }
    }

    /**
     * `memoizedRegexTest`: a miss stores and returns the unmemoized result; a hit returns
     * what the call that produced the key computed, which is the unmemoized result for these
     * arguments whenever no call used the separator.
     */
    method MemoizedRegexTest(source: string, text: string) returns (r: Option<bool>)
      requires Valid()
      modifies this
      ensures Valid()
      ensures CacheKey([source, text], separator) in old(tested) ==>
        r == old(tested)[CacheKey([source, text], separator)] && tested == old(tested) && testArgs == old(testArgs)
        && compiled == old(compiled)
      ensures CacheKey([source, text], separator) !in old(tested) ==>
        r == RegexTest(engine, source, text) && tested == old(tested)[CacheKey([source, text], separator) := r]
        && testArgs == old(testArgs)[CacheKey([source, text], separator) := [source, text]]
        && compiled == old(compiled)[source := CompileRegex(engine, source)]
      ensures replaced == old(replaced) && replaceArgs == old(replaceArgs)
      ensures old(SeparatorFree()) && AvoidsSeparator([source, text], separator) ==>
        SeparatorFree() && r == RegexTest(engine, source, text)
    {
      var k := CacheKey([source, text], separator);
      if k in tested {
        r := tested[k];
        if SeparatorFree() && AvoidsSeparator([source, text], separator) {
          TestHit(engine, separator, tested, testArgs, source, text);
        }
      } else {
        var p := MemoizedCompileRegex(source);
        r := if p.None? then None else Some(Test(engine, p.value, text));
        assert r == RegexTest(engine, source, text);
        RememberTest(source, text, r);
      }
    }

    /** Stores a freshly computed test result under its key. */
    method RememberTest(source: string, text: string, r: Option<bool>)
      requires Valid() && r == RegexTest(engine, source, text)
      modifies this
      ensures Valid()
      ensures tested == old(tested)[CacheKey([source, text], separator) := r]
      ensures testArgs == old(testArgs)[CacheKey([source, text], separator) := [source, text]]
      ensures compiled == old(compiled) && replaced == old(replaced) && replaceArgs == old(replaceArgs)
      ensures old(SeparatorFree()) && AvoidsSeparator([source, text], separator) ==> SeparatorFree()
    {
      StoreTest(engine, separator, tested, testArgs, source, text);
      var k := CacheKey([source, text], separator);
      tested := tested[k := r];
      testArgs := testArgs[k := [source, text]];
    }

    /** Stores a freshly computed replacement under its key. */
    method RememberReplacement(source: string, text: string, replacement: string, r: Option<string>)
      requires Valid() && r == RegexReplace(engine, source, text, replacement)
      modifies this
      ensures Valid()
      ensures replaced == old(replaced)[CacheKey([source, text, replacement], separator) := r]
      ensures replaceArgs == old(replaceArgs)[CacheKey([source, text, replacement], separator) := [source, text, replacement]]
      ensures compiled == old(compiled) && tested == old(tested) && testArgs == old(testArgs)
      ensures old(SeparatorFree()) && AvoidsSeparator([source, text, replacement], separator) ==> SeparatorFree()
    {
      StoreReplace(engine, separator, replaced, replaceArgs, source, text, replacement);
      var k := CacheKey([source, text, replacement], separator);
      replaced := replaced[k := r];
      replaceArgs := replaceArgs[k := [source, text, replacement]];
    }

    /** `memoizedRegexReplace`, with the same caching behaviour as `MemoizedRegexTest`. */
    method MemoizedRegexReplace(source: string, text: string, replacement: string) returns (r: Option<string>)
      requires Valid()
      modifies this
      ensures Valid()
      ensures CacheKey([source, text, replacement], separator) in old(replaced) ==>
        r == old(replaced)[CacheKey([source, text, replacement], separator)]
        && replaced == old(replaced) && replaceArgs == old(replaceArgs) && compiled == old(compiled)
      ensures CacheKey([source, text, replacement], separator) !in old(replaced) ==>
        r == RegexReplace(engine, source, text, replacement)
        && replaced == old(replaced)[CacheKey([source, text, replacement], separator) := r]
        && replaceArgs == old(replaceArgs)[CacheKey([source, text, replacement], separator) := [source, text, replacement]]
        && compiled == old(compiled)[source := CompileRegex(engine, source)]
      ensures tested == old(tested) && testArgs == old(testArgs)
      ensures old(SeparatorFree()) && AvoidsSeparator([source, text, replacement], separator) ==>
        SeparatorFree() && r == RegexReplace(engine, source, text, replacement)
    {
      var k := CacheKey([source, text, replacement], separator);
      if k in replaced {
        r := replaced[k];
        if SeparatorFree() && AvoidsSeparator([source, text, replacement], separator) {
          ReplaceHit(engine, separator, replaced, replaceArgs, source, text, replacement);
        }
      } else {
        var p := MemoizedCompileRegex(source);
        r := if p.None? then None else Some(ReplaceFirst(engine, p.value, text, replacement));
        assert r == RegexReplace(engine, source, text, replacement);
        RememberReplacement(source, text, replacement, r);
      }
    }
  }
}

/**
 * The regex matcher that the older module-identifier rule (`createRegexSourceMatcher`)
 * and restrict-non-named-import-name (`createRegexMatcher`) build once per `create()`:
 * a `Map` from source text to the compiled pattern or `null`, and a `Set` of the sources
 * already reported as invalid. Both rules then run the same `find` with its `test`.
 * The two closures differ only in spelling (`?? null` against `isNullish`).
 */
module RegexSourceMatching {
  import opened Wrappers
  import opened Foreign
  import opened Matchers
  import opened Selection
  import LibRegex

  /** The matcher's state together with the report sink it writes to. */
  datatype MatcherState = MatcherState(cache: map<string, Option<Pattern>>, reported: set<string>, diags: seq<Diagnostic>)

  datatype Step<T> = Step(state: MatcherState, value: T)

  function SinkOf(st: MatcherState): Sink {
    Sink(st.reported, st.diags)
  }

  /**
   * Every cached entry is what `new RegExp(source)` gives, the reported sources are exactly
   * the cached `null` entries, and each of them was reported exactly once.
   */
  ghost predicate Coherent(e: RegexEngine, st: MatcherState) {
    && (forall source :: source in st.cache ==> st.cache[source] == Compile(e, source))
    && (forall source :: source in st.reported <==> source in st.cache && st.cache[source].None?)
    && ReportedOnce(st.reported, st.diags)
  }

  /** `getOrCompileRegex`: compile on first use, then report a `null` entry once. */
  function GetOrCompile(e: RegexEngine, source: string, st: MatcherState): Step<Option<Pattern>> {
    var cache := if source in st.cache then st.cache else st.cache[source := Compile(e, source)];
    var regex := cache[source];
    if regex.None? && source !in st.reported then
      Step(MatcherState(cache, st.reported + {source}, st.diags + [InvalidRegexSource(source)]), regex)
    else
      Step(MatcherState(cache, st.reported, st.diags), regex)
  }

  /** `test`: `regex?.test(text) ?? false`. */
  function MatcherTest(e: RegexEngine, source: string, text: string, st: MatcherState): Step<bool> {
    var r := GetOrCompile(e, source, st);
    Step(r.state, r.value.Some? && Test(e, r.value.value, text))
  }

  /** `replace`: `null` for a `null` entry, else `text.replace(regex, replacement)`. */
  function MatcherReplace(e: RegexEngine, source: string, text: string, replacement: string, st: MatcherState): Step<Option<string>> {
    var r := GetOrCompile(e, source, st);
    Step(r.state, if r.value.None? then None else Some(ReplaceFirst(e, r.value.value, text, replacement)))
  }

  /**
   * The result is the compilation of the source. A source is compiled at most once: once
   * cached its entry never changes. The sink gains one `invalidRegexSource` report exactly
   * when the source does not compile and was not reported before, and coherence is kept.
   */
  lemma GetOrCompileSpec(e: RegexEngine, source: string, st: MatcherState)
    requires Coherent(e, st)
    ensures var r := GetOrCompile(e, source, st);
      && r.value == Compile(e, source)
      && Coherent(e, r.state)
      && r.state.cache == st.cache[source := Compile(e, source)]
      && (source in st.cache ==> r.state.cache == st.cache)
      && r.state.reported == st.reported + (if r.value.None? then {source} else {})
      && r.state.diags == st.diags + (if r.value.None? && source !in st.reported then [InvalidRegexSource(source)] else [])
  {
    var r := GetOrCompile(e, source, st);
    if r.value.None? && source !in st.reported {
      ReportedOnceNew(st.reported, st.diags, source);
    }
  }

  /** `test` is false for an uncompilable source and is the pattern's test otherwise. */
  lemma MatcherTestSpec(e: RegexEngine, source: string, text: string, st: MatcherState)
    requires Coherent(e, st)
    ensures MatcherTest(e, source, text, st).value <==> LibRegex.RegexTest(e, source, text) == Some(true)
    ensures MatcherTest(e, source, text, st).state == GetOrCompile(e, source, st).state
  {
    GetOrCompileSpec(e, source, st);
  }

  /** `replace` is `null` exactly for an uncompilable source and replaces the first match otherwise. */
  lemma MatcherReplaceSpec(e: RegexEngine, source: string, text: string, replacement: string, st: MatcherState)
    requires Coherent(e, st)
    ensures MatcherReplace(e, source, text, replacement, st).value == LibRegex.RegexReplace(e, source, text, replacement)
    ensures MatcherReplace(e, source, text, replacement, st).state == GetOrCompile(e, source, st).state
  {
    GetOrCompileSpec(e, source, st);
  }

  /** The `find` predicate: a matcher that does not apply is not tested. */
  function ProbeMatcher(e: RegexEngine, m: Matcher, kind: Kind, subject: string, st: MatcherState): Step<bool> {
    if !Applies(m.applicability, kind) then Step(st, false) else MatcherTest(e, m.regexSource, subject, st)
  }

  /** `find(matchers ?? [], ...)` from position `i`. */
  function SelectMatcher(e: RegexEngine, ms: seq<Matcher>, i: nat, kind: Kind, subject: string, st: MatcherState): (r: Step<Option<nat>>)
    requires i <= |ms|
    ensures r.value.Some? ==> i <= r.value.value < |ms|
    decreases |ms| - i
  {
    if i == |ms| then Step(st, None)
    else
      var p := ProbeMatcher(e, ms[i], kind, subject, st);
      if p.value then Step(p.state, Some(i)) else SelectMatcher(e, ms, i + 1, kind, subject, p.state)
  }

  /**
   * The cached selection selects the same matcher and reports the same as the uncached
   * `Selection.Select` over the same reported set, and keeps the state coherent; so every
   * property proved of `Select` holds for both rules that use this matcher.
   */
  lemma {:induction false} SelectMatcherAgrees(e: RegexEngine, ms: seq<Matcher>, i: nat, kind: Kind, subject: string, st: MatcherState)
    requires i <= |ms| && Coherent(e, st)
    ensures var r := SelectMatcher(e, ms, i, kind, subject, st);
      && Coherent(e, r.state)
      && Selected(r.value, SinkOf(r.state)) == Select(e, ms, i, kind, subject, SinkOf(st))
    decreases |ms| - i
  {
    if i < |ms| {
      var m := ms[i];
      var p := ProbeMatcher(e, m, kind, subject, st);
      var q := Probe(e, m, kind, subject, SinkOf(st));
      if Applies(m.applicability, kind) {
        GetOrCompileSpec(e, m.regexSource, st);
        MatcherTestSpec(e, m.regexSource, subject, st);
        assert p.value == q.hit && SinkOf(p.state) == q.sink;
      }
      if !p.value {
        SelectMatcherAgrees(e, ms, i + 1, kind, subject, p.state);
      }
    }
  }

  /** The matcher object of one `create()` call, writing to that call's report sink. */
  class RegexSourceMatcher {
    const engine: RegexEngine
    var cache: map<string, Option<Pattern>>
    var reported: set<string>
    var diags: seq<Diagnostic>

    function State(): MatcherState
      reads this
    {
      MatcherState(cache, reported, diags)
    }

    ghost predicate Valid()
      reads this
    {
      Coherent(engine, State())
    }

    constructor (engine: RegexEngine)
      ensures Valid() && this.engine == engine
      ensures State() == MatcherState(map[], {}, [])
    {
      this.engine := engine;
      cache := map[];
      reported := {};
      diags := [];
      ReportedOnceEmpty();
    }

    /** `getOrCompileRegex`. */
    method GetOrCompileRegex(source: string) returns (regex: Option<Pattern>)
      requires Valid()
      modifies this
      ensures Valid()
      ensures regex == Compile(engine, source)
      ensures Step(State(), regex) == GetOrCompile(engine, source, old(State()))
    {
      GetOrCompileSpec(engine, source, State());
      if source !in cache {
        cache := cache[source := Compile(engine, source)];
      }
      regex := cache[source];
      if regex.None? && source !in reported {
        diags := diags + [InvalidRegexSource(source)];
        reported := reported + {source};
      }
    }

    /** `test`. */
    method Test(source: string, text: string) returns (isMatched: bool)
      requires Valid()
      modifies this
      ensures Valid()
      ensures isMatched <==> LibRegex.RegexTest(engine, source, text) == Some(true)
      ensures Step(State(), isMatched) == MatcherTest(engine, source, text, old(State()))
    {
      MatcherTestSpec(engine, source, text, State());
      var regex := GetOrCompileRegex(source);
      isMatched := regex.Some? && Foreign.Test(engine, regex.value, text);
    }

    /** `replace`. */
    method Replace(source: string, text: string, replacement: string) returns (replaced: Option<string>)
      requires Valid()
      modifies this
      ensures Valid()
      ensures replaced == LibRegex.RegexReplace(engine, source, text, replacement)
      ensures Step(State(), replaced) == MatcherReplace(engine, source, text, replacement, old(State()))
    {
      MatcherReplaceSpec(engine, source, text, replacement, State());
      var regex := GetOrCompileRegex(source);
      replaced := if regex.None? then None else Some(ReplaceFirst(engine, regex.value, text, replacement));
    }

    /** `context.report` for a diagnostic that is not about a regex source. */
    method Report(d: Diagnostic)
      requires Valid() && !d.InvalidRegexSource?
      modifies this
      ensures Valid()
      ensures State() == old(State()).(diags := old(diags) + [d])
    {
      ReportedOnceOther(reported, diags, d);
      diags := diags + [d];
    }

    /** The `find` both rules run, with its predicate written out as a loop. */
    method FindMatcher(ms: seq<Matcher>, kind: Kind, subject: string) returns (matched: Option<nat>)
      requires Valid()
      modifies this
      ensures Valid()
      ensures Step(State(), matched) == SelectMatcher(engine, ms, 0, kind, subject, old(State()))
    {
      var i := 0;
      matched := None;
      while i < |ms| && matched.None?
        invariant i <= |ms| && Valid()
        invariant matched.None? ==> SelectMatcher(engine, ms, 0, kind, subject, old(State()))
                                    == SelectMatcher(engine, ms, i, kind, subject, State())
        invariant matched.Some? ==> SelectMatcher(engine, ms, 0, kind, subject, old(State()))
                                    == Step(State(), matched)
        decreases |ms| - i
      {
        var matcher := ms[i];
        if Applies(matcher.applicability, kind) {
          var isMatched := Test(matcher.regexSource, subject);
          if isMatched {
            matched := Some(i);
          }
        }
        i := i + 1;
      }
    }
  }
}

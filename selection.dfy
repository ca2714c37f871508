/**
 * Matcher selection, the `find` over `ruleOptions.matchers ?? []` that every naming rule
 * runs: the first matcher that applies to the binding kind and whose regex tests true on
 * the subject is selected. Testing a matcher whose source does not compile counts as a
 * non-match and reports `invalidRegexSource` unless that source was reported before.
 *
 * This is the selection of the newest module-identifier rule, which tests through
 * `memoizedRegexTest`; `RegexSourceMatching` proves that the cached selection of the other
 * two rules reports and selects exactly the same.
 */
module Selection {
  import opened Wrappers
  import opened Foreign
  import opened Matchers
  import LibRegex

  /** What a rule keeps across checks: the sources already reported, and the report sink. */
  datatype Sink = Sink(reported: set<string>, diags: seq<Diagnostic>)

  datatype Probed = Probed(hit: bool, sink: Sink)

  datatype Selected = Selected(index: Option<nat>, sink: Sink)

  /** The matcher that selection is looking for: it applies and its regex tests true. */
  predicate Selects(e: RegexEngine, m: Matcher, kind: Kind, subject: string) {
    Applies(m.applicability, kind) && LibRegex.RegexTest(e, m.regexSource, subject) == Some(true)
  }

  /** Report `invalidRegexSource` for `source` unless it was reported before. */
  function ReportInvalid(s: Sink, source: string): Sink {
    if source in s.reported then s
    else Sink(s.reported + {source}, s.diags + [InvalidRegexSource(source)])
  }

  /** Append a diagnostic that is not about a regex source. */
  function Report(s: Sink, d: Diagnostic): Sink {
    Sink(s.reported, s.diags + [d])
  }

  /** The `find` predicate applied to one matcher. */
  function Probe(e: RegexEngine, m: Matcher, kind: Kind, subject: string, s: Sink): Probed {
    if !Applies(m.applicability, kind) then Probed(false, s)
    else match LibRegex.RegexTest(e, m.regexSource, subject)
      case None => Probed(false, ReportInvalid(s, m.regexSource))
      case Some(isMatched) => Probed(isMatched, s)
  }

  /** `find` from position `i`: probe each matcher in order and stop at the first hit. */
  function Select(e: RegexEngine, ms: seq<Matcher>, i: nat, kind: Kind, subject: string, s: Sink): (r: Selected)
    requires i <= |ms|
    ensures r.index.Some? ==> i <= r.index.value < |ms|
    decreases |ms| - i
  {
    if i == |ms| then Selected(None, s)
    else
      var p := Probe(e, ms[i], kind, subject, s);
      if p.hit then Selected(Some(i), p.sink) else Select(e, ms, i + 1, kind, subject, p.sink)
  }

  /**
   * The sink is an exact record: each reported source has exactly one report, no other
   * source has any, and only sources that do not compile are reported.
   */
  ghost predicate SinkValid(e: RegexEngine, s: Sink) {
    ReportedOnce(s.reported, s.diags)
    && forall source :: source in s.reported ==> !e.compiles(Regex(source, []))
  }

  /** The sources of the applicable, uncompilable matchers among `ms[lo..hi]`. */
  function InvalidSources(e: RegexEngine, ms: seq<Matcher>, lo: nat, hi: nat, kind: Kind): set<string>
    requires lo <= hi <= |ms|
  {
    set k | lo <= k < hi && Applies(ms[k].applicability, kind) && !e.compiles(Regex(ms[k].regexSource, []))
      :: ms[k].regexSource
  }

  /** Where selection stopped: one past the selected matcher, or the end of the list. */
  function Stop(sel: Selected, ms: seq<Matcher>): nat {
    if sel.index.Some? then sel.index.value + 1 else |ms|
  }

  /**
   * First match wins: the selected index is the earliest matcher at or after `i` that
   * `Selects`, and nothing is selected exactly when no matcher there `Selects`.
   */
  lemma {:induction false} SelectFirstMatch(e: RegexEngine, ms: seq<Matcher>, i: nat, kind: Kind, subject: string, s: Sink)
    requires i <= |ms|
    ensures var sel := Select(e, ms, i, kind, subject, s);
      (sel.index.Some? ==>
         i <= sel.index.value < |ms| && Selects(e, ms[sel.index.value], kind, subject)
         && forall j :: i <= j < sel.index.value ==> !Selects(e, ms[j], kind, subject))
      && (sel.index.None? <==> forall j :: i <= j < |ms| ==> !Selects(e, ms[j], kind, subject))
    decreases |ms| - i
  {
    if i < |ms| {
      var p := Probe(e, ms[i], kind, subject, s);
      assert p.hit <==> Selects(e, ms[i], kind, subject);
      if !p.hit {
        SelectFirstMatch(e, ms, i + 1, kind, subject, p.sink);
      }
    }
  }

  /** The earliest matcher that `Selects` is the one selected. */
  lemma SelectIsFirstMatch(e: RegexEngine, ms: seq<Matcher>, i: nat, kind: Kind, subject: string, s: Sink, j: nat)
    requires i <= j < |ms| && Selects(e, ms[j], kind, subject)
    requires forall k :: i <= k < j ==> !Selects(e, ms[k], kind, subject)
    ensures Select(e, ms, i, kind, subject, s).index == Some(j)
  {
    SelectFirstMatch(e, ms, i, kind, subject, s);
  }

  /**
   * Matchers after the selected one are never probed: replacing them changes neither the
   * result nor what was reported.
   */
  lemma {:induction false} SelectIgnoresLaterMatchers(e: RegexEngine, ms: seq<Matcher>, ms': seq<Matcher>, i: nat,
                                                      kind: Kind, subject: string, s: Sink)
    requires i <= |ms|
    requires Select(e, ms, i, kind, subject, s).index.Some?
    requires var k := Select(e, ms, i, kind, subject, s).index.value;
      k < |ms| && k < |ms'| && ms'[..k + 1] == ms[..k + 1]
    ensures i <= |ms'| && Select(e, ms', i, kind, subject, s) == Select(e, ms, i, kind, subject, s)
    decreases |ms| - i
  {
    var k := Select(e, ms, i, kind, subject, s).index.value;
    SelectFirstMatch(e, ms, i, kind, subject, s);
    assert ms'[i] == ms'[..k + 1][i] == ms[..k + 1][i] == ms[i];
    var p := Probe(e, ms[i], kind, subject, s);
    if !p.hit {
      SelectIgnoresLaterMatchers(e, ms, ms', i + 1, kind, subject, p.sink);
    }
  }

  lemma ReportInvalidKeepsSinkValid(e: RegexEngine, s: Sink, source: string)
    requires SinkValid(e, s) && !e.compiles(Regex(source, []))
    ensures SinkValid(e, ReportInvalid(s, source))
  {
    if source !in s.reported {
      ReportedOnceNew(s.reported, s.diags, source);
    }
  }

  lemma ReportKeepsSinkValid(e: RegexEngine, s: Sink, d: Diagnostic)
    requires SinkValid(e, s) && !d.InvalidRegexSource?
    ensures SinkValid(e, Report(s, d))
  {
    ReportedOnceOther(s.reported, s.diags, d);
  }

  /** The sink stays an exact record through selection. */
  lemma {:induction false} SelectKeepsSinkValid(e: RegexEngine, ms: seq<Matcher>, i: nat, kind: Kind, subject: string, s: Sink)
    requires i <= |ms| && SinkValid(e, s)
    ensures SinkValid(e, Select(e, ms, i, kind, subject, s).sink)
    decreases |ms| - i
  {
    if i < |ms| {
      var p := Probe(e, ms[i], kind, subject, s);
      if Applies(ms[i].applicability, kind) && !e.compiles(Regex(ms[i].regexSource, [])) {
        ReportInvalidKeepsSinkValid(e, s, ms[i].regexSource);
      }
      if !p.hit {
        SelectKeepsSinkValid(e, ms, i + 1, kind, subject, p.sink);
      }
    }
  }

  /** Selection only appends to the sink, and only `invalidRegexSource` reports. */
  lemma {:induction false} SelectAppendsOnlyInvalidReports(e: RegexEngine, ms: seq<Matcher>, i: nat, kind: Kind, subject: string, s: Sink)
    requires i <= |ms|
    ensures var out := Select(e, ms, i, kind, subject, s).sink.diags;
      |s.diags| <= |out| && out[..|s.diags|] == s.diags
      && forall k :: |s.diags| <= k < |out| ==> out[k].InvalidRegexSource?
    decreases |ms| - i
  {
    if i < |ms| {
      var p := Probe(e, ms[i], kind, subject, s);
      if !p.hit {
        SelectAppendsOnlyInvalidReports(e, ms, i + 1, kind, subject, p.sink);
        var out := Select(e, ms, i + 1, kind, subject, p.sink).sink.diags;
        assert out[..|p.sink.diags|][..|s.diags|] == out[..|s.diags|];
      }
    }
  }

  /**
   * The reported set gains exactly the invalid sources of the applicable matchers that
   * selection probed. With `SinkValid` this is report-once: a source is reported the first
   * time an applicable matcher carrying it is probed, and never again.
   */
  lemma {:induction false} SelectReports(e: RegexEngine, ms: seq<Matcher>, i: nat, kind: Kind, subject: string, s: Sink)
    requires i <= |ms|
    ensures var sel := Select(e, ms, i, kind, subject, s);
      i <= Stop(sel, ms) <= |ms|
      && sel.sink.reported == s.reported + InvalidSources(e, ms, i, Stop(sel, ms), kind)
    decreases |ms| - i
  {
    var sel := Select(e, ms, i, kind, subject, s);
    if i == |ms| {
      assert InvalidSources(e, ms, i, i, kind) == {};
    } else {
      var p := Probe(e, ms[i], kind, subject, s);
      var invalidHere := Applies(ms[i].applicability, kind) && !e.compiles(Regex(ms[i].regexSource, []));
      assert p.sink.reported == s.reported + (if invalidHere then {ms[i].regexSource} else {});
      if p.hit {
        assert InvalidSources(e, ms, i, i + 1, kind) == {};
      } else {
        SelectReports(e, ms, i + 1, kind, subject, p.sink);
        var stop := Stop(sel, ms);
        assert InvalidSources(e, ms, i, stop, kind)
            == (if invalidHere then {ms[i].regexSource} else {}) + InvalidSources(e, ms, i + 1, stop, kind);
      }
    }
  }
}

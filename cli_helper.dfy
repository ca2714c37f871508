/**
 * `analyzeVerifyFiles` (node/utils/cli-helper.ts; the same logic in utils/cli-helper.ts,
 * whose option is spelled `ignoreUnknown`): sorts the files named on a verifier's
 * command line into the files it knows and the ones it does not, and decides whether
 * the verification runs. `toRelativePosixPath` is a parameter, and the error print
 * followed by `process.exit(1)` is an outcome.
 */
module CliHelper {
  import opened Wrappers
  import opened Collections

  const UnknownFilesTitle: string := "检测到未知文件"
  const IgnoreUnknownHint: string := "如需自动忽略未知文件，请使用 --ignore-unknown 选项"

  datatype Outcome =
    /** The error message printed before the process exits with `status`. */
    | Exit(status: int, title: string, description: seq<string>)
    | Analysis(relatedFiles: seq<string>, unknownFiles: seq<string>, shouldRunVerification: bool)

  /** remeda's `partition`: the elements satisfying `p` and the others, each in input order. */
  function Partition<T>(xs: seq<T>, p: T -> bool): (r: (seq<T>, seq<T>))
    ensures multiset(r.0) + multiset(r.1) == multiset(xs)
  {
    if xs == [] then ([], []) else
      var init := xs[..|xs| - 1];
      var last := xs[|xs| - 1];
      var rest := Partition(init, p);
      assert xs == init + [last];
      if p(last) then (rest.0 + [last], rest.1) else (rest.0, rest.1 + [last])
  }

  /** The two halves are the filters by `p` and by its negation `q`. */
  lemma {:induction false} PartitionIsFilters<T>(xs: seq<T>, p: T -> bool, q: T -> bool)
    requires forall x :: q(x) == !p(x)
    ensures Partition(xs, p).0 == Filter(xs, p)
    ensures Partition(xs, p).1 == Filter(xs, q)
  {
    if xs != [] {
      PartitionIsFilters(xs[..|xs| - 1], p, q);
    }
  }

  /** `isIncludedIn(file, files)` as a predicate on files. */
  function IncludedIn(files: seq<string>): string -> bool {
    (f: string) => f in files
  }

  function NotIncludedIn(files: seq<string>): string -> bool {
    (f: string) => f !in files
  }

  function Bullet(file: string): string {
    "  - " + file
  }

  /** The description printed for unknown files. */
  function UnknownFilesDescription(unknownErrorTitle: string, unknownFiles: seq<string>): (r: seq<string>)
    ensures |r| == |unknownFiles| + 4
    ensures r[0] == unknownErrorTitle && r[|r| - 1] == IgnoreUnknownHint
    ensures r[1] == "" && r[|r| - 2] == ""
    ensures forall i :: 0 <= i < |unknownFiles| ==> r[i + 2] == Bullet(unknownFiles[i])
  {
    [unknownErrorTitle, ""] + seq(|unknownFiles|, i requires 0 <= i < |unknownFiles| => Bullet(unknownFiles[i])) + ["", IgnoreUnknownHint]
  }

  /** `analyzeVerifyFiles`. */
  function AnalyzeVerifyFiles(
    toRelativePosixPath: string -> string,
    files: Option<seq<string>>,
    allRelatedFiles: seq<string>,
    shouldIgnoreUnknown: Option<bool>,
    unknownErrorTitle: string): Outcome
  {
    var parts := Partition(Normalized(toRelativePosixPath, files), IncludedIn(allRelatedFiles));
    if parts.1 != [] && shouldIgnoreUnknown != Some(true) then
      Exit(1, UnknownFilesTitle, UnknownFilesDescription(unknownErrorTitle, parts.1))
    else
      Analysis(parts.0, parts.1, files.None? || parts.0 != [])
  }

  /** The command-line files after `toRelativePosixPath`, none when `files` is undefined. */
  function Normalized(toRelativePosixPath: string -> string, files: Option<seq<string>>): seq<string> {
    seq(|files.GetOr([])|, i requires 0 <= i < |files.GetOr([])| => toRelativePosixPath(files.GetOr([])[i]))
  }

  /**
   * Each normalized file lands in exactly one list, the related ones being those in
   * `allRelatedFiles`, order kept within each; unknown files exit with status 1 unless
   * ignored; otherwise verification runs exactly when `files` is undefined or some file
   * is related.
   */
  lemma AnalyzeVerifyFilesSpec(
    toRelativePosixPath: string -> string,
    files: Option<seq<string>>,
    allRelatedFiles: seq<string>,
    shouldIgnoreUnknown: Option<bool>,
    unknownErrorTitle: string)
    ensures var normalized := Normalized(toRelativePosixPath, files);
      var unknown := Filter(normalized, NotIncludedIn(allRelatedFiles));
      var r := AnalyzeVerifyFiles(toRelativePosixPath, files, allRelatedFiles, shouldIgnoreUnknown, unknownErrorTitle);
      && (r.Exit? <==> unknown != [] && shouldIgnoreUnknown != Some(true))
      && (r.Exit? ==> r.status == 1 && r.title == UnknownFilesTitle
                       && r.description == UnknownFilesDescription(unknownErrorTitle, unknown))
      && (r.Analysis? ==>
            && r.relatedFiles == Filter(normalized, IncludedIn(allRelatedFiles))
            && r.unknownFiles == unknown
            && multiset(r.relatedFiles) + multiset(r.unknownFiles) == multiset(normalized)
            && (forall f :: f in r.relatedFiles ==> f in allRelatedFiles)
            && (forall f :: f in r.unknownFiles ==> f !in allRelatedFiles)
            && (r.shouldRunVerification <==> files.None? || r.relatedFiles != []))
  {
    var normalized := Normalized(toRelativePosixPath, files);
    var p := IncludedIn(allRelatedFiles);
    PartitionIsFilters(normalized, p, NotIncludedIn(allRelatedFiles));
    var parts := Partition(normalized, p);
    assert forall i :: 0 <= i < |parts.0| ==> p(parts.0[i]);
    assert forall i :: 0 <= i < |parts.1| ==> !p(parts.1[i]);
  }

  /** With `files` undefined nothing is sorted and verification runs. */
  lemma NoFilesRunsVerification(
    toRelativePosixPath: string -> string,
    allRelatedFiles: seq<string>,
    shouldIgnoreUnknown: Option<bool>,
    unknownErrorTitle: string)
    ensures AnalyzeVerifyFiles(toRelativePosixPath, None, allRelatedFiles, shouldIgnoreUnknown, unknownErrorTitle)
      == Analysis([], [], true)
  {
  }
}

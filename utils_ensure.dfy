/**
 * utils/ensure.ts: checks that configured script names and dependency names exist in the
 * local package.json (read once at module load; here a parameter).
 *
 * Both checks compute remeda's `difference(given, local)`, which treats its arguments as
 * multisets: each local name cancels one occurrence only, so a name given twice needs two
 * local copies. `EnsureScriptsInPackage` and `EnsureDependenciesInPackage` model the code
 * as written; `ScriptsChecked` and `DependenciesChecked` are the membership checks the
 * error message describes, and are what the rest of the model relies on.
 */
module UtilsEnsure {
  import opened Wrappers
  import opened Foreign
  import opened Collections
  import NodeEnsure

  /** The thrown `Error`: the given list and the entries found missing. */
  datatype MissingEntries = MissingEntries(given: seq<string>, missing: seq<string>)

  /** `keys(localPackage.scripts ?? {})`. */
  function ScriptNames(packageJson: Obj<Value>): seq<string> {
    match Lookup(packageJson, "scripts")
    case None => []
    case Some(v) => NodeEnsure.ObjectKeys(v)
  }

  /** The entries of `xs` that `present` lacks, in order, each occurrence by membership. */
  function Missing(xs: seq<string>, present: seq<string>): (r: seq<string>)
    ensures forall x :: x in r <==> x in xs && x !in present
    decreases |xs|
  {
    if xs == [] then []
    else (if xs[0] in present then [] else [xs[0]]) + Missing(xs[1..], present)
  }

  /** `difference` then `isEmptyish`: the given list back, or an error naming the rest. */
  function Checked(given: seq<string>, unused: seq<string>): Result<seq<string>, MissingEntries> {
    if unused == [] then Success(given) else Failure(MissingEntries(given, unused))
  }

  /** `ensureScriptsInPackage`, as written. */
  function EnsureScriptsInPackage(packageJson: Obj<Value>, scripts: seq<string>): Result<seq<string>, MissingEntries> {
    Checked(scripts, MultisetDifference(scripts, multiset(ScriptNames(packageJson))))
  }

  /** `ensureDependenciesInPackage`, as written. */
  function EnsureDependenciesInPackage(c: Casing, packageJson: Obj<Value>, dependencies: seq<string>): Result<seq<string>, MissingEntries> {
    Checked(dependencies, MultisetDifference(dependencies, multiset(NodeEnsure.DependencyNames(c, packageJson))))
  }

  /** `ensureScriptsInPackage` with membership in place of multiset difference. */
  function ScriptsChecked(packageJson: Obj<Value>, scripts: seq<string>): Result<seq<string>, MissingEntries> {
    Checked(scripts, Missing(scripts, ScriptNames(packageJson)))
  }

  /** `ensureDependenciesInPackage` with membership in place of multiset difference. */
  function DependenciesChecked(c: Casing, packageJson: Obj<Value>, dependencies: seq<string>): Result<seq<string>, MissingEntries> {
    Checked(dependencies, Missing(dependencies, NodeEnsure.DependencyNames(c, packageJson)))
  }

  /**
   * The corrected checks return the given list unchanged exactly when every entry is
   * present, and otherwise throw naming exactly the absent entries.
   */
  lemma CheckedSpec(packageJson: Obj<Value>, c: Casing, given: seq<string>)
    ensures var scripts := ScriptsChecked(packageJson, given);
      && (scripts.Success? <==> forall x :: x in given ==> x in ScriptNames(packageJson))
      && (scripts.Success? ==> scripts.value == given)
      && (scripts.Failure? ==>
            (scripts.error.given == given
             && forall x :: x in scripts.error.missing <==> x in given && x !in ScriptNames(packageJson)))
    ensures var deps := DependenciesChecked(c, packageJson, given);
      && (deps.Success? <==> forall x :: x in given ==> x in NodeEnsure.DependencyNames(c, packageJson))
      && (deps.Success? ==> deps.value == given)
      && (deps.Failure? ==>
            (deps.error.given == given
             && forall x :: x in deps.error.missing <==> x in given && x !in NodeEnsure.DependencyNames(c, packageJson)))
  {
    var s := Missing(given, ScriptNames(packageJson));
    if s != [] {
      assert s[0] in s;
    }
    var d := Missing(given, NodeEnsure.DependencyNames(c, packageJson));
    if d != [] {
      assert d[0] in d;
    }
  }

  /** An empty multiset difference means every entry occurs in the other collection. */
  lemma {:induction false} EmptyDifferenceMeansPresent(xs: seq<string>, other: multiset<string>)
    requires MultisetDifference(xs, other) == []
    ensures forall x :: x in xs ==> x in other
    decreases |xs|
  {
    if xs != [] {
      if xs[0] in other {
        EmptyDifferenceMeansPresent(xs[1..], other - multiset{xs[0]});
      }
      assert xs == [xs[0]] + xs[1..];
    }
  }

  /**
   * The checks as written never accept what the corrected ones reject: acceptance by
   * `difference` implies every entry is present.
   */
  lemma AsWrittenIsStricter(packageJson: Obj<Value>, c: Casing, given: seq<string>)
    ensures EnsureScriptsInPackage(packageJson, given).Success? ==> ScriptsChecked(packageJson, given).Success?
    ensures EnsureDependenciesInPackage(c, packageJson, given).Success? ==> DependenciesChecked(c, packageJson, given).Success?
  {
    CheckedSpec(packageJson, c, given);
    if EnsureScriptsInPackage(packageJson, given).Success? {
      EmptyDifferenceMeansPresent(given, multiset(ScriptNames(packageJson)));
    }
    if EnsureDependenciesInPackage(c, packageJson, given).Success? {
      EmptyDifferenceMeansPresent(given, multiset(NodeEnsure.DependencyNames(c, packageJson)));
    }
  }

  /**
   * The discrepancy: with one script `a` defined, `ensureScriptsInPackage(['a', 'a'])`
   * throws and names `a` as missing, although every entry is a script.
   */
  lemma DuplicateScriptIsRejected()
    ensures var packageJson := [Entry("scripts", ObjVal([Entry("a", Str("x"))]))];
      && ScriptsChecked(packageJson, ["a", "a"]) == Success(["a", "a"])
      && EnsureScriptsInPackage(packageJson, ["a", "a"]) == Failure(MissingEntries(["a", "a"], ["a"]))
  {
    var packageJson := [Entry("scripts", ObjVal([Entry("a", Str("x"))]))];
    assert ScriptNames(packageJson) == ["a"];
    assert multiset(["a"]) - multiset{"a"} == multiset{};
    assert MultisetDifference(["a"], multiset{}) == ["a"];
    assert ["a", "a"][1..] == ["a"];
  }
}

/**
 * node/utils/ensure.ts: checks that configured module paths name packages listed in
 * package.json. Its `parsePackageName` is the same grammar as node/utils/package.ts and is
 * `Packages.ParsePackageName` here. The package.json read (`memoizedReadPackageJson`) becomes
 * a parameter.
 */
module NodeEnsure {
  import opened Wrappers
  import opened Strings
  import opened Foreign
  import opened Collections
  import Packages

  /** `keys()` of a field value: the property names of an object, none for anything else. */
  function ObjectKeys(v: Value): seq<string> {
    match v
    case ObjVal(fields) => Keys(fields)
    case _ => []
  }

  /** `toLowerCase(key).endsWith('dependencies')`. */
  predicate IsDependencyField(c: Casing, key: string) {
    EndsWith(c.toLowerCase(key), "dependencies")
  }

  /** `pickBy(...)`, `values()`, `flatMap(keys())` over package.json's fields, in order. */
  function DependencyNames(c: Casing, packageJson: Obj<Value>): seq<string>
    decreases |packageJson|
  {
    if packageJson == [] then []
    else (if IsDependencyField(c, packageJson[0].key) then ObjectKeys(packageJson[0].value) else [])
         + DependencyNames(c, packageJson[1..])
  }

  /**
   * A name is a dependency exactly when some field whose lower-cased name ends with
   * `dependencies` has it as a key.
   */
  lemma {:induction false} DependencyNamesSpec(c: Casing, packageJson: Obj<Value>, d: string)
    ensures d in DependencyNames(c, packageJson)
        <==> exists i :: 0 <= i < |packageJson| && IsDependencyField(c, packageJson[i].key)
                         && d in ObjectKeys(packageJson[i].value)
    decreases |packageJson|
  {
    if packageJson != [] {
      var tail := packageJson[1..];
      DependencyNamesSpec(c, tail, d);
      if d in DependencyNames(c, tail) {
        var i :| 0 <= i < |tail| && IsDependencyField(c, tail[i].key) && d in ObjectKeys(tail[i].value);
        assert packageJson[i + 1] == tail[i];
      }
      if exists i :: 0 <= i < |packageJson| && IsDependencyField(c, packageJson[i].key)
                     && d in ObjectKeys(packageJson[i].value) {
        var i :| 0 <= i < |packageJson| && IsDependencyField(c, packageJson[i].key)
                 && d in ObjectKeys(packageJson[i].value);
        if i > 0 {
          assert tail[i - 1] == packageJson[i];
        }
      }
    }
  }

  /** The two errors `ensureModulePathInPackage` throws. */
  datatype EnsureError =
    | InvalidModulePath(error: Packages.ParseError)
    | MissingDependency(packageName: string, modulePath: string)

  /** `ensureModulePathInPackage`: the path itself when its package is a dependency. */
  function EnsureModulePathInPackage(c: Casing, packageJson: Obj<Value>, modulePath: string): (r: Result<string, EnsureError>)
    ensures r.Success? ==> r.value == modulePath
  {
    match Packages.ParsePackageName(modulePath)
    case Failure(e) => Failure(InvalidModulePath(e))
    case Success(parsed) =>
      if parsed.packageName in DependencyNames(c, packageJson) then Success(modulePath)
      else Failure(MissingDependency(parsed.packageName, modulePath))
  }

  /**
   * The path is accepted exactly when it parses and its package name is a key of some
   * dependency field; otherwise the error says which of the two failed.
   */
  lemma EnsureModulePathInPackageSpec(c: Casing, packageJson: Obj<Value>, modulePath: string)
    ensures var r := EnsureModulePathInPackage(c, packageJson, modulePath);
      var parsed := Packages.ParsePackageName(modulePath);
      && (r.Success? <==>
            (parsed.Success?
             && exists i :: 0 <= i < |packageJson| && IsDependencyField(c, packageJson[i].key)
                            && parsed.value.packageName in ObjectKeys(packageJson[i].value)))
      && (parsed.Failure? ==> r == Failure(InvalidModulePath(Packages.InvalidPackagePath(modulePath))))
      && (parsed.Success? && r.Failure? ==> r == Failure(MissingDependency(parsed.value.packageName, modulePath)))
  {
    if Packages.ParsePackageName(modulePath).Success? {
      DependencyNamesSpec(c, packageJson, Packages.ParsePackageName(modulePath).value.packageName);
    }
  }

  /**
   * The subpath is ignored: for a valid package name, `pkg/sub` is accepted exactly when
   * `pkg` is.
   */
  lemma SubpathIsIgnored(c: Casing, packageJson: Obj<Value>, scope: string, name: string, subpath: string)
    requires Packages.IsScope(scope) && Packages.IsName(name) && Packages.NoLineTerminator(subpath)
    ensures EnsureModulePathInPackage(c, packageJson, scope + name + "/" + subpath).Success?
        <==> EnsureModulePathInPackage(c, packageJson, scope + name).Success?
  {
    Packages.ParsePackageNameRoundTrip(scope, name, subpath);
  }

  /**
   * `ensureModulePathsInPackage`: `Promise.all` over the paths. The checks all wait on
   * the same package.json read and run in order, so the rejection is the first failing
   * path's.
   */
  function EnsureModulePathsInPackage(c: Casing, packageJson: Obj<Value>, modulePaths: seq<string>): Result<seq<string>, EnsureError>
    decreases |modulePaths|
  {
    if modulePaths == [] then Success([])
    else
      match EnsureModulePathInPackage(c, packageJson, modulePaths[0])
      case Failure(e) => Failure(e)
      case Success(m) =>
        match EnsureModulePathsInPackage(c, packageJson, modulePaths[1..])
        case Failure(e) => Failure(e)
        case Success(ms) => Success([m] + ms)
  }

  /** All paths are accepted exactly when each one is, and then the input comes back unchanged. */
  lemma {:induction false} EnsureModulePathsAccepted(c: Casing, packageJson: Obj<Value>, modulePaths: seq<string>)
    ensures var r := EnsureModulePathsInPackage(c, packageJson, modulePaths);
      && (r.Success? <==> forall i :: 0 <= i < |modulePaths| ==> EnsureModulePathInPackage(c, packageJson, modulePaths[i]).Success?)
      && (r.Success? ==> r.value == modulePaths)
    decreases |modulePaths|
  {
    if modulePaths != [] {
      var tail := modulePaths[1..];
      EnsureModulePathsAccepted(c, packageJson, tail);
      assert [modulePaths[0]] + tail == modulePaths;
      forall i | 0 < i < |modulePaths| ensures modulePaths[i] == tail[i - 1] {
      }
    }
  }

  /** A rejection carries the error of the first path that fails, every earlier one being accepted. */
  lemma {:induction false} EnsureModulePathsFirstFailure(c: Casing, packageJson: Obj<Value>, modulePaths: seq<string>)
    ensures var r := EnsureModulePathsInPackage(c, packageJson, modulePaths);
      r.Failure? ==>
        (exists k :: 0 <= k < |modulePaths|
           && EnsureModulePathInPackage(c, packageJson, modulePaths[k]) == Failure(r.error)
           && forall i :: 0 <= i < k ==> EnsureModulePathInPackage(c, packageJson, modulePaths[i]).Success?)
    decreases |modulePaths|
  {
    if modulePaths != [] {
      var tail := modulePaths[1..];
      var first := EnsureModulePathInPackage(c, packageJson, modulePaths[0]);
      var rest := EnsureModulePathsInPackage(c, packageJson, tail);
      if first.Success? && rest.Failure? {
        EnsureModulePathsFirstFailure(c, packageJson, tail);
        var k :| 0 <= k < |tail| && EnsureModulePathInPackage(c, packageJson, tail[k]) == Failure(rest.error)
                 && forall i :: 0 <= i < k ==> EnsureModulePathInPackage(c, packageJson, tail[i]).Success?;
        assert modulePaths[k + 1] == tail[k];
        forall i | 0 < i < k + 1 ensures EnsureModulePathInPackage(c, packageJson, modulePaths[i]).Success? {
          assert modulePaths[i] == tail[i - 1];
        }
      }
    }
  }
}

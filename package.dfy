/**
 * node/utils/package.ts: `parsePackageName`, the npm module-path grammar
 * `^(@NAME/)?NAME(/SUBPATH)?$` with NAME = `[-0-9a-z~][-.0-9_a-z~]*` and SUBPATH any text
 * without a line terminator (`.` of a `v`-flag regex), and `isNpmPackage`.
 *
 * The regex is written out as a scanner. It backtracks nowhere: a name cannot contain `/`,
 * so the scope ends at the first `/`, and a name followed by anything but `/` or the end
 * leaves no shorter name that would be.
 */
module Packages {
  import opened Wrappers
  import opened Strings

  predicate IsNameStart(ch: char) { ch == '-' || IsAsciiDigit(ch) || IsAsciiLower(ch) || ch == '~' }
  predicate IsNameChar(ch: char) { IsNameStart(ch) || ch == '.' || ch == '_' }

  /** A package name or scope name: `[-0-9a-z~][-.0-9_a-z~]*`. */
  predicate IsName(s: string) {
    |s| > 0 && IsNameStart(s[0]) && forall i :: 0 <= i < |s| ==> IsNameChar(s[i])
  }

  /** The optional scope group: empty, or `@`, a name and `/`. */
  predicate IsScope(s: string) {
    s == [] || (|s| >= 3 && s[0] == '@' && s[|s| - 1] == '/' && IsName(s[1..|s| - 1]))
  }

  predicate NoLineTerminator(s: string) {
    forall i :: 0 <= i < |s| ==> !IsLineTerminator(s[i])
  }

  /** The length of the longest prefix of name characters. */
  function NameLength(s: string): (n: nat)
    ensures n <= |s| && (forall i :: 0 <= i < n ==> IsNameChar(s[i])) && (n < |s| ==> !IsNameChar(s[n]))
  {
    if s != [] && IsNameChar(s[0]) then 1 + NameLength(s[1..]) else 0
  }

  /** The longest name at the front of `s` and what follows it. */
  function ReadName(s: string): (r: Option<(string, string)>)
    ensures r.Some? <==> s != [] && IsNameStart(s[0])
    ensures r.Some? ==> IsName(r.value.0) && r.value.0 + r.value.1 == s
                        && (r.value.1 == [] || !IsNameChar(r.value.1[0]))
  {
    if s == [] || !IsNameStart(s[0]) then None
    else
      var n := NameLength(s);
      assert s[..n] + s[n..] == s;
      Some((s[..n], s[n..]))
  }

  datatype PackagePath = PackagePath(packageName: string, subpath: string)

  /** The thrown `Error`: the path is not a valid npm package path. */
  datatype ParseError = InvalidPackagePath(modulePath: string)

  /** The scope group: `None` when a leading `@` is not followed by a name and `/`. */
  function ReadScope(modulePath: string): (r: Option<(string, string)>)
    ensures r.Some? ==> IsScope(r.value.0) && r.value.0 + r.value.1 == modulePath
    ensures r.Some? && r.value.0 == [] ==> modulePath == [] || modulePath[0] != '@'
  {
    if modulePath != [] && modulePath[0] == '@' then
      match ReadName(modulePath[1..])
      case None => None
      case Some((scopeName, rest)) =>
        if rest != [] && rest[0] == '/' then
          var scope := "@" + scopeName + "/";
          assert scope[1..|scope| - 1] == scopeName;
          assert scope + rest[1..] == modulePath;
          Some((scope, rest[1..]))
        else None
    else Some(([], modulePath))
  }

  /** The name group and the optional `/SUBPATH` after the scope. */
  function ReadRest(modulePath: string, scope: string, rest: string): (r: Result<PackagePath, ParseError>)
    ensures r.Failure? ==> r.error == InvalidPackagePath(modulePath)
  {
    match ReadName(rest)
    case None => Failure(InvalidPackagePath(modulePath))
    case Some((name, tail)) =>
      if tail == [] then Success(PackagePath(scope + name, []))
      else if tail[0] == '/' && NoLineTerminator(tail[1..]) then Success(PackagePath(scope + name, tail[1..]))
      else Failure(InvalidPackagePath(modulePath))
  }

  /** `parsePackageName`: `packageName` is scope plus name; a missing subpath is `''`. */
  function ParsePackageName(modulePath: string): (r: Result<PackagePath, ParseError>)
    ensures r.Failure? ==> r.error == InvalidPackagePath(modulePath)
  {
    match ReadScope(modulePath)
    case None => Failure(InvalidPackagePath(modulePath))
    case Some((scope, rest)) => ReadRest(modulePath, scope, rest)
  }

  lemma {:induction false} NameLengthOf(prefix: string, tail: string)
    requires forall i :: 0 <= i < |prefix| ==> IsNameChar(prefix[i])
    requires tail == [] || !IsNameChar(tail[0])
    ensures NameLength(prefix + tail) == |prefix|
    decreases |prefix|
  {
    if prefix != [] {
      assert (prefix + tail)[1..] == prefix[1..] + tail;
      NameLengthOf(prefix[1..], tail);
    } else {
      assert prefix + tail == tail;
    }
  }

  lemma ReadNameOfName(name: string, tail: string)
    requires IsName(name) && (tail == [] || !IsNameChar(tail[0]))
    ensures ReadName(name + tail) == Some((name, tail))
  {
    NameLengthOf(name, tail);
    var s := name + tail;
    assert s[0] == name[0];
    assert s[..|name|] == name && s[|name|..] == tail;
  }

  /** The accepted forms, as the grammar says. */
  predicate Accepts(modulePath: string, r: PackagePath) {
    && (exists k :: 0 <= k <= |r.packageName| && IsScope(r.packageName[..k]) && IsName(r.packageName[k..]))
    && NoLineTerminator(r.subpath)
    && (modulePath == r.packageName + "/" + r.subpath || (modulePath == r.packageName && r.subpath == []))
  }

  lemma AcceptsIntro(modulePath: string, scope: string, name: string, subpath: string)
    requires IsScope(scope) && IsName(name) && NoLineTerminator(subpath)
    requires modulePath == scope + name + "/" + subpath || (modulePath == scope + name && subpath == [])
    ensures Accepts(modulePath, PackagePath(scope + name, subpath))
  {
    var p := scope + name;
    assert p[..|scope|] == scope && p[|scope|..] == name;
  }

  lemma ReadRestSound(modulePath: string, scope: string, rest: string)
    requires IsScope(scope) && modulePath == scope + rest && ReadRest(modulePath, scope, rest).Success?
    ensures Accepts(modulePath, ReadRest(modulePath, scope, rest).value)
  {
    var rn := ReadName(rest).value;
    var name, tail := rn.0, rn.1;
    if tail != [] {
      assert tail == "/" + tail[1..];
      assert modulePath == scope + name + "/" + tail[1..];
      AcceptsIntro(modulePath, scope, name, tail[1..]);
    } else {
      assert modulePath == scope + name;
      AcceptsIntro(modulePath, scope, name, []);
    }
  }

  lemma PrefixOfAccepted(modulePath: string, r: PackagePath)
    requires modulePath == r.packageName + "/" + r.subpath || modulePath == r.packageName
    ensures StartsWith(modulePath, r.packageName)
  {
    if modulePath != r.packageName {
      assert modulePath == r.packageName + ("/" + r.subpath);
    }
    assert modulePath[..|r.packageName|] == r.packageName;
  }

  /**
   * Every accepted path is a valid scope, a valid name and either nothing or `/` and a
   * subpath without line terminators; `packageName` is scope plus name, and the module path
   * starts with it.
   */
  lemma ParsePackageNameSound(modulePath: string)
    requires ParsePackageName(modulePath).Success?
    ensures Accepts(modulePath, ParsePackageName(modulePath).value)
    ensures StartsWith(modulePath, ParsePackageName(modulePath).value.packageName)
  {
    var sc := ReadScope(modulePath);
    ReadRestSound(modulePath, sc.value.0, sc.value.1);
    var r := ParsePackageName(modulePath).value;
    PrefixOfAccepted(modulePath, r);
  }

  /** The scope and the name an accepted path was read as, and what followed the name. */
  lemma ParsedParts(modulePath: string) returns (scope: string, name: string, tail: string)
    requires ParsePackageName(modulePath).Success?
    ensures IsScope(scope) && IsName(name) && modulePath == scope + name + tail
    ensures ParsePackageName(modulePath).value.packageName == scope + name
    ensures tail == [] || tail[0] == '/'
  {
    var sc := ReadScope(modulePath).value;
    var rn := ReadName(sc.1).value;
    scope, name, tail := sc.0, rn.0, rn.1;
    assert scope + name + tail == scope + (name + tail);
  }

  /** A path made of a scope and a name starts with `@` exactly when the scope is not empty. */
  lemma ScopeMarksStart(modulePath: string, scope: string, name: string, tail: string)
    requires IsScope(scope) && IsName(name) && modulePath == scope + name + tail
    ensures modulePath != [] && (scope == [] <==> modulePath[0] != '@')
  {
    if scope != [] {
      assert modulePath[0] == scope[0];
    } else {
      assert modulePath[0] == name[0];
    }
  }

  lemma ParseOfScopedPath(scope: string, rest: string)
    requires IsScope(scope) && (rest == [] || IsNameStart(rest[0]))
    ensures ReadScope(scope + rest) == Some((scope, rest))
  {
    var s := scope + rest;
    if scope == [] {
      assert s == rest;
    } else {
      var scopeName := scope[1..|scope| - 1];
      assert scope == "@" + scopeName + "/";
      assert s[0] == '@';
      assert s[1..] == scopeName + ("/" + rest);
      ReadNameOfName(scopeName, "/" + rest);
      assert ("/" + rest)[1..] == rest;
    }
  }

  /**
   * Round trip: a valid scope and name, with or without `/` and a subpath free of line
   * terminators, parse back to exactly that package name and subpath.
   */
  lemma ParsePackageNameRoundTrip(scope: string, name: string, subpath: string)
    requires IsScope(scope) && IsName(name) && NoLineTerminator(subpath)
    ensures ParsePackageName(scope + name) == Success(PackagePath(scope + name, []))
    ensures ParsePackageName(scope + name + "/" + subpath) == Success(PackagePath(scope + name, subpath))
  {
    ParseOfScopedPath(scope, name);
    ReadNameOfName(name, []);
    assert name + [] == name;
    var tail := "/" + subpath;
    ParseOfScopedPath(scope, name + tail);
    ReadNameOfName(name, tail);
    assert tail[1..] == subpath;
    assert scope + name + "/" + subpath == scope + (name + tail);
  }

  /** How many times `ch` occurs in `s`. */
  function Occurrences(s: string, ch: char): nat {
    multiset(s)[ch]
  }

  lemma NameShape(name: string)
    requires IsName(name)
    ensures Occurrences(name, '/') == 0 && forall i :: 0 <= i < |name| ==> !IsAsciiUpper(name[i])
  {
    forall i | 0 <= i < |name| ensures name[i] != '/' {
      assert IsNameChar(name[i]);
    }
    assert '/' !in name;
  }

  lemma ScopeShape(scope: string)
    requires IsScope(scope) && scope != []
    ensures scope[0] == '@' && Occurrences(scope, '/') == 1
    ensures forall i :: 0 <= i < |scope| ==> !IsAsciiUpper(scope[i])
  {
    var scopeName := scope[1..|scope| - 1];
    NameShape(scopeName);
    assert scope == ['@'] + scopeName + ['/'];
    assert multiset(scope) == multiset(['@']) + multiset(scopeName) + multiset(['/']);
    forall i | 0 < i < |scope| - 1 ensures !IsAsciiUpper(scope[i]) {
      assert scope[i] == scopeName[i - 1];
    }
  }

  lemma ConcatShape(scope: string, name: string)
    requires IsScope(scope) && IsName(name)
    ensures var p := scope + name;
      && p != []
      && Occurrences(p, '/') == (if p[0] == '@' then 1 else 0)
      && forall i :: 0 <= i < |p| ==> !IsAsciiUpper(p[i])
  {
    var p := scope + name;
    assert multiset(p) == multiset(scope) + multiset(name);
    NameShape(name);
    if scope != [] {
      ScopeShape(scope);
      assert p[0] == scope[0];
    } else {
      assert p[0] == name[0];
    }
    forall i | 0 <= i < |p| ensures !IsAsciiUpper(p[i]) {
      if i >= |scope| {
        assert p[i] == name[i - |scope|];
      }
    }
  }

  /** A scoped package name holds exactly one `/`, an unscoped one none, and no uppercase letter. */
  lemma PackageNameShape(modulePath: string)
    requires ParsePackageName(modulePath).Success?
    ensures var p := ParsePackageName(modulePath).value.packageName;
      && p != []
      && Occurrences(p, '/') == (if p[0] == '@' then 1 else 0)
      && forall i :: 0 <= i < |p| ==> !IsAsciiUpper(p[i])
  {
    var scope, name, tail := ParsedParts(modulePath);
    ConcatShape(scope, name);
  }

  /**
   * An accepted path starts with `@` or a name character; without a scope, everything up
   * to the package name's end is a name character and a `/` follows if anything does.
   */
  lemma AcceptedStart(modulePath: string)
    requires ParsePackageName(modulePath).Success?
    ensures modulePath != [] && (modulePath[0] == '@' || IsNameStart(modulePath[0]))
    ensures var p := ParsePackageName(modulePath).value.packageName;
      modulePath[0] != '@' ==>
        && |p| <= |modulePath|
        && (forall j :: 0 <= j < |p| ==> IsNameChar(modulePath[j]))
        && (|p| < |modulePath| ==> modulePath[|p|] == '/')
  {
    var scope, name, tail := ParsedParts(modulePath);
    ScopeMarksStart(modulePath, scope, name, tail);
    if scope == [] {
      assert scope + name == name;
      assert modulePath == name + tail;
      NameThenTail(name, tail, modulePath);
    }
  }

  lemma NameThenTail(name: string, tail: string, s: string)
    requires IsName(name) && (tail == [] || tail[0] == '/') && s == name + tail
    ensures s != [] && IsNameStart(s[0])
    ensures forall j :: 0 <= j < |name| ==> IsNameChar(s[j])
    ensures |name| < |s| ==> s[|name|] == '/'
  {
    forall j | 0 <= j < |name| ensures IsNameChar(s[j]) {
      assert s[j] == name[j];
    }
    if tail != [] {
      assert s[|name|] == tail[0];
    }
  }

  /** Paths that are empty or start with `.`, `_`, `/` or an uppercase letter throw. */
  lemma ParsePackageNameRejectsStart(modulePath: string)
    requires modulePath == [] || modulePath[0] in {'.', '_', '/'} || IsAsciiUpper(modulePath[0])
    ensures ParsePackageName(modulePath) == Failure(InvalidPackagePath(modulePath))
  {
    if ParsePackageName(modulePath).Success? {
      AcceptedStart(modulePath);
    }
  }

  lemma NoUppercaseBeforeSlash(s: string, n: nat, i: nat)
    requires n <= |s| && (forall j :: 0 <= j < n ==> IsNameChar(s[j])) && (n < |s| ==> s[n] == '/')
    requires i < |s| && forall j :: 0 <= j < i ==> s[j] != '/'
    ensures !IsAsciiUpper(s[i])
  {
    if i < n {
      assert IsNameChar(s[i]);
    } else if i > n {
      assert false;
    }
  }

  /** An unscoped path with an uppercase letter before its first `/` throws. */
  lemma ParsePackageNameRejectsUppercase(modulePath: string, i: nat)
    requires i < |modulePath| && modulePath[0] != '@' && IsAsciiUpper(modulePath[i])
    requires forall j :: 0 <= j < i ==> modulePath[j] != '/'
    ensures ParsePackageName(modulePath) == Failure(InvalidPackagePath(modulePath))
  {
    if ParsePackageName(modulePath).Success? {
      AcceptedStart(modulePath);
      var p := ParsePackageName(modulePath).value.packageName;
      NoUppercaseBeforeSlash(modulePath, |p|, i);
    }
  }

  /**
   * `isNpmPackage`: not relative (`.`), not absolute (`/`), matched by no alias regex
   * (`ALIASES_REGEX.some(...)`) and not a Node builtin; the last two are parameters.
   */
  predicate IsNpmPackage(modulePath: string, matchesAlias: string -> bool, isBuiltin: string -> bool) {
    !StartsWith(modulePath, ".") && !StartsWith(modulePath, "/") && !matchesAlias(modulePath) && !isBuiltin(modulePath)
  }

  /**
   * A path that `parsePackageName` accepts is never relative or absolute, so for it
   * `isNpmPackage` only asks whether it is an alias or a builtin; a relative or absolute
   * path is never an npm package.
   */
  lemma NpmPackageOfParsablePath(modulePath: string, matchesAlias: string -> bool, isBuiltin: string -> bool)
    ensures ParsePackageName(modulePath).Success? ==>
      (IsNpmPackage(modulePath, matchesAlias, isBuiltin) <==> !matchesAlias(modulePath) && !isBuiltin(modulePath))
    ensures (StartsWith(modulePath, ".") || StartsWith(modulePath, "/")) ==> !IsNpmPackage(modulePath, matchesAlias, isBuiltin)
  {
    StartsWithChar(modulePath, '.');
    StartsWithChar(modulePath, '/');
    if ParsePackageName(modulePath).Success? {
      AcceptedStart(modulePath);
    }
  }

  lemma StartsWithChar(s: string, ch: char)
    ensures StartsWith(s, [ch]) <==> s != [] && s[0] == ch
  {
    if s != [] {
      assert s[..1][0] == s[0];
    }
  }
}

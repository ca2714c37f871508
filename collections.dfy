/**
 * Collections as the source's runtime uses them: objects as ordered key/value lists,
 * an insertion-ordered `Set` turned into an array (`Array.from(new Set(...))`),
 * remeda's multiset `difference`, and the JSON-like values found in configuration.
 */
module Collections {
  import opened Wrappers

  datatype Entry<V> = Entry(key: string, value: V)

  /**
   * A plain object: its own enumerable properties in insertion order. ECMAScript lists
   * array-index keys (`"0"`, `"1"`, ...) first in ascending order; key order matters here only
   * for rule and plugin names, which are never array indices.
   */
  type Obj<V> = seq<Entry<V>>

  /** `Object.keys`. */
  function Keys<V>(o: Obj<V>): (ks: seq<string>)
    ensures |ks| == |o| && forall i :: 0 <= i < |o| ==> ks[i] == o[i].key
  {
    seq(|o|, i requires 0 <= i < |o| => o[i].key)
  }

  /** `o[k]`, `None` standing for `undefined`. */
  function Lookup<V>(o: Obj<V>, k: string): (r: Option<V>)
    ensures r.None? <==> k !in Keys(o)
    ensures r.Some? ==> Entry(k, r.value) in o
  {
    if o == [] then None
    else if o[0].key == k then Some(o[0].value)
    else
      var r := Lookup(o[1..], k);
      assert Keys(o) == [o[0].key] + Keys(o[1..]);
      r
  }

  /** remeda's `mapValues`: the same keys in the same order, each value passed through `f`. */
  function MapValues<V, W>(o: Obj<V>, f: V -> W): (r: Obj<W>)
    ensures |r| == |o| && Keys(r) == Keys(o)
    ensures forall i :: 0 <= i < |o| ==> r[i] == Entry(o[i].key, f(o[i].value))
  {
    seq(|o|, i requires 0 <= i < |o| => Entry(o[i].key, f(o[i].value)))
  }

  predicate NoDuplicates<T(==)>(xs: seq<T>) {
    forall i, j :: 0 <= i < j < |xs| ==> xs[i] != xs[j]
  }

  /** `set.add(x)` on an insertion-ordered set represented by its iteration order. */
  function Insert<T(==)>(acc: seq<T>, x: T): seq<T> {
    if x in acc then acc else acc + [x]
  }

  /** `Array.from(new Set(xs))`: the elements of `xs` in order of first occurrence. */
  function Distinct<T(==)>(xs: seq<T>): seq<T> {
    if xs == [] then [] else Insert(Distinct(xs[..|xs| - 1]), xs[|xs| - 1])
  }

  lemma {:induction false} DistinctStep<T>(xs: seq<T>, x: T)
    ensures Distinct(xs + [x]) == Insert(Distinct(xs), x)
  {
    assert (xs + [x])[..|xs + [x]| - 1] == xs;
  }

  /** The result has no duplicates and holds exactly the elements of the input. */
  lemma {:induction false} DistinctSpec<T>(xs: seq<T>)
    ensures NoDuplicates(Distinct(xs))
    ensures forall x :: x in Distinct(xs) <==> x in xs
  {
    if xs != [] {
      var init := xs[..|xs| - 1];
      DistinctSpec(init);
      assert xs == init + [xs[|xs| - 1]];
      forall x ensures x in xs <==> x in init || x == xs[|xs| - 1] {
        if x in xs { var k :| 0 <= k < |xs| && xs[k] == x; if k < |xs| - 1 { assert init[k] == x; } }
      }
    }
  }

  /** A duplicate-free sequence is its own `Distinct`. */
  lemma {:induction false} DistinctOfNoDuplicates<T>(xs: seq<T>)
    requires NoDuplicates(xs)
    ensures Distinct(xs) == xs
  {
    if xs != [] {
      var init := xs[..|xs| - 1];
      DistinctOfNoDuplicates(init);
      DistinctSpec(init);
      assert xs[|xs| - 1] !in init;
    }
  }

  /** The position of the first occurrence of `x` in `xs`. */
  function FirstIndex<T(==)>(xs: seq<T>, x: T): (k: nat)
    requires x in xs
    ensures k < |xs| && xs[k] == x && forall j :: 0 <= j < k ==> xs[j] != x
  {
    if xs[0] == x then 0 else 1 + FirstIndex(xs[1..], x)
  }

  /** remeda's `find`, as the position of the first element satisfying `p`. */
  function FindIndex<T>(xs: seq<T>, p: T -> bool): (r: Option<nat>)
    ensures r.Some? ==> r.value < |xs| && p(xs[r.value]) && forall j :: 0 <= j < r.value ==> !p(xs[j])
    ensures r.None? <==> forall j :: 0 <= j < |xs| ==> !p(xs[j])
  {
    if xs == [] then None
    else if p(xs[0]) then Some(0)
    else match FindIndex(xs[1..], p)
      case None => None
      case Some(k) => Some(k + 1)
  }

  /** remeda's `findLastIndex`, with `-1` as `None`: the last element satisfying `p`. */
  function FindLastIndex<T>(xs: seq<T>, p: T -> bool): (r: Option<nat>)
    ensures r.Some? ==> r.value < |xs| && p(xs[r.value]) && forall j :: r.value < j < |xs| ==> !p(xs[j])
    ensures r.None? <==> forall j :: 0 <= j < |xs| ==> !p(xs[j])
  {
    if xs == [] then None
    else if p(xs[|xs| - 1]) then Some(|xs| - 1)
    else FindLastIndex(xs[..|xs| - 1], p)
  }

  /** `keys.forEach((k) => set.add(k))` on a set holding the distinct elements of `seen`. */
  method AddAll(names: seq<string>, ghost seen: seq<string>, keys: seq<string>) returns (r: seq<string>)
    requires names == Distinct(seen)
    ensures r == Distinct(seen + keys)
  {
    r := names;
    var j := 0;
    assert seen + keys[..0] == seen;
    while j < |keys|
      invariant 0 <= j <= |keys|
      invariant r == Distinct(seen + keys[..j])
    {
      DistinctStep(seen + keys[..j], keys[j]);
      assert seen + keys[..j + 1] == seen + keys[..j] + [keys[j]];
      r := Insert(r, keys[j]);
      j := j + 1;
    }
    assert keys[..j] == keys;
  }

  /** Later elements of `Distinct(xs)` first occur later in `xs`. */
  lemma {:induction false} DistinctFirstOccurrenceOrder<T>(xs: seq<T>, i: nat, j: nat)
    requires i < j < |Distinct(xs)|
    ensures Distinct(xs)[i] in xs && Distinct(xs)[j] in xs
    ensures FirstIndex(xs, Distinct(xs)[i]) < FirstIndex(xs, Distinct(xs)[j])
  {
    DistinctSpec(xs);
    var init := xs[..|xs| - 1];
    var last := xs[|xs| - 1];
    var d := Distinct(init);
    DistinctSpec(init);
    assert Distinct(xs) == Insert(d, last);
    assert Distinct(xs)[i] == d[i] && d[i] in init;
    FirstIndexPrefix(xs, init, d[i]);
    if j < |d| {
      DistinctFirstOccurrenceOrder(init, i, j);
      FirstIndexPrefix(xs, init, d[j]);
    } else {
      // the element added last does not occur in `init`
      assert Distinct(xs) == d + [last] && Distinct(xs)[j] == last && last !in init;
    }
  }

  lemma {:induction false} FirstIndexPrefix<T>(xs: seq<T>, init: seq<T>, x: T)
    requires |init| <= |xs| && init == xs[..|init|] && x in init
    ensures x in xs && FirstIndex(xs, x) == FirstIndex(init, x)
  {
    var a := FirstIndex(init, x);
    assert xs[a] == x;
  }

  /** `xs.flat()`. */
  function Flatten<T>(xss: seq<seq<T>>): seq<T> {
    if xss == [] then [] else Flatten(xss[..|xss| - 1]) + xss[|xss| - 1]
  }

  lemma FlattenSnoc<T>(xss: seq<seq<T>>, xs: seq<T>)
    ensures Flatten(xss + [xs]) == Flatten(xss) + xs
  {
    assert (xss + [xs])[..|xss|] == xss;
  }

  lemma {:induction false} FlattenMember<T>(xss: seq<seq<T>>, x: T)
    ensures x in Flatten(xss) <==> exists i :: 0 <= i < |xss| && x in xss[i]
  {
    if xss != [] {
      var init := xss[..|xss| - 1];
      FlattenMember(init, x);
      if x in Flatten(xss) && x !in xss[|xss| - 1] {
        var i :| 0 <= i < |init| && x in init[i];
        assert xss[i] == init[i];
      }
      if exists i :: 0 <= i < |xss| && x in xss[i] {
        var i :| 0 <= i < |xss| && x in xss[i];
        if i < |init| { assert init[i] == xss[i]; }
      }
    }
  }

  /**
   * remeda's `difference(xs, other)`: both are treated as multisets, so each copy in
   * `other` cancels one occurrence in `xs`, earliest first; order of `xs` is kept.
   */
  function MultisetDifference<T(==)>(xs: seq<T>, other: multiset<T>): seq<T> {
    if xs == [] then []
    else if xs[0] in other then MultisetDifference(xs[1..], other - multiset{xs[0]})
    else [xs[0]] + MultisetDifference(xs[1..], other)
  }

  /** remeda's `intersection(xs, other)`: like `difference`, on multisets, in the order of `xs`. */
  function MultisetIntersection<T(==)>(xs: seq<T>, other: multiset<T>): seq<T> {
    if xs == [] then []
    else if xs[0] in other then [xs[0]] + MultisetIntersection(xs[1..], other - multiset{xs[0]})
    else MultisetIntersection(xs[1..], other)
  }

  /** Against a duplicate-free list, the intersection keeps exactly the shared elements. */
  lemma {:induction false} MultisetIntersectionMember<T>(xs: seq<T>, other: multiset<T>, x: T)
    requires NoDuplicates(xs)
    ensures x in MultisetIntersection(xs, other) <==> x in xs && x in other
    decreases |xs|
  {
    if xs != [] {
      var h := xs[0];
      assert NoDuplicates(xs[1..]) by {
        forall i, j | 0 <= i < j < |xs[1..]| ensures xs[1..][i] != xs[1..][j] {
          assert xs[1..][i] == xs[i + 1] && xs[1..][j] == xs[j + 1];
        }
      }
      assert h !in xs[1..] by {
        forall k | 0 <= k < |xs[1..]| ensures xs[1..][k] != h { assert xs[1..][k] == xs[k + 1]; }
      }
      assert xs == [h] + xs[1..];
      if h in other {
        MultisetIntersectionMember(xs[1..], other - multiset{h}, x);
      } else {
        MultisetIntersectionMember(xs[1..], other, x);
      }
    }
  }

  /** `o[k] = v`: an existing key keeps its position and takes the new value, a new key is appended. */
  function SetProperty<V>(o: Obj<V>, k: string, v: V): (r: Obj<V>)
    ensures Keys(r) == Insert(Keys(o), k)
    ensures forall i :: 0 <= i < |r| ==> r[i].value == (if r[i].key == k then v else o[i].value)
  {
    if k in Keys(o) then seq(|o|, i requires 0 <= i < |o| => if o[i].key == k then Entry(k, v) else o[i])
    else o + [Entry(k, v)]
  }

  /** remeda's `mapToObj` after its callback: the pairs assigned one after the other. */
  function FromEntries<V>(pairs: seq<Entry<V>>): Obj<V> {
    if pairs == [] then [] else
      var last := pairs[|pairs| - 1];
      SetProperty(FromEntries(pairs[..|pairs| - 1]), last.key, last.value)
  }

  /**
   * The keys come out without duplicates, in order of first assignment, and when every
   * pair carries the same value the object maps every key to it.
   */
  lemma {:induction false} FromEntriesSpec<V>(pairs: seq<Entry<V>>, v: V)
    ensures Keys(FromEntries(pairs)) == Distinct(Keys(pairs))
    ensures (forall i :: 0 <= i < |pairs| ==> pairs[i].value == v) ==>
      forall i :: 0 <= i < |FromEntries(pairs)| ==> FromEntries(pairs)[i].value == v
  {
    if pairs != [] {
      var init := pairs[..|pairs| - 1];
      FromEntriesSpec(init, v);
      assert Keys(pairs)[..|pairs| - 1] == Keys(init);
    }
  }

  /** remeda's `filter`. */
  function Filter<T>(xs: seq<T>, p: T -> bool): (r: seq<T>)
    ensures |r| <= |xs|
    ensures forall i :: 0 <= i < |r| ==> r[i] in xs && p(r[i])
    ensures forall i :: 0 <= i < |xs| && p(xs[i]) ==> xs[i] in r
  {
    if xs == [] then [] else
      var rest := Filter(xs[..|xs| - 1], p);
      assert xs == xs[..|xs| - 1] + [xs[|xs| - 1]];
      if p(xs[|xs| - 1]) then rest + [xs[|xs| - 1]] else rest
  }

  /** A JavaScript value as it appears in configuration data. */
  datatype Value =
    | Undefined
    | Null
    | Bool(b: bool)
    | Num(n: int)
    | Str(s: string)
    | Arr(items: seq<Value>)
    | ObjVal(fields: seq<Entry<Value>>)

  /** remeda's `isEmptyish`: `undefined`, `null`, `''`, `[]` and `{}`. */
  predicate IsEmptyish(v: Value) {
    v == Undefined || v == Null || v == Str([]) || v == Arr([]) || v == ObjVal([])
  }

  /** JavaScript truthiness. */
  predicate IsTruthy(v: Value) {
    !(v == Undefined || v == Null || v == Bool(false) || v == Num(0) || v == Str([]))
  }
}

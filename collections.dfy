/** The few Kotlin standard-library collection operations the core relies on,
    with the ordering guarantees Kotlin documents for them: `distinct()` and
    `toSet()` keep first occurrences in order, `toMap()` builds a
    LinkedHashMap, `filter` keeps order and `maxBy` returns the first
    maximal element. */
module KotlinCollections {
  import opened Wrappers

  ghost predicate NoDuplicates<T>(s: seq<T>) {
    forall i, j :: 0 <= i < j < |s| ==> s[i] != s[j]
  }

  /** Position of the first occurrence of `x` in `s`. */
  function IndexOf<T(==)>(s: seq<T>, x: T): (i: nat)
    requires x in s
    ensures i < |s| && s[i] == x
    ensures forall m :: 0 <= m < i ==> s[m] != x
  {
    if s[0] == x then 0 else 1 + IndexOf(s[1..], x)
  }

  /** The first occurrence of `x` in a prefix of `s` is its first occurrence in `s`. */
  lemma IndexOfInPrefix<T>(s: seq<T>, k: nat, x: T)
    requires k <= |s| && x in s[..k]
    ensures IndexOf(s, x) == IndexOf(s[..k], x)
  {
    var i1, i2 := IndexOf(s[..k], x), IndexOf(s, x);
    assert s[i1] == x;
    assert i2 <= i1;
    assert s[..k][i2] == x;
  }

  /** Position of the last occurrence of `x` in `s`. */
  function LastIndexOf<T(==)>(s: seq<T>, x: T): (i: nat)
    requires x in s
    ensures i < |s| && s[i] == x
    ensures forall m :: i < m < |s| ==> s[m] != x
  {
    var n := |s|;
    if s[n - 1] == x then n - 1
    else
      assert s == s[..n - 1] + [s[n - 1]];
      LastIndexOf(s[..n - 1], x)
  }

  /** An element that occurs only as the last one is first found there. */
  lemma IndexOfLast<T>(s: seq<T>, x: T)
    requires |s| > 0 && s[|s| - 1] == x && x !in s[..|s| - 1]
    ensures IndexOf(s, x) == |s| - 1
  {
    assert forall m :: 0 <= m < |s| - 1 ==> s[m] == s[..|s| - 1][m];
  }

  /** Kotlin's `distinct()` on a list, and `toSet()` read in iteration order:
      every element once, at the place of its first occurrence. */
  function Distinct<T(==)>(s: seq<T>): (r: seq<T>)
    ensures NoDuplicates(r)
    ensures forall x :: x in r ==> x in s
    ensures forall x :: x in s ==> x in r
    ensures |r| <= |s|
  {
    if s == [] then []
    else
      var d := Distinct(s[..|s| - 1]);
      assert s == s[..|s| - 1] + [s[|s| - 1]];
      if s[|s| - 1] in d then d else d + [s[|s| - 1]]
  }

  /** `Distinct` orders its elements by their first occurrence in the input. */
  lemma {:induction false} DistinctKeepsFirstOccurrenceOrder<T>(s: seq<T>, i: nat, j: nat)
    requires i < j < |Distinct(s)|
    ensures IndexOf(s, Distinct(s)[i]) < IndexOf(s, Distinct(s)[j])
  {
    var n := |s|;
    var init := s[..n - 1];
    var d := Distinct(init);
    var r := Distinct(s);
    assert s == init + [s[n - 1]];
    assert r[i] in d by {
      if j < |d| { } else { assert r == d + [s[n - 1]]; }
    }
    IndexOfInPrefix(s, n - 1, r[i]);
    if j < |d| {
      assert r[j] == d[j] && r[i] == d[i];
      IndexOfInPrefix(s, n - 1, r[j]);
      DistinctKeepsFirstOccurrenceOrder(init, i, j);
    } else {
      assert r == d + [s[n - 1]] && r[j] == s[n - 1] && s[n - 1] !in init;
      IndexOfLast(s, r[j]);
    }
  }

  /** A list without repetitions is its own `distinct()`. */
  lemma {:induction false} DistinctOfDistinct<T>(s: seq<T>)
    requires NoDuplicates(s)
    ensures Distinct(s) == s
  {
    if s != [] {
      var n := |s|;
      DistinctOfDistinct(s[..n - 1]);
      assert s[n - 1] !in s[..n - 1];
      assert s == s[..n - 1] + [s[n - 1]];
    }
  }

  /** A LinkedHashMap: `keys` in insertion order, `values` the current mapping. */
  datatype LinkedMap<K(==), V> = LinkedMap(keys: seq<K>, values: map<K, V>) {

    ghost predicate Valid() {
      && NoDuplicates(keys)
      && (forall k :: k in values ==> k in keys)
      && (forall k :: k in keys ==> k in values)
    }

    /** `put`: a present key keeps its place and gets the new value; a new key goes last. */
    function Put(k: K, v: V): LinkedMap<K, V> {
      if k in values then LinkedMap(keys, values[k := v])
      else LinkedMap(keys + [k], values[k := v])
    }

    /** `entries` in iteration order. */
    function Entries(): (es: seq<(K, V)>)
      requires Valid()
      ensures |es| == |keys|
      ensures forall i :: 0 <= i < |es| ==> es[i] == (keys[i], values[keys[i]])
    {
      seq(|keys|, i requires 0 <= i < |keys| => (keys[i], values[keys[i]]))
    }
  }

  function Firsts<K, V>(pairs: seq<(K, V)>): (ks: seq<K>)
    ensures |ks| == |pairs| && forall i :: 0 <= i < |pairs| ==> ks[i] == pairs[i].0
  {
    seq(|pairs|, i requires 0 <= i < |pairs| => pairs[i].0)
  }

  /** Kotlin's `toMap()` on a list of pairs: pairs are put one after another. */
  function ToMap<K(==), V>(pairs: seq<(K, V)>): (m: LinkedMap<K, V>)
    ensures m.Valid()
    ensures m.keys == Distinct(Firsts(pairs))
  {
    if pairs == [] then LinkedMap([], map[])
    else
      var n := |pairs|;
      assert Firsts(pairs[..n - 1]) == Firsts(pairs)[..n - 1];
      ToMap(pairs[..n - 1]).Put(pairs[n - 1].0, pairs[n - 1].1)
  }

  /** When a key occurs several times, `toMap()` keeps the value of its last pair. */
  lemma {:induction false} ToMapLastWins<K, V>(pairs: seq<(K, V)>, i: nat)
    requires i < |pairs|
    requires forall j :: i < j < |pairs| ==> pairs[j].0 != pairs[i].0
    ensures pairs[i].0 in ToMap(pairs).values
    ensures ToMap(pairs).values[pairs[i].0] == pairs[i].1
  {
    var n := |pairs|;
    var init := ToMap(pairs[..n - 1]);
    assert ToMap(pairs) == init.Put(pairs[n - 1].0, pairs[n - 1].1);
    if i < n - 1 {
      ToMapLastWins(pairs[..n - 1], i);
    }
  }

  function Seconds<K, V>(pairs: seq<(K, V)>): (vs: seq<V>)
    ensures |vs| == |pairs| && forall i :: 0 <= i < |pairs| ==> vs[i] == pairs[i].1
  {
    seq(|pairs|, i requires 0 <= i < |pairs| => pairs[i].1)
  }

  /** Appending a pair appends its components to the two unzipped lists. */
  lemma FirstsSecondsAppend<K, V>(pairs: seq<(K, V)>, p: (K, V))
    ensures Firsts(pairs + [p]) == Firsts(pairs) + [p.0]
    ensures Seconds(pairs + [p]) == Seconds(pairs) + [p.1]
  {
    assert Firsts(pairs + [p])[|pairs|] == p.0;
  }

  lemma FirstsSecondsOfOne<K, V>(k: K, v: V)
    ensures Firsts([(k, v)]) == [k] && Seconds([(k, v)]) == [v]
  {
  }

  /** Kotlin's `filter`: the elements that satisfy `p`, in their order. */
  function Filter<T>(s: seq<T>, p: T -> bool): (r: seq<T>)
    ensures |r| <= |s|
    ensures forall x :: x in r ==> x in s && p(x)
    ensures forall x :: x in s && p(x) ==> x in r
  {
    if s == [] then []
    else
      var rest := Filter(s[1..], p);
      assert s == [s[0]] + s[1..];
      if p(s[0]) then [s[0]] + rest else rest
  }

  /** `Filter` keeps each element that satisfies `p` exactly as often as it
      occurs in `s`, and drops every other element. */
  lemma {:induction false} FilterKeepsMultiplicity<T>(s: seq<T>, p: T -> bool)
    ensures forall x :: multiset(Filter(s, p))[x] == if p(x) then multiset(s)[x] else 0
  {
    if s != [] {
      FilterKeepsMultiplicity(s[1..], p);
      assert s == [s[0]] + s[1..];
    }
  }

  /** `Filter` works element by element: filtering a concatenation filters
      each part; with `FilterOfOne` this fixes the result, every kept element
      in its place. */
  lemma {:induction false} FilterAppend<T>(s: seq<T>, t: seq<T>, p: T -> bool)
    ensures Filter(s + t, p) == Filter(s, p) + Filter(t, p)
  {
    if s == [] {
      assert s + t == t;
    } else {
      assert (s + t)[1..] == s[1..] + t;
      FilterAppend(s[1..], t, p);
    }
  }

  lemma FilterOfOne<T>(x: T, p: T -> bool)
    ensures Filter([x], p) == if p(x) then [x] else []
  {
    assert [x][1..] == [];
  }

  /** `x` and `y` both occur in `s`, the first `x` before the first `y`. */
  ghost predicate Precedes<T>(s: seq<T>, x: T, y: T) {
    x in s && y in s && IndexOf(s, x) < IndexOf(s, y)
  }

  /** `Filter` keeps the relative order of the elements it keeps. */
  lemma {:induction false} FilterKeepsOrder<T>(s: seq<T>, p: T -> bool, x: T, y: T)
    requires Precedes(Filter(s, p), x, y)
    ensures Precedes(s, x, y)
  {
    var f := Filter(s, p);
    var rest := Filter(s[1..], p);
    if s[0] != x {
      assert x in s[1..] && y in s[1..];
      if p(s[0]) {
        assert f == [s[0]] + rest && f[1..] == rest;
      }
      FilterKeepsOrder(s[1..], p, x, y);
    }
  }

  /** Kotlin's `maxBy`: no element for an empty list, otherwise the first
      element whose key is largest. */
  function MaxBy<T(==)>(s: seq<T>, key: T -> int): (r: Option<T>)
    ensures r.None? <==> s == []
    ensures r.Some? ==> r.value in s && forall x :: x in s ==> key(x) <= key(r.value)
    ensures r.Some? ==> forall i :: 0 <= i < IndexOf(s, r.value) ==> key(s[i]) < key(r.value)
  {
    if s == [] then None
    else
      var n := |s|;
      var best := MaxBy(s[..n - 1], key);
      assert s == s[..n - 1] + [s[n - 1]];
      if best.None? then Some(s[n - 1])
      else if key(best.value) < key(s[n - 1]) then Some(s[n - 1])
      else
        IndexOfInPrefix(s, n - 1, best.value);
        best
  }
}

/** Sequence combinators behind the read views: filtering, ordering and summing query results. */
module Seqs {
  import opened Wrappers

  /** The images, in order, of the elements of `s` that `f` keeps (a filtered, projected query). */
  function FilterMap<T, U>(s: seq<T>, f: T -> Option<U>): (r: seq<U>)
    ensures |r| <= |s|
  {
    if s == [] then []
    else
      var rest := FilterMap(s[..|s| - 1], f);
      match f(s[|s| - 1])
      case Some(u) => rest + [u]
      case None => rest
  }

  /** The elements of `s` that satisfy `p`, in order (a `filter` or `exclude` on a query). */
  function Filter<T>(s: seq<T>, p: T -> bool): (r: seq<T>)
    ensures |r| <= |s|
    ensures forall i :: 0 <= i < |r| ==> r[i] in s && p(r[i])
    ensures forall i :: 0 <= i < |s| && p(s[i]) ==> s[i] in r
  {
    if s == [] then []
    else
      var rest := Filter(s[..|s| - 1], p);
      assert forall i :: 0 <= i < |s| - 1 ==> s[..|s| - 1][i] == s[i];
      if p(s[|s| - 1]) then rest + [s[|s| - 1]] else rest
  }

  lemma FilterAppend<T>(s: seq<T>, x: T, p: T -> bool)
    ensures Filter(s + [x], p) == if p(x) then Filter(s, p) + [x] else Filter(s, p)
  {
    assert (s + [x])[..|s|] == s;
  }

  /** Filters that agree on every element of `s` select the same elements. */
  lemma {:induction false} FilterCongruent<T>(s: seq<T>, p: T -> bool, q: T -> bool)
    requires forall i :: 0 <= i < |s| ==> p(s[i]) == q(s[i])
    ensures Filter(s, p) == Filter(s, q)
  {
    if s != [] {
      var n := |s| - 1;
      assert forall i :: 0 <= i < n ==> s[..n][i] == s[i];
      FilterCongruent(s[..n], p, q);
    }
  }

  /** A sequence none of whose elements pass the filter filters to nothing. */
  lemma {:induction false} FilterNone<T>(s: seq<T>, p: T -> bool)
    requires forall i :: 0 <= i < |s| ==> !p(s[i])
    ensures Filter(s, p) == []
  {
    if s != [] {
      var n := |s| - 1;
      assert s == s[..n] + [s[n]];
      FilterAppend(s[..n], s[n], p);
      FilterNone(s[..n], p);
    }
  }

  /** A sum over a filtered query, split by the last element. */
  lemma SumFilterAppend<T>(s: seq<T>, x: T, p: T -> bool, f: T -> real)
    ensures SumBy(Filter(s + [x], p), f) == SumBy(Filter(s, p), f) + if p(x) then f(x) else 0.0
  {
    FilterAppend(s, x, p);
    if p(x) {
      SumByAppend(Filter(s, p), x, f);
    }
  }

  /**
   * Excluding the single element at `k` from a filter removes exactly its term from the sum.
   * `q` is the filter `p` with position `k` excluded.
   */
  lemma {:induction false} SumFilterExclude<T>(s: seq<T>, p: T -> bool, q: T -> bool, k: nat, f: T -> real)
    requires k < |s|
    requires forall i :: 0 <= i < |s| ==> q(s[i]) == (p(s[i]) && i != k)
    ensures SumBy(Filter(s, q), f) == SumBy(Filter(s, p), f) - if p(s[k]) then f(s[k]) else 0.0
  {
    var n := |s| - 1;
    var prefix := s[..n];
    assert s == prefix + [s[n]];
    assert forall i :: 0 <= i < n ==> prefix[i] == s[i];
    SumFilterAppend(prefix, s[n], p, f);
    SumFilterAppend(prefix, s[n], q, f);
    if k == n {
      FilterCongruent(prefix, p, q);
    } else {
      SumFilterExclude(prefix, p, q, k, f);
    }
  }

  /** Every output of `FilterMap` comes from one kept input, inputs keep their order, and no kept input is lost. */
  lemma {:induction false} FilterMapSources<T, U>(s: seq<T>, f: T -> Option<U>) returns (src: seq<nat>)
    ensures |src| == |FilterMap(s, f)|
    ensures forall i :: 0 <= i < |src| ==> src[i] < |s| && f(s[src[i]]) == Some(FilterMap(s, f)[i])
    ensures forall i, j :: 0 <= i < j < |src| ==> src[i] < src[j]
    ensures forall k :: 0 <= k < |s| && f(s[k]).Some? ==> k in src
  {
    if s == [] {
      src := [];
    } else {
      var n := |s| - 1;
      var prefix := s[..n];
      var src0 := FilterMapSources(prefix, f);
      assert forall k :: 0 <= k < n ==> prefix[k] == s[k];
      match f(s[n])
      case Some(u) =>
        src := src0 + [n];
      case None =>
        src := src0;
    }
  }

  /** What `FilterMap` keeps, as membership: `u` is an output exactly when some input maps to it. */
  lemma FilterMapMembers<T, U>(s: seq<T>, f: T -> Option<U>, u: U)
    ensures u in FilterMap(s, f) <==> exists k :: 0 <= k < |s| && f(s[k]) == Some(u)
  {
    var src := FilterMapSources(s, f);
    var r := FilterMap(s, f);
    if u in r {
      var i :| 0 <= i < |r| && r[i] == u;
      assert f(s[src[i]]) == Some(u);
    }
    if exists k :: 0 <= k < |s| && f(s[k]) == Some(u) {
      var k :| 0 <= k < |s| && f(s[k]) == Some(u);
      assert k in src;
      var i :| 0 <= i < |src| && src[i] == k;
      assert r[i] == u;
    }
  }

  /** An element is in a filtered, sorted query exactly when it is a row that passes the filter. */
  lemma SortedFilterMembers<T>(s: seq<T>, p: T -> bool, key: T -> int, x: T)
    ensures x in SortBy(Filter(s, p), key) <==> x in s && p(x)
  {
    var f := Filter(s, p);
    assert x in SortBy(f, key) <==> x in multiset(SortBy(f, key));
    assert x in f <==> x in multiset(f);
  }

  /** An element is in a projected, sorted query exactly when some row projects to it. */
  lemma SortedFilterMapMembers<T, U>(s: seq<T>, f: T -> Option<U>, key: U -> int, u: U)
    ensures u in SortBy(FilterMap(s, f), key) <==> exists k :: 0 <= k < |s| && f(s[k]) == Some(u)
  {
    var fm := FilterMap(s, f);
    assert u in SortBy(fm, key) <==> u in multiset(SortBy(fm, key));
    assert u in fm <==> u in multiset(fm);
    FilterMapMembers(s, f, u);
  }

  /** A projection that keeps no input yields nothing. */
  lemma {:induction false} FilterMapNone<T, U>(s: seq<T>, f: T -> Option<U>)
    requires forall i :: 0 <= i < |s| ==> f(s[i]).None?
    ensures FilterMap(s, f) == []
  {
    if s != [] {
      var n := |s| - 1;
      assert forall i :: 0 <= i < n ==> s[..n][i] == s[i];
      FilterMapNone(s[..n], f);
    }
  }

  /** The position of the first element of `s` that satisfies `p` (a lookup by key). */
  function FirstIndex<T>(s: seq<T>, p: T -> bool): (r: Option<nat>)
    ensures r.Some? ==> r.value < |s| && p(s[r.value]) && forall i :: 0 <= i < r.value ==> !p(s[i])
    ensures r.None? ==> forall i :: 0 <= i < |s| ==> !p(s[i])
  {
    if s == [] then None
    else if p(s[0]) then Some(0)
    else
      match FirstIndex(s[1..], p)
      case Some(i) => Some(i + 1)
      case None => None
  }

  /** `s` read back to front. */
  function Reversed<T>(s: seq<T>): (r: seq<T>)
    ensures |r| == |s|
    ensures forall i :: 0 <= i < |s| ==> r[i] == s[|s| - 1 - i]
  {
    if s == [] then [] else [s[|s| - 1]] + Reversed(s[..|s| - 1])
  }

  /** `s` is in ascending order of `key`. */
  ghost predicate SortedBy<T>(s: seq<T>, key: T -> int)
  {
    forall i, j :: 0 <= i < j < |s| ==> key(s[i]) <= key(s[j])
  }

  /** Inserts `x` into the ascending `s` after every element whose key is smaller. */
  function InsertBy<T>(x: T, s: seq<T>, key: T -> int): (r: seq<T>)
    requires SortedBy(s, key)
    ensures SortedBy(r, key)
    ensures multiset(r) == multiset(s) + multiset{x}
  {
    if s == [] then [x]
    else if key(x) <= key(s[0]) then [x] + s
    else
      var tail := InsertBy(x, s[1..], key);
      assert s == [s[0]] + s[1..];
      InsertedKeysBounded(x, s, key, tail);
      [s[0]] + tail
  }

  /** Every element of the insertion into the tail of `s` has a key no smaller than that of `s[0]`. */
  lemma InsertedKeysBounded<T>(x: T, s: seq<T>, key: T -> int, tail: seq<T>)
    requires s != [] && SortedBy(s, key) && key(s[0]) < key(x)
    requires multiset(tail) == multiset(s[1..]) + multiset{x}
    ensures forall j :: 0 <= j < |tail| ==> key(s[0]) <= key(tail[j])
  {
    forall j | 0 <= j < |tail|
      ensures key(s[0]) <= key(tail[j])
    {
      assert tail[j] in multiset(tail);
      if tail[j] != x {
        assert tail[j] in multiset(s[1..]);
        var k :| 0 <= k < |s[1..]| && s[1..][k] == tail[j];
        assert s[k + 1] == tail[j];
      }
    }
  }

  /** `s` ordered ascending by `key` (an `order_by` on the timestamp). */
  function SortBy<T>(s: seq<T>, key: T -> int): (r: seq<T>)
    ensures SortedBy(r, key)
    ensures multiset(r) == multiset(s)
  {
    if s == [] then []
    else
      assert s == [s[0]] + s[1..];
      InsertBy(s[0], SortBy(s[1..], key), key)
  }

  /** Sum of `f` over the elements of `s` (an aggregate `Sum`, 0 when empty). */
  function SumBy<T>(s: seq<T>, f: T -> real): real
  {
    if s == [] then 0.0 else f(s[0]) + SumBy(s[1..], f)
  }

  lemma {:induction false} SumByAppend<T>(s: seq<T>, x: T, f: T -> real)
    ensures SumBy(s + [x], f) == SumBy(s, f) + f(x)
  {
    if s != [] {
      assert (s + [x])[1..] == s[1..] + [x];
      SumByAppend(s[1..], x, f);
    }
  }

  lemma {:induction false} SumByInsert<T>(x: T, s: seq<T>, key: T -> int, f: T -> real)
    requires SortedBy(s, key)
    ensures SumBy(InsertBy(x, s, key), f) == f(x) + SumBy(s, f)
  {
    if s != [] && key(x) > key(s[0]) {
      SumByInsert(x, s[1..], key, f);
    }
  }

  /** Ordering a query result does not change its sum. */
  lemma {:induction false} SumBySorted<T>(s: seq<T>, key: T -> int, f: T -> real)
    ensures SumBy(SortBy(s, key), f) == SumBy(s, f)
  {
    if s != [] {
      SumBySorted(s[1..], key, f);
      SumByInsert(s[0], SortBy(s[1..], key), key, f);
    }
  }
}

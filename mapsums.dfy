/** Sums over the values of a per-member map (`sum(d.values())` on a Python dict). */
module MapSums {
  import opened Basics
  import opened Seqs

  /** Some key of a non-empty key set: the order in which a dict is summed. */
  ghost function Pick(keys: set<MemberId>): (k: MemberId)
    requires keys != {}
    ensures k in keys
  {
    var k :| k in keys; k
  }

  /** Sum of the values of `e` at `keys`. */
  ghost function SumOver(e: map<MemberId, real>, keys: set<MemberId>): real
    requires keys <= e.Keys
    decreases keys
  {
    if keys == {} then 0.0
    else
      var k := Pick(keys);
      e[k] + SumOver(e, keys - {k})
  }

  /** Sum of all the values of `e`. */
  ghost function MapSum(e: map<MemberId, real>): real
  {
    SumOver(e, e.Keys)
  }

  /** The members whose value in `e` is strictly positive. */
  function PositiveKeys(e: map<MemberId, real>): (ks: set<MemberId>)
    ensures ks <= e.Keys
    ensures forall m :: m in ks <==> m in e && e[m] > 0.0
  {
    set m | m in e && e[m] > 0.0
  }

  /** The sum does not depend on which key is taken first. */
  lemma {:induction false} SumOverRemove(e: map<MemberId, real>, keys: set<MemberId>, k: MemberId)
    requires keys <= e.Keys && k in keys
    ensures SumOver(e, keys) == e[k] + SumOver(e, keys - {k})
    decreases keys
  {
    var p := Pick(keys);
    if p != k {
      calc {
        SumOver(e, keys);
        e[p] + SumOver(e, keys - {p});
        { SumOverRemove(e, keys - {p}, k); }
        e[p] + e[k] + SumOver(e, keys - {p} - {k});
        { assert keys - {p} - {k} == keys - {k} - {p}; }
        e[k] + (e[p] + SumOver(e, keys - {k} - {p}));
        { SumOverRemove(e, keys - {k}, p); }
        e[k] + SumOver(e, keys - {k});
      }
    }
  }

  /** Maps that agree on `keys` have the same sum over them. */
  lemma {:induction false} SumOverAgree(e1: map<MemberId, real>, e2: map<MemberId, real>, keys: set<MemberId>)
    requires keys <= e1.Keys && keys <= e2.Keys
    requires forall k :: k in keys ==> e1[k] == e2[k]
    ensures SumOver(e1, keys) == SumOver(e2, keys)
    decreases keys
  {
    if keys != {} {
      SumOverAgree(e1, e2, keys - {Pick(keys)});
    }
  }

  /** Maps with the same keys and the same value at every key are equal. */
  lemma MapsAgree(a: map<MemberId, real>, b: map<MemberId, real>)
    requires a.Keys == b.Keys
    requires forall k :: k in a ==> a[k] == b[k]
    ensures a == b
  {
  }

  /**
   * Adding `a` to the entry of `k` (creating it at zero when absent) and leaving every other
   * entry as it was adds `a` to the sum of the map.
   */
  lemma MapSumBump(e: map<MemberId, real>, e': map<MemberId, real>, k: MemberId, a: real)
    requires e'.Keys == e.Keys + {k}
    requires forall x :: x in e && x != k ==> e'[x] == e[x]
    requires e'[k] == (if k in e then e[k] else 0.0) + a
    ensures MapSum(e') == MapSum(e) + a
  {
    SumOverRemove(e', e'.Keys, k);
    assert e'.Keys - {k} == e.Keys - {k};
    SumOverAgree(e', e, e.Keys - {k});
    if k in e {
      SumOverRemove(e, e.Keys, k);
    } else {
      assert e.Keys - {k} == e.Keys;
    }
  }

  /** Summing over `keys` is summing over a part of it and then over the rest. */
  lemma {:induction false} SumOverSplit(e: map<MemberId, real>, keys: set<MemberId>, part: set<MemberId>)
    requires keys <= e.Keys && part <= keys
    ensures SumOver(e, keys) == SumOver(e, part) + SumOver(e, keys - part)
    decreases part
  {
    if part != {} {
      var k := Pick(part);
      SumOverRemove(e, part, k);
      SumOverRemove(e, keys, k);
      SumOverSplit(e, keys - {k}, part - {k});
      assert (keys - {k}) - (part - {k}) == keys - part;
    } else {
      assert keys - part == keys;
    }
  }

  /** Sums of values that are all at most zero are at most zero, and vanish only when every value does. */
  lemma {:induction false} SumOverNonPositive(e: map<MemberId, real>, keys: set<MemberId>)
    requires keys <= e.Keys
    requires forall m :: m in keys ==> e[m] <= 0.0
    ensures SumOver(e, keys) <= 0.0
    ensures SumOver(e, keys) == 0.0 <==> forall m :: m in keys ==> e[m] == 0.0
    decreases keys
  {
    if keys != {} {
      var k := Pick(keys);
      SumOverNonPositive(e, keys - {k});
      if SumOver(e, keys) == 0.0 {
        forall m | m in keys ensures e[m] == 0.0 {
          if m != k { assert m in keys - {k}; }
        }
      }
    }
  }

  /** A sum of non-negative values is at least each of them. */
  lemma {:induction false} SumOverBoundsEach(e: map<MemberId, real>, keys: set<MemberId>, k: MemberId)
    requires keys <= e.Keys && k in keys
    requires forall m :: m in keys ==> e[m] >= 0.0
    ensures e[k] <= SumOver(e, keys)
  {
    SumOverRemove(e, keys, k);
    SumOverNonNegative(e, keys - {k});
  }

  lemma {:induction false} SumOverNonNegative(e: map<MemberId, real>, keys: set<MemberId>)
    requires keys <= e.Keys
    requires forall m :: m in keys ==> e[m] >= 0.0
    ensures SumOver(e, keys) >= 0.0
    decreases keys
  {
    if keys != {} {
      SumOverNonNegative(e, keys - {Pick(keys)});
    }
  }

  /** `sum(d.values())`: the values of `e` added up one key at a time, in no particular order. */
  method SumValues(e: map<MemberId, real>) returns (total: real)
    ensures total == MapSum(e)
  {
    total := 0.0;
    var pending := e.Keys;
    while pending != {}
      invariant pending <= e.Keys
      invariant total + SumOver(e, pending) == MapSum(e)
      decreases pending
    {
      var m :| m in pending;
      SumOverRemove(e, pending, m);
      total := total + e[m];
      pending := pending - {m};
    }
  }

  /**
   * Dropping the members whose value is not positive keeps the total unchanged exactly when
   * no value is negative; otherwise the positive part is strictly larger.
   */
  lemma PositivePartOfSum(e: map<MemberId, real>)
    ensures SumOver(e, PositiveKeys(e)) >= MapSum(e)
    ensures SumOver(e, PositiveKeys(e)) == MapSum(e) <==> forall m :: m in e ==> e[m] >= 0.0
  {
    var pos := PositiveKeys(e);
    SumOverSplit(e, e.Keys, pos);
    SumOverNonPositive(e, e.Keys - pos);
    if SumOver(e, pos) == MapSum(e) {
      forall m | m in e ensures e[m] >= 0.0 {
        if m !in pos { assert m in e.Keys - pos; }
      }
    }
  }

  /** Removing the last row keeps every other member of `k` covered. */
  lemma CoverWithoutLast<T>(xs: seq<T>, owner: T -> MemberId, k: set<MemberId>, last: MemberId)
    requires xs != [] && last == owner(xs[|xs| - 1])
    requires forall m :: m in k ==> exists i :: 0 <= i < |xs| && owner(xs[i]) == m
    ensures forall m :: m in k - {last} ==> exists i :: 0 <= i < |xs| - 1 && owner(xs[i]) == m
  {
    var n := |xs| - 1;
    forall m | m in k - {last}
      ensures exists i :: 0 <= i < n && owner(xs[i]) == m
    {
      var i :| 0 <= i < |xs| && owner(xs[i]) == m;
      assert i != n;
    }
  }

  /**
   * Rows with pairwise distinct owners that cover exactly the keys `k`, each carrying its
   * owner's value in `e`, add up to the sum of `e` over `k`.
   */
  lemma {:induction false} SumCovering<T>(xs: seq<T>, owner: T -> MemberId, amount: T -> real, e: map<MemberId, real>, k: set<MemberId>)
    requires k <= e.Keys
    requires forall i :: 0 <= i < |xs| ==> owner(xs[i]) in k && amount(xs[i]) == e[owner(xs[i])]
    requires forall i, j :: 0 <= i < j < |xs| ==> owner(xs[i]) != owner(xs[j])
    requires forall m :: m in k ==> exists i :: 0 <= i < |xs| && owner(xs[i]) == m
    ensures SumBy(xs, amount) == SumOver(e, k)
  {
    if xs == [] {
      assert k == {};
    } else {
      var n := |xs| - 1;
      var x := xs[n];
      var prefix := xs[..n];
      assert xs == prefix + [x];
      CoverWithoutLast(xs, owner, k, owner(x));
      assert forall i :: 0 <= i < |prefix| ==> prefix[i] == xs[i];
      assert forall i :: 0 <= i < |prefix| ==> owner(prefix[i]) != owner(x);
      SumCovering(prefix, owner, amount, e, k - {owner(x)});
      SumByAppend(prefix, x, amount);
      SumOverRemove(e, k, owner(x));
    }
  }

  /** Rows with pairwise distinct owners covering exactly `k` are as many as the keys of `k`. */
  lemma {:induction false} DistinctOwnersCount<T>(xs: seq<T>, owner: T -> MemberId, k: set<MemberId>)
    requires forall i :: 0 <= i < |xs| ==> owner(xs[i]) in k
    requires forall i, j :: 0 <= i < j < |xs| ==> owner(xs[i]) != owner(xs[j])
    requires forall m :: m in k ==> exists i :: 0 <= i < |xs| && owner(xs[i]) == m
    ensures |k| == |xs|
  {
    if xs == [] {
      assert k == {};
    } else {
      var n := |xs| - 1;
      var prefix := xs[..n];
      CoverWithoutLast(xs, owner, k, owner(xs[n]));
      assert forall i :: 0 <= i < |prefix| ==> prefix[i] == xs[i];
      assert forall i :: 0 <= i < |prefix| ==> owner(prefix[i]) != owner(xs[n]);
      DistinctOwnersCount(prefix, owner, k - {owner(xs[n])});
    }
  }
}

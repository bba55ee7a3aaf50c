/**
 * Converting holdings into an asset: each member's non-reversed holding value at the conversion
 * day, split into ownership percentages of the new asset (common/services/asset_service.py).
 */
module AssetService {
  import opened Wrappers
  import opened Basics
  import opened Seqs
  import opened Records
  import opened Reversals
  import opened MapSums
  import opened LedgerStore

  /**
   * The holding share counts toward its member's value at `asOf`: it is not reversed and its
   * investment exists and is dated on or before the day (the query joins on the investment).
   */
  predicate CountsHolding(h: HoldingShare, invs: seq<Investment>, rev: set<RecordId>, asOf: Date)
  {
    h.id !in rev && FindInvestment(invs, h.investment).Some? && FindInvestment(invs, h.investment).value.recordedAt <= asOf
  }

  /** Units times the unit value of the share's investment, or 0 when it has none. */
  function HoldingWorth(invs: seq<Investment>): HoldingShare -> real
  {
    (h: HoldingShare) => match FindInvestment(invs, h.investment)
         case Some(inv) => h.units * inv.unitValue
         case None => 0.0
  }

  function HoldingFilter(invs: seq<Investment>, rev: set<RecordId>, m: MemberId, asOf: Date): HoldingShare -> bool
  {
    (h: HoldingShare) => h.member == m && CountsHolding(h, invs, rev, asOf)
  }

  /** The value of one member's counted holding shares at `asOf`. */
  function MemberHoldingValue(hs: seq<HoldingShare>, invs: seq<Investment>, rev: set<RecordId>, m: MemberId, asOf: Date): real
  {
    SumBy(Filter(hs, HoldingFilter(invs, rev, m, asOf)), HoldingWorth(invs))
  }

  /**
   * The dictionary built by `_holding_value_per_member_as_of`, accumulated one share at a time.
   * The source visits the shares newest first; the sums are exact, so the visiting order does not
   * change the values.
   */
  function HoldingValues(hs: seq<HoldingShare>, invs: seq<Investment>, rev: set<RecordId>, asOf: Date): map<MemberId, real>
  {
    if hs == [] then map[]
    else
      var prev := HoldingValues(hs[..|hs| - 1], invs, rev, asOf);
      var h := hs[|hs| - 1];
      if CountsHolding(h, invs, rev, asOf) then
        prev[h.member := (if h.member in prev then prev[h.member] else 0.0) + HoldingWorth(invs)(h)]
      else prev
  }

  /**
   * The dictionary has an entry exactly for the members with a counted holding share, and that
   * entry is the value of all of that member's counted shares.
   */
  lemma {:induction false} HoldingValuesAreMemberSums(hs: seq<HoldingShare>, invs: seq<Investment>, rev: set<RecordId>, asOf: Date)
    ensures forall m :: m in HoldingValues(hs, invs, rev, asOf) <==>
      exists i :: 0 <= i < |hs| && hs[i].member == m && CountsHolding(hs[i], invs, rev, asOf)
    ensures forall m :: m in HoldingValues(hs, invs, rev, asOf) ==>
      HoldingValues(hs, invs, rev, asOf)[m] == MemberHoldingValue(hs, invs, rev, m, asOf)
  {
    if hs != [] {
      var n := |hs| - 1;
      var prefix := hs[..n];
      var h := hs[n];
      assert hs == prefix + [h];
      HoldingValuesAreMemberSums(prefix, invs, rev, asOf);
      HoldingValueKeysStep(prefix, h, invs, rev, asOf);
      HoldingValueEntriesStep(prefix, h, invs, rev, asOf);
    }
  }

  /** One more row keeps the dictionary's keys exactly the members with a counted share. */
  lemma HoldingValueKeysStep(prefix: seq<HoldingShare>, h: HoldingShare, invs: seq<Investment>, rev: set<RecordId>, asOf: Date)
    requires forall m :: m in HoldingValues(prefix, invs, rev, asOf) <==>
      exists i :: 0 <= i < |prefix| && prefix[i].member == m && CountsHolding(prefix[i], invs, rev, asOf)
    ensures var hs := prefix + [h];
      forall m :: m in HoldingValues(hs, invs, rev, asOf) <==>
        exists i :: 0 <= i < |hs| && hs[i].member == m && CountsHolding(hs[i], invs, rev, asOf)
  {
    var hs := prefix + [h];
    var n := |prefix|;
    assert hs[..n] == prefix;
    assert hs[n] == h;
    var prev := HoldingValues(prefix, invs, rev, asOf);
    var cur := HoldingValues(hs, invs, rev, asOf);
    forall m ensures m in cur <==> exists i :: 0 <= i < |hs| && hs[i].member == m && CountsHolding(hs[i], invs, rev, asOf) {
      if m in prev {
        var i :| 0 <= i < |prefix| && prefix[i].member == m && CountsHolding(prefix[i], invs, rev, asOf);
        assert hs[i] == prefix[i];
      }
      if exists i :: 0 <= i < |hs| && hs[i].member == m && CountsHolding(hs[i], invs, rev, asOf) {
        var i :| 0 <= i < |hs| && hs[i].member == m && CountsHolding(hs[i], invs, rev, asOf);
        if i < n {
          assert prefix[i] == hs[i];
        }
      }
    }
  }

  /** One more row keeps every entry the value of its member's counted shares. */
  lemma HoldingValueEntriesStep(prefix: seq<HoldingShare>, h: HoldingShare, invs: seq<Investment>, rev: set<RecordId>, asOf: Date)
    requires forall m :: m in HoldingValues(prefix, invs, rev, asOf) <==>
      exists i :: 0 <= i < |prefix| && prefix[i].member == m && CountsHolding(prefix[i], invs, rev, asOf)
    requires forall m :: m in HoldingValues(prefix, invs, rev, asOf) ==>
      HoldingValues(prefix, invs, rev, asOf)[m] == MemberHoldingValue(prefix, invs, rev, m, asOf)
    ensures var hs := prefix + [h];
      forall m :: m in HoldingValues(hs, invs, rev, asOf) ==>
        HoldingValues(hs, invs, rev, asOf)[m] == MemberHoldingValue(hs, invs, rev, m, asOf)
  {
    var hs := prefix + [h];
    assert hs[..|prefix|] == prefix;
    var prev := HoldingValues(prefix, invs, rev, asOf);
    var cur := HoldingValues(hs, invs, rev, asOf);
    forall m | m in cur ensures cur[m] == MemberHoldingValue(hs, invs, rev, m, asOf) {
      SumFilterAppend(prefix, h, HoldingFilter(invs, rev, m, asOf), HoldingWorth(invs));
      if m !in prev {
        assert forall i :: 0 <= i < |prefix| ==> !HoldingFilter(invs, rev, m, asOf)(prefix[i]);
        FilterNone(prefix, HoldingFilter(invs, rev, m, asOf));
      }
    }
  }

  /**
   * `_holding_value_per_member_as_of`: the accumulation loop over the joined, non-reversed
   * holding shares of investments dated on or before `asOf`.
   */
  method HoldingValuePerMember(hs: seq<HoldingShare>, invs: seq<Investment>, rev: set<RecordId>, asOf: Date) returns (result: map<MemberId, real>)
    ensures result == HoldingValues(hs, invs, rev, asOf)
  {
    result := map[];
    for i := 0 to |hs|
      invariant result == HoldingValues(hs[..i], invs, rev, asOf)
    {
      assert hs[..i + 1][..i] == hs[..i];
      var h := hs[i];
      assert hs[..i + 1][i] == h;
      var inv := FindInvestment(invs, h.investment);
      if h.id !in rev && inv.Some? && inv.value.recordedAt <= asOf {
        var value := h.units * inv.value.unitValue;
        assert value == HoldingWorth(invs)(h);
        result := result[h.member := (if h.member in result then result[h.member] else 0.0) + value];
      }
    }
    assert hs[..|hs|] == hs;
  }

  /** Units and unit values that are all positive give positive holding values. */
  lemma {:induction false} HoldingValuesPositive(hs: seq<HoldingShare>, invs: seq<Investment>, rev: set<RecordId>, asOf: Date)
    requires forall i :: 0 <= i < |hs| ==> hs[i].units > 0.0
    requires forall j :: 0 <= j < |invs| ==> invs[j].unitValue > 0.0
    ensures forall m :: m in HoldingValues(hs, invs, rev, asOf) ==> HoldingValues(hs, invs, rev, asOf)[m] > 0.0
  {
    if hs != [] {
      var n := |hs| - 1;
      var h := hs[n];
      HoldingValuesPositive(hs[..n], invs, rev, asOf);
      var inv := FindInvestment(invs, h.investment);
      if CountsHolding(h, invs, rev, asOf) {
        ProductPositive(h.units, inv.value.unitValue);
      }
    }
  }

  lemma ProductPositive(a: real, b: real)
    requires a > 0.0 && b > 0.0
    ensures a * b > 0.0
  {
  }

  /** A member's percentage of the asset: their value over the total, times 100. */
  function Percentages(hv: map<MemberId, real>, total: real): (pct: map<MemberId, real>)
    requires total > 0.0
    ensures pct.Keys == hv.Keys
  {
    map m | m in hv :: (hv[m] / total) * 100.0
  }

  function ShareMember(a: AssetShare): MemberId { a.member }

  function SharePercentage(a: AssetShare): real { a.sharePercentage }

  /**
   * `created` is the split of asset `assetId` by the holding values `hv` with total `total`:
   * one share per member with a positive value, of percentage value / total * 100, keys
   * numbered from `firstId`, and no share for anyone else.
   */
  ghost predicate IsAssetAllocation(created: seq<AssetShare>, hv: map<MemberId, real>, total: real, assetId: RecordId, firstId: RecordId)
  {
    && total > 0.0
    && (forall i :: 0 <= i < |created| ==>
          && created[i].id == firstId + i
          && created[i].asset == assetId
          && created[i].member in PositiveKeys(hv)
          && created[i].sharePercentage == Percentages(hv, total)[created[i].member])
    && (forall i, j :: 0 <= i < j < |created| ==> created[i].member != created[j].member)
    && (forall m :: m in PositiveKeys(hv) ==> exists i :: 0 <= i < |created| && created[i].member == m)
  }

  /** The loop creating the asset shares: members are visited in the dictionary's (arbitrary) order. */
  method AllocateAssetShares(hv: map<MemberId, real>, total: real, assetId: RecordId, firstId: RecordId) returns (created: seq<AssetShare>)
    requires total > 0.0
    ensures IsAssetAllocation(created, hv, total, assetId, firstId)
  {
    created := [];
    var pending := hv.Keys;
    while pending != {}
      invariant pending <= hv.Keys
      invariant forall i :: 0 <= i < |created| ==>
        && created[i].id == firstId + i
        && created[i].asset == assetId
        && created[i].member in PositiveKeys(hv)
        && created[i].member !in pending
        && created[i].sharePercentage == Percentages(hv, total)[created[i].member]
      invariant forall i, j :: 0 <= i < j < |created| ==> created[i].member != created[j].member
      invariant forall m :: m in PositiveKeys(hv) && m !in pending ==> exists i :: 0 <= i < |created| && created[i].member == m
      decreases pending
    {
      var m :| m in pending;
      var value := hv[m];
      if value > 0.0 {
        var sharePct := (value / total) * 100.0;
        var prev := created;
        created := created + [AssetShare(firstId + |created|, assetId, m, sharePct)];
        forall m' | m' in PositiveKeys(hv) && m' !in pending - {m}
          ensures exists i :: 0 <= i < |created| && created[i].member == m'
        {
          if m' == m {
            assert created[|prev|].member == m';
          } else {
            var i :| 0 <= i < |prev| && prev[i].member == m';
            assert created[i].member == m';
          }
        }
      }
      pending := pending - {m};
    }
  }

  lemma PercentAdds(a: real, b: real, t: real)
    requires t > 0.0
    ensures (a / t) * 100.0 + (b / t) * 100.0 == ((a + b) / t) * 100.0
  {
  }

  /** Summing percentages is summing the values and converting the sum. */
  lemma {:induction false} SumOverPercentages(hv: map<MemberId, real>, total: real, k: set<MemberId>)
    requires total > 0.0 && k <= hv.Keys
    ensures SumOver(Percentages(hv, total), k) == (SumOver(hv, k) / total) * 100.0
    decreases k
  {
    if k != {} {
      var p := Pick(k);
      SumOverPercentages(hv, total, k - {p});
      PercentAdds(hv[p], SumOver(hv, k - {p}), total);
    }
  }

  lemma PercentOfWhole(a: real, t: real)
    requires t > 0.0
    ensures (a / t) * 100.0 == 100.0 <==> a == t
  {
    if (a / t) * 100.0 == 100.0 {
      assert a / t == 1.0;
      assert a == (a / t) * t;
    }
  }

  lemma PercentInRange(a: real, t: real)
    requires t > 0.0 && 0.0 < a <= t
    ensures 0.0 < (a / t) * 100.0 <= 100.0
  {
    assert a / t <= 1.0 by {
      assert a / t * t == a;
    }
  }

  /**
   * The percentages of an allocation by the full holdings total add up to 100 exactly when no
   * member's holding value is negative, and each of them is then in (0, 100].
   */
  lemma SharesSumToHundred(created: seq<AssetShare>, hv: map<MemberId, real>, assetId: RecordId, firstId: RecordId)
    requires MapSum(hv) > 0.0
    requires IsAssetAllocation(created, hv, MapSum(hv), assetId, firstId)
    ensures SumBy(created, SharePercentage) == 100.0 <==> forall m :: m in hv ==> hv[m] >= 0.0
    ensures (forall m :: m in hv ==> hv[m] >= 0.0) ==>
      forall i :: 0 <= i < |created| ==> 0.0 < created[i].sharePercentage <= 100.0
  {
    var total := MapSum(hv);
    var pct := Percentages(hv, total);
    SumCovering(created, ShareMember, SharePercentage, pct, PositiveKeys(hv));
    SumOverPercentages(hv, total, PositiveKeys(hv));
    PositivePartOfSum(hv);
    PercentOfWhole(SumOver(hv, PositiveKeys(hv)), total);
    if forall m :: m in hv ==> hv[m] >= 0.0 {
      forall i | 0 <= i < |created| ensures 0.0 < created[i].sharePercentage <= 100.0 {
        var m := created[i].member;
        SumOverBoundsEach(hv, hv.Keys, m);
        PercentInRange(hv[m], total);
      }
    }
  }

  /** One share per member with a positive holding value. */
  lemma AssetAllocationCount(created: seq<AssetShare>, hv: map<MemberId, real>, total: real, assetId: RecordId, firstId: RecordId)
    requires IsAssetAllocation(created, hv, total, assetId, firstId)
    ensures |created| == |PositiveKeys(hv)|
  {
    DistinctOwnersCount(created, ShareMember, PositiveKeys(hv));
  }

  /** `Investment.objects.filter(pk=id).first()`, kept as a key: absent when no such investment exists. */
  function ResolvedSource(invs: seq<Investment>, id: Option<RecordId>): (r: Option<RecordId>)
    ensures r.Some? <==> id.Some? && exists j :: 0 <= j < |invs| && invs[j].id == id.value
    ensures r.Some? ==> r == id
  {
    if id.Some? && FindInvestment(invs, id.value).Some? then id else None
  }

  /** The holding values behind a conversion on `conversionAt`. */
  function ConversionValues(l: Ledger, conversionAt: Date): map<MemberId, real>
  {
    HoldingValues(l.holdingShares, l.investments, ReversedIds(l.reversals, HoldingShareRecord), conversionAt)
  }

  /**
   * The effect of `record_asset` with a non-negative purchase value: one asset appended, then,
   * when the holdings total is positive, the split of the asset among the members with a
   * positive holding value; nothing else changes. The source investment is stored as given
   * when nobody holds anything, and resolved against the investments otherwise.
   */
  ghost predicate AssetRecorded(before: Ledger, after: Ledger, name: string, purchaseValue: Money, conversionAt: Date, sourceInvestmentId: Option<RecordId>, asset: Asset)
  {
    var hv := ConversionValues(before, conversionAt);
    var total := MapSum(hv);
    var n := |before.assetShares|;
    && purchaseValue >= 0.0
    && asset == Asset(|before.assets| + 1, name, purchaseValue, conversionAt,
                      if total <= 0.0 then sourceInvestmentId else ResolvedSource(before.investments, sourceInvestmentId))
    && after == before.(assets := before.assets + [asset], assetShares := after.assetShares)
    && n <= |after.assetShares| && after.assetShares[..n] == before.assetShares
    && (if total <= 0.0 then |after.assetShares| == n
        else IsAssetAllocation(after.assetShares[n..], hv, total, asset.id, n + 1))
  }

  /** Appending the next asset keeps every table keyed by creation order. */
  lemma AssetKeepsKeys(before: Ledger, asset: Asset)
    requires WellKeyed(before) && asset.id == |before.assets| + 1
    ensures WellKeyed(before.(assets := before.assets + [asset]))
  {
    var assets := before.assets + [asset];
    assert forall i :: 0 <= i < |before.assets| ==> assets[i] == before.assets[i];
  }

  /** Appending an asset and its shares keeps every table keyed by creation order. */
  lemma AssetSharesKeepKeys(before: Ledger, asset: Asset, created: seq<AssetShare>, hv: map<MemberId, real>, total: real)
    requires WellKeyed(before) && asset.id == |before.assets| + 1
    requires IsAssetAllocation(created, hv, total, asset.id, |before.assetShares| + 1)
    ensures WellKeyed(before.(assets := before.assets + [asset], assetShares := before.assetShares + created))
  {
    AssetKeepsKeys(before, asset);
    var shares := before.assetShares + created;
    forall i | 0 <= i < |shares| ensures shares[i].id == i + 1 {
      if i >= |before.assetShares| {
        assert shares[i] == created[i - |before.assetShares|];
      }
    }
  }

  lemma NoSharesIsRecorded(before: Ledger, name: string, purchaseValue: Money, conversionAt: Date, sourceInvestmentId: Option<RecordId>, asset: Asset)
    requires && purchaseValue >= 0.0
             && MapSum(ConversionValues(before, conversionAt)) <= 0.0
             && asset == Asset(|before.assets| + 1, name, purchaseValue, conversionAt, sourceInvestmentId)
    ensures AssetRecorded(before, before.(assets := before.assets + [asset]), name, purchaseValue, conversionAt, sourceInvestmentId, asset)
  {
    assert before.assetShares[..|before.assetShares|] == before.assetShares;
  }

  lemma SharesAreRecorded(before: Ledger, name: string, purchaseValue: Money, conversionAt: Date, sourceInvestmentId: Option<RecordId>, asset: Asset, created: seq<AssetShare>)
    requires var hv := ConversionValues(before, conversionAt);
             && purchaseValue >= 0.0
             && MapSum(hv) > 0.0
             && asset == Asset(|before.assets| + 1, name, purchaseValue, conversionAt, ResolvedSource(before.investments, sourceInvestmentId))
             && IsAssetAllocation(created, hv, MapSum(hv), asset.id, |before.assetShares| + 1)
    ensures AssetRecorded(before, before.(assets := before.assets + [asset], assetShares := before.assetShares + created),
                          name, purchaseValue, conversionAt, sourceInvestmentId, asset)
  {
    var shares := before.assetShares + created;
    assert shares[..|before.assetShares|] == before.assetShares;
    assert shares[|before.assetShares|..] == created;
  }

  /**
   * What a recorded conversion guarantees about the new shares: one per member with positive
   * holdings, and percentages adding up to 100, each in (0, 100], when no holding value is negative.
   */
  lemma RecordedAssetSplitsWhole(before: Ledger, after: Ledger, name: string, purchaseValue: Money, conversionAt: Date, sourceInvestmentId: Option<RecordId>, asset: Asset)
    requires AssetRecorded(before, after, name, purchaseValue, conversionAt, sourceInvestmentId, asset)
    requires MapSum(ConversionValues(before, conversionAt)) > 0.0
    requires forall m :: m in ConversionValues(before, conversionAt) ==> ConversionValues(before, conversionAt)[m] >= 0.0
    ensures var created := after.assetShares[|before.assetShares|..];
            && |created| == |PositiveKeys(ConversionValues(before, conversionAt))|
            && SumBy(created, SharePercentage) == 100.0
            && forall i :: 0 <= i < |created| ==> 0.0 < created[i].sharePercentage <= 100.0
  {
    var hv := ConversionValues(before, conversionAt);
    var created := after.assetShares[|before.assetShares|..];
    SharesSumToHundred(created, hv, asset.id, |before.assetShares| + 1);
    AssetAllocationCount(created, hv, MapSum(hv), asset.id, |before.assetShares| + 1);
  }

  /**
   * Over holdings that are all positive (as the investment service creates them), a conversion
   * with any holdings splits the asset into percentages that add up to exactly 100.
   */
  lemma PositiveHoldingsSplitWhole(before: Ledger, after: Ledger, name: string, purchaseValue: Money, conversionAt: Date, sourceInvestmentId: Option<RecordId>, asset: Asset)
    requires AssetRecorded(before, after, name, purchaseValue, conversionAt, sourceInvestmentId, asset)
    requires PositiveHoldings(before)
    requires MapSum(ConversionValues(before, conversionAt)) > 0.0
    ensures SumBy(after.assetShares[|before.assetShares|..], SharePercentage) == 100.0
  {
    HoldingValuesPositive(before.holdingShares, before.investments, ReversedIds(before.reversals, HoldingShareRecord), conversionAt);
    RecordedAssetSplitsWhole(before, after, name, purchaseValue, conversionAt, sourceInvestmentId, asset);
  }

  /**
   * `record_asset`: rejects a negative purchase value before any write; otherwise records the
   * asset and, when the holdings total at the conversion day is positive, its shares.
   */
  method RecordAsset(store: Store, name: string, purchaseValue: Money, conversionAt: Date, sourceInvestmentId: Option<RecordId>) returns (r: Result<Asset, ServiceError>)
    requires store.Valid()
    modifies store
    ensures store.Valid()
    ensures purchaseValue < 0.0 ==> r == Err(NegativePurchaseValue) && store.Snapshot() == old(store.Snapshot())
    ensures purchaseValue >= 0.0 ==> r.Ok? && AssetRecorded(old(store.Snapshot()), store.Snapshot(), name, purchaseValue, conversionAt, sourceInvestmentId, r.value)
  {
    if purchaseValue < 0.0 {
      return Err(NegativePurchaseValue);
    }
    ghost var before := store.Snapshot();
    var holdingValues := HoldingValuePerMember(store.holdingShares, store.investments, ReversedIds(store.reversals, HoldingShareRecord), conversionAt);
    var totalValue := SumValues(holdingValues);
    var id := |store.assets| + 1;
    if totalValue <= 0.0 {
      var asset := Asset(id, name, purchaseValue, conversionAt, sourceInvestmentId);
      AssetKeepsKeys(before, asset);
      NoSharesIsRecorded(before, name, purchaseValue, conversionAt, sourceInvestmentId, asset);
      store.assets := store.assets + [asset];
      assert store.Snapshot() == before.(assets := before.assets + [asset]);
      return Ok(asset);
    }
    var source := ResolvedSource(store.investments, sourceInvestmentId);
    var asset := Asset(id, name, purchaseValue, conversionAt, source);
    var created := AllocateAssetShares(holdingValues, totalValue, id, |store.assetShares| + 1);
    AssetSharesKeepKeys(before, asset, created, holdingValues, totalValue);
    SharesAreRecorded(before, name, purchaseValue, conversionAt, sourceInvestmentId, asset, created);
    store.assets := store.assets + [asset];
    store.assetShares := store.assetShares + created;
    assert store.Snapshot() == before.(assets := before.assets + [asset], assetShares := before.assetShares + created);
    r := Ok(asset);
  }
}

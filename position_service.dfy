/**
 * The read views of the ledger: a member's position and the group aggregates
 * (common/services/position_service.py).
 */
module PositionService {
  import opened Wrappers
  import opened Basics
  import opened Seqs
  import opened Records
  import opened Reversals
  import opened Totals
  import opened MapSums
  import ExitService

  /** The fixed notice every position carries. */
  const SourceOfTruthDisclaimer: string := "External bank and investment records are the ultimate source of truth in disputes."

  /** One holding share as the position reports it, with its investment's price and day. */
  datatype HoldingEntry = HoldingEntry(investmentId: RecordId, units: Money, unitValue: Money, recordedAt: Date)

  /** One asset share as the position reports it, with the asset's purchase value. */
  datatype AssetEntry = AssetEntry(assetId: RecordId, sharePercentage: Money, recordedPurchaseValue: Money)

  /** The member's latest exit request, as the position reports it. */
  datatype ExitSummary = ExitSummary(status: ExitRequestStatus, queuePosition: nat, amountEntitled: Money)

  /** `get_member_position`. */
  datatype Position = Position(
    contributionsTotal: Money,
    penaltiesTotal: Money,
    holdings: seq<HoldingEntry>,
    assets: seq<AssetEntry>,
    exitRequest: Option<ExitSummary>,
    disclaimer: string)

  /** `get_group_aggregates`. */
  datatype GroupAggregates = GroupAggregates(totalMembers: nat, totalPool: Money)

  /** The breakdown row of a holding share of member `m` that is not reversed; none for other shares. */
  function HoldingEntryOf(invs: seq<Investment>, rev: set<RecordId>, m: MemberId): HoldingShare -> Option<HoldingEntry>
  {
    (h: HoldingShare) =>
      if h.member == m && h.id !in rev then
        match FindInvestment(invs, h.investment)
        case Some(inv) => Some(HoldingEntry(h.investment, h.units, inv.unitValue, inv.recordedAt))
        case None => None
      else None
  }

  /** The breakdown row of an asset share of member `m` that is not reversed; none for other shares. */
  function AssetEntryOf(assets: seq<Asset>, rev: set<RecordId>, m: MemberId): AssetShare -> Option<AssetEntry>
  {
    (a: AssetShare) =>
      if a.member == m && a.id !in rev then
        match FindAsset(assets, a.asset)
        case Some(asset) => Some(AssetEntry(a.asset, a.sharePercentage, asset.recordedPurchaseValue))
        case None => None
      else None
  }

  /** The shares of a member's breakdown, newest first (the tables are ordered by `-created_at`). */
  function HoldingsBreakdown(l: Ledger, m: MemberId): seq<HoldingEntry>
  {
    Reversed(FilterMap(l.holdingShares, HoldingEntryOf(l.investments, ReversedIds(l.reversals, HoldingShareRecord), m)))
  }

  function AssetsBreakdown(l: Ledger, m: MemberId): seq<AssetEntry>
  {
    Reversed(FilterMap(l.assetShares, AssetEntryOf(l.assets, ReversedIds(l.reversals, AssetShareRecord), m)))
  }

  /**
   * The member's non-reversed exit request with the latest request time, or none. Among requests
   * made at the same instant the earliest row is kept.
   */
  function LatestExitRequest(ers: seq<ExitRequest>, rev: set<RecordId>, m: MemberId): (latest: Option<ExitRequest>)
    ensures latest.Some? ==>
      && latest.value in ers && latest.value.member == m && latest.value.id !in rev
      && forall i :: 0 <= i < |ers| && ers[i].member == m && ers[i].id !in rev ==> ers[i].requestedAt <= latest.value.requestedAt
    ensures latest.None? <==> forall i :: 0 <= i < |ers| ==> !(ers[i].member == m && ers[i].id !in rev)
  {
    if ers == [] then None
    else
      var n := |ers| - 1;
      var prev := LatestExitRequest(ers[..n], rev, m);
      assert forall i :: 0 <= i < n ==> ers[..n][i] == ers[i];
      var r := ers[n];
      if r.member == m && r.id !in rev && (prev.None? || r.requestedAt > prev.value.requestedAt) then Some(r) else prev
  }

  function Summary(r: ExitRequest): ExitSummary
  {
    ExitSummary(r.status, r.queuePosition, r.amountEntitled)
  }

  /** `get_member_position`: all-time totals, the breakdowns, the latest exit request and the notice. */
  function MemberPosition(l: Ledger, m: MemberId): (p: Position)
    ensures p.disclaimer == SourceOfTruthDisclaimer
  {
    var latest := LatestExitRequest(l.exitRequests, ReversedIds(l.reversals, ExitRequestRecord), m);
    Position(
      ContributionTotal(l.contributions, ReversedIds(l.reversals, ContributionRecord), m, None),
      PenaltyTotal(l.penalties, ReversedIds(l.reversals, PenaltyRecord), m, None),
      HoldingsBreakdown(l, m),
      AssetsBreakdown(l, m),
      if latest.Some? then Some(Summary(latest.value)) else None,
      SourceOfTruthDisclaimer)
  }

  /** The entitlement an exit request would snapshot is the position's net total floored at zero. */
  lemma EntitlementFromPosition(l: Ledger, m: MemberId)
    ensures var p := MemberPosition(l, m);
            ExitService.Entitlement(l, m) == if p.contributionsTotal - p.penaltiesTotal > 0.0 then p.contributionsTotal - p.penaltiesTotal else 0.0
  {
  }

  /** A member without non-reversed contributions or penalties has totals of zero. */
  lemma TotalsWithoutRecordsAreZero(l: Ledger, m: MemberId)
    requires forall i :: 0 <= i < |l.contributions| ==> !CountsContribution(l.contributions[i], ReversedIds(l.reversals, ContributionRecord), m, None)
    requires forall j :: 0 <= j < |l.penalties| ==> !CountsPenalty(l.penalties[j], ReversedIds(l.reversals, PenaltyRecord), m, None)
    ensures MemberPosition(l, m).contributionsTotal == 0.0 && MemberPosition(l, m).penaltiesTotal == 0.0
  {
    FilterNone(l.contributions, ContributionFilter(ReversedIds(l.reversals, ContributionRecord), m, None));
    FilterNone(l.penalties, PenaltyFilter(ReversedIds(l.reversals, PenaltyRecord), m, None));
  }

  /**
   * The holdings breakdown has exactly one row per non-reversed holding share of the member
   * (whose investment exists), carrying its units and its investment's price and day, newest first.
   */
  lemma HoldingsBreakdownIsPerShare(l: Ledger, m: MemberId) returns (src: seq<nat>)
    ensures var b := MemberPosition(l, m).holdings;
            var f := HoldingEntryOf(l.investments, ReversedIds(l.reversals, HoldingShareRecord), m);
            && |src| == |b|
            && (forall i :: 0 <= i < |src| ==> src[i] < |l.holdingShares| && f(l.holdingShares[src[i]]) == Some(b[i]))
            && (forall i, j :: 0 <= i < j < |src| ==> src[i] > src[j])
            && (forall k :: 0 <= k < |l.holdingShares| && f(l.holdingShares[k]).Some? ==> k in src)
  {
    var f := HoldingEntryOf(l.investments, ReversedIds(l.reversals, HoldingShareRecord), m);
    var fwd := FilterMapSources(l.holdingShares, f);
    src := Reversed(fwd);
    forall k | 0 <= k < |l.holdingShares| && f(l.holdingShares[k]).Some? ensures k in src {
      var i :| 0 <= i < |fwd| && fwd[i] == k;
      assert src[|fwd| - 1 - i] == k;
    }
  }

  /**
   * The assets breakdown has exactly one row per non-reversed asset share of the member (whose
   * asset exists), carrying its percentage and the asset's purchase value, newest first.
   */
  lemma AssetsBreakdownIsPerShare(l: Ledger, m: MemberId) returns (src: seq<nat>)
    ensures var b := MemberPosition(l, m).assets;
            var f := AssetEntryOf(l.assets, ReversedIds(l.reversals, AssetShareRecord), m);
            && |src| == |b|
            && (forall i :: 0 <= i < |src| ==> src[i] < |l.assetShares| && f(l.assetShares[src[i]]) == Some(b[i]))
            && (forall i, j :: 0 <= i < j < |src| ==> src[i] > src[j])
            && (forall k :: 0 <= k < |l.assetShares| && f(l.assetShares[k]).Some? ==> k in src)
  {
    var f := AssetEntryOf(l.assets, ReversedIds(l.reversals, AssetShareRecord), m);
    var fwd := FilterMapSources(l.assetShares, f);
    src := Reversed(fwd);
    forall k | 0 <= k < |l.assetShares| && f(l.assetShares[k]).Some? ensures k in src {
      var i :| 0 <= i < |fwd| && fwd[i] == k;
      assert src[|fwd| - 1 - i] == k;
    }
  }

  /**
   * Reversing a holding share changes only the holdings breakdown: totals, asset shares already
   * created, the exit request and the notice stay as they were.
   */
  lemma HoldingReversalOnlyAffectsHoldings(l: Ledger, r: Reversal, m: MemberId)
    requires r.originalRecordType == HoldingShareRecord
    ensures var before, after := MemberPosition(l, m), MemberPosition(l.(reversals := l.reversals + [r]), m);
            after == before.(holdings := after.holdings)
  {
    ReversalKeepsOtherTypes(l.reversals, r, ContributionRecord);
    ReversalKeepsOtherTypes(l.reversals, r, PenaltyRecord);
    ReversalKeepsOtherTypes(l.reversals, r, AssetShareRecord);
    ReversalKeepsOtherTypes(l.reversals, r, ExitRequestRecord);
  }

  /** `get_group_aggregates`: every member whatever the status, and the pool of all non-reversed contributions. */
  function GroupAggregatesOf(l: Ledger): (g: GroupAggregates)
    ensures g.totalMembers == |l.members|
  {
    GroupAggregates(|l.members|, PoolTotal(l.contributions, ReversedIds(l.reversals, ContributionRecord)))
  }

  /** Members with a non-reversed contribution. */
  function AllTimeContributors(cs: seq<Contribution>, rev: set<RecordId>): (ms: set<MemberId>)
    ensures forall m :: m in ms <==> exists i :: 0 <= i < |cs| && cs[i].member == m && cs[i].id !in rev
  {
    set i | 0 <= i < |cs| && cs[i].id !in rev :: cs[i].member
  }

  /** Each contributor's all-time contribution total. */
  function MemberTotals(cs: seq<Contribution>, rev: set<RecordId>): (e: map<MemberId, Money>)
    ensures e.Keys == AllTimeContributors(cs, rev)
    ensures forall m :: m in e ==> e[m] == ContributionTotal(cs, rev, m, None)
  {
    map m | m in AllTimeContributors(cs, rev) :: ContributionTotal(cs, rev, m, None)
  }

  /**
   * The group pool is the sum of the members' contribution totals; penalties are not subtracted
   * from it.
   */
  lemma {:induction false} PoolIsSumOfMemberTotals(cs: seq<Contribution>, rev: set<RecordId>)
    ensures PoolTotal(cs, rev) == MapSum(MemberTotals(cs, rev))
  {
    if cs != [] {
      var n := |cs| - 1;
      var prefix := cs[..n];
      var c := cs[n];
      assert cs == prefix + [c];
      PoolIsSumOfMemberTotals(prefix, rev);
      PoolTotalAppend(prefix, c, rev);
      MemberTotalsAppend(prefix, c, rev);
    }
  }

  /**
   * The pool `get_group_aggregates` reports is the sum, over the members with a non-reversed
   * contribution, of the contributions total each member's position shows.
   */
  lemma GroupPoolIsSumOfPositions(l: Ledger)
    ensures var rev := ReversedIds(l.reversals, ContributionRecord);
            GroupAggregatesOf(l).totalPool ==
              MapSum(map m | m in AllTimeContributors(l.contributions, rev) :: MemberPosition(l, m).contributionsTotal)
  {
    var rev := ReversedIds(l.reversals, ContributionRecord);
    var shown := map m | m in AllTimeContributors(l.contributions, rev) :: MemberPosition(l, m).contributionsTotal;
    var totals := MemberTotals(l.contributions, rev);
    forall m | m in shown ensures shown[m] == totals[m] {
      PositionContributionsTotal(l, m);
    }
    MapsAgree(shown, totals);
    PoolIsSumOfMemberTotals(l.contributions, rev);
  }

  lemma PositionContributionsTotal(l: Ledger, m: MemberId)
    ensures MemberPosition(l, m).contributionsTotal == ContributionTotal(l.contributions, ReversedIds(l.reversals, ContributionRecord), m, None)
  {
  }

  /** Appending one contribution moves the sum of member totals exactly as it moves the pool. */
  lemma MemberTotalsAppend(cs: seq<Contribution>, c: Contribution, rev: set<RecordId>)
    ensures MapSum(MemberTotals(cs + [c], rev)) == MapSum(MemberTotals(cs, rev)) + if c.id !in rev then c.amount else 0.0
  {
    var e, e' := MemberTotals(cs, rev), MemberTotals(cs + [c], rev);
    AllTimeContributorsAppend(cs, c, rev);
    forall x | x in e' {
      MemberTotalAt(cs, c, rev, x);
    }
    if c.id in rev {
      SumOverAgree(e', e, e.Keys);
    } else {
      MapSumBump(e, e', c.member, c.amount);
    }
  }

  /** One appended contribution adds its amount to its member's entry and to no other. */
  lemma MemberTotalAt(cs: seq<Contribution>, c: Contribution, rev: set<RecordId>, x: MemberId)
    requires x in MemberTotals(cs + [c], rev)
    ensures var e := MemberTotals(cs, rev);
            MemberTotals(cs + [c], rev)[x] == (if x in e then e[x] else 0.0) + if c.id !in rev && x == c.member then c.amount else 0.0
  {
    ContributionTotalAppend(cs, c, rev, x, None);
    if x !in AllTimeContributors(cs, rev) {
      NonContributorTotal(cs, rev, x);
    }
  }

  lemma AllTimeContributorsAppend(cs: seq<Contribution>, c: Contribution, rev: set<RecordId>)
    ensures AllTimeContributors(cs + [c], rev) == if c.id in rev then AllTimeContributors(cs, rev) else AllTimeContributors(cs, rev) + {c.member}
  {
    var cs' := cs + [c];
    assert forall i :: 0 <= i < |cs| ==> cs'[i] == cs[i];
    assert cs'[|cs|] == c;
  }

  /** A member without a non-reversed contribution has an all-time total of zero. */
  lemma NonContributorTotal(cs: seq<Contribution>, rev: set<RecordId>, m: MemberId)
    requires m !in AllTimeContributors(cs, rev)
    ensures ContributionTotal(cs, rev, m, None) == 0.0
  {
    FilterNone(cs, ContributionFilter(rev, m, None));
  }
}

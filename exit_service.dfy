/**
 * The exit queue: the entitlement snapshot, first-in first-out queue positions and the single
 * queued-to-fulfilled transition (common/services/exit_service.py).
 */
module ExitService {
  import opened Wrappers
  import opened Basics
  import opened Seqs
  import opened Records
  import opened Reversals
  import opened Totals
  import opened LedgerStore
  import InvestmentService

  /** The member's non-reversed contributions minus non-reversed penalties over all time. */
  function NetContributions(l: Ledger, m: MemberId): Money
  {
    ContributionTotal(l.contributions, ReversedIds(l.reversals, ContributionRecord), m, None)
      - PenaltyTotal(l.penalties, ReversedIds(l.reversals, PenaltyRecord), m, None)
  }

  /** `_member_entitlement`: the net contributions, floored at zero. */
  function Entitlement(l: Ledger, m: MemberId): (r: Money)
    ensures r >= 0.0 && r >= NetContributions(l, m)
    ensures r == 0.0 || r == NetContributions(l, m)
  {
    var net := NetContributions(l, m);
    if net > 0.0 then net else 0.0
  }

  /** With no upper bound every record is within the bound of a day after all of them. */
  lemma UnboundedContributionTotal(cs: seq<Contribution>, rev: set<RecordId>, m: MemberId, d: Date)
    requires forall i :: 0 <= i < |cs| ==> DateOf(cs[i].recordedAt) <= d
    ensures ContributionTotal(cs, rev, m, None) == ContributionTotal(cs, rev, m, Some(d))
  {
    FilterCongruent(cs, ContributionFilter(rev, m, None), ContributionFilter(rev, m, Some(d)));
  }

  lemma UnboundedPenaltyTotal(ps: seq<Penalty>, rev: set<RecordId>, m: MemberId, d: Date)
    requires forall j :: 0 <= j < |ps| ==> DateOf(ps[j].recordedAt) <= d
    ensures PenaltyTotal(ps, rev, m, None) == PenaltyTotal(ps, rev, m, Some(d))
  {
    FilterCongruent(ps, PenaltyFilter(rev, m, None), PenaltyFilter(rev, m, Some(d)));
  }

  /**
   * Once every contribution and penalty is dated on or before `d`, the exit entitlement is the
   * eligible savings as of `d` floored at zero, and zero for a member with no eligible savings.
   */
  lemma EntitlementIsFlooredEligibility(l: Ledger, m: MemberId, d: Date)
    requires forall i :: 0 <= i < |l.contributions| ==> DateOf(l.contributions[i].recordedAt) <= d
    requires forall j :: 0 <= j < |l.penalties| ==> DateOf(l.penalties[j].recordedAt) <= d
    ensures var e := InvestmentService.EligibleSavings(l.contributions, l.penalties, l.reversals, d);
            Entitlement(l, m) == if m in e && e[m] > 0.0 then e[m] else 0.0
  {
    var revC := ReversedIds(l.reversals, ContributionRecord);
    var revP := ReversedIds(l.reversals, PenaltyRecord);
    UnboundedContributionTotal(l.contributions, revC, m, d);
    UnboundedPenaltyTotal(l.penalties, revP, m, d);
    var e := InvestmentService.EligibleSavings(l.contributions, l.penalties, l.reversals, d);
    if m !in e {
      NoRecordsNoTotal(l, m, d);
    }
  }

  /** A member with no counted record as of `d` has zero totals as of `d`. */
  lemma NoRecordsNoTotal(l: Ledger, m: MemberId, d: Date)
    requires m !in InvestmentService.EligibleSavings(l.contributions, l.penalties, l.reversals, d)
    ensures ContributionTotal(l.contributions, ReversedIds(l.reversals, ContributionRecord), m, Some(d)) == 0.0
    ensures PenaltyTotal(l.penalties, ReversedIds(l.reversals, PenaltyRecord), m, Some(d)) == 0.0
  {
    var revC := ReversedIds(l.reversals, ContributionRecord);
    var revP := ReversedIds(l.reversals, PenaltyRecord);
    assert m !in InvestmentService.Contributors(l.contributions, revC, d);
    assert m !in InvestmentService.Penalized(l.penalties, revP, d);
    FilterNone(l.contributions, ContributionFilter(revC, m, Some(d)));
    FilterNone(l.penalties, PenaltyFilter(revP, m, Some(d)));
  }

  /** A queued request that has not been reversed: the rows the next position is computed from. */
  predicate InQueue(r: ExitRequest, rev: set<RecordId>)
  {
    r.status == Queued && r.id !in rev
  }

  /** `Max("queue_position")` over the queued, non-reversed requests, or 0 when there are none. */
  function MaxQueuedPosition(ers: seq<ExitRequest>, rev: set<RecordId>): (mx: nat)
    ensures forall i :: 0 <= i < |ers| && InQueue(ers[i], rev) ==> ers[i].queuePosition <= mx
    ensures mx == 0 || exists i :: 0 <= i < |ers| && InQueue(ers[i], rev) && ers[i].queuePosition == mx
  {
    if ers == [] then 0
    else
      var n := |ers| - 1;
      var prev := MaxQueuedPosition(ers[..n], rev);
      assert forall i :: 0 <= i < n ==> ers[..n][i] == ers[i];
      if InQueue(ers[n], rev) && ers[n].queuePosition > prev then ers[n].queuePosition else prev
  }

  /** The position a new request takes: one past the last queued one. */
  function NextQueuePosition(ers: seq<ExitRequest>, rev: set<RecordId>): (p: nat)
    ensures p >= 1
  {
    MaxQueuedPosition(ers, rev) + 1
  }

  /**
   * The next position is behind every queued, non-reversed request, and is 1 when the queue has
   * none; fulfilled and reversed requests are not in the way.
   */
  lemma NextPositionIsBehindQueue(ers: seq<ExitRequest>, rev: set<RecordId>)
    ensures forall i :: 0 <= i < |ers| && InQueue(ers[i], rev) ==> ers[i].queuePosition < NextQueuePosition(ers, rev)
    ensures NextQueuePosition(ers, rev) == 1 <==> forall i :: 0 <= i < |ers| && InQueue(ers[i], rev) ==> ers[i].queuePosition == 0
    ensures NextQueuePosition(ers, rev) > 1 ==> exists i :: 0 <= i < |ers| && InQueue(ers[i], rev) && ers[i].queuePosition == NextQueuePosition(ers, rev) - 1
  {
  }

  /** Appending a request in the queue raises the maximum to at least its position. */
  lemma MaxQueuedAppend(ers: seq<ExitRequest>, rev: set<RecordId>, r: ExitRequest)
    ensures MaxQueuedPosition(ers + [r], rev) ==
      if InQueue(r, rev) && r.queuePosition > MaxQueuedPosition(ers, rev) then r.queuePosition else MaxQueuedPosition(ers, rev)
  {
    assert (ers + [r])[..|ers|] == ers;
  }

  /** The request `create_exit_request` appends for member `m` at time `now`. */
  function NewExitRequest(l: Ledger, m: MemberId, now: Timestamp): ExitRequest
  {
    ExitRequest(|l.exitRequests| + 1, m, now,
                NextQueuePosition(l.exitRequests, ReversedIds(l.reversals, ExitRequestRecord)),
                Queued, None, Entitlement(l, m))
  }

  /** The ledger after a request is created. */
  function WithExitRequest(l: Ledger, m: MemberId, now: Timestamp): (after: Ledger)
    ensures |after.exitRequests| == |l.exitRequests| + 1
    ensures after.exitRequests[..|l.exitRequests|] == l.exitRequests
    ensures after == l.(exitRequests := after.exitRequests)
  {
    l.(exitRequests := l.exitRequests + [NewExitRequest(l, m, now)])
  }

  /**
   * A created request is queued, unfulfilled and keyed next, snapshots the member's
   * entitlement at the time, and sits behind every request queued before it.
   */
  lemma CreatedRequestIsQueued(l: Ledger, m: MemberId, now: Timestamp)
    ensures var after := WithExitRequest(l, m, now);
            var r := after.exitRequests[|l.exitRequests|];
            && |after.exitRequests| == |l.exitRequests| + 1
            && r.id == |l.exitRequests| + 1 && r.member == m && r.requestedAt == now
            && r.status == Queued && r.fulfilledAt.None?
            && r.amountEntitled == Entitlement(l, m) && r.amountEntitled >= 0.0
            && forall i :: 0 <= i < |l.exitRequests| && InQueue(l.exitRequests[i], ReversedIds(l.reversals, ExitRequestRecord)) ==>
                 l.exitRequests[i].queuePosition < r.queuePosition
  {
    NextPositionIsBehindQueue(l.exitRequests, ReversedIds(l.reversals, ExitRequestRecord));
  }

  /** Requests created back to back, one per member in `ms`, all at time `now`. */
  function CreateAll(l: Ledger, ms: seq<MemberId>, now: Timestamp): (after: Ledger)
    ensures |after.exitRequests| == |l.exitRequests| + |ms|
    ensures after.reversals == l.reversals
    decreases |ms|
  {
    if ms == [] then l
    else CreateAll(WithExitRequest(l, ms[0], now), ms[1..], now)
  }

  /**
   * Starting from a queue whose highest queued position is `k` (0 for an empty queue), and with no
   * reversal naming the new requests, `N` creations without a fulfilment in between take the
   * positions k+1 .. k+N in order.
   */
  lemma {:induction false} CreationsTakeConsecutivePositions(l: Ledger, ms: seq<MemberId>, now: Timestamp, k: nat)
    requires MaxQueuedPosition(l.exitRequests, ReversedIds(l.reversals, ExitRequestRecord)) == k
    requires forall id :: |l.exitRequests| < id <= |l.exitRequests| + |ms| ==> id !in ReversedIds(l.reversals, ExitRequestRecord)
    ensures MaxQueuedPosition(CreateAll(l, ms, now).exitRequests, ReversedIds(l.reversals, ExitRequestRecord)) == k + |ms|
    ensures forall i :: |l.exitRequests| <= i < |l.exitRequests| + |ms| ==>
      CreateAll(l, ms, now).exitRequests[i].queuePosition == k + (i - |l.exitRequests|) + 1
    decreases |ms|
  {
    if ms != [] {
      var n := |l.exitRequests|;
      var rev := ReversedIds(l.reversals, ExitRequestRecord);
      var next := WithExitRequest(l, ms[0], now);
      var r := NewExitRequest(l, ms[0], now);
      assert next.exitRequests == l.exitRequests + [r];
      assert r.id !in rev;
      MaxQueuedAppend(l.exitRequests, rev, r);
      assert MaxQueuedPosition(next.exitRequests, rev) == k + 1;
      CreationsTakeConsecutivePositions(next, ms[1..], now, k + 1);
      CreateAllKeepsPrefix(next, ms[1..], now);
      assert next.exitRequests[n] == r;
    }
  }

  /** Later creations leave earlier requests untouched. */
  lemma {:induction false} CreateAllKeepsPrefix(l: Ledger, ms: seq<MemberId>, now: Timestamp)
    ensures forall i :: 0 <= i < |l.exitRequests| ==> CreateAll(l, ms, now).exitRequests[i] == l.exitRequests[i]
    decreases |ms|
  {
    if ms != [] {
      var next := WithExitRequest(l, ms[0], now);
      CreateAllKeepsPrefix(next, ms[1..], now);
      assert forall i :: 0 <= i < |l.exitRequests| ==> next.exitRequests[i] == l.exitRequests[i];
    }
  }

  /** From an empty queue, N creations take positions 1 .. N. */
  lemma FromEmptyQueuePositionsStartAtOne(l: Ledger, ms: seq<MemberId>, now: Timestamp)
    requires forall i :: 0 <= i < |l.exitRequests| ==> !InQueue(l.exitRequests[i], ReversedIds(l.reversals, ExitRequestRecord))
    requires forall id :: |l.exitRequests| < id <= |l.exitRequests| + |ms| ==> id !in ReversedIds(l.reversals, ExitRequestRecord)
    ensures forall i :: |l.exitRequests| <= i < |l.exitRequests| + |ms| ==>
      CreateAll(l, ms, now).exitRequests[i].queuePosition == i - |l.exitRequests| + 1
  {
    CreationsTakeConsecutivePositions(l, ms, now, 0);
  }

  /** `fulfill_exit_request` on the row: fulfilled now, with the amount overridden only when given. */
  function FulfilledRequest(r: ExitRequest, amount: Option<Money>, now: Timestamp): (f: ExitRequest)
    ensures f.status == Fulfilled && f.fulfilledAt == Some(now)
    ensures f.amountEntitled == (if amount.Some? then amount.value else r.amountEntitled)
    ensures f.id == r.id && f.member == r.member && f.requestedAt == r.requestedAt && f.queuePosition == r.queuePosition
  {
    r.(status := Fulfilled, fulfilledAt := Some(now), amountEntitled := amount.GetOr(r.amountEntitled))
  }

  /** A fulfilled request leaves the queue and can never be fulfilled again. */
  lemma FulfilledLeavesQueue(r: ExitRequest, amount: Option<Money>, now: Timestamp, rev: set<RecordId>)
    ensures !InQueue(FulfilledRequest(r, amount, now), rev)
  {
  }

  /** A queue whose only queued request is at index `k` has its next position right behind it. */
  lemma SoleQueuedIsMax(ers: seq<ExitRequest>, rev: set<RecordId>, k: nat)
    requires k < |ers| && InQueue(ers[k], rev)
    requires forall i :: 0 <= i < |ers| && i != k ==> !InQueue(ers[i], rev)
    ensures NextQueuePosition(ers, rev) == ers[k].queuePosition + 1
  {
  }

  /**
   * Positions are reused: once the only queued request is fulfilled, whatever its position and
   * amount, the next request takes position 1 again.
   */
  lemma FulfilmentFreesPosition(ers: seq<ExitRequest>, rev: set<RecordId>, k: nat, amount: Option<Money>, now: Timestamp)
    requires k < |ers| && InQueue(ers[k], rev)
    requires forall i :: 0 <= i < |ers| && i != k ==> !InQueue(ers[i], rev)
    ensures NextQueuePosition(ers, rev) == ers[k].queuePosition + 1
    ensures NextQueuePosition(ers[k := FulfilledRequest(ers[k], amount, now)], rev) == 1
  {
    SoleQueuedIsMax(ers, rev, k);
    var after := ers[k := FulfilledRequest(ers[k], amount, now)];
    FulfilledLeavesQueue(ers[k], amount, now, rev);
    assert forall i :: 0 <= i < |after| ==> !InQueue(after[i], rev);
    NextPositionIsBehindQueue(after, rev);
  }

  /**
   * A reversed request is not in the queue either: reversing the only queued one also frees
   * position 1, when request keys are distinct.
   */
  lemma ReversalFreesPosition(ers: seq<ExitRequest>, rev: set<RecordId>, k: nat)
    requires k < |ers| && InQueue(ers[k], rev)
    requires forall i :: 0 <= i < |ers| && i != k ==> !InQueue(ers[i], rev)
    requires forall i, j :: 0 <= i < j < |ers| ==> ers[i].id != ers[j].id
    ensures NextQueuePosition(ers, rev + {ers[k].id}) == 1
  {
    var rev' := rev + {ers[k].id};
    forall i | 0 <= i < |ers| ensures !InQueue(ers[i], rev') {
      if i != k {
        assert ers[i].id in rev' ==> ers[i].id in rev;
      }
    }
    NextPositionIsBehindQueue(ers, rev');
  }

  /** Appending the next request keeps every table keyed by creation order. */
  lemma CreationKeepsKeys(l: Ledger, m: MemberId, now: Timestamp)
    requires WellKeyed(l)
    ensures WellKeyed(WithExitRequest(l, m, now))
  {
    var ers := WithExitRequest(l, m, now).exitRequests;
    assert forall i :: 0 <= i < |l.exitRequests| ==> ers[i] == l.exitRequests[i];
  }

  /** `create_exit_request`: fails for an unknown member, otherwise appends the new request. */
  method CreateExitRequest(store: Store, memberId: MemberId, now: Timestamp) returns (r: Result<ExitRequest, ServiceError>)
    requires store.Valid()
    modifies store
    ensures store.Valid()
    ensures FindMember(old(store.members), memberId).None? ==>
      r == Err(NotFound(MemberEntity)) && store.Snapshot() == old(store.Snapshot())
    ensures FindMember(old(store.members), memberId).Some? ==>
      && r == Ok(NewExitRequest(old(store.Snapshot()), memberId, now))
      && store.Snapshot() == WithExitRequest(old(store.Snapshot()), memberId, now)
  {
    var member := FindMember(store.members, memberId);
    if member.None? {
      return Err(NotFound(MemberEntity));
    }
    ghost var before := store.Snapshot();
    var rev := ReversedIds(store.reversals, ExitRequestRecord);
    var queuePosition := MaxQueuedPosition(store.exitRequests, rev) + 1;
    var amountEntitled := Entitlement(store.Snapshot(), memberId);
    var req := ExitRequest(|store.exitRequests| + 1, memberId, now, queuePosition, Queued, None, amountEntitled);
    CreationKeepsKeys(before, memberId, now);
    store.exitRequests := store.exitRequests + [req];
    r := Ok(req);
  }

  /** The ledger after request number `k` of the table is fulfilled. */
  function WithFulfilled(l: Ledger, k: nat, amount: Option<Money>, now: Timestamp): Ledger
    requires k < |l.exitRequests|
  {
    l.(exitRequests := l.exitRequests[k := FulfilledRequest(l.exitRequests[k], amount, now)])
  }

  /** Fulfilment rewrites one row in place and keeps every key. */
  lemma FulfilmentKeepsKeys(l: Ledger, k: nat, amount: Option<Money>, now: Timestamp)
    requires WellKeyed(l) && k < |l.exitRequests|
    ensures WellKeyed(WithFulfilled(l, k, amount, now))
    ensures forall i :: 0 <= i < |l.exitRequests| && i != k ==> WithFulfilled(l, k, amount, now).exitRequests[i] == l.exitRequests[i]
  {
  }

  /**
   * `fulfill_exit_request`: fails for an unknown id or a request that is not queued, changing
   * nothing; otherwise rewrites that one request as fulfilled.
   */
  method FulfillExitRequest(store: Store, id: RecordId, amount: Option<Money>, now: Timestamp) returns (r: Result<ExitRequest, ServiceError>)
    requires store.Valid()
    modifies store
    ensures store.Valid()
    ensures ExitRequestIndex(old(store.exitRequests), id).None? ==>
      r == Err(NotFound(ExitRequestEntity)) && store.Snapshot() == old(store.Snapshot())
    ensures ExitRequestIndex(old(store.exitRequests), id).Some? ==>
      var k := ExitRequestIndex(old(store.exitRequests), id).value;
      if old(store.exitRequests)[k].status != Queued then
        r == Err(NotQueued) && store.Snapshot() == old(store.Snapshot())
      else
        && r == Ok(FulfilledRequest(old(store.exitRequests)[k], amount, now))
        && store.Snapshot() == WithFulfilled(old(store.Snapshot()), k, amount, now)
  {
    var index := ExitRequestIndex(store.exitRequests, id);
    if index.None? {
      return Err(NotFound(ExitRequestEntity));
    }
    var k := index.value;
    var req := store.exitRequests[k];
    if req.status != Queued {
      return Err(NotQueued);
    }
    FulfilmentKeepsKeys(store.Snapshot(), k, amount, now);
    var fulfilled := req.(status := Fulfilled, fulfilledAt := Some(now), amountEntitled := if amount.Some? then amount.value else req.amountEntitled);
    store.exitRequests := store.exitRequests[k := fulfilled];
    r := Ok(fulfilled);
  }
}

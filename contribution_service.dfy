/**
 * Recording contributions and penalties: lookups, amount validation against the window's
 * optional bounds, and the append (common/services/contribution_service.py).
 */
module ContributionService {
  import opened Wrappers
  import opened Basics
  import opened Records
  import opened Totals
  import opened LedgerStore

  /**
   * The amount checks of `record_contribution`, in their order: positive, then not below the
   * window minimum, then not above its maximum; both bounds are inclusive and only apply when set.
   */
  function ContributionAmountError(amount: Money, w: ContributionWindow): (err: Option<ServiceError>)
    ensures err.None? <==>
      0.0 < amount && (w.minAmount.None? || w.minAmount.value <= amount) && (w.maxAmount.None? || amount <= w.maxAmount.value)
    ensures err == Some(NonPositiveAmount) <==> amount <= 0.0
    ensures err == Some(BelowWindowMin) <==> 0.0 < amount && w.minAmount.Some? && amount < w.minAmount.value
    ensures err == Some(AboveWindowMax) <==>
      0.0 < amount && (w.minAmount.None? || w.minAmount.value <= amount) && w.maxAmount.Some? && amount > w.maxAmount.value
  {
    if amount <= 0.0 then Some(NonPositiveAmount)
    else if w.minAmount.Some? && amount < w.minAmount.value then Some(BelowWindowMin)
    else if w.maxAmount.Some? && amount > w.maxAmount.value then Some(AboveWindowMax)
    else None
  }

  /** An amount equal to a bound is accepted: the window's minimum and maximum are inclusive. */
  lemma BoundsAreInclusive(w: ContributionWindow)
    requires w.minAmount.Some? && w.maxAmount.Some? && 0.0 < w.minAmount.value <= w.maxAmount.value
    ensures ContributionAmountError(w.minAmount.value, w).None?
    ensures ContributionAmountError(w.maxAmount.value, w).None?
  {
  }

  /**
   * The outcome of `record_contribution`: the window is looked up first, then the member, then
   * the amount is checked; a missing time stamp defaults to `now`.
   */
  function ContributionOutcome(l: Ledger, memberId: MemberId, windowId: RecordId, amount: Money, recordedAt: Option<Timestamp>, now: Timestamp): (r: Result<Contribution, ServiceError>)
    ensures FindWindow(l.windows, windowId).None? ==> r == Err(NotFound(WindowEntity))
    ensures FindWindow(l.windows, windowId).Some? && FindMember(l.members, memberId).None? ==> r == Err(NotFound(MemberEntity))
    ensures FindWindow(l.windows, windowId).Some? && FindMember(l.members, memberId).Some? &&
            ContributionAmountError(amount, FindWindow(l.windows, windowId).value).Some? ==>
              r == Err(ContributionAmountError(amount, FindWindow(l.windows, windowId).value).value)
    ensures r.Ok? <==>
      && FindWindow(l.windows, windowId).Some? && FindMember(l.members, memberId).Some?
      && ContributionAmountError(amount, FindWindow(l.windows, windowId).value).None?
    ensures r.Ok? ==>
      var w := FindWindow(l.windows, windowId).value;
      && r.value == Contribution(|l.contributions| + 1, memberId, windowId, amount, recordedAt.GetOr(now))
      && 0.0 < amount
      && (w.minAmount.None? || w.minAmount.value <= amount)
      && (w.maxAmount.None? || amount <= w.maxAmount.value)
  {
    match FindWindow(l.windows, windowId)
    case None => Err(NotFound(WindowEntity))
    case Some(w) =>
      if FindMember(l.members, memberId).None? then Err(NotFound(MemberEntity))
      else
        var at := if recordedAt.None? then now else recordedAt.value;
        match ContributionAmountError(amount, w)
        case Some(e) => Err(e)
        case None => Ok(Contribution(|l.contributions| + 1, memberId, windowId, amount, at))
  }

  /** The outcome of `record_penalty`: the member first, then the amount, then the window when one is named. */
  function PenaltyOutcome(l: Ledger, memberId: MemberId, amount: Money, reason: Option<string>, windowId: Option<RecordId>, recordedAt: Option<Timestamp>, now: Timestamp): (r: Result<Penalty, ServiceError>)
    ensures FindMember(l.members, memberId).None? ==> r == Err(NotFound(MemberEntity))
    ensures FindMember(l.members, memberId).Some? && amount <= 0.0 ==> r == Err(NonPositiveAmount)
    ensures (FindMember(l.members, memberId).Some? && 0.0 < amount && windowId.Some? && FindWindow(l.windows, windowId.value).None?) ==>
              r == Err(NotFound(WindowEntity))
    ensures r.Ok? <==>
      && FindMember(l.members, memberId).Some? && 0.0 < amount
      && (windowId.None? || FindWindow(l.windows, windowId.value).Some?)
    ensures r.Ok? ==>
      && r.value == Penalty(|l.penalties| + 1, memberId, amount, reason.GetOr(""), windowId, recordedAt.GetOr(now))
      && (reason.None? ==> r.value.reason == "")
  {
    if FindMember(l.members, memberId).None? then Err(NotFound(MemberEntity))
    else
      var at := if recordedAt.None? then now else recordedAt.value;
      if amount <= 0.0 then Err(NonPositiveAmount)
      else if windowId.Some? && FindWindow(l.windows, windowId.value).None? then Err(NotFound(WindowEntity))
      else Ok(Penalty(|l.penalties| + 1, memberId, amount, if reason.None? then "" else reason.value, windowId, at))
  }

  /**
   * A recorded contribution that nobody has reversed adds exactly its amount to its member's
   * all-time total and to the pool, and nothing to any other member's total.
   */
  lemma RecordedContributionCounts(l: Ledger, memberId: MemberId, windowId: RecordId, amount: Money, recordedAt: Option<Timestamp>, now: Timestamp, m: MemberId, rev: set<RecordId>)
    requires ContributionOutcome(l, memberId, windowId, amount, recordedAt, now).Ok?
    requires |l.contributions| + 1 !in rev
    ensures var c := ContributionOutcome(l, memberId, windowId, amount, recordedAt, now).value;
            && ContributionTotal(l.contributions + [c], rev, m, None) ==
                 ContributionTotal(l.contributions, rev, m, None) + (if m == memberId then amount else 0.0)
            && PoolTotal(l.contributions + [c], rev) == PoolTotal(l.contributions, rev) + amount
  {
    var c := ContributionOutcome(l, memberId, windowId, amount, recordedAt, now).value;
    ContributionTotalAppend(l.contributions, c, rev, m, None);
    PoolTotalAppend(l.contributions, c, rev);
  }

  /** A recorded penalty that nobody has reversed adds exactly its amount to its member's penalty total. */
  lemma RecordedPenaltyCounts(l: Ledger, memberId: MemberId, amount: Money, reason: Option<string>, windowId: Option<RecordId>, recordedAt: Option<Timestamp>, now: Timestamp, m: MemberId, rev: set<RecordId>)
    requires PenaltyOutcome(l, memberId, amount, reason, windowId, recordedAt, now).Ok?
    requires |l.penalties| + 1 !in rev
    ensures var p := PenaltyOutcome(l, memberId, amount, reason, windowId, recordedAt, now).value;
            PenaltyTotal(l.penalties + [p], rev, m, None) ==
              PenaltyTotal(l.penalties, rev, m, None) + (if m == memberId then amount else 0.0)
  {
    var p := PenaltyOutcome(l, memberId, amount, reason, windowId, recordedAt, now).value;
    PenaltyTotalAppend(l.penalties, p, rev, m, None);
  }

  /** Appending the next contribution keeps every table keyed by creation order. */
  lemma ContributionKeepsKeys(l: Ledger, c: Contribution)
    requires WellKeyed(l) && c.id == |l.contributions| + 1
    ensures WellKeyed(l.(contributions := l.contributions + [c]))
  {
    var cs := l.contributions + [c];
    assert forall i :: 0 <= i < |l.contributions| ==> cs[i] == l.contributions[i];
  }

  /** Appending the next penalty keeps every table keyed by creation order. */
  lemma PenaltyKeepsKeys(l: Ledger, p: Penalty)
    requires WellKeyed(l) && p.id == |l.penalties| + 1
    ensures WellKeyed(l.(penalties := l.penalties + [p]))
  {
    var ps := l.penalties + [p];
    assert forall i :: 0 <= i < |l.penalties| ==> ps[i] == l.penalties[i];
  }

  /** `record_contribution`: any failure leaves the store as it was; success appends one row. */
  method RecordContribution(store: Store, memberId: MemberId, windowId: RecordId, amount: Money, recordedAt: Option<Timestamp>, now: Timestamp) returns (r: Result<Contribution, ServiceError>)
    requires store.Valid()
    modifies store
    ensures store.Valid()
    ensures r == ContributionOutcome(old(store.Snapshot()), memberId, windowId, amount, recordedAt, now)
    ensures store.Snapshot() == if r.Ok? then old(store.Snapshot()).(contributions := old(store.contributions) + [r.value]) else old(store.Snapshot())
  {
    var window := FindWindow(store.windows, windowId);
    if window.None? {
      return Err(NotFound(WindowEntity));
    }
    var member := FindMember(store.members, memberId);
    if member.None? {
      return Err(NotFound(MemberEntity));
    }
    var at := if recordedAt.None? then now else recordedAt.value;
    var w := window.value;
    if amount <= 0.0 {
      return Err(NonPositiveAmount);
    }
    if w.minAmount.Some? && amount < w.minAmount.value {
      return Err(BelowWindowMin);
    }
    if w.maxAmount.Some? && amount > w.maxAmount.value {
      return Err(AboveWindowMax);
    }
    var c := Contribution(|store.contributions| + 1, memberId, windowId, amount, at);
    ContributionKeepsKeys(store.Snapshot(), c);
    store.contributions := store.contributions + [c];
    r := Ok(c);
  }

  /** `record_penalty`: any failure leaves the store as it was; success appends one row. */
  method RecordPenalty(store: Store, memberId: MemberId, amount: Money, reason: Option<string>, windowId: Option<RecordId>, recordedAt: Option<Timestamp>, now: Timestamp) returns (r: Result<Penalty, ServiceError>)
    requires store.Valid()
    modifies store
    ensures store.Valid()
    ensures r == PenaltyOutcome(old(store.Snapshot()), memberId, amount, reason, windowId, recordedAt, now)
    ensures store.Snapshot() == if r.Ok? then old(store.Snapshot()).(penalties := old(store.penalties) + [r.value]) else old(store.Snapshot())
  {
    var member := FindMember(store.members, memberId);
    if member.None? {
      return Err(NotFound(MemberEntity));
    }
    var at := if recordedAt.None? then now else recordedAt.value;
    if amount <= 0.0 {
      return Err(NonPositiveAmount);
    }
    if windowId.Some? {
      var window := FindWindow(store.windows, windowId.value);
      if window.None? {
        return Err(NotFound(WindowEntity));
      }
    }
    var p := Penalty(|store.penalties| + 1, memberId, amount, if reason.None? then "" else reason.value, windowId, at);
    PenaltyKeepsKeys(store.Snapshot(), p);
    store.penalties := store.penalties + [p];
    r := Ok(p);
  }
}

/**
 * Recording an investment: each member's eligible savings as of the investment day, split into
 * holding units at the investment's unit value (common/services/investment_service.py).
 */
module InvestmentService {
  import opened Wrappers
  import opened Basics
  import opened Seqs
  import opened Records
  import opened Reversals
  import opened Totals
  import opened MapSums
  import opened LedgerStore

  /** Members with a counted contribution on or before `asOf`. */
  function Contributors(cs: seq<Contribution>, rev: set<RecordId>, asOf: Date): (ms: set<MemberId>)
    ensures forall m :: m in ms <==> exists i :: 0 <= i < |cs| && CountsContribution(cs[i], rev, m, Some(asOf))
  {
    set i | 0 <= i < |cs| && cs[i].id !in rev && DateOf(cs[i].recordedAt) <= asOf :: cs[i].member
  }

  /** Members with a counted penalty on or before `asOf`. */
  function Penalized(ps: seq<Penalty>, rev: set<RecordId>, asOf: Date): (ms: set<MemberId>)
    ensures forall m :: m in ms <==> exists j :: 0 <= j < |ps| && CountsPenalty(ps[j], rev, m, Some(asOf))
  {
    set j | 0 <= j < |ps| && ps[j].id !in rev && DateOf(ps[j].recordedAt) <= asOf :: ps[j].member
  }

  /** An appended contribution that does not count leaves the contributors unchanged. */
  lemma ContributorsAppendExcluded(cs: seq<Contribution>, rev: set<RecordId>, asOf: Date, c: Contribution)
    requires c.id in rev || DateOf(c.recordedAt) > asOf
    ensures Contributors(cs + [c], rev, asOf) == Contributors(cs, rev, asOf)
  {
    var cs' := cs + [c];
    forall m | m in Contributors(cs', rev, asOf) ensures m in Contributors(cs, rev, asOf) {
      var i :| 0 <= i < |cs'| && CountsContribution(cs'[i], rev, m, Some(asOf));
      assert i < |cs| && cs'[i] == cs[i];
    }
    forall m | m in Contributors(cs, rev, asOf) ensures m in Contributors(cs', rev, asOf) {
      var i :| 0 <= i < |cs| && CountsContribution(cs[i], rev, m, Some(asOf));
      assert cs'[i] == cs[i];
    }
  }

  /** An appended penalty that does not count leaves the penalized members unchanged. */
  lemma PenalizedAppendExcluded(ps: seq<Penalty>, rev: set<RecordId>, asOf: Date, p: Penalty)
    requires p.id in rev || DateOf(p.recordedAt) > asOf
    ensures Penalized(ps + [p], rev, asOf) == Penalized(ps, rev, asOf)
  {
    var ps' := ps + [p];
    forall m | m in Penalized(ps', rev, asOf) ensures m in Penalized(ps, rev, asOf) {
      var j :| 0 <= j < |ps'| && CountsPenalty(ps'[j], rev, m, Some(asOf));
      assert j < |ps| && ps'[j] == ps[j];
    }
    forall m | m in Penalized(ps, rev, asOf) ensures m in Penalized(ps', rev, asOf) {
      var j :| 0 <= j < |ps| && CountsPenalty(ps[j], rev, m, Some(asOf));
      assert ps'[j] == ps[j];
    }
  }

  /** One member's counted contributions minus counted penalties. */
  function NetSavings(cs: seq<Contribution>, ps: seq<Penalty>, revC: set<RecordId>, revP: set<RecordId>, m: MemberId, asOf: Date): Money
  {
    ContributionTotal(cs, revC, m, Some(asOf)) - PenaltyTotal(ps, revP, m, Some(asOf))
  }

  /**
   * Eligible savings per member as of a day: non-reversed contributions minus non-reversed
   * penalties recorded on or before it. Exactly the members with such a record are present; a
   * member whose penalties exceed the contributions keeps a negative value.
   */
  function EligibleSavings(cs: seq<Contribution>, ps: seq<Penalty>, rs: seq<Reversal>, asOf: Date): (e: map<MemberId, Money>)
    ensures e.Keys == Contributors(cs, ReversedIds(rs, ContributionRecord), asOf) + Penalized(ps, ReversedIds(rs, PenaltyRecord), asOf)
    ensures forall m :: m in e ==>
      e[m] == ContributionTotal(cs, ReversedIds(rs, ContributionRecord), m, Some(asOf))
            - PenaltyTotal(ps, ReversedIds(rs, PenaltyRecord), m, Some(asOf))
  {
    var revC := ReversedIds(rs, ContributionRecord);
    var revP := ReversedIds(rs, PenaltyRecord);
    map m | m in Contributors(cs, revC, asOf) + Penalized(ps, revP, asOf) :: NetSavings(cs, ps, revC, revP, m, asOf)
  }

  /** The per-member loop of `_eligible_savings_per_member_as_of`, over the union of both groupings. */
  method EligibleSavingsPerMember(cs: seq<Contribution>, ps: seq<Penalty>, rs: seq<Reversal>, asOf: Date) returns (result: map<MemberId, Money>)
    ensures result == EligibleSavings(cs, ps, rs, asOf)
  {
    var revC := ReversedIds(rs, ContributionRecord);
    var revP := ReversedIds(rs, PenaltyRecord);
    var members := Contributors(cs, revC, asOf) + Penalized(ps, revP, asOf);
    result := map[];
    var pending := members;
    while pending != {}
      invariant pending <= members
      invariant result.Keys == members - pending
      invariant forall m :: m in result ==> result[m] == NetSavings(cs, ps, revC, revP, m, asOf)
      decreases pending
    {
      var m :| m in pending;
      var c := ContributionTotal(cs, revC, m, Some(asOf));
      var p := PenaltyTotal(ps, revP, m, Some(asOf));
      result := result[m := c - p];
      pending := pending - {m};
    }
    SameAsEligibleSavings(cs, ps, rs, asOf, result);
  }

  lemma SameAsEligibleSavings(cs: seq<Contribution>, ps: seq<Penalty>, rs: seq<Reversal>, asOf: Date, result: map<MemberId, Money>)
    requires var revC, revP := ReversedIds(rs, ContributionRecord), ReversedIds(rs, PenaltyRecord);
      && result.Keys == Contributors(cs, revC, asOf) + Penalized(ps, revP, asOf)
      && forall m :: m in result ==> result[m] == NetSavings(cs, ps, revC, revP, m, asOf)
    ensures result == EligibleSavings(cs, ps, rs, asOf)
  {
  }

  /** A contribution that is reversed or dated after the day leaves eligibility unchanged. */
  lemma ExcludedContributionIsIgnored(cs: seq<Contribution>, ps: seq<Penalty>, rs: seq<Reversal>, asOf: Date, c: Contribution)
    requires c.id in ReversedIds(rs, ContributionRecord) || DateOf(c.recordedAt) > asOf
    ensures EligibleSavings(cs + [c], ps, rs, asOf) == EligibleSavings(cs, ps, rs, asOf)
  {
    var after, before := EligibleSavings(cs + [c], ps, rs, asOf), EligibleSavings(cs, ps, rs, asOf);
    ContributorsAppendExcluded(cs, ReversedIds(rs, ContributionRecord), asOf, c);
    forall m | m in before ensures after[m] == before[m] {
      ContributionTotalAppend(cs, c, ReversedIds(rs, ContributionRecord), m, Some(asOf));
    }
    MapsAgree(after, before);
  }

  /** A penalty that is reversed or dated after the day leaves eligibility unchanged. */
  lemma ExcludedPenaltyIsIgnored(cs: seq<Contribution>, ps: seq<Penalty>, rs: seq<Reversal>, asOf: Date, p: Penalty)
    requires p.id in ReversedIds(rs, PenaltyRecord) || DateOf(p.recordedAt) > asOf
    ensures EligibleSavings(cs, ps + [p], rs, asOf) == EligibleSavings(cs, ps, rs, asOf)
  {
    var after, before := EligibleSavings(cs, ps + [p], rs, asOf), EligibleSavings(cs, ps, rs, asOf);
    PenalizedAppendExcluded(ps, ReversedIds(rs, PenaltyRecord), asOf, p);
    forall m | m in before ensures after[m] == before[m] {
      PenaltyTotalAppend(ps, p, ReversedIds(rs, PenaltyRecord), m, Some(asOf));
    }
    MapsAgree(after, before);
  }

  /**
   * Reversals are keyed by record type: a reversal of any other type, one of a penalty key
   * included, changes no member's counted contributions.
   */
  lemma OtherTypeReversalKeepsContributions(cs: seq<Contribution>, rs: seq<Reversal>, r: Reversal, m: MemberId, asOf: Option<Date>, d: Date)
    requires r.originalRecordType != ContributionRecord
    ensures ContributionTotal(cs, ReversedIds(rs + [r], ContributionRecord), m, asOf) ==
            ContributionTotal(cs, ReversedIds(rs, ContributionRecord), m, asOf)
    ensures Contributors(cs, ReversedIds(rs + [r], ContributionRecord), d) == Contributors(cs, ReversedIds(rs, ContributionRecord), d)
  {
    ReversalKeepsOtherTypes(rs, r, ContributionRecord);
  }

  /**
   * Eligibility is negative exactly when the member's counted penalties exceed the counted
   * contributions; a member with no counted record is absent, and both totals are then zero.
   */
  lemma EligibilityCanBeNegative(cs: seq<Contribution>, ps: seq<Penalty>, rs: seq<Reversal>, asOf: Date, m: MemberId)
    ensures var e := EligibleSavings(cs, ps, rs, asOf);
            (m in e && e[m] < 0.0) <==>
              PenaltyTotal(ps, ReversedIds(rs, PenaltyRecord), m, Some(asOf)) > ContributionTotal(cs, ReversedIds(rs, ContributionRecord), m, Some(asOf))
  {
    var revC, revP := ReversedIds(rs, ContributionRecord), ReversedIds(rs, PenaltyRecord);
    if m !in EligibleSavings(cs, ps, rs, asOf) {
      assert m !in Contributors(cs, revC, asOf) && m !in Penalized(ps, revP, asOf);
      FilterNone(cs, ContributionFilter(revC, m, Some(asOf)));
      FilterNone(ps, PenaltyFilter(revP, m, Some(asOf)));
    }
  }

  /** `total_units or fallback`: a declared count is used unless it is absent or zero. */
  function DeclaredOr(declared: Option<Money>, fallback: Money): (u: Money)
    ensures declared == Some(0.0) ==> u == fallback
    ensures declared.Some? && declared.value != 0.0 ==> u == declared.value
    ensures declared.None? ==> u == fallback
  {
    if declared.Some? && declared.value != 0.0 then declared.value else fallback
  }

  function HoldingUnits(h: HoldingShare): real { h.units }

  /**
   * `created` is the allocation of `e` to the investment `investmentId`: one share per member
   * with positive eligibility, with units = eligibility / unit value, keys numbered from `firstId`,
   * and no share for anyone else.
   */
  ghost predicate IsHoldingAllocation(created: seq<HoldingShare>, e: map<MemberId, Money>, unitValue: Money, investmentId: RecordId, firstId: RecordId)
  {
    && unitValue > 0.0
    && (forall i :: 0 <= i < |created| ==>
          && created[i].id == firstId + i
          && created[i].investment == investmentId
          && created[i].member in PositiveKeys(e)
          && created[i].units == e[created[i].member] / unitValue)
    && (forall i, j :: 0 <= i < j < |created| ==> created[i].member != created[j].member)
    && (forall m :: m in PositiveKeys(e) ==> exists i :: 0 <= i < |created| && created[i].member == m)
  }

  /** The loop creating the holding shares: members are visited in the map's (arbitrary) order. */
  method AllocateHoldings(e: map<MemberId, Money>, unitValue: Money, investmentId: RecordId, firstId: RecordId) returns (created: seq<HoldingShare>)
    requires unitValue > 0.0
    ensures IsHoldingAllocation(created, e, unitValue, investmentId, firstId)
  {
    created := [];
    var pending := e.Keys;
    while pending != {}
      invariant pending <= e.Keys
      invariant forall i :: 0 <= i < |created| ==>
        && created[i].id == firstId + i
        && created[i].investment == investmentId
        && created[i].member in PositiveKeys(e)
        && created[i].member !in pending
        && created[i].units == e[created[i].member] / unitValue
      invariant forall i, j :: 0 <= i < j < |created| ==> created[i].member != created[j].member
      invariant forall m :: m in PositiveKeys(e) && m !in pending ==> exists i :: 0 <= i < |created| && created[i].member == m
      decreases pending
    {
      var m :| m in pending;
      var amount := e[m];
      if amount > 0.0 {
        var prev := created;
        created := created + [HoldingShare(firstId + |created|, investmentId, m, amount / unitValue)];
        forall m' | m' in PositiveKeys(e) && m' !in pending - {m}
          ensures exists i :: 0 <= i < |created| && created[i].member == m'
        {
          if m' == m {
            assert created[|prev|].member == m';
          } else {
            var i :| 0 <= i < |prev| && prev[i].member == m';
            assert created[i].member == m';
          }
        }
      }
      pending := pending - {m};
    }
  }

  /** Each member's eligibility expressed in units of the investment. */
  function Scaled(e: map<MemberId, Money>, unitValue: Money): (s: map<MemberId, real>)
    requires unitValue > 0.0
    ensures s.Keys == e.Keys
  {
    map m | m in e :: e[m] / unitValue
  }

  lemma DivAdds(a: real, b: real, u: real)
    requires u > 0.0
    ensures a / u + b / u == (a + b) / u
  {
  }

  lemma DivKeepsSign(a: real, u: real)
    requires u > 0.0
    ensures a / u > 0.0 <==> a > 0.0
  {
  }

  lemma DivInjective(a: real, b: real, u: real)
    requires u > 0.0
    ensures a / u == b / u <==> a == b
  {
    if a / u == b / u {
      assert a == (a / u) * u && b == (b / u) * u;
    }
  }

  /** Summing amounts in units is summing the amounts and then converting. */
  lemma {:induction false} SumOverScaled(e: map<MemberId, Money>, unitValue: Money, k: set<MemberId>)
    requires unitValue > 0.0 && k <= e.Keys
    ensures SumOver(Scaled(e, unitValue), k) == SumOver(e, k) / unitValue
    decreases k
  {
    if k != {} {
      var p := Pick(k);
      SumOverScaled(e, unitValue, k - {p});
      DivAdds(e[p], SumOver(e, k - {p}), unitValue);
    }
  }

  /** Converting to units keeps the members with a positive amount. */
  lemma ScaledPositiveKeys(e: map<MemberId, Money>, unitValue: Money)
    requires unitValue > 0.0
    ensures PositiveKeys(Scaled(e, unitValue)) == PositiveKeys(e)
  {
    forall m | m in e ensures Scaled(e, unitValue)[m] > 0.0 <==> e[m] > 0.0 {
      DivKeepsSign(e[m], unitValue);
    }
  }

  function HoldingMember(h: HoldingShare): MemberId { h.member }

  /**
   * The units of an allocation add up to the positive eligibilities over the unit value, and
   * there is one share per positively eligible member: nothing is created for members at or
   * below zero.
   */
  lemma AllocationValueIsPositivePool(created: seq<HoldingShare>, e: map<MemberId, Money>, unitValue: Money, investmentId: RecordId, firstId: RecordId)
    requires IsHoldingAllocation(created, e, unitValue, investmentId, firstId)
    ensures SumBy(created, HoldingUnits) == SumOver(e, PositiveKeys(e)) / unitValue
    ensures |created| == |PositiveKeys(e)|
  {
    var ue := Scaled(e, unitValue);
    ScaledPositiveKeys(e, unitValue);
    SumCovering(created, HoldingMember, HoldingUnits, ue, PositiveKeys(e));
    SumOverScaled(e, unitValue, PositiveKeys(e));
    AllocationCount(created, e, unitValue, investmentId, firstId);
  }

  lemma AllocationCount(created: seq<HoldingShare>, e: map<MemberId, Money>, unitValue: Money, investmentId: RecordId, firstId: RecordId)
    requires IsHoldingAllocation(created, e, unitValue, investmentId, firstId)
    ensures |created| == |PositiveKeys(e)|
  {
    DistinctOwnersCount(created, HoldingMember, PositiveKeys(e));
  }

  /**
   * The units created add up to the undeclared `total_units` (the whole pool over the unit value)
   * exactly when no member's eligibility is negative.
   */
  lemma AllocatedUnitsMatchTotal(created: seq<HoldingShare>, e: map<MemberId, Money>, unitValue: Money, investmentId: RecordId, firstId: RecordId)
    requires IsHoldingAllocation(created, e, unitValue, investmentId, firstId)
    ensures SumBy(created, HoldingUnits) == MapSum(e) / unitValue <==> forall m :: m in e ==> e[m] >= 0.0
  {
    AllocationValueIsPositivePool(created, e, unitValue, investmentId, firstId);
    PositivePartOfSum(e);
    DivInjective(SumOver(e, PositiveKeys(e)), MapSum(e), unitValue);
  }

  /**
   * The effect of `record_investment` with a positive unit value on the store: one investment
   * appended, then the allocation of eligible savings appended as holding shares when the
   * eligible pool is positive; nothing else changes.
   */
  ghost predicate InvestmentRecorded(before: Ledger, after: Ledger, recordedAt: Date, unitValue: Money, totalUnits: Option<Money>, inv: Investment)
  {
    var e := EligibleSavings(before.contributions, before.penalties, before.reversals, recordedAt);
    var pool := MapSum(e);
    var n := |before.holdingShares|;
    && unitValue > 0.0
    && inv == Investment(|before.investments| + 1, recordedAt, unitValue,
                         if pool <= 0.0 then DeclaredOr(totalUnits, 0.0) else DeclaredOr(totalUnits, pool / unitValue))
    && after == before.(investments := before.investments + [inv], holdingShares := after.holdingShares)
    && n <= |after.holdingShares| && after.holdingShares[..n] == before.holdingShares
    && (if pool <= 0.0 then |after.holdingShares| == n
        else IsHoldingAllocation(after.holdingShares[n..], e, unitValue, inv.id, n + 1))
  }

  /**
   * What a recorded investment reconciles to: the new shares are worth exactly the positive
   * eligibilities, and their units add up to `total_units` when it was not declared and no
   * member is negative.
   */
  lemma RecordedInvestmentReconciles(before: Ledger, after: Ledger, recordedAt: Date, unitValue: Money, totalUnits: Option<Money>, inv: Investment)
    requires InvestmentRecorded(before, after, recordedAt, unitValue, totalUnits, inv)
    requires MapSum(EligibleSavings(before.contributions, before.penalties, before.reversals, recordedAt)) > 0.0
    ensures var e := EligibleSavings(before.contributions, before.penalties, before.reversals, recordedAt);
            var created := after.holdingShares[|before.holdingShares|..];
            && SumBy(created, HoldingUnits) == SumOver(e, PositiveKeys(e)) / unitValue
            && (totalUnits.None? ==> (SumBy(created, HoldingUnits) == inv.totalUnits <==> forall m :: m in e ==> e[m] >= 0.0))
  {
    var e := EligibleSavings(before.contributions, before.penalties, before.reversals, recordedAt);
    var created := after.holdingShares[|before.holdingShares|..];
    AllocationValueIsPositivePool(created, e, unitValue, inv.id, |before.holdingShares| + 1);
    AllocatedUnitsMatchTotal(created, e, unitValue, inv.id, |before.holdingShares| + 1);
  }

  /** Every share of an allocation holds a positive number of units. */
  lemma AllocatedUnitsPositive(created: seq<HoldingShare>, e: map<MemberId, Money>, unitValue: Money, investmentId: RecordId, firstId: RecordId)
    requires IsHoldingAllocation(created, e, unitValue, investmentId, firstId)
    ensures forall i :: 0 <= i < |created| ==> created[i].units > 0.0
  {
    forall i | 0 <= i < |created| ensures created[i].units > 0.0 {
      DivKeepsSign(e[created[i].member], unitValue);
    }
  }

  /** Appending positive shares and a positively priced investment keeps the holdings positive. */
  lemma AppendKeepsHoldingsPositive(before: Ledger, inv: Investment, created: seq<HoldingShare>)
    requires PositiveHoldings(before) && inv.unitValue > 0.0
    requires forall i :: 0 <= i < |created| ==> created[i].units > 0.0
    ensures PositiveHoldings(before.(investments := before.investments + [inv], holdingShares := before.holdingShares + created))
  {
    var hs := before.holdingShares + created;
    forall i | 0 <= i < |hs| ensures hs[i].units > 0.0 {
      if i >= |before.holdingShares| {
        assert hs[i] == created[i - |before.holdingShares|];
      }
    }
    var invs := before.investments + [inv];
    assert forall j :: 0 <= j < |before.investments| ==> invs[j] == before.investments[j];
  }

  /** Recording an investment keeps every holding positive: only positive eligibilities are converted. */
  lemma RecordingKeepsHoldingsPositive(before: Ledger, after: Ledger, recordedAt: Date, unitValue: Money, totalUnits: Option<Money>, inv: Investment)
    requires InvestmentRecorded(before, after, recordedAt, unitValue, totalUnits, inv)
    requires PositiveHoldings(before)
    ensures PositiveHoldings(after)
  {
    var n := |before.holdingShares|;
    var created := after.holdingShares[n..];
    assert after.holdingShares == before.holdingShares + created;
    var e := EligibleSavings(before.contributions, before.penalties, before.reversals, recordedAt);
    if MapSum(e) > 0.0 {
      AllocatedUnitsPositive(created, e, unitValue, inv.id, n + 1);
    }
    AppendKeepsHoldingsPositive(before, inv, created);
  }

  /** Appending the next investment keeps every table keyed by creation order. */
  lemma InvestmentKeepsKeys(before: Ledger, inv: Investment)
    requires WellKeyed(before) && inv.id == |before.investments| + 1
    ensures WellKeyed(before.(investments := before.investments + [inv]))
  {
    var invs := before.investments + [inv];
    assert forall i :: 0 <= i < |before.investments| ==> invs[i] == before.investments[i];
  }

  /** Appending an investment and its allocation keeps every table keyed by creation order. */
  lemma AllocationKeepsKeys(before: Ledger, inv: Investment, created: seq<HoldingShare>, e: map<MemberId, Money>, unitValue: Money)
    requires WellKeyed(before) && inv.id == |before.investments| + 1
    requires IsHoldingAllocation(created, e, unitValue, inv.id, |before.holdingShares| + 1)
    ensures WellKeyed(before.(investments := before.investments + [inv], holdingShares := before.holdingShares + created))
  {
    InvestmentKeepsKeys(before, inv);
    var hs := before.holdingShares + created;
    forall i | 0 <= i < |hs| ensures hs[i].id == i + 1 {
      if i >= |before.holdingShares| {
        assert hs[i] == created[i - |before.holdingShares|];
      }
    }
  }

  /** The ledger after appending the investment and an allocation of the eligible savings is the recorded one. */
  lemma AllocationIsRecorded(before: Ledger, recordedAt: Date, unitValue: Money, totalUnits: Option<Money>, inv: Investment, created: seq<HoldingShare>)
    requires var e := EligibleSavings(before.contributions, before.penalties, before.reversals, recordedAt);
      && unitValue > 0.0
      && MapSum(e) > 0.0
      && inv == Investment(|before.investments| + 1, recordedAt, unitValue, DeclaredOr(totalUnits, MapSum(e) / unitValue))
      && IsHoldingAllocation(created, e, unitValue, inv.id, |before.holdingShares| + 1)
    ensures InvestmentRecorded(before, before.(investments := before.investments + [inv], holdingShares := before.holdingShares + created),
                               recordedAt, unitValue, totalUnits, inv)
  {
    var hs := before.holdingShares + created;
    assert hs[..|before.holdingShares|] == before.holdingShares;
    assert hs[|before.holdingShares|..] == created;
  }

  /** With no positive eligible pool only the investment row is appended. */
  lemma EmptyPoolIsRecorded(before: Ledger, recordedAt: Date, unitValue: Money, totalUnits: Option<Money>, inv: Investment)
    requires var e := EligibleSavings(before.contributions, before.penalties, before.reversals, recordedAt);
      && unitValue > 0.0
      && MapSum(e) <= 0.0
      && inv == Investment(|before.investments| + 1, recordedAt, unitValue, DeclaredOr(totalUnits, 0.0))
    ensures InvestmentRecorded(before, before.(investments := before.investments + [inv]), recordedAt, unitValue, totalUnits, inv)
  {
    assert before.holdingShares[..|before.holdingShares|] == before.holdingShares;
  }

  /**
   * `record_investment`: rejects a non-positive unit value before any write; otherwise appends
   * the investment and, when the eligible pool is positive, its holding shares.
   */
  method RecordInvestment(store: Store, recordedAt: Date, unitValue: Money, totalUnits: Option<Money>) returns (r: Result<Investment, ServiceError>)
    requires store.Valid()
    modifies store
    ensures store.Valid()
    ensures unitValue <= 0.0 ==> r == Err(NonPositiveUnitValue) && store.Snapshot() == old(store.Snapshot())
    ensures unitValue > 0.0 ==> r.Ok? && InvestmentRecorded(old(store.Snapshot()), store.Snapshot(), recordedAt, unitValue, totalUnits, r.value)
  {
    if unitValue <= 0.0 {
      return Err(NonPositiveUnitValue);
    }
    ghost var before := store.Snapshot();
    var eligible := EligibleSavingsPerMember(store.contributions, store.penalties, store.reversals, recordedAt);
    var totalPool := SumValues(eligible);
    var id := |store.investments| + 1;
    if totalPool <= 0.0 {
      var inv := Investment(id, recordedAt, unitValue, DeclaredOr(totalUnits, 0.0));
      InvestmentKeepsKeys(before, inv);
      EmptyPoolIsRecorded(before, recordedAt, unitValue, totalUnits, inv);
      store.investments := store.investments + [inv];
      assert store.Snapshot() == before.(investments := before.investments + [inv]);
      return Ok(inv);
    }
    var inv := Investment(id, recordedAt, unitValue, DeclaredOr(totalUnits, totalPool / unitValue));
    var n := |store.holdingShares|;
    var created := AllocateHoldings(eligible, unitValue, id, n + 1);
    AllocationKeepsKeys(before, inv, created, eligible, unitValue);
    AllocationIsRecorded(before, recordedAt, unitValue, totalUnits, inv, created);
    store.investments := store.investments + [inv];
    store.holdingShares := store.holdingShares + created;
    assert store.Snapshot() == before.(investments := before.investments + [inv], holdingShares := before.holdingShares + created);
    r := Ok(inv);
  }
}

/**
 * A member's historical statement over an optional inclusive range of days
 * (common/services/statement_service.py). Every list holds only the member's own records that
 * are not reversed under their own record type, ascending by the record's own time.
 */
module StatementService {
  import opened Wrappers
  import opened Basics
  import opened Seqs
  import opened Records
  import opened Reversals
  import opened Totals
  import PositionService

  /** A day lies within optional inclusive bounds; an absent bound does not constrain. */
  predicate InRange(d: Date, from: Option<Date>, to: Option<Date>)
  {
    (from.None? || from.value <= d) && (to.None? || d <= to.value)
  }

  /** `get_member_statement`: the bounds echoed back and the five lists. */
  datatype Statement = Statement(
    fromDate: Option<Date>,
    toDate: Option<Date>,
    contributions: seq<Contribution>,
    penalties: seq<Penalty>,
    investments: seq<PositionService.HoldingEntry>,
    exitRequests: seq<ExitRequest>,
    buyOuts: seq<BuyOut>)

  function ContributionInStatement(rev: set<RecordId>, m: MemberId, from: Option<Date>, to: Option<Date>): Contribution -> bool
  {
    (c: Contribution) => c.member == m && c.id !in rev && InRange(DateOf(c.recordedAt), from, to)
  }

  function PenaltyInStatement(rev: set<RecordId>, m: MemberId, from: Option<Date>, to: Option<Date>): Penalty -> bool
  {
    (p: Penalty) => p.member == m && p.id !in rev && InRange(DateOf(p.recordedAt), from, to)
  }

  function ExitRequestInStatement(rev: set<RecordId>, m: MemberId, from: Option<Date>, to: Option<Date>): ExitRequest -> bool
  {
    (r: ExitRequest) => r.member == m && r.id !in rev && InRange(DateOf(r.requestedAt), from, to)
  }

  /** A buy-out concerns the member as seller or as buyer. */
  function BuyOutInStatement(rev: set<RecordId>, m: MemberId, from: Option<Date>, to: Option<Date>): BuyOut -> bool
  {
    (b: BuyOut) => (b.seller == m || b.buyer == Some(m)) && b.id !in rev && InRange(DateOf(b.recordedAt), from, to)
  }

  /** The investment row of a share in the range; the range applies to the investment's day. */
  function InvestmentInStatement(invs: seq<Investment>, rev: set<RecordId>, m: MemberId, from: Option<Date>, to: Option<Date>): HoldingShare -> Option<PositionService.HoldingEntry>
  {
    (h: HoldingShare) =>
      match PositionService.HoldingEntryOf(invs, rev, m)(h)
      case Some(e) => if InRange(e.recordedAt, from, to) then Some(e) else None
      case None => None
  }

  function ContributionTime(c: Contribution): int { c.recordedAt }
  function PenaltyTime(p: Penalty): int { p.recordedAt }
  function InvestmentDay(e: PositionService.HoldingEntry): int { e.recordedAt }
  function RequestTime(r: ExitRequest): int { r.requestedAt }
  function BuyOutTime(b: BuyOut): int { b.recordedAt }

  /** `get_member_statement`. It reads the ledger only. */
  function MemberStatement(l: Ledger, m: MemberId, from: Option<Date>, to: Option<Date>): (st: Statement)
    ensures st.fromDate == from && st.toDate == to
    ensures SortedBy(st.contributions, ContributionTime) && SortedBy(st.penalties, PenaltyTime)
    ensures SortedBy(st.investments, InvestmentDay) && SortedBy(st.exitRequests, RequestTime)
    ensures SortedBy(st.buyOuts, BuyOutTime)
    ensures multiset(st.contributions) == multiset(Filter(l.contributions, ContributionInStatement(ReversedIds(l.reversals, ContributionRecord), m, from, to)))
    ensures multiset(st.penalties) == multiset(Filter(l.penalties, PenaltyInStatement(ReversedIds(l.reversals, PenaltyRecord), m, from, to)))
    ensures multiset(st.investments) ==
      multiset(FilterMap(l.holdingShares, InvestmentInStatement(l.investments, ReversedIds(l.reversals, HoldingShareRecord), m, from, to)))
    ensures multiset(st.exitRequests) == multiset(Filter(l.exitRequests, ExitRequestInStatement(ReversedIds(l.reversals, ExitRequestRecord), m, from, to)))
    ensures multiset(st.buyOuts) == multiset(Filter(l.buyOuts, BuyOutInStatement(ReversedIds(l.reversals, BuyOutRecord), m, from, to)))
  {
    Statement(
      from, to,
      SortBy(Filter(l.contributions, ContributionInStatement(ReversedIds(l.reversals, ContributionRecord), m, from, to)), ContributionTime),
      SortBy(Filter(l.penalties, PenaltyInStatement(ReversedIds(l.reversals, PenaltyRecord), m, from, to)), PenaltyTime),
      SortBy(FilterMap(l.holdingShares, InvestmentInStatement(l.investments, ReversedIds(l.reversals, HoldingShareRecord), m, from, to)), InvestmentDay),
      SortBy(Filter(l.exitRequests, ExitRequestInStatement(ReversedIds(l.reversals, ExitRequestRecord), m, from, to)), RequestTime),
      SortBy(Filter(l.buyOuts, BuyOutInStatement(ReversedIds(l.reversals, BuyOutRecord), m, from, to)), BuyOutTime))
  }

  /**
   * Statement rows are exactly the member's own non-reversed records dated within the range
   * (buy-outs: those where the member sells or buys).
   */
  lemma StatementMembership(l: Ledger, m: MemberId, from: Option<Date>, to: Option<Date>,
                            c: Contribution, p: Penalty, r: ExitRequest, b: BuyOut)
    ensures var st := MemberStatement(l, m, from, to);
      && (c in st.contributions <==> c in l.contributions && c.member == m && c.id !in ReversedIds(l.reversals, ContributionRecord) && InRange(DateOf(c.recordedAt), from, to))
      && (p in st.penalties <==> p in l.penalties && p.member == m && p.id !in ReversedIds(l.reversals, PenaltyRecord) && InRange(DateOf(p.recordedAt), from, to))
      && (r in st.exitRequests <==> r in l.exitRequests && r.member == m && r.id !in ReversedIds(l.reversals, ExitRequestRecord) && InRange(DateOf(r.requestedAt), from, to))
      && (b in st.buyOuts <==> b in l.buyOuts && (b.seller == m || b.buyer == Some(m)) && b.id !in ReversedIds(l.reversals, BuyOutRecord) && InRange(DateOf(b.recordedAt), from, to))
  {
    SortedFilterMembers(l.contributions, ContributionInStatement(ReversedIds(l.reversals, ContributionRecord), m, from, to), ContributionTime, c);
    SortedFilterMembers(l.penalties, PenaltyInStatement(ReversedIds(l.reversals, PenaltyRecord), m, from, to), PenaltyTime, p);
    SortedFilterMembers(l.exitRequests, ExitRequestInStatement(ReversedIds(l.reversals, ExitRequestRecord), m, from, to), RequestTime, r);
    SortedFilterMembers(l.buyOuts, BuyOutInStatement(ReversedIds(l.reversals, BuyOutRecord), m, from, to), BuyOutTime, b);
  }

  /**
   * An investment row is in the statement exactly when one of the member's non-reversed holding
   * shares yields it, its investment exists and the investment's day is within the range.
   */
  lemma StatementInvestmentMembership(l: Ledger, m: MemberId, from: Option<Date>, to: Option<Date>, e: PositionService.HoldingEntry)
    ensures e in MemberStatement(l, m, from, to).investments <==>
      && InRange(e.recordedAt, from, to)
      && exists k :: 0 <= k < |l.holdingShares| && PositionService.HoldingEntryOf(l.investments, ReversedIds(l.reversals, HoldingShareRecord), m)(l.holdingShares[k]) == Some(e)
  {
    var g := PositionService.HoldingEntryOf(l.investments, ReversedIds(l.reversals, HoldingShareRecord), m);
    var f := InvestmentInStatement(l.investments, ReversedIds(l.reversals, HoldingShareRecord), m, from, to);
    SortedFilterMapMembers(l.holdingShares, f, InvestmentDay, e);
    forall h ensures f(h) == Some(e) <==> InRange(e.recordedAt, from, to) && g(h) == Some(e) {
      InRangeEntry(l.investments, ReversedIds(l.reversals, HoldingShareRecord), m, from, to, h, e);
    }
  }

  lemma InRangeEntry(invs: seq<Investment>, rev: set<RecordId>, m: MemberId, from: Option<Date>, to: Option<Date>, h: HoldingShare, e: PositionService.HoldingEntry)
    ensures InvestmentInStatement(invs, rev, m, from, to)(h) == Some(e) <==> InRange(e.recordedAt, from, to) && PositionService.HoldingEntryOf(invs, rev, m)(h) == Some(e)
  {
  }

  /** A range whose start is after its end selects nothing. */
  lemma InvertedRangeIsEmpty(l: Ledger, m: MemberId, from: Date, to: Date)
    requires from > to
    ensures var st := MemberStatement(l, m, Some(from), Some(to));
      st.contributions == [] && st.penalties == [] && st.investments == [] && st.exitRequests == [] && st.buyOuts == []
  {
    FilterNone(l.contributions, ContributionInStatement(ReversedIds(l.reversals, ContributionRecord), m, Some(from), Some(to)));
    FilterNone(l.penalties, PenaltyInStatement(ReversedIds(l.reversals, PenaltyRecord), m, Some(from), Some(to)));
    FilterNone(l.exitRequests, ExitRequestInStatement(ReversedIds(l.reversals, ExitRequestRecord), m, Some(from), Some(to)));
    FilterNone(l.buyOuts, BuyOutInStatement(ReversedIds(l.reversals, BuyOutRecord), m, Some(from), Some(to)));
    var f := InvestmentInStatement(l.investments, ReversedIds(l.reversals, HoldingShareRecord), m, Some(from), Some(to));
    forall i | 0 <= i < |l.holdingShares| ensures f(l.holdingShares[i]).None? {
      var e := PositionService.HoldingEntryOf(l.investments, ReversedIds(l.reversals, HoldingShareRecord), m)(l.holdingShares[i]);
      if e.Some? {
        assert !InRange(e.value.recordedAt, Some(from), Some(to));
      }
    }
    FilterMapNone(l.holdingShares, f);
  }

  /**
   * A statement without a start day lists contributions and penalties summing to the totals
   * eligibility uses as of its end day; without either bound, to the position's totals.
   */
  lemma StatementSumsMatchTotals(l: Ledger, m: MemberId, to: Option<Date>)
    ensures var st := MemberStatement(l, m, None, to);
      && SumBy(st.contributions, ContributionAmount) == ContributionTotal(l.contributions, ReversedIds(l.reversals, ContributionRecord), m, to)
      && SumBy(st.penalties, PenaltyAmount) == PenaltyTotal(l.penalties, ReversedIds(l.reversals, PenaltyRecord), m, to)
  {
    var revC, revP := ReversedIds(l.reversals, ContributionRecord), ReversedIds(l.reversals, PenaltyRecord);
    SumBySorted(Filter(l.contributions, ContributionInStatement(revC, m, None, to)), ContributionTime, ContributionAmount);
    FilterCongruent(l.contributions, ContributionInStatement(revC, m, None, to), ContributionFilter(revC, m, to));
    SumBySorted(Filter(l.penalties, PenaltyInStatement(revP, m, None, to)), PenaltyTime, PenaltyAmount);
    FilterCongruent(l.penalties, PenaltyInStatement(revP, m, None, to), PenaltyFilter(revP, m, to));
  }

  /** The unbounded statement's contributions and penalties add up to the member's position. */
  lemma UnboundedStatementMatchesPosition(l: Ledger, m: MemberId)
    ensures var st, p := MemberStatement(l, m, None, None), PositionService.MemberPosition(l, m);
      SumBy(st.contributions, ContributionAmount) == p.contributionsTotal && SumBy(st.penalties, PenaltyAmount) == p.penaltiesTotal
  {
    StatementSumsMatchTotals(l, m, None);
  }
}

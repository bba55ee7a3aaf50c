/**
 * The reversal-aware sums of one member's contributions and penalties, optionally bounded by a
 * day, and the group's contribution pool. Every service computes these with the same query.
 */
module Totals {
  import opened Wrappers
  import opened Basics
  import opened Records
  import opened Seqs

  /** A day is within an optional upper bound. */
  predicate OnOrBefore(d: Date, asOf: Option<Date>)
  {
    asOf.None? || d <= asOf.value
  }

  /** The contribution is the member's, is not reversed and is dated within the bound. */
  predicate CountsContribution(c: Contribution, rev: set<RecordId>, m: MemberId, asOf: Option<Date>)
  {
    c.member == m && c.id !in rev && OnOrBefore(DateOf(c.recordedAt), asOf)
  }

  function ContributionFilter(rev: set<RecordId>, m: MemberId, asOf: Option<Date>): Contribution -> bool
  {
    c => CountsContribution(c, rev, m, asOf)
  }

  function ContributionAmount(c: Contribution): real { c.amount }

  /** Sum of the member's counted contributions, 0 when there are none. */
  function ContributionTotal(cs: seq<Contribution>, rev: set<RecordId>, m: MemberId, asOf: Option<Date>): Money
  {
    SumBy(Filter(cs, ContributionFilter(rev, m, asOf)), ContributionAmount)
  }

  /** The penalty is the member's, is not reversed and is dated within the bound. */
  predicate CountsPenalty(p: Penalty, rev: set<RecordId>, m: MemberId, asOf: Option<Date>)
  {
    p.member == m && p.id !in rev && OnOrBefore(DateOf(p.recordedAt), asOf)
  }

  function PenaltyFilter(rev: set<RecordId>, m: MemberId, asOf: Option<Date>): Penalty -> bool
  {
    p => CountsPenalty(p, rev, m, asOf)
  }

  function PenaltyAmount(p: Penalty): real { p.amount }

  /** Sum of the member's counted penalties, 0 when there are none. */
  function PenaltyTotal(ps: seq<Penalty>, rev: set<RecordId>, m: MemberId, asOf: Option<Date>): Money
  {
    SumBy(Filter(ps, PenaltyFilter(rev, m, asOf)), PenaltyAmount)
  }

  function UnreversedContribution(rev: set<RecordId>): Contribution -> bool
  {
    (c: Contribution) => c.id !in rev
  }

  /** Sum of every non-reversed contribution of every member. */
  function PoolTotal(cs: seq<Contribution>, rev: set<RecordId>): Money
  {
    SumBy(Filter(cs, UnreversedContribution(rev)), ContributionAmount)
  }

  /** Primary keys of a table are pairwise distinct. */
  ghost predicate DistinctContributionIds(cs: seq<Contribution>)
  {
    forall i, j :: 0 <= i < |cs| && 0 <= j < |cs| && i != j ==> cs[i].id != cs[j].id
  }

  ghost predicate DistinctPenaltyIds(ps: seq<Penalty>)
  {
    forall i, j :: 0 <= i < |ps| && 0 <= j < |ps| && i != j ==> ps[i].id != ps[j].id
  }

  /** A new contribution adds its amount to its member's total exactly when it counts. */
  lemma ContributionTotalAppend(cs: seq<Contribution>, c: Contribution, rev: set<RecordId>, m: MemberId, asOf: Option<Date>)
    ensures ContributionTotal(cs + [c], rev, m, asOf) ==
      ContributionTotal(cs, rev, m, asOf) + if CountsContribution(c, rev, m, asOf) then c.amount else 0.0
  {
    SumFilterAppend(cs, c, ContributionFilter(rev, m, asOf), ContributionAmount);
  }

  /** A new penalty adds its amount to its member's total exactly when it counts. */
  lemma PenaltyTotalAppend(ps: seq<Penalty>, p: Penalty, rev: set<RecordId>, m: MemberId, asOf: Option<Date>)
    ensures PenaltyTotal(ps + [p], rev, m, asOf) ==
      PenaltyTotal(ps, rev, m, asOf) + if CountsPenalty(p, rev, m, asOf) then p.amount else 0.0
  {
    SumFilterAppend(ps, p, PenaltyFilter(rev, m, asOf), PenaltyAmount);
  }

  /** A new contribution adds its amount to the pool exactly when it is not reversed. */
  lemma PoolTotalAppend(cs: seq<Contribution>, c: Contribution, rev: set<RecordId>)
    ensures PoolTotal(cs + [c], rev) == PoolTotal(cs, rev) + if c.id !in rev then c.amount else 0.0
  {
    SumFilterAppend(cs, c, UnreversedContribution(rev), ContributionAmount);
  }

  /**
   * Reversing contribution `cs[k]` removes its amount from its member's totals and from the
   * pool, and changes no other member's total.
   */
  lemma ReversingContributionExcludesIt(cs: seq<Contribution>, rev: set<RecordId>, k: nat, m: MemberId, asOf: Option<Date>)
    requires DistinctContributionIds(cs) && k < |cs| && cs[k].id !in rev
    ensures ContributionTotal(cs, rev + {cs[k].id}, m, asOf) ==
      ContributionTotal(cs, rev, m, asOf) - if CountsContribution(cs[k], rev, m, asOf) then cs[k].amount else 0.0
    ensures PoolTotal(cs, rev + {cs[k].id}) == PoolTotal(cs, rev) - cs[k].amount
  {
    var rev' := rev + {cs[k].id};
    SumFilterExclude(cs, ContributionFilter(rev, m, asOf), ContributionFilter(rev', m, asOf), k, ContributionAmount);
    SumFilterExclude(cs, UnreversedContribution(rev), UnreversedContribution(rev'), k, ContributionAmount);
  }

  /** Reversing penalty `ps[k]` removes its amount from its member's penalty totals only. */
  lemma ReversingPenaltyExcludesIt(ps: seq<Penalty>, rev: set<RecordId>, k: nat, m: MemberId, asOf: Option<Date>)
    requires DistinctPenaltyIds(ps) && k < |ps| && ps[k].id !in rev
    ensures PenaltyTotal(ps, rev + {ps[k].id}, m, asOf) ==
      PenaltyTotal(ps, rev, m, asOf) - if CountsPenalty(ps[k], rev, m, asOf) then ps[k].amount else 0.0
  {
    SumFilterExclude(ps, PenaltyFilter(rev, m, asOf), PenaltyFilter(rev + {ps[k].id}, m, asOf), k, PenaltyAmount);
  }
}

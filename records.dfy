/** The immutable ledger records and the snapshot of all tables (common/models). */
module Records {
  import opened Wrappers
  import opened Basics
  import opened Members
  import opened Seqs

  /**
   * A policy period for contributions with inclusive amount bounds. The stored minimum is never
   * null (it defaults to 0) and only the maximum is optional; `minAmount` is an `Option` all
   * the same, because the service tests both bounds with `is not None`, and `None` is then a
   * harmless generalisation.
   */
  datatype ContributionWindow = ContributionWindow(
    id: RecordId, startAt: Timestamp, endAt: Timestamp,
    minAmount: Option<Money>, maxAmount: Option<Money>, name: string)

  /** A member's savings payment within a window. */
  datatype Contribution = Contribution(
    id: RecordId, member: MemberId, window: RecordId, amount: Money, recordedAt: Timestamp)

  /** A late or out-of-bounds fee, optionally tied to a window. */
  datatype Penalty = Penalty(
    id: RecordId, member: MemberId, amount: Money, reason: string,
    window: Option<RecordId>, recordedAt: Timestamp)

  /** A pooled purchase on a day at a unit value. */
  datatype Investment = Investment(id: RecordId, recordedAt: Date, unitValue: Money, totalUnits: Money)

  /** A member's units in one investment. */
  datatype HoldingShare = HoldingShare(id: RecordId, investment: RecordId, member: MemberId, units: Money)

  /** A long-term asset converted from holdings. */
  datatype Asset = Asset(
    id: RecordId, name: string, recordedPurchaseValue: Money, conversionAt: Date,
    sourceInvestment: Option<RecordId>)

  /** A member's percentage of one asset, fixed at conversion. */
  datatype AssetShare = AssetShare(id: RecordId, asset: RecordId, member: MemberId, sharePercentage: Money)

  /** An ownership transfer; the buyer is absent when the group buys. */
  datatype BuyOut = BuyOut(
    id: RecordId, seller: MemberId, buyer: Option<MemberId>, nominalValuation: Money, recordedAt: Timestamp)

  datatype ExitRequestStatus = Queued | Fulfilled | Cancelled

  /** A member's request to leave, with its place in the exit queue. */
  datatype ExitRequest = ExitRequest(
    id: RecordId, member: MemberId, requestedAt: Timestamp, queuePosition: nat,
    status: ExitRequestStatus, fulfilledAt: Option<Timestamp>, amountEntitled: Money)

  /** The record types a reversal can point at. */
  datatype ReversalRecordType =
    ContributionRecord | PenaltyRecord | HoldingShareRecord | AssetShareRecord | ExitRequestRecord | BuyOutRecord

  /** An audit correction naming an original record by type and primary key. */
  datatype Reversal = Reversal(id: RecordId, originalRecordType: ReversalRecordType, originalRecordId: nat, reason: string)

  /** One consistent view of every table of the store. */
  datatype Ledger = Ledger(
    members: seq<Member>,
    windows: seq<ContributionWindow>,
    contributions: seq<Contribution>,
    penalties: seq<Penalty>,
    investments: seq<Investment>,
    holdingShares: seq<HoldingShare>,
    assets: seq<Asset>,
    assetShares: seq<AssetShare>,
    buyOuts: seq<BuyOut>,
    exitRequests: seq<ExitRequest>,
    reversals: seq<Reversal>)

  /**
   * Every auto-incremented table holds the rows with primary keys 1, 2, ... in creation order.
   * Member keys are UUIDs and are not constrained.
   */
  ghost predicate WellKeyed(l: Ledger)
  {
    && (forall i :: 0 <= i < |l.windows| ==> l.windows[i].id == i + 1)
    && (forall i :: 0 <= i < |l.contributions| ==> l.contributions[i].id == i + 1)
    && (forall i :: 0 <= i < |l.penalties| ==> l.penalties[i].id == i + 1)
    && (forall i :: 0 <= i < |l.investments| ==> l.investments[i].id == i + 1)
    && (forall i :: 0 <= i < |l.holdingShares| ==> l.holdingShares[i].id == i + 1)
    && (forall i :: 0 <= i < |l.assets| ==> l.assets[i].id == i + 1)
    && (forall i :: 0 <= i < |l.assetShares| ==> l.assetShares[i].id == i + 1)
    && (forall i :: 0 <= i < |l.buyOuts| ==> l.buyOuts[i].id == i + 1)
    && (forall i :: 0 <= i < |l.exitRequests| ==> l.exitRequests[i].id == i + 1)
    && (forall i :: 0 <= i < |l.reversals| ==> l.reversals[i].id == i + 1)
  }

  /**
   * The holdings the investment service creates: every share holds a positive number of units
   * of an investment priced above zero.
   */
  ghost predicate PositiveHoldings(l: Ledger)
  {
    && (forall i :: 0 <= i < |l.holdingShares| ==> l.holdingShares[i].units > 0.0)
    && (forall j :: 0 <= j < |l.investments| ==> l.investments[j].unitValue > 0.0)
  }

  /** `Member.objects.get(pk=id)` as an optional result. */
  function FindMember(ms: seq<Member>, id: MemberId): (r: Option<Member>)
    ensures r.Some? ==> r.value in ms && r.value.id == id
    ensures r.None? ==> forall i :: 0 <= i < |ms| ==> ms[i].id != id
  {
    match FirstIndex(ms, (m: Member) => m.id == id)
    case Some(i) => Some(ms[i])
    case None => None
  }

  /** `ContributionWindow.objects.get(pk=id)` as an optional result. */
  function FindWindow(ws: seq<ContributionWindow>, id: RecordId): (r: Option<ContributionWindow>)
    ensures r.Some? ==> r.value in ws && r.value.id == id
    ensures r.None? ==> forall i :: 0 <= i < |ws| ==> ws[i].id != id
  {
    match FirstIndex(ws, (w: ContributionWindow) => w.id == id)
    case Some(i) => Some(ws[i])
    case None => None
  }

  /** The investment a foreign key names, absent when no row has that key. */
  function FindInvestment(invs: seq<Investment>, id: RecordId): (r: Option<Investment>)
    ensures r.Some? ==> r.value in invs && r.value.id == id
    ensures r.None? ==> forall i :: 0 <= i < |invs| ==> invs[i].id != id
  {
    match FirstIndex(invs, (v: Investment) => v.id == id)
    case Some(i) => Some(invs[i])
    case None => None
  }

  /** The asset a foreign key names, absent when no row has that key. */
  function FindAsset(assets: seq<Asset>, id: RecordId): (r: Option<Asset>)
    ensures r.Some? ==> r.value in assets && r.value.id == id
    ensures r.None? ==> forall i :: 0 <= i < |assets| ==> assets[i].id != id
  {
    match FirstIndex(assets, (a: Asset) => a.id == id)
    case Some(i) => Some(assets[i])
    case None => None
  }

  /** The row holding the exit request with primary key `id`. */
  function ExitRequestIndex(ers: seq<ExitRequest>, id: RecordId): (k: Option<nat>)
    ensures k.Some? ==> k.value < |ers| && ers[k.value].id == id
    ensures k.None? ==> forall i :: 0 <= i < |ers| ==> ers[i].id != id
  {
    FirstIndex(ers, (r: ExitRequest) => r.id == id)
  }
}

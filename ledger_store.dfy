/** The relational store behind the services: one append-only table per record type. */
module LedgerStore {
  import opened Members
  import opened Records

  /**
   * The store. Each table is a sequence of rows in creation order; the services append rows,
   * and only fulfilment of an exit request rewrites fields of an existing row.
   */
  class Store {
    var members: seq<Member>
    var windows: seq<ContributionWindow>
    var contributions: seq<Contribution>
    var penalties: seq<Penalty>
    var investments: seq<Investment>
    var holdingShares: seq<HoldingShare>
    var assets: seq<Asset>
    var assetShares: seq<AssetShare>
    var buyOuts: seq<BuyOut>
    var exitRequests: seq<ExitRequest>
    var reversals: seq<Reversal>

    /** All tables, as one value that the read views take. */
    function Snapshot(): Ledger
      reads this
    {
      Ledger(members, windows, contributions, penalties, investments, holdingShares,
             assets, assetShares, buyOuts, exitRequests, reversals)
    }

    /** Primary keys follow creation order in every auto-incremented table. */
    ghost predicate Valid()
      reads this
    {
      WellKeyed(Snapshot())
    }

    /** A store holding the given tables. */
    constructor (initial: Ledger)
      requires WellKeyed(initial)
      ensures Valid() && Snapshot() == initial
    {
      members, windows, contributions, penalties := initial.members, initial.windows, initial.contributions, initial.penalties;
      investments, holdingShares := initial.investments, initial.holdingShares;
      assets, assetShares, buyOuts := initial.assets, initial.assetShares, initial.buyOuts;
      exitRequests, reversals := initial.exitRequests, initial.reversals;
    }
  }
}

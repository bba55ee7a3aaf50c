# Ledger aggregation and allocation core of a savings cooperative

This project models the accounting core of a member-owned savings and investment cooperative. The
ledger is append-only. Members' contributions and penalties, pooled investments, asset conversions,
buy-outs and exit requests are stored as immutable records. A wrong record is never edited: a
`Reversal` naming its record type and primary key excludes it from every aggregate. Balances are
never stored either; the services derive them on demand from the ledger.

The model covers:

- **Members and roles** (`members.dfy`, `permissions.dfy`): member validation, which requires the
  base `MEMBER` role. The three permission classes are predicates over the requesting user and the
  HTTP method.
- **The store** (`ledger_store.dfy`, `records.dfy`): one table per record type, held as a `Store`
  class with one sequence field per table. `Snapshot()` is the consistent view the read services
  take. `Valid()` says every auto-incremented table holds keys 1, 2, … in creation order.
- **Reversal-aware totals** (`reversals.dfy`, `totals.dfy`): the set of reversed keys per record
  type, and the per-member and group sums every service computes.
- **Recording contributions and penalties** (`contribution_service.dfy`): window lookup and the
  amount bound checks.
- **Investments** (`investment_service.dfy`): eligible savings per member as of a day. Each member
  with positive eligibility gets holding units equal to eligibility divided by unit value.
- **Asset conversion** (`asset_service.dfy`): holding value per member as of a day. Each member
  with positive value gets an ownership percentage of the new asset.
- **The exit queue** (`exit_service.dfy`): the entitlement snapshot and first-in first-out queue
  positions. The only in-place update in the system is the queued-to-fulfilled transition.
- **Read views** (`position_service.dfy`, `statement_service.dfy`):
  - a member's position;
  - the group aggregates;
  - the date-bounded, chronologically ordered statement.
- **Generic lemmas** (`seqs.dfy`, `mapsums.dfy`): combinators for filters, projections, orderings
  and sums over query results and over per-member dictionaries.

How the source is represented:

- Money is an exact `real`.
- A day is an `int`. A timestamp is an `int` of seconds, and its day is `DateOf`.
- Member primary keys, which are UUIDs, are opaque numbers.
- A service that writes becomes a method of its service module that takes the `Store` and
  `modifies` it. Its `ensures` gives the whole new state
  in terms of the old snapshot: the rows appended, or the one row rewritten.
- A dictionary the source builds in a loop over a dictionary is modelled with the loop's arbitrary
  visiting order. It is specified relationally (`IsHoldingAllocation`, `IsAssetAllocation`), and
  the sums over it are proved order-independent.
- The reading services are functions of the snapshot.

Where the documented behaviour and the code differ, the model follows the code:

- `get_member_statement` itself accepts a start date after the end date and returns empty lists.
  Only the HTTP view rejects such a range. `StatementService.InvertedRangeIsEmpty` states the
  service's behaviour.
- The documented reconciliation "holding units add up to `total_units`" holds only when no
  member's eligible savings are negative. `total_pool` sums the negative values, but no share is
  created for them. `InvestmentService.AllocatedUnitsMatchTotal` proves the exact condition.

## Model

| member | source | states |
|---|---|---|
| Members.Clean | common/models/member.py:65-71 | validation passes exactly when a role list is present and contains the base participant role |
| Members.DefaultRolesAreBaseRole | common/models/member.py:33-37 | the default role list is the base role alone, without admin or auditor |
| Members.CleanRejectsWithoutBaseRole | common/models/member.py:65-71 | an absent role list, or one lacking the base role, is rejected with the roles error |
| Members.CleanAcceptsWithBaseRole | common/models/member.py:65-71 | any role list containing the base role is accepted, whatever else it holds |
| Members.NewMemberIsActiveAndValid | common/models/member.py:51-58 | a member created with default status and roles is active and passes validation |
| Permissions.GetMember | common/permissions.py:11-15 | there is a member exactly when a user is present, signed in and linked; it is that linked member |
| Permissions.MemberReadPermission | common/permissions.py:24-28 | granted exactly when a signed-in user has a linked member whose role list contains the base role; an absent list counts as empty |
| Permissions.MemberObjectPermission | common/permissions.py:30-32 | the object permission equals the plain permission for every object |
| Permissions.AdminPermission | common/permissions.py:43-47 | granted exactly when a signed-in user has a linked member holding the admin role |
| Permissions.AuditorPermission | common/permissions.py:55-61 | granted exactly when the method is GET, HEAD or OPTIONS and the linked member holds the auditor role |
| Permissions.AuditorNeverWrites | common/permissions.py:55-61 | every non-safe method is denied by the auditor permission whatever the roles |
| Permissions.AuditorWithoutAdminIsReadOnly | common/permissions.py:35-61 | an auditor who is not an administrator may GET through the auditor permission, may not POST, and fails the admin permission |
| Permissions.AnonymousIsDenied | common/permissions.py:11-61 | without a signed-in linked member all three permissions deny |
| Permissions.AbsentRolesGrantNothing | common/permissions.py:24-61 | a member with no stored role list is denied by all three permissions |
| Permissions.NewMemberPermissions | common/permissions.py:24-61 | a member created with the default roles may read but is neither administrator nor auditor |
| Basics.DateOf | common/services/investment_service.py:48 | the day of a timestamp contains it: day start <= t < next day start |
| Reversals.ReversedIds | common/services/investment_service.py:22-35 | a key is reversed for a record type exactly when some reversal names that type and key |
| Reversals.ReversalAddsTarget | common/services/position_service.py:28-65 | a new reversal adds exactly its target key to its own type's reversed set |
| Reversals.ReversalKeepsOtherTypes | common/services/position_service.py:28-65 | a reversal of one record type leaves every other type's reversed set unchanged |
| Reversals.ReversalIsIdempotent | common/services/position_service.py:28-65 | reversing an already reversed record changes no reversed set |
| Totals.ContributionTotalAppend | common/services/position_service.py:81-83 | a new contribution adds its amount to a member's total exactly when it is theirs, not reversed and within the day bound |
| Totals.PenaltyTotalAppend | common/services/position_service.py:85-87 | the same for penalties |
| Totals.PoolTotalAppend | common/services/position_service.py:149-151 | a new contribution adds its amount to the pool exactly when it is not reversed |
| Totals.ReversingContributionExcludesIt | common/services/exit_service.py:48-53 | reversing a contribution removes exactly its amount from the pool, and from its member's total when it counted there |
| Totals.ReversingPenaltyExcludesIt | common/services/exit_service.py:54-59 | reversing a penalty removes exactly its amount from its member's total |
| Records.FindMember | common/services/contribution_service.py:43 | the lookup result is a stored member with the key, and none means no row has that key |
| Records.FindWindow | common/services/contribution_service.py:42 | the lookup result is a stored window with the key, and none means no row has that key |
| Records.ExitRequestIndex | common/services/exit_service.py:92 | the row index found holds the key, and none means no row has that key |
| ContributionService.ContributionAmountError | common/services/contribution_service.py:46-52 | accepted exactly when the amount is positive and within both optional inclusive bounds; each error holds exactly under its own condition, checked in source order |
| ContributionService.BoundsAreInclusive | common/services/contribution_service.py:49-52 | an amount equal to the minimum or the maximum is accepted |
| ContributionService.ContributionOutcome | common/services/contribution_service.py:32-58 | unknown window, then unknown member, then the first failing amount check's own error (non-positive, below minimum, above maximum); on success the row gets the next key, the member, the window, the amount, and the given time or now |
| ContributionService.PenaltyOutcome | common/services/contribution_service.py:61-85 | unknown member, then a non-positive amount, then a named window that does not exist, each with its own error; on success the row has the next key, the reason or "" and the optional window |
| ContributionService.RecordedContributionCounts | common/services/contribution_service.py:53-58 | a recorded contribution that is not reversed raises its member's total and the pool by its amount, and no other member's total |
| ContributionService.RecordedPenaltyCounts | common/services/contribution_service.py:79-85 | a recorded penalty raises its member's penalty total by its amount and no other member's |
| ContributionService.ContributionKeepsKeys | common/services/contribution_service.py:53-58 | appending the next-keyed contribution keeps every table keyed by creation order |
| ContributionService.PenaltyKeepsKeys | common/services/contribution_service.py:79-85 | the same for penalties |
| ContributionService.RecordContribution | common/services/contribution_service.py:32-58 | returns the outcome for the old snapshot; the store gets exactly the new row on success and is unchanged on error |
| ContributionService.RecordPenalty | common/services/contribution_service.py:61-85 | the same for penalties |
| InvestmentService.Contributors | common/services/investment_service.py:47-55 | a member is a key exactly when they have a non-reversed contribution dated on or before the day |
| InvestmentService.Penalized | common/services/investment_service.py:57-64 | a member is a key exactly when they have a non-reversed penalty dated on or before the day |
| InvestmentService.ContributorsAppendExcluded | common/services/investment_service.py:47-55 | a reversed or later contribution adds no contributor |
| InvestmentService.PenalizedAppendExcluded | common/services/investment_service.py:57-64 | a reversed or later penalty adds no penalized member |
| InvestmentService.EligibleSavings | common/services/investment_service.py:38-72 | keys are the union of both groupings; each value is counted contributions minus counted penalties, negatives kept |
| InvestmentService.EligibleSavingsPerMember | common/services/investment_service.py:66-72 | the loop over the member union, in any order, builds exactly the eligible savings map |
| InvestmentService.ExcludedContributionIsIgnored | common/services/investment_service.py:47-50 | a contribution that is reversed or dated after the day leaves eligibility unchanged |
| InvestmentService.ExcludedPenaltyIsIgnored | common/services/investment_service.py:57-59 | a penalty that is reversed or dated after the day leaves eligibility unchanged |
| InvestmentService.OtherTypeReversalKeepsContributions | common/services/investment_service.py:22-27 | for every ledger, member and day bound, a reversal of any other type, even with a colliding key, leaves the member's counted contribution total and the contributor set unchanged |
| InvestmentService.EligibilityCanBeNegative | common/services/investment_service.py:66-71 | for every ledger and member, the member is in the map with a negative value exactly when their counted penalties exceed their counted contributions |
| InvestmentService.DeclaredOr | common/services/investment_service.py:101-109 | the declared total is used unless it is absent or zero, otherwise the fallback |
| InvestmentService.Scaled | common/services/investment_service.py:116 | converting amounts to units keeps the members |
| InvestmentService.AllocateHoldings | common/services/investment_service.py:113-121 | the loop creates one share per member with a positive amount, holding amount / unit value units, keyed consecutively |
| InvestmentService.AllocationValueIsPositivePool | common/services/investment_service.py:113-121 | the new units sum to the positive part of the pool divided by the unit value; one share per positive member |
| InvestmentService.AllocationCount | common/services/investment_service.py:113-115 | there are exactly as many shares as members with a positive amount |
| InvestmentService.AllocatedUnitsMatchTotal | common/services/investment_service.py:95-121 | the units sum to the whole pool over the unit value exactly when no member's amount is negative |
| InvestmentService.RecordedInvestmentReconciles | common/services/investment_service.py:106-121 | after recording with a positive pool, the units equal the positive pool over the unit value; they equal an undeclared total_units exactly when no member is negative |
| InvestmentService.AllocatedUnitsPositive | common/services/investment_service.py:114-116 | no created share holds zero or negative units |
| InvestmentService.AppendKeepsHoldingsPositive | common/services/investment_service.py:106-121 | appending positive shares and a positively priced investment keeps all holdings positive |
| InvestmentService.RecordingKeepsHoldingsPositive | common/services/investment_service.py:91-121 | recording an investment preserves the invariant that all units and unit values are positive |
| InvestmentService.InvestmentKeepsKeys | common/services/investment_service.py:98-103 | appending the next-keyed investment keeps every table keyed by creation order |
| InvestmentService.AllocationKeepsKeys | common/services/investment_service.py:106-121 | appending the investment and its shares keeps every table keyed by creation order |
| InvestmentService.AllocationIsRecorded | common/services/investment_service.py:106-122 | the positive-pool path produces exactly the recorded ledger |
| InvestmentService.EmptyPoolIsRecorded | common/services/investment_service.py:96-104 | with a pool of zero or less only the investment row is appended, with the declared units or zero |
| InvestmentService.RecordInvestment | common/services/investment_service.py:75-122 | a unit value of zero or less fails and changes nothing; otherwise the store becomes the recorded ledger shown above |
| AssetService.HoldingValuesAreMemberSums | common/services/asset_service.py:28-45 | keys are exactly the members with a counted holding share; each value is the sum of units × unit value over that member's counted shares |
| AssetService.HoldingValuePerMember | common/services/asset_service.py:36-45 | the accumulation loop over the joined shares builds exactly that map |
| AssetService.HoldingValuesPositive | common/services/asset_service.py:42-44 | with positive units and unit values every member's holding value is positive |
| AssetService.Percentages | common/services/asset_service.py:98 | the percentage map has the same members as the holding values |
| AssetService.AllocateAssetShares | common/services/asset_service.py:95-103 | the loop creates one share per member with positive value, holding value / total × 100, keyed consecutively |
| AssetService.SharesSumToHundred | common/services/asset_service.py:56-58 | the percentages sum to 100 exactly when no holding value is negative; then each lies in (0, 100] |
| AssetService.AssetAllocationCount | common/services/asset_service.py:95-97 | there are exactly as many shares as members with a positive value |
| AssetService.ResolvedSource | common/services/asset_service.py:83-85 | the source investment is kept exactly when the id is given and names a stored investment |
| AssetService.AssetKeepsKeys | common/services/asset_service.py:74-80 | appending the next-keyed asset keeps every table keyed by creation order |
| AssetService.AssetSharesKeepKeys | common/services/asset_service.py:87-103 | appending the asset and its shares keeps every table keyed by creation order |
| AssetService.NoSharesIsRecorded | common/services/asset_service.py:72-81 | with no positive total only the asset is appended, with the source id as given |
| AssetService.SharesAreRecorded | common/services/asset_service.py:83-104 | the positive-total path produces exactly the recorded ledger, with the source resolved by lookup |
| AssetService.RecordedAssetSplitsWhole | common/services/asset_service.py:56-58 | a recorded conversion with no negative holding value creates shares summing to exactly 100 |
| AssetService.PositiveHoldingsSplitWhole | common/services/asset_service.py:70-103 | on a ledger whose holdings are all positive, a conversion with holdings always sums to 100 |
| AssetService.RecordAsset | common/services/asset_service.py:48-104 | a negative purchase value fails and changes nothing; otherwise the store becomes the recorded ledger |
| ExitService.Entitlement | common/services/exit_service.py:41-60 | the entitlement is never negative, is at least the net contributions, and is either zero or the net contributions |
| ExitService.EntitlementIsFlooredEligibility | common/services/exit_service.py:41-60 | once every record is on or before a day, the entitlement is that day's eligible savings floored at zero, so both services share one definition |
| ExitService.NoRecordsNoTotal | common/services/exit_service.py:48-59 | a member absent from the eligibility map has zero contribution and penalty totals |
| ExitService.MaxQueuedPosition | common/services/exit_service.py:70-74 | the maximum position among queued, non-reversed requests, or 0 when there are none |
| ExitService.NextQueuePosition | common/services/exit_service.py:70-75 | the next position is at least 1 |
| ExitService.NextPositionIsBehindQueue | common/services/exit_service.py:70-75 | the next position is greater than every queued one; it is 1 exactly when none is positive, and otherwise one past an existing one |
| ExitService.MaxQueuedAppend | common/services/exit_service.py:70-74 | a new row raises the maximum only if it is queued, not reversed and further back |
| ExitService.WithExitRequest | common/services/exit_service.py:77-82 | one request is appended and nothing else changes |
| ExitService.CreatedRequestIsQueued | common/services/exit_service.py:63-82 | the new request is queued, unfulfilled, keyed next and behind every queued request; it snapshots the non-negative entitlement |
| ExitService.CreateAll | common/services/exit_service.py:63-82 | creating requests one after another adds one row each and no reversals |
| ExitService.CreationsTakeConsecutivePositions | common/services/exit_service.py:65-75 | N requests created in a row take positions k+1 … k+N behind the queue's maximum k |
| ExitService.CreateAllKeepsPrefix | common/services/exit_service.py:77-82 | earlier requests are not renumbered or changed |
| ExitService.FromEmptyQueuePositionsStartAtOne | common/services/exit_service.py:70-75 | from an empty queue, N requests take exactly positions 1 … N |
| ExitService.FulfilledRequest | common/services/exit_service.py:95-99 | fulfilled, with fulfilled_at now, the new amount if given or the old one, key, member, time and position unchanged |
| ExitService.FulfilledLeavesQueue | common/services/exit_service.py:95-99 | a fulfilled request is no longer in the queue |
| ExitService.FulfilmentFreesPosition | common/services/exit_service.py:70-75 | when one request is the only queued one, the next position is one past it, and after it is fulfilled, with any amount, the next position is 1 again |
| ExitService.ReversalFreesPosition | common/services/exit_service.py:69-75 | with distinct request keys, reversing the only queued request makes the next position 1 |
| ExitService.CreationKeepsKeys | common/services/exit_service.py:77-82 | appending the new request keeps every table keyed by creation order |
| ExitService.CreateExitRequest | common/services/exit_service.py:63-82 | an unknown member fails and changes nothing; otherwise the new request is returned and appended |
| ExitService.FulfilmentKeepsKeys | common/services/exit_service.py:95-99 | fulfilment rewrites one row, keeps all keys and every other request |
| ExitService.FulfillExitRequest | common/services/exit_service.py:85-100 | an unknown id or a request that is not queued fails and changes nothing; otherwise that row alone becomes fulfilled |
| PositionService.LatestExitRequest | common/services/position_service.py:118-125 | the result is the member's non-reversed request with the latest time; none exactly when they have no such request |
| PositionService.MemberPosition | common/services/position_service.py:133-140 | every position carries the fixed source-of-truth notice |
| PositionService.EntitlementFromPosition | common/services/position_service.py:81-87 | the exit entitlement is the position's contributions minus penalties, floored at zero |
| PositionService.TotalsWithoutRecordsAreZero | common/services/position_service.py:81-87 | a member without counted records has totals of 0 |
| PositionService.HoldingsBreakdownIsPerShare | common/services/position_service.py:89-102 | one row per non-reversed holding share of the member whose investment exists, carrying its units and its investment's price and day, newest first, none lost |
| PositionService.AssetsBreakdownIsPerShare | common/services/position_service.py:104-116 | one row per non-reversed asset share of the member whose asset exists, carrying its percentage and the asset's purchase value, newest first, none lost |
| PositionService.HoldingReversalOnlyAffectsHoldings | common/services/position_service.py:76-116 | reversing a holding share changes no part of any position except the holdings breakdown |
| PositionService.GroupAggregatesOf | common/services/position_service.py:143-155 | the member count is the number of members, whatever their status |
| PositionService.AllTimeContributors | common/services/position_service.py:149-151 | a member is a contributor exactly when they have a non-reversed contribution |
| PositionService.MemberTotals | common/services/position_service.py:81-83 | one entry per contributor holding their all-time contribution total |
| PositionService.PoolIsSumOfMemberTotals | common/services/position_service.py:143-155 | the sum of all non-reversed contributions equals the sum of the per-contributor all-time totals; penalties do not reduce it |
| PositionService.GroupPoolIsSumOfPositions | common/services/position_service.py:143-155 | the group aggregates' pool equals the sum, over the members with a non-reversed contribution, of the contributions total in each member's position |
| PositionService.MemberTotalsAppend | common/services/position_service.py:149-151 | a new contribution moves the sum of member totals exactly as it moves the pool |
| StatementService.MemberStatement | common/services/statement_service.py:63-189 | the bounds are echoed back, and every list is ascending by its own record's time and is a permutation of the rows matching that list's filter |
| StatementService.StatementMembership | common/services/statement_service.py:73-169 | a record is listed exactly when it is the member's (as seller or buyer for buy-outs), not reversed under its own type, and its day is within the inclusive bounds |
| StatementService.StatementInvestmentMembership | common/services/statement_service.py:118-139 | a row is listed exactly when one of the member's non-reversed holding shares yields it and its investment's day is in range |
| StatementService.InvertedRangeIsEmpty | common/services/statement_service.py:85-169 | a start day after the end day gives five empty lists |
| StatementService.StatementSumsMatchTotals | common/services/statement_service.py:79-116 | with no start day the listed contributions and penalties sum to the totals as of the end day |
| StatementService.UnboundedStatementMatchesPosition | common/services/statement_service.py:79-116 | without bounds the listed contributions and penalties sum to the position's totals |
| Seqs.SortBy | common/services/statement_service.py:83 | the ordered list is ascending by the key and a permutation of the query result |
| Seqs.SumBySorted | common/services/statement_service.py:83 | ordering a query result does not change its sum |
| Seqs.FilterMapSources | common/services/position_service.py:89-102 | each projected row comes from one kept input row, in order, and no kept row is lost |

## Left out

- Decimal arithmetic: amounts are exact reals. There is no 28-digit context rounding, no
  quantization to the columns' decimal places, and no `float()` conversion of output values.
- The source has no remainder-correction step for rounded percentages or units, and the model
  needs none: with exact reals they reconcile exactly.
- Date and time parsing: ISO strings, `replace("Z", ...)`, time zones. A day is an integer; the
  day of a timestamp is its integer quotient by 86400 (UTC).
- Clocks: `timezone.now()` and the `auto_now_add` creation times are the parameter `now`.
  `created_at` and `updated_at` columns are not modelled.
- `created_by` columns and the member's name and contact fields are not modelled.
- Concurrency and transactions: two concurrent `create_exit_request` calls can read the same
  maximum. The model is sequential, so `CreationsTakeConsecutivePositions` covers back-to-back
  requests only.
- HTTP views, serializers, URLs, the admin site, authentication tokens and the statement view's
  `from_date > to_date` rejection are not part of this model. `common/services/buyout_service.py`
  is not part of this model; buy-out rows are only read, by the statement.
- The permission classes' `request` and `view` are reduced to the user and the method. A linked
  member object is always truthy.
- Foreign-key integrity for shares is not assumed. A share whose investment or asset row is
  missing is dropped by the joins, and an empty conversion stores its source id unchecked.
- The statement's join of contributions to their windows (`select_related("window")`) is not
  modelled: the statement assumes every contribution's window row exists. The window foreign key
  is `on_delete=PROTECT` and windows are never deleted, and `RecordContribution` appends only
  rows whose window was found, so a contribution without its window does not arise.
- Row order under ties. SQL leaves ties in `order_by` unspecified:
  - the statement model fixes one order among equal timestamps. `MemberStatement` states that
    each list is ascending and a permutation of the matching rows, so no copy of a row is
    dropped or repeated;
  - `PositionService.LatestExitRequest` keeps the earliest row among requests made at the same
    instant;
  - the breakdowns' `-created_at` ordering is modelled as reverse table order.
- Dictionary iteration order: the source's dictionaries keep insertion order. `eligible` follows
  the order of the member set built from both groupings, and `holding_values` follows the order
  in which members first appear among the newest-first shares. The model lets the loops take
  members in any order, which includes the source's, and their contracts hold for every order.
- Primary keys are modelled without gaps: `Valid()` says every auto-incremented table holds keys
  1, 2, … in creation order. A database sequence can skip values, for example after a rolled-back
  insert. Lemmas whose requires name the next key (`RecordedContributionCounts`,
  `RecordedPenaltyCounts`, `CreationsTakeConsecutivePositions`) rely on this idealisation.
- The CANCELLED exit status exists in the data model, but no operation of the services sets it.
- PositionService.MemberPosition: its own contract states only the notice. Its totals,
  breakdowns and exit summary are stated by `EntitlementFromPosition`,
  `TotalsWithoutRecordsAreZero`, `HoldingsBreakdownIsPerShare`, `AssetsBreakdownIsPerShare`,
  `HoldingReversalOnlyAffectsHoldings` and `LatestExitRequest`.
- StatementService.MemberStatement: its own contract states the echoed bounds, the ordering and
  that each list is a permutation of the matching rows. Which rows match is stated by
  `StatementMembership` and `StatementInvestmentMembership`.

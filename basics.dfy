/** Scalar domains shared by every record type and the errors the services raise. */
module Basics {

  /** Monetary amounts and unit counts, kept exact. */
  type Money = real

  /** A calendar day, numbered from a fixed epoch. */
  type Date = int

  /** A point in time, in seconds from the same epoch. */
  type Timestamp = int

  /** Auto-incremented primary key of a ledger record. */
  type RecordId = nat

  /** Primary key of a member (a UUID in the store, an opaque number here). */
  type MemberId = nat

  const SecondsPerDay: int := 86400

  /** The calendar day a timestamp falls on (the `__date` projection of a datetime). */
  function DateOf(t: Timestamp): (d: Date)
    ensures d * SecondsPerDay <= t < (d + 1) * SecondsPerDay
  {
    t / SecondsPerDay
  }

  /** Kinds of record a lookup by primary key can fail to find. */
  datatype Entity = MemberEntity | WindowEntity | ExitRequestEntity

  /** The exceptions the services raise, one constructor per distinct failure. */
  datatype ServiceError =
    | NotFound(entity: Entity)    // `DoesNotExist` from a lookup by primary key
    | NonPositiveAmount           // "Amount must be positive"
    | BelowWindowMin              // "Amount below window min_amount"
    | AboveWindowMax              // "Amount above window max_amount"
    | NonPositiveUnitValue        // "Unit value must be positive"
    | NegativePurchaseValue       // "recorded_purchase_value must be >= 0"
    | NotQueued                   // "Exit request ... is not queued"
}

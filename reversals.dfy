/**
 * The reversal index: for one record type, the primary keys that some reversal points at.
 * Every aggregate excludes these keys for that type only.
 */
module Reversals {
  import opened Basics
  import opened Records

  /** The keys reversed under record type `t`. */
  function ReversedIds(rs: seq<Reversal>, t: ReversalRecordType): (ids: set<RecordId>)
    ensures forall id :: id in ids <==>
      exists i :: 0 <= i < |rs| && rs[i].originalRecordType == t && rs[i].originalRecordId == id
  {
    if rs == [] then {}
    else
      var n := |rs| - 1;
      var earlier := ReversedIds(rs[..n], t);
      assert forall i :: 0 <= i < n ==> rs[..n][i] == rs[i];
      if rs[n].originalRecordType == t then earlier + {rs[n].originalRecordId} else earlier
  }

  /** A new reversal adds its target to the index of its own type. */
  lemma ReversalAddsTarget(rs: seq<Reversal>, r: Reversal)
    ensures ReversedIds(rs + [r], r.originalRecordType) == ReversedIds(rs, r.originalRecordType) + {r.originalRecordId}
  {
    assert (rs + [r])[..|rs|] == rs;
  }

  /** A reversal of one type leaves the index of every other type unchanged. */
  lemma ReversalKeepsOtherTypes(rs: seq<Reversal>, r: Reversal, t: ReversalRecordType)
    requires t != r.originalRecordType
    ensures ReversedIds(rs + [r], t) == ReversedIds(rs, t)
  {
    assert (rs + [r])[..|rs|] == rs;
  }

  /** Reversing a record that is already reversed changes no index. */
  lemma ReversalIsIdempotent(rs: seq<Reversal>, r: Reversal, t: ReversalRecordType)
    requires r.originalRecordId in ReversedIds(rs, r.originalRecordType)
    ensures ReversedIds(rs + [r], t) == ReversedIds(rs, t)
  {
    assert (rs + [r])[..|rs|] == rs;
  }
}

/** The in-process half of slot acquisition: the claim set and the choice of a new slot index. */
module Pool {
  import opened Overlay

  type SlotId = nat

  // ---- next_slot_index ----

  /** The first position at or after `i` whose entry is not the position itself. */
  function NextFrom(existing: seq<nat>, i: nat): nat
    requires i <= |existing|
    decreases |existing| - i
  {
    if i < |existing| && existing[i] == i then NextFrom(existing, i + 1) else i
  }

  function NextIndex(existing: seq<nat>): nat {
    NextFrom(existing, 0)
  }

  method NextSlotIndex(existing: seq<nat>) returns (r: nat)
    ensures r == NextIndex(existing)
  {
    for i := 0 to |existing|
      invariant NextIndex(existing) == NextFrom(existing, i)
    {
      if existing[i] != i { return i; }
    }
    return |existing|;
  }

  lemma {:induction false} NextFromStops(existing: seq<nat>, i: nat)
    requires i <= |existing| && forall k | 0 <= k < i :: existing[k] == k
    ensures var r := NextFrom(existing, i);
      i <= r <= |existing| && (forall k | 0 <= k < r :: existing[k] == k) && (r < |existing| ==> existing[r] != r)
    decreases |existing| - i
  {
    if i < |existing| && existing[i] == i { NextFromStops(existing, i + 1); }
  }

  predicate Sorted(q: seq<nat>) {
    forall i, j | 0 <= i < j < |q| :: q[i] <= q[j]
  }

  predicate Strict(q: seq<nat>) {
    forall i, j | 0 <= i < j < |q| :: q[i] < q[j]
  }

  /** Position `i` repeats the value just before it, after a gap-free start, and `i` itself
      follows later: two directories that parse to the same number. */
  predicate RepeatHidesIndex(q: seq<nat>, i: nat) {
    0 < i < |q| && (forall k | 0 <= k < i :: q[k] == k) && q[i] == i - 1 && i in q
  }

  /** The chosen index never exceeds the number of scanned slots and leaves no gap below it. It is
      unused exactly when no repeated entry hides it; on a strictly ascending scan it is therefore
      the least unused index. */
  lemma NextIndexIsLeastUnused(q: seq<nat>)
    requires Sorted(q)
    ensures NextIndex(q) <= |q|
    ensures forall k | 0 <= k < NextIndex(q) :: k in q
    ensures NextIndex(q) in q <==> exists i :: RepeatHidesIndex(q, i)
    ensures Strict(q) ==> NextIndex(q) !in q
  {
    NextFromStops(q, 0);
    var r := NextIndex(q);
    forall k | 0 <= k < r ensures k in q { assert q[k] == k; }
    if r in q {
      var j :| 0 <= j < |q| && q[j] == r;
      assert r < j && q[r] <= q[j];
      assert r > 0 && q[r - 1] == r - 1;
      assert RepeatHidesIndex(q, r);
    }
    forall i | RepeatHidesIndex(q, i) ensures i == r {}
  }

  /** Such a scan exists: `0`, `00` and `1` give an index that is taken. */
  lemma RepeatedScanPicksUsedIndex()
    ensures Sorted([0, 0, 1]) && NextIndex([0, 0, 1]) in [0, 0, 1]
  {
    assert NextFrom([0, 0, 1], 1) == 1;
    assert [0, 0, 1][2] == 1;
  }

  // ---- the claim set ----

  /** How an acquisition ends: a candidate recycled, a new slot prepared, or an error. */
  datatype Acquisition = Recycled(id: SlotId, k: nat) | Prepared(id: SlotId, index: nat) | Failed

  class RepoPoolManager {
    var claiming: set<SlotId>

    constructor ()
      ensures claiming == {}
    {
      claiming := {};
    }

    method ClaimSlot(id: SlotId) returns (claimed: bool)
      modifies this
      ensures claimed <==> id !in old(claiming)
      ensures claiming == old(claiming) + {id}
    {
      claimed := id !in claiming;
      claiming := claiming + {id};
    }

    /** `Drop` of a guard. */
    method DropClaim(id: SlotId)
      modifies this
      ensures claiming == old(claiming) - {id}
    {
      claiming := claiming - {id};
    }

    /** Claim the first candidate nobody holds. Falling through means every one was held. */
    method ClaimFirst(candidates: seq<SlotId>) returns (found: Option<nat>)
      modifies this
      ensures found.Some? ==>
        && found.value < |candidates|
        && candidates[found.value] !in old(claiming)
        && (forall k | 0 <= k < found.value :: candidates[k] in old(claiming))
        && claiming == old(claiming) + {candidates[found.value]}
      ensures found.None? ==> claiming == old(claiming) && forall k | 0 <= k < |candidates| :: candidates[k] in claiming
    {
      for i := 0 to |candidates|
        invariant claiming == old(claiming)
        invariant forall k | 0 <= k < i :: candidates[k] in claiming
      {
        var claimed := ClaimSlot(candidates[i]);
        if claimed { return Some(i); }
        assert claiming == old(claiming);
      }
      found := None;
    }

    /** `acquire_slot` running alone. `scan` is the sorted list of slots on disk, or nothing when
        scanning fails; `inserted` the id of the new slot's row, or nothing when inserting fails. The
        first unclaimed candidate is recycled; only when there is none is a new slot prepared, at an
        index below the limit. An acquired slot is the one new claim, and no error leaves one. */
    method AcquireSlot(
      candidates: seq<SlotId>, recycled: bool, scan: Option<seq<nat>>, limit: nat, prepared: bool,
      inserted: Option<SlotId>)
      returns (r: Acquisition)
      modifies this
      ensures r.Failed? ==> claiming == old(claiming)
      ensures !r.Failed? ==> r.id !in old(claiming) && claiming == old(claiming) + {r.id}
      ensures r.Recycled? <==> recycled && exists k :: 0 <= k < |candidates| && candidates[k] !in old(claiming)
      ensures r.Recycled? ==>
        r.k < |candidates| && candidates[r.k] == r.id && forall k | 0 <= k < r.k :: candidates[k] in old(claiming)
      ensures r.Prepared? <==>
        && (forall k | 0 <= k < |candidates| :: candidates[k] in old(claiming))
        && scan.Some? && |scan.value| < limit && prepared && inserted.Some? && inserted.value !in old(claiming)
      ensures r.Prepared? ==> Some(r.id) == inserted && r.index == NextIndex(scan.value) < limit
    {
      var found := ClaimFirst(candidates);
      if found.Some? {
        if recycled { return Recycled(candidates[found.value], found.value); }
        DropClaim(candidates[found.value]);
        return Failed;
      }
      if scan.None? || |scan.value| >= limit { return Failed; }
      var index := NextSlotIndex(scan.value);
      NextFromStops(scan.value, 0);
      if !prepared || inserted.None? { return Failed; }
      var claimed := ClaimSlot(inserted.value);
      if !claimed { return Failed; }
      return Prepared(inserted.value, index);
    }
  }
}

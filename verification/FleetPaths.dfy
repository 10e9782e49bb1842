/** Sequences of steps of the launch and stop machine, and the one an acquisition takes. */
module FleetPaths {
  import opened Overlay
  import opened Pool
  import opened Fleet

  ghost predicate IsPath(s: State, acts: seq<Action>, s': State)
    decreases acts
  {
    if acts == [] then s' == s
    else Enabled(s, acts[0]) && IsPath(Do(s, acts[0]), acts[1..], s')
  }

  lemma Before(s: State, a: Action, acts: seq<Action>, s': State) returns (all: seq<Action>)
    requires Enabled(s, a) && IsPath(Do(s, a), acts, s')
    ensures all == [a] + acts && IsPath(s, all, s')
  {
    all := [a] + acts;
    assert all[1..] == acts;
  }

  // ---- an acquisition running alone ----

  /** What the calls of an acquisition answer. A failing scan, preparation or insertion is `None` or
      false; `made` says that a failing preparation left its directory. */
  datatype Answers = Answers(
    recycled: bool, scan: Option<seq<nat>>, prepared: bool, made: bool, inserted: Option<SlotId>)

  /** The position of the first candidate nobody holds. */
  function FirstFree(candidates: seq<SlotId>, claims: set<SlotId>, k: nat): (r: nat)
    requires k <= |candidates|
    ensures k <= r <= |candidates| && (r < |candidates| ==> candidates[r] !in claims)
    ensures forall i | k <= i < r :: candidates[i] in claims
    decreases |candidates| - k
  {
    if k < |candidates| && candidates[k] in claims then FirstFree(candidates, claims, k + 1) else k
  }

  /** The launch has its slot, as its one new claim. */
  predicate Got(claims: set<SlotId>, s': State, l: Id, id: SlotId) {
    && l in s'.launches && s'.launches[l] == Acquired(id)
    && id !in claims && s'.claims == claims + {id}
  }

  /** The launch is over and holds nothing. */
  predicate GaveUp(claims: set<SlotId>, s': State, l: Id) {
    l !in s'.launches && s'.claims == claims
  }

  lemma EndPath(s: State, l: Id, a: Action) returns (acts: seq<Action>)
    requires Enabled(s, a)
    ensures acts == [a] && IsPath(s, acts, Do(s, a))
  {
    acts := Before(s, a, [], Do(s, a));
  }

  /** Where the making of a new slot ends. */
  predicate NewSlotOutcome(
    claims: set<SlotId>, slots: map<SlotId, nat>, limit: nat, s': State, l: Id, a: Answers)
  {
    if a.scan.Some? && |a.scan.value| < limit && a.prepared && a.inserted.Some? && a.inserted.value !in claims
    then Got(claims, s', l, a.inserted.value) && s'.slots == slots[a.inserted.value := NextIndex(a.scan.value)]
    else GaveUp(claims, s', l)
  }

  /** Where an acquisition ends that still has the candidates from `k` on to try. */
  predicate Outcome(
    claims: set<SlotId>, slots: map<SlotId, nat>, limit: nat, s': State, l: Id,
    candidates: seq<SlotId>, k: nat, a: Answers)
    requires k <= |candidates|
  {
    var first := FirstFree(candidates, claims, k);
    if first == |candidates| then NewSlotOutcome(claims, slots, limit, s', l, a)
    else if a.recycled then Got(claims, s', l, candidates[first])
    else GaveUp(claims, s', l)
  }

  lemma {:induction false} TryPath(s: State, l: Id, c: seq<SlotId>, k: nat, a: Answers)
    returns (acts: seq<Action>, s': State)
    requires l in s.launches && k <= |c| && s.launches[l] == Trying(c, k)
    requires a.scan.Some? && a.inserted.Some? ==> CanInsert(s, a.inserted.value, NextIndex(a.scan.value))
    ensures IsPath(s, acts, s') && Outcome(s.claims, s.slots, s.limit, s', l, c, k, a)
    decreases |c| - k
  {
    if k == |c| {
      acts, s' := NewSlotPath(Move(s, l, Scanning), l, a);
      acts := FallThen(s, l, c, acts, s');
    } else if c[k] in s.claims {
      acts, s' := TryPath(Move(s, l, Trying(c, k + 1)), l, c, k + 1, a);
      acts := RefusedThen(s, l, c, k, acts, s');
    } else {
      acts, s' := RecyclePath(s, l, c, k, a.recycled);
    }
  }

  lemma FallThen(s: State, l: Id, c: seq<SlotId>, acts: seq<Action>, s': State) returns (all: seq<Action>)
    requires l in s.launches && s.launches[l] == Trying(c, |c|) && IsPath(Move(s, l, Scanning), acts, s')
    ensures IsPath(s, all, s')
  {
    all := Before(s, Acquire(l, FallThrough), acts, s');
  }

  lemma RefusedThen(s: State, l: Id, c: seq<SlotId>, k: nat, acts: seq<Action>, s': State)
    returns (all: seq<Action>)
    requires l in s.launches && k < |c| && s.launches[l] == Trying(c, k) && c[k] in s.claims
    requires IsPath(Move(s, l, Trying(c, k + 1)), acts, s')
    ensures IsPath(s, all, s')
  {
    RefusedStep(s, l, c, k);
    all := Before(s, Acquire(l, Try), acts, s');
  }

  lemma RefusedStep(s: State, l: Id, c: seq<SlotId>, k: nat)
    requires l in s.launches && k < |c| && s.launches[l] == Trying(c, k) && c[k] in s.claims
    ensures CanAcquire(s, l, Try) && Do(s, Acquire(l, Try)) == Move(s, l, Trying(c, k + 1))
  {
  }

  /** The next candidate is free: it is claimed, and given back when recycling it fails. */
  lemma RecyclePath(s: State, l: Id, c: seq<SlotId>, k: nat, recycled: bool) returns (acts: seq<Action>, s': State)
    requires l in s.launches && k < |c| && s.launches[l] == Trying(c, k) && c[k] !in s.claims
    ensures IsPath(s, acts, s') && if recycled then Got(s.claims, s', l, c[k]) else GaveUp(s.claims, s', l)
  {
    var id := c[k];
    var m := Claim(s, l, id, Recycling(id));
    acts := EndPath(m, l, Acquire(l, Recycle(recycled)));
    s' := Do(m, Acquire(l, Recycle(recycled)));
    acts := Before(s, Acquire(l, Try), acts, s');
  }

  lemma NewSlotPath(s: State, l: Id, a: Answers) returns (acts: seq<Action>, s': State)
    requires l in s.launches && s.launches[l].Scanning?
    requires a.scan.Some? && a.inserted.Some? ==> CanInsert(s, a.inserted.value, NextIndex(a.scan.value))
    ensures IsPath(s, acts, s')
    ensures NewSlotOutcome(s.claims, s.slots, s.limit, s', l, a)
  {
    if a.scan.None? {
      acts := EndPath(s, l, Record(l, Cancel));
      s' := Do(s, Record(l, Cancel));
      return;
    }
    var m := Do(s, Acquire(l, Scan(a.scan.value)));
    if |a.scan.value| >= s.limit {
      acts, s' := [], m;
    } else {
      acts, s' := PreparePath(m, l, a);
    }
    acts := Before(s, Acquire(l, Scan(a.scan.value)), acts, s');
  }

  /** The database takes a new slot row of this id and name. */
  predicate CanInsert(s: State, id: SlotId, index: nat) {
    id !in s.slots && forall other | other in s.slots :: s.slots[other] != index
  }

  lemma PreparePath(s: State, l: Id, a: Answers) returns (acts: seq<Action>, s': State)
    requires l in s.launches && s.launches[l].Preparing?
    requires a.inserted.Some? ==> CanInsert(s, a.inserted.value, s.launches[l].index)
    ensures IsPath(s, acts, s')
    ensures if a.prepared && a.inserted.Some? && a.inserted.value !in s.claims
      then Got(s.claims, s', l, a.inserted.value) && s'.slots == s.slots[a.inserted.value := s.launches[l].index]
      else GaveUp(s.claims, s', l)
  {
    var prepare := Acquire(l, Prepare(a.prepared, a.made));
    var m := Do(s, prepare);
    if !a.prepared {
      acts, s' := [], m;
    } else {
      acts, s' := InsertPath(m, l, a.inserted);
    }
    acts := Before(s, prepare, acts, s');
  }

  lemma InsertPath(s: State, l: Id, inserted: Option<SlotId>) returns (acts: seq<Action>, s': State)
    requires l in s.launches && s.launches[l].Inserting?
    requires inserted.Some? ==> CanInsert(s, inserted.value, s.launches[l].index)
    ensures IsPath(s, acts, s')
    ensures if inserted.Some? && inserted.value !in s.claims
      then Got(s.claims, s', l, inserted.value) && s'.slots == s.slots[inserted.value := s.launches[l].index]
      else GaveUp(s.claims, s', l)
  {
    var insert := Acquire(l, InsertRow(if inserted.Some? then inserted.value else 0, inserted.Some?));
    var m := Do(s, insert);
    if inserted.None? {
      acts, s' := [], m;
    } else {
      acts := EndPath(m, l, Acquire(l, ClaimNew));
      s' := Do(m, Acquire(l, ClaimNew));
    }
    acts := Before(s, insert, acts, s');
  }

  /** Whatever its calls answer, an acquisition that runs alone takes the machine along one of its
      paths: to the first candidate nobody holds, if recycling it works; if there is none, to a new
      slot at the chosen index, if the scan leaves room and every call works; and otherwise to its
      end, without a claim left behind. */
  lemma AcquireIsPath(s: State, l: Id, candidates: seq<SlotId>, a: Answers) returns (acts: seq<Action>, s': State)
    requires l !in s.used && l !in s.launches && forall id :: id in candidates <==> Available(s, id)
    requires a.scan.Some? && a.inserted.Some? ==> CanInsert(s, a.inserted.value, NextIndex(a.scan.value))
    ensures IsPath(s, acts, s') && Outcome(s.claims, s.slots, s.limit, s', l, candidates, 0, a)
  {
    var query := Acquire(l, Query(candidates));
    acts, s' := TryPath(Do(s, query), l, candidates, 0, a);
    acts := Before(s, query, acts, s');
  }
}

/** Runs of the launch and stop machine in which slots stop being exclusive. */
module FleetFailures {
  import opened Pool
  import opened Fleet
  import opened FleetRuns

  // ---- reachable states, and sets of states that steps do not leave ----

  ghost predicate Reachable(s: State) {
    exists ss, acts :: IsRun(ss, acts) && ss[|acts|] == s
  }

  /** A set of states that steps do not leave. */
  ghost predicate Closed(r: iset<State>) {
    forall s, a | s in r && Enabled(s, a) :: Do(s, a) in r
  }

  ghost function AllReachable(): iset<State> {
    iset s | Reachable(s)
  }

  lemma ReachableClosed()
    ensures Closed(AllReachable())
  {
    forall s, a | s in AllReachable() && Enabled(s, a) ensures Do(s, a) in AllReachable() { ReachableStep(s, a); }
  }

  lemma ReachableStep(s: State, a: Action)
    requires Reachable(s) && Enabled(s, a)
    ensures Reachable(Do(s, a))
  {
    var ss, acts :| IsRun(ss, acts) && ss[|acts|] == s;
    var ss', acts' := ss + [Do(s, a)], acts + [a];
    forall i: nat | i < |acts'| ensures StepAt(ss', acts', i) {
      if i < |acts| { assert StepAt(ss, acts, i); }
    }
    assert IsRun(ss', acts') && ss'[|acts'|] == Do(s, a);
  }

  lemma Extend(r: iset<State>, s: State, a: Action) returns (s': State)
    requires Closed(r) && s in r && Enabled(s, a)
    ensures s' == Do(s, a) && s' in r
  {
    s' := Do(s, a);
  }

  lemma ProvisionOne(r: iset<State>, b: State, l: Id, id: SlotId) returns (s: State)
    requires Closed(r) && b in r && l in b.launches && b.launches[l] == Acquired(id)
    ensures s in r
    ensures s == b.(launches := b.launches[l := Recorded(id)], rows := b.rows[l := Row(Provisioning, id)])
  {
    s := Extend(r, b, Record(l, Provision(true)));
  }

  lemma RunOne(r: iset<State>, b: State, l: Id, id: SlotId) returns (s: State)
    requires Closed(r) && b in r && l in b.launches && b.launches[l] == Recorded(id)
    ensures s in r
    ensures s == b.(launches := b.launches[l := Up(id)], containers := b.containers + {l})
  {
    s := Extend(r, b, Record(l, Run(true)));
    s := Extend(r, s, Record(l, Ready(true, true)));
    assert b.launches[l := Starting(id)][l := Up(id)] == b.launches[l := Up(id)];
  }

  lemma FinalizeOne(r: iset<State>, b: State, l: Id, id: SlotId) returns (s: State)
    requires Closed(r) && b in r && l in b.launches && b.launches[l] == Up(id) && l in b.rows
    ensures s in r
    ensures s == b.(launches := b.launches[l := Finalized(id)], rows := b.rows[l := b.rows[l].(status := Running)])
  {
    s := Extend(r, b, Record(l, Finalize(true)));
  }

  lemma LinkOne(r: iset<State>, b: State, l: Id, id: SlotId) returns (s: State)
    requires Closed(r) && b in r && l in b.launches && b.launches[l] == Finalized(id)
    requires l in b.rows && l !in b.links && id in b.slots
    ensures s in r
    ensures s == b.(launches := b.launches[l := Linked(id)], links := b.links[l := id])
  {
    s := Extend(r, b, Record(l, Link(true)));
  }

  /** A launch takes the only candidate of its snapshot. */
  lemma AcquireThrough(r: iset<State>, b: State, l: Id, id: SlotId) returns (s: State)
    requires Closed(r) && b in r && l in b.launches && b.launches[l] == Trying([id], 0) && id !in b.claims
    ensures s in r
    ensures s == b.(launches := b.launches[l := Acquired(id)], claims := b.claims + {id})
  {
    s := Extend(r, b, Acquire(l, Try));
    s := Extend(r, s, Acquire(l, Recycle(true)));
    assert b.launches[l := Recycling(id)][l := Acquired(id)] == b.launches[l := Acquired(id)];
  }

  /** A launch takes the only candidate of its snapshot and is linked to it. */
  lemma LaunchThrough(r: iset<State>, b: State, l: Id, id: SlotId) returns (s: State)
    requires Closed(r) && b in r && l in b.launches && b.launches[l] == Trying([id], 0)
    requires id !in b.claims && l !in b.links && id in b.slots
    ensures s in r
    ensures s == b.(launches := b.launches[l := Linked(id)], claims := b.claims + {id},
                    rows := b.rows[l := Row(Running, id)], links := b.links[l := id], containers := b.containers + {l})
  {
    s := AcquireThrough(r, b, l, id);
    s := ProvisionOne(r, s, l, id);
    s := StartThrough(r, s, l, id);
    assert s.launches == b.launches[l := Linked(id)];
    assert s.rows == b.rows[l := Row(Running, id)];
  }

  /** A provisioned worker's container starts, and the worker is finalized and linked. */
  lemma StartThrough(r: iset<State>, b: State, l: Id, id: SlotId) returns (s: State)
    requires Closed(r) && b in r && l in b.launches && b.launches[l] == Recorded(id)
    requires l in b.rows && b.rows[l].slot == id && l !in b.links && id in b.slots
    ensures s in r
    ensures s == b.(launches := b.launches[l := Linked(id)], rows := b.rows[l := Row(Running, id)],
                    links := b.links[l := id], containers := b.containers + {l})
  {
    s := RunOne(r, b, l, id);
    s := FinalizeOne(r, s, l, id);
    s := LinkOne(r, s, l, id);
    assert s.launches == b.launches[l := Linked(id)];
  }

  lemma FinishThrough(r: iset<State>, b: State, l: Id, id: SlotId) returns (s: State)
    requires Closed(r) && b in r && l in b.launches && b.launches[l] == Linked(id)
    ensures s in r && s == b.(launches := b.launches - {l}, claims := b.claims - {id})
  {
    s := Extend(r, b, Record(l, Finish));
  }

  /** A stop reads the row and stops the container, if there is one. */
  lemma StopBegins(r: iset<State>, b: State, w: Id) returns (s: State)
    requires Closed(r) && b in r && w in b.rows && b.stops == map[]
    ensures s in r && s == b.(containers := b.containers - {w}, stops := map[w := Cleaning])
  {
    s := Extend(r, b, Stop(w, ReadRow));
    s := Extend(r, s, Stop(w, StopContainer));
    assert s.stops == map[w := Cleaning];
  }

  lemma StopEnds(r: iset<State>, b: State, w: Id) returns (s: State)
    requires Closed(r) && b in r && w in b.rows && b.stops == map[w := Cleaning]
    ensures s in r
    ensures s == b.(links := b.links - {w}, rows := b.rows[w := b.rows[w].(status := Stopped)], stops := map[])
  {
    s := Extend(r, b, Stop(w, CleanAndUnlink));
    s := Extend(r, s, Stop(w, MarkStopped));
    assert s.stops == map[];
  }

  function OneSlotPool(): State {
    State(1, map[7 := 0], {0}, {}, map[], {}, map[], map[], {}, map[])
  }

  lemma EmptyStarts(s: State)
    requires s == State(s.limit, s.slots, s.dirs, {}, map[], {}, map[], map[], {}, map[]) && WithinLimit(s)
    ensures Reachable(s)
  {
    forall u ensures LocalOk(View(s, u)) && forall id :: !Uses(s, u, id) {}
    var acts: seq<Action> := [];
    assert IsRun([s], acts) && [s][|acts|] == s;
  }

  lemma Query7(r: iset<State>, b: State, l: Id) returns (s: State)
    requires Closed(r) && b in r && l !in b.used && b.slots == map[7 := 0] && b.links == map[]
    ensures s in r && s == b.(launches := b.launches[l := Trying([7], 0)], used := b.used + {l})
  {
    forall id ensures id in [7] <==> Available(b, id) {}
    s := Extend(r, b, Acquire(l, Query([7])));
  }

  lemma StaleSnapshotPath(r: iset<State>) returns (s: State)
    requires Closed(r) && OneSlotPool() in r
    ensures s in r
    ensures s.links == map[1 := 7, 0 := 7] && s.containers == {0, 1}
    ensures s.rows == map[1 := Row(Running, 7), 0 := Row(Running, 7)] && !LinksExclusive(s) && !Exclusive(s)
  {
    s := Query7(r, OneSlotPool(), 0);
    s := Query7(r, s, 1);
    s := LaunchThrough(r, s, 1, 7);
    s := FinishThrough(r, s, 1, 7);
    s := LaunchThrough(r, s, 0, 7);
    assert s.links[0] == s.links[1] && Active(s, 0, 7) && Active(s, 1, 7);
  }

  function EmptyPool(): State {
    State(1, map[], {}, {}, map[], {}, map[], map[], {}, map[])
  }

  /** A launch has prepared slot 0 and inserted its row, which is visible and not yet claimed. */
  lemma NewSlotVisible(r: iset<State>) returns (s: State)
    requires Closed(r) && EmptyPool() in r
    ensures s in r
    ensures s == OneSlotPool().(launches := map[0 := Inserted(7)], used := {0})
  {
    s := NewSlotNeeded(r);
    s := Extend(r, s, Acquire(0, Prepare(true, true)));
    assert s.launches == map[0 := Inserting(0)] && s.dirs == {0};
    s := Extend(r, s, Acquire(0, InsertRow(7, true)));
    assert s.launches == map[0 := Inserted(7)];
  }

  lemma NewSlotNeeded(r: iset<State>) returns (s: State)
    requires Closed(r) && EmptyPool() in r
    ensures s in r && s == EmptyPool().(launches := map[0 := Preparing(0)], used := {0})
  {
    s := EmptyPool();
    forall id ensures id in [] <==> Available(s, id) {}
    s := Extend(r, s, Acquire(0, Query([])));
    s := Extend(r, s, Acquire(0, FallThrough));
    assert s.launches == map[0 := Scanning];
    s := Extend(r, s, Acquire(0, Scan([])));
    assert s.launches == map[0 := Preparing(0)];
  }

  lemma NewSlotWindowPath(r: iset<State>) returns (s: State)
    requires Closed(r) && EmptyPool() in r
    ensures s in r
    ensures s.links == map[1 := 7, 0 := 7] && s.containers == {0, 1} && !LinksExclusive(s) && !Exclusive(s)
  {
    s := NewSlotVisible(r);
    s := Query7(r, s, 1);
    s := LaunchThrough(r, s, 1, 7);
    s := FinishThrough(r, s, 1, 7);
    s := ClaimNewThrough(r, s, 0, 7);
    assert s.links[0] == s.links[1] && Active(s, 0, 7) && Active(s, 1, 7);
  }

  /** A launch claims its new slot and is linked to it. */
  lemma ClaimNewThrough(r: iset<State>, b: State, l: Id, id: SlotId) returns (s: State)
    requires Closed(r) && b in r && l in b.launches && b.launches[l] == Inserted(id)
    requires id !in b.claims && l !in b.links && id in b.slots
    ensures s in r
    ensures s.links == b.links[l := id] && s.containers == b.containers + {l}
    ensures s.rows == b.rows[l := Row(Running, id)]
  {
    s := Extend(r, b, Acquire(l, ClaimNew));
    s := ProvisionOne(r, s, l, id);
    s := StartThrough(r, s, l, id);
    assert s.rows == b.rows[l := Row(Running, id)];
  }

  lemma FirstWorkerGone(r: iset<State>) returns (s: State)
    requires Closed(r) && OneSlotPool() in r
    ensures s in r
    ensures s == OneSlotPool().(used := {0}, rows := map[0 := Row(Stopped, 7)])
  {
    s := Query7(r, OneSlotPool(), 0);
    s := LaunchThrough(r, s, 0, 7);
    s := FinishThrough(r, s, 0, 7);
    s := StopBegins(r, s, 0);
    s := StopEnds(r, s, 0);
    assert s.links == map[] && s.launches == map[] && s.rows == map[0 := Row(Stopped, 7)];
  }

  lemma StopStoppedPath(r: iset<State>) returns (s: State)
    requires Closed(r) && OneSlotPool() in r
    ensures s in r
    ensures Uses(s, 0, 7) && Uses(s, 1, 7) && s.stops == map[0 := Cleaning] && s.containers == {1}
    ensures !Exclusive(s)
  {
    s := FirstWorkerGone(r);
    s := Query7(r, s, 1);
    s := LaunchThrough(r, s, 1, 7);
    s := StopBegins(r, s, 0);
    assert s.rows[0] == Row(Stopped, 7) && s.rows[1] == Row(Running, 7) && s.containers == {1};
    assert Uses(s, 0, 7) && Uses(s, 1, 7);
  }

  lemma StopMeetsProvisioning(r: iset<State>) returns (s: State)
    requires Closed(r) && OneSlotPool() in r
    ensures s in r
    ensures s == OneSlotPool().(used := {0}, rows := map[0 := Row(Provisioning, 7)], claims := {7},
                                launches := map[0 := Recorded(7)], stops := map[0 := Cleaning])
  {
    s := Query7(r, OneSlotPool(), 0);
    s := AcquireThrough(r, s, 0, 7);
    s := ProvisionOne(r, s, 0, 7);
    s := StopBegins(r, s, 0);
    assert s.launches == map[0 := Recorded(7)];
  }

  lemma StopProvisioningPath(r: iset<State>) returns (s: State)
    requires Closed(r) && OneSlotPool() in r
    ensures s in r
    ensures s.containers == {0} && s.rows == map[0 := Row(Stopped, 7)] && s.links == map[] && s.claims == {}
    ensures !Exclusive(s)
  {
    s := StopMeetsProvisioning(r);
    s := StartThrough(r, s, 0, 7);
    s := FinishThrough(r, s, 0, 7);
    s := StopEnds(r, s, 0);
    assert s.containers == {0} && s.rows == map[0 := Row(Stopped, 7)];
    assert 0 in s.containers && !HoldsOwnSlot(s, 0) && !LinkedRunning(s, 0);
  }

  // ---- reachable states in which slots are not exclusive ----

  /** The snapshot of available slots and the claim are separate steps, and a slot can be claimed,
      linked and its claim dropped in between: two launches that saw the same free slot both end
      up linked to it, with both containers running in it. */
  lemma StaleSnapshotSharesSlot() returns (s: State)
    ensures Reachable(s)
    ensures s.links == map[1 := 7, 0 := 7] && s.containers == {0, 1}
    ensures s.rows == map[1 := Row(Running, 7), 0 := Row(Running, 7)] && !LinksExclusive(s) && !Exclusive(s)
  {
    EmptyStarts(OneSlotPool());
    ReachableClosed();
    s := StaleSnapshotPath(AllReachable());
  }

  /** The same happens to a newly prepared slot: its row is visible before it is claimed, another
      launch can list, claim, link and release it in between, and both end up in it. */
  lemma NewSlotWindowSharesSlot() returns (s: State)
    ensures Reachable(s)
    ensures s.links == map[1 := 7, 0 := 7] && s.containers == {0, 1} && !LinksExclusive(s) && !Exclusive(s)
  {
    EmptyStarts(EmptyPool());
    ReachableClosed();
    s := NewSlotWindowPath(AllReachable());
  }

  /** `stop_by_worker_id` does not look at the row's status: stopping a worker that is already
      stopped cleans the slot its successor is running in. */
  lemma StoppingStoppedWorkerCleansOthersSlot() returns (s: State)
    ensures Reachable(s)
    ensures Uses(s, 0, 7) && Uses(s, 1, 7) && s.stops == map[0 := Cleaning] && s.containers == {1}
    ensures !Exclusive(s)
  {
    EmptyStarts(OneSlotPool());
    ReachableClosed();
    s := StopStoppedPath(AllReachable());
  }

  /** A stop that reads the row while the worker is still provisioning finds no container to stop,
      and later unlinks the slot of the container started meanwhile. */
  lemma StoppingProvisioningWorkerOrphansContainer() returns (s: State)
    ensures Reachable(s)
    ensures s.containers == {0} && s.rows == map[0 := Row(Stopped, 7)] && s.links == map[] && s.claims == {}
    ensures !Exclusive(s)
  {
    EmptyStarts(OneSlotPool());
    ReachableClosed();
    s := StopProvisioningPath(AllReachable());
  }
}

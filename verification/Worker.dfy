/** Launch and stop of one exclusive-slot worker as the worker manager runs them: one awaited call
    after the other, each of which may fail. */
module WorkerManager {
  import opened Pool
  import opened Fleet
  import opened FleetPaths

  /** Which calls of a launch fail. `run` and `ready` are the two halves of builderd's launch, docker
      run and the startup check; `stray` says that its own cleanup after a failed check fails too.
      `undo` and `erase` are the server's compensating calls. */
  datatype LaunchFaults = LaunchFaults(
    cleanup: bool, provision: bool, run: bool, ready: bool, stray: bool,
    finalize: bool, link: bool, undo: bool, erase: bool)

  /** Which calls of a stop fail. A container that is already gone is no failure. */
  datatype StopFaults = StopFaults(container: bool, clean: bool, unlink: bool, mark: bool)

  const NoFault := StopFaults(false, false, false, false)

  /** The database, docker, and the slots that hold a worker's leftovers. */
  datatype Store = Store(rows: map<Id, Row>, links: map<Id, SlotId>, containers: set<Id>, dirty: set<SlotId>)

  /** `worker_slot` references `worker`. */
  predicate Referential(t: Store) {
    t.links.Keys <= t.rows.Keys
  }

  // ---- what a launch and a stop do ----

  /** `remove_provisioning_worker`; deleting the row deletes its link. */
  function Erased(t: Store, l: Id, f: LaunchFaults): Store {
    if f.erase then t else t.(rows := t.rows - {l}, links := t.links - {l})
  }

  function Undone(t: Store, l: Id, f: LaunchFaults): Store {
    Erased(if f.undo then t else t.(containers := t.containers - {l}), l, f)
  }

  function LaunchEffect(t: Store, l: Id, slot: SlotId, f: LaunchFaults): Store {
    if f.cleanup then t else
    var t0 := t.(containers := t.containers - {l});
    if f.provision || l in t.rows then t0 else
    var t1 := t0.(rows := t.rows[l := Row(Provisioning, slot)]);
    if f.run then Erased(t1, l, f) else
    var t2 := t1.(containers := t0.containers + {l}, dirty := t.dirty + {slot});
    StartedEffect(t2, l, slot, f)
  }

  /** The store once a container has been started, and what the rest of the launch makes of it. */
  function StartedEffect(t: Store, l: Id, slot: SlotId, f: LaunchFaults): Store {
    if f.ready then Erased(if f.stray then t else t.(containers := t.containers - {l}), l, f)
    else if f.finalize || f.link then Undone(FinalizeEffect(t, l, slot, f), l, f) else FinalizeEffect(t, l, slot, f)
  }

  function FinalizeEffect(t: Store, l: Id, slot: SlotId, f: LaunchFaults): Store {
    if f.finalize || l !in t.rows then t else
    var t' := t.(rows := t.rows[l := t.rows[l].(status := Running)]);
    if f.link || l in t.links then t' else t'.(links := t.links[l := slot])
  }

  predicate LaunchSucceeds(t: Store, l: Id, f: LaunchFaults) {
    l !in t.rows && !f.cleanup && !f.provision && !f.run && !f.ready && !f.finalize && !f.link
  }

  function StopEffect(t: Store, w: Id, f: StopFaults): Store {
    if w !in t.rows || f.container then t else
    var t1 := t.(containers := t.containers - {w}, dirty := if f.clean then t.dirty else t.dirty - {t.rows[w].slot});
    if f.unlink then t1 else
    var t2 := t1.(links := t1.links - {w});
    if f.mark then t2 else t2.(rows := t2.rows[w := t2.rows[w].(status := Stopped)])
  }

  predicate StopSucceeds(t: Store, w: Id, f: StopFaults) {
    w in t.rows && !f.container && !f.unlink && !f.mark
  }

  class WorkerManager {
    var rows: map<Id, Row>
    var links: map<Id, SlotId>
    var containers: set<Id>
    var dirty: set<SlotId>

    function Contents(): Store reads this {
      Store(rows, links, containers, dirty)
    }

    method RunAndRecord(l: Id, slot: SlotId, f: LaunchFaults) returns (ok: bool)
      requires Referential(Contents())
      modifies this
      ensures Referential(Contents())
      ensures ok == LaunchSucceeds(old(Contents()), l, f)
      ensures Contents() == LaunchEffect(old(Contents()), l, slot, f)
    {
      ReferencesKept(Contents(), l, slot, f);
      if f.cleanup { return false; }
      containers := containers - {l};
      if f.provision || l in rows { return false; }
      rows := rows[l := Row(Provisioning, slot)];
      ok := LaunchWorker(l, slot, f);
      if !ok {
        RemoveProvisioningWorker(l, f);
        return;
      }
      ok := FinalizeWorkerLaunch(l, slot, f);
      if !ok {
        if !f.undo { containers := containers - {l}; }
        RemoveProvisioningWorker(l, f);
      }
    }

    /** builderd's launch: start the container, wait for its health, remove it if that fails. */
    method LaunchWorker(l: Id, slot: SlotId, f: LaunchFaults) returns (ok: bool)
      modifies this
      ensures ok == (!f.run && !f.ready)
      ensures rows == old(rows) && links == old(links)
      ensures containers == if ok || (!f.run && f.stray) then old(containers) + {l}
        else if f.run then old(containers) else old(containers) - {l}
      ensures dirty == if f.run then old(dirty) else old(dirty) + {slot}
    {
      if f.run { return false; }
      containers, dirty := containers + {l}, dirty + {slot};
      ok := !f.ready;
      if f.ready && !f.stray { containers := containers - {l}; }
    }

    method FinalizeWorkerLaunch(l: Id, slot: SlotId, f: LaunchFaults) returns (ok: bool)
      modifies this
      ensures ok <==> !f.finalize && l in old(rows) && !f.link && l !in old(links)
      ensures Contents() == FinalizeEffect(old(Contents()), l, slot, f)
    {
      if f.finalize || l !in rows { return false; }
      rows := rows[l := rows[l].(status := Running)];
      if f.link || l in links { return false; }
      links := links[l := slot];
      ok := true;
    }

    method RemoveProvisioningWorker(l: Id, f: LaunchFaults)
      modifies this
      ensures Contents() == Erased(old(Contents()), l, f)
    {
      if !f.erase { rows, links := rows - {l}, links - {l}; }
    }

    method StopByWorkerId(w: Id, f: StopFaults) returns (ok: bool)
      requires Referential(Contents())
      modifies this
      ensures Referential(Contents())
      ensures ok == StopSucceeds(old(Contents()), w, f)
      ensures Contents() == StopEffect(old(Contents()), w, f)
    {
      if w !in rows || f.container { return false; }
      containers := containers - {w};
      ok := ReleaseSlot(w, rows[w].slot, f);
      if !ok || f.mark { return false; }
      rows := rows[w := rows[w].(status := Stopped)];
    }

    /** A failed clean is only logged: the slot is unlinked all the same. */
    method ReleaseSlot(w: Id, slot: SlotId, f: StopFaults) returns (ok: bool)
      modifies this
      ensures rows == old(rows) && containers == old(containers)
      ensures dirty == if f.clean then old(dirty) else old(dirty) - {slot}
      ensures ok == !f.unlink && links == if ok then old(links) - {w} else old(links)
    {
      if !f.clean { dirty := dirty - {slot}; }
      ok := !f.unlink;
      if ok { links := links - {w}; }
    }
  }

  // ---- all or nothing ----

  lemma ReferencesKept(t: Store, l: Id, slot: SlotId, f: LaunchFaults)
    requires Referential(t)
    ensures Referential(LaunchEffect(t, l, slot, f))
  {
  }

  /** Everything a store says about ids other than `l`. */
  function Others(t: Store, l: Id): (map<Id, Row>, map<Id, SlotId>, set<Id>) {
    (t.rows - {l}, t.links - {l}, t.containers - {l})
  }

  /** A launch leaves a fully recorded worker, or, once its compensating calls have succeeded, the
      rows and links it found and no container; no other worker is touched. */
  lemma LaunchRecordsOrRestores(t: Store, l: Id, slot: SlotId, f: LaunchFaults)
    requires Referential(t)
    ensures var t' := LaunchEffect(t, l, slot, f);
      && Others(t', l) == Others(t, l)
      && (LaunchSucceeds(t, l, f) ==>
            && l in t'.rows && t'.rows[l] == Row(Running, slot)
            && l in t'.links && t'.links[l] == slot
            && l in t'.containers && slot in t'.dirty)
      && (!LaunchSucceeds(t, l, f) && !f.stray && !f.undo && !f.erase ==>
            t'.rows == t.rows && t'.links == t.links && (f.cleanup || l !in t'.containers))
  {
    var t' := LaunchEffect(t, l, slot, f);
    if !LaunchSucceeds(t, l, f) && !f.stray && !f.undo && !f.erase {
      assert t'.rows == t.rows;
      assert t'.links == t.links;
    }
    assert t'.rows - {l} == t.rows - {l};
    assert t'.links - {l} == t.links - {l};
    assert t'.containers - {l} == t.containers - {l};
  }

  /** A failed launch of a new worker leaves a row exactly when deleting it failed, and a container
      exactly when one had started and stopping it failed: then nobody holds its slot. */
  lemma TracesOfFailedLaunch(t: Store, l: Id, slot: SlotId, f: LaunchFaults)
    requires Referential(t) && l !in t.rows && l !in t.containers && !LaunchSucceeds(t, l, f)
    ensures var t' := LaunchEffect(t, l, slot, f);
      && (l in t'.rows <==> !f.cleanup && !f.provision && f.erase)
      && (l in t'.containers <==> !f.cleanup && !f.provision && !f.run && (if f.ready then f.stray else f.undo))
      && l !in t'.links
  {
  }

  // ---- stopping ----

  /** What a stop leaves, call by call. It succeeds exactly when the worker is known and its container,
      its link and its row could be dealt with; then the worker is stopped, unlinked and without a
      container, whether or not its slot could be cleaned. A failing call leaves the later ones
      undone, and no other worker changes. */
  lemma StopOutcome(t: Store, w: Id, f: StopFaults)
    ensures var t' := StopEffect(t, w, f);
      && Others(t', w) == Others(t, w)
      && (w !in t.rows ==> t' == t && !StopSucceeds(t, w, f))
      && (w in t.rows ==>
            && w in t'.rows && t'.rows[w].slot == t.rows[w].slot
            && (StopSucceeds(t, w, f) <==> !f.container && !f.unlink && !f.mark)
            && (StopSucceeds(t, w, f) ==> t'.rows[w].status == Stopped && w !in t'.links && w !in t'.containers)
            && (!StopSucceeds(t, w, f) ==> t'.rows == t.rows)
            && (w in t'.containers <==> w in t.containers && f.container)
            && (w in t'.links <==> w in t.links && (f.container || f.unlink))
            && t'.dirty == if f.container || f.clean then t.dirty else t.dirty - {t.rows[w].slot})
  {
    var t' := StopEffect(t, w, f);
    assert t'.rows - {w} == t.rows - {w};
    assert t'.links - {w} == t.links - {w};
    assert t'.containers - {w} == t.containers - {w};
  }

  function Stops(t: Store, w: Id, fs: seq<StopFaults>): Store
    decreases fs
  {
    if fs == [] then t else Stops(StopEffect(t, w, fs[0]), w, fs[1..])
  }

  lemma OneRetry(t: Store, w: Id, f: StopFaults)
    ensures StopEffect(StopEffect(t, w, f), w, NoFault) == StopEffect(t, w, NoFault)
  {
    var t', done := StopEffect(t, w, f), StopEffect(t, w, NoFault);
    if w in t.rows {
      assert StopEffect(t', w, NoFault).rows == done.rows;
      assert StopEffect(t', w, NoFault).links == done.links;
    }
  }

  /** Stops can be retried: after any number of stops that failed at any call, or succeeded, one
      stop in which nothing fails ends exactly where it would have ended at first. */
  lemma {:induction false} RetriesConverge(t: Store, w: Id, fs: seq<StopFaults>)
    ensures StopEffect(Stops(t, w, fs), w, NoFault) == StopEffect(t, w, NoFault)
    decreases fs
  {
    if fs != [] {
      RetriesConverge(StopEffect(t, w, fs[0]), w, fs[1..]);
      OneRetry(t, w, fs[0]);
    }
  }

  /** A launch followed by a stop gives back containers and links, frees the slot and keeps only a
      stopped row. */
  lemma LaunchThenStop(t: Store, l: Id, slot: SlotId, f: LaunchFaults)
    requires Referential(t) && LaunchSucceeds(t, l, f)
    ensures StopEffect(LaunchEffect(t, l, slot, f), l, NoFault)
         == Store(t.rows[l := Row(Stopped, slot)], t.links, t.containers - {l}, t.dirty - {slot})
  {
    var t' := StopEffect(LaunchEffect(t, l, slot, f), l, NoFault);
    assert t'.rows == t.rows[l := Row(Stopped, slot)];
    assert t'.links == t.links;
    assert t'.containers == t.containers - {l};
  }

  // ---- the sequences are paths of the machine ----

  /** The part of a machine state that outlives the process. */
  ghost predicate SameStore(s: State, t: Store) {
    s.rows == t.rows && s.links == t.links && s.containers == t.containers
  }

  lemma ErasePath(s: State, l: Id, t: Store, f: LaunchFaults) returns (acts: seq<Action>, s': State)
    requires SameStore(s, t) && l in s.launches && s.launches[l].Erasing?
    ensures IsPath(s, acts, s') && SameStore(s', Erased(t, l, f)) && l !in s'.launches
  {
    var a := Record(l, Erase(!f.erase));
    s' := Do(s, a);
    acts := Before(s, a, [], s');
  }

  lemma UndoPath(s: State, l: Id, t: Store, f: LaunchFaults) returns (acts: seq<Action>, s': State)
    requires SameStore(s, t) && l in s.launches && s.launches[l].Undoing?
    ensures IsPath(s, acts, s') && SameStore(s', Undone(t, l, f)) && l !in s'.launches
  {
    var a := Record(l, Undo(!f.undo));
    acts, s' := ErasePath(Do(s, a), l, if f.undo then t else t.(containers := t.containers - {l}), f);
    acts := Before(s, a, acts, s');
  }

  lemma LinkPath(s: State, l: Id, slot: SlotId, t: Store, f: LaunchFaults) returns (acts: seq<Action>, s': State)
    requires SameStore(s, t) && l in s.launches && s.launches[l] == Finalized(slot) && l in t.rows && l !in t.links
    requires slot in s.slots
    ensures IsPath(s, acts, s')
    ensures SameStore(s', if f.link then Undone(t, l, f) else t.(links := t.links[l := slot]))
    ensures if f.link then l !in s'.launches else l in s'.launches && s'.launches[l] == Linked(slot)
  {
    var a := Record(l, Link(!f.link));
    if f.link {
      acts, s' := UndoPath(Do(s, a), l, t, f);
    } else {
      acts, s' := [], Do(s, a);
    }
    acts := Before(s, a, acts, s');
  }

  lemma FinalizePath(s: State, l: Id, slot: SlotId, t: Store, f: LaunchFaults) returns (acts: seq<Action>, s': State)
    requires SameStore(s, t) && l in s.launches && s.launches[l] == Up(slot) && l in t.rows && l !in t.links
    requires slot in s.slots
    ensures IsPath(s, acts, s')
    ensures var done := FinalizeEffect(t, l, slot, f);
      SameStore(s', if f.finalize || f.link then Undone(done, l, f) else done)
    ensures if f.finalize || f.link then l !in s'.launches else l in s'.launches && s'.launches[l] == Linked(slot)
  {
    var a := Record(l, Finalize(!f.finalize));
    if f.finalize {
      acts, s' := UndoPath(Do(s, a), l, t, f);
    } else {
      acts, s' := LinkPath(Do(s, a), l, slot, t.(rows := t.rows[l := t.rows[l].(status := Running)]), f);
    }
    acts := Before(s, a, acts, s');
  }

  lemma StartedPath(s: State, l: Id, slot: SlotId, t: Store, f: LaunchFaults) returns (acts: seq<Action>, s': State)
    requires SameStore(s, t) && l in s.launches && s.launches[l] == Starting(slot) && l in t.rows && l !in t.links
    requires slot in s.slots
    ensures IsPath(s, acts, s') && SameStore(s', StartedEffect(t, l, slot, f))
    ensures if f.ready || f.finalize || f.link then l !in s'.launches
      else l in s'.launches && s'.launches[l] == Linked(slot)
  {
    var a := Record(l, Ready(!f.ready, !f.stray));
    if f.ready {
      acts, s' := ErasePath(Do(s, a), l, if f.stray then t else t.(containers := t.containers - {l}), f);
    } else {
      acts, s' := FinalizePath(Do(s, a), l, slot, t, f);
    }
    acts := Before(s, a, acts, s');
  }

  lemma ProvisionedPath(s: State, l: Id, slot: SlotId, t: Store, f: LaunchFaults) returns (acts: seq<Action>, s': State)
    requires SameStore(s, t) && l in s.launches && s.launches[l] == Recorded(slot) && l in t.rows && l !in t.links
    requires slot in s.slots
    ensures IsPath(s, acts, s')
    ensures var started := t.(containers := t.containers + {l}, dirty := t.dirty + {slot});
      SameStore(s', if f.run then Erased(t, l, f) else StartedEffect(started, l, slot, f))
    ensures if f.run || f.ready || f.finalize || f.link then l !in s'.launches
      else l in s'.launches && s'.launches[l] == Linked(slot)
  {
    var a := Record(l, Run(!f.run));
    if f.run {
      acts, s' := ErasePath(Do(s, a), l, t, f);
    } else {
      acts, s' := StartedPath(Do(s, a), l, slot, t.(containers := t.containers + {l}, dirty := t.dirty + {slot}), f);
    }
    acts := Before(s, a, acts, s');
  }

  /** Whichever calls fail, a launch of a new worker takes the machine along one of its own paths,
      to a linked worker or to the end of the launch: what holds in every run holds of the code. */
  lemma LaunchIsPath(s: State, l: Id, slot: SlotId, t: Store, f: LaunchFaults) returns (acts: seq<Action>, s': State)
    requires Referential(t) && l !in t.rows && l !in t.containers
    requires SameStore(s, t) && l in s.launches && s.launches[l] == Acquired(slot) && slot in s.slots
    ensures IsPath(s, acts, s') && SameStore(s', LaunchEffect(t, l, slot, f))
    ensures if LaunchSucceeds(t, l, f) then l in s'.launches && s'.launches[l] == Linked(slot) else l !in s'.launches
  {
    var provisioned := !f.cleanup && !f.provision;
    var a := Record(l, Provision(provisioned));
    assert t.containers - {l} == t.containers;
    if provisioned {
      acts, s' := ProvisionedPath(Do(s, a), l, slot, t.(rows := t.rows[l := Row(Provisioning, slot)]), f);
    } else {
      acts, s' := [], Do(s, a);
    }
    acts := Before(s, a, acts, s');
  }

  lemma ReleasePath(s: State, w: Id, t: Store, f: StopFaults) returns (acts: seq<Action>, s': State)
    requires SameStore(s, t) && w in t.rows && w in s.stops && s.stops[w].Cleaning? && w !in t.containers
    requires !f.container
    ensures IsPath(s, acts, s') && SameStore(s', StopEffect(t, w, f)) && w !in s'.stops
  {
    assert t.containers - {w} == t.containers;
    if f.unlink {
      s' := Do(s, Stop(w, Abort));
      acts := Before(s, Stop(w, Abort), [], s');
    } else {
      var m := Do(s, Stop(w, CleanAndUnlink));
      var a := Stop(w, if f.mark then Abort else MarkStopped);
      s' := Do(m, a);
      acts := Before(m, a, [], s');
      acts := Before(s, Stop(w, CleanAndUnlink), acts, s');
    }
  }

  /** And so does a stop. */
  lemma StopIsPath(s: State, w: Id, t: Store, f: StopFaults) returns (acts: seq<Action>, s': State)
    requires SameStore(s, t) && w in t.rows && w !in s.stops
    ensures IsPath(s, acts, s') && SameStore(s', StopEffect(t, w, f)) && w !in s'.stops
  {
    var m := Do(s, Stop(w, ReadRow));
    if f.container {
      s' := Do(m, Stop(w, Abort));
      acts := Before(m, Stop(w, Abort), [], s');
    } else {
      var n := Do(m, Stop(w, StopContainer));
      acts, s' := ReleasePath(n, w, t.(containers := t.containers - {w}), f);
      assert t.containers - {w} - {w} == t.containers - {w};
      acts := Before(m, Stop(w, StopContainer), acts, s');
    }
    acts := Before(s, Stop(w, ReadRow), acts, s');
  }
}

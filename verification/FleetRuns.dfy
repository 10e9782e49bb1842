/** What the launch and stop machine guarantees over whole runs, and where it does not. */
module FleetRuns {
  import opened Overlay
  import opened Pool
  import opened Fleet

  /** The server has just started: no launch or stop in flight, and whatever rows, links and
      containers the database and docker hold are consistent. */
  ghost predicate Start(s: State) {
    && s.launches == map[] && s.claims == {} && s.stops == map[]
    && WithinLimit(s) && LinksKnown(s) && AllOk(s) && Exclusive(s)
  }

  ghost predicate StepAt(ss: seq<State>, acts: seq<Action>, i: nat)
    requires i < |acts| && |ss| == |acts| + 1
  {
    Enabled(ss[i], acts[i]) && ss[i + 1] == Do(ss[i], acts[i])
  }

  ghost predicate IsRun(ss: seq<State>, acts: seq<Action>) {
    |ss| == |acts| + 1 && Start(ss[0]) && forall i: nat | i < |acts| :: StepAt(ss, acts, i)
  }

  // ---- every run ----

  ghost predicate Sound(s: State, limit: nat) {
    GuardsExact(s) && WithinLimit(s) && s.limit == limit && Shaped(s)
  }

  lemma StartIsShaped(s: State)
    requires Start(s)
    ensures Shaped(s)
  {
    forall u ensures Shape(View(s, u)) { assert LocalOk(View(s, u)); }
  }

  lemma {:induction false} SoundAt(ss: seq<State>, acts: seq<Action>, i: nat)
    requires IsRun(ss, acts) && i <= |acts|
    ensures Sound(ss[i], ss[0].limit)
    decreases i
  {
    if i == 0 {
      StartIsShaped(ss[0]);
    } else {
      SoundAt(ss, acts, i - 1);
      assert StepAt(ss, acts, i - 1);
      StepKeepsGuards(ss[i - 1], acts[i - 1]);
      StepKeepsLimit(ss[i - 1], acts[i - 1]);
      StepKeepsShape(ss[i - 1], acts[i - 1]);
    }
  }

  /** In every interleaving of launches, errors, cancellations and stops, with scans as stale as
      they like: the claim set is exactly the ids of the live guards, those are distinct, and the
      pool never grows past its limit, on disk or in the database. */
  lemma EveryRun(ss: seq<State>, acts: seq<Action>, i: nat)
    requires IsRun(ss, acts) && i < |ss|
    ensures GuardsExact(ss[i]) && WithinLimit(ss[i])
    ensures |ss[i].dirs| <= ss[0].limit && |ss[i].slots| <= ss[0].limit
  {
    SoundAt(ss, acts, i);
    LimitBoundsPool(ss[i]);
  }

  // ---- exclusive slots: the exact condition ----

  ghost predicate SafeAt(ss: seq<State>, acts: seq<Action>, i: nat)
    requires i < |acts| && |ss| == |acts| + 1
  {
    Enabled(ss[i], acts[i]) && Safe(ss[i], acts[i])
  }

  lemma {:induction false} SafeStepsStayExclusive(ss: seq<State>, acts: seq<Action>, i: nat)
    requires IsRun(ss, acts) && i <= |acts| && forall k: nat | k < i :: SafeAt(ss, acts, k)
    ensures Exclusive(ss[i])
    decreases i
  {
    if i > 0 {
      SafeStepsStayExclusive(ss, acts, i - 1);
      SoundAt(ss, acts, i - 1);
      assert StepAt(ss, acts, i - 1) && SafeAt(ss, acts, i - 1);
      ExclusiveIffSafe(ss[i - 1], acts[i - 1]);
    }
  }

  /** Slots are exclusive throughout a run exactly when every step of it is safe. */
  lemma ExclusiveRunIffSafe(ss: seq<State>, acts: seq<Action>)
    requires IsRun(ss, acts)
    ensures (forall i: nat | i < |ss| :: Exclusive(ss[i])) <==> forall i: nat | i < |acts| :: SafeAt(ss, acts, i)
  {
    if forall i: nat | i < |acts| :: SafeAt(ss, acts, i) {
      forall i: nat | i < |ss| ensures Exclusive(ss[i]) { SafeStepsStayExclusive(ss, acts, i); }
    }
    if forall i: nat | i < |ss| :: Exclusive(ss[i]) {
      forall i: nat | i < |acts| ensures SafeAt(ss, acts, i) {
        SoundAt(ss, acts, i);
        assert StepAt(ss, acts, i) && Exclusive(ss[i]) && Exclusive(ss[i + 1]);
        ExclusiveIffSafe(ss[i], acts[i]);
      }
    }
  }

  // ---- held containers: no claim is ever to blame ----

  ghost predicate HeldSafeAt(ss: seq<State>, acts: seq<Action>, i: nat)
    requires i < |acts| && |ss| == |acts| + 1
  {
    HeldSafe(ss[i], acts[i])
  }

  lemma {:induction false} HeldSafeStepsHold(ss: seq<State>, acts: seq<Action>, i: nat)
    requires IsRun(ss, acts) && i <= |acts| && forall k: nat | k < i :: HeldSafeAt(ss, acts, k)
    ensures ContainersHeld(ss[i])
    decreases i
  {
    if i > 0 {
      HeldSafeStepsHold(ss, acts, i - 1);
      SoundAt(ss, acts, i - 1);
      assert StepAt(ss, acts, i - 1) && HeldSafeAt(ss, acts, i - 1);
      HeldIffSafe(ss[i - 1], acts[i - 1]);
    }
  }

  /** In every run, stale snapshots and shared slots included, containers are held throughout exactly
      when no step ends a launch, unlinks or marks a worker whose container would be left alone. */
  lemma HeldRunIffSafe(ss: seq<State>, acts: seq<Action>)
    requires IsRun(ss, acts)
    ensures (forall i: nat | i < |ss| :: ContainersHeld(ss[i])) <==>
      forall i: nat | i < |acts| :: HeldSafeAt(ss, acts, i)
  {
    if forall i: nat | i < |acts| :: HeldSafeAt(ss, acts, i) {
      forall i: nat | i < |ss| ensures ContainersHeld(ss[i]) { HeldSafeStepsHold(ss, acts, i); }
    }
    if forall i: nat | i < |ss| :: ContainersHeld(ss[i]) {
      forall i: nat | i < |acts| ensures HeldSafeAt(ss, acts, i) {
        SoundAt(ss, acts, i);
        assert StepAt(ss, acts, i) && ContainersHeld(ss[i]) && ContainersHeld(ss[i + 1]);
        HeldIffSafe(ss[i], acts[i]);
      }
    }
  }

  ghost predicate PrudentAt(ss: seq<State>, acts: seq<Action>, i: nat)
    requires i < |acts| && |ss| == |acts| + 1
  {
    Enabled(ss[i], acts[i]) && Prudent(ss[i], acts[i])
  }

  ghost predicate PrudentRun(ss: seq<State>, acts: seq<Action>)
    requires IsRun(ss, acts)
  {
    forall i: nat | i < |acts| :: PrudentAt(ss, acts, i)
  }

  lemma {:induction false} PrudentRunsTidy(ss: seq<State>, acts: seq<Action>, i: nat)
    requires IsRun(ss, acts) && PrudentRun(ss, acts) && i < |ss|
    ensures AllTidy(ss[i])
    decreases i
  {
    if i == 0 {
      forall u ensures Tidy(View(ss[0], u)) { assert LocalOk(View(ss[0], u)); }
    } else {
      PrudentRunsTidy(ss, acts, i - 1);
      SoundAt(ss, acts, i - 1);
      assert StepAt(ss, acts, i - 1) && PrudentAt(ss, acts, i - 1);
      PrudentStaysTidy(ss[i - 1], acts[i - 1]);
    }
  }

  /** In every run without a cancellation between container start and link, without a failing
      container removal and without a stop of a worker that is still being launched, however stale
      the snapshots and however often stops are retried: a running container always has its row, and
      its slot is claimed by its launch or linked to it. */
  lemma ContainersAreHeld(ss: seq<State>, acts: seq<Action>, i: nat)
    requires IsRun(ss, acts) && PrudentRun(ss, acts) && i < |ss|
    ensures ContainersHeld(ss[i])
  {
    PrudentRunsTidy(ss, acts, i);
    SoundAt(ss, acts, i);
    TidyIsHeld(ss[i]);
  }

  // ---- careful runs ----

  ghost predicate CarefulAt(ss: seq<State>, acts: seq<Action>, i: nat)
    requires i < |acts| && |ss| == |acts| + 1
  {
    Enabled(ss[i], acts[i]) && Careful(ss[i], acts[i])
  }

  ghost predicate CarefulRun(ss: seq<State>, acts: seq<Action>)
    requires IsRun(ss, acts)
  {
    forall i: nat | i < |acts| :: CarefulAt(ss, acts, i)
  }

  lemma {:induction false} CarefulRunsOk(ss: seq<State>, acts: seq<Action>, i: nat)
    requires IsRun(ss, acts) && CarefulRun(ss, acts) && i < |ss|
    ensures AllOk(ss[i])
    decreases i
  {
    if i > 0 {
      CarefulRunsOk(ss, acts, i - 1);
      SoundAt(ss, acts, i - 1);
      assert StepAt(ss, acts, i - 1) && CarefulAt(ss, acts, i - 1);
      OkIffCareful(ss[i - 1], acts[i - 1]);
    }
  }

  /** How `run_and_record` ends: linking leaves a running container with a running row and its
      link; a failure whose compensation ran leaves neither row, link nor container. */
  lemma LaunchOutcome(s: State, l: Id, a: RecordStep)
    requires AllOk(s) && CanRecord(s, l, a)
    ensures var s' := DoRecord(s, l, a);
      && (a.Link? && a.ok ==> l in s'.containers && LinkedRunning(s', l))
      && ((a.Provision? && !a.ok) || (a.Erase? && a.ok) ==> Untouched(View(s', l)) && l !in s'.launches)
      && (a.Finish? ==> l in s'.rows && (l in s'.links <==> l in s.links) && (l in s'.containers ==> l in s'.links))
  {
    assert LocalOk(View(s, l));
  }

  // ---- exclusive links: only claims are to blame ----

  /** `a` shows slot `id` to the launch that takes step `claim`: it lists it, or inserts its row. */
  ghost predicate Offers(a: Action, claim: Action, id: SlotId) {
    && a.Acquire? && claim.Acquire? && a.l == claim.l
    && ((a.acq.Query? && id in a.acq.candidates) || a.acq == InsertRow(id, true))
  }

  ghost predicate ClaimsSlot(s: State, a: Action, id: SlotId) {
    Enabled(s, a) && NewClaim(s, a) == Some(id)
  }

  ghost predicate LinksTo(s: State, a: Action, id: SlotId) {
    a.Record? && a.rec == Link(true) && a.l in s.launches && s.launches[a.l] == Finalized(id)
  }

  ghost predicate NoLinkBetween(ss: seq<State>, acts: seq<Action>, j: nat, i: nat, id: SlotId)
    requires IsRun(ss, acts) && i <= |acts|
  {
    forall t: nat | j < t < i :: !LinksTo(ss[t], acts[t], id)
  }

  /** Nobody is linked to a slot between the step that shows it to a launch (its snapshot of free
      slots, or the insertion of a new slot's row) and the step by which that launch claims it. It
      holds in particular when showing and claiming are one step. */
  ghost predicate FreshClaims(ss: seq<State>, acts: seq<Action>)
    requires IsRun(ss, acts)
  {
    forall j: nat, i: nat, id | j < i < |acts| && Offers(acts[j], acts[i], id) && ClaimsSlot(ss[i], acts[i], id) ::
      NoLinkBetween(ss, acts, j, i, id)
  }

  lemma StaysInactive(s: State, a: Action, id: SlotId)
    requires Shaped(s) && Enabled(s, a) && NobodyActive(s, id) && !LinksTo(s, a, id)
    ensures NobodyActive(Do(s, a), id)
  {
    var w := Subject(a);
    assert Shape(View(s, w)) && !Active(s, w, id);
    forall u | u != w ensures !Active(Do(s, a), u, id) {
      OnlySubjectChanges(s, a, u);
      assert !Active(s, u, id);
    }
    match a {
      case Acquire(l, step) => assert ActiveSlot(View(Do(s, a), l)) == ActiveSlot(View(s, l));
      case Record(l, step) =>
        if step == Link(true) {
          LinkView(s, l);
        } else {
          RecordChanges(s, l, step);
          RecordLinksNothingNew(View(s, l), step);
        }
      case Stop(_, step) => StopChanges(s, w, step);
    }
  }

  /** A slot that is offered has no active worker: a snapshot lists free slots, a new row no link. */
  lemma OfferedIsInactive(s: State, a: Action, claim: Action, id: SlotId)
    requires Shaped(s) && Enabled(s, a) && Offers(a, claim, id)
    ensures NobodyActive(Do(s, a), id)
  {
    if a.acq.Query? { assert Available(s, id); }
    forall w ensures !Active(Do(s, a), w, id) {
      assert Do(s, a).links == s.links && Do(s, a).rows == s.rows;
    }
  }

  lemma {:induction false} InactiveUntil(ss: seq<State>, acts: seq<Action>, j: nat, i: nat, claim: Action, id: SlotId)
    requires IsRun(ss, acts) && j < i <= |acts| && Offers(acts[j], claim, id) && NoLinkBetween(ss, acts, j, i, id)
    ensures NobodyActive(ss[i], id)
    decreases i
  {
    assert StepAt(ss, acts, i - 1);
    SoundAt(ss, acts, i - 1);
    if i == j + 1 {
      OfferedIsInactive(ss[j], acts[j], claim, id);
    } else {
      assert NoLinkBetween(ss, acts, j, i - 1, id);
      InactiveUntil(ss, acts, j, i - 1, claim, id);
      StaysInactive(ss[i - 1], acts[i - 1], id);
    }
  }

  predicate Choosing(pc: Pc) {
    pc.Trying? || pc.Inserted?
  }

  /** The step that brought a launch to its choice. */
  predicate Began(a: Action, l: Id, pc: Pc)
    requires Choosing(pc)
  {
    if pc.Trying? then a == Acquire(l, Query(pc.candidates)) else a == Acquire(l, InsertRow(pc.slot, true))
  }

  predicate SameChoice(pc: Pc, pc': Pc)
    requires Choosing(pc')
  {
    pc == pc' || (pc.Trying? && pc'.Trying? && pc.candidates == pc'.candidates)
  }

  lemma ChoiceStep(s: State, a: Action, l: Id)
    requires Enabled(s, a) && l in Do(s, a).launches && Choosing(Do(s, a).launches[l])
    ensures Began(a, l, Do(s, a).launches[l]) || (l in s.launches && SameChoice(s.launches[l], Do(s, a).launches[l]))
  {
    match a
    case Acquire(m, step) => if m == l { ChoiceAcquire(s, l, step); } else { AcquireFrame(s, m, step, l); }
    case Record(m, step) => if m == l { ChoiceRecord(s, l, step); } else { RecordFrame(s, m, step, l); }
    case Stop(w, step) => StopLeavesPool(s, w, step);
  }

  lemma ChoiceAcquire(s: State, l: Id, a: AcquireStep)
    requires CanAcquire(s, l, a) && l in DoAcquire(s, l, a).launches && Choosing(DoAcquire(s, l, a).launches[l])
    ensures var pc := DoAcquire(s, l, a).launches[l];
      Began(Acquire(l, a), l, pc) || (l in s.launches && SameChoice(s.launches[l], pc))
  {
  }

  lemma ChoiceRecord(s: State, l: Id, a: RecordStep)
    requires CanRecord(s, l, a)
    ensures l in DoRecord(s, l, a).launches ==> !Choosing(DoRecord(s, l, a).launches[l])
  {
  }

  lemma {:induction false} BeganBefore(ss: seq<State>, acts: seq<Action>, i: nat, l: Id) returns (j: nat)
    requires IsRun(ss, acts) && i <= |acts| && l in ss[i].launches && Choosing(ss[i].launches[l])
    ensures j < i && Began(acts[j], l, ss[i].launches[l])
    decreases i
  {
    assert StepAt(ss, acts, i - 1);
    ChoiceStep(ss[i - 1], acts[i - 1], l);
    if Began(acts[i - 1], l, ss[i].launches[l]) {
      j := i - 1;
    } else {
      j := BeganBefore(ss, acts, i - 1, l);
    }
  }

  /** Under fresh claims every claim of every run is made on a slot without an active worker. */
  lemma ClaimedIsInactive(ss: seq<State>, acts: seq<Action>, i: nat, id: SlotId)
    requires IsRun(ss, acts) && FreshClaims(ss, acts) && i < |acts| && ClaimsSlot(ss[i], acts[i], id)
    ensures NobodyActive(ss[i], id)
  {
    var l := acts[i].l;
    var j := BeganBefore(ss, acts, i, l);
    assert Offers(acts[j], acts[i], id);
    InactiveUntil(ss, acts, j, i, acts[i], id);
  }

  ghost predicate InactiveClaimAt(ss: seq<State>, acts: seq<Action>, i: nat)
    requires i < |acts| && |ss| == |acts| + 1
  {
    forall id | ClaimsSlot(ss[i], acts[i], id) :: NobodyActive(ss[i], id)
  }

  lemma StartLinksExclusive(s: State)
    requires Exclusive(s)
    ensures LinksExclusive(s)
  {
    forall w, id | Active(s, w, id) ensures w in s.links && s.links[w] == id {}
  }

  lemma {:induction false} InactiveClaimsStayExclusive(ss: seq<State>, acts: seq<Action>, i: nat)
    requires IsRun(ss, acts) && i <= |acts| && forall k: nat | k < i :: InactiveClaimAt(ss, acts, k)
    ensures LinksExclusive(ss[i])
    decreases i
  {
    if i == 0 {
      StartLinksExclusive(ss[0]);
    } else {
      InactiveClaimsStayExclusive(ss, acts, i - 1);
      SoundAt(ss, acts, i - 1);
      assert StepAt(ss, acts, i - 1) && InactiveClaimAt(ss, acts, i - 1);
      var claim := NewClaim(ss[i - 1], acts[i - 1]);
      if claim.Some? { assert ClaimsSlot(ss[i - 1], acts[i - 1], claim.value); }
      LinksExclusiveIffClaim(ss[i - 1], acts[i - 1]);
    }
  }

  /** In every run links are exclusive throughout exactly when every claim is made on a slot without
      an active worker. */
  lemma LinksRunIffInactiveClaims(ss: seq<State>, acts: seq<Action>)
    requires IsRun(ss, acts)
    ensures (forall i: nat | i < |ss| :: LinksExclusive(ss[i])) <==>
      forall i: nat | i < |acts| :: InactiveClaimAt(ss, acts, i)
  {
    if forall i: nat | i < |acts| :: InactiveClaimAt(ss, acts, i) {
      forall i: nat | i < |ss| ensures LinksExclusive(ss[i]) { InactiveClaimsStayExclusive(ss, acts, i); }
    }
    if forall i: nat | i < |ss| :: LinksExclusive(ss[i]) {
      forall i: nat | i < |acts| ensures InactiveClaimAt(ss, acts, i) {
        SoundAt(ss, acts, i);
        assert StepAt(ss, acts, i) && LinksExclusive(ss[i]) && LinksExclusive(ss[i + 1]);
        LinksExclusiveIffClaim(ss[i], acts[i]);
      }
    }
  }

  /** In every run whose claims are fresh, whatever is cancelled, fails or is stopped: no slot is
      linked to two active workers, and a claimed slot has no active worker or the claimant's own. */
  lemma LinksAreExclusive(ss: seq<State>, acts: seq<Action>, i: nat)
    requires IsRun(ss, acts) && FreshClaims(ss, acts) && i < |ss|
    ensures LinksExclusive(ss[i])
  {
    forall k: nat | k < |acts| ensures InactiveClaimAt(ss, acts, k) {
      forall id | ClaimsSlot(ss[k], acts[k], id) ensures NobodyActive(ss[k], id) {
        ClaimedIsInactive(ss, acts, k, id);
      }
    }
    InactiveClaimsStayExclusive(ss, acts, i);
  }

  // ---- exclusive slots in careful runs ----

  ghost predicate UnlinkedClaimAt(ss: seq<State>, acts: seq<Action>, i: nat)
    requires i < |acts| && |ss| == |acts| + 1
  {
    forall id | ClaimsSlot(ss[i], acts[i], id) :: NobodyLinked(ss[i], id)
  }

  lemma {:induction false} UnlinkedClaimsStayExclusive(ss: seq<State>, acts: seq<Action>, i: nat)
    requires IsRun(ss, acts) && CarefulRun(ss, acts)
    requires i <= |acts| && forall k: nat | k < i :: UnlinkedClaimAt(ss, acts, k)
    ensures Exclusive(ss[i])
    decreases i
  {
    if i > 0 {
      var s, a := ss[i - 1], acts[i - 1];
      UnlinkedClaimsStayExclusive(ss, acts, i - 1);
      SoundAt(ss, acts, i - 1);
      CarefulRunsOk(ss, acts, i - 1);
      assert StepAt(ss, acts, i - 1) && CarefulAt(ss, acts, i - 1) && UnlinkedClaimAt(ss, acts, i - 1);
      if NewClaim(s, a).Some? { assert ClaimsSlot(s, a, NewClaim(s, a).value); }
      SafeWhenCareful(s, a);
      ExclusiveIffSafe(s, a);
    }
  }

  /** In every careful run slots are exclusive throughout exactly when every claim is made on a slot
      nobody is linked to. */
  lemma CarefulRunIffUnlinkedClaims(ss: seq<State>, acts: seq<Action>)
    requires IsRun(ss, acts) && CarefulRun(ss, acts)
    ensures (forall i: nat | i < |ss| :: Exclusive(ss[i])) <==>
      forall i: nat | i < |acts| :: UnlinkedClaimAt(ss, acts, i)
  {
    if forall i: nat | i < |acts| :: UnlinkedClaimAt(ss, acts, i) {
      forall i: nat | i < |ss| ensures Exclusive(ss[i]) { UnlinkedClaimsStayExclusive(ss, acts, i); }
    }
    if forall i: nat | i < |ss| :: Exclusive(ss[i]) {
      ExclusiveRunIffSafe(ss, acts);
      forall i: nat | i < |acts| ensures UnlinkedClaimAt(ss, acts, i) { assert SafeAt(ss, acts, i); }
    }
  }

  /** In every careful run whose claims are fresh: no slot is linked to two workers, a claimed slot
      is unlinked or linked to the claimant's own worker, recycling, running and cleaning of one
      slot are never done by two ids at once, and a running container has its row and its slot. */
  lemma SlotsAreExclusive(ss: seq<State>, acts: seq<Action>, i: nat)
    requires IsRun(ss, acts) && CarefulRun(ss, acts) && FreshClaims(ss, acts) && i < |ss|
    ensures Exclusive(ss[i])
  {
    forall k: nat | k < |acts| ensures UnlinkedClaimAt(ss, acts, k) {
      CarefulRunsOk(ss, acts, k);
      forall id | ClaimsSlot(ss[k], acts[k], id) ensures NobodyLinked(ss[k], id) {
        ClaimedIsInactive(ss, acts, k, id);
        InactiveIsUnlinked(ss[k], id);
      }
    }
    UnlinkedClaimsStayExclusive(ss, acts, i);
  }

  lemma InactiveIsUnlinked(s: State, id: SlotId)
    requires AllOk(s) && NobodyActive(s, id)
    ensures NobodyLinked(s, id)
  {
    forall w | w in s.links ensures s.links[w] != id {
      assert LocalOk(View(s, w)) && !Active(s, w, id);
    }
  }

  // ---- preparing a new slot ----

  /** Some step before `i` found this candidate of `l` claimed by another launch. */
  ghost predicate RefusedBefore(ss: seq<State>, acts: seq<Action>, i: nat, l: Id, id: SlotId)
    requires IsRun(ss, acts) && i <= |acts|
  {
    exists j :: 0 <= j < i && acts[j] == Acquire(l, Try) && id in ss[j].claims
  }

  /** How a launch can come to have `k` refused candidates. */
  ghost predicate CameToTry(s: State, a: Action, l: Id, pc: Pc)
    requires pc.Trying?
  {
    || (l in s.launches && s.launches[l] == pc)
    || (a == Acquire(l, Try) && l in s.launches && 0 < pc.k <= |pc.candidates| &&
        s.launches[l] == Trying(pc.candidates, pc.k - 1) && pc.candidates[pc.k - 1] in s.claims)
  }

  lemma TryingStep(s: State, a: Action, s': State, l: Id)
    requires Enabled(s, a) && s' == Do(s, a) && l in s'.launches && s'.launches[l].Trying? && s'.launches[l].k > 0
    ensures CameToTry(s, a, l, s'.launches[l])
  {
    match a
    case Acquire(m, step) => if m == l { TryingAcquire(s, l, step); } else { AcquireFrame(s, m, step, l); }
    case Record(m, step) => if m == l { ChoiceRecord(s, l, step); } else { RecordFrame(s, m, step, l); }
    case Stop(w, step) => StopLeavesPool(s, w, step);
  }

  lemma TryingAcquire(s: State, l: Id, a: AcquireStep)
    requires CanAcquire(s, l, a) && l in DoAcquire(s, l, a).launches
    requires var pc := DoAcquire(s, l, a).launches[l]; pc.Trying? && pc.k > 0
    ensures CameToTry(s, Acquire(l, a), l, DoAcquire(s, l, a).launches[l])
  {
  }

  lemma RefusedStays(ss: seq<State>, acts: seq<Action>, i: nat, l: Id, id: SlotId)
    requires IsRun(ss, acts) && i < |acts| && RefusedBefore(ss, acts, i, l, id)
    ensures RefusedBefore(ss, acts, i + 1, l, id)
  {
    var j :| 0 <= j < i && acts[j] == Acquire(l, Try) && id in ss[j].claims;
  }

  /** A launch looks for a new slot only after every slot in its snapshot was refused. */
  lemma {:induction false} RefusalsAreReal(ss: seq<State>, acts: seq<Action>, i: nat, l: Id)
    requires IsRun(ss, acts) && i <= |acts| && l in ss[i].launches && ss[i].launches[l].Trying?
    ensures var pc := ss[i].launches[l];
      pc.k <= |pc.candidates| && forall t | 0 <= t < pc.k :: RefusedBefore(ss, acts, i, l, pc.candidates[t])
    decreases i
  {
    var pc := ss[i].launches[l];
    if i > 0 && pc.k > 0 {
      assert StepAt(ss, acts, i - 1);
      TryingStep(ss[i - 1], acts[i - 1], ss[i], l);
      RefusalsAreReal(ss, acts, i - 1, l);
      if pc == ss[i - 1].launches[l] {
        forall t | 0 <= t < pc.k ensures RefusedBefore(ss, acts, i, l, pc.candidates[t]) {
          RefusedStays(ss, acts, i - 1, l, pc.candidates[t]);
        }
        return;
      }
      assert acts[i - 1] == Acquire(l, Try) && pc.candidates[pc.k - 1] in ss[i - 1].claims;
      forall t | 0 <= t < pc.k ensures RefusedBefore(ss, acts, i, l, pc.candidates[t]) {
        if t < pc.k - 1 {
          RefusedStays(ss, acts, i - 1, l, pc.candidates[t]);
        }
      }
    }
  }

  lemma NewSlotOnlyWhenAllRefused(ss: seq<State>, acts: seq<Action>, i: nat)
    requires IsRun(ss, acts) && i < |acts| && acts[i].Acquire? && acts[i].acq.FallThrough?
    ensures acts[i].l in ss[i].launches && ss[i].launches[acts[i].l].Trying?
    ensures forall id | id in ss[i].launches[acts[i].l].candidates :: RefusedBefore(ss, acts, i, acts[i].l, id)
  {
    assert StepAt(ss, acts, i);
    RefusalsAreReal(ss, acts, i, acts[i].l);
  }
}

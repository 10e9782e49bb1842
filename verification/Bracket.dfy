/** Every interleaving of leases, git commands and worker edits on one slot. */
module Bracket {
  import opened Overlay
  import opened OverlayManager

  /** `want` is what the worker last left at each overlay path: a file, a link, or nothing. `healthy`
      says that no reveal has failed and no capture was cut short. Both are history, not state of
      the code. */
  datatype Machine = Machine(
    slot: SlotState, active: nat, leases: set<nat>, want: map<Path, Option<Entry>>, healthy: bool)

  datatype Action =
    | Acquire(lease: nat)
    | AcquireFails(restored: bool)
    | Command(lease: nat)
    | Release(lease: nat, ok: bool)
    | Edit
    | Reinstall

  function EntryAt(worktree: map<Path, Entry>, p: Path): Option<Entry> {
    if p in worktree then Some(worktree[p]) else None
  }

  /** The overlay files as the slot shows them between brackets. */
  ghost function Given(s: SlotState): map<Path, Option<Entry>> {
    map p | p in s.overlay :: Some(File(Captured(s)[p]))
  }

  /** The worker has changed some paths of the worktree, at any time. */
  ghost function Edited(m: Machine, worktree: map<Path, Entry>): Machine {
    m.(slot := m.slot.(worktree := worktree),
       want := map p | p in m.want :: if SameAt(m.slot.worktree, worktree, p) then m.want[p] else EntryAt(worktree, p))
  }

  /** A conceal that failed after its capture loop was made good by the recovery reveal. */
  ghost predicate Recovered(s: SlotState, s': SlotState) {
    exists mid :: AbortedLater(s, mid) && s' == Revealed(mid)
  }

  ghost predicate Step(m: Machine, m': Machine, a: Action) {
    match a
    case Acquire(l) =>
      && l !in m.leases
      && ConcealStep(m.slot, m.active, m'.slot, m'.active, Leased)
      && m' == m.(slot := m'.slot, active := m'.active, leases := m.leases + {l})
    case AcquireFails(restored) =>
      && ConcealStep(m.slot, m.active, m'.slot, m'.active, Refused(restored))
      && m' == m.(slot := m'.slot, active := m'.active, healthy := m.healthy && Recovered(m.slot, m'.slot))
    case Command(l) =>   // anything that leaves `.git/ur-overlay` alone
      && l in m.leases && WellFormed(m'.slot)
      && m' == m.(slot := m.slot.(index := m'.slot.index, skip := m'.slot.skip, worktree := m'.slot.worktree))
    case Release(l, ok) =>
      && l in m.leases
      && RevealStep(m.slot, m.active, m'.slot, m'.active, ok)
      && m' == m.(slot := m'.slot, active := m'.active, leases := m.leases - {l}, healthy := m.healthy && ok)
    case Edit => m' == Edited(m, m'.slot.worktree)
    case Reinstall =>    // apply, recycle and clean run only between brackets
      && m.leases == {} && WellFormed(m'.slot)
      && (exists root, remote, local :: m'.slot == Applied(Cloned(root, remote), local))
      && m' == m.(slot := m'.slot, want := Given(m'.slot), healthy := true)
  }

  /** Commands and edits made while a lease is out keep the hidden paths in step with the index. */
  ghost predicate InStep(m: Machine, m': Machine, a: Action) {
    (a.Command? || a.Edit?) && m.leases != {} && Hidden(m.slot) ==> Hidden(m'.slot)
  }

  ghost predicate Start(m: Machine) {
    WellFormed(m.slot) && m.active == 0 && m.leases == {} && m.healthy && m.want == Given(m.slot)
  }

  ghost predicate IsRun(ms: seq<Machine>, acts: seq<Action>) {
    && |ms| == |acts| + 1 && Start(ms[0])
    && forall i | 0 <= i < |acts| :: Step(ms[i], ms[i + 1], acts[i])
  }

  // ---- leases, in every run ----

  ghost predicate Inv(m: Machine) {
    && WellFormed(m.slot)
    && m.active == |m.leases|
    && (m.leases != {} ==> m.slot.installed)
    && m.want.Keys == m.slot.overlay.Keys
  }

  lemma AbortKeepsWellFormed(s: SlotState, s': SlotState)
    requires WellFormed(s)
    ensures ConcealAborted(s, s') ==> WellFormed(s') && s'.installed == s.installed && s'.overlay.Keys == s.overlay.Keys
    ensures RevealAborted(s, s') ==> WellFormed(s') && s'.installed == s.installed && s'.overlay.Keys == s.overlay.Keys
  {
  }

  lemma RefusalKeepsInv(m: Machine, m': Machine, restored: bool)
    requires Inv(m) && Step(m, m', AcquireFails(restored))
    ensures Inv(m')
  {
    var mid :| ConcealAborted(m.slot, mid) &&
      (if restored then m'.slot == Revealed(mid) else RevealAborted(mid, m'.slot));
    AbortKeepsWellFormed(m.slot, mid);
    AbortKeepsWellFormed(mid, m'.slot);
    KeptWellFormed(mid);
  }

  lemma ReleaseKeepsInv(m: Machine, m': Machine, l: nat, ok: bool)
    requires Inv(m) && Step(m, m', Release(l, ok))
    ensures Inv(m')
  {
    KeptWellFormed(m.slot);
    AbortKeepsWellFormed(m.slot, m'.slot);
  }

  lemma StepKeepsInv(m: Machine, m': Machine, a: Action)
    requires Inv(m) && Step(m, m', a)
    ensures Inv(m')
  {
    match a
    case Acquire(l) => GrantKeepsInv(m, m', l);
    case AcquireFails(restored) => RefusalKeepsInv(m, m', restored);
    case Command(l) => CommandKeepsInv(m, m', l);
    case Release(l, ok) => ReleaseKeepsInv(m, m', l, ok);
    case Edit => EditKeepsInv(m, m');
    case Reinstall => ReinstallKeepsInv(m, m');
  }

  lemma GrantKeepsInv(m: Machine, m': Machine, l: nat)
    requires Inv(m) && Step(m, m', Acquire(l))
    ensures Inv(m')
  {
    GrantedSlot(m.slot, m.active, m'.slot, m'.active);
    assert |m.leases + {l}| == |m.leases| + 1;
  }

  lemma GrantedSlot(s: SlotState, active: nat, s': SlotState, active': nat)
    requires WellFormed(s) && ConcealStep(s, active, s', active', Leased)
    ensures WellFormed(s') && s'.installed && s'.overlay.Keys == s.overlay.Keys && active' == active + 1
  {
    KeptWellFormed(s);
    assert Captured(s).Keys == s.overlay.Keys;
  }

  lemma CommandKeepsInv(m: Machine, m': Machine, l: nat)
    requires Inv(m) && Step(m, m', Command(l))
    ensures Inv(m')
  {
  }

  lemma EditKeepsInv(m: Machine, m': Machine)
    requires Inv(m) && Step(m, m', Edit)
    ensures Inv(m')
  {
  }

  lemma ReinstallKeepsInv(m: Machine, m': Machine)
    requires Inv(m) && Step(m, m', Reinstall)
    ensures Inv(m')
  {
    assert Given(m'.slot).Keys == m'.slot.overlay.Keys;
  }

  /** In every run, failing steps included, the counter equals the number of outstanding leases. */
  lemma {:induction false} LeasesCounted(ms: seq<Machine>, acts: seq<Action>)
    requires IsRun(ms, acts)
    ensures forall i | 0 <= i < |ms| :: Inv(ms[i])
    decreases |acts|
  {
    if |acts| > 0 {
      var n := |acts| - 1;
      LeasesCounted(ms[..n + 1], acts[..n]);
      assert Inv(ms[..n + 1][n]);
      StepKeepsInv(ms[n], ms[n + 1], acts[n]);
    }
  }

  // ---- the worker's work ----

  /** What the next bracket keeps of each overlay path. */
  ghost function Content(m: Machine): map<Path, string> {
    if m.active == 0 then Captured(m.slot) else m.slot.overlay
  }

  /** At every overlay path the worker last left a file, and that content is what brackets keep. */
  ghost predicate Conserved(m: Machine) {
    forall p | p in m.slot.overlay :: p in m.want && m.want[p] == Some(File(Content(m)[p]))
  }

  /** Every overlay path the edit changes is left as a regular file, and while a lease is out with no
      other content than the overlay copy already has. */
  ghost predicate EditKept(m: Machine, m': Machine) {
    forall p | p in m.slot.overlay && !SameAt(m.slot.worktree, m'.slot.worktree, p) ::
      IsFile(m'.slot.worktree, p) && (m.active > 0 ==> m'.slot.worktree[p].content == m.slot.overlay[p])
  }

  lemma RevealedContent(s: SlotState)
    ensures Captured(Revealed(s)) == s.overlay
  {
  }

  lemma EditConservesIffKept(m: Machine, m': Machine)
    requires Inv(m) && Conserved(m) && Step(m, m', Edit)
    ensures Conserved(m') <==> EditKept(m, m')
  {
    forall p | p in m.slot.overlay ensures m'.want[p] == Some(File(Content(m')[p])) <==>
      (SameAt(m.slot.worktree, m'.slot.worktree, p) ||
       (IsFile(m'.slot.worktree, p) && (m.active > 0 ==> m'.slot.worktree[p].content == m.slot.overlay[p])))
    {
      assert m.want[p] == Some(File(Content(m)[p]));
    }
  }

  lemma OtherStepsConserve(m: Machine, m': Machine, a: Action)
    requires Inv(m) && Conserved(m) && Step(m, m', a) && !a.Edit? && m'.healthy
    ensures Conserved(m')
  {
    StepKeepsInv(m, m', a);
    match a
    case Acquire(l) => assert Content(m') == Content(m);
    case AcquireFails(restored) =>
      var mid :| AbortedLater(m.slot, mid) && m'.slot == Revealed(mid);
      RevealedContent(mid);
      assert Content(m') == Content(m);
    case Command(l) => assert Content(m') == Content(m);
    case Release(l, ok) =>
      RevealedContent(m.slot);
      assert Content(m') == Content(m);
    case Reinstall =>
  }

  lemma {:induction false} KeptEditsConserve(ms: seq<Machine>, acts: seq<Action>, i: nat)
    requires IsRun(ms, acts) && i < |ms| && forall k | 0 <= k < |ms| :: ms[k].healthy
    requires forall k | 0 <= k < |acts| && acts[k].Edit? :: EditKept(ms[k], ms[k + 1])
    ensures Conserved(ms[i])
    decreases i
  {
    if i > 0 {
      KeptEditsConserve(ms, acts, i - 1);
      LeasesCounted(ms, acts);
      assert Inv(ms[i - 1]) && Step(ms[i - 1], ms[i], acts[i - 1]);
      if acts[i - 1].Edit? {
        EditConservesIffKept(ms[i - 1], ms[i]);
      } else {
        OtherStepsConserve(ms[i - 1], ms[i], acts[i - 1]);
      }
    }
  }

  /** In every run in which no reveal fails and no capture is cut short, what the worker last left at
      the overlay paths is conserved throughout, through every conceal, command, overlap and reveal,
      exactly when no edit removes an overlay file and none gives it new content while a lease is
      out. */
  lemma WorkConservedIffEditsKept(ms: seq<Machine>, acts: seq<Action>)
    requires IsRun(ms, acts) && forall i | 0 <= i < |ms| :: ms[i].healthy
    ensures (forall i | 0 <= i < |ms| :: Conserved(ms[i])) <==>
      forall i | 0 <= i < |acts| && acts[i].Edit? :: EditKept(ms[i], ms[i + 1])
  {
    LeasesCounted(ms, acts);
    if forall i | 0 <= i < |acts| && acts[i].Edit? :: EditKept(ms[i], ms[i + 1]) {
      forall i | 0 <= i < |ms| ensures Conserved(ms[i]) { KeptEditsConserve(ms, acts, i); }
    }
    if forall i | 0 <= i < |ms| :: Conserved(ms[i]) {
      forall i | 0 <= i < |acts| && acts[i].Edit? ensures EditKept(ms[i], ms[i + 1]) {
        assert Inv(ms[i]) && Conserved(ms[i]) && Conserved(ms[i + 1]) && Step(ms[i], ms[i + 1], acts[i]);
        EditConservesIffKept(ms[i], ms[i + 1]);
      }
    }
  }

  // ---- what git sees ----

  lemma StepKeepsHidden(m: Machine, m': Machine, a: Action)
    requires Inv(m) && Step(m, m', a) && InStep(m, m', a)
    requires m.leases != {} ==> Hidden(m.slot)
    ensures m'.leases != {} ==> Hidden(m'.slot)
  {
    match a
    case Acquire(l) => if m.active == 0 { ConcealHides(m.slot); }
    case Release(l, ok) => StepKeepsInv(m, m', a);
    case _ =>
  }

  /** Every command of every run sees each overlay path equal to its index entry, or absent when
      untracked, and unpinned. */
  lemma {:induction false} CommandsNeverSeeOverlays(ms: seq<Machine>, acts: seq<Action>)
    requires IsRun(ms, acts)
    requires forall i | 0 <= i < |acts| :: InStep(ms[i], ms[i + 1], acts[i])
    ensures forall i | 0 <= i < |ms| :: ms[i].leases != {} ==> Hidden(ms[i].slot)
    decreases |acts|
  {
    LeasesCounted(ms, acts);
    if |acts| > 0 {
      var n := |acts| - 1;
      CommandsNeverSeeOverlays(ms[..n + 1], acts[..n]);
      assert ms[..n + 1][n] == ms[n];
      StepKeepsHidden(ms[n], ms[n + 1], acts[n]);
    }
  }

  /** Taking the first lease conceals and returning the last one reveals; no other acquisition or
      release touches the slot. When returning the last lease succeeds, every overlay path is a
      regular file again, and as the worker last left it if its work was conserved so far. */
  lemma ConcealFirstRevealLast(ms: seq<Machine>, acts: seq<Action>, i: nat)
    requires IsRun(ms, acts) && i < |acts|
    ensures acts[i].Acquire? ==>
      ms[i + 1].slot == if ms[i].leases == {} then Concealed(ms[i].slot) else ms[i].slot
    ensures acts[i].Release? && ms[i + 1].leases != {} ==> ms[i + 1].slot == ms[i].slot && acts[i].ok
    ensures acts[i].Release? && ms[i + 1].leases == {} && acts[i].ok ==>
      && ms[i + 1].slot == Revealed(ms[i].slot)
      && forall p | p in ms[i].slot.overlay ::
           && IsFile(ms[i + 1].slot.worktree, p)
           && (Conserved(ms[i]) ==> p in ms[i].want && EntryAt(ms[i + 1].slot.worktree, p) == ms[i].want[p])
  {
    LeasesCounted(ms, acts);
    assert Inv(ms[i]) && Inv(ms[i + 1]);
    assert Step(ms[i], ms[i + 1], acts[i]);
  }

  /** After a clean, no lease is ever granted until overlays are installed again. */
  lemma {:induction false} NoLeaseAfterClean(ms: seq<Machine>, acts: seq<Action>)
    requires IsRun(ms, acts) && !ms[0].slot.installed
    requires forall i | 0 <= i < |acts| :: !acts[i].Reinstall?
    ensures forall i | 0 <= i < |ms| :: !ms[i].slot.installed && ms[i].leases == {}
    ensures forall i | 0 <= i < |acts| :: acts[i].Edit?
    decreases |acts|
  {
    if |acts| > 0 {
      var n := |acts| - 1;
      NoLeaseAfterClean(ms[..n + 1], acts[..n]);
      assert ms[..n + 1][n] == ms[n];
      assert Step(ms[n], ms[n + 1], acts[n]) && acts[n].Edit?;
      forall i | 0 <= i < |acts| ensures acts[i].Edit? {
        if i < n { assert acts[..n][i] == acts[i]; }
      }
    }
  }

  // ---- edits that are not kept ----

  /** A slot without tracked files in which one overlay file has been installed. */
  ghost function OneOverlay(p: Path, first: string): SlotState {
    Applied(Cloned("/slot", map[]), Some(map[p := first]))
  }

  lemma OneOverlayShows(p: Path, first: string)
    ensures ShowsOne(OneOverlay(p, first), p, first)
  {
    var base := Cloned("/slot", map[]).(installed := true, overlay := map[p := first]);
    assert OneOverlay(p, first) == Revealed(base) && Pins(base) == {};
    PinnedReadsBack(base);
    KeptWellFormed(base);
  }

  /** A slot that shows one untracked overlay file. */
  ghost predicate ShowsOne(s: SlotState, p: Path, first: string) {
    && WellFormed(s) && s.installed && s.index == map[] && s.skip == {} && PinnedSet(s) == {}
    && s.worktree == map[p := File(first)] && s.overlay == map[p := first]
  }

  ghost function Fresh(s: SlotState): Machine {
    Machine(s, 0, {}, Given(s), true)
  }

  /** The only lease is taken and given back. */
  ghost function Taken(m: Machine): Machine {
    m.(slot := Concealed(m.slot), active := 1, leases := {0})
  }

  ghost function Returned(m: Machine): Machine {
    m.(slot := Revealed(m.slot), active := 0, leases := {})
  }

  lemma TakenIsStep(m: Machine)
    requires m.active == 0 && m.leases == {} && m.slot.installed && GitAllowsConceal(m.slot)
    ensures Step(m, Taken(m), Acquire(0))
  {
  }

  lemma ReturnedIsStep(m: Machine)
    requires m.active == 1 && m.leases == {0}
    ensures Step(m, Returned(m), Release(0, true))
    ensures forall p | p in m.slot.overlay ::
      EntryAt(Returned(m).slot.worktree, p) == Some(File(m.slot.overlay[p]))
  {
  }

  lemma ConcealOne(s: SlotState, p: Path, first: string)
    requires s.index == map[] && s.skip == {} && PinnedSet(s) == {} && s.overlay == map[p := first]
    requires s.worktree in {map[], map[p := File(first)]}
    ensures GitAllowsConceal(s) && Concealed(s).worktree == map[] && Concealed(s).overlay == map[p := first]
  {
    assert Restored(s) == {};
    assert Captured(s) == map[p := first];
  }

  lemma GivenOne(s: SlotState, p: Path, first: string)
    requires ShowsOne(s, p, first)
    ensures Given(s) == map[p := Some(File(first))] && Start(Fresh(s))
  {
    assert Captured(s)[p] == first;
  }

  lemma EditOne(m: Machine, p: Path, worktree: map<Path, Entry>)
    requires p in m.want && !SameAt(m.slot.worktree, worktree, p)
    ensures var m' := Edited(m, worktree); Step(m, m', Edit) && p in m'.want && m'.want[p] == EntryAt(worktree, p)
  {
  }

  /** Whatever a worker writes to an overlay path while a command runs is overwritten by the reveal. */
  lemma WriteUnderLeaseIsLost(p: Path, first: string, second: string) returns (ms: seq<Machine>)
    ensures IsRun(ms, [Acquire(0), Edit, Release(0, true)]) && ms[0].slot == OneOverlay(p, first)
    ensures (forall i | 0 <= i < |ms| :: ms[i].healthy) && ms[3].leases == {}
    ensures p in ms[3].want && ms[3].want[p] == Some(File(second))
    ensures EntryAt(ms[3].slot.worktree, p) == Some(File(first))
  {
    OneOverlayShows(p, first);
    ms := WriteRun(OneOverlay(p, first), p, first, second);
  }

  lemma WriteRun(s: SlotState, p: Path, first: string, second: string) returns (ms: seq<Machine>)
    requires ShowsOne(s, p, first)
    ensures IsRun(ms, [Acquire(0), Edit, Release(0, true)]) && ms[0].slot == s
    ensures (forall i | 0 <= i < |ms| :: ms[i].healthy) && ms[3].leases == {}
    ensures p in ms[3].want && ms[3].want[p] == Some(File(second))
    ensures EntryAt(ms[3].slot.worktree, p) == Some(File(first))
  {
    GivenOne(s, p, first);
    ConcealOne(s, p, first);
    var m0, m1 := Fresh(s), Taken(Fresh(s));
    TakenIsStep(m0);
    var m2 := Edited(m1, map[p := File(second)]);
    EditOne(m1, p, map[p := File(second)]);
    ReturnedIsStep(m2);
    ms := [m0, m1, m2, Returned(m2)];
  }

  /** An overlay file the worker deletes between commands is back after the next one. */
  lemma DeletionIsUndone(p: Path, first: string) returns (ms: seq<Machine>)
    ensures IsRun(ms, [Edit, Acquire(0), Release(0, true)]) && ms[0].slot == OneOverlay(p, first)
    ensures (forall i | 0 <= i < |ms| :: ms[i].healthy) && ms[3].leases == {}
    ensures p in ms[3].want && ms[3].want[p] == None
    ensures EntryAt(ms[3].slot.worktree, p) == Some(File(first))
  {
    OneOverlayShows(p, first);
    ms := DeletionRun(OneOverlay(p, first), p, first);
  }

  lemma DeletionRun(s: SlotState, p: Path, first: string) returns (ms: seq<Machine>)
    requires ShowsOne(s, p, first)
    ensures IsRun(ms, [Edit, Acquire(0), Release(0, true)]) && ms[0].slot == s
    ensures (forall i | 0 <= i < |ms| :: ms[i].healthy) && ms[3].leases == {}
    ensures p in ms[3].want && ms[3].want[p] == None
    ensures EntryAt(ms[3].slot.worktree, p) == Some(File(first))
  {
    GivenOne(s, p, first);
    var m0, m1 := Fresh(s), Edited(Fresh(s), map[]);
    EditOne(m0, p, map[]);
    ConcealOne(m1.slot, p, first);
    TakenIsStep(m1);
    var m2 := Taken(m1);
    ReturnedIsStep(m2);
    ms := [m0, m1, m2, Returned(m2)];
  }
}

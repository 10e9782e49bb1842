/** The overlay manager's operations as they run: loops of file copies and git commands, each of
    which may fail, over the files of one slot and its count of in-flight bracketed commands. */
module OverlayManager {
  import opened PinnedFile
  import opened Overlay

  datatype ConcealOutcome =
    | NoOverlay                  // Ok(None)
    | Leased                     // Ok(Some(lease))
    | Refused(restored: bool)    // Err, and whether the recovery reveal worked

  /** One `conceal_for`: what it answers and what it does to slot and counter. */
  ghost predicate ConcealStep(s: SlotState, active: nat, s': SlotState, active': nat, out: ConcealOutcome) {
    match out
    case NoOverlay => !s.installed && s' == s && active' == active
    case Leased =>
      && s.installed && active' == active + 1
      && (if active == 0 then GitAllowsConceal(s) && s' == Concealed(s) else s' == s)
    case Refused(restored) =>
      && s.installed && active == 0 && active' == 0
      && exists mid :: ConcealAborted(s, mid) && (if restored then s' == Revealed(mid) else RevealAborted(mid, s'))
  }

  /** One `reveal_after`: the counter always goes down, the overlays come back on reaching zero. */
  ghost predicate RevealStep(s: SlotState, active: nat, s': SlotState, active': nat, ok: bool) {
    && active' == (if active == 0 then 0 else active - 1)
    && (if active' > 0 then ok && s' == s else if ok then s' == Revealed(s) else RevealAborted(s, s'))
  }

  /** What a reveal needs besides working system calls: an overlay copy, and in a repository no
      overlay in place of a link to the slot root, whose name git does not take. */
  ghost predicate CanReveal(s: SlotState) {
    s.installed && (s.isRepo ==> "" !in Placed(s))
  }

  /** And what hiding the overlays needs. */
  ghost predicate CanHide(s: SlotState) {
    GitAllowsConceal(s) && (s.isRepo ==> "" !in s.overlay)
  }

  class Slot {
    var present: bool     // the slot directory exists
    var disk: SlotState
    var active: nat       // in-flight bracketed commands
    // history: leases handed out and given back, conceals and reveals begun, system calls failed
    ghost var granted: nat
    ghost var released: nat
    ghost var concealCount: nat
    ghost var revealCount: nat
    ghost var mishaps: nat

    ghost predicate Valid()
      reads this
    {
      WellFormed(disk) && (!present ==> disk == Missing(disk.root))
    }

    /** A slot directory as `git clone` leaves it. */
    constructor Clone(root: string, remote: map<Path, Entry>)
      requires forall p | p in remote :: Nameable(p)
      ensures Valid() && present && active == granted == released == concealCount == revealCount == mishaps == 0
      ensures disk == Cloned(root, remote)
    {
      present := true;
      disk := Cloned(root, remote);
      active := 0;
      granted, released, concealCount, revealCount, mishaps := 0, 0, 0, 0, 0;
    }

    // ---- system calls ----

    /** A file operation or git command may fail at any time, and every failure is counted. */
    method Attempt() returns (ok: bool)
      modifies this`mishaps
      ensures mishaps == old(mishaps) + if ok then 0 else 1
    {
      ok := *;
      if !ok { mishaps := mishaps + 1; }
    }

    // ---- git commands ----

    method UpdateIndexSkip(paths: seq<Path>, on: bool) returns (ok: bool)
      requires Valid()
      modifies this`mishaps, this`disk
      ensures Valid() && mishaps >= old(mishaps)
      ensures ok <==> mishaps == old(mishaps) && ToSet(paths) <= disk.index.Keys
      ensures disk == old(disk).(skip :=
        if !ok then old(disk).skip else if on then old(disk).skip + ToSet(paths) else old(disk).skip - ToSet(paths))
    {
      ok := Attempt();
      if !(ToSet(paths) <= disk.index.Keys) { ok := false; }
      if ok {
        disk := disk.(skip := if on then disk.skip + ToSet(paths) else disk.skip - ToSet(paths));
      }
    }

    /** A failing checkout may have written any of the paths. */
    method CheckoutPaths(paths: set<Path>) returns (ok: bool)
      requires Valid() && paths <= disk.index.Keys
      modifies this`mishaps, this`disk
      ensures Valid() && mishaps >= old(mishaps)
      ensures ok <==> mishaps == old(mishaps) && paths !! old(disk).skip
      ensures ok ==> disk == CheckedOut(old(disk), paths)
      ensures !ok ==> exists some :: some <= paths && disk == CheckedOut(old(disk), some)
    {
      ok := Attempt();
      var written := paths;
      if !ok || !(paths !! disk.skip) {
        ok := false;
        var some: set<Path> := *;
        written := paths * some;
      }
      disk := CheckedOut(disk, written);
    }

    method TrackedSubset(paths: seq<Path>) returns (ok: bool, tracked: set<Path>)
      requires Valid()
      modifies this`mishaps
      ensures mishaps >= old(mishaps)
      ensures ok <==> mishaps == old(mishaps) && (disk.isRepo ==> "" !in paths)
      ensures ok ==> tracked == Listed(disk.index, ToSet(paths))
    {
      if paths == [] || !disk.isRepo {
        return true, {};
      }
      if "" in paths { return false, {}; }   // git refuses an empty pathspec
      ok := Attempt();
      tracked := set p | p in disk.index && exists spec :: spec in paths && Matches(spec, p);
    }

    // ---- reveal ----

    /** `replace_symlink_collecting` and `copy_file` for one overlay file. */
    method PlaceFile(p: Path) returns (ok: bool, names: seq<Path>)
      requires Valid() && p in disk.overlay
      modifies this`mishaps, this`disk
      ensures Valid() && mishaps >= old(mishaps)
      ensures ok <==> mishaps == old(mishaps)
      ensures ok ==> disk == old(disk).(worktree := old(disk).worktree[p := File(old(disk).overlay[p])])
      ensures ok ==> ToSet(names) == {p} + LinkTargets(old(disk), {p})
      ensures ok ==> forall q :: q in names <==> q == p || ReplacesLinkTo(old(disk), p, q)
      ensures !ok ==> disk == old(disk) || (IsLink(old(disk).worktree, p) &&
                      disk == old(disk).(worktree := old(disk).worktree - {p}))
    {
      names := [];
      if IsLink(disk.worktree, p) {
        var link := LinkedPath(disk.root, p, disk.worktree[p].target);
        if link.Some? { names := [link.value]; }
        var removed := Attempt();
        if !removed { return false, names; }
        disk := disk.(worktree := disk.worktree - {p});
      }
      ok := Attempt();
      if !ok { return; }
      disk := disk.(worktree := disk.worktree[p := File(disk.overlay[p])]);
      names := names + [p];
      LinkTargetMeans(old(disk), p);
    }

    /** Copy the overlay files into the working tree, in whatever order the directory lists them. */
    method CopyIntoWorktree() returns (ok: bool, placed: seq<Path>)
      requires Valid()
      modifies this`mishaps, this`disk
      ensures Valid() && mishaps >= old(mishaps)
      ensures ok <==> mishaps == old(mishaps) && disk.installed
      ensures ok ==> disk == old(disk).(worktree := WithOverlays(old(disk), disk.overlay.Keys))
      ensures ok ==> ToSet(placed) == Placed(old(disk))
      ensures !ok ==> RevealAborted(old(disk), disk)
    {
      placed := [];
      ghost var s := disk;
      if !disk.installed { return false, []; }
      var rest := disk.overlay.Keys;
      ghost var done: set<Path> := {};
      assert WithOverlays(s, {}) == s.worktree;
      while rest != {}
        invariant Valid() && done !! rest && done + rest == s.overlay.Keys && mishaps == old(mishaps)
        invariant disk == s.(worktree := WithOverlays(s, done))
        invariant ToSet(placed) == done + LinkTargets(s, done)
        decreases rest
      {
        var p :| p in rest;
        ghost var v := disk;
        PlacedOneMore(s, done, p, v);
        var placedOne, names := PlaceFile(p);
        if !placedOne {
          PartlyPlaced(s, done, p, disk);
          return false, placed;
        }
        ToSetConcat(placed, names);
        placed := placed + names;
        rest, done := rest - {p}, done + {p};
      }
      assert done == s.overlay.Keys;
      ok := true;
    }

    /** Pin the tracked ones among `placed` and record them. */
    method PinTracked(placed: seq<Path>) returns (ok: bool)
      requires Valid()
      modifies this`mishaps, this`disk
      ensures Valid() && mishaps >= old(mishaps)
      ensures ok <==> mishaps == old(mishaps) && disk.installed && (disk.isRepo ==> "" !in placed)
      ensures var pins := ToSet(placed) * disk.index.Keys; var s := old(disk);
        if ok then disk == s.(skip := s.skip + pins, pinned := Some(JoinNul(Sorted(pins))))
        else disk == s || disk == s.(skip := s.skip + pins)
    {
      var tracked: set<Path>;
      ok, tracked := TrackedSubset(placed);
      if !ok { return; }
      var pins: seq<Path> := [];
      for i := 0 to |placed|
        invariant ToSet(pins) == ToSet(placed[..i]) * tracked
      {
        ghost var before := pins;
        if placed[i] in tracked { pins := pins + [placed[i]]; }
        assert ToSet(pins) == ToSet(before) + {placed[i]} * tracked;
        assert placed[..i + 1] == placed[..i] + [placed[i]];
        assert ToSet(placed[..i + 1]) == ToSet(placed[..i]) + {placed[i]};
      }
      assert placed[..|placed|] == placed;
      FilterKeepsIndexed(disk.index, ToSet(placed));
      pins := SortDedup(pins);
      if pins != [] {
        ok := UpdateIndexSkip(pins, true);
        if !ok { return; }
      }
      ok := Attempt();
      if !ok || !disk.installed { return false; }
      disk := disk.(pinned := Some(JoinNul(pins)));
    }

    method Reveal() returns (ok: bool)
      requires Valid()
      modifies this`mishaps, this`disk, this`revealCount
      ensures Valid() && mishaps >= old(mishaps) && revealCount == old(revealCount) + 1
      ensures ok <==> mishaps == old(mishaps) && CanReveal(old(disk))
      ensures ok ==> disk == Revealed(old(disk))
      ensures !ok ==> RevealAborted(old(disk), disk)
    {
      ghost var s := disk;
      revealCount := revealCount + 1;
      var placed: seq<Path>;
      ok, placed := CopyIntoWorktree();
      if !ok { return; }
      ok := PinTracked(placed);
      assert "" in placed <==> "" in ToSet(placed);
      if !ok { AllPlaced(s, disk.skip); }
    }

    // ---- conceal ----

    /** Copy the worker's version of one overlay file, if it is a regular file. */
    method CaptureFile(p: Path) returns (ok: bool)
      requires Valid() && p in disk.overlay
      modifies this`mishaps, this`disk
      ensures Valid() && mishaps >= old(mishaps)
      ensures ok <==> mishaps == old(mishaps)
      ensures !ok ==> disk == old(disk)
      ensures ok ==> disk == old(disk).(overlay := old(disk).overlay[p := LatestContent(old(disk), p)])
    {
      if IsFile(disk.worktree, p) {
        ok := Attempt();
        if !ok { return; }
        disk := disk.(overlay := disk.overlay[p := disk.worktree[p].content]);
      } else {
        assert disk.overlay[p := disk.overlay[p]] == disk.overlay;
      }
      ok := true;
    }

    /** List the overlay copy and capture the worker's regular files into it, in any order. */
    method Capture() returns (ok: bool, paths: seq<Path>)
      requires Valid()
      modifies this`mishaps, this`disk
      ensures Valid() && mishaps >= old(mishaps)
      ensures ok <==> mishaps == old(mishaps) && disk.installed
      ensures ok ==> disk == old(disk).(overlay := Captured(old(disk)))
      ensures ok ==> ToSet(paths) == old(disk).overlay.Keys
      ensures !ok ==> exists done :: AbortedInCapture(old(disk), disk, done)
    {
      paths := [];
      ghost var s := disk;
      assert CapturedIn(s, {}) == s.overlay;
      ok := Attempt();
      if !disk.installed || !ok {
        assert AbortedInCapture(s, disk, {});
        return false, [];
      }
      var rest := disk.overlay.Keys;
      ghost var done: set<Path> := {};
      while rest != {}
        invariant Valid() && done !! rest && done + rest == s.overlay.Keys && mishaps == old(mishaps)
        invariant ToSet(paths) == done
        invariant disk == s.(overlay := CapturedIn(s, done))
        decreases rest
      {
        var p :| p in rest;
        CapturedOneMore(s, done, p);
        ok := CaptureFile(p);
        if !ok {
          assert AbortedInCapture(s, disk, done);
          return;
        }
        ToSetConcat(paths, [p]);
        paths := paths + [p];
        rest, done := rest - {p}, done + {p};
      }
      assert done == s.overlay.Keys;
      ok := true;
    }

    method RemoveFiles(paths: set<Path>) returns (ok: bool)
      requires Valid()
      modifies this`mishaps, this`disk
      ensures Valid() && mishaps >= old(mishaps)
      ensures ok <==> mishaps == old(mishaps)
      ensures ok ==> disk == Removed(old(disk), paths)
      ensures !ok ==> exists some :: some <= paths && disk == Removed(old(disk), some)
    {
      var rest := paths;
      ghost var s := disk;
      assert Removed(s, {}) == s;
      while rest != {}
        invariant Valid() && rest <= paths && mishaps == old(mishaps)
        invariant disk == Removed(s, paths - rest)
        decreases rest
      {
        var p :| p in rest;
        RemovedOneMore(s, paths - rest, p);
        assert paths - (rest - {p}) == (paths - rest) + {p};
        if p in disk.worktree {
          ok := Attempt();
          if !ok {
            assert disk == Removed(s, paths - rest);
            return;
          }
          disk := disk.(worktree := disk.worktree - {p});
        }
        rest := rest - {p};
      }
      assert paths - rest == paths;
      ok := true;
    }

    /** Clear the bits of the recorded pins: all of them or none. */
    method Unpin() returns (ok: bool)
      requires Valid()
      modifies this`mishaps, this`disk
      ensures Valid() && mishaps >= old(mishaps)
      ensures ok <==> mishaps == old(mishaps) && PinnedSet(old(disk)) <= disk.index.Keys
      ensures disk == if ok then old(disk).(skip := old(disk).skip - PinnedSet(old(disk))) else old(disk)
    {
      ok := Attempt();   // reading the pinned file
      if !ok { return; }
      var pinned := if disk.pinned.None? then [] else ParsePinned(disk.pinned.value);
      assert ToSet(pinned) == PinnedSet(disk);
      if pinned != [] { ok := UpdateIndexSkip(pinned, false); }
    }

    /** Unpin, remove the untracked overlays and restore the tracked ones. */
    method HideFromGit(paths: seq<Path>) returns (ok: bool)
      requires Valid() && ToSet(paths) == disk.overlay.Keys
      modifies this`mishaps, this`disk
      ensures Valid() && mishaps >= old(mishaps)
      ensures ok <==> mishaps == old(mishaps) && CanHide(old(disk))
      ensures ok ==> var s := old(disk);
        disk == s.(skip := s.skip - PinnedSet(s), worktree := ConcealedTree(s))
      ensures !ok ==> HideAborted(old(disk), disk)
    {
      ghost var s := disk;
      NothingDone(s);
      ok := Unpin();
      if !ok {
        assert HideStopped(s, disk, s.skip, {}, {});
        return;
      }
      ghost var unpinned := disk;
      NothingDone(unpinned);
      var tracked: set<Path>;
      ok, tracked := TrackedSubset(paths);
      if !ok {
        assert HideStopped(s, disk, unpinned.skip, {}, {});
        return;
      }
      RestoredSelf(s);
      ok := ShowIndex(paths, tracked);
      if ok {
        FullyHidden(s, unpinned);
      } else {
        ghost var gone, back :| HideStopped(unpinned, disk, unpinned.skip, gone, back);
        assert HideStopped(s, disk, unpinned.skip, gone, back);
      }
    }

    /** Remove the overlays that are not tracked and check out the index entries that are. */
    method ShowIndex(paths: seq<Path>, tracked: set<Path>) returns (ok: bool)
      requires Valid() && ToSet(paths) == disk.overlay.Keys && tracked == Restored(disk) <= disk.index.Keys
      modifies this`mishaps, this`disk
      ensures Valid() && mishaps >= old(mishaps)
      ensures ok <==> mishaps == old(mishaps) && tracked !! old(disk).skip
      ensures ok ==> disk == CheckedOut(Removed(old(disk), old(disk).overlay.Keys - tracked), tracked)
      ensures !ok ==> exists gone, back :: HideStopped(old(disk), disk, old(disk).skip, gone, back)
    {
      ghost var s := disk;
      ok := RemoveFiles((set p | p in paths) - tracked);
      if !ok {
        ghost var gone :| gone <= s.overlay.Keys && disk == Removed(s, gone);
        NothingDone(disk);
        assert HideStopped(s, disk, s.skip, gone, {});
        return;
      }
      ghost var gone := s.overlay.Keys - tracked;
      assert disk == Removed(s, gone);
      if tracked == {} {
        NothingDone(disk);
        return;
      }
      ok := CheckoutPaths(tracked);
      if !ok {
        ghost var back :| back <= tracked && disk == CheckedOut(Removed(s, gone), back);
        assert HideStopped(s, disk, s.skip, gone, back);
      }
    }

    method Conceal() returns (ok: bool)
      requires Valid()
      modifies this`mishaps, this`disk, this`concealCount
      ensures Valid() && mishaps >= old(mishaps) && concealCount == old(concealCount) + 1
      ensures ok <==> mishaps == old(mishaps) && old(disk).installed && CanHide(old(disk))
      ensures ok ==> disk == Concealed(old(disk))
      ensures !ok ==> ConcealAborted(old(disk), disk)
    {
      ghost var s := disk;
      concealCount := concealCount + 1;
      var paths: seq<Path>;
      ok, paths := Capture();
      if !ok { return; }
      CaptureKeepsShape(s);
      ok := HideFromGit(paths);
      if !ok { HideAbortIsConcealAbort(s, disk); }
    }

    // ---- leases ----

    /** A lease is granted whenever nothing fails and git can hide the overlays. A conceal is begun
        for the first lease only, and a recovery reveal exactly when it fails. */
    method ConcealFor() returns (out: ConcealOutcome)
      requires Valid()
      modifies this`mishaps, this`disk, this`active, this`granted, this`concealCount, this`revealCount
      ensures Valid() && mishaps >= old(mishaps)
      ensures ConcealStep(old(disk), old(active), disk, active, out)
      ensures granted == old(granted) + if out.Leased? then 1 else 0
      ensures concealCount == old(concealCount) + if old(disk).installed && old(active) == 0 then 1 else 0
      ensures revealCount == old(revealCount) + if out.Refused? then 1 else 0
      ensures out.NoOverlay? <==> !old(disk).installed
      ensures out.Refused? ==> old(active) == 0 && (mishaps > old(mishaps) || !CanHide(old(disk)))
      ensures out.Leased? ==> mishaps == old(mishaps) && (old(active) == 0 ==> CanHide(old(disk)))
    {
      if !disk.installed { return NoOverlay; }
      if active == 0 {
        var concealed := Conceal();
        if !concealed {
          ghost var mid := disk;
          var restored := Reveal();
          return Refused(restored);
        }
      }
      active := active + 1;
      granted := granted + 1;
      out := Leased;
    }

    /** The last lease to come back reveals, and no other. */
    method RevealAfter() returns (ok: bool)
      requires Valid()
      modifies this`mishaps, this`disk, this`active, this`released, this`revealCount
      ensures Valid() && mishaps >= old(mishaps)
      ensures RevealStep(old(disk), old(active), disk, active, ok)
      ensures released == old(released) + 1
      ensures revealCount == old(revealCount) + if old(active) <= 1 then 1 else 0
      ensures ok <==> mishaps == old(mishaps) && (old(active) <= 1 ==> CanReveal(old(disk)))
    {
      released := released + 1;
      active := if active == 0 then 0 else active - 1;
      ok := true;
      if active == 0 {
        ok := Reveal();
      }
    }

    // ---- install and discard ----

    method Discard() returns (ok: bool)
      requires Valid()
      modifies this`mishaps, this`disk
      ensures Valid() && mishaps >= old(mishaps)
      ensures ok <==> mishaps == old(mishaps)
      ensures ok ==> disk == Discarded(old(disk))
      ensures !ok ==> PartlyDiscarded(old(disk), disk)
    {
      ok := Attempt();
      if ok {
        disk := disk.(installed := false, overlay := map[], pinned := None);
      } else {   // some of the state directory may be gone
        var gone: set<Path>, files: bool, list: bool := *, *, *;
        disk := disk.(installed := disk.installed && files,
                      overlay := if files then disk.overlay - gone else map[],
                      pinned := if list then disk.pinned else None);
      }
    }

    /** Copy the project's files into the empty overlay copy, in any order. */
    method Stash(local: map<Path, string>) returns (ok: bool)
      requires Valid() && present && disk.installed && disk.overlay == map[]
      modifies this`mishaps, this`disk
      ensures Valid() && mishaps >= old(mishaps)
      ensures ok <==> mishaps == old(mishaps)
      ensures ok ==> disk == old(disk).(overlay := local)
    {
      var rest := local.Keys;
      while rest != {}
        invariant Valid() && rest <= local.Keys && mishaps == old(mishaps)
        invariant disk == old(disk).(overlay := map p | p in local && p !in rest :: local[p])
        decreases rest
      {
        var p :| p in rest;
        ok := Attempt();
        if !ok { return; }
        disk := disk.(overlay := disk.overlay[p := local[p]]);
        rest := rest - {p};
      }
      assert (map p | p in local && p !in rest :: local[p]) == local;
      ok := true;
    }

    /** Install the project's `local/` files, if it has any, and reveal them. */
    method Apply(local: Option<map<Path, string>>) returns (ok: bool)
      requires Valid()
      modifies this`mishaps, this`disk, this`present, this`revealCount
      ensures Valid() && mishaps >= old(mishaps) && (old(present) ==> present)
      ensures ok <==> mishaps == old(mishaps) && (local.Some? ==> CanReveal(Installed(old(disk), local.value)))
      ensures ok ==> disk == Applied(old(disk), local)
    {
      ok := Discard();
      if !ok || local.None? { return; }
      ok := Attempt();
      if !ok { return; }
      present, disk := true, disk.(installed := true);
      ok := Stash(local.value);
      if !ok { return; }
      ok := Reveal();
    }
  }

  // ---- the functions and frame facts the methods are stated with ----

  ghost function LatestContent(s: SlotState, p: Path): string
    requires p in s.overlay
  {
    if IsFile(s.worktree, p) then s.worktree[p].content else s.overlay[p]
  }

  predicate IsLink(worktree: map<Path, Entry>, p: Path) {
    p in worktree && worktree[p].Symlink?
  }

  /** The overlay at `p` takes the place of a link to `q`. */
  ghost predicate ReplacesLinkTo(s: SlotState, p: Path, q: Path) {
    IsLink(s.worktree, p) && PointsTo(s.root, p, s.worktree[p].target, q)
  }

  lemma LinkTargetMeans(s: SlotState, p: Path)
    ensures forall q :: q in LinkTargets(s, {p}) <==> ReplacesLinkTo(s, p, q)
  {
    if IsLink(s.worktree, p) {
      forall q ensures q in LinkTargets(s, {p}) <==> ReplacesLinkTo(s, p, q) {
        LinkedPathMeans(s.root, p, s.worktree[p].target, q);
      }
    }
  }

  function Missing(root: string): SlotState {
    SlotState(root, false, map[], {}, map[], false, map[], None)
  }

  function Cloned(root: string, remote: map<Path, Entry>): SlotState {
    SlotState(root, true, remote, {}, remote, false, map[], None)
  }

  function CheckedOut(s: SlotState, paths: set<Path>): SlotState {
    s.(worktree := s.worktree + (map p | p in paths && p in s.index :: s.index[p]))
  }

  ghost function Removed(s: SlotState, paths: set<Path>): SlotState {
    s.(worktree := s.worktree - paths)
  }

  ghost function Discarded(s: SlotState): SlotState {
    s.(installed := false, overlay := map[], pinned := None)
  }

  /** What a failing removal of the overlay state may leave. */
  ghost predicate PartlyDiscarded(s: SlotState, s': SlotState) {
    && s' == s.(installed := s'.installed, overlay := s'.overlay, pinned := s'.pinned)
    && (s'.installed ==> s.installed) && s'.pinned in {s.pinned, None}
    && forall p | p in s'.overlay :: p in s.overlay && s'.overlay[p] == s.overlay[p]
  }

  ghost function Installed(s: SlotState, local: map<Path, string>): SlotState {
    Discarded(s).(installed := true, overlay := local)
  }

  /** The slot after a successful `apply`. */
  ghost function Applied(s: SlotState, local: Option<map<Path, string>>): SlotState {
    if local.None? then Discarded(s)
    else Revealed(Installed(s, local.value))
  }

  /** What a conceal that captured everything may leave when it fails afterwards: some bits
      cleared or none, some files removed, some restored. */
  ghost predicate HideAborted(s: SlotState, s': SlotState) {
    exists skip, gone, back :: HideStopped(s, s', skip, gone, back)
  }

  ghost predicate HideStopped(s: SlotState, s': SlotState, skip: set<Path>, gone: set<Path>, back: set<Path>) {
    && skip in {s.skip, s.skip - PinnedSet(s)}
    && gone <= s.overlay.Keys && back <= Restored(s)
    && s' == CheckedOut(Removed(s.(skip := skip), gone), back)
  }

  lemma FullyHidden(s: SlotState, unpinned: SlotState)
    requires unpinned == s.(skip := s.skip - PinnedSet(s))
    ensures CheckedOut(Removed(unpinned, s.overlay.Keys - Restored(s)), Restored(s)) ==
      s.(skip := s.skip - PinnedSet(s), worktree := ConcealedTree(s))
  {
    assert (map p | p in Restored(s) && p in s.index :: s.index[p]) == (map p | p in Restored(s) :: s.index[p]);
  }

  lemma NothingDone(s: SlotState)
    ensures CheckedOut(Removed(s, {}), {}) == CheckedOut(s, {}) == Removed(s, {}) == s
  {
    assert Removed(s, {}).worktree == s.worktree;
    assert CheckedOut(s, {}).worktree == s.worktree;
  }

  lemma RemovedOneMore(s: SlotState, gone: set<Path>, p: Path)
    ensures Removed(s, gone + {p}) == Removed(Removed(s, gone), {p})
    ensures p !in Removed(s, gone).worktree ==> Removed(s, gone + {p}) == Removed(s, gone)
  {
    assert s.worktree - (gone + {p}) == (s.worktree - gone) - {p};
    if p !in s.worktree - gone { assert (s.worktree - gone) - {p} == s.worktree - gone; }
  }

  lemma PlacedOneMore(s: SlotState, done: set<Path>, p: Path, v: SlotState)
    requires p in s.overlay && p !in done && done <= s.overlay.Keys
    requires v == s.(worktree := WithOverlays(s, done))
    ensures v.worktree[p := File(s.overlay[p])] == WithOverlays(s, done + {p})
    ensures LinkTargets(s, done) + LinkTargets(v, {p}) == LinkTargets(s, done + {p})
  {
    assert SameAt(s.worktree, v.worktree, p);
    assert LinkTargets(v, {p}) == LinkTargets(s, {p});
    assert LinkTargets(s, done + {p}) == LinkTargets(s, done) + LinkTargets(s, {p});
  }

  lemma PartlyPlaced(s: SlotState, done: set<Path>, p: Path, s': SlotState)
    requires p in s.overlay && p !in done
    requires var v := WithOverlays(s, done);
      s' == s.(worktree := v) || (IsLink(v, p) && s' == s.(worktree := v - {p}))
    ensures RevealAborted(s, s')
  {
    assert SameAt(s.worktree, WithOverlays(s, done), p);
  }

  lemma AllPlaced(s: SlotState, skip: set<Path>)
    requires skip in {s.skip, s.skip + Pins(s)}
    ensures RevealAborted(s, s.(worktree := WithOverlays(s, s.overlay.Keys), skip := skip))
  {
  }

  lemma CapturedOneMore(s: SlotState, done: set<Path>, p: Path)
    requires p in s.overlay && p !in done
    ensures CapturedIn(s, done + {p}) ==
      CapturedIn(s, done)[p := LatestContent(s.(overlay := CapturedIn(s, done)), p)]
  {
  }

  lemma FilterKeepsIndexed(index: map<Path, Entry>, placed: set<Path>)
    ensures placed * Listed(index, placed) == placed * index.Keys
  {
    forall p | p in placed && p in index ensures p in Listed(index, placed) { assert Matches(p, p); }
  }

  /** Capturing changes contents only, so the rest of a conceal does the same before and after. */
  lemma CaptureKeepsShape(s: SlotState)
    ensures var c := s.(overlay := Captured(s));
      c.overlay.Keys == s.overlay.Keys && Restored(c) == Restored(s) && PinnedSet(c) == PinnedSet(s)
  {
  }

  lemma HideAbortIsConcealAbort(s: SlotState, s': SlotState)
    requires HideAborted(s.(overlay := Captured(s)), s')
    ensures ConcealAborted(s, s')
  {
    CaptureKeepsShape(s);
    var skip, gone, back :| HideStopped(s.(overlay := Captured(s)), s', skip, gone, back);
    assert AbortedLater(s, s');
  }
}

/** Bringing a slot back to a known state on the host: reset, re-clone, recycle, clean. */
module PoolHandler {
  import opened PinnedFile
  import opened Overlay
  import opened OverlayManager

  type Tree = map<Path, Entry>

  /** `checkout -f` and `reset --hard`: the index becomes `tree`, files tracked before or after
      follow it, untracked files stay. */
  function Switched(s: SlotState, tree: Tree): SlotState {
    s.(index := tree, worktree := (s.worktree - s.index.Keys) + tree)
  }

  /** `clean -fdx`: only tracked files stay. */
  function Cleaned(s: SlotState): SlotState {
    s.(worktree := s.worktree - (s.worktree.Keys - s.index.Keys))
  }

  predicate ValidTree(tree: Tree) {
    forall p | p in tree :: Nameable(p)
  }

  /** Clear every skip-worktree bit. */
  method ClearSkips(slot: Slot) returns (ok: bool)
    requires slot.Valid() && slot.present
    modifies slot`mishaps, slot`disk
    ensures slot.Valid() && slot.mishaps >= old(slot.mishaps) && slot.disk.root == old(slot.disk).root
    ensures ok <==> slot.mishaps == old(slot.mishaps) && old(slot.disk).isRepo
    ensures ok ==> slot.disk == old(slot.disk).(skip := {})
  {
    ok := slot.Attempt();
    if !ok || !slot.disk.isRepo { return false; }
    var skipped := slot.disk.skip;
    if skipped != {} {
      ok := slot.Attempt();
      if !ok { return; }
      slot.disk := slot.disk.(skip := slot.disk.skip - skipped);
    }
    assert slot.disk.skip == {};
  }

  /** Fetch, check out the local branch, reset it to the remote, clean. */
  method RestoreTree(slot: Slot, master: Tree, remote: Tree) returns (ok: bool)
    requires slot.Valid() && slot.present && slot.disk.isRepo && slot.disk.skip == {}
    requires ValidTree(master) && ValidTree(remote)
    modifies slot`mishaps, slot`disk
    ensures slot.Valid() && slot.mishaps >= old(slot.mishaps) && slot.disk.root == old(slot.disk).root
    ensures ok <==> slot.mishaps == old(slot.mishaps)
    ensures ok ==> slot.disk == old(slot.disk).(index := remote, worktree := remote)
  {
    ghost var s := slot.disk;
    SwitchedTwice(s, master, remote);
    ok := slot.Attempt();   // fetch
    if !ok { return; }
    ok := slot.Attempt();   // checkout -f master
    if !ok { return; }
    slot.disk := Switched(slot.disk, master);
    ok := slot.Attempt();   // reset --hard origin/master
    if !ok { return; }
    slot.disk := Switched(slot.disk, remote);
    ok := slot.Attempt();   // clean -fdx
    if !ok { return; }
    slot.disk := Cleaned(slot.disk);
    ok := slot.Attempt();   // submodules
  }

  lemma SwitchedTwice(s: SlotState, master: Tree, remote: Tree)
    requires WellFormed(s) && s.isRepo && s.skip == {} && ValidTree(master) && ValidTree(remote)
    ensures WellFormed(Switched(s, master)) && WellFormed(Switched(Switched(s, master), remote))
    ensures Cleaned(Switched(Switched(s, master), remote)) == s.(index := remote, worktree := remote)
  {
    CleanIsTree(Switched(Switched(s, master), remote));
  }

  /** Reset an existing slot to `remote`. `master` is whatever the local branch holds. Every step
      can fail, leaving the earlier ones done. */
  method ResetSlot(slot: Slot, master: Tree, remote: Tree) returns (ok: bool)
    requires slot.Valid() && slot.present && ValidTree(master) && ValidTree(remote)
    modifies slot`mishaps, slot`disk
    ensures slot.Valid() && slot.disk.root == old(slot.disk).root && slot.mishaps >= old(slot.mishaps)
    ensures ok <==> slot.mishaps == old(slot.mishaps) && old(slot.disk).isRepo
    ensures ok ==> slot.disk == Cloned(old(slot.disk).root, remote)
  {
    ok := ClearSkips(slot);
    if !ok { return; }
    ok := slot.Discard();
    if !ok { return; }
    ok := RestoreTree(slot, master, remote);
  }

  /** A switch makes every path tracked before or after what `tree` says, and touches no other. */
  lemma SwitchMeans(s: SlotState, tree: Tree, p: Path)
    ensures var w := Switched(s, tree).worktree;
      if p in s.index || p in tree then SameAt(tree, w, p) else SameAt(s.worktree, w, p)
  {
  }

  lemma CleanIsTree(s: SlotState)
    requires forall p | p in s.index :: p in s.worktree && s.worktree[p] == s.index[p]
    ensures Cleaned(s).worktree == s.index
  {
    SameEverywhere(Cleaned(s).worktree, s.index);
  }

  /** `remove_dir_all`: a missing directory counts as removed, a failing removal may have deleted
      some of the files, `.git` included. */
  method RemoveSlot(slot: Slot) returns (ok: bool)
    requires slot.Valid()
    modifies slot`mishaps, slot`disk, slot`present
    ensures slot.Valid() && slot.disk.root == old(slot.disk).root && slot.mishaps >= old(slot.mishaps)
    ensures ok <==> slot.mishaps == old(slot.mishaps) || !old(slot.present)
    ensures ok ==> !slot.present
    ensures !ok ==> slot.present
    ensures !ok ==> forall p | p in slot.disk.worktree :: SameAt(old(slot.disk).worktree, slot.disk.worktree, p)
  {
    ok := slot.Attempt();
    if ok || !slot.present {
      slot.present, slot.disk := false, Missing(slot.disk.root);
      return true;
    }
    var gone: set<Path>, git: bool := *, *;
    var left := slot.disk.worktree - gone;
    slot.disk := if git then slot.disk.(worktree := left)
                 else Missing(slot.disk.root).(worktree := left);
  }

  /** Remove the directory, in at most three attempts, and clone into place. */
  method RecloneSlot(slot: Slot, remote: Tree) returns (ok: bool, attempts: nat)
    requires slot.Valid() && ValidTree(remote)
    modifies slot`mishaps, slot`disk, slot`present
    ensures slot.Valid() && slot.disk.root == old(slot.disk).root && slot.mishaps >= old(slot.mishaps)
    ensures ok ==> slot.present && slot.disk == Cloned(old(slot.disk).root, remote)
    ensures !ok ==> slot.mishaps > old(slot.mishaps)
    ensures slot.mishaps == old(slot.mishaps) || !old(slot.present) ==> attempts == 1
    ensures 1 <= attempts <= 3
    ensures attempts < 3 ==> !slot.present || slot.disk == Cloned(old(slot.disk).root, remote)
  {
    var root, removed := slot.disk.root, false;
    attempts := 0;
    while !removed && attempts < 3
      invariant slot.Valid() && slot.disk.root == root && attempts <= 3
      invariant slot.mishaps >= old(slot.mishaps) && (!removed && attempts > 0 ==> slot.mishaps > old(slot.mishaps))
      invariant attempts > 1 ==> slot.mishaps > old(slot.mishaps)
      invariant removed ==> !slot.present && attempts > 0
      invariant !old(slot.present) ==> !slot.present && (attempts == 0 || (removed && attempts == 1))
    {
      removed := RemoveSlot(slot);
      attempts := attempts + 1;
    }
    if !removed { return false, attempts; }
    ok := slot.Attempt();
    if !ok { return; }
    slot.present, slot.disk := true, Cloned(root, remote);
    ok := slot.Attempt();   // submodules
  }

  datatype Recycling = Recycled | NotCloned | NotOverlaid

  /** The project's files can be revealed over the remote tree. */
  ghost predicate CanBeOverlaid(root: string, remote: Tree, local: Option<map<Path, string>>) {
    local.Some? ==> CanReveal(Installed(Cloned(root, remote), local.value))
  }

  /** Reset the slot, or re-clone it when it is missing or the reset fails, then install the
      project's local files. A failing reset alone does no harm: giving up on the clone takes a
      failure of the re-clone as well. */
  method Recycle(slot: Slot, master: Tree, remote: Tree, local: Option<map<Path, string>>) returns (r: Recycling)
    requires slot.Valid() && ValidTree(master) && ValidTree(remote)
    modifies slot`mishaps, slot`disk, slot`present, slot`revealCount
    ensures slot.Valid() && slot.mishaps >= old(slot.mishaps)
    ensures r.Recycled? ==> CanBeOverlaid(old(slot.disk).root, remote, local)
    ensures r.Recycled? ==> slot.present && slot.disk == Applied(Cloned(old(slot.disk).root, remote), local)
    ensures r.NotCloned? ==>
      slot.mishaps - old(slot.mishaps) >= if old(slot.present) && old(slot.disk).isRepo then 2 else 1
    ensures r.NotOverlaid? ==>
      slot.mishaps > old(slot.mishaps) || !CanBeOverlaid(old(slot.disk).root, remote, local)
  {
    var ok := false;
    if slot.present { ok := ResetSlot(slot, master, remote); }
    if !ok {
      var attempts;
      ok, attempts := RecloneSlot(slot, remote);
    }
    if !ok { return NotCloned; }
    ok := slot.Apply(local);
    r := if ok then Recycled else NotOverlaid;
  }

  method CleanSlot(slot: Slot, master: Tree, remote: Tree) returns (ok: bool)
    requires slot.Valid() && ValidTree(master) && ValidTree(remote)
    modifies slot`mishaps, slot`disk
    ensures slot.Valid() && slot.mishaps >= old(slot.mishaps)
    ensures ok <==> slot.mishaps == old(slot.mishaps) && old(slot.present) && old(slot.disk).isRepo
    ensures ok ==> slot.disk == Cloned(old(slot.disk).root, remote)
    ensures !old(slot.present) ==> slot.disk == old(slot.disk)
  {
    if !slot.present { return false; }
    ok := ResetSlot(slot, master, remote);
  }

  /** `p` is what some remote symlink replaced by a local file points to. */
  ghost predicate ReplacedLinkTarget(root: string, remote: Tree, local: map<Path, string>, p: Path) {
    exists q :: q in local && IsLink(remote, q) && PointsTo(root, q, remote[q].target, p)
  }

  /** What a successful recycle means, path by path, whatever the slot held before. */
  lemma RecycledSlot(root: string, remote: Tree, local: map<Path, string>)
    ensures var s := Applied(Cloned(root, remote), Some(local));
      && s.index == remote && s.overlay == local && s.installed
      && s.worktree == remote + (map p | p in local :: File(local[p]))
      && (forall p :: p in s.skip <==> p in remote && (p in local || ReplacedLinkTarget(root, remote, local, p)))
  {
    var base := Cloned(root, remote).(installed := true, overlay := local);
    var s := Applied(Cloned(root, remote), Some(local));
    assert s == Revealed(base);
    assert (map p | p in local && p in local.Keys :: File(local[p])) == (map p | p in local :: File(local[p]));
    forall p ensures p in LinkTargets(base, local.Keys) <==> ReplacedLinkTarget(root, remote, local, p) {
      forall q | q in local && IsLink(remote, q) ensures
        LinkedPath(root, q, remote[q].target) == Some(p) <==> PointsTo(root, q, remote[q].target, p)
      {
        LinkedPathMeans(root, q, remote[q].target, p);
      }
    }
  }

  /** The first bracket after a recycle cannot be refused by git and shows git the plain remote
      tree with no skip bit, as if no local file had ever been installed. */
  lemma RecycledThenConcealed(root: string, remote: Tree, local: map<Path, string>)
    requires ValidTree(remote)
    ensures var s := Applied(Cloned(root, remote), Some(local));
      GitAllowsConceal(s) &&
      Concealed(s).(pinned := None) == Cloned(root, remote).(installed := true, overlay := local)
  {
    HiddenSlotIsStable(Cloned(root, remote).(installed := true, overlay := local));
  }
}

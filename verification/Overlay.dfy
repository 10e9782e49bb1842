/** One pool slot seen by the overlay manager: a git index with skip-worktree bits, a working
    tree, and the overlay state kept under `.git/ur-overlay`. The functions say what a completed
    conceal or reveal does to the whole slot, the predicates what an aborted one may leave. */
module Overlay {
  import opened PinnedFile

  type Path = string

  datatype Option<+T> = None | Some(value: T)

  datatype Entry = File(content: string) | Symlink(target: string)

  datatype SlotState = SlotState(
    root: string,             // host path of the slot
    isRepo: bool,             // `.git/HEAD` exists
    index: map<Path, Entry>,
    skip: set<Path>,          // index entries carrying the skip-worktree bit
    worktree: map<Path, Entry>,
    installed: bool,          // `.git/ur-overlay/files` is a directory
    overlay: map<Path, string>,
    pinned: Option<string>)   // content of `.git/ur-overlay/pinned`

  ghost predicate WellFormed(s: SlotState) {
    && s.skip <= s.index.Keys
    && (!s.isRepo ==> s.index == map[])
    && (!s.installed ==> s.overlay == map[])
    && forall p | p in s.index :: Nameable(p)
  }

  // ---- git pathspecs and symlink targets ----

  /** A literal pathspec lists the path itself and everything below it. */
  predicate Matches(spec: Path, p: Path) {
    p == spec || spec + "/" <= p
  }

  ghost function Listed(index: map<Path, Entry>, specs: set<Path>): set<Path> {
    set p | p in index && exists spec :: spec in specs && Matches(spec, p)
  }

  /** The directory part of a relative path, with its trailing slash. */
  function Parent(p: Path): string {
    if p == "" then "" else if p[|p| - 1] == '/' then p else Parent(p[..|p| - 1])
  }

  /** The slot-relative name of what the link at `p` points to, if that lies in the slot. */
  function LinkedPath(root: string, p: Path, target: string): Option<Path> {
    var abs := if target != "" && target[0] == '/' then target else root + "/" + Parent(p) + target;
    if abs == root then Some("")
    else if root + "/" <= abs then Some(abs[|root| + 1..])
    else None
  }

  /** What a link means: a relative target is read from the directory of the link, an absolute one
      names a path of the slot when it is the slot or below it. */
  ghost predicate PointsTo(root: string, p: Path, target: string, q: Path) {
    if target != "" && target[0] == '/' then (target == root && q == "") || target == root + "/" + q
    else exists dir, name :: InDirectory(p, dir, name) && q == dir + target
  }

  /** `p` is `name` in the directory `dir`, which is empty or written with its slash. */
  predicate InDirectory(p: Path, dir: string, name: string) {
    p == dir + name && (dir == "" || dir[|dir| - 1] == '/') && '/' !in name
  }

  lemma {:induction false} ParentSplits(p: Path) returns (name: string)
    ensures InDirectory(p, Parent(p), name)
  {
    if p == "" || p[|p| - 1] == '/' {
      name := "";
    } else {
      var front := ParentSplits(p[..|p| - 1]);
      name := front + [p[|p| - 1]];
      assert p == p[..|p| - 1] + [p[|p| - 1]];
    }
  }

  lemma {:induction false} ParentUnique(p: Path, dir: string, name: string)
    requires InDirectory(p, dir, name)
    ensures Parent(p) == dir
    decreases |name|
  {
    if name == "" {
      assert p == dir;
    } else {
      var n := |name| - 1;
      assert p[|p| - 1] == name[n] && name[n] in name;
      assert p[..|p| - 1] == dir + name[..n];
      ParentUnique(p[..|p| - 1], dir, name[..n]);
    }
  }

  lemma StripBelow(base: string, rest: string)
    ensures base <= base + rest && (base + rest)[|base|..] == rest
  {
  }

  lemma RelativeLink(root: string, p: Path, target: string, dir: string, name: string)
    requires (target == "" || target[0] != '/') && InDirectory(p, dir, name)
    ensures LinkedPath(root, p, target) == Some(dir + target)
  {
    ParentUnique(p, dir, name);
    var base := root + "/";
    StripBelow(base, dir + target);
    assert base + dir + target == base + (dir + target);
  }

  lemma AbsoluteLink(root: string, p: Path, target: string, q: Path)
    requires target != "" && target[0] == '/'
    ensures LinkedPath(root, p, target) == Some(q) <==> (target == root && q == "") || target == root + "/" + q
  {
    var base := root + "/";
    StripBelow(base, q);
    if base <= target { assert target == base + target[|base|..]; }
  }

  /** The recorded name is the one the link means, and a link out of the slot records none. */
  lemma LinkedPathMeans(root: string, p: Path, target: string, q: Path)
    ensures LinkedPath(root, p, target) == Some(q) <==> PointsTo(root, p, target, q)
  {
    if target != "" && target[0] == '/' {
      AbsoluteLink(root, p, target, q);
    } else {
      var name := ParentSplits(p);
      forall d, n | InDirectory(p, d, n) ensures LinkedPath(root, p, target) == Some(d + target) {
        RelativeLink(root, p, target, d, n);
      }
    }
  }

  // ---- reveal ----

  /** The names recorded for the overlay files `done` that replace a symlink. */
  ghost function LinkTargets(s: SlotState, done: set<Path>): set<Path> {
    set p | p in done && p in s.worktree && s.worktree[p].Symlink? &&
            LinkedPath(s.root, p, s.worktree[p].target).Some? :: LinkedPath(s.root, p, s.worktree[p].target).value
  }

  ghost function Placed(s: SlotState): set<Path> {
    s.overlay.Keys + LinkTargets(s, s.overlay.Keys)
  }

  /** The paths a reveal pins: every placed or link-target path that is an index entry. */
  ghost function Pins(s: SlotState): set<Path> {
    Placed(s) * s.index.Keys
  }

  ghost function WithOverlays(s: SlotState, done: set<Path>): map<Path, Entry> {
    s.worktree + (map p | p in s.overlay && p in done :: File(s.overlay[p]))
  }

  ghost function Revealed(s: SlotState): SlotState {
    s.(worktree := WithOverlays(s, s.overlay.Keys),
       skip := s.skip + Pins(s),
       pinned := Some(JoinNul(Sorted(Pins(s)))))
  }

  /** What a failing reveal may leave behind. */
  ghost predicate RevealAborted(s: SlotState, s': SlotState) {
    && s' == s.(worktree := s'.worktree, skip := s'.skip)
    && s'.skip in {s.skip, s.skip + Pins(s)}
    && forall p ::
      || SameAt(s.worktree, s'.worktree, p)
      || (p in s.overlay && p in s'.worktree && s'.worktree[p] == File(s.overlay[p]))
      || (p in s.overlay && p !in s'.worktree && s.worktree[p].Symlink?)
  }

  predicate SameAt(a: map<Path, Entry>, b: map<Path, Entry>, p: Path) {
    if p in a then p in b && a[p] == b[p] else p !in b
  }

  // ---- conceal ----

  predicate IsFile(worktree: map<Path, Entry>, p: Path) {
    p in worktree && worktree[p].File?
  }

  /** The overlay copy once the worker's versions of the files in `done` are captured. */
  ghost function CapturedIn(s: SlotState, done: set<Path>): map<Path, string> {
    map p | p in s.overlay :: if p in done && IsFile(s.worktree, p) then s.worktree[p].content else s.overlay[p]
  }

  ghost function Captured(s: SlotState): map<Path, string> {
    CapturedIn(s, s.overlay.Keys)
  }

  ghost function PinnedSet(s: SlotState): set<Path> {
    if s.pinned.None? then {} else ToSet(ParsePinned(s.pinned.value))
  }

  /** The index entries `git checkout --` restores during a conceal. */
  ghost function Restored(s: SlotState): set<Path> {
    Listed(s.index, s.overlay.Keys)
  }

  /** git refuses to unpin a path missing from the index and to check out a skipped one. */
  ghost predicate GitAllowsConceal(s: SlotState) {
    PinnedSet(s) <= s.index.Keys && Restored(s) !! (s.skip - PinnedSet(s))
  }

  ghost function ConcealedTree(s: SlotState): map<Path, Entry> {
    (s.worktree - (s.overlay.Keys - Restored(s))) + (map p | p in Restored(s) :: s.index[p])
  }

  ghost function Concealed(s: SlotState): SlotState {
    s.(overlay := Captured(s), skip := s.skip - PinnedSet(s), worktree := ConcealedTree(s))
  }

  /** A conceal that failed while listing or capturing: only the files in `done` are captured. */
  ghost predicate AbortedInCapture(s: SlotState, s': SlotState, done: set<Path>) {
    done <= s.overlay.Keys && s' == s.(overlay := CapturedIn(s, done))
  }

  /** A conceal that failed after its capture loop. */
  ghost predicate AbortedLater(s: SlotState, s': SlotState) {
    && s' == s.(overlay := Captured(s), worktree := s'.worktree, skip := s'.skip)
    && s'.skip in {s.skip, s.skip - PinnedSet(s)}
    && forall p ::
      || SameAt(s.worktree, s'.worktree, p)
      || (p in Restored(s) && p in s'.worktree && s'.worktree[p] == s.index[p])
      || (p in s.overlay && p !in s'.worktree)
  }

  ghost predicate ConcealAborted(s: SlotState, s': SlotState) {
    AbortedLater(s, s') || exists done :: AbortedInCapture(s, s', done)
  }

  /** Every path a conceal hides shows its index entry, or is absent when untracked. */
  ghost predicate HiddenTree(s: SlotState) {
    && (forall p | p in Restored(s) :: p in s.worktree && s.worktree[p] == s.index[p])
    && (forall p | p in s.overlay && p !in s.index :: p !in s.worktree)
  }

  /** What git must see while a bracketed command runs. */
  ghost predicate Hidden(s: SlotState) {
    HiddenTree(s) && s.overlay.Keys !! s.skip
  }

  /** No overlay file sits where the index has a directory. */
  ghost predicate NoCollision(s: SlotState) {
    forall p, q | p in s.overlay && q in s.index && Matches(p, q) :: p == q
  }

  // ---- laws ----

  lemma RestoredSelf(s: SlotState)
    ensures s.overlay.Keys * s.index.Keys <= Restored(s) <= s.index.Keys
    ensures NoCollision(s) ==> Restored(s) == s.overlay.Keys * s.index.Keys
  {
    forall p | p in s.overlay && p in s.index ensures p in Restored(s) { assert Matches(p, p); }
  }

  /** A conceal restores the index entries at overlay paths and below them. */
  lemma RestoredMeans(s: SlotState, p: Path)
    ensures p in Restored(s) <==> p in s.index && exists q :: q in s.overlay && (p == q || q + "/" <= p)
  {
    if p in Restored(s) {
      var q :| q in s.overlay.Keys && Matches(q, p);
      assert q in s.overlay;
    }
    if q :| q in s.overlay && (p == q || q + "/" <= p) {
      assert q in s.overlay.Keys && Matches(q, p);
    }
  }

  lemma KeptWellFormed(s: SlotState)
    requires WellFormed(s)
    ensures WellFormed(Revealed(s)) && WellFormed(Concealed(s))
  {
  }

  /** The pinned file a reveal writes reads back as exactly the pins. */
  lemma PinnedReadsBack(s: SlotState)
    requires WellFormed(s)
    ensures PinnedSet(Revealed(s)) == Pins(s)
  {
    var q := Sorted(Pins(s));
    forall i | 0 <= i < |q| ensures Nameable(q[i]) { assert q[i] in ToSet(q); }
    PinnedRoundTrip(q);
  }

  /** A successful conceal hides everything, whatever state the slot was in. */
  lemma ConcealHides(s: SlotState)
    requires WellFormed(s) && GitAllowsConceal(s)
    ensures Hidden(Concealed(s))
    ensures Concealed(s).overlay.Keys == s.overlay.Keys
    ensures NoCollision(s) ==> forall p | p !in s.overlay :: SameAt(s.worktree, Concealed(s).worktree, p)
  {
    var c := Concealed(s);
    assert c.overlay.Keys == s.overlay.Keys;
    assert Restored(c) == Restored(s);
    RestoredSelf(s);
  }

  /** Conceal, then any transition that leaves the overlay state alone, then reveal: regular
      overlay files have their pre-conceal content, the others the last stashed one, and every
      other path is what the command left. */
  lemma BracketRoundTrip(s: SlotState, after: SlotState)
    requires after.overlay == Concealed(s).overlay
    ensures forall p | p in s.overlay ::
      p in Revealed(after).worktree && Revealed(after).worktree[p] ==
      File(if IsFile(s.worktree, p) then s.worktree[p].content else s.overlay[p])
    ensures forall p | p !in s.overlay :: SameAt(after.worktree, Revealed(after).worktree, p)
    ensures Revealed(after).index == after.index && Revealed(after).overlay == Captured(s)
  {
    var c := Captured(s);
    assert c.Keys == s.overlay.Keys;
  }

  /** Reveal then conceal gives back worktree, index, skip bits and overlay copy exactly when the
      slot was hidden and no path about to be pinned already carried a skip bit. No assumption on
      collisions or on replaced symlinks is needed. */
  lemma RevealThenConceal(s: SlotState)
    requires WellFormed(s)
    ensures GitAllowsConceal(Revealed(s)) <==> s.skip * (Restored(s) - Pins(s)) == {}
    ensures Concealed(Revealed(s)).(pinned := s.pinned) == s <==> HiddenTree(s) && s.skip !! Pins(s)
  {
    var r := Revealed(s);
    PinnedReadsBack(s);
    RestoredSelf(s);
    assert Restored(r) == Restored(s);
    assert Captured(r) == s.overlay;
    var c := Concealed(r);
    assert c.skip == s.skip - Pins(s);
    RevealThenConcealTree(s);
  }

  lemma SameEverywhere(a: map<Path, Entry>, b: map<Path, Entry>)
    ensures a == b <==> forall p :: SameAt(a, b, p)
  {
    if forall p :: SameAt(a, b, p) {
      forall p ensures p in a <==> p in b { assert SameAt(a, b, p); }
      forall p | p in a ensures a[p] == b[p] { assert SameAt(a, b, p); }
      assert a == b;
    }
  }

  lemma RevealThenConcealAt(s: SlotState, p: Path)
    ensures SameAt(ConcealedTree(Revealed(s)), s.worktree, p) <==>
      if p in Restored(s) then p in s.worktree && s.worktree[p] == s.index[p] else p in s.overlay ==> p !in s.worktree
  {
    assert Restored(Revealed(s)) == Restored(s);
  }

  lemma RevealThenConcealTree(s: SlotState)
    ensures ConcealedTree(Revealed(s)) == s.worktree <==> HiddenTree(s)
  {
    RestoredSelf(s);
    SameEverywhere(ConcealedTree(Revealed(s)), s.worktree);
    forall p ensures SameAt(ConcealedTree(Revealed(s)), s.worktree, p) <==>
      if p in Restored(s) then p in s.worktree && s.worktree[p] == s.index[p] else p in s.overlay ==> p !in s.worktree
    {
      RevealThenConcealAt(s, p);
    }
  }

  /** From a slot hidden by a successful conceal with no skip bit left, the next bracket cannot
      be refused by git and ends where it began. */
  lemma HiddenSlotIsStable(s: SlotState)
    requires WellFormed(s) && HiddenTree(s) && s.skip == {}
    ensures GitAllowsConceal(Revealed(s))
    ensures Concealed(Revealed(s)).(pinned := s.pinned) == s
  {
    RevealThenConceal(s);
  }

  /** A conceal that fails after its capture loop loses nothing once the recovery reveal succeeds. */
  lemma RecoveryAfterCapture(s: SlotState, s': SlotState)
    requires AbortedLater(s, s')
    ensures forall p | p in s.overlay ::
      p in Revealed(s').worktree && Revealed(s').worktree[p] ==
      File(if IsFile(s.worktree, p) then s.worktree[p].content else s.overlay[p])
    ensures forall p | p !in s.overlay && p !in Restored(s) :: SameAt(s.worktree, Revealed(s').worktree, p)
  {
    assert s'.overlay == Captured(s);
    assert s'.overlay.Keys == s.overlay.Keys;
  }

  /** A conceal that fails inside its capture loop keeps every overlay path present, but after
      recovery a regular file has its pre-conceal content exactly when it had been reached or
      equals the last stashed copy. */
  lemma RecoveryDuringCapture(s: SlotState, s': SlotState, done: set<Path>)
    requires AbortedInCapture(s, s', done)
    ensures forall p | p in s.overlay ::
      p in Revealed(s').worktree && Revealed(s').worktree[p] ==
      File(if p in done && IsFile(s.worktree, p) then s.worktree[p].content else s.overlay[p])
    ensures forall p | p in s.overlay && IsFile(s.worktree, p) ::
      Revealed(s').worktree[p] == s.worktree[p] <==> p in done || s.worktree[p].content == s.overlay[p]
    ensures forall p | p !in s.overlay :: SameAt(s.worktree, Revealed(s').worktree, p)
  {
    assert s'.overlay.Keys == s.overlay.Keys;
  }

  /** So a worker edit can be lost: a slot, an edit and an aborted capture that drops it. */
  lemma EditLostWhenCaptureAborts()
    returns (s: SlotState, s': SlotState)
    ensures WellFormed(s) && AbortedInCapture(s, s', {})
    ensures "a" in s.worktree && s.worktree["a"] == File("edited")
    ensures "a" in Revealed(s').worktree && Revealed(s').worktree["a"] == File("stashed")
  {
    var base := SlotState("/slot", true, map[], {}, map[], true, map["a" := "stashed"], None);
    s := Revealed(base).(worktree := map["a" := File("edited")]);
    s' := s;
    assert CapturedIn(s, {}) == s.overlay;
    RecoveryDuringCapture(s, s', {});
  }
}

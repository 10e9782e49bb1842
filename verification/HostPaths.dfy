/** A container working directory is turned into a `%WORKSPACE%` template by the server and
    expanded by builderd in another process. Both halves are string operations. */
module HostPaths {
  import opened Overlay

  const TEMPLATE: string := "%WORKSPACE%"
  const MOUNT: string := "/workspace"

  datatype Mapped = Dir(path: string) | InvalidWorkingDir

  // ---- the server's half ----

  function StripPrefix(s: string, prefix: string): (r: Option<string>)
    ensures r.Some? <==> prefix <= s
    ensures r.Some? ==> s == prefix + r.value
  {
    if prefix <= s then Some(s[|prefix|..]) else None
  }

  /** `trim_start_matches('/')` */
  function TrimSlashes(s: string): (r: string)
    ensures r == "" || r[0] != '/'
    ensures |r| <= |s| && s[|s| - |r|..] == r
  {
    if s != "" && s[0] == '/' then TrimSlashes(s[1..]) else s
  }

  /** The part of an accepted container directory after the mount point. */
  function Suffix(dir: string): (r: Option<string>)
    ensures r.Some? <==> MOUNT <= dir && (|dir| > |MOUNT| ==> dir[|MOUNT|] == '/')
    ensures r.Some? ==> dir == MOUNT + r.value && Slashed(r.value)
  {
    var rest := StripPrefix(dir, MOUNT);
    if rest.Some? && Slashed(rest.value) then rest else None
  }

  /** Empty or starting with a slash. */
  predicate Slashed(s: string) {
    s == "" || s[0] == '/'
  }

  /** What is written for a slot: the template `t` stands for the workspace root. */
  function SlotTemplate(t: string, slot: string, workspace: string): string {
    if workspace <= slot then t + Below(slot[|workspace|..]) else slot
  }

  /** The slot-relative part, re-attached with one slash. */
  function Below(rel: string): (r: string)
    ensures Slashed(r)
  {
    var relative := TrimSlashes(rel);
    if relative == "" then "" else "/" + relative
  }

  function Template(dir: string, slot: Option<string>, workspace: string): Mapped {
    var suffix := Suffix(dir);
    if suffix.None? then InvalidWorkingDir
    else if slot.None? then Dir(TEMPLATE + suffix.value)
    else Dir(SlotTemplate(TEMPLATE, slot.value, workspace) + suffix.value)
  }

  /** `map_working_dir_impl` */
  method MapWorkingDir(dir: string, slot: Option<string>, workspace: string) returns (r: Mapped)
    ensures r == Template(dir, slot, workspace)
    ensures r.Dir? <==> dir == "/workspace" || "/workspace/" <= dir
  {
    WithinMount(dir);
    var stripped := StripPrefix(dir, MOUNT);
    if stripped.None? { return InvalidWorkingDir; }
    var suffix := stripped.value;
    if suffix != "" && suffix[0] != '/' { return InvalidWorkingDir; }
    var result := TEMPLATE;
    if slot.Some? { result := PushSlot(TEMPLATE, slot.value, workspace); }
    r := Dir(result + suffix);
  }

  lemma WithinMount(dir: string)
    ensures Suffix(dir).Some? <==> dir == "/workspace" || "/workspace/" <= dir
  {
    if |dir| > |MOUNT| {
      assert "/workspace/" == MOUNT + ['/'];
      assert MOUNT <= dir && dir[|MOUNT|] == '/' ==> dir[..|MOUNT| + 1] == MOUNT + ['/'];
    }
  }

  method PushSlot(t: string, slot: string, workspace: string) returns (result: string)
    ensures result == SlotTemplate(t, slot, workspace)
  {
    var rel := StripPrefix(slot, workspace);
    if rel.None? { return slot; }
    assert rel.value == slot[|workspace|..];
    var relative := TrimSlashes(rel.value);
    result := t;
    if relative != "" {
      result := result + "/";
      result := result + relative;
    }
    assert t + "/" + relative == t + ("/" + relative);
    assert t + "" == t;
  }

  // ---- builderd's half ----

  predicate Contains(s: string, t: string) {
    exists i :: 0 <= i <= |s| && t <= s[i..]
  }

  /** `str::replace`: left to right, without overlap. */
  function ReplaceAll(s: string, t: string, root: string): string
    requires t != ""
  {
    if s == "" then ""
    else if t <= s then root + ReplaceAll(s[|t|..], t, root)
    else [s[0]] + ReplaceAll(s[1..], t, root)
  }

  /** `resolve_working_dir` of a builderd that knows its workspace. */
  function Expand(s: string, t: string, root: string): string
    requires t != ""
  {
    if Contains(s, t) then ReplaceAll(s, t, root) else s
  }

  lemma {:induction false} NothingToReplace(s: string, t: string, root: string)
    requires t != "" && !Contains(s, t)
    ensures ReplaceAll(s, t, root) == s
  {
    if s != "" {
      assert s == s[0..];
      TailContains(s, 1, t);
      NothingToReplace(s[1..], t, root);
    }
  }

  lemma TailContains(s: string, k: nat, t: string)
    requires k <= |s| && !Contains(s, t)
    ensures !Contains(s[k..], t)
  {
    forall i | 0 <= i <= |s[k..]| ensures !(t <= s[k..][i..]) { assert s[k..][i..] == s[k + i..]; }
  }

  lemma LeadingTemplate(rest: string, t: string, root: string)
    requires t != "" && !Contains(rest, t)
    ensures Expand(t + rest, t, root) == root + rest
  {
    var s := t + rest;
    assert t <= s[0..];
    assert s[|t|..] == rest;
    NothingToReplace(rest, t, root);
  }

  lemma NotInFirst(a: string, b: string, t: string, i: nat)
    requires i + |t| <= |a| && !Contains(a, t)
    ensures !(t <= (a + b)[i..])
  {
    var s := a + b;
    assert s[i..][..|t|] == a[i..][..|t|];
    assert !(t <= a[i..]);
  }

  lemma NotAcross(a: string, b: string, t: string, i: nat)
    requires i < |a| < i + |t| && Slashed(b) && '/' !in t
    ensures !(t <= (a + b)[i..])
  {
    var rest, k := (a + b)[i..], |a| - i;
    assert t[k] in t;
    assert |b| > 0 ==> rest[k] == b[0];
  }

  /** No occurrence of a slash-free template can straddle a point where a slash begins. */
  lemma ContainsAcrossSlash(a: string, b: string, t: string)
    requires Slashed(b) && '/' !in t
    requires !Contains(a, t) && !Contains(b, t)
    ensures !Contains(a + b, t)
  {
    var s := a + b;
    forall i | 0 <= i <= |s| ensures !(t <= s[i..]) {
      if i >= |a| {
        assert s[i..] == b[i - |a|..];
      } else if i + |t| <= |a| {
        NotInFirst(a, b, t, i);
      } else {
        NotAcross(a, b, t, i);
      }
    }
  }

  /** Every occurrence is replaced: pieces that meet at a slash expand independently, and the
      template alone is the root. */
  lemma {:induction false} ExpandsEverywhere(a: string, b: string, t: string, root: string)
    requires Slashed(b) && '/' !in t && t != ""
    ensures ReplaceAll(a + b, t, root) == ReplaceAll(a, t, root) + ReplaceAll(b, t, root)
    ensures ReplaceAll(t, t, root) == root
    decreases |a|
  {
    var s := a + b;
    assert t[|t|..] == "" && root + "" == root;
    if a == "" {
      assert s == b;
    } else if t <= a {
      assert s[..|t|] == a[..|t|] && s[|t|..] == a[|t|..] + b;
      ExpandsEverywhere(a[|t|..], b, t, root);
    } else {
      assert s == s[0..];
      if |t| <= |a| { assert s[..|t|] == a[..|t|]; } else { NotAcross(a, b, t, 0); }
      assert s[1..] == a[1..] + b;
      ExpandsEverywhere(a[1..], b, t, root);
    }
  }

  // ---- the composition ----

  /** The host path the bind mount `slot -> /workspace` gives to a container directory. */
  function MountedPath(slot: string, suffix: string): string {
    slot + suffix
  }

  /** The slot is not textually below the workspace root, is the root, or continues it with exactly
      one slash and a name. */
  predicate Verbatim(slot: string, workspace: string) {
    workspace <= slot ==>
      var rel := slot[|workspace|..];
      rel == "" || (|rel| > 1 && rel[0] == '/' && rel[1] != '/')
  }

  lemma SlashFirst(s: string, t: string)
    requires '/' !in t && t != "" && !Contains(s, t)
    ensures !Contains("/" + s, t)
  {
    var u := "/" + s;
    forall i | 0 <= i <= |u| ensures !(t <= u[i..]) {
      if i > 0 {
        assert u[i..] == s[i - 1..];
      } else {
        assert u[0..][0] == '/' && t[0] in t;
      }
    }
  }

  lemma EmptyContains(t: string)
    requires t != ""
    ensures !Contains("", t)
  {
  }

  lemma BelowContains(rel: string, t: string)
    requires '/' !in t && t != "" && !Contains(rel, t)
    ensures !Contains(Below(rel), t)
  {
    var relative := TrimSlashes(rel);
    if relative == "" {
      EmptyContains(t);
    } else {
      TailContains(rel, |rel| - |relative|, t);
      SlashFirst(relative, t);
    }
  }

  lemma ExpandedBelow(t: string, below: string, workspace: string, suffix: string)
    requires '/' !in t && t != "" && Slashed(suffix)
    requires !Contains(below, t) && !Contains(suffix, t)
    ensures Expand(t + below + suffix, t, workspace) == workspace + below + suffix
  {
    ContainsAcrossSlash(below, suffix, t);
    LeadingTemplate(below + suffix, t, workspace);
    assert t + below + suffix == t + (below + suffix);
    assert workspace + (below + suffix) == workspace + below + suffix;
  }

  lemma ExpandedSlot(t: string, slot: string, workspace: string, suffix: string)
    requires '/' !in t && t != "" && Slashed(suffix)
    requires !Contains(slot, t) && !Contains(suffix, t)
    ensures Expand(SlotTemplate(t, slot, workspace) + suffix, t, workspace) ==
      (if workspace <= slot then workspace + Below(slot[|workspace|..]) else slot) + suffix
  {
    if workspace <= slot {
      TailContains(slot, |workspace|, t);
      BelowContains(slot[|workspace|..], t);
      ExpandedBelow(t, Below(slot[|workspace|..]), workspace, suffix);
    } else {
      ContainsAcrossSlash(slot, suffix, t);
    }
  }

  lemma BelowIsRelIffBoundary(rel: string)
    ensures Below(rel) == rel <==> rel == "" || (|rel| > 1 && rel[0] == '/' && rel[1] != '/')
  {
    if rel != "" && rel[0] == '/' {
      assert TrimSlashes(rel) == TrimSlashes(rel[1..]);
      assert rel == "/" + rel[1..];
    }
  }

  lemma SameMiddle(w: string, a: string, b: string, suffix: string)
    ensures w + a + suffix == w + b + suffix <==> a == b
  {
    var x, y := w + a + suffix, w + b + suffix;
    if x == y {
      assert |a| == |b|;
      assert x[|w|..|w| + |a|] == a && y[|w|..|w| + |b|] == b;
    }
  }

  lemma TemplateIsOneName()
    ensures TEMPLATE != "" && '/' !in TEMPLATE
  {
  }

  /** With the same workspace root on both sides and no template text in the inputs, mapping a
      container directory and expanding the result gives the bind-mounted host path character for
      character exactly when the slot continues the root with one slash, is it, or is elsewhere. */
  lemma MapThenExpandVerbatim(dir: string, slot: string, workspace: string)
    requires Suffix(dir).Some?
    requires !Contains(slot, TEMPLATE) && !Contains(Suffix(dir).value, TEMPLATE)
    ensures TEMPLATE != ""
    ensures var r := Template(dir, Some(slot), workspace);
      r.Dir? && (Expand(r.path, TEMPLATE, workspace) == MountedPath(slot, Suffix(dir).value) <==>
                 Verbatim(slot, workspace))
  {
    var suffix := Suffix(dir).value;
    TemplateIsOneName();
    ExpandedSlot(TEMPLATE, slot, workspace, suffix);
    if workspace <= slot {
      var rel := slot[|workspace|..];
      assert slot == workspace + rel;
      BelowIsRelIffBoundary(rel);
      SameMiddle(workspace, Below(rel), rel, suffix);
    }
  }

  // ---- the composition on path components ----

  /** The text ends inside a name. */
  predicate InName(s: string) {
    s != "" && s[|s| - 1] != '/'
  }

  /** The names read so far, one character later. */
  function Read(parts: seq<string>, inName: bool, c: char): seq<string>
    requires inName ==> parts != []
  {
    if c == '/' then parts
    else if inName then parts[..|parts| - 1] + [parts[|parts| - 1] + [c]]
    else parts + [[c]]
  }

  /** The names between slashes; repeated and trailing slashes do not matter. */
  function Parts(s: string): (r: seq<string>)
    ensures InName(s) ==> r != []
    ensures forall i | 0 <= i < |r| :: r[i] != "" && '/' !in r[i]
  {
    if s == "" then [] else Read(Parts(s[..|s| - 1]), InName(s[..|s| - 1]), s[|s| - 1])
  }

  predicate Absolute(s: string) {
    s != "" && s[0] == '/'
  }

  /** The two strings name the same path, component by component. */
  predicate SamePath(a: string, b: string) {
    Absolute(a) == Absolute(b) && Parts(a) == Parts(b)
  }

  lemma PartsNext(s: string, c: char)
    ensures Parts(s + [c]) == Read(Parts(s), InName(s), c)
  {
    var t := s + [c];
    assert t[..|t| - 1] == s;
  }

  lemma ReadAfter(x: seq<string>, y: seq<string>, inName: bool, c: char)
    requires inName ==> y != []
    ensures Read(x + y, inName, c) == x + Read(y, inName, c)
  {
    if c != '/' && inName {
      assert (x + y)[..|x + y| - 1] == x + y[..|y| - 1];
    }
  }

  /** A list whose first name continues another one. */
  function Continued(name: string, b: seq<string>): seq<string>
    requires b != []
  {
    [name + b[0]] + b[1..]
  }

  lemma ReadContinued(name: string, b: seq<string>, inName: bool, c: char)
    requires b != []
    ensures Read(b, inName, c) != []
    ensures Read(Continued(name, b), inName, c) == Continued(name, Read(b, inName, c))
  {
    if c != '/' && inName && |b| == 1 {
      assert name + (b[0] + [c]) == name + b[0] + [c];
    }
  }

  /** Two texts that meet at a slash, or before or after nothing, read as one after the other. */
  lemma {:induction false} PartsApart(a: string, b: string)
    requires !InName(a) || Slashed(b)
    ensures Parts(a + b) == Parts(a) + Parts(b)
    decreases |b|
  {
    if b == "" {
      assert a + b == a;
    } else {
      var front, c := b[..|b| - 1], b[|b| - 1];
      PartsApart(a, front);
      assert a + b == (a + front) + [c] && b == front + [c];
      PartsNext(a + front, c);
      PartsNext(front, c);
      if front != "" {
        assert InName(a + front) == InName(front);
        ReadAfter(Parts(a), Parts(front), InName(front), c);
      } else {
        assert a + front == a;
      }
    }
  }

  /** Otherwise the last name of the first runs into the first name of the second. */
  predicate RunsInto(a: seq<string>, b: seq<string>, ab: seq<string>) {
    a != [] && b != [] && ab == a[..|a| - 1] + Continued(a[|a| - 1], b)
  }

  lemma {:induction false} PartsFuse(a: string, b: string)
    requires InName(a) && b != "" && b[0] != '/'
    ensures RunsInto(Parts(a), Parts(b), Parts(a + b))
    decreases |b|
  {
    var front, c := b[..|b| - 1], b[|b| - 1];
    var p := Parts(a);
    assert a + b == (a + front) + [c] && b == front + [c];
    PartsNext(a + front, c);
    PartsNext(front, c);
    if front == "" {
      assert a + front == a && Parts(b) == [[c]];
    } else {
      PartsFuse(a, front);
      assert InName(a + front) == InName(front);
      ReadContinued(p[|p| - 1], Parts(front), InName(front), c);
      ReadAfter(p[..|p| - 1], Continued(p[|p| - 1], Parts(front)), InName(front), c);
    }
  }

  lemma {:induction false} TrimKeepsParts(s: string)
    ensures Parts(TrimSlashes(s)) == Parts(s)
  {
    if s != "" && s[0] == '/' {
      TrimKeepsParts(s[1..]);
      assert s == s[..1] + s[1..];
      LeadingSlash(s[..1], s[1..]);
    }
  }

  lemma LeadingSlash(slash: string, b: string)
    requires slash == "/"
    ensures Parts(slash + b) == Parts(b)
  {
    PartsApart(slash, b);
    PartsNext("", '/');
    assert "" + ['/'] == slash;
  }

  lemma BelowKeepsParts(rel: string)
    ensures Parts(Below(rel)) == Parts(rel)
  {
    TrimKeepsParts(rel);
    LeadingSlash("/", TrimSlashes(rel));
  }

  /** Where a name ends: the root is empty or ends in a slash, or the rest is empty or starts with
      one. */
  predicate Separated(root: string, rel: string) {
    !InName(root) || Slashed(rel)
  }

  lemma FusedIsNoPrefix(a: seq<string>, b: seq<string>, ab: seq<string>)
    requires RunsInto(a, b, ab) && b[0] != ""
    ensures !(a <= ab) && ab != a + b
  {
    var k := |a| - 1;
    assert |ab[k]| == |a[k]| + |b[0]|;
    assert |ab| == |a| + |b| - 1;
  }

  lemma PartsJoinIff(root: string, rel: string)
    ensures Parts(root + rel) == Parts(root) + Parts(rel) <==> Separated(root, rel)
    ensures Parts(root) <= Parts(root + rel) <==> Separated(root, rel)
  {
    if Separated(root, rel) {
      PartsApart(root, rel);
    } else {
      PartsFuse(root, rel);
      FusedIsNoPrefix(Parts(root), Parts(rel), Parts(root + rel));
    }
  }

  /** String prefix and path components agree about slot and root: a name ends where the root does;
      and a root that is the empty string keeps the slot's leading slash. */
  predicate OnBoundary(slot: string, workspace: string, suffix: string) {
    workspace <= slot ==>
      var rel := slot[|workspace|..];
      && Separated(workspace, rel)
      && (workspace == "" ==> rel == "" || (rel[0] == '/' && (TrimSlashes(rel) != "" || suffix != "")))
  }

  lemma SameAbsolute(workspace: string, rel: string, suffix: string)
    requires Slashed(suffix)
    ensures Absolute(workspace + Below(rel) + suffix) == Absolute(workspace + rel + suffix) <==>
      (workspace == "" ==> rel == "" || (rel[0] == '/' && (TrimSlashes(rel) != "" || suffix != "")))
  {
    AbsoluteConcat(workspace + Below(rel), suffix);
    AbsoluteConcat(workspace + rel, suffix);
    AbsoluteConcat(workspace, Below(rel));
    AbsoluteConcat(workspace, rel);
    if workspace == "" {
      assert workspace + Below(rel) == Below(rel) && workspace + rel == rel;
    }
  }

  lemma AbsoluteConcat(a: string, b: string)
    ensures Absolute(a + b) == if a == "" then Absolute(b) else Absolute(a)
  {
    if a == "" { assert a + b == b; }
  }

  lemma SamePathIffBoundary(workspace: string, rel: string, suffix: string)
    requires Slashed(suffix)
    ensures SamePath(workspace + Below(rel) + suffix, workspace + rel + suffix) <==>
      OnBoundary(workspace + rel, workspace, suffix)
  {
    assert (workspace + rel)[|workspace|..] == rel;
    PartsApart(workspace + Below(rel), suffix);
    PartsApart(workspace + rel, suffix);
    PartsApart(workspace, Below(rel));
    BelowKeepsParts(rel);
    PartsJoinIff(workspace, rel);
    SameTail(Parts(workspace) + Parts(rel), Parts(workspace + rel), Parts(suffix));
    SameAbsolute(workspace, rel, suffix);
  }

  lemma SameTail<T>(a: seq<T>, b: seq<T>, c: seq<T>)
    ensures a + c == b + c <==> a == b
  {
    if a + c == b + c {
      assert a == (a + c)[..|a|] && b == (b + c)[..|b|];
    }
  }

  /** With the same workspace root on both sides and no template text in the inputs, mapping a
      container directory and expanding the result names the bind-mounted host path, component by
      component, exactly when the slot lies on a component boundary of the root. */
  lemma MapThenExpand(dir: string, slot: string, workspace: string)
    requires Suffix(dir).Some?
    requires !Contains(slot, TEMPLATE) && !Contains(Suffix(dir).value, TEMPLATE)
    ensures TEMPLATE != ""
    ensures var r := Template(dir, Some(slot), workspace); var suffix := Suffix(dir).value;
      r.Dir? && (SamePath(Expand(r.path, TEMPLATE, workspace), MountedPath(slot, suffix)) <==>
                 OnBoundary(slot, workspace, suffix))
  {
    var suffix := Suffix(dir).value;
    TemplateIsOneName();
    ExpandedSlot(TEMPLATE, slot, workspace, suffix);
    if workspace <= slot {
      assert slot == workspace + slot[|workspace|..];
      SamePathIffBoundary(workspace, slot[|workspace|..], suffix);
    }
  }

  /** Off a boundary the two disagree about the directory: a slot whose path merely starts with the
      root's text is mapped to a directory inside the root, and really lies inside it exactly when
      the root is empty or ends in a slash. */
  lemma SiblingIsMappedInside(dir: string, workspace: string, rest: string)
    requires Suffix(dir).Some? && rest != "" && rest[0] != '/'
    requires !Contains(workspace + rest, TEMPLATE) && !Contains(Suffix(dir).value, TEMPLATE)
    ensures TEMPLATE != ""
    ensures var r := Template(dir, Some(workspace + rest), workspace);
      r.Dir? && Parts(Expand(r.path, TEMPLATE, workspace)) == Parts(workspace) + Parts(rest) + Parts(Suffix(dir).value)
    ensures Parts(workspace) <= Parts(workspace + rest) <==> workspace == "" || workspace[|workspace| - 1] == '/'
  {
    var suffix := Suffix(dir).value;
    TemplateIsOneName();
    ExpandedSlot(TEMPLATE, workspace + rest, workspace, suffix);
    assert (workspace + rest)[|workspace|..] == rest;
    PartsApart(workspace + Below(rest), suffix);
    PartsApart(workspace, Below(rest));
    BelowKeepsParts(rest);
    PartsJoinIff(workspace, rest);
  }

  /** Without a slot the template is the workspace root itself. */
  lemma DirectMount(dir: string, workspace: string)
    requires Suffix(dir).Some? && !Contains(Suffix(dir).value, TEMPLATE)
    ensures TEMPLATE != ""
    ensures var r := Template(dir, None, workspace);
      r.Dir? && Expand(r.path, TEMPLATE, workspace) == workspace + Suffix(dir).value
  {
    TemplateIsOneName();
    LeadingTemplate(Suffix(dir).value, TEMPLATE, workspace);
  }
}

/** Merging the skills of a launch: the mode's own, the project's, then the global ones, which also
    need a mount. A name is taken from the first source that has it. */
module Skills {
  import opened PinnedFile

  datatype GlobalSkill = GlobalSkill(name: string, hostPath: string)

  function Names(globals: seq<GlobalSkill>): seq<string> {
    seq(|globals|, i requires 0 <= i < |globals| => globals[i].name)
  }

  /** Position `i` is where a name outside `known` first occurs. */
  predicate Introduces(xs: seq<string>, known: set<string>, i: nat)
    requires i < |xs|
  {
    xs[i] !in known && xs[i] !in xs[..i]
  }

  /** The positions before `n` that introduce a name, in order. */
  function Introducing(xs: seq<string>, known: set<string>, n: nat): seq<nat>
    requires n <= |xs|
    decreases n
  {
    if n == 0 then []
    else Introducing(xs, known, n - 1) + if Introduces(xs, known, n - 1) then [n - 1] else []
  }

  /** Exactly those positions, each once, ascending. */
  lemma {:induction false} IntroducingExact(xs: seq<string>, known: set<string>, n: nat)
    requires n <= |xs|
    ensures forall i :: i in Introducing(xs, known, n) <==> 0 <= i < n && Introduces(xs, known, i)
    ensures forall a, b | 0 <= a < b < |Introducing(xs, known, n)| ::
      Introducing(xs, known, n)[a] < Introducing(xs, known, n)[b]
    decreases n
  {
    if n > 0 {
      IntroducingExact(xs, known, n - 1);
      var before := Introducing(xs, known, n - 1);
      forall a | 0 <= a < |before| ensures before[a] < n - 1 { assert before[a] in before; }
    }
  }

  function At<T>(xs: seq<T>, at: seq<nat>): (r: seq<T>)
    requires forall i | i in at :: i < |xs|
  {
    seq(|at|, k requires 0 <= k < |at| => assert at[k] in at; xs[at[k]])
  }

  function Added(xs: seq<string>, known: set<string>): seq<string> {
    IntroducingExact(xs, known, |xs|);
    At(xs, Introducing(xs, known, |xs|))
  }

  function AddedGlobals(globals: seq<GlobalSkill>, known: set<string>): seq<GlobalSkill> {
    IntroducingExact(Names(globals), known, |globals|);
    At(globals, Introducing(Names(globals), known, |globals|))
  }

  function Merged(mode: seq<string>, project: seq<string>, globals: seq<GlobalSkill>): seq<string> {
    mode + Added(project, ToSet(mode)) + Added(Names(globals), ToSet(mode) + ToSet(project))
  }

  // ---- the loop with its `seen` set ----

  /** What the loop has pushed after `n` entries, and which names it has seen. */
  ghost predicate Scanned(xs: seq<string>, known: set<string>, n: nat, seen: set<string>, added: seq<string>)
    requires n <= |xs|
  {
    IntroducingExact(xs, known, n);
    seen == known + ToSet(xs[..n]) && added == At(xs, Introducing(xs, known, n))
  }

  lemma ScanOneMore(xs: seq<string>, known: set<string>, n: nat, seen: set<string>, added: seq<string>)
    requires n < |xs| && Scanned(xs, known, n, seen, added)
    ensures Introduces(xs, known, n) <==> xs[n] !in seen
    ensures if xs[n] in seen then Scanned(xs, known, n + 1, seen, added)
      else Scanned(xs, known, n + 1, seen + {xs[n]}, added + [xs[n]])
  {
    assert xs[..n + 1] == xs[..n] + [xs[n]];
    IntroducingExact(xs, known, n);
    IntroducingExact(xs, known, n + 1);
  }

  lemma ScanDone(xs: seq<string>, known: set<string>, seen: set<string>, added: seq<string>)
    requires Scanned(xs, known, |xs|, seen, added)
    ensures added == Added(xs, known) && seen == known + ToSet(xs)
  {
    assert xs[..|xs|] == xs;
  }

  ghost predicate Mounted(globals: seq<GlobalSkill>, known: set<string>, n: nat, mounts: seq<GlobalSkill>)
    requires n <= |globals|
  {
    IntroducingExact(Names(globals), known, n);
    mounts == At(globals, Introducing(Names(globals), known, n))
  }

  lemma MountOneMore(globals: seq<GlobalSkill>, known: set<string>, n: nat, mounts: seq<GlobalSkill>)
    requires n < |globals| && Mounted(globals, known, n, mounts)
    ensures Mounted(globals, known, n + 1,
                    if Introduces(Names(globals), known, n) then mounts + [globals[n]] else mounts)
  {
    IntroducingExact(Names(globals), known, n);
    IntroducingExact(Names(globals), known, n + 1);
  }

  method MergeSkills(mode: seq<string>, project: seq<string>, globals: seq<GlobalSkill>)
    returns (merged: seq<string>, mounts: seq<GlobalSkill>)
    ensures merged == Merged(mode, project, globals)
    ensures mounts == AddedGlobals(globals, ToSet(mode) + ToSet(project))
  {
    var seen := ToSet(mode);
    merged, seen := PushNames(mode, seen, project);
    merged, mounts := PushGlobals(merged, seen, globals);
  }

  /** The loop over the project's skills. */
  method PushNames(start: seq<string>, known: set<string>, names: seq<string>)
    returns (merged: seq<string>, seen: set<string>)
    ensures merged == start + Added(names, known)
    ensures seen == known + ToSet(names)
  {
    merged, seen := start, known;
    ghost var added: seq<string> := [];
    for n := 0 to |names|
      invariant Scanned(names, known, n, seen, added) && merged == start + added
    {
      ScanOneMore(names, known, n, seen, added);
      if names[n] !in seen {
        assert start + (added + [names[n]]) == merged + [names[n]];
        seen, merged, added := seen + {names[n]}, merged + [names[n]], added + [names[n]];
      }
    }
    ScanDone(names, known, seen, added);
  }

  /** The loop over the global skills, which also collects mounts. */
  method PushGlobals(start: seq<string>, known: set<string>, globals: seq<GlobalSkill>)
    returns (merged: seq<string>, mounts: seq<GlobalSkill>)
    ensures merged == start + Added(Names(globals), known)
    ensures mounts == AddedGlobals(globals, known)
  {
    merged, mounts := start, [];
    var seen := known;
    ghost var names, added := Names(globals), [];
    for n := 0 to |globals|
      invariant Scanned(names, known, n, seen, added) && merged == start + added
      invariant Mounted(globals, known, n, mounts)
    {
      ScanOneMore(names, known, n, seen, added);
      MountOneMore(globals, known, n, mounts);
      var name := globals[n].name;
      if name !in seen {
        assert start + (added + [name]) == merged + [name];
        seen, merged, added := seen + {name}, merged + [name], added + [name];
        mounts := mounts + [globals[n]];
      }
    }
    ScanDone(names, known, seen, added);
  }

  // ---- what the merge guarantees ----

  lemma AddedSays(xs: seq<string>, known: set<string>)
    ensures forall x :: x in Added(xs, known) <==> x in xs && x !in known
    ensures forall a, b | 0 <= a < b < |Added(xs, known)| :: Added(xs, known)[a] != Added(xs, known)[b]
  {
    var at := Introducing(xs, known, |xs|);
    IntroducingExact(xs, known, |xs|);
    forall x | x in Added(xs, known) ensures x in xs && x !in known {
      var k :| 0 <= k < |at| && Added(xs, known)[k] == x;
      assert at[k] in at;
    }
    forall x | x in xs && x !in known ensures x in Added(xs, known) {
      var i := FirstAt(xs, x);
      assert Introduces(xs, known, i);
      var k :| 0 <= k < |at| && at[k] == i;
      assert Added(xs, known)[k] == x;
    }
    forall a, b | 0 <= a < b < |at| ensures Added(xs, known)[a] != Added(xs, known)[b] {
      assert at[a] in at && at[b] in at;
      assert xs[at[a]] in xs[..at[b]];
    }
  }

  lemma {:induction false} FirstAt(xs: seq<string>, x: string) returns (i: nat)
    requires x in xs
    ensures i < |xs| && xs[i] == x && x !in xs[..i]
    decreases |xs|
  {
    if x in xs[..|xs| - 1] {
      i := FirstAt(xs[..|xs| - 1], x);
      assert xs[..|xs| - 1][..i] == xs[..i];
    } else {
      i := |xs| - 1;
    }
  }

  /** The mode's skills come first and unchanged; every name of every source is there; no name is
      added twice or when the mode has it; the mounts are for exactly the global names that neither
      the mode nor the project has, in the order they were added. */
  lemma MergeKeepsEarliest(mode: seq<string>, project: seq<string>, globals: seq<GlobalSkill>)
    ensures mode <= Merged(mode, project, globals)
    ensures ToSet(Merged(mode, project, globals)) == ToSet(mode) + ToSet(project) + ToSet(Names(globals))
    ensures var tail := Merged(mode, project, globals)[|mode|..];
      (forall x | x in tail :: x !in mode) && forall a, b | 0 <= a < b < |tail| :: tail[a] != tail[b]
    ensures var mounted := Names(AddedGlobals(globals, ToSet(mode) + ToSet(project)));
      && Merged(mode, project, globals)[|Merged(mode, project, globals)| - |mounted|..] == mounted
      && forall x :: x in mounted <==> x in Names(globals) && x !in mode && x !in project
    ensures forall m | m in AddedGlobals(globals, ToSet(mode) + ToSet(project)) :: FirstOfName(globals, m)
  {
    var p, g := Added(project, ToSet(mode)), Added(Names(globals), ToSet(mode) + ToSet(project));
    AddedSays(project, ToSet(mode));
    AddedSays(Names(globals), ToSet(mode) + ToSet(project));
    MountsAreAdded(globals, ToSet(mode) + ToSet(project));
    MountsAreFirst(globals, ToSet(mode) + ToSet(project));
    var tail := Merged(mode, project, globals)[|mode|..];
    assert tail == p + g;
    forall a, b | 0 <= a < b < |tail| ensures tail[a] != tail[b] {
      if a < |p| <= b { assert tail[a] in p && tail[b] in g; }
    }
  }

  /** The entry is the first of its name, host path and all. */
  predicate FirstOfName(globals: seq<GlobalSkill>, m: GlobalSkill) {
    exists i :: 0 <= i < |globals| && globals[i] == m && forall j | 0 <= j < i :: globals[j].name != m.name
  }

  lemma MountsAreFirst(globals: seq<GlobalSkill>, known: set<string>)
    ensures forall m | m in AddedGlobals(globals, known) :: FirstOfName(globals, m)
  {
    var names := Names(globals);
    var at := Introducing(names, known, |globals|);
    IntroducingExact(names, known, |globals|);
    forall m | m in AddedGlobals(globals, known) ensures FirstOfName(globals, m) {
      var k :| 0 <= k < |at| && AddedGlobals(globals, known)[k] == m;
      assert at[k] in at && Introduces(names, known, at[k]);
      forall j | 0 <= j < at[k] ensures globals[j].name != m.name { assert names[j] in names[..at[k]]; }
      assert globals[at[k]] == m;
    }
  }

  lemma MountsAreAdded(globals: seq<GlobalSkill>, known: set<string>)
    ensures Names(AddedGlobals(globals, known)) == Added(Names(globals), known)
  {
    var at := Introducing(Names(globals), known, |globals|);
    IntroducingExact(Names(globals), known, |globals|);
    forall k | 0 <= k < |at| ensures Names(AddedGlobals(globals, known))[k] == Added(Names(globals), known)[k] {
      assert at[k] in at;
    }
  }

  lemma NothingAdded(xs: seq<string>, known: set<string>)
    requires ToSet(xs) <= known
    ensures Added(xs, known) == []
  {
    assert Added(xs, known) == [] || Added(xs, known)[0] in Added(xs, known);
    assert forall x | x in xs :: x in ToSet(xs);
    AddedSays(xs, known);
  }

  /** Merging what was merged adds nothing and asks for no mount. */
  lemma MergeIdempotent(mode: seq<string>, project: seq<string>, globals: seq<GlobalSkill>)
    ensures var merged := Merged(mode, project, globals);
      Merged(merged, project, globals) == merged && AddedGlobals(globals, ToSet(merged) + ToSet(project)) == []
  {
    var merged := Merged(mode, project, globals);
    MergeKeepsEarliest(mode, project, globals);
    NothingAdded(project, ToSet(merged));
    NothingAdded(Names(globals), ToSet(merged) + ToSet(project));
    MountsAreAdded(globals, ToSet(merged) + ToSet(project));
    assert |Names(AddedGlobals(globals, ToSet(merged) + ToSet(project)))| == 0;
  }
}

/** The `pinned` file of a slot: a sorted, duplicate-free list of paths, stored NUL-joined. */
module PinnedFile {

  const NUL: char := '\0'

  /** A path that `split('\0')` followed by dropping empty parts can give back. */
  predicate Nameable(p: string) {
    p != "" && NUL !in p
  }

  /** `paths.join("\0")` */
  function JoinNul(paths: seq<string>): string {
    if |paths| == 0 then ""
    else if |paths| == 1 then paths[0]
    else paths[0] + [NUL] + JoinNul(paths[1..])
  }

  /** The characters before the first NUL, or all of them. */
  function UpToNul(s: string): (n: nat)
    ensures n <= |s|
    ensures NUL !in s[..n]
    ensures n < |s| ==> s[n] == NUL
  {
    if s == "" || s[0] == NUL then 0 else
    var n := 1 + UpToNul(s[1..]);
    assert s[..n] == [s[0]] + s[1..][..n - 1];
    n
  }

  /** `content.split('\0')`, which never yields an empty list. */
  function SplitNul(s: string): (parts: seq<string>)
    ensures parts != []
    ensures forall i | 0 <= i < |parts| :: NUL !in parts[i]
    decreases |s|
  {
    var n := UpToNul(s);
    if n == |s| then [s] else [s[..n]] + SplitNul(s[n + 1..])
  }

  function DropEmpty(parts: seq<string>): (r: seq<string>)
    ensures forall i | 0 <= i < |r| :: r[i] != "" && r[i] in parts
  {
    if parts == [] then []
    else if parts[0] == "" then DropEmpty(parts[1..])
    else [parts[0]] + DropEmpty(parts[1..])
  }

  /** What `read_pinned` returns for a given file content. */
  function ParsePinned(content: string): (paths: seq<string>)
    ensures forall i | 0 <= i < |paths| :: Nameable(paths[i])
  {
    var parts := SplitNul(content);
    var paths := DropEmpty(parts);
    assert forall i | 0 <= i < |paths| :: NUL !in paths[i] by {
      forall i | 0 <= i < |paths| ensures NUL !in paths[i] {
        var j :| 0 <= j < |parts| && parts[j] == paths[i];
      }
    }
    paths
  }

  lemma SplitFirst(p: string, rest: string)
    requires NUL !in p
    ensures SplitNul(p) == [p]
    ensures SplitNul(p + [NUL] + rest) == [p] + SplitNul(rest)
  {
    var s := p + [NUL] + rest;
    var n := UpToNul(s);
    assert forall i | 0 <= i < |p| :: p[i] in p && s[i] == p[i] != NUL;
    assert forall i | 0 <= i < n :: s[i] in s[..n] && s[i] != NUL;
    assert s[|p|] == NUL;
    assert n == |p|;
    assert s[..n] == p && s[n + 1..] == rest;
    assert UpToNul(p) == |p|;
  }

  lemma {:induction false} ParseJoin(paths: seq<string>)
    requires forall i | 0 <= i < |paths| :: Nameable(paths[i])
    ensures ParsePinned(JoinNul(paths)) == paths
  {
    if |paths| == 0 {
      assert SplitNul("") == [""];
    } else if |paths| == 1 {
      SplitFirst(paths[0], "");
      assert DropEmpty([paths[0]]) == [paths[0]] + DropEmpty([]);
    } else {
      var rest := JoinNul(paths[1..]);
      SplitFirst(paths[0], rest);
      ParseJoin(paths[1..]);
      assert ([paths[0]] + SplitNul(rest))[1..] == SplitNul(rest);
    }
  }

  /** Writing a list and reading it back is the identity exactly on lists of non-empty,
      NUL-free paths. */
  lemma PinnedRoundTrip(paths: seq<string>)
    ensures ParsePinned(JoinNul(paths)) == paths <==> forall i | 0 <= i < |paths| :: Nameable(paths[i])
  {
    if forall i | 0 <= i < |paths| :: Nameable(paths[i]) {
      ParseJoin(paths);
    }
  }

  // ---- Vec::sort followed by Vec::dedup ----

  /** Strict lexicographic order on strings. */
  predicate Less(a: string, b: string) {
    b != "" && (a == "" || a[0] < b[0] || (a[0] == b[0] && Less(a[1..], b[1..])))
  }

  lemma LessTransitive(a: string, b: string, c: string)
    requires Less(a, b) && Less(b, c)
    ensures Less(a, c)
  {
    if a != "" && a[0] == b[0] == c[0] {
      LessTransitive(a[1..], b[1..], c[1..]);
    }
  }

  lemma LessTotal(a: string, b: string)
    ensures a == b || Less(a, b) || Less(b, a)
  {
    if a != "" && b != "" && a[0] == b[0] {
      LessTotal(a[1..], b[1..]);
      assert a == [a[0]] + a[1..] && b == [b[0]] + b[1..];
    }
  }

  lemma LessIrreflexive(a: string)
    ensures !Less(a, a)
  {
    if a != "" { LessIrreflexive(a[1..]); }
  }

  predicate Ascending(q: seq<string>) {
    forall i, j | 0 <= i < j < |q| :: Less(q[i], q[j])
  }

  function ToSet(q: seq<string>): set<string> {
    set p | p in q
  }

  lemma ToSetConcat(a: seq<string>, b: seq<string>)
    ensures ToSet(a + b) == ToSet(a) + ToSet(b)
  {
    forall p ensures p in a + b <==> p in a || p in b {}
  }

  /** Place `x` into an ascending list, dropping it if it is already there. */
  function Insert(x: string, q: seq<string>): (r: seq<string>)
    requires Ascending(q)
    ensures Ascending(r)
    ensures ToSet(r) == ToSet(q) + {x}
  {
    if q == [] then [x]
    else if x == q[0] then q
    else if Less(x, q[0]) then
      assert forall j | 0 <= j < |q| :: Less(x, q[j]) by {
        forall j | 0 < j < |q| ensures Less(x, q[j]) { LessTransitive(x, q[0], q[j]); }
      }
      [x] + q
    else
      var tail := Insert(x, q[1..]);
      LessTotal(x, q[0]);
      assert forall p | p in ToSet(tail) :: Less(q[0], p);
      assert forall j | 0 <= j < |tail| :: Less(q[0], tail[j]) by {
        forall j | 0 <= j < |tail| ensures Less(q[0], tail[j]) { assert tail[j] in ToSet(tail); }
      }
      assert ToSet([q[0]] + tail) == {q[0]} + ToSet(tail);
      assert q == [q[0]] + q[1..];
      assert ToSet(q) == {q[0]} + ToSet(q[1..]);
      [q[0]] + tail
  }

  /** The ascending list of a set's elements. */
  ghost function Sorted(s: set<string>): (q: seq<string>)
    ensures Ascending(q) && ToSet(q) == s
  {
    if s == {} then [] else
    var x :| x in s;
    Insert(x, Sorted(s - {x}))
  }

  /** Two ascending lists of the same elements are the same list, so neither directory order
      nor duplicates can change what is written to the pinned file. */
  lemma {:induction false} AscendingUnique(a: seq<string>, b: seq<string>)
    requires Ascending(a) && Ascending(b) && ToSet(a) == ToSet(b)
    ensures a == b
  {
    if a == [] {
      assert forall i | 0 <= i < |b| :: b[i] in ToSet(b);
    } else {
      assert a[0] in ToSet(a);
      assert b != [];
      assert b[0] in ToSet(b);
      FirstIsLeast(a, b[0]);
      FirstIsLeast(b, a[0]);
      if a[0] != b[0] {
        LessTransitive(a[0], b[0], a[0]);
        LessIrreflexive(a[0]);
      }
      assert ToSet(a[1..]) == ToSet(a) - {a[0]} by { TailSet(a); }
      assert ToSet(b[1..]) == ToSet(b) - {b[0]} by { TailSet(b); }
      AscendingUnique(a[1..], b[1..]);
    }
  }

  lemma FirstIsLeast(q: seq<string>, p: string)
    requires Ascending(q) && p in q
    ensures p == q[0] || Less(q[0], p)
  {
    var i :| 0 <= i < |q| && q[i] == p;
  }

  lemma TailSet(q: seq<string>)
    requires Ascending(q) && q != []
    ensures ToSet(q[1..]) == ToSet(q) - {q[0]}
  {
    LessIrreflexive(q[0]);
    assert q == [q[0]] + q[1..];
  }

  /** `pinned.sort(); pinned.dedup()` */
  method SortDedup(paths: seq<string>) returns (q: seq<string>)
    ensures q == Sorted(ToSet(paths))
  {
    q := [];
    for i := 0 to |paths|
      invariant Ascending(q)
      invariant ToSet(q) == ToSet(paths[..i])
    {
      assert paths[..i + 1] == paths[..i] + [paths[i]];
      q := Insert(paths[i], q);
    }
    assert paths[..|paths|] == paths;
    AscendingUnique(q, Sorted(ToSet(paths)));
  }
}

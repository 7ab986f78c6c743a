/** Best-effort recursive removal and its retry, against a closed form: which
    entries vanish, which stay, and which are reported as failures. */
module Removal {
  import opened Basics
  import opened FileSystem

  /** A directory the pass cannot look into. */
  predicate Opaque(n: Node) {
    n.kind.Directory? && (n.denied || n.unreadable)
  }

  /** `q` resists a removal started at `root` for a reason of its own. Files met
      while listing a directory are deleted without a stat. */
  predicate Resists(e: Entries, root: Path, q: Path)
    requires q in e
  {
    var n := e[q];
    n.locked || n.readOnly || Opaque(n) || (n.denied && (n.kind.Reparse? || q == root))
  }

  ghost predicate ResistsUnder(e: Entries, root: Path, q: Path) {
    q in e && AtOrAbove(root, q) && Resists(e, root, q)
  }

  /** An entry stays when something at or below it resists, or when it is inside
      a directory the pass cannot look into. */
  ghost predicate Stays(e: Entries, root: Path, p: Path) {
    exists q :: ResistsUnder(e, root, q)
      && (AtOrAbove(p, q) || (Opaque(e[q]) && AtOrAbove(q, p)))
  }

  /** An entry is reported when it resists, the pass gets to it, and nothing
      below it already explains why it stays. */
  ghost predicate Reported(e: Entries, root: Path, q: Path) {
    && ResistsUnder(e, root, q)
    && (forall a :: ResistsUnder(e, root, a) && Above(a, q) ==> !Opaque(e[a]))
    && (Opaque(e[q]) || forall d :: ResistsUnder(e, root, d) ==> !Above(q, d))
  }

  ghost function Gone(e: Entries, root: Path): set<Path> {
    set p | p in e && AtOrAbove(root, p) && !Stays(e, root, p)
  }

  ghost function Failures(e: Entries, root: Path): set<Path> {
    set q | q in e && Reported(e, root, q)
  }

  /** The slices of the two sets that lie below the named children of `root`. */
  ghost function GoneBelow(e: Entries, root: Path, names: seq<Name>): set<Path> {
    set p | p in Gone(e, root) && |p| > |root| && p[|root|] in names
  }

  ghost function FailuresBelow(e: Entries, root: Path, names: seq<Name>): set<Path> {
    set q | q in Failures(e, root) && |q| > |root| && q[|root|] in names
  }

  function Elements<T>(s: seq<T>): set<T> {
    set x | x in s
  }

  /** From a count `n` and reports `s` to `m` and `t`: exactly `gone` were removed and
      exactly `failed` reported, once each. */
  ghost predicate Grown(n: nat, s: seq<Path>, m: nat, t: seq<Path>, gone: set<Path>, failed: set<Path>) {
    && m == n + |gone|
    && s <= t && Distinct(t[|s|..]) && Elements(t[|s|..]) == failed
  }

  lemma DistinctConcat<T>(a: seq<T>, b: seq<T>)
    requires Distinct(a) && Distinct(b) && Elements(a) !! Elements(b)
    ensures Distinct(a + b) && Elements(a + b) == Elements(a) + Elements(b)
  {
    forall i, j | 0 <= i < j < |a + b|
      ensures (a + b)[i] != (a + b)[j]
    {
      if i < |a| <= j {
        assert a[i] in Elements(a) && b[j - |a|] in Elements(b);
      }
    }
    forall x
      ensures x in Elements(a + b) <==> x in Elements(a) + Elements(b)
    {
      if x in b {
        var i :| 0 <= i < |b| && b[i] == x;
        assert (a + b)[|a| + i] == x;
      }
    }
  }

  lemma {:induction false} DistinctCount<T>(s: seq<T>)
    requires Distinct(s)
    ensures |Elements(s)| == |s|
  {
    if s == [] {
    } else {
      var front, x := s[..|s| - 1], s[|s| - 1];
      DistinctCount(front);
      assert Elements(s) == Elements(front) + {x};
      assert x !in front;
    }
  }

  lemma GrownFurther(n: nat, s: seq<Path>, m: nat, t: seq<Path>, k: nat, u: seq<Path>,
                     gone: set<Path>, failed: set<Path>, more: set<Path>, moreFailed: set<Path>)
    requires Grown(n, s, m, t, gone, failed) && Grown(m, t, k, u, more, moreFailed)
    requires gone !! more && failed !! moreFailed
    ensures Grown(n, s, k, u, gone + more, failed + moreFailed)
  {
    DistinctConcat(t[|s|..], u[|t|..]);
    assert u[|s|..] == t[|s|..] + u[|t|..];
  }

  lemma NothingGrown(n: nat, s: seq<Path>)
    ensures Grown(n, s, n, s, {}, {})
  {
    assert s[|s|..] == [];
  }

  lemma GrownByOne(n: nat, s: seq<Path>, p: Path)
    ensures Grown(n, s, n + 1, s, {p}, {}) && Grown(n, s, n, s + [p], {}, {p})
  {
    assert s[|s|..] == [] && (s + [p])[|s|..] == [p];
  }

  lemma FailuresGrown(n: nat, s: seq<Path>, m: nat, t: seq<Path>, gone: set<Path>, failed: set<Path>)
    requires Grown(n, s, m, t, gone, failed)
    ensures |t| == |s| + |failed|
  {
    DistinctCount(t[|s|..]);
  }

  lemma GrownFromNothing(m: nat, t: seq<Path>, gone: set<Path>, failed: set<Path>)
    requires Grown(0, [], m, t, gone, failed)
    ensures m == |gone| && Distinct(t) && Elements(t) == failed && |t| == |failed|
  {
    assert t[0..] == t;
    DistinctCount(t);
  }

  class TreeRemoval {
    var removed: nat
    var failures: seq<Path>

    constructor ()
      ensures removed == 0 && failures == []
    {
      removed, failures := 0, [];
    }

    /** Counts a removal, reports a failure, ignores an entry that vanished. */
    method Note(p: Path, res: IoResult)
      modifies this
      ensures removed == old(removed) + (if res == Done then 1 else 0)
      ensures failures == old(failures) + (if res == Failed then [p] else [])
      ensures Recorded(this, old(removed), old(failures),
                       if res == Done then {p} else {}, if res == Failed then {p} else {})
    {
      GrownByOne(removed, failures, p);
      NothingGrown(removed, failures);
      if res == Done {
        removed := removed + 1;
      } else if res == Failed {
        failures := failures + [p];
      }
    }
  }

  lemma BetweenRootAndChild(root: Path, c: Name, q: Path, p: Path)
    requires AtOrAbove(root, q) && AtOrAbove(q, p) && AtOrAbove(root + [c], p)
    ensures q == root || AtOrAbove(root + [c], q)
  {
    if |q| > |root| {
      assert q[|root|] == p[|root|] == (root + [c])[|root|];
      forall i | 0 <= i < |root| + 1
        ensures q[i] == (root + [c])[i]
      {
        assert q[i] == p[i];
      }
    }
  }

  lemma BelowChild(root: Path, c: Name, p: Path)
    requires AtOrAbove(root, p)
    ensures |p| > |root| && p[|root|] == c <==> AtOrAbove(root + [c], p)
  {
    if AtOrAbove(root + [c], p) {
      assert p[|root|] == (root + [c])[|root|];
    }
  }

  /** What the child's own pass needs of the directory pass around it. */
  ghost predicate SameBelow(e: Entries, cur: Entries, k: Path) {
    && cur.Keys <= e.Keys
    && forall p | p in e && AtOrAbove(k, p) :: p in cur && cur[p] == e[p]
  }

  lemma ResistsSlice(e: Entries, root: Path, c: Name, cur: Entries, q: Path)
    requires root + [c] in e && !e[root + [c]].kind.File? && SameBelow(e, cur, root + [c])
    ensures ResistsUnder(cur, root + [c], q) <==> ResistsUnder(e, root, q) && AtOrAbove(root + [c], q)
  {
    assert AtOrAbove(root, root + [c]);
  }

  lemma StaysSlice(e: Entries, root: Path, c: Name, cur: Entries, p: Path)
    requires root in e && !Opaque(e[root])
    requires root + [c] in e && !e[root + [c]].kind.File? && SameBelow(e, cur, root + [c])
    requires p in e && AtOrAbove(root + [c], p)
    ensures Stays(cur, root + [c], p) <==> Stays(e, root, p)
  {
    var k := root + [c];
    if Stays(e, root, p) {
      var q :| ResistsUnder(e, root, q) && (AtOrAbove(p, q) || (Opaque(e[q]) && AtOrAbove(q, p)));
      if !AtOrAbove(p, q) {
        BetweenRootAndChild(root, c, q, p);
      }
      ResistsSlice(e, root, c, cur, q);
    }
    if Stays(cur, k, p) {
      var q :| ResistsUnder(cur, k, q) && (AtOrAbove(p, q) || (Opaque(cur[q]) && AtOrAbove(q, p)));
      ResistsSlice(e, root, c, cur, q);
    }
  }

  lemma ReportedSlice(e: Entries, root: Path, c: Name, cur: Entries, q: Path)
    requires root in e && !Opaque(e[root])
    requires root + [c] in e && !e[root + [c]].kind.File? && SameBelow(e, cur, root + [c])
    requires q in e && AtOrAbove(root + [c], q)
    ensures Reported(cur, root + [c], q) <==> Reported(e, root, q)
  {
    var k := root + [c];
    ResistsSlice(e, root, c, cur, q);
    forall a | ResistsUnder(e, root, a) && Above(a, q) && Opaque(e[a])
      ensures ResistsUnder(cur, k, a)
    {
      BetweenRootAndChild(root, c, a, q);
      ResistsSlice(e, root, c, cur, a);
    }
    forall a | ResistsUnder(cur, k, a)
      ensures ResistsUnder(e, root, a) && cur[a] == e[a]
    {
      ResistsSlice(e, root, c, cur, a);
    }
    forall d | ResistsUnder(e, root, d) && Above(q, d)
      ensures ResistsUnder(cur, k, d)
    {
      ResistsSlice(e, root, c, cur, d);
    }
  }

  /** The pass over a directory that can be listed does to a child directory or
      link exactly what a pass started at that child does. */
  lemma ChildSlice(e: Entries, root: Path, c: Name, cur: Entries)
    requires root in e && !Opaque(e[root])
    requires root + [c] in e && !e[root + [c]].kind.File? && SameBelow(e, cur, root + [c])
    ensures Gone(cur, root + [c]) == GoneBelow(e, root, [c])
    ensures Failures(cur, root + [c]) == FailuresBelow(e, root, [c])
  {
    var k := root + [c];
    forall p
      ensures p in Gone(cur, k) <==> p in GoneBelow(e, root, [c])
      ensures p in Failures(cur, k) <==> p in FailuresBelow(e, root, [c])
    {
      if p in e && AtOrAbove(root, p) {
        BelowChild(root, c, p);
        if AtOrAbove(k, p) {
          StaysSlice(e, root, c, cur, p);
          ReportedSlice(e, root, c, cur, p);
        }
      }
    }
  }

  lemma FileSlice(e: Entries, root: Path, c: Name)
    requires WellFormed(e) && root != [] && root in e && !Opaque(e[root])
    requires root + [c] in e && e[root + [c]].kind.File?
    ensures var k := root + [c];
      && GoneBelow(e, root, [c]) == (if Resists(e, root, k) then {} else {k})
      && FailuresBelow(e, root, [c]) == (if Resists(e, root, k) then {k} else {})
  {
    var k := root + [c];
    assert AtOrAbove(root, k);
    forall p | p in e && AtOrAbove(k, p)
      ensures p == k
    {
      if p != k {
        AncestorsAreDirectories(e, k, p);
      }
    }
    forall q | ResistsUnder(e, root, q) && Above(q, k) && Opaque(e[q])
      ensures false
    {
      BetweenRootAndChild(root, c, q, k);
    }
    if Resists(e, root, k) {
      assert ResistsUnder(e, root, k);
      assert Reported(e, root, k);
      assert Stays(e, root, k);
    } else if Stays(e, root, k) {
      var q :| ResistsUnder(e, root, q) && (AtOrAbove(k, q) || (Opaque(e[q]) && AtOrAbove(q, k)));
      assert false;
    }
    forall p
      ensures p in GoneBelow(e, root, [c]) <==> p == k && !Resists(e, root, k)
      ensures p in FailuresBelow(e, root, [c]) <==> p == k && Resists(e, root, k)
    {
      if p in e && AtOrAbove(root, p) {
        BelowChild(root, c, p);
      }
    }
  }

  ghost function Subtree(e: Entries, root: Path): set<Path> {
    set p | p in e && AtOrAbove(root, p)
  }

  lemma SmallerBelow(e: Entries, d: Path, c: Name)
    requires d in e
    ensures Subtree(e, d + [c]) < Subtree(e, d)
  {
    assert d in Subtree(e, d) && d !in Subtree(e, d + [c]);
    assert AtOrAbove(d, d + [c]);
  }

  lemma Comparable(a: Path, b: Path, p: Path)
    requires AtOrAbove(a, p) && AtOrAbove(b, p)
    ensures AtOrAbove(a, b) || Above(b, a)
  {
    forall i | 0 <= i < |a| && i < |b|
      ensures a[i] == b[i]
    {
      assert a[i] == p[i] && b[i] == p[i];
    }
  }

  lemma StrictOrEqual(a: Path, p: Path)
    requires AtOrAbove(a, p)
    ensures a == p || Above(a, p)
  {
    if |a| == |p| {
      assert a == p;
    }
  }

  /** Walking up from a resisting entry to the first directory that hides it. */
  lemma {:induction false} Topmost(e: Entries, root: Path, d: Path) returns (t: Path)
    requires ResistsUnder(e, root, d)
    ensures ResistsUnder(e, root, t) && AtOrAbove(t, d)
    ensures forall a :: ResistsUnder(e, root, a) && Above(a, t) ==> !Opaque(e[a])
    ensures t == d || Opaque(e[t])
    decreases |d|
  {
    t := d;
    if a :| ResistsUnder(e, root, a) && Above(a, d) && Opaque(e[a]) {
      t := Topmost(e, root, a);
    }
  }

  /** At or below a resisting entry that no unlistable directory hides, something
      is reported. */
  lemma {:induction false} SomeReported(e: Entries, root: Path, t: Path) returns (q: Path)
    requires ResistsUnder(e, root, t)
    requires forall a :: ResistsUnder(e, root, a) && Above(a, t) ==> !Opaque(e[a])
    ensures Reported(e, root, q) && AtOrAbove(t, q)
    decreases Subtree(e, t)
  {
    q := t;
    if !Reported(e, root, t) {
      var d :| ResistsUnder(e, root, d) && Above(t, d);
      var u := Topmost(e, root, d);
      Comparable(t, u, d);
      StrictOrEqual(t, u);
      assert t in Subtree(e, t) && t !in Subtree(e, u);
      q := SomeReported(e, root, u);
    }
  }

  /** What a pass leaves is explained by its reports: the failed entries, the
      directories above them, and what is inside failed directories that cannot be
      looked into. */
  lemma WhatRemains(e: Entries, root: Path, p: Path)
    requires p in e && AtOrAbove(root, p)
    ensures p !in Gone(e, root) <==>
      exists q :: q in Failures(e, root) && (AtOrAbove(p, q) || (Opaque(e[q]) && AtOrAbove(q, p)))
  {
    if p !in Gone(e, root) {
      var d :| ResistsUnder(e, root, d) && (AtOrAbove(p, d) || (Opaque(e[d]) && AtOrAbove(d, p)));
      var t := Topmost(e, root, d);
      if Opaque(e[t]) {
        assert Reported(e, root, t) && t in Failures(e, root);
        if AtOrAbove(p, d) {
          Comparable(p, t, d);
        }
      } else {
        assert t == d;
        var q := SomeReported(e, root, t);
        assert q in Failures(e, root) && AtOrAbove(p, q);
      }
    }
  }

  /** A pass that starts at an existing entry removes it exactly when it reports
      no failure, and that is when nothing at or below it resists. */
  lemma GoneIffNothingReported(e: Entries, root: Path)
    requires root in e
    ensures root in Gone(e, root) <==> Failures(e, root) == {}
    ensures root in Gone(e, root) <==> forall q | q in e && AtOrAbove(root, q) :: !Resists(e, root, q)
  {
    if d :| ResistsUnder(e, root, d) {
      assert Stays(e, root, root);
      var t := Topmost(e, root, d);
      var q := SomeReported(e, root, t);
      assert q in Failures(e, root);
    } else {
      assert !Stays(e, root, root);
      forall q | q in e && AtOrAbove(root, q)
        ensures !Resists(e, root, q)
      {
        assert !ResistsUnder(e, root, q);
      }
    }
  }

  /** One more child: the slices are disjoint and add up. */
  lemma NextChild(e: Entries, root: Path, names: seq<Name>, i: nat)
    requires i < |names| && Distinct(names)
    ensures GoneBelow(e, root, names[..i + 1]) == GoneBelow(e, root, names[..i]) + GoneBelow(e, root, [names[i]])
    ensures GoneBelow(e, root, names[..i]) !! GoneBelow(e, root, [names[i]])
    ensures FailuresBelow(e, root, names[..i + 1])
         == FailuresBelow(e, root, names[..i]) + FailuresBelow(e, root, [names[i]])
    ensures FailuresBelow(e, root, names[..i]) !! FailuresBelow(e, root, [names[i]])
  {
    assert names[..i + 1] == names[..i] + [names[i]];
    assert names[i] !in names[..i];
  }

  lemma BelowAChild(e: Entries, root: Path, names: seq<Name>, p: Path)
    requires WellFormed(e) && root != [] && p in e && Above(root, p)
    requires forall n | root + [n] in e :: n in names
    ensures p[|root|] in names
  {
    var k := root + [p[|root|]];
    BelowChild(root, p[|root|], p);
    if k != p {
      AncestorsAreDirectories(e, k, p);
    }
  }

  /** A directory that can be listed leaves its own failure aside when anything
      below it failed. */
  lemma FailureOfDirectory(e: Entries, root: Path)
    requires root in e && !Opaque(e[root])
    ensures root in Failures(e, root) <==> Failures(e, root) <= {root} && Resists(e, root, root)
    ensures Failures(e, root) <= {root} <==> forall q :: ResistsUnder(e, root, q) ==> !Above(root, q)
  {
    if d :| ResistsUnder(e, root, d) && Above(root, d) {
      var t := Topmost(e, root, d);
      var q := SomeReported(e, root, t);
      assert q in Failures(e, root);
      assert q != root;
    } else {
      forall q | q in Failures(e, root)
        ensures q == root
      {
        assert ResistsUnder(e, root, q);
      }
      if Resists(e, root, root) {
        assert ResistsUnder(e, root, root);
        assert Reported(e, root, root);
      }
    }
  }

  lemma EmptiedWhenNothingBelowFailed(e: Entries, root: Path, names: seq<Name>)
    requires WellFormed(e) && root != [] && root in e && !Opaque(e[root])
    requires forall n | root + [n] in e :: n in names
    ensures Failures(e, root) <= {root} <==> !HasEntries(e - GoneBelow(e, root, names), root)
  {
    FailureOfDirectory(e, root);
    var cur := e - GoneBelow(e, root, names);
    if d :| ResistsUnder(e, root, d) && Above(root, d) {
      assert Stays(e, root, d);
      assert d in cur;
    } else {
      forall p | p in e && Above(root, p)
        ensures p !in cur
      {
        BelowAChild(e, root, names, p);
        forall q | ResistsUnder(e, root, q)
          ensures q == root
        {
          StrictOrEqual(root, q);
        }
        assert !Stays(e, root, p);
      }
    }
  }

  lemma SlicesOfAllChildren(e: Entries, root: Path, names: seq<Name>)
    requires WellFormed(e) && root != []
    requires forall n | root + [n] in e :: n in names
    ensures GoneBelow(e, root, names) == Gone(e, root) - {root}
    ensures FailuresBelow(e, root, names) == Failures(e, root) - {root}
  {
    forall p | p in e && AtOrAbove(root, p) && p != root
      ensures |p| > |root| && p[|root|] in names
    {
      StrictOrEqual(root, p);
      BelowAChild(e, root, names, p);
    }
  }

  /** What is left to do once every child has been handled. */
  lemma AllChildren(e: Entries, root: Path, names: seq<Name>)
    requires WellFormed(e) && root != [] && root in e && !Opaque(e[root])
    requires forall n | root + [n] in e :: n in names
    ensures GoneBelow(e, root, names) == Gone(e, root) - {root}
    ensures FailuresBelow(e, root, names) == Failures(e, root) - {root}
    ensures root in Failures(e, root) <==> FailuresBelow(e, root, names) == {} && Resists(e, root, root)
    ensures root in Gone(e, root) <==> FailuresBelow(e, root, names) == {} && !Resists(e, root, root)
    ensures FailuresBelow(e, root, names) == {} <==> !HasEntries(e - GoneBelow(e, root, names), root)
  {
    SlicesOfAllChildren(e, root, names);
    FailureOfDirectory(e, root);
    var f, g := Failures(e, root), FailuresBelow(e, root, names);
    assert g == {} <==> f <= {root};
    EmptiedWhenNothingBelowFailed(e, root, names);
    RootVerdict(e, root);
  }

  lemma RootVerdict(e: Entries, root: Path)
    requires root in e && !Opaque(e[root])
    ensures root in Gone(e, root) <==> Failures(e, root) <= {root} && !Resists(e, root, root)
  {
    GoneIffNothingReported(e, root);
    FailureOfDirectory(e, root);
    if Failures(e, root) <= {root} && !Resists(e, root, root) {
      assert root !in Failures(e, root);
    }
  }

  lemma NothingAtMissingRoot(e: Entries, root: Path)
    requires WellFormed(e) && root != [] && root !in e
    ensures Subtree(e, root) == Gone(e, root) == Failures(e, root) == {}
  {
    forall p | p in e && AtOrAbove(root, p)
      ensures false
    {
      if p != root {
        AncestorsAreDirectories(e, root, p);
      }
    }
  }

  lemma OpaqueRoot(e: Entries, root: Path)
    requires root in e && Opaque(e[root])
    ensures Gone(e, root) == {} && Failures(e, root) == {root}
  {
    assert ResistsUnder(e, root, root);
    forall p | p in e && AtOrAbove(root, p)
      ensures Stays(e, root, p)
      ensures Reported(e, root, p) <==> p == root
    {
      StrictOrEqual(root, p);
    }
  }

  lemma LeafRoot(e: Entries, root: Path)
    requires WellFormed(e) && root in e && !e[root].kind.Directory?
    ensures Gone(e, root) == (if Resists(e, root, root) then {} else {root})
    ensures Failures(e, root) == (if Resists(e, root, root) then {root} else {})
  {
    forall p | p in e && AtOrAbove(root, p)
      ensures p == root
    {
      if p != root {
        StrictOrEqual(root, p);
        AncestorsAreDirectories(e, root, p);
      }
    }
    if Resists(e, root, root) {
      assert ResistsUnder(e, root, root);
      assert Reported(e, root, root);
    }
  }

  /** Removing what a pass has removed so far never orphans an entry. */
  lemma WellFormedBetweenChildren(e: Entries, root: Path, names: seq<Name>)
    requires WellFormed(e)
    ensures WellFormed(e - GoneBelow(e, root, names))
  {
    var cur := e - GoneBelow(e, root, names);
    forall p | p in cur && |p| > 1
      ensures Parent(p) in cur
    {
      if Parent(p) in GoneBelow(e, root, names) {
        if Stays(e, root, p) {
          StaysUpward(e, root, Parent(p), p);
        }
      }
    }
  }

  lemma StaysUpward(e: Entries, root: Path, a: Path, p: Path)
    requires AtOrAbove(root, a) && AtOrAbove(a, p) && Stays(e, root, p)
    ensures Stays(e, root, a)
  {
    var q :| ResistsUnder(e, root, q) && (AtOrAbove(p, q) || (Opaque(e[q]) && AtOrAbove(q, p)));
    if AtOrAbove(q, p) {
      Comparable(q, a, p);
    }
  }

  lemma WellFormedAfter(e: Entries, root: Path)
    requires WellFormed(e)
    ensures WellFormed(e - Gone(e, root))
  {
    forall p | p in e - Gone(e, root) && |p| > 1
      ensures Parent(p) in e - Gone(e, root)
    {
      if Parent(p) in Gone(e, root) && Stays(e, root, p) {
        StaysUpward(e, root, Parent(p), p);
      }
    }
  }

  lemma UntouchedChild(e: Entries, root: Path, names: seq<Name>, c: Name)
    requires c !in names
    ensures SameBelow(e, e - GoneBelow(e, root, names), root + [c])
  {
    forall p | p in e && AtOrAbove(root + [c], p)
      ensures p !in GoneBelow(e, root, names)
    {
      assert p[|root|] == (root + [c])[|root|];
    }
  }

  /** `out` has recorded exactly `gone` and `failed` since it held `removed` and
      `failures`. */
  ghost predicate Recorded(out: TreeRemoval, removed: nat, failures: seq<Path>, gone: set<Path>, failed: set<Path>)
    reads out
  {
    Grown(removed, failures, out.removed, out.failures, gone, failed)
  }

  /** Deletes what it can under `root`; one entry that cannot be deleted does
      not stop the rest. */
  method RemoveTreeBestEffort(vol: Volume, root: Path, out: TreeRemoval)
    requires vol.Valid() && Direct(vol.entries, root)
    modifies vol, out
    ensures vol.Valid()
    ensures vol.entries == old(vol.entries) - Gone(old(vol.entries), root)
    ensures Recorded(out, old(out.removed), old(out.failures),
                     Gone(old(vol.entries), root), Failures(old(vol.entries), root))
    decreases Subtree(vol.entries, root), 1
  {
    hide Grown, Gone, Failures, Subtree, Distinct;
    ghost var e := vol.entries;
    ResolveDirect(e, root);
    WellFormedAfter(e, root);
    var probe := ProbeAt(vol.entries, root);
    if probe == Found(Missing) {
      NothingAtMissingRoot(e, root);
      NothingGrown(out.removed, out.failures);
    } else if probe == AccessError {
      if e[root].kind.Directory? { OpaqueRoot(e, root); } else { LeafRoot(e, root); }
      out.Note(root, Failed);
    } else if probe.kind == ADirectory {
      RemoveDirectoryTree(vol, root, out);
    } else {
      LeafRoot(e, root);
      var kind := vol.entries[root].kind;
      var res;
      if kind.Reparse? && kind.directoryEntry {
        res := vol.RemoveDir(root);
      } else {
        res := vol.RemoveFile(root);
      }
      out.Note(root, res);
    }
  }

  /** `names` lists the children of the directory `root` of `e`. */
  ghost predicate Lists(e: Entries, root: Path, names: seq<Name>) {
    && WellFormed(e) && root != [] && root in e && e[root].kind.Directory? && !Opaque(e[root])
    && Distinct(names) && forall n :: n in names <==> root + [n] in e
  }

  /** The part of the pass that handles a directory whose stat succeeded. */
  method RemoveDirectoryTree(vol: Volume, root: Path, out: TreeRemoval)
    requires vol.Valid() && Direct(vol.entries, root)
    requires root in vol.entries && vol.entries[root].kind.Directory? && !vol.entries[root].denied
    modifies vol, out
    ensures vol.Valid()
    ensures vol.entries == old(vol.entries) - Gone(old(vol.entries), root)
    ensures Recorded(out, old(out.removed), old(out.failures),
                     Gone(old(vol.entries), root), Failures(old(vol.entries), root))
    decreases Subtree(vol.entries, root), 0
  {
    hide Grown, Gone, Failures, GoneBelow, FailuresBelow, Subtree, Distinct;
    ghost var e := vol.entries;
    ghost var f := out.failures;
    ResolveDirect(e, root);
    var failuresBefore := |out.failures|;
    var listing := ListingAt(vol.entries, vol.order, root);
    if listing == None {
      OpaqueRoot(e, root);
      out.Note(root, Failed);
      return;
    }
    var names := listing.value;
    assert Lists(e, root, names) by {
      PresentDistinct(e, root, vol.order(root));
    }
    NothingBelow(e, root);
    NothingGrown(out.removed, f);
    assert names[..0] == [];
    for i := 0 to |names|
      invariant vol.Valid() && vol.entries == e - GoneBelow(e, root, names[..i])
      invariant Recorded(out, old(out.removed), f,
                         GoneBelow(e, root, names[..i]), FailuresBelow(e, root, names[..i]))
    {
      ghost var mid, removed := out.failures, out.removed;
      RemoveChild(vol, root, names, i, out, e);
      assert Recorded(out, old(out.removed), f,
                      GoneBelow(e, root, names[..i + 1]), FailuresBelow(e, root, names[..i + 1])) by {
        NextChild(e, root, names, i);
        GrownFurther(old(out.removed), f, removed, mid, out.removed, out.failures,
                     GoneBelow(e, root, names[..i]), FailuresBelow(e, root, names[..i]),
                     GoneBelow(e, root, [names[i]]), FailuresBelow(e, root, [names[i]]));
      }
    }
    assert names[..|names|] == names;
    ghost var mid, removed := out.failures, out.removed;
    FailuresGrown(old(out.removed), f, removed, mid, GoneBelow(e, root, names), FailuresBelow(e, root, names));
    RemoveEmptied(vol, root, names, out, failuresBefore, e);
    assert Recorded(out, old(out.removed), f, Gone(e, root), Failures(e, root)) by {
      EmptiedSlices(e, root, names, vol.order);
      RootAside(e, Gone(e, root), GoneBelow(e, root, names), Failures(e, root), root);
      RootAside(e, Failures(e, root), FailuresBelow(e, root, names), {}, root);
      GrownFurther(old(out.removed), f, removed, mid, out.removed, out.failures,
                   GoneBelow(e, root, names), FailuresBelow(e, root, names),
                   Gone(e, root) * {root}, Failures(e, root) * {root});
    }
  }

  lemma NothingBelow(e: Entries, root: Path)
    ensures GoneBelow(e, root, []) == FailuresBelow(e, root, []) == {}
  {
  }

  lemma ChildReady(e: Entries, root: Path, names: seq<Name>, i: nat, order: Path -> seq<Name>)
    requires Lists(e, root, names) && i < |names| && Enumerates(order, e)
    ensures var cur, child := e - GoneBelow(e, root, names[..i]), root + [names[i]];
      && child in cur && Direct(cur, child) && Resolve(cur, child) == child
      && Subtree(cur, child) < Subtree(e, root)
      && cur - GoneBelow(e, root, [names[i]]) == e - GoneBelow(e, root, names[..i + 1])
    ensures WellFormed(e - GoneBelow(e, root, names[..i + 1]))
    ensures Enumerates(order, e - GoneBelow(e, root, names[..i + 1]))
  {
    var cur, child := e - GoneBelow(e, root, names[..i]), root + [names[i]];
    NextChild(e, root, names, i);
    assert names[i] !in names[..i];
    WellFormedBetweenChildren(e, root, names[..i]);
    WellFormedBetweenChildren(e, root, names[..i + 1]);
    EntryIsDirect(cur, child);
    ResolveDirect(cur, child);
    assert root in Subtree(e, root) && root !in Subtree(cur, child);
    forall p | p in Subtree(cur, child)
      ensures p in Subtree(e, root)
    {
      assert AtOrAbove(root, child) && AtOrAbove(child, p);
    }
  }

  lemma ChildVerdict(e: Entries, root: Path, names: seq<Name>, i: nat)
    requires Lists(e, root, names) && i < |names|
    ensures var cur, child := e - GoneBelow(e, root, names[..i]), root + [names[i]];
      var gone, failed := GoneBelow(e, root, [names[i]]), FailuresBelow(e, root, [names[i]]);
      && child in cur
      && (!cur[child].kind.File? ==> Gone(cur, child) == gone && Failures(cur, child) == failed)
      && (cur[child].kind.File? && FileDeletable(cur[child]) ==> gone == {child} && failed == {})
      && (cur[child].kind.File? && !FileDeletable(cur[child]) ==> gone == {} && failed == {child})
  {
    var cur, child := e - GoneBelow(e, root, names[..i]), root + [names[i]];
    assert names[i] !in names[..i];
    UntouchedChild(e, root, names[..i], names[i]);
    assert AtOrAbove(child, child);
    if e[child].kind.File? {
      FileSlice(e, root, names[i]);
    } else {
      ChildSlice(e, root, names[i], cur);
    }
  }

  /** One round of the loop over the children of `root`. */
  method RemoveChild(vol: Volume, root: Path, names: seq<Name>, i: nat, out: TreeRemoval, ghost e: Entries)
    requires Lists(e, root, names) && i < |names| && Enumerates(vol.order, e)
    requires vol.Valid() && vol.entries == e - GoneBelow(e, root, names[..i])
    modifies vol, out
    ensures vol.Valid() && vol.entries == e - GoneBelow(e, root, names[..i + 1])
    ensures Recorded(out, old(out.removed), old(out.failures),
                     GoneBelow(e, root, [names[i]]), FailuresBelow(e, root, [names[i]]))
    decreases Subtree(e, root), 0, 0
  {
    hide Grown, Gone, Failures, GoneBelow, FailuresBelow, Subtree, Distinct;
    var child := root + [names[i]];
    ChildReady(e, root, names, i, vol.order);
    ChildVerdict(e, root, names, i);
    if !vol.entries[child].kind.File? {
      RemoveTreeBestEffort(vol, child, out);
    } else {
      var res := vol.RemoveFile(child);
      out.Note(child, res);
    }
  }

  lemma RootAside(e: Entries, g: set<Path>, below: set<Path>, f: set<Path>, root: Path)
    requires below == g - {root}
    ensures root in g ==> (e - below) - {root} == e - g && g * {root} == {root}
    ensures root !in g ==> e - below == e - g && g * {root} == {}
    ensures f * {root} == if root in f then {root} else {}
    ensures g == below + g * {root} && below !! g * {root}
  {
  }

  lemma EmptiedOutcome(e: Entries, root: Path, names: seq<Name>)
    requires Lists(e, root, names)
    ensures var cur := e - GoneBelow(e, root, names);
      && WellFormed(cur) && root in cur && Resolve(cur, root) == root
      && (DirDeletable(cur, root) <==> root in Gone(e, root))
    ensures root in Failures(e, root) <==> root !in Gone(e, root) && FailuresBelow(e, root, names) == {}
  {
    AllChildren(e, root, names);
    WellFormedBetweenChildren(e, root, names);
    var cur := e - GoneBelow(e, root, names);
    EntryIsDirect(cur, root);
    ResolveDirect(cur, root);
  }

  lemma EmptiedSlices(e: Entries, root: Path, names: seq<Name>, order: Path -> seq<Name>)
    requires Lists(e, root, names) && Enumerates(order, e)
    ensures GoneBelow(e, root, names) == Gone(e, root) - {root}
    ensures FailuresBelow(e, root, names) == Failures(e, root) - {root}
    ensures WellFormed(e - Gone(e, root)) && Enumerates(order, e - Gone(e, root))
  {
    SlicesOfAllChildren(e, root, names);
    WellFormedAfter(e, root);
  }

  /** The directory itself, once its children have been handled. */
  method RemoveEmptied(vol: Volume, root: Path, names: seq<Name>, out: TreeRemoval, failuresBefore: nat,
                       ghost e: Entries)
    requires Lists(e, root, names)
    requires vol.entries == e - GoneBelow(e, root, names) && Enumerates(vol.order, e)
    requires |out.failures| == failuresBefore + |FailuresBelow(e, root, names)|
    modifies vol, out
    ensures vol.Valid() && vol.entries == e - Gone(e, root)
    ensures Recorded(out, old(out.removed), old(out.failures),
                     Gone(e, root) * {root}, Failures(e, root) * {root})
  {
    hide Grown, Gone, Failures, GoneBelow, FailuresBelow, DirDeletable, Distinct;
    ghost var g, f := Gone(e, root), Failures(e, root);
    NothingGrown(out.removed, out.failures);
    assert Resolve(vol.entries, root) == root && root in vol.entries by {
      EmptiedOutcome(e, root, names);
    }
    var res := vol.RemoveDir(root);
    assert (res == if root in g then Done else Failed) && vol.entries == e - g && vol.Valid() by {
      EmptiedSlices(e, root, names, vol.order);
      EmptiedOutcome(e, root, names);
      RootAside(e, g, GoneBelow(e, root, names), f, root);
    }
    assert root in f <==> root !in g && |out.failures| == failuresBefore by {
      EmptiedOutcome(e, root, names);
    }
    RootAside(e, g, g - {root}, f, root);
    if res != Failed || |out.failures| == failuresBefore {
      out.Note(root, res);
    }
  }
}

/** What the traversal sequence guarantees: every reachable entry once, every
    entry before the directory it is in. */
module WalkOrder {
  import opened Basics
  import opened FileSystem
  import opened Removal
  import opened RunState
  import opened Postorder

  function EventPath(v: Event): Path {
    if v.Act? then v.record.path else v.path
  }

  function PathSet(s: seq<Event>): set<Path> {
    set v | v in s :: EventPath(v)
  }

  /** Nothing comes before an entry it contains, and nothing comes twice. */
  ghost predicate ChildrenFirst(s: seq<Event>) {
    forall i, j | 0 <= i < j < |s| :: !AtOrAbove(EventPath(s[i]), EventPath(s[j]))
  }

  /** `p` is `d`, or below it with no unlistable directory in between. */
  ghost predicate InWalk(e: Entries, d: Path, p: Path) {
    p == d || (p in e && Above(d, p) && forall a | a in e && AtOrAbove(d, a) && Above(a, p) :: !e[a].unreadable)
  }

  lemma PathSetConcat(a: seq<Event>, b: seq<Event>)
    ensures PathSet(a + b) == PathSet(a) + PathSet(b)
  {
    forall p
      ensures p in PathSet(a + b) <==> p in PathSet(a) + PathSet(b)
    {
      if p in PathSet(a) + PathSet(b) {
        if v :| v in a && EventPath(v) == p {
          assert v in a + b;
        } else {
          var v :| v in b && EventPath(v) == p;
          assert v in a + b;
        }
      }
    }
  }

  lemma PathSetOne(p: Path, kind: PathKind)
    ensures PathSet([Visit(p, kind)]) == {p} && ChildrenFirst([Visit(p, kind)])
  {
    assert Visit(p, kind) in [Visit(p, kind)];
  }

  lemma NothingVisited()
    ensures PathSet([]) == {} && ChildrenFirst([])
  {
  }

  lemma ChildrenFirstConcat(a: seq<Event>, b: seq<Event>)
    requires ChildrenFirst(a) && ChildrenFirst(b)
    requires forall x, y | x in PathSet(a) && y in PathSet(b) :: !AtOrAbove(x, y)
    ensures ChildrenFirst(a + b)
  {
    forall i, j | 0 <= i < j < |a + b|
      ensures !AtOrAbove(EventPath((a + b)[i]), EventPath((a + b)[j]))
    {
      if i < |a| <= j {
        assert a[i] in a && b[j - |a|] in b;
        assert EventPath(a[i]) in PathSet(a) && EventPath(b[j - |a|]) in PathSet(b);
      }
    }
  }

  /** Below a directory that can be listed, the walk of `d` is made of its
      children and the walks of its subdirectories. */
  lemma InWalkOfChild(e: Entries, d: Path, p: Path)
    requires WellFormed(e) && d != [] && Listable(e, d) && p in e && Above(d, p)
    ensures var k := d + [p[|d|]];
      && k in e && AtOrAbove(k, p)
      && (InWalk(e, d, p) <==> p == k || (e[k].kind.Directory? && InWalk(e, k, p)))
  {
    var k := d + [p[|d|]];
    BelowChild(d, p[|d|], p);
    if p != k {
      StrictOrEqual(k, p);
      AncestorsAreDirectories(e, k, p);
      forall a | a in e && AtOrAbove(d, a) && Above(a, p) && e[a].unreadable
        ensures AtOrAbove(k, a)
      {
        BetweenRootAndChild(d, p[|d|], a, p);
      }
      assert AtOrAbove(d, k);
    } else {
      forall a | a in e && AtOrAbove(d, a) && Above(a, p)
        ensures a == d
      {
        StrictOrEqual(d, a);
      }
    }
  }

  ghost predicate LeafOf(e: Entries, d: Path, names: seq<Name>, p: Path) {
    p in e && Above(d, p) && p[|d|] in names && p == d + [p[|d|]] && !e[p].kind.Directory?
  }

  ghost predicate BranchOf(e: Entries, d: Path, names: seq<Name>, p: Path) {
    Above(d, p) && p[|d|] in names
    && var k := d + [p[|d|]]; k in e && e[k].kind.Directory? && AtOrAbove(k, p) && InWalk(e, k, p)
  }

  lemma {:induction false} LeavesFacts(e: Entries, d: Path, names: seq<Name>)
    requires Distinct(names)
    ensures ChildrenFirst(Leaves(e, d, names))
    ensures forall p :: p in PathSet(Leaves(e, d, names)) <==> LeafOf(e, d, names, p)
  {
    hide PathSet, ChildrenFirst;
    NothingVisited();
    if names == [] {
    } else {
      var front, c := names[..|names| - 1], names[|names| - 1];
      LeavesFacts(e, d, front);
      var last := if d + [c] in e && !e[d + [c]].kind.Directory? then [Visit(d + [c], KindOf(e[d + [c]]))] else [];
      assert names == front + [c] && c !in front;
      PathSetConcat(Leaves(e, d, front), last);
      if last != [] {
        PathSetOne(d + [c], KindOf(e[d + [c]]));
      }
      ChildrenFirstConcat(Leaves(e, d, front), last);
    }
  }

  /** A link or a file is visited as one; a directory as such, or as missing when it
      cannot be examined or is not there. */
  predicate KindFits(e: Entries, v: Event) {
    v.Visit? && v.kind ==
      if v.path !in e then Missing
      else match e[v.path].kind
        case File => AFile
        case Reparse(_, _) => AReparse
        case Directory => if e[v.path].denied then Missing else ADirectory
  }

  lemma {:induction false} LeavesFit(e: Entries, d: Path, names: seq<Name>)
    ensures forall v | v in Leaves(e, d, names) :: KindFits(e, v)
  {
    if names == [] {
    } else {
      LeavesFit(e, d, names[..|names| - 1]);
    }
  }

  lemma {:induction false} BranchesFit(e: Entries, order: Path -> seq<Name>, d: Path, names: seq<Name>)
    requires d in e
    ensures forall v | v in Branches(e, order, d, names) :: KindFits(e, v)
    decreases Subtree(e, d), 0, |names|
  {
    hide KindFits;
    if names == [] {
    } else {
      var front, c := names[..|names| - 1], names[|names| - 1];
      BranchesFit(e, order, d, front);
      if d + [c] in e && e[d + [c]].kind.Directory? {
        SmallerBelow(e, d, c);
        WalkFits(e, order, d + [c]);
      }
    }
  }

  /** With what kind each entry is visited. */
  lemma {:induction false} WalkFits(e: Entries, order: Path -> seq<Name>, d: Path)
    requires d in e ==> e[d].kind.Directory?
    ensures forall v | v in Walk(e, order, d) :: KindFits(e, v)
    decreases Subtree(e, d), 1, 0
  {
    if Listable(e, d) {
      LeavesFit(e, d, Children(e, order, d));
      BranchesFit(e, order, d, Children(e, order, d));
    }
  }

  predicate IsBranch(e: Entries, d: Path, c: Name) {
    d + [c] in e && e[d + [c]].kind.Directory?
  }

  /** What one name contributes to the branches. */
  ghost function Branch(e: Entries, order: Path -> seq<Name>, d: Path, c: Name): seq<Event> {
    if IsBranch(e, d, c) then Walk(e, order, d + [c]) else []
  }

  lemma BranchFacts(e: Entries, order: Path -> seq<Name>, d: Path, c: Name)
    requires IsBranch(e, d, c) ==> ChildrenFirst(Walk(e, order, d + [c]))
    requires IsBranch(e, d, c) ==> forall p :: p in PathSet(Walk(e, order, d + [c])) <==> InWalk(e, d + [c], p)
    ensures ChildrenFirst(Branch(e, order, d, c))
    ensures forall p :: p in PathSet(Branch(e, order, d, c)) <==> BranchOf(e, d, [c], p)
  {
    hide Walk, PathSet, ChildrenFirst;
    NothingVisited();
    var k := d + [c];
    forall p
      ensures p in PathSet(Branch(e, order, d, c)) <==> BranchOf(e, d, [c], p)
    {
      if p in PathSet(Branch(e, order, d, c)) {
        assert AtOrAbove(d, k) && AtOrAbove(k, p);
        assert p[|d|] == k[|d|];
      }
    }
  }

  lemma BranchOfMore(e: Entries, d: Path, front: seq<Name>, c: Name, p: Path)
    ensures BranchOf(e, d, front + [c], p) <==> BranchOf(e, d, front, p) || BranchOf(e, d, [c], p)
  {
  }

  lemma {:induction false} WalkFacts(e: Entries, order: Path -> seq<Name>, d: Path)
    requires WellFormed(e) && Enumerates(order, e) && d != [] && (d in e ==> e[d].kind.Directory?)
    ensures ChildrenFirst(Walk(e, order, d))
    ensures forall p :: p in PathSet(Walk(e, order, d)) <==> InWalk(e, d, p)
    decreases Subtree(e, d), 1, 0
  {
    var last := [Visit(d, EmitKind(e, d))];
    assert PathSet(last) == {d} by {
      assert last[0] in last;
    }
    if !Listable(e, d) {
      NotListable(e, d);
      assert Walk(e, order, d) == last;
    } else {
      var names := Children(e, order, d);
      PresentDistinct(e, d, order(d));
      LeavesFacts(e, d, names);
      BranchesFacts(e, order, d, names);
      Together(e, d, names, Leaves(e, d, names), Branches(e, order, d, names), last);
    }
  }

  lemma NotListable(e: Entries, d: Path)
    requires WellFormed(e) && d != [] && (d in e ==> e[d].kind.Directory?) && !Listable(e, d)
    ensures forall p :: InWalk(e, d, p) <==> p == d
  {
    forall p | InWalk(e, d, p)
      ensures p == d
    {
      if p != d {
        AncestorsAreDirectories(e, d, p);
      }
    }
  }

  lemma Together(e: Entries, d: Path, names: seq<Name>, leaves: seq<Event>, branches: seq<Event>, last: seq<Event>)
    requires WellFormed(e) && d != [] && Listable(e, d) && forall n | d + [n] in e :: n in names
    requires ChildrenFirst(leaves) && forall p :: p in PathSet(leaves) <==> LeafOf(e, d, names, p)
    requires ChildrenFirst(branches) && forall p :: p in PathSet(branches) <==> BranchOf(e, d, names, p)
    requires |last| == 1 && PathSet(last) == {d}
    ensures ChildrenFirst(leaves + branches + last)
    ensures forall p :: p in PathSet(leaves + branches + last) <==> InWalk(e, d, p)
  {
    ChildrenFirstConcat(leaves, branches);
    PathSetConcat(leaves, branches);
    ChildrenFirstConcat(leaves + branches, last);
    PathSetConcat(leaves + branches, last);
    forall p
      ensures LeafOf(e, d, names, p) || BranchOf(e, d, names, p) || p == d <==> InWalk(e, d, p)
    {
      if p in e && Above(d, p) {
        InWalkOfChild(e, d, p);
      }
    }
  }

  lemma {:induction false} BranchesFacts(e: Entries, order: Path -> seq<Name>, d: Path, names: seq<Name>)
    requires WellFormed(e) && Enumerates(order, e) && d != [] && d in e && Distinct(names)
    ensures ChildrenFirst(Branches(e, order, d, names))
    ensures forall p :: p in PathSet(Branches(e, order, d, names)) <==> BranchOf(e, d, names, p)
    decreases Subtree(e, d), 0, |names|
  {
    hide PathSet, ChildrenFirst, Enumerates, InWalk, Walk, Branches, BranchOf;
    BranchesUnfold(e, order, d, names);
    if names == [] {
      NothingVisited();
      NothingBranches(e, d);
    } else {
      var front, c := names[..|names| - 1], names[|names| - 1];
      assert names == front + [c] && c !in front && Distinct(front);
      BranchesFacts(e, order, d, front);
      SmallerBelow(e, d, c);
      if IsBranch(e, d, c) {
        WalkFacts(e, order, d + [c]);
      }
      BranchFacts(e, order, d, c);
      BranchFirst(e, d, front, c, Branch(e, order, d, c), Branches(e, order, d, front));
    }
  }

  lemma NothingBranches(e: Entries, d: Path)
    ensures forall p :: !BranchOf(e, d, [], p)
  {
  }

  lemma BranchesUnfold(e: Entries, order: Path -> seq<Name>, d: Path, names: seq<Name>)
    requires d in e
    ensures names == [] ==> Branches(e, order, d, names) == []
    ensures names != [] ==> var front := names[..|names| - 1];
      Branches(e, order, d, names) == Branch(e, order, d, names[|names| - 1]) + Branches(e, order, d, front)
  {
    hide Walk;
  }

  /** The walk of one more subdirectory, put in front of the others. */
  lemma BranchFirst(e: Entries, d: Path, front: seq<Name>, c: Name, first: seq<Event>, others: seq<Event>)
    requires c !in front && ChildrenFirst(first) && ChildrenFirst(others)
    requires forall p :: p in PathSet(first) <==> BranchOf(e, d, [c], p)
    requires forall p :: p in PathSet(others) <==> BranchOf(e, d, front, p)
    ensures ChildrenFirst(first + others)
    ensures forall p :: p in PathSet(first + others) <==> BranchOf(e, d, front + [c], p)
  {
    PathSetConcat(first, others);
    ChildrenFirstConcat(first, others);
    forall p
      ensures BranchOf(e, d, front + [c], p) <==> BranchOf(e, d, front, p) || BranchOf(e, d, [c], p)
    {
      BranchOfMore(e, d, front, c, p);
    }
  }
}

/** Removal now and deletion at restart together: when a candidate is gone for
    good, and what the record of pending deletions says about it. */
module Leftovers {
  import opened Basics
  import opened FileSystem
  import opened Removal
  import opened Retry
  import opened RunState
  import opened Postorder
  import opened WalkOrder
  import opened Restart
  import opened Deletion
  import opened Matching

  ghost predicate AllVisits(s: seq<Event>) {
    forall v | v in s :: v.Visit?
  }

  lemma {:induction false} LeavesAreVisits(e: Entries, d: Path, names: seq<Name>)
    ensures AllVisits(Leaves(e, d, names))
  {
    if names == [] {
    } else {
      LeavesAreVisits(e, d, names[..|names| - 1]);
    }
  }

  lemma {:induction false} WalkIsVisits(e: Entries, order: Path -> seq<Name>, d: Path)
    ensures AllVisits(Walk(e, order, d))
    decreases Subtree(e, d), 1, 0
  {
    if !Listable(e, d) {
    } else {
      LeavesAreVisits(e, d, Children(e, order, d));
      BranchesAreVisits(e, order, d, Children(e, order, d));
    }
  }

  lemma {:induction false} BranchesAreVisits(e: Entries, order: Path -> seq<Name>, d: Path, names: seq<Name>)
    requires d in e
    ensures AllVisits(Branches(e, order, d, names))
    decreases Subtree(e, d), 0, |names|
  {
    if names == [] {
    } else {
      var c := names[|names| - 1];
      SmallerBelow(e, d, c);
      BranchesAreVisits(e, order, d, names[..|names| - 1]);
      WalkIsVisits(e, order, d + [c]);
    }
  }

  /** The traversal from `root` reaches `p`. */
  ghost predicate Reached(e: Entries, root: Path, p: Path) {
    p == root || (InWalk(e, root, p) && !(root in e && e[root].denied))
  }

  /** Every reachable entry is visited exactly once, each before the directory it
      is in, `root` last; nothing else is visited. */
  lemma WalkFromFacts(e: Entries, order: Path -> seq<Name>, root: Path)
    requires WellFormed(e) && Enumerates(order, e) && Direct(e, root)
    ensures var s := WalkFrom(e, order, root);
      && ChildrenFirst(s) && AllVisits(s)
      && (forall p :: p in PathSet(s) <==> Reached(e, root, p))
      && s != [] && s[|s| - 1].path == root
  {
    ResolveDirect(e, root);
    if root in e && (e[root].denied || !e[root].kind.Directory?) {
      OneVisit(e, order, root);
      var k :| WalkFrom(e, order, root) == [Visit(root, k)];
      PathSetOne(root, k);
    } else {
      assert WalkFrom(e, order, root) == Walk(e, order, root);
      WalkEnds(e, order, root);
      WalkFacts(e, order, root);
      WalkIsVisits(e, order, root);
    }
  }

  lemma WalkEnds(e: Entries, order: Path -> seq<Name>, d: Path)
    ensures var s := Walk(e, order, d); s != [] && s[|s| - 1].Visit? && s[|s| - 1].path == d
  {
  }

  lemma OneVisit(e: Entries, order: Path -> seq<Name>, root: Path)
    requires WellFormed(e) && Direct(e, root) && Resolve(e, root) == root
    requires root in e && (e[root].denied || !e[root].kind.Directory?)
    ensures exists k :: WalkFrom(e, order, root) == [Visit(root, k)]
    ensures forall p :: Reached(e, root, p) <==> p == root
  {
    hide Walk, Resolve, Direct;
    assert WalkFrom(e, order, root) == [Visit(root, if e[root].denied then Missing else KindOf(e[root]))];
    forall p | p in e && Above(root, p)
      ensures e[root].denied
    {
      AncestorsAreDirectories(e, root, p);
    }
  }

  lemma {:induction false} QueueOfConcat(run: Run, a: seq<Event>, b: seq<Event>)
    ensures run.QueueOf(a + b) == run.QueueOf(a) + run.QueueOf(b)
  {
    if b == [] {
      assert a + b == a;
    } else {
      var front, last := b[..|b| - 1], b[|b| - 1];
      QueueOfConcat(run, a, front);
      var more := if last.Visit? && run.Accepted(last.path) then [last.path] else [];
      assert run.QueueOf(b) == run.QueueOf(front) + more;
      assert run.QueueOf(a + b) == run.QueueOf(a + front) + more by {
        assert (a + b)[..|a + b| - 1] == a + front && (a + b)[|a + b| - 1] == last;
      }
      Assoc(run.QueueOf(a), run.QueueOf(front), more);
    }
  }

  /** After the restart an entry of a traversed tree is there exactly when
      something at or below it was not reached or not accepted. */
  lemma RestartAfterTraversal(run: Run, e: Entries, order: Path -> seq<Name>, root: Path)
    requires WellFormed(e) && Enumerates(order, e) && Direct(e, root)
    ensures var q := run.QueueOf(WalkFrom(e, order, root));
      && (forall p :: p in AfterRestart(e, q) <==>
           p in e && exists d :: d in e && AtOrAbove(p, d) && !(Reached(e, root, d) && run.Accepted(d)))
      && forall p | p in AfterRestart(e, q) :: AfterRestart(e, q)[p] == e[p]
  {
    var s := WalkFrom(e, order, root);
    var q := run.QueueOf(s);
    WalkFromFacts(e, order, root);
    QueueFacts(run, s);
    forall p | p in q
      ensures Direct(e, p)
    {
      assert Reached(e, root, p);
      if p != root {
        EntryIsDirect(e, p);
      }
    }
    RestartExact(e, q);
    forall p | p in e
      ensures Kept(e, q, p) <==> exists d :: d in e && AtOrAbove(p, d) && !(Reached(e, root, d) && run.Accepted(d))
    {
      forall d | d in e
        ensures d in q <==> Reached(e, root, d) && run.Accepted(d)
      {
      }
    }
  }

  /** Nothing of the tree is inside a directory the traversal cannot look into. */
  ghost predicate FullyReached(e: Entries, root: Path) {
    forall d | d in e && AtOrAbove(root, d) :: Reached(e, root, d)
  }

  /** Every entry of the tree was reached and its deletion accepted. */
  ghost predicate AllQueued(run: Run, e: Entries, root: Path) {
    FullyReached(e, root) && forall d | d in Subtree(e, root) :: run.Accepted(d)
  }

  lemma ReachedIsBelow(e: Entries, root: Path, p: Path)
    requires Reached(e, root, p)
    ensures AtOrAbove(root, p)
  {
  }

  /** The tree is gone after the restart, and nothing else is, exactly when every
      entry of it was reached and its deletion accepted. */
  lemma GoneForGood(run: Run, e: Entries, order: Path -> seq<Name>, root: Path)
    requires WellFormed(e) && Enumerates(order, e) && Direct(e, root)
    ensures var after := AfterRestart(e, run.QueueOf(WalkFrom(e, order, root)));
      && after.Keys >= e.Keys - Subtree(e, root)
      && (after.Keys == e.Keys - Subtree(e, root) <==> AllQueued(run, e, root))
  {
    hide WalkFrom, AfterRestart, Run.QueueOf, Reached, Direct, WellFormed, Enumerates;
    RestartAfterTraversal(run, e, order, root);
    var after := AfterRestart(e, run.QueueOf(WalkFrom(e, order, root)));
    forall p | p in e && !AtOrAbove(root, p)
      ensures p in after
    {
      assert AtOrAbove(p, p) && !Reached(e, root, p) by {
        if Reached(e, root, p) {
          ReachedIsBelow(e, root, p);
        }
      }
    }
    if after.Keys == e.Keys - Subtree(e, root) {
      forall d | d in e && AtOrAbove(root, d)
        ensures Reached(e, root, d) && run.Accepted(d)
      {
        assert d in Subtree(e, root) && d !in after;
        assert AtOrAbove(d, d);
      }
    } else {
      var p :| p in after && p in Subtree(e, root);
      var d :| d in e && AtOrAbove(p, d) && !(Reached(e, root, d) && run.Accepted(d));
      assert AtOrAbove(root, d);
    }
  }

  /** The root, unless it is all there is, can be examined, and every directory that
      holds something can be listed. */
  ghost predicate OpenTree(e: Entries, root: Path) {
    forall d | d in e && AtOrAbove(root, d) && HasEntries(e, d) :: !e[d].unreadable && (d == root ==> !e[d].denied)
  }

  /** Those are exactly the trees that are reached to the last entry. */
  lemma OpenIsReached(e: Entries, root: Path)
    requires WellFormed(e) && root != []
    ensures FullyReached(e, root) <==> OpenTree(e, root)
  {
    if OpenTree(e, root) {
      forall d | d in e && AtOrAbove(root, d)
        ensures Reached(e, root, d)
      {
        assert forall a | a in e && AtOrAbove(root, a) && Above(a, d) :: HasEntries(e, a);
        StrictOrEqual(root, d);
      }
    } else {
      var d :| d in e && AtOrAbove(root, d) && HasEntries(e, d) && (e[d].unreadable || (d == root && e[d].denied));
      var b :| b in e && Above(d, b);
      assert AtOrAbove(root, b) && b != root && !Reached(e, root, b);
    }
  }

  /** Removal, queueing and restart compose: of a handled candidate nothing is left
      after the restart, and everything else is, exactly when all that the removal
      left of it was reached and accepted. */
  lemma HandledCandidateIsGone(run: Run, e: Entries, after: Entries, order: Path -> seq<Name>,
                               h: seq<Event>, h': seq<Event>, c: Candidate, o: Options, acts: seq<Event>)
    requires WellFormed(after) && Enumerates(order, after) && Direct(after, c.path)
    requires Ended(e, after, order, h, h', c, o, acts, QueuedForRestart(true))
    ensures run.QueueOf(h') == run.QueueOf(h) + run.QueueOf(WalkFrom(after, order, c.path))
    ensures AfterRestart(after, run.QueueOf(WalkFrom(after, order, c.path))).Keys == e.Keys - Subtree(e, c.path)
       <==> AllQueued(run, after, c.path)
  {
    NewQueue(run, h, acts, WalkFrom(after, order, c.path));
    GoneForGood(run, after, order, c.path);
    GoneNowIsBelow(e, c);
    SameOutside(e, after, c.path, GoneNow(e, c));
  }

  lemma NewQueue(run: Run, h: seq<Event>, acts: seq<Event>, s: seq<Event>)
    requires forall a | a in acts :: a.Act?
    ensures run.QueueOf(h + acts + s) == run.QueueOf(h) + run.QueueOf(s)
  {
    QueueOfConcat(run, h, acts);
    RecordsQueueNothing(run, acts);
    assert run.QueueOf(h) + [] == run.QueueOf(h);
    QueueOfConcat(run, h + acts, s);
  }

  lemma SameOutside(e: Entries, after: Entries, root: Path, gone: set<Path>)
    requires RemovedAt(e, after, root, gone) && gone <= Subtree(e, root)
    ensures e.Keys - Subtree(e, root) == after.Keys - Subtree(after, root)
  {
  }

  lemma {:induction false} RecordsQueueNothing(run: Run, acts: seq<Event>)
    requires forall a | a in acts :: a.Act?
    ensures run.QueueOf(acts) == []
  {
    if acts == [] {
    } else {
      var front := acts[..|acts| - 1];
      RecordsQueueNothing(run, front);
      assert run.QueueOf(front) + [] == [];
      assert acts[|acts| - 1] in acts;
    }
  }

  lemma GoneNowIsBelow(e: Entries, c: Candidate)
    ensures GoneNow(e, c) <= Subtree(e, c.path)
  {
    assert Softened(e, c.path).Keys == e.Keys;
  }
}

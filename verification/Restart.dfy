/** What the queued deletions do when Windows restarts, and why the order in which
    the traversal queues them matters. */
module Restart {
  import opened FileSystem
  import opened Removal
  import opened RunState
  import opened WalkOrder

  /** One queued deletion at restart, when nothing is locked any more: files,
      links and empty directories go, anything else stays. */
  function BootDelete(e: Entries, p: Path): Entries {
    var q := Resolve(e, p);
    if q in e && !HasEntries(e, q) then e - {q} else e
  }

  function AfterRestart(e: Entries, queue: seq<Path>): Entries {
    if queue == [] then e else AfterRestart(BootDelete(e, queue[0]), queue[1..])
  }

  /** No path of the queue comes before one it contains. */
  ghost predicate ChildrenQueuedFirst(queue: seq<Path>) {
    forall i, j | 0 <= i < j < |queue| :: !AtOrAbove(queue[i], queue[j])
  }

  /** Something at or below `p` exists and is not queued. */
  ghost predicate Kept(e: Entries, queue: seq<Path>, p: Path) {
    exists d :: d in e && d !in queue && AtOrAbove(p, d)
  }

  lemma DirectInSmaller(e: Entries, cur: Entries, p: Path)
    requires Direct(e, p) && cur.Keys <= e.Keys && forall q | q in cur :: cur[q] == e[q]
    ensures Direct(cur, p)
  {
  }

  lemma BootKeepsShape(e: Entries, p: Path)
    requires WellFormed(e)
    ensures WellFormed(BootDelete(e, p))
    ensures BootDelete(e, p).Keys <= e.Keys && forall q | q in BootDelete(e, p) :: BootDelete(e, p)[q] == e[q]
  {
    var r := Resolve(e, p);
    if r in e && !HasEntries(e, r) {
      forall q | q in e - {r} && |q| > 1
        ensures Parent(q) in e - {r}
      {
        if Parent(q) == r {
          assert Above(r, q);
        }
      }
    }
  }

  lemma FirstStep(e: Entries, queue: seq<Path>, p: Path)
    requires WellFormed(e) && queue != [] && ChildrenQueuedFirst(queue) && Direct(e, queue[0]) && p in e
    ensures p in BootDelete(e, queue[0]) && Kept(BootDelete(e, queue[0]), queue[1..], p) <==> Kept(e, queue, p)
  {
    var r, rest := queue[0], queue[1..];
    ResolveDirect(e, r);
    var cur := BootDelete(e, r);
    assert queue == [r] + rest;
    if HasEntries(e, r) {
      var b :| b in e && Above(r, b);
      assert b !in queue;
      if Kept(cur, rest, p) {
        var d :| d in cur && d !in rest && AtOrAbove(p, d);
        if d == r {
          assert AtOrAbove(p, b);
        }
      }
    } else if Kept(e, queue, p) {
      var d :| d in e && d !in queue && AtOrAbove(p, d);
      if p == r {
        StrictOrEqual(r, d);
      }
    }
  }

  /** Exactly the entries with something unqueued at or below them survive. */
  lemma {:induction false} RestartExact(e: Entries, queue: seq<Path>)
    requires WellFormed(e) && ChildrenQueuedFirst(queue) && forall p | p in queue :: Direct(e, p)
    ensures forall p :: p in AfterRestart(e, queue) <==> p in e && Kept(e, queue, p)
    ensures forall p | p in AfterRestart(e, queue) :: AfterRestart(e, queue)[p] == e[p]
    decreases |queue|
  {
    if queue == [] {
      forall p | p in e
        ensures Kept(e, queue, p)
      {
        assert AtOrAbove(p, p);
      }
    } else {
      var cur := BootDelete(e, queue[0]);
      BootKeepsShape(e, queue[0]);
      forall p | p in queue[1..]
        ensures Direct(cur, p)
      {
        DirectInSmaller(e, cur, p);
      }
      RestartExact(cur, queue[1..]);
      forall p | p in e
        ensures p in cur && Kept(cur, queue[1..], p) <==> Kept(e, queue, p)
      {
        FirstStep(e, queue, p);
      }
    }
  }

  /** In whatever order paths are queued: what is not queued survives, unchanged. */
  lemma {:induction false} UnqueuedIsKept(e: Entries, queue: seq<Path>, p: Path)
    requires WellFormed(e) && (forall q | q in queue :: Direct(e, q)) && p in e && p !in queue
    ensures p in AfterRestart(e, queue) && AfterRestart(e, queue)[p] == e[p]
    decreases |queue|
  {
    if queue == [] {
    } else {
      var cur := BootDelete(e, queue[0]);
      assert queue[0] in queue && forall q | q in queue[1..] :: q in queue;
      ResolveDirect(e, queue[0]);
      BootKeepsShape(e, queue[0]);
      forall q | q in queue[1..]
        ensures Direct(cur, q)
      {
        DirectInSmaller(e, cur, q);
      }
      UnqueuedIsKept(cur, queue[1..], p);
    }
  }

  lemma {:induction false} RestartShrinks(e: Entries, queue: seq<Path>)
    requires WellFormed(e)
    ensures WellFormed(AfterRestart(e, queue)) && AfterRestart(e, queue).Keys <= e.Keys
    ensures forall p | p in AfterRestart(e, queue) :: AfterRestart(e, queue)[p] == e[p]
    decreases |queue|
  {
    if queue == [] {
    } else {
      BootKeepsShape(e, queue[0]);
      RestartShrinks(BootDelete(e, queue[0]), queue[1..]);
    }
  }

  /** In whatever order paths are queued: a queued entry with nothing in it goes. */
  lemma {:induction false} QueuedLeafGoes(e: Entries, queue: seq<Path>, p: Path)
    requires WellFormed(e) && (forall q | q in queue :: Direct(e, q)) && p in queue && !HasEntries(e, p)
    ensures p !in AfterRestart(e, queue)
    decreases |queue|
  {
    var first, rest := queue[0], queue[1..];
    var cur := BootDelete(e, first);
    assert first in queue && (forall q | q in rest :: q in queue) && queue == [first] + rest;
    ResolveDirect(e, first);
    BootKeepsShape(e, first);
    if first == p {
      RestartShrinks(cur, rest);
    } else {
      forall q | q in rest
        ensures Direct(cur, q)
      {
        DirectInSmaller(e, cur, q);
      }
      QueuedLeafGoes(cur, rest, p);
    }
  }

  lemma {:induction false} RestartInParts(e: Entries, a: seq<Path>, b: seq<Path>)
    ensures AfterRestart(e, a + b) == AfterRestart(AfterRestart(e, a), b)
    decreases |a|
  {
    if a == [] {
      assert a + b == b;
    } else {
      assert (a + b)[0] == a[0] && (a + b)[1..] == a[1..] + b;
      RestartInParts(BootDelete(e, a[0]), a[1..], b);
    }
  }

  /** Whether `root` survives is decided by the part of the queue that names paths of
      its tree, whatever is replayed before and behind. */
  lemma ReplayAround(e: Entries, before: seq<Path>, own: seq<Path>, behind: seq<Path>, root: Path)
    requires WellFormed(e) && ChildrenQueuedFirst(own)
    requires (forall p | p in before :: Direct(e, p)) && (forall p | p in own :: Direct(e, p))
    requires forall p | p in behind :: Direct(e, p)
    requires (forall p | p in before :: !AtOrAbove(root, p)) && forall p | p in behind :: !AtOrAbove(root, p)
    ensures root in AfterRestart(e, before + own + behind) <==> root in e && Kept(e, own, root)
  {
    var first := AfterRestart(e, before);
    var second := AfterRestart(first, own);
    RestartInParts(e, before + own, behind);
    RestartInParts(e, before, own);
    RestartShrinks(e, before);
    RestartShrinks(first, own);
    RestartShrinks(second, behind);
    forall d | d in e && AtOrAbove(root, d)
      ensures d in first
    {
      UnqueuedIsKept(e, before, d);
    }
    forall p | Direct(e, p)
      ensures Direct(first, p) && Direct(second, p)
    {
      DirectInSmaller(e, first, p);
      DirectInSmaller(first, second, p);
    }
    RestartExact(first, own);
    assert Kept(first, own, root) <==> Kept(e, own, root);
    if root in second {
      assert AtOrAbove(root, root);
      UnqueuedIsKept(second, behind, root);
    }
  }

  lemma InQueueBefore(queue: seq<Path>, i: nat, d: Path)
    requires ChildrenQueuedFirst(queue) && i < |queue| && d in queue && AtOrAbove(queue[i], d) && d != queue[i]
    ensures d in queue[..i]
  {
    var j :| 0 <= j < |queue| && queue[j] == d;
    assert j < i;
    assert queue[..i][j] == d;
  }

  /** When everything at or below a queued path is queued, that path is a file, a
      link or an empty directory when its turn comes. */
  lemma {:induction false} EmptyAtItsTurn(e: Entries, queue: seq<Path>, i: nat)
    requires WellFormed(e) && ChildrenQueuedFirst(queue) && forall p | p in queue :: Direct(e, p)
    requires i < |queue| && queue[i] in e && forall d | d in e && AtOrAbove(queue[i], d) :: d in queue
    ensures queue[i] in AfterRestart(e, queue[..i]) && !HasEntries(AfterRestart(e, queue[..i]), queue[i])
  {
    var before := queue[..i];
    RestartExact(e, before);
    assert queue[i] !in before;
    assert Kept(e, before, queue[i]) by {
      assert AtOrAbove(queue[i], queue[i]);
    }
    if b :| b in AfterRestart(e, before) && Above(queue[i], b) {
      var d :| d in e && d !in before && AtOrAbove(b, d);
      InQueueBefore(queue, i, d);
      assert false;
    }
  }

  lemma NothingQueued()
    ensures ChildrenQueuedFirst([])
  {
  }

  /** The accepted visits, in order. */
  lemma {:induction false} QueueFacts(run: Run, s: seq<Event>)
    requires ChildrenFirst(s) && forall v | v in s :: v.Visit?
    ensures ChildrenQueuedFirst(run.QueueOf(s))
    ensures forall p :: p in run.QueueOf(s) <==> p in PathSet(s) && run.Accepted(p)
  {
    hide PathSet, ChildrenFirst, ChildrenQueuedFirst, Run.Accepted, Run.KeysOf, Run.ActionsOf;
    if s == [] {
      NothingVisited();
      NothingQueued();
    } else {
      var front, last := s[..|s| - 1], s[|s| - 1];
      assert s == front + [last];
      ChildrenFirstFront(front, last);
      QueueFacts(run, front);
      run.OneMore(front, last);
      assert run.QueueOf(front) + [] == run.QueueOf(front);
      PathSetConcat(front, [last]);
      PathSetOne(last.path, last.kind);
      QueuedBehind(run.QueueOf(front), last.path);
    }
  }

  lemma ChildrenFirstFront(front: seq<Event>, last: Event)
    requires ChildrenFirst(front + [last])
    ensures ChildrenFirst(front) && forall q | q in PathSet(front) :: !AtOrAbove(q, EventPath(last))
  {
    var s := front + [last];
    assert s[..|front|] == front && s[|front|] == last;
    forall i | 0 <= i < |front|
      ensures !AtOrAbove(EventPath(front[i]), EventPath(last))
    {
      assert s[i] == front[i];
    }
    forall i, j | 0 <= i < j < |front|
      ensures !AtOrAbove(EventPath(front[i]), EventPath(front[j]))
    {
      assert s[i] == front[i] && s[j] == front[j];
    }
  }

  lemma QueuedBehind(queue: seq<Path>, p: Path)
    requires ChildrenQueuedFirst(queue) && forall q | q in queue :: !AtOrAbove(q, p)
    ensures ChildrenQueuedFirst(queue + [p])
  {
  }
}

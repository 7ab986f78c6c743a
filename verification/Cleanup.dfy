/** A whole run: every candidate handled in turn, then the restart. What was found
    goes, and nothing else does. */
module Cleanup {
  import opened Basics
  import opened FileSystem
  import opened Removal
  import opened Retry
  import opened PathKeys
  import opened RunState
  import opened Matching
  import opened Postorder
  import opened Protected
  import opened WalkOrder
  import opened Restart
  import opened Deletion
  import opened Leftovers
  import opened Text
  import opened Collapse

  /** How one candidate was handled: the volume and the history around it. */
  datatype Handling = Handling(e: Entries, after: Entries, h: seq<Event>, h': seq<Event>, acts: seq<Event>, r: Outcome)

  ghost predicate HandledAs(x: Handling, order: Path -> seq<Name>, c: Candidate, o: Options)
  {
    && WellFormed(x.e) && WellFormed(x.after) && Enumerates(order, x.after) && Direct(x.e, c.path)
    && Ended(x.e, x.after, order, x.h, x.h', c, o, x.acts, x.r)
  }

  /** The handlings of a run, one after another. */
  ghost predicate Chain(trace: seq<Handling>, order: Path -> seq<Name>, cs: seq<Candidate>, o: Options,
                        e: Entries, h: seq<Event>) {
    && |trace| <= |cs| && Linked(trace, e, h)
    && forall i | 0 <= i < |trace| :: HandledAt(trace, order, cs, o, i)
  }

  ghost predicate HandledAt(trace: seq<Handling>, order: Path -> seq<Name>, cs: seq<Candidate>, o: Options, i: nat)
    requires i < |trace| <= |cs|
  {
    HandledAs(trace[i], order, cs[i], o)
  }

  ghost predicate Linked(trace: seq<Handling>, e: Entries, h: seq<Event>) {
    forall i | 0 <= i < |trace| :: LinkedAt(trace, e, h, i)
  }

  ghost predicate LinkedAt(trace: seq<Handling>, e: Entries, h: seq<Event>, i: nat)
    requires i < |trace|
  {
    trace[i].e == EntriesAt(trace, e, i) && trace[i].h == HistoryAt(trace, h, i)
  }

  function EntriesAt(trace: seq<Handling>, e: Entries, n: nat): Entries
    requires n <= |trace|
  {
    if n == 0 then e else trace[n - 1].after
  }

  function HistoryAt(trace: seq<Handling>, h: seq<Event>, n: nat): seq<Event>
    requires n <= |trace|
  {
    if n == 0 then h else trace[n - 1].h'
  }

  // ---- one step ----

  /** Nothing outside the root changes, and no path comes to lead through a link. */
  ghost predicate KeepsOutside(e: Entries, after: Entries, root: Path) {
    && after.Keys <= e.Keys && (forall p | p in e && !AtOrAbove(root, p) :: p in after && after[p] == e[p])
    && forall p | Direct(e, p) :: Direct(after, p)
  }

  lemma RemovalKeepsOutside(e: Entries, after: Entries, root: Path, gone: set<Path>)
    requires RemovedAt(e, after, root, gone) && gone <= Subtree(e, root)
    ensures KeepsOutside(e, after, root)
  {
  }

  lemma StepOnVolume(x: Handling, order: Path -> seq<Name>, c: Candidate, o: Options)
    requires HandledAs(x, order, c, o)
    ensures KeepsOutside(x.e, x.after, c.path)
  {
    var gone := GoneNow(x.e, c);
    assert x.after == x.e || RemovedAt(x.e, x.after, c.path, gone);
    assert gone <= Subtree(x.e, c.path) by {
      GoneNowIsBelow(x.e, c);
    }
    if x.after != x.e {
      assert KeepsOutside(x.e, x.after, c.path) by {
        RemovalKeepsOutside(x.e, x.after, c.path, gone);
      }
    }
  }

  lemma VisitsAreDirect(e: Entries, root: Path, p: Path)
    requires WellFormed(e) && Direct(e, root) && Reached(e, root, p)
    ensures AtOrAbove(root, p) && Direct(e, p)
  {
    if p != root {
      EntryIsDirect(e, p);
    }
  }

  lemma PartOfVisits(all: seq<Event>, s: seq<Event>, root: Path)
    requires ChildrenFirst(all) && AllVisits(all) && all != [] && all[|all| - 1].path == root && s <= all
    ensures ChildrenFirst(s) && AllVisits(s) && PathSet(s) <= PathSet(all) && (s != all ==> root !in PathSet(s))
  {
    assert all[|all| - 1] in all && forall i | 0 <= i < |s| :: s[i] == all[i];
    forall v | v in s
      ensures v in all && (s != all ==> EventPath(v) != root)
    {
      var i :| 0 <= i < |s| && s[i] == v;
      assert s != all ==> !AtOrAbove(EventPath(all[i]), EventPath(all[|all| - 1]));
    }
  }

  /** What part of a traversal adds to the queue: the root, visited last, only with
      the whole. */
  lemma PartQueues(run: Run, e: Entries, order: Path -> seq<Name>, root: Path, s: seq<Event>)
    requires WellFormed(e) && Enumerates(order, e) && Direct(e, root) && s <= WalkFrom(e, order, root)
    ensures ChildrenQueuedFirst(run.QueueOf(s))
    ensures forall p | p in run.QueueOf(s) :: AtOrAbove(root, p) && Direct(e, p)
    ensures if s == WalkFrom(e, order, root)
      then forall d :: d in run.QueueOf(s) <==> Reached(e, root, d) && run.Accepted(d)
      else root !in run.QueueOf(s)
  {
    hide WalkFrom, PathSet, ChildrenFirst, Run.QueueOf, Reached, ChildrenQueuedFirst, WellFormed, Direct, Enumerates;
    var all := WalkFrom(e, order, root);
    WalkFromFacts(e, order, root);
    PartOfVisits(all, s, root);
    QueueFacts(run, s);
    forall p | p in run.QueueOf(s)
      ensures AtOrAbove(root, p) && Direct(e, p)
    {
      VisitsAreDirect(e, root, p);
    }
  }

  /** What a traversal, complete or cut short, adds to the queue. */
  lemma TraversalQueues(run: Run, all: seq<Event>, h: seq<Event>, h': seq<Event>, finished: bool)
    returns (s: seq<Event>)
    requires Traversed(h, h', all, finished) && AllVisits(all)
    ensures s <= all && run.QueueOf(h') == run.QueueOf(h) + run.QueueOf(s) && (finished <==> s == all)
  {
    s := all;
    if !finished {
      var n: nat :| n < |all| && StoppedAfter(h, h', all, n);
      s := all[..n];
      assert all[n] in all;
      StoppedQueue(run, h, s, all[n]);
    }
    QueueOfConcat(run, h, s);
  }

  lemma StoppedQueue(run: Run, h: seq<Event>, s: seq<Event>, v: Event)
    requires v.Visit?
    ensures run.QueueOf(h + s + [Stop(v.path, v.kind)]) == run.QueueOf(h + s)
  {
    run.OneMore(h + s, Stop(v.path, v.kind));
    assert run.QueueOf(h + s) + [] == run.QueueOf(h + s);
  }

  lemma RecordsOnly(run: Run, h: seq<Event>, acts: seq<Event>)
    requires forall a | a in acts :: a.Act?
    ensures run.QueueOf(h + acts) == run.QueueOf(h)
  {
    QueueOfConcat(run, h, acts);
    RecordsQueueNothing(run, acts);
    assert run.QueueOf(h) + [] == run.QueueOf(h);
  }

  /** What handling a candidate adds to the queue: paths at or below it, each before
      the directory it is in; when its leftovers were queued to the end, exactly
      those that were reached and accepted, and its own path only then. */
  ghost predicate Adds(run: Run, x: Handling, root: Path, more: seq<Path>) {
    && run.QueueOf(x.h') == run.QueueOf(x.h) + more && ChildrenQueuedFirst(more)
    && (forall p | p in more :: AtOrAbove(root, p) && Direct(x.after, p))
    && if x.r == QueuedForRestart(true)
       then forall d :: d in more <==> Reached(x.after, root, d) && run.Accepted(d)
       else root !in more
  }

  lemma DirectAfterStep(e: Entries, after: Entries, root: Path)
    requires Direct(e, root) && KeepsOutside(e, after, root)
    ensures Direct(after, root)
  {
  }

  /** How the history grows, whatever happened to the volume. */
  ghost predicate Grows(x: Handling, order: Path -> seq<Name>, c: Candidate) {
    if x.r == Aborted then x.h' == x.h
    else if x.r.QueuedForRestart? then
      OwnRecords(x.acts, c) && Traversed(x.h + x.acts, x.h', WalkFrom(x.after, order, c.path), x.r.finished)
    else OwnRecords(x.acts, c) && x.h' == x.h + x.acts
  }

  lemma EndedGrows(x: Handling, order: Path -> seq<Name>, c: Candidate, o: Options)
    requires HandledAs(x, order, c, o)
    ensures Grows(x, order, c)
  {
    hide WalkFrom, Traversed, RemovedAt, Handled, WellFormed, Enumerates, Direct;
  }

  lemma StepOnQueue(run: Run, x: Handling, order: Path -> seq<Name>, c: Candidate, o: Options)
    requires HandledAs(x, order, c, o)
    ensures exists more :: Adds(run, x, c.path, more)
  {
    hide WalkFrom, Run.QueueOf, PathSet, ChildrenFirst, AllVisits, Reached, Traversed, KeepsOutside, RemovedAt, Ended;
    EndedGrows(x, order, c, o);
    if x.r.QueuedForRestart? {
      StepOnVolume(x, order, c, o);
      assert Direct(x.after, c.path) by {
        DirectAfterStep(x.e, x.after, c.path);
      }
      var all := WalkFrom(x.after, order, c.path);
      WalkFromFacts(x.after, order, c.path);
      RecordsOnly(run, x.h, x.acts);
      var s := TraversalQueues(run, all, x.h + x.acts, x.h', x.r.finished);
      PartQueues(run, x.after, order, c.path, s);
      assert Adds(run, x, c.path, run.QueueOf(s));
    } else {
      if x.r != Aborted {
        RecordsOnly(run, x.h, x.acts);
      }
      assert run.QueueOf(x.h) + [] == run.QueueOf(x.h);
      assert Adds(run, x, c.path, []);
    }
  }

  /** A driver package, or a folder below the driver repository that is not known as
      bloat, is left alone: the volume and the queue stay as they were. */
  lemma DriverFolderStays(run: Run, x: Handling, order: Path -> seq<Name>, c: Candidate, o: Options)
    requires HandledAs(x, order, c, o) && Named(c.path)
    requires ProbeAt(x.e, c.path) != Found(Missing) && ProbeAt(x.e, c.path) != Found(AFile)
    requires IsPackage(c.path) || (BelowRepository(c.path) && LeafKey(c.path) !in ALLOWED_DRIVER_STORE_DIRS)
    ensures (x.r.Aborted? || x.r.Skipped?) && x.after == x.e && run.QueueOf(x.h') == run.QueueOf(x.h)
  {
    hide Run.QueueOf, IsPackage, BelowRepository, Traversed, WalkFrom, RemovedAt, UnsafeTarget;
    UnsafeByName(x.e, c.path);
    EndedGrows(x, order, c, o);
    if x.r.Skipped? {
      RecordsOnly(run, x.h, x.acts);
    }
  }

  /** All that the whole run relies on about one step. */
  ghost predicate Step(run: Run, x: Handling, root: Path) {
    KeepsOutside(x.e, x.after, root) && exists more :: Adds(run, x, root, more)
  }

  // ---- the whole run ----

  /** No candidate is another one or lies inside it. */
  ghost predicate Apart(cs: seq<Candidate>) {
    forall i, j | 0 <= i < |cs| && 0 <= j < |cs| && i != j :: !AtOrAbove(cs[i].path, cs[j].path)
  }

  /** At or below one of the first `n` candidates. */
  predicate Inside(cs: seq<Candidate>, n: nat, p: Path)
    requires n <= |cs|
  {
    exists i | 0 <= i < n :: AtOrAbove(cs[i].path, p)
  }

  ghost predicate Steps(run: Run, trace: seq<Handling>, cs: seq<Candidate>) {
    |trace| <= |cs| && forall i | 0 <= i < |trace| :: StepAt(run, trace, cs, i)
  }

  ghost predicate StepAt(run: Run, trace: seq<Handling>, cs: seq<Candidate>, i: nat)
    requires i < |trace| <= |cs|
  {
    Step(run, trace[i], cs[i].path)
  }

  lemma ChainSteps(run: Run, trace: seq<Handling>, order: Path -> seq<Name>, cs: seq<Candidate>, o: Options,
                   e: Entries, h: seq<Event>)
    requires Chain(trace, order, cs, o, e, h)
    ensures Steps(run, trace, cs) && VolumeSteps(trace, cs)
  {
    forall i | 0 <= i < |trace|
      ensures StepAt(run, trace, cs, i) && VolumeStepAt(trace, cs, i)
    {
      assert HandledAt(trace, order, cs, o, i);
      StepOnVolume(trace[i], order, cs[i], o);
      StepOnQueue(run, trace[i], order, cs[i], o);
    }
  }

  lemma LinkAt(trace: seq<Handling>, e: Entries, h: seq<Event>, n: nat)
    requires Linked(trace, e, h) && 0 < n <= |trace|
    ensures trace[n - 1].e == EntriesAt(trace, e, n - 1) && trace[n - 1].h == HistoryAt(trace, h, n - 1)
  {
    assert LinkedAt(trace, e, h, n - 1);
  }

  ghost predicate VolumeSteps(trace: seq<Handling>, cs: seq<Candidate>) {
    |trace| <= |cs| && forall i | 0 <= i < |trace| :: VolumeStepAt(trace, cs, i)
  }

  ghost predicate VolumeStepAt(trace: seq<Handling>, cs: seq<Candidate>, i: nat)
    requires i < |trace| <= |cs|
  {
    KeepsOutside(trace[i].e, trace[i].after, cs[i].path)
  }

  /** The volume only loses entries, and changes only inside candidates handled so
      far. */
  lemma {:induction false} VolumeSoFar(trace: seq<Handling>, cs: seq<Candidate>, e: Entries, h: seq<Event>, n: nat)
    requires Linked(trace, e, h) && VolumeSteps(trace, cs) && n <= |trace|
    ensures EntriesAt(trace, e, n).Keys <= e.Keys
    ensures forall p | p in e && !Inside(cs, n, p) ::
      p in EntriesAt(trace, e, n) && EntriesAt(trace, e, n)[p] == e[p]
  {
    if n == 0 {
    } else {
      VolumeSoFar(trace, cs, e, h, n - 1);
      LinkAt(trace, e, h, n);
      assert VolumeStepAt(trace, cs, n - 1);
      forall p | p in e && !Inside(cs, n, p)
        ensures p in EntriesAt(trace, e, n) && EntriesAt(trace, e, n)[p] == e[p]
      {
        assert !AtOrAbove(cs[n - 1].path, p) && !Inside(cs, n - 1, p);
      }
    }
  }

  /** What one candidate left, the next ones do not bring back. */
  lemma {:induction false} VolumeSince(trace: seq<Handling>, cs: seq<Candidate>, e: Entries, h: seq<Event>, i: nat,
                                       n: nat)
    requires Linked(trace, e, h) && VolumeSteps(trace, cs) && i < n <= |trace|
    ensures EntriesAt(trace, e, n).Keys <= trace[i].after.Keys
    ensures forall p | Direct(trace[i].after, p) :: Direct(EntriesAt(trace, e, n), p)
  {
    if i == n - 1 {
    } else {
      VolumeSince(trace, cs, e, h, i, n - 1);
      LinkAt(trace, e, h, n);
      assert VolumeStepAt(trace, cs, n - 1);
    }
  }

  /** Only paths inside the first `n` candidates. */
  ghost predicate QueuedInside(cs: seq<Candidate>, n: nat, q: seq<Path>, e: Entries)
    requires n <= |cs|
  {
    forall p | p in q :: Inside(cs, n, p) && Direct(e, p)
  }

  lemma QueuedBy(run: Run, x: Handling, cs: seq<Candidate>, n: nat, p: Path)
    requires n < |cs| && Step(run, x, cs[n].path) && p in run.QueueOf(x.h')
    requires p in run.QueueOf(x.h) ==> Inside(cs, n, p) && Direct(x.e, p)
    ensures Inside(cs, n + 1, p) && Direct(x.after, p)
  {
    var more :| Adds(run, x, cs[n].path, more);
  }

  lemma {:induction false} QueuedIsInside(run: Run, trace: seq<Handling>, cs: seq<Candidate>, e: Entries, h: seq<Event>,
                                          n: nat, p: Path)
    requires Linked(trace, e, h) && Steps(run, trace, cs) && n <= |trace| && run.QueueOf(h) == []
    requires p in run.QueueOf(HistoryAt(trace, h, n))
    ensures Inside(cs, n, p) && Direct(EntriesAt(trace, e, n), p)
  {
    var x := trace[n - 1];
    LinkAt(trace, e, h, n);
    assert p in run.QueueOf(x.h) ==> Inside(cs, n - 1, p) && Direct(x.e, p) by {
      if p in run.QueueOf(x.h) {
        QueuedIsInside(run, trace, cs, e, h, n - 1, p);
      }
    }
    assert Inside(cs, n, p) && Direct(x.after, p) by {
      assert StepAt(run, trace, cs, n - 1);
      QueuedBy(run, x, cs, n - 1, p);
    }
  }

  lemma QueueSoFar(run: Run, trace: seq<Handling>, cs: seq<Candidate>, e: Entries, h: seq<Event>, n: nat)
    requires Linked(trace, e, h) && Steps(run, trace, cs) && n <= |trace| && run.QueueOf(h) == []
    ensures QueuedInside(cs, n, run.QueueOf(HistoryAt(trace, h, n)), EntriesAt(trace, e, n))
  {
    forall p | p in run.QueueOf(HistoryAt(trace, h, n))
      ensures Inside(cs, n, p) && Direct(EntriesAt(trace, e, n), p)
    {
      QueuedIsInside(run, trace, cs, e, h, n, p);
    }
  }

  /** However the run goes, whatever is locked, refused or aborted, and however the
      candidates lie to each other: neither the run nor the restart removes or
      changes anything outside them. */
  lemma NothingElseIsRemoved(run: Run, trace: seq<Handling>, order: Path -> seq<Name>, cs: seq<Candidate>, o: Options,
                             e: Entries, h: seq<Event>)
    requires WellFormed(e) && Chain(trace, order, cs, o, e, h) && run.QueueOf(h) == []
    ensures var after := AfterRestart(EntriesAt(trace, e, |trace|), run.QueueOf(HistoryAt(trace, h, |trace|)));
      forall p | p in e && !Inside(cs, |trace|, p) :: p in after && after[p] == e[p]
  {
    var n := |trace|;
    var final, q := EntriesAt(trace, e, n), run.QueueOf(HistoryAt(trace, h, n));
    ChainSteps(run, trace, order, cs, o, e, h);
    VolumeSoFar(trace, cs, e, h, n);
    QueueSoFar(run, trace, cs, e, h, n);
    FinalShape(trace, order, cs, o, e, h);
    forall p | p in e && !Inside(cs, n, p)
      ensures p in AfterRestart(final, q) && AfterRestart(final, q)[p] == e[p]
    {
      UnqueuedIsKept(final, q, p);
    }
  }

  lemma FinalShape(trace: seq<Handling>, order: Path -> seq<Name>, cs: seq<Candidate>, o: Options, e: Entries,
                   h: seq<Event>)
    requires WellFormed(e) && Chain(trace, order, cs, o, e, h)
    ensures WellFormed(EntriesAt(trace, e, |trace|))
  {
    if trace != [] {
      assert HandledAt(trace, order, cs, o, |trace| - 1);
    }
  }

  // ---- when the candidates are gone ----

  /** The candidate is gone at once, or its leftovers were queued to the end, all of
      them reached and accepted. */
  ghost predicate Settled(run: Run, x: Handling, c: Candidate) {
    c.path !in x.after || (x.r == QueuedForRestart(true) && AllQueued(run, x.after, c.path))
  }

  lemma NothingBelowMissing(e: Entries, root: Path, p: Path)
    requires WellFormed(e) && root != [] && root !in e && AtOrAbove(root, p)
    ensures p !in e
  {
    if p in e {
      StrictOrEqual(root, p);
      AncestorsAreDirectories(e, root, p);
    }
  }

  /** Replaying what a settled candidate added leaves nothing of it. */
  lemma SettledGoes(run: Run, x: Handling, c: Candidate, more: seq<Path>, e: Entries)
    requires WellFormed(e) && WellFormed(x.after) && e.Keys <= x.after.Keys && c.path != []
    requires Settled(run, x, c) && Adds(run, x, c.path, more) && forall p | p in more :: Direct(e, p)
    ensures forall p | AtOrAbove(c.path, p) :: p !in AfterRestart(e, more)
  {
    RestartExact(e, more);
    forall p | AtOrAbove(c.path, p)
      ensures p !in AfterRestart(e, more)
    {
      if c.path !in x.after {
        NothingBelowMissing(x.after, c.path, p);
      } else {
        assert forall d | d in e && AtOrAbove(p, d) :: d in Subtree(x.after, c.path);
      }
    }
  }

  /** Added by the handling of one of the candidates between the `i`-th and the
      `n`-th. */
  predicate AddedBetween(cs: seq<Candidate>, i: nat, n: nat, p: Path)
    requires n <= |cs|
  {
    exists j | i < j < n :: AtOrAbove(cs[j].path, p)
  }

  lemma BetweenMore(cs: seq<Candidate>, i: nat, n: nat, front: seq<Path>, more: seq<Path>)
    requires i < n < |cs| && (forall p | p in front :: AddedBetween(cs, i, n, p))
    requires forall p | p in more :: AtOrAbove(cs[n].path, p)
    ensures forall p | p in front + more :: AddedBetween(cs, i, n + 1, p)
  {
  }

  /** What was queued after the `i`-th candidate. */
  lemma {:induction false} QueuedSince(run: Run, trace: seq<Handling>, cs: seq<Candidate>, e: Entries, h: seq<Event>,
                                       i: nat, n: nat)
    returns (rest: seq<Path>)
    requires Linked(trace, e, h) && Steps(run, trace, cs) && i < n <= |trace|
    ensures run.QueueOf(HistoryAt(trace, h, n)) == run.QueueOf(trace[i].h') + rest
    ensures forall p | p in rest :: AddedBetween(cs, i, n, p)
  {
    hide Run.QueueOf, ChildrenQueuedFirst, Reached, Direct;
    rest := [];
    if i == n - 1 {
      assert run.QueueOf(trace[i].h') + [] == run.QueueOf(trace[i].h');
    } else {
      var front := QueuedSince(run, trace, cs, e, h, i, n - 1);
      LinkAt(trace, e, h, n);
      assert StepAt(run, trace, cs, n - 1);
      var more :| Adds(run, trace[n - 1], cs[n - 1].path, more);
      rest := front + more;
      BetweenMore(cs, i, n - 1, front, more);
      Assoc(run.QueueOf(trace[i].h'), front, more);
    }
  }

  /** So it does whatever is replayed before and behind. */
  lemma SettledGoesInQueue(run: Run, x: Handling, c: Candidate, before: seq<Path>, own: seq<Path>, behind: seq<Path>,
                           e: Entries)
    requires WellFormed(e) && WellFormed(x.after) && e.Keys <= x.after.Keys && c.path != []
    requires Settled(run, x, c) && Adds(run, x, c.path, own) && forall p | p in own :: Direct(e, p)
    ensures forall p | AtOrAbove(c.path, p) :: p !in AfterRestart(e, before + own + behind)
  {
    hide Settled, Adds, WellFormed;
    var first := AfterRestart(e, before);
    RestartShrinks(e, before);
    RestartInParts(e, before + own, behind);
    RestartInParts(e, before, own);
    forall p | p in own
      ensures Direct(first, p)
    {
      DirectInSmaller(e, first, p);
    }
    SettledGoes(run, x, c, own, first);
    RestartShrinks(first, own);
    RestartShrinks(AfterRestart(first, own), behind);
  }

  /** A settled candidate is gone after the restart with all below it, in any run and
      however the other candidates lie to it. */
  lemma SettledIsGone(run: Run, trace: seq<Handling>, order: Path -> seq<Name>, cs: seq<Candidate>, o: Options,
                      e: Entries, h: seq<Event>, i: nat)
    requires WellFormed(e) && Chain(trace, order, cs, o, e, h) && i < |trace| && Settled(run, trace[i], cs[i])
    ensures var after := AfterRestart(EntriesAt(trace, e, |trace|), run.QueueOf(HistoryAt(trace, h, |trace|)));
      forall p | AtOrAbove(cs[i].path, p) :: p !in after
  {
    hide Settled;
    var n, x := |trace|, trace[i];
    var final := EntriesAt(trace, e, n);
    ChainSteps(run, trace, order, cs, o, e, h);
    assert WellFormed(final) && WellFormed(x.after) && cs[i].path != [] by {
      FinalShape(trace, order, cs, o, e, h);
      assert HandledAt(trace, order, cs, o, i);
    }
    VolumeSince(trace, cs, e, h, i, n);
    assert StepAt(run, trace, cs, i);
    var own :| Adds(run, x, cs[i].path, own);
    var behind := QueuedSince(run, trace, cs, e, h, i, n);
    assert run.QueueOf(HistoryAt(trace, h, n)) == run.QueueOf(x.h) + own + behind;
    SettledGoesInQueue(run, x, cs[i], run.QueueOf(x.h), own, behind, final);
  }

  /** When every handled candidate was settled, then after the restart exactly these
      are gone, each with everything below it. */
  lemma ExactlyTheCandidatesGo(run: Run, trace: seq<Handling>, order: Path -> seq<Name>, cs: seq<Candidate>, o: Options,
                               e: Entries, h: seq<Event>)
    requires WellFormed(e) && Chain(trace, order, cs, o, e, h) && run.QueueOf(h) == []
    requires forall i | 0 <= i < |trace| :: Settled(run, trace[i], cs[i])
    ensures var after := AfterRestart(EntriesAt(trace, e, |trace|), run.QueueOf(HistoryAt(trace, h, |trace|)));
      && (forall p :: p in after <==> p in e && !Inside(cs, |trace|, p))
      && forall p | p in after :: after[p] == e[p]
  {
    hide Settled, Direct, WellFormed;
    var n := |trace|;
    var final, q := EntriesAt(trace, e, n), run.QueueOf(HistoryAt(trace, h, n));
    NothingElseIsRemoved(run, trace, order, cs, o, e, h);
    assert final.Keys <= e.Keys by {
      ChainSteps(run, trace, order, cs, o, e, h);
      VolumeSoFar(trace, cs, e, h, n);
    }
    FinalShape(trace, order, cs, o, e, h);
    RestartShrinks(final, q);
    forall p | Inside(cs, n, p)
      ensures p !in AfterRestart(final, q)
    {
      var i :| 0 <= i < n && AtOrAbove(cs[i].path, p);
      SettledIsGone(run, trace, order, cs, o, e, h, i);
    }
  }

  // ---- one candidate among others that lie elsewhere ----

  /** None of the first `n` candidates is the `i`-th, or above or below it, but the
      `i`-th itself. */
  ghost predicate Alone(cs: seq<Candidate>, i: nat, n: nat)
    requires i < |cs| && n <= |cs|
  {
    forall j | 0 <= j < n && j != i :: !AtOrAbove(cs[i].path, cs[j].path) && !AtOrAbove(cs[j].path, cs[i].path)
  }

  lemma AlonePath(cs: seq<Candidate>, i: nat, n: nat, j: nat, d: Path)
    requires i < |cs| && j < n <= |cs| && i != j && Alone(cs, i, n) && AtOrAbove(cs[j].path, d)
    ensures !AtOrAbove(cs[i].path, d)
  {
    if AtOrAbove(cs[i].path, d) {
      Comparable(cs[i].path, cs[j].path, d);
    }
  }

  ghost predicate SameEntry(e: Entries, after: Entries, d: Path) {
    (d in e <==> d in after) && (d in e ==> after[d] == e[d])
  }

  lemma {:induction false} SameSince(trace: seq<Handling>, e: Entries, h: seq<Event>, i: nat, n: nat, d: Path)
    requires Linked(trace, e, h) && i < n <= |trace|
    requires forall j | i < j < n :: SameEntry(trace[j].e, trace[j].after, d)
    ensures SameEntry(trace[i].after, EntriesAt(trace, e, n), d)
  {
    if i == n - 1 {
    } else {
      SameSince(trace, e, h, i, n - 1, d);
      LinkAt(trace, e, h, n);
      assert SameEntry(trace[n - 1].e, trace[n - 1].after, d);
    }
  }

  /** What is left of a candidate that lies alone stays as it was left. */
  lemma StaysAsLeft(trace: seq<Handling>, cs: seq<Candidate>, e: Entries, h: seq<Event>, i: nat, d: Path)
    requires Linked(trace, e, h) && VolumeSteps(trace, cs) && i < |trace| && Alone(cs, i, |trace|)
    requires AtOrAbove(cs[i].path, d)
    ensures SameEntry(trace[i].after, EntriesAt(trace, e, |trace|), d)
  {
    forall j | i < j < |trace|
      ensures SameEntry(trace[j].e, trace[j].after, d)
    {
      assert VolumeStepAt(trace, cs, j);
      assert !AtOrAbove(cs[j].path, d) by {
        if AtOrAbove(cs[j].path, d) {
          AlonePath(cs, i, |trace|, j, d);
        }
      }
    }
    SameSince(trace, e, h, i, |trace|, d);
  }

  /** The queue of the whole run around what one candidate added to it. */
  ghost predicate QueueAround(run: Run, x: Handling, root: Path, q: seq<Path>, before: seq<Path>, own: seq<Path>,
                              behind: seq<Path>) {
    && q == before + own + behind && Adds(run, x, root, own)
    && (forall p | p in before :: !AtOrAbove(root, p)) && forall p | p in behind :: !AtOrAbove(root, p)
  }

  /** Inside one of the first `n` candidates other than the `i`-th. */
  predicate InsideOther(cs: seq<Candidate>, i: nat, n: nat, p: Path)
    requires n <= |cs|
  {
    exists j | 0 <= j < n :: j != i && AtOrAbove(cs[j].path, p)
  }

  lemma OthersAreElsewhere(cs: seq<Candidate>, i: nat, n: nat, q: seq<Path>)
    requires i < |cs| && n <= |cs| && Alone(cs, i, n) && forall p | p in q :: InsideOther(cs, i, n, p)
    ensures forall p | p in q :: !AtOrAbove(cs[i].path, p)
  {
    forall p | p in q
      ensures !AtOrAbove(cs[i].path, p)
    {
      var j :| 0 <= j < n && j != i && AtOrAbove(cs[j].path, p);
      AlonePath(cs, i, n, j, p);
    }
  }

  lemma EarlierIsElsewhere(run: Run, trace: seq<Handling>, cs: seq<Candidate>, e: Entries, h: seq<Event>, i: nat)
    requires Linked(trace, e, h) && Steps(run, trace, cs) && i < |trace| && run.QueueOf(h) == []
    requires Alone(cs, i, |trace|)
    ensures forall p | p in run.QueueOf(trace[i].h) :: !AtOrAbove(cs[i].path, p)
  {
    var before := run.QueueOf(trace[i].h);
    QueueSoFar(run, trace, cs, e, h, i);
    LinkAt(trace, e, h, i + 1);
    forall p | p in before
      ensures InsideOther(cs, i, |trace|, p)
    {
      assert Inside(cs, i, p);
    }
    OthersAreElsewhere(cs, i, |trace|, before);
  }

  lemma LaterIsElsewhere(cs: seq<Candidate>, i: nat, n: nat, behind: seq<Path>)
    requires i < n <= |cs| && Alone(cs, i, n)
    requires forall p | p in behind :: AddedBetween(cs, i, n, p)
    ensures forall p | p in behind :: !AtOrAbove(cs[i].path, p)
  {
    forall p | p in behind
      ensures InsideOther(cs, i, n, p)
    {
      var j :| i < j < n && AtOrAbove(cs[j].path, p);
    }
    OthersAreElsewhere(cs, i, n, behind);
  }

  lemma OwnPart(run: Run, trace: seq<Handling>, cs: seq<Candidate>, e: Entries, h: seq<Event>, i: nat)
    returns (before: seq<Path>, own: seq<Path>, behind: seq<Path>)
    requires Linked(trace, e, h) && Steps(run, trace, cs) && i < |trace| && run.QueueOf(h) == []
    requires Alone(cs, i, |trace|)
    ensures QueueAround(run, trace[i], cs[i].path, run.QueueOf(HistoryAt(trace, h, |trace|)), before, own, behind)
  {
    var x, root := trace[i], cs[i].path;
    before := run.QueueOf(x.h);
    assert StepAt(run, trace, cs, i);
    own :| Adds(run, x, root, own);
    behind := QueuedSince(run, trace, cs, e, h, i, |trace|);
    assert forall p | p in before :: !AtOrAbove(root, p) by {
      EarlierIsElsewhere(run, trace, cs, e, h, i);
    }
    assert forall p | p in behind :: !AtOrAbove(root, p) by {
      LaterIsElsewhere(cs, i, |trace|, behind);
    }
  }

  /** A candidate that lies alone is gone after the restart, with all below it, exactly
      when it was settled. */
  lemma GoneWhenSettled(run: Run, trace: seq<Handling>, order: Path -> seq<Name>, cs: seq<Candidate>, o: Options,
                        e: Entries, h: seq<Event>, i: nat)
    requires WellFormed(e) && Chain(trace, order, cs, o, e, h) && run.QueueOf(h) == []
    requires i < |trace| && Alone(cs, i, |trace|)
    ensures var after := AfterRestart(EntriesAt(trace, e, |trace|), run.QueueOf(HistoryAt(trace, h, |trace|)));
      && (cs[i].path !in after <==> Settled(run, trace[i], cs[i]))
      && (cs[i].path !in after ==> forall p | AtOrAbove(cs[i].path, p) :: p !in after)
  {
    var n, x, root := |trace|, trace[i], cs[i].path;
    var final, q := EntriesAt(trace, e, n), run.QueueOf(HistoryAt(trace, h, n));
    ChainSteps(run, trace, order, cs, o, e, h);
    assert forall p | p in q :: Direct(final, p) by {
      QueueSoFar(run, trace, cs, e, h, n);
    }
    assert WellFormed(final) && WellFormed(x.after) && root != [] by {
      FinalShape(trace, order, cs, o, e, h);
      assert HandledAt(trace, order, cs, o, i);
    }
    var before, own, behind := OwnPart(run, trace, cs, e, h, i);
    assert root in AfterRestart(final, q) <==> root in final && Kept(final, own, root) by {
      ReplayAround(final, before, own, behind, root);
    }
    forall d | AtOrAbove(root, d)
      ensures d in final <==> d in x.after
    {
      StaysAsLeft(trace, cs, e, h, i, d);
    }
    KeptUnlessSettled(run, x, cs[i], final, own);
    RestartShrinks(final, q);
    if root !in AfterRestart(final, q) {
      forall p | AtOrAbove(root, p)
        ensures p !in AfterRestart(final, q)
      {
        NothingBelowMissing(AfterRestart(final, q), root, p);
      }
    }
  }

  lemma KeptUnlessSettled(run: Run, x: Handling, c: Candidate, final: Entries, q: seq<Path>)
    requires WellFormed(x.after) && c.path != [] && forall d | AtOrAbove(c.path, d) :: d in final <==> d in x.after
    requires if x.r == QueuedForRestart(true)
      then forall d | AtOrAbove(c.path, d) :: d in q <==> Reached(x.after, c.path, d) && run.Accepted(d)
      else c.path !in q
    ensures c.path in final && Kept(final, q, c.path) <==> !Settled(run, x, c)
  {
    assert AtOrAbove(c.path, c.path);
    if c.path in final && x.r == QueuedForRestart(true) {
      if Kept(final, q, c.path) {
        var d :| d in final && d !in q && AtOrAbove(c.path, d);
        assert d in Subtree(x.after, c.path);
      } else {
        forall d | d in x.after && AtOrAbove(c.path, d)
          ensures Reached(x.after, c.path, d) && run.Accepted(d)
        {
          assert d in q;
        }
      }
    }
  }

  // ---- the loop over the candidates ----

  lemma LinkedOneMore(trace: seq<Handling>, x: Handling, e: Entries, h: seq<Event>)
    requires Linked(trace, e, h) && x.e == EntriesAt(trace, e, |trace|) && x.h == HistoryAt(trace, h, |trace|)
    ensures Linked(trace + [x], e, h)
  {
    var longer := trace + [x];
    forall i | 0 <= i < |longer|
      ensures LinkedAt(longer, e, h, i)
    {
      assert i > 0 ==> longer[i - 1] == trace[i - 1];
      assert i < |trace| ==> LinkedAt(trace, e, h, i);
    }
  }

  lemma ChainOneMore(trace: seq<Handling>, x: Handling, order: Path -> seq<Name>, cs: seq<Candidate>, o: Options,
                     e: Entries, h: seq<Event>)
    requires Chain(trace, order, cs, o, e, h) && |trace| < |cs| && HandledAs(x, order, cs[|trace|], o)
    requires x.e == EntriesAt(trace, e, |trace|) && x.h == HistoryAt(trace, h, |trace|)
    ensures Chain(trace + [x], order, cs, o, e, h)
  {
    hide HandledAs, Linked;
    LinkedOneMore(trace, x, e, h);
    forall i | 0 <= i < |trace + [x]|
      ensures HandledAt(trace + [x], order, cs, o, i)
    {
      assert i < |trace| ==> HandledAt(trace, order, cs, o, i);
    }
  }

  lemma NothingLinked(e: Entries, h: seq<Event>)
    ensures Linked([], e, h)
  {
  }

  /** One candidate of the deletion loop; `trace` are the handlings so far, from `e`
      and `h` on. */
  method DeleteNext(vol: Volume, run: Run, cs: seq<Candidate>, i: nat, o: Options, containerOnly: Path -> bool,
                    ghost trace: seq<Handling>, ghost e: Entries, ghost h: seq<Event>)
    returns (ghost more: seq<Handling>)
    requires vol.Valid() && run.Valid() && |trace| == i < |cs| && Direct(vol.entries, cs[i].path)
    requires Chain(trace, vol.order, cs, o, e, h)
    requires vol.entries == EntriesAt(trace, e, i) && run.history == HistoryAt(trace, h, i)
    modifies vol, run
    ensures vol.Valid() && run.Valid() && |more| == i + 1
    ensures Chain(more, vol.order, cs, o, e, h)
    ensures vol.entries == EntriesAt(more, e, i + 1) && run.history == HistoryAt(more, h, i + 1)
    ensures forall p | Direct(old(vol.entries), p) :: Direct(vol.entries, p)
  {
    hide Ended, ExactRecords, Linked, Direct, Run.Valid;
    ghost var before, history, acts, r := vol.entries, run.history, [], Aborted;
    acts, r := DeleteCandidate(vol, run, cs[i], o, containerOnly);
    ghost var x := Handling(before, vol.entries, history, run.history, acts, r);
    StepOnVolume(x, vol.order, cs[i], o);
    ChainOneMore(trace, x, vol.order, cs, o, e, h);
    more := trace + [x];
  }

  /** One round of the deletion loop, its look at the abort flag included. */
  method DeleteUnlessAborted(vol: Volume, run: Run, cs: seq<Candidate>, i: nat, o: Options,
                             containerOnly: Path -> bool, ghost trace: seq<Handling>, ghost e: Entries,
                             ghost h: seq<Event>)
    returns (go: bool, ghost more: seq<Handling>)
    requires vol.Valid() && run.Valid() && |trace| == i < |cs| && Direct(vol.entries, cs[i].path)
    requires Chain(trace, vol.order, cs, o, e, h)
    requires vol.entries == EntriesAt(trace, e, i) && run.history == HistoryAt(trace, h, i)
    modifies vol, run
    ensures vol.Valid() && run.Valid() && |more| == (if go then i + 1 else i)
    ensures Chain(more, vol.order, cs, o, e, h)
    ensures vol.entries == EntriesAt(more, e, |more|) && run.history == HistoryAt(more, h, |more|)
    ensures forall p | Direct(old(vol.entries), p) :: Direct(vol.entries, p)
    ensures !go ==> run.aborted
  {
    hide Linked, HandledAt, Direct;
    var abort := run.AbortRequested();
    if abort {
      run.aborted := true;
      return false, trace;
    }
    more := DeleteNext(vol, run, cs, i, o, containerOnly, trace, e, h);
    return true, more;
  }

  /** The deletion loop of run_cleanup. */
  method DeleteAll(vol: Volume, run: Run, cs: seq<Candidate>, o: Options, containerOnly: Path -> bool)
    returns (ghost trace: seq<Handling>)
    requires vol.Valid() && run.Valid() && forall c | c in cs :: Direct(vol.entries, c.path)
    modifies vol, run
    ensures vol.Valid() && run.Valid()
    ensures Chain(trace, vol.order, cs, o, old(vol.entries), old(run.history))
    ensures vol.entries == EntriesAt(trace, old(vol.entries), |trace|)
    ensures run.history == HistoryAt(trace, old(run.history), |trace|)
    ensures |trace| < |cs| ==> run.aborted
  {
    hide Linked, HandledAt, Direct;
    trace := [];
    ghost var e, h := vol.entries, run.history;
    NothingLinked(e, h);
    for i := 0 to |cs|
      invariant vol.Valid() && run.Valid() && |trace| == i
      invariant Chain(trace, vol.order, cs, o, e, h)
      invariant vol.entries == EntriesAt(trace, e, i) && run.history == HistoryAt(trace, h, i)
      invariant forall c | c in cs :: Direct(vol.entries, c.path)
    {
      var go: bool;
      go, trace := DeleteUnlessAborted(vol, run, cs, i, o, containerOnly, trace, e, h);
      if !go {
        break;
      }
    }
  }

  // ---- candidates that were collapsed lie apart ----

  lemma {:induction false} KeyBelow(p: Path, more: Path)
    requires p != []
    ensures Covers(PathKey(p), PathKey(p + more))
    ensures more != [] ==> |PathKey(p)| < |PathKey(p + more)|
  {
    if more == [] {
      assert p + more == p;
    } else {
      var q := p + Parent(more);
      KeyBelow(p, Parent(more));
      assert p + more == q + [Leaf(more)];
      ChildKey(q, Leaf(more));
      CoversChild(PathKey(q), Lower(Leaf(more)));
      CoversTransitive(PathKey(p), PathKey(q), PathKey(p + more));
    }
  }

  lemma CoversChild(a: string, name: string)
    ensures Covers(a, a + ("\\" + name))
  {
    assert a + ("\\" + name) == (a + "\\") + name;
  }

  lemma BelowHasKey(root: Path, p: Path)
    requires root != [] && AtOrAbove(root, p)
    ensures Covers(PathKey(root), PathKey(p)) && (PathKey(root) == PathKey(p) ==> root == p)
  {
    var more := p[|root|..];
    assert p == root + more;
    KeyBelow(root, more);
    if more == [] {
      assert root + more == root;
    }
  }

  /** Candidates none of which covers another by its lowercased path lie apart. */
  lemma AntichainIsApart(cs: seq<Candidate>)
    requires Antichain(cs, Lower) && forall c | c in cs :: c.path != []
    ensures Apart(cs)
  {
    forall i, j | 0 <= i < |cs| && 0 <= j < |cs| && i != j
      ensures !AtOrAbove(cs[i].path, cs[j].path)
    {
      assert cs[i] in cs;
      assert !Covers(KeyOf(cs[i], Lower), KeyOf(cs[j], Lower));
      if AtOrAbove(cs[i].path, cs[j].path) {
        BelowHasKey(cs[i].path, cs[j].path);
      }
    }
  }

  /** No other candidate's lowercased path covers that of the `i`-th, or is covered by
      it. */
  ghost predicate AloneByKey(cs: seq<Candidate>, i: nat)
    requires i < |cs|
  {
    forall j | 0 <= j < |cs| && j != i ::
      !Covers(PathKey(cs[i].path), PathKey(cs[j].path)) && !Covers(PathKey(cs[j].path), PathKey(cs[i].path))
  }

  lemma AloneByKeyIsAlone(cs: seq<Candidate>, i: nat, n: nat)
    requires i < |cs| && n <= |cs| && AloneByKey(cs, i) && cs[i].path != []
    requires forall j | 0 <= j < n :: cs[j].path != []
    ensures Alone(cs, i, n)
  {
    forall j | 0 <= j < n && j != i
      ensures !AtOrAbove(cs[i].path, cs[j].path) && !AtOrAbove(cs[j].path, cs[i].path)
    {
      if AtOrAbove(cs[i].path, cs[j].path) {
        BelowHasKey(cs[i].path, cs[j].path);
      }
      if AtOrAbove(cs[j].path, cs[i].path) {
        BelowHasKey(cs[j].path, cs[i].path);
      }
    }
  }

  lemma AntichainIsAlone(cs: seq<Candidate>)
    requires Antichain(cs, Lower)
    ensures forall i | 0 <= i < |cs| :: AloneByKey(cs, i)
  {
    assert forall i | 0 <= i < |cs| :: KeyOf(cs[i], Lower) == PathKey(cs[i].path);
  }

  lemma ShiftedAntichain(s: seq<Candidate>, key: string -> string, prefix: string)
    requires Antichain(s, key)
    requires forall c | c in s :: TextOf(c) != "" && KeyOf(c, key) == prefix + Lower(TextOf(c))
    ensures Antichain(s, Lower)
  {
    forall i, j | 0 <= i < |s| && 0 <= j < |s| && i != j
      ensures !Covers(KeyOf(s[i], Lower), KeyOf(s[j], Lower))
    {
      assert s[i] in s && s[j] in s;
      assert !Covers(KeyOf(s[i], key), KeyOf(s[j], key));
      if Covers(KeyOf(s[i], Lower), KeyOf(s[j], Lower)) {
        CoversBehind(prefix, KeyOf(s[i], Lower), KeyOf(s[j], Lower));
      }
    }
  }

  /** What collapsing keeps lies apart, when the canonical keys are the lowercased
      paths behind some common prefix, as `\\?\` is. */
  lemma CollapsedAreApart(s: seq<Candidate>, key: string -> string, prefix: string)
    requires forall c | c in s :: TextOf(c) != "" && KeyOf(c, key) == prefix + Lower(TextOf(c))
    ensures Antichain(Keep(Sort(s), key), Lower) && Apart(Keep(Sort(s), key))
    ensures forall i | 0 <= i < |Keep(Sort(s), key)| :: AloneByKey(Keep(Sort(s), key), i)
  {
    var sorted := Sort(s);
    var kept := Keep(sorted, key);
    assert Sorted(sorted) && forall c | c in sorted :: c in s by {
      SortSorts(s);
      assert forall c | c in sorted :: c in multiset(s);
    }
    assert Antichain(kept, key) by {
      LengthOrderUntangles(sorted, key);
      KeptAreOutermost(sorted, key);
    }
    assert forall c | c in kept :: c in s by {
      KeepIsACover(sorted, key);
      PartHolds(kept, sorted);
    }
    assert Antichain(kept, Lower) by {
      ShiftedAntichain(kept, key, prefix);
    }
    AntichainIsApart(kept);
    AntichainIsAlone(kept);
  }

  lemma FreeOnesDiffer(s: seq<Candidate>, key: string -> string, i: nat, j: nat)
    requires i < |s| && j < |s| && i != j && Free(s, key, i) && Free(s, key, j)
    ensures s[i] != s[j]
  {
    CoversItself(KeyOf(s[i], key));
  }

  lemma NestedAreFree(s: seq<Candidate>, key: string -> string, kept: seq<Candidate>)
    requires !Apart(kept) && forall c | c in kept :: StandsFree(s, key, c)
    requires forall a, b | 0 <= a < b < |kept| :: !Covers(KeyOf(kept[a], key), KeyOf(kept[b], key))
    ensures exists i, j | 0 <= i < |s| && 0 <= j < |s| ::
      (i != j && Free(s, key, i) && Free(s, key, j) && AtOrAbove(s[i].path, s[j].path))
  {
    var a, b :| 0 <= a < |kept| && 0 <= b < |kept| && a != b && AtOrAbove(kept[a].path, kept[b].path);
    assert StandsFree(s, key, kept[a]) && StandsFree(s, key, kept[b]);
    CoversItself(KeyOf(kept[a], key));
    var i :| 0 <= i < |s| && s[i] == kept[a] && Free(s, key, i);
    var j :| 0 <= j < |s| && s[j] == kept[b] && Free(s, key, j);
    assert i != j;
  }

  /** Whatever the keys, the kept candidates lie apart exactly when of two nested
      entries of the sorted list one is covered by an earlier entry; that "covered by
      no earlier entry" and "kept" are the same is all there is to it. */
  lemma KeptAreApart(s: seq<Candidate>, key: string -> string)
    ensures Apart(Keep(s, key)) <==> forall i, j | 0 <= i < |s| && 0 <= j < |s| && i != j
      && Free(s, key, i) && Free(s, key, j) :: !AtOrAbove(s[i].path, s[j].path)
  {
    var kept := Keep(s, key);
    KeepIsACover(s, key);
    if Apart(kept) {
      forall i, j | 0 <= i < |s| && 0 <= j < |s| && i != j && Free(s, key, i) && Free(s, key, j)
        ensures !AtOrAbove(s[i].path, s[j].path)
      {
        FreeIsKept(s, key, i);
        FreeIsKept(s, key, j);
        FreeOnesDiffer(s, key, i, j);
        var a :| 0 <= a < |kept| && kept[a] == s[i];
        var b :| 0 <= b < |kept| && kept[b] == s[j];
      }
    } else {
      forall c | c in kept
        ensures StandsFree(s, key, c)
      {
        KeptIsFree(s, key, c);
      }
      NestedAreFree(s, key, kept);
    }
  }

  const OUTER := Candidate(["C:", "N"], "NGX", true)
  const INNER := Candidate(["C:", "N", "link"], "NGX", true)

  lemma NestedTexts()
    ensures TextOf(OUTER) == "C:\\N" && TextOf(INNER) == "C:\\N\\link"
  {
    assert Parent(OUTER.path) == ["C:"] && Parent(INNER.path) == OUTER.path;
  }

  lemma NestedPair(a: Candidate, b: Candidate)
    requires AtOrAbove(a.path, b.path)
    ensures !Apart([a, b])
  {
    var s := [a, b];
    assert AtOrAbove(s[0].path, s[1].path);
  }

  lemma OtherFirst(a: string, b: string, i: nat)
    requires i < |a| && i < |b| && a[i] != b[i]
    ensures !Covers(a, b)
  {
    if Covers(a, b) {
      CoversIsPrefix(a, b);
    }
  }

  /** They need not: a link inside another candidate has the key of what it leads to,
      and both are kept. */
  lemma LinkInsideStays(key: string -> string)
    requires key(TextOf(OUTER)) == "\\\\?\\c:\\n" && key(TextOf(INNER)) == "\\\\?\\d:\\target"
    ensures Keep(Sort([OUTER, INNER]), key) == [OUTER, INNER] && !Apart([OUTER, INNER])
  {
    NestedTexts();
    OtherFirst(key(TextOf(OUTER)), key(TextOf(INNER)), 4);
    KeepsBoth(OUTER, INNER, key);
    NestedPair(OUTER, INNER);
  }

  /** Nor when only the inner path cannot be resolved: its key is then the path itself,
      without the prefix every resolved path has. */
  lemma UnresolvedInsideStays(key: string -> string)
    requires key(TextOf(OUTER)) == "\\\\?\\c:\\n" && key(TextOf(INNER)) == Lower(TextOf(INNER))
    ensures Keep(Sort([OUTER, INNER]), key) == [OUTER, INNER] && !Apart([OUTER, INNER])
  {
    NestedTexts();
    OtherFirst(key(TextOf(OUTER)), key(TextOf(INNER)), 0);
    KeepsBoth(OUTER, INNER, key);
    NestedPair(OUTER, INNER);
  }
}

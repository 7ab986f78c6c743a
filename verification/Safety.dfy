/** From the search to the restart: whatever a run does, it does to what it was meant
    to find. */
module Safety {
  import opened Basics
  import opened FileSystem
  import opened PathKeys
  import opened Protected
  import opened Removal
  import opened RunState
  import opened Matching
  import opened Restart
  import opened Deletion
  import opened Collapse
  import opened Discovery
  import opened SearchReach
  import opened Cleanup

  /** An enabled component of the catalog claims the path, and no exclusion protects
      it. */
  ghost predicate Targeted(s: Search, p: Path) {
    !Excluded(p, s.enabled) && exists c :: c in s.catalog && c.key in s.enabled && s.enabled[c.key] && Claims(c, p)
  }

  /** At or below a path that was visited and is targeted. */
  ghost predicate MeantToGo(s: Search, visited: seq<Path>, p: Path) {
    exists m :: m in visited && AtOrAbove(m, p) && Targeted(s, m)
  }

  /** The same entry as before. */
  predicate Unchanged(e: Entries, after: Entries, p: Path)
    requires p in e
  {
    p in after && after[p] == e[p]
  }

  /** Whatever is gone or changed was meant to go. */
  ghost predicate OnlyTargets(s: Search, visited: seq<Path>, e: Entries, after: Entries) {
    forall p | p in e && !Unchanged(e, after, p) :: MeantToGo(s, visited, p)
  }

  lemma KeptWasFound(s: Search, visited: seq<Path>, key: string -> string, c: Candidate)
    requires c in Keep(Sort(s.Candidates(visited)), key)
    ensures c.path in visited && Targeted(s, c.path)
  {
    hide Keep, Sort, Search.Candidates, Search.Keys, Search.Key, Excluded, Claims;
    var found := s.Candidates(visited);
    assert c in found by {
      KeepIsACover(Sort(found), key);
      PartHolds(Keep(Sort(found), key), Sort(found));
      SortSorts(found);
      assert c in multiset(Sort(found));
    }
    CandidatesAreExact(s, visited);
    MoreEnabledMoreMatched(s.catalog, c.path, s.enabled, s.enabled);
  }

  /** Whichever paths a search came to visit, and whatever is locked, refused or
      aborted: an entry the run or the restart removes or changes is at or below a
      visited path that an enabled component claims and no exclusion protects. */
  lemma OnlyTargetsGo(run: Run, s: Search, visited: seq<Path>, key: string -> string, trace: seq<Handling>,
                      order: Path -> seq<Name>, o: Options, e: Entries, h: seq<Event>)
    requires WellFormed(e) && Chain(trace, order, Keep(Sort(s.Candidates(visited)), key), o, e, h)
    requires run.QueueOf(h) == []
    ensures OnlyTargets(s, visited, e,
                        AfterRestart(EntriesAt(trace, e, |trace|), run.QueueOf(HistoryAt(trace, h, |trace|))))
  {
    var cs := Keep(Sort(s.Candidates(visited)), key);
    var after := AfterRestart(EntriesAt(trace, e, |trace|), run.QueueOf(HistoryAt(trace, h, |trace|)));
    NothingElseIsRemoved(run, trace, order, cs, o, e, h);
    forall p | p in e && !Unchanged(e, after, p)
      ensures MeantToGo(s, visited, p)
    {
      assert Cleanup.Inside(cs, |trace|, p);
      var i :| 0 <= i < |trace| && AtOrAbove(cs[i].path, p);
      KeptWasFound(s, visited, key, cs[i]);
    }
  }

  // ---- a run that only announces ----

  ghost predicate Idle(run: Run, x: Handling) {
    x.after == x.e && run.QueueOf(x.h') == run.QueueOf(x.h)
  }

  lemma AnnouncedOnly(run: Run, x: Handling, order: Path -> seq<Name>, c: Candidate, o: Options)
    requires HandledAs(x, order, c, o) && !o.execute
    ensures Idle(run, x)
  {
    hide Run.QueueOf, WellFormed, Enumerates, Direct;
    if x.r != Aborted {
      RecordsOnly(run, x.h, x.acts);
    }
  }

  lemma {:induction false} IdleSteps(run: Run, trace: seq<Handling>, e: Entries, h: seq<Event>, n: nat)
    requires Linked(trace, e, h) && n <= |trace| && forall i | 0 <= i < |trace| :: Idle(run, trace[i])
    ensures EntriesAt(trace, e, n) == e && run.QueueOf(HistoryAt(trace, h, n)) == run.QueueOf(h)
  {
    hide Run.QueueOf;
    if n == 0 {
    } else {
      IdleSteps(run, trace, e, h, n - 1);
      LinkAt(trace, e, h, n);
      assert Idle(run, trace[n - 1]);
    }
  }

  /** Without execute mode nothing is removed and nothing is queued. */
  lemma DryRunChangesNothing(run: Run, trace: seq<Handling>, order: Path -> seq<Name>, cs: seq<Candidate>, o: Options,
                             e: Entries, h: seq<Event>)
    requires Chain(trace, order, cs, o, e, h) && !o.execute
    ensures EntriesAt(trace, e, |trace|) == e && run.QueueOf(HistoryAt(trace, h, |trace|)) == run.QueueOf(h)
  {
    hide Run.QueueOf, HandledAs, Linked;
    forall i | 0 <= i < |trace|
      ensures Idle(run, trace[i])
    {
      assert HandledAt(trace, order, cs, o, i);
      AnnouncedOnly(run, trace[i], order, cs[i], o);
    }
    IdleSteps(run, trace, e, h, |trace|);
  }

  // ---- paths found below direct roots are direct ----

  lemma {:induction false} VisitsStayDirect(e: Entries, order: Path -> seq<Name>, p: Path, names: seq<Name>,
                                            skip: Path -> bool)
    requires WellFormed(e) && Direct(e, p) && LeadsToDirectory(e, p)
    ensures forall q | q in VisitsOf(e, order, p, names, skip) :: Direct(e, q)
    decreases Subtree(e, Resolve(e, p)), |names|
  {
    if names == [] {
    } else {
      var n := names[|names| - 1];
      VisitsStayDirect(e, order, p, names[..|names| - 1], skip);
      ResolveDirect(e, p);
      var child := p + [n];
      if child in e {
        assert Parent(child) == p;
        EntryIsDirect(e, child);
        if e[child].kind.Directory? {
          ChildOfDirectory(e, p, n);
          SmallerBelow(e, p, n);
          VisitsStayDirect(e, order, child, Listed(e, order, child), skip);
          assert EntryVisits(e, order, p, n, skip) in {[], [child] + Visits(e, order, child, skip)};
        }
      }
    }
  }

  lemma {:induction false} RootsStayDirect(e: Entries, order: Path -> seq<Name>, roots: seq<Path>, skip: Path -> bool)
    requires WellFormed(e) && forall root | root in roots :: Direct(e, root)
    ensures forall q | q in AllVisits(e, order, roots, skip) :: Direct(e, q)
  {
    if roots == [] {
    } else {
      var root := roots[|roots| - 1];
      RootsStayDirect(e, order, roots[..|roots| - 1], skip);
      if ProbeAt(e, root) == Found(ADirectory) {
        ResolveDirect(e, root);
        VisitsStayDirect(e, order, root, Listed(e, order, root), skip);
      }
    }
  }

  lemma HitIsTargeted(s: Search, p: Path)
    ensures s.Hit(p) <==> Targeted(s, p)
  {
    hide Excluded, Claims;
  }

  /** Name by name. */
  lemma TargetedByName(s: Search, p: Path)
    requires Named(p) && '*' !in Leaf(p)
    ensures Targeted(s, p) <==> !Guarded(p, s.enabled) && ClaimedAsEnabled(s.catalog, p, s.enabled)
  {
    hide Excluded, Claims, Guarded, ClaimedAsEnabled, Match;
    HitIsTargeted(s, p);
    MatchedByName(s.catalog, p, s.enabled);
  }

  /** What collapsing kept holds the path, or what was recorded in its place. */
  ghost predicate Held(s: Search, visited: seq<Path>, kept: seq<Candidate>, key: string -> string, q: Path) {
    exists c :: c in s.Candidates(visited) && s.Key(c.path) == s.Key(q) && CoveredBy(kept, key, KeyOf(c, key))
  }

  /** Every targeted path that the search can come to from the roots is held. */
  ghost predicate AllHeld(s: Search, roots: seq<Path>, visited: seq<Path>, kept: seq<Candidate>,
                          key: string -> string) {
    forall q | Targeted(s, q) && FromRoots(s.e, roots, q, NothingSkipped()) :: Held(s, visited, kept, key, q)
  }

  lemma SearchHoldsAll(s: Search, order: Path -> seq<Name>, roots: seq<Path>, visited: seq<Path>,
                       key: string -> string)
    requires WellFormed(s.e) && Enumerates(order, s.e) && forall root | root in roots :: Direct(s.e, root)
    requires s.Candidates(visited) == s.Candidates(AllVisits(s.e, order, roots, NothingSkipped()))
    ensures AllHeld(s, roots, visited, Keep(Sort(s.Candidates(visited)), key), key)
  {
    hide AllVisits, FromRoots, Search.Hit, Search.Candidates, Search.Key, Keep, Sort, CoveredBy, Targeted, Direct;
    var found := s.Candidates(visited);
    SearchIsComplete(s, order, roots);
    KeepIsACover(Sort(found), key);
    SortSorts(found);
    forall q | Targeted(s, q) && FromRoots(s.e, roots, q, NothingSkipped())
      ensures Held(s, visited, Keep(Sort(found), key), key, q)
    {
      HitIsTargeted(s, q);
      assert StoodFor(s, found, q);
      var c :| c in found && s.Key(c.path) == s.Key(q);
      assert c in multiset(Sort(found));
    }
  }

  /** The search and the collapse behind it; without an abort all that is targeted below
      the roots is held. */
  method FindCandidates(s: Search, order: Path -> seq<Name>, abortSeen: nat -> bool, roots: seq<Path>,
                        key: string -> string)
    returns (kept: seq<Candidate>, aborted: bool, ghost visited: seq<Path>)
    requires WellFormed(s.e) && Enumerates(order, s.e) && forall root | root in roots :: Direct(s.e, root)
    ensures kept == Keep(Sort(s.Candidates(visited)), key) && PartOf(visited, AllVisits(s.e, order, roots, Skips(s)))
    ensures !aborted ==> AllHeld(s, roots, visited, kept, key)
    ensures forall c | c in kept :: Direct(s.e, c.path)
  {
    hide Keep, Sort, AllVisits, Direct, WellFormed, PartOf, Search.Candidates, Search.Keys, Held, Enumerates;
    var scan := new Scan(s, order, abortSeen);
    scan.DiscoverCandidates(roots);
    kept := CollapseNested(scan.candidates, key);
    aborted, visited := scan.aborted, scan.visited;
    if !aborted {
      SearchHoldsAll(s, order, roots, visited, key);
    }
    PartHolds(visited, AllVisits(s.e, order, roots, Skips(s)));
    RootsStayDirect(s.e, order, roots, Skips(s));
    forall c | c in kept
      ensures Direct(s.e, c.path)
    {
      KeptWasFound(s, visited, key, c);
    }
  }

  /** The deletion loop over what the search and the collapse left. */
  method RemoveKept(vol: Volume, run: Run, kept: seq<Candidate>, o: Options, containerOnly: Path -> bool,
                    ghost s: Search, ghost visited: seq<Path>, ghost key: string -> string)
    requires vol.Valid() && run.Valid() && run.queue == [] && kept == Keep(Sort(s.Candidates(visited)), key)
    requires forall c | c in kept :: Direct(vol.entries, c.path)
    modifies vol, run
    ensures vol.Valid() && run.Valid()
    ensures OnlyTargets(s, visited, old(vol.entries), AfterRestart(vol.entries, run.queue))
    ensures !o.execute ==> vol.entries == old(vol.entries) && run.queue == []
  {
    hide Keep, Sort, AfterRestart, Unchanged, MeantToGo, Direct, Chain, EntriesAt, HistoryAt, Run.QueueOf;
    ghost var e, h := vol.entries, run.history;
    ghost var trace := DeleteAll(vol, run, kept, o, containerOnly);
    OnlyTargetsGo(run, s, visited, key, trace, vol.order, o, e, h);
    if !o.execute {
      DryRunChangesNothing(run, trace, vol.order, kept, o, e, h);
    }
  }

  /** The part of run_cleanup from the search to the last candidate: what is gone or
      changed, now or after the restart, was meant to go. */
  method SearchAndRemove(s: Search, order: Path -> seq<Name>, abortSeen: nat -> bool, roots: seq<Path>,
                         key: string -> string, vol: Volume, run: Run, o: Options, containerOnly: Path -> bool)
    returns (kept: seq<Candidate>, aborted: bool, ghost visited: seq<Path>)
    requires vol.Valid() && run.Valid() && run.queue == [] && s.e == vol.entries && Enumerates(order, s.e)
    requires forall root | root in roots :: Direct(s.e, root)
    modifies vol, run
    ensures vol.Valid() && run.Valid()
    ensures kept == Keep(Sort(s.Candidates(visited)), key) && PartOf(visited, AllVisits(s.e, order, roots, Skips(s)))
    ensures !aborted ==> AllHeld(s, roots, visited, kept, key)
    ensures OnlyTargets(s, visited, s.e, AfterRestart(vol.entries, run.queue))
    ensures !o.execute ==> vol.entries == s.e && run.queue == []
  {
    hide Keep, Sort, AllVisits, PartOf, AfterRestart, Unchanged, MeantToGo, Direct, Run.QueueOf, Search.Candidates;
    hide Held, Targeted, FromRoots;
    kept, aborted, visited := FindCandidates(s, order, abortSeen, roots, key);
    RemoveKept(vol, run, kept, o, containerOnly, s, visited, key);
  }
}

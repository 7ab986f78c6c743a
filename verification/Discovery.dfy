/** Finding candidates: the pruned no-follow walk from each root, and the check
    that keeps one candidate per canonical path. */
module Discovery {
  import opened Basics
  import opened FileSystem
  import opened RunState
  import opened Matching
  import opened Removal

  // ---- what the walk visits ----

  /** The directory `p` leads to, if that is what it leads to. */
  predicate LeadsToDirectory(e: Entries, p: Path) {
    p != [] && Resolve(e, p) in e && e[Resolve(e, p)].kind.Directory?
  }

  function Listed(e: Entries, order: Path -> seq<Name>, p: Path): seq<Name>
    requires LeadsToDirectory(e, p)
  {
    var listing := ListingAt(e, order, p);
    if listing.None? then [] else listing.value
  }

  lemma ChildOfDirectory(e: Entries, p: Path, n: Name)
    requires LeadsToDirectory(e, p)
    ensures Resolve(e, p + [n]) == Resolve(e, p) + [n]
  {
    assert Parent(p + [n]) == p;
  }

  /** Everything visited below `p`, an entry before what lies below it. `skip` says
      which entries are passed over with all they contain; links never are, and
      are never entered. */
  ghost function Visits(e: Entries, order: Path -> seq<Name>, p: Path, skip: Path -> bool): seq<Path>
    requires LeadsToDirectory(e, p)
    decreases Subtree(e, Resolve(e, p)), 1, 0
  {
    VisitsOf(e, order, p, Listed(e, order, p), skip)
  }

  ghost function VisitsOf(e: Entries, order: Path -> seq<Name>, p: Path, names: seq<Name>, skip: Path -> bool)
    : seq<Path>
    requires LeadsToDirectory(e, p)
    decreases Subtree(e, Resolve(e, p)), 0, |names|
  {
    if names == [] then []
    else
      var front, n := names[..|names| - 1], names[|names| - 1];
      VisitsOf(e, order, p, front, skip) + EntryVisits(e, order, p, n, skip)
  }

  ghost function EntryVisits(e: Entries, order: Path -> seq<Name>, p: Path, n: Name, skip: Path -> bool): seq<Path>
    requires LeadsToDirectory(e, p)
    decreases Subtree(e, Resolve(e, p)), 0, 0
  {
    var q := Resolve(e, p) + [n];
    if q !in e then []
    else if !e[q].kind.Reparse? && skip(p + [n]) then []
    else if e[q].kind.Directory? then
      ChildOfDirectory(e, p, n);
      SmallerBelow(e, Resolve(e, p), n);
      [p + [n]] + Visits(e, order, p + [n], skip)
    else [p + [n]]
  }

  // ---- pruning loses nothing ----

  function NothingSkipped(): Path -> bool {
    (p: Path) => false
  }

  /** The visited paths that matter. */
  function Hits(v: seq<Path>, hit: Path -> bool): seq<Path> {
    if v == [] then []
    else Hits(v[..|v| - 1], hit) + (if hit(v[|v| - 1]) then [v[|v| - 1]] else [])
  }

  lemma {:induction false} HitsConcat(a: seq<Path>, b: seq<Path>, hit: Path -> bool)
    ensures Hits(a + b, hit) == Hits(a, hit) + Hits(b, hit)
  {
    if b == [] {
      assert a + b == a;
    } else {
      var last := if hit(b[|b| - 1]) then [b[|b| - 1]] else [];
      assert (a + b)[..|a + b| - 1] == a + b[..|b| - 1];
      HitsConcat(a, b[..|b| - 1], hit);
      Assoc(Hits(a, hit), Hits(b[..|b| - 1], hit), last);
    }
  }

  lemma HitsOfOne(p: Path, hit: Path -> bool)
    ensures Hits([p], hit) == if hit(p) then [p] else []
    ensures Hits([], hit) == []
  {
    assert [p][..0] == [];
  }

  /** Whatever is passed over or not, a folder none of whose contents matter
      contributes nothing. */
  lemma {:induction false} NothingBelow(e: Entries, order: Path -> seq<Name>, p: Path, skip: Path -> bool,
                                        hit: Path -> bool)
    requires LeadsToDirectory(e, p) && forall more :: !hit(p + more)
    ensures Hits(Visits(e, order, p, skip), hit) == []
    decreases Subtree(e, Resolve(e, p)), 1, 0
  {
    NothingBelowOf(e, order, p, Listed(e, order, p), skip, hit);
  }

  lemma {:induction false} NothingBelowOf(e: Entries, order: Path -> seq<Name>, p: Path, names: seq<Name>,
                                          skip: Path -> bool, hit: Path -> bool)
    requires LeadsToDirectory(e, p) && forall more :: !hit(p + more)
    ensures Hits(VisitsOf(e, order, p, names, skip), hit) == []
    decreases Subtree(e, Resolve(e, p)), 0, |names|
  {
    if names == [] {
    } else {
      var front, n := names[..|names| - 1], names[|names| - 1];
      NothingBelowOf(e, order, p, front, skip, hit);
      NothingInEntry(e, order, p, n, skip, hit);
      HitsConcat(VisitsOf(e, order, p, front, skip), EntryVisits(e, order, p, n, skip), hit);
    }
  }

  lemma {:induction false} NothingInEntry(e: Entries, order: Path -> seq<Name>, p: Path, n: Name, skip: Path -> bool,
                                          hit: Path -> bool)
    requires LeadsToDirectory(e, p) && forall more :: !hit(p + more)
    ensures Hits(EntryVisits(e, order, p, n, skip), hit) == []
    decreases Subtree(e, Resolve(e, p)), 0, 0
  {
    hide Hits, Visits;
    var q := Resolve(e, p) + [n];
    HitsOfOne(p + [n], hit);
    NothingDeeper(p, n, hit);
    if q in e && e[q].kind.Directory? {
      ChildOfDirectory(e, p, n);
      SmallerBelow(e, Resolve(e, p), n);
      NothingBelow(e, order, p + [n], skip, hit);
      HitsConcat([p + [n]], Visits(e, order, p + [n], skip), hit);
    }
  }

  lemma NothingDeeper(p: Path, n: Name, hit: Path -> bool)
    requires forall more :: !hit(p + more)
    ensures !hit(p + [n]) && forall more :: !hit(p + [n] + more)
  {
    forall more
      ensures !hit(p + [n] + more)
    {
      assert p + [n] + more == p + ([n] + more);
    }
  }

  /** Passing over folders at and below which nothing matters changes nothing that
      matters, in content or order. */
  lemma {:induction false} SkippingLosesNothing(e: Entries, order: Path -> seq<Name>, p: Path, skip: Path -> bool,
                                                hit: Path -> bool)
    requires LeadsToDirectory(e, p) && forall q, more | q != [] && skip(q) :: !hit(q + more)
    ensures Hits(Visits(e, order, p, skip), hit) == Hits(Visits(e, order, p, NothingSkipped()), hit)
    decreases Subtree(e, Resolve(e, p)), 1, 0
  {
    SkippingLosesNothingOf(e, order, p, Listed(e, order, p), skip, hit);
  }

  lemma {:induction false} SkippingLosesNothingOf(e: Entries, order: Path -> seq<Name>, p: Path, names: seq<Name>,
                                                  skip: Path -> bool, hit: Path -> bool)
    requires LeadsToDirectory(e, p) && forall q, more | q != [] && skip(q) :: !hit(q + more)
    ensures Hits(VisitsOf(e, order, p, names, skip), hit) == Hits(VisitsOf(e, order, p, names, NothingSkipped()), hit)
    decreases Subtree(e, Resolve(e, p)), 0, |names|
  {
    if names == [] {
    } else {
      var front, n := names[..|names| - 1], names[|names| - 1];
      SkippingLosesNothingOf(e, order, p, front, skip, hit);
      SkippingLosesNothingIn(e, order, p, n, skip, hit);
      HitsConcat(VisitsOf(e, order, p, front, skip), EntryVisits(e, order, p, n, skip), hit);
      HitsConcat(VisitsOf(e, order, p, front, NothingSkipped()), EntryVisits(e, order, p, n, NothingSkipped()), hit);
    }
  }

  lemma {:induction false} SkippingLosesNothingIn(e: Entries, order: Path -> seq<Name>, p: Path, n: Name,
                                                  skip: Path -> bool, hit: Path -> bool)
    requires LeadsToDirectory(e, p) && forall q, more | q != [] && skip(q) :: !hit(q + more)
    ensures Hits(EntryVisits(e, order, p, n, skip), hit) == Hits(EntryVisits(e, order, p, n, NothingSkipped()), hit)
    decreases Subtree(e, Resolve(e, p)), 0, 0
  {
    var q := Resolve(e, p) + [n];
    HitsOfOne(p + [n], hit);
    if q in e && !e[q].kind.Reparse? && skip(p + [n]) {
      assert p + [n] + [] == p + [n];
      if e[q].kind.Directory? {
        ChildOfDirectory(e, p, n);
        NothingBelow(e, order, p + [n], NothingSkipped(), hit);
        HitsConcat([p + [n]], Visits(e, order, p + [n], NothingSkipped()), hit);
      }
    } else if q in e && e[q].kind.Directory? {
      ChildOfDirectory(e, p, n);
      SmallerBelow(e, Resolve(e, p), n);
      SkippingLosesNothing(e, order, p + [n], skip, hit);
      HitsConcat([p + [n]], Visits(e, order, p + [n], skip), hit);
      HitsConcat([p + [n]], Visits(e, order, p + [n], NothingSkipped()), hit);
    }
  }

  // ---- from visited paths to candidates ----

  /** What a search depends on. `canon` is the lowercased canonical path, empty
      when a path cannot be canonicalized. */
  datatype Search = Search(catalog: seq<Component>, enabled: Enabled, e: Entries, canon: Path -> string)
  {
    predicate Hit(p: Path) {
      Match(catalog, p, enabled).Some?
    }

    function Key(p: Path): string {
      if canon(p) == "" then PathKey(p) else canon(p)
    }

    function CandidateAt(p: Path): Candidate
      requires Hit(p)
    {
      Candidate(p, Match(catalog, p, enabled).value.key, ProbeAt(e, p) == Found(ADirectory))
    }

    /** The keys of the matching paths among those visited. */
    function Keys(v: seq<Path>): set<string> {
      if v == [] then {}
      else Keys(v[..|v| - 1]) + (if Hit(v[|v| - 1]) then {Key(v[|v| - 1])} else {})
    }

    predicate Fresh(before: seq<Path>, p: Path) {
      Hit(p) && Key(p) !in Keys(before)
    }

    /** The first matching path of each key, in the order of visits. */
    function Candidates(v: seq<Path>): seq<Candidate> {
      if v == [] then []
      else
        var before, p := v[..|v| - 1], v[|v| - 1];
        Candidates(before) + (if Fresh(before, p) then [CandidateAt(p)] else [])
    }

    predicate Prunes(p: Path) {
      Pruned(p, enabled)
    }
  }

  /** Only matching paths count. */
  lemma {:induction false} CandidatesOfHits(s: Search, v: seq<Path>)
    ensures s.Keys(v) == s.Keys(Hits(v, p => s.Hit(p)))
    ensures s.Candidates(v) == s.Candidates(Hits(v, p => s.Hit(p)))
  {
    if v == [] {
    } else {
      var before, p := v[..|v| - 1], v[|v| - 1];
      var hits := Hits(before, p => s.Hit(p));
      CandidatesOfHits(s, before);
      if s.Hit(p) {
        assert (hits + [p])[..|hits + [p]| - 1] == hits;
      } else {
        assert hits + [] == hits;
      }
    }
  }

  /** Everything visited from a list of roots. */
  ghost function RootVisits(e: Entries, order: Path -> seq<Name>, root: Path, skip: Path -> bool): seq<Path> {
    [root]
    + (if root != [] && ProbeAt(e, root) == Found(ADirectory) then Visits(e, order, root, skip) else [])
  }

  ghost function AllVisits(e: Entries, order: Path -> seq<Name>, roots: seq<Path>, skip: Path -> bool): seq<Path> {
    if roots == [] then []
    else AllVisits(e, order, roots[..|roots| - 1], skip) + RootVisits(e, order, roots[|roots| - 1], skip)
  }

  lemma {:induction false} SameHits(s: Search, order: Path -> seq<Name>, roots: seq<Path>, hit: Path -> bool)
    requires forall q, more | q != [] && s.Prunes(q) :: !hit(q + more)
    ensures Hits(AllVisits(s.e, order, roots, p => s.Prunes(p)), hit)
         == Hits(AllVisits(s.e, order, roots, NothingSkipped()), hit)
  {
    hide Hits, Visits, Search.Prunes;
    if roots == [] {
    } else {
      var front, root := roots[..|roots| - 1], roots[|roots| - 1];
      var skip := (p: Path) => s.Prunes(p);
      SameHits(s, order, front, hit);
      HitsConcat(AllVisits(s.e, order, front, skip), RootVisits(s.e, order, root, skip), hit);
      HitsConcat(AllVisits(s.e, order, front, NothingSkipped()), RootVisits(s.e, order, root, NothingSkipped()), hit);
      if root != [] && ProbeAt(s.e, root) == Found(ADirectory) {
        SkippingLosesNothing(s.e, order, root, skip, hit);
        HitsConcat([root], Visits(s.e, order, root, skip), hit);
        HitsConcat([root], Visits(s.e, order, root, NothingSkipped()), hit);
      }
    }
  }

  /** Over any file system, the pruned search finds exactly the candidates an
      unpruned no-follow search would find, in the same order. */
  lemma PruningLosesNothing(s: Search, order: Path -> seq<Name>, roots: seq<Path>)
    ensures s.Candidates(AllVisits(s.e, order, roots, p => s.Prunes(p)))
         == s.Candidates(AllVisits(s.e, order, roots, NothingSkipped()))
    ensures s.Keys(AllVisits(s.e, order, roots, p => s.Prunes(p)))
         == s.Keys(AllVisits(s.e, order, roots, NothingSkipped()))
  {
    var hit := (p: Path) => s.Hit(p);
    forall q, more | q != [] && s.Prunes(q)
      ensures !hit(q + more)
    {
      PrunedIsUnmatched(s.catalog, q, more, s.enabled);
    }
    SameHits(s, order, roots, hit);
    CandidatesOfHits(s, AllVisits(s.e, order, roots, p => s.Prunes(p)));
    CandidatesOfHits(s, AllVisits(s.e, order, roots, NothingSkipped()));
  }

  lemma HitIsClaimed(s: Search, p: Path)
    requires s.Hit(p)
    ensures s.CandidateAt(p).path == p && IsEnabled(s.enabled, s.CandidateAt(p).componentKey)
    ensures !Excluded(p, s.enabled)
  {
  }

  /** Each candidate was visited, is claimed by the enabled component it names, and
      no two have the same canonical path; no canonical path that matched is
      missing. */
  lemma {:induction false} CandidatesAreExact(s: Search, v: seq<Path>)
    ensures forall c | c in s.Candidates(v) ::
      && c.path in v && s.Hit(c.path) && c == s.CandidateAt(c.path) && s.Key(c.path) in s.Keys(v)
      && IsEnabled(s.enabled, c.componentKey) && !Excluded(c.path, s.enabled)
    ensures forall i, j | 0 <= i < j < |s.Candidates(v)| ::
      s.Key(s.Candidates(v)[i].path) != s.Key(s.Candidates(v)[j].path)
    ensures forall k | k in s.Keys(v) :: exists c :: c in s.Candidates(v) && s.Key(c.path) == k
    ensures forall p | p in v && s.Hit(p) :: s.Key(p) in s.Keys(v)
  {
    hide Match, Excluded, IsEnabled, ProbeAt, Search.Key;
    if v == [] {
    } else {
      var before, p := v[..|v| - 1], v[|v| - 1];
      if s.Hit(p) {
        HitIsClaimed(s, p);
      }
      CandidatesAreExact(s, before);
      forall k | k in s.Keys(v)
        ensures exists c :: c in s.Candidates(v) && s.Key(c.path) == k
      {
        if k in s.Keys(before) {
          var c :| c in s.Candidates(before) && s.Key(c.path) == k;
          assert c in s.Candidates(v);
        } else {
          assert s.CandidateAt(p) in s.Candidates(v);
        }
      }
    }
  }

  /** Where the canonical path is known, one candidate stands for all spellings of it, and
      otherwise for all spellings that differ in letter case only; each says truly whether
      it is a directory. */
  lemma OneForEachPlace(s: Search, v: seq<Path>, i: nat, j: nat)
    requires i < |s.Candidates(v)| && j < |s.Candidates(v)|
    ensures var a, b := s.Candidates(v)[i], s.Candidates(v)[j];
      && (s.canon(a.path) == s.canon(b.path) != "" ==> i == j)
      && (s.canon(a.path) == "" == s.canon(b.path) && PathKey(a.path) == PathKey(b.path) ==> i == j)
      && (a.isDirectory <==> ProbeAt(s.e, a.path) == Found(ADirectory))
  {
    hide PathKey, ProbeAt, Search.Keys, Search.Hit, Search.Candidates;
    CandidatesAreExact(s, v);
    var a, b := s.Candidates(v)[i], s.Candidates(v)[j];
    assert a in s.Candidates(v) && b in s.Candidates(v);
    assert i != j ==> s.Key(a.path) != s.Key(b.path);
  }

  /** Enabling more components never loses a candidate: every canonical path found
      before is found again. */
  lemma {:induction false} MoreEnabledFindsMore(s: Search, more: Enabled, v: seq<Path>)
    requires forall key | IsEnabled(s.enabled, key) :: IsEnabled(more, key)
    ensures s.Keys(v) <= s.(enabled := more).Keys(v)
  {
    if v == [] {
    } else {
      MoreEnabledFindsMore(s, more, v[..|v| - 1]);
      if s.Hit(v[|v| - 1]) {
        MoreEnabledMoreMatched(s.catalog, v[|v| - 1], s.enabled, more);
      }
    }
  }

  /** The same for the pruned searches: enabling more components, although it may
      open folders that were passed over, only adds canonical paths. */
  lemma MoreComponentsFindMore(s: Search, more: Enabled, order: Path -> seq<Name>, roots: seq<Path>)
    requires forall key | IsEnabled(s.enabled, key) :: IsEnabled(more, key)
    ensures var s' := s.(enabled := more);
      s.Keys(AllVisits(s.e, order, roots, p => s.Prunes(p))) <= s'.Keys(AllVisits(s.e, order, roots, p => s'.Prunes(p)))
  {
    PruningLosesNothing(s, order, roots);
    PruningLosesNothing(s.(enabled := more), order, roots);
    MoreEnabledFindsMore(s, more, AllVisits(s.e, order, roots, NothingSkipped()));
  }

  // ---- the search as it is written ----

  class Scan {
    var seen: set<string>
    var candidates: seq<Candidate>
    var aborted: bool
    var polls: nat
    const search: Search
    const order: Path -> seq<Name>
    /** What the n-th look at the abort flag finds. */
    const abortSeen: nat -> bool
    ghost var visited: seq<Path>

    ghost predicate Valid()
      reads `seen, `candidates, `visited
    {
      seen == search.Keys(visited) && candidates == search.Candidates(visited)
    }

    /** The abort flag of this process alone: once seen, it stays. One relayed by a
        launcher can go with the launcher. */
    ghost predicate FlagLasts() {
      forall i: nat, j: nat | i <= j && abortSeen(i) :: abortSeen(j)
    }

    /** An abort that was noticed is still to be seen. */
    ghost predicate AbortLasts()
      reads `aborted, `polls
    {
      FlagLasts() && aborted ==> abortSeen(polls)
    }

    constructor (search: Search, order: Path -> seq<Name>, abortSeen: nat -> bool)
      ensures Valid() && visited == [] && !aborted
      ensures this.search == search && this.order == order && this.abortSeen == abortSeen
    {
      seen, candidates, aborted, polls, visited := {}, [], false, 0, [];
      this.search, this.order, this.abortSeen := search, order, abortSeen;
    }

    method AbortRequested() returns (b: bool)
      requires Valid() && AbortLasts()
      modifies this`polls, this`aborted
      ensures Valid() && AbortLasts() && b == abortSeen(old(polls)) && aborted == (old(aborted) || b)
      ensures FlagLasts() && old(aborted) ==> b
    {
      b := abortSeen(polls);
      polls := polls + 1;
      if b {
        aborted := true;
      }
    }

    /** The visit callback. */
    method ProcessPath(p: Path)
      requires Valid()
      modifies this`seen, this`candidates, this`visited
      ensures Valid() && visited == old(visited) + [p]
    {
      var comp := MatchComponentForPath(search.catalog, p, search.enabled);
      assert (visited + [p])[..|visited|] == visited;
      visited := visited + [p];
      if comp.None? {
        return;
      }
      var isDir := ProbeAt(search.e, p) == Found(ADirectory);
      var canonKey := search.Key(p);
      if canonKey !in seen {
        seen := seen + {canonKey};
        candidates := candidates + [Candidate(p, comp.value.key, isDir)];
      }
    }

    /** walk. Without an abort request everything there is to visit has been
        visited. With one, part of it, in order: each folder whose listing met the
        request is left, and the folders around it go on unless they meet it, too;
        when the request stays, that part is a beginning. */
    method Walk(p: Path)
      requires Valid() && AbortLasts() && LeadsToDirectory(search.e, p)
      modifies this
      ensures Valid() && AbortLasts() && (old(aborted) ==> aborted)
      ensures Went(old(visited), visited, Visits(search.e, order, p, Skips(search)), aborted, FlagLasts())
      decreases Subtree(search.e, Resolve(search.e, p)), 1
    {
      hide Went, VisitsOf, EntryVisits, Subtree, Resolve, Search.Keys, Search.Candidates, Search.Prunes;
      hide FlagLasts, AbortLasts;
      var names := Listed(search.e, order, p);
      ghost var before := visited;
      assert names[..0] == [];
      NothingListed(search.e, order, p, Skips(search));
      assert names[..|names|] == names;
      WentNowhere(before, aborted, FlagLasts());
      for i := 0 to |names|
        invariant Valid() && AbortLasts() && (old(aborted) ==> aborted)
        invariant Went(before, visited, VisitsOf(search.e, order, p, names[..i], Skips(search)), aborted, FlagLasts())
      {
        OneMoreEntry(search.e, order, p, names, i, Skips(search));
        ghost var so := VisitsOf(search.e, order, p, names[..i], Skips(search));
        ghost var here, stopped := visited, aborted;
        var abort := AbortRequested();
        if abort {
          SomeEntries(search.e, order, p, names, i, Skips(search));
          WentLonger(before, here, so, Visits(search.e, order, p, Skips(search)), stopped, FlagLasts());
          return;
        }
        WalkEntry(p, names[i]);
        WentOn(before, so, here, stopped, EntryVisits(search.e, order, p, names[i], Skips(search)), visited, aborted,
               FlagLasts());
      }
    }

    method WalkEntry(p: Path, n: Name)
      requires Valid() && AbortLasts() && LeadsToDirectory(search.e, p) && (FlagLasts() ==> !aborted)
      requires Resolve(search.e, p) + [n] in search.e
      modifies this
      ensures Valid() && AbortLasts() && (old(aborted) ==> aborted)
      ensures Went(old(visited), visited, EntryVisits(search.e, order, p, n, Skips(search)), aborted, FlagLasts())
      decreases Subtree(search.e, Resolve(search.e, p)), 0
    {
      hide Went, Visits, Search.Keys, Search.Candidates, FlagLasts, AbortLasts;
      var path := p + [n];
      var node := search.e[Resolve(search.e, p) + [n]];
      ghost var before := visited;
      WentNowhere(before, aborted, FlagLasts());
      if !node.kind.Reparse? && search.Prunes(path) {
        return;
      }
      ProcessPath(path);
      WentOne(before, path, aborted, FlagLasts());
      if node.kind.Directory? {
        ChildOfDirectory(search.e, p, n);
        SmallerBelow(search.e, Resolve(search.e, p), n);
        ghost var here, stopped := visited, aborted;
        Walk(path);
        WentOn(before, [path], here, stopped, Visits(search.e, order, path, Skips(search)), visited, aborted,
               FlagLasts());
      }
    }

    /** discover_candidates, before nested candidates are collapsed. */
    method DiscoverCandidates(roots: seq<Path>)
      requires Valid() && visited == [] && !aborted
      modifies this
      ensures Valid() && PartOf(visited, AllVisits(search.e, order, roots, Skips(search)))
      ensures FlagLasts() ==> visited <= AllVisits(search.e, order, roots, Skips(search))
      ensures !aborted ==> candidates == search.Candidates(AllVisits(search.e, order, roots, NothingSkipped()))
    {
      hide Went, RootVisits, Search.Keys, Search.Candidates, FlagLasts;
      assert roots[..0] == [];
      assert roots[..|roots|] == roots;
      WentNowhere([], aborted, FlagLasts());
      for i := 0 to |roots|
        invariant Valid() && AbortLasts()
        invariant Went([], visited, AllVisits(search.e, order, roots[..i], Skips(search)), aborted, FlagLasts())
      {
        OneMoreRoot(search.e, order, roots, i, Skips(search));
        ghost var so := AllVisits(search.e, order, roots[..i], Skips(search));
        ghost var here, stopped := visited, aborted;
        var abort := AbortRequested();
        if abort {
          SomeRoots(search.e, order, roots, i, Skips(search));
          WentLonger([], here, so, AllVisits(search.e, order, roots, Skips(search)), stopped, FlagLasts());
          break;
        }
        ScanRoot(roots[i]);
        WentOn([], so, here, stopped, RootVisits(search.e, order, roots[i], Skips(search)), visited, aborted,
               FlagLasts());
      }
      PruningLosesNothing(search, order, roots);
      FromNothing(visited, AllVisits(search.e, order, roots, Skips(search)), aborted, FlagLasts());
    }

    method ScanRoot(root: Path)
      requires Valid() && AbortLasts() && (FlagLasts() ==> !aborted)
      modifies this
      ensures Valid() && AbortLasts() && (old(aborted) ==> aborted)
      ensures Went(old(visited), visited, RootVisits(search.e, order, root, Skips(search)), aborted, FlagLasts())
    {
      hide Went, Visits, Search.Keys, Search.Candidates, FlagLasts, AbortLasts;
      ghost var before := visited;
      ProcessPath(root);
      WentOne(before, root, aborted, FlagLasts());
      assert [root] + [] == [root];
      if root != [] && ProbeAt(search.e, root) == Found(ADirectory) {
        ghost var here, stopped := visited, aborted;
        Walk(root);
        WentOn(before, [root], here, stopped, Visits(search.e, order, root, Skips(search)), visited, aborted,
               FlagLasts());
      }
    }
  }

  function Skips(s: Search): Path -> bool {
    (p: Path) => s.Prunes(p)
  }

  /** From `before`, part of `more` has been visited: all of it without an abort, and a
      beginning of it when an abort flag that was seen stays. */
  ghost predicate Went(before: seq<Path>, now: seq<Path>, more: seq<Path>, aborted: bool, lasts: bool) {
    && before <= now && PartOf(now[|before|..], more)
    && (!aborted ==> now == before + more)
    && (lasts ==> now <= before + more)
  }

  lemma WentNowhere(before: seq<Path>, aborted: bool, lasts: bool)
    ensures Went(before, before, [], aborted, lasts)
  {
    assert before + [] == before && before[|before|..] == [];
  }

  lemma WentOne(before: seq<Path>, p: Path, aborted: bool, lasts: bool)
    ensures Went(before, before + [p], [p], aborted, lasts)
  {
    assert (before + [p])[|before|..] == [p];
    WholeIsPart([p]);
  }

  lemma FromNothing(now: seq<Path>, more: seq<Path>, aborted: bool, lasts: bool)
    requires Went([], now, more, aborted, lasts)
    ensures PartOf(now, more) && (lasts ==> now <= more) && (!aborted ==> now == more)
  {
    assert now[0..] == now && [] + more == more;
  }

  /** The walk is left here. */
  lemma WentLonger(before: seq<Path>, now: seq<Path>, more: seq<Path>, longer: seq<Path>, stopped: bool, lasts: bool)
    requires Went(before, now, more, stopped, lasts) && more <= longer
    ensures Went(before, now, longer, true, lasts)
  {
    var rest := longer[|more|..];
    assert longer == more + rest;
    PartsTogether(now[|before|..], more, [], rest);
    assert now[|before|..] + [] == now[|before|..];
  }

  /** The walk goes on; under a flag that stays, only when it has not been seen. */
  lemma WentOn(before: seq<Path>, first: seq<Path>, here: seq<Path>, stopped: bool, more: seq<Path>, now: seq<Path>,
               aborted: bool, lasts: bool)
    requires Went(before, here, first, stopped, lasts) && Went(here, now, more, aborted, lasts)
    requires (lasts ==> !stopped) && (stopped ==> aborted)
    ensures Went(before, now, first + more, aborted, lasts)
  {
    assert now[|before|..] == here[|before|..] + now[|here|..];
    PartsTogether(here[|before|..], first, now[|here|..], more);
    Assoc(before, first, more);
  }

  lemma NothingListed(e: Entries, order: Path -> seq<Name>, p: Path, skip: Path -> bool)
    requires LeadsToDirectory(e, p)
    ensures VisitsOf(e, order, p, [], skip) == []
  {
  }

  lemma OneMoreEntry(e: Entries, order: Path -> seq<Name>, p: Path, names: seq<Name>, i: nat, skip: Path -> bool)
    requires LeadsToDirectory(e, p) && i < |names|
    ensures VisitsOf(e, order, p, names[..i + 1], skip)
         == VisitsOf(e, order, p, names[..i], skip) + EntryVisits(e, order, p, names[i], skip)
  {
    assert names[..i + 1][..i] == names[..i];
  }

  lemma {:induction false} SomeEntries(e: Entries, order: Path -> seq<Name>, p: Path, names: seq<Name>, i: nat,
                                       skip: Path -> bool)
    requires LeadsToDirectory(e, p) && i <= |names|
    ensures VisitsOf(e, order, p, names[..i], skip) <= VisitsOf(e, order, p, names, skip)
    decreases |names| - i
  {
    if i == |names| {
      assert names[..i] == names;
    } else {
      OneMoreEntry(e, order, p, names, i, skip);
      SomeEntries(e, order, p, names, i + 1, skip);
    }
  }

  lemma OneMoreRoot(e: Entries, order: Path -> seq<Name>, roots: seq<Path>, i: nat, skip: Path -> bool)
    requires i < |roots|
    ensures AllVisits(e, order, roots[..i + 1], skip)
         == AllVisits(e, order, roots[..i], skip) + RootVisits(e, order, roots[i], skip)
  {
    assert roots[..i + 1][..i] == roots[..i];
  }

  lemma {:induction false} SomeRoots(e: Entries, order: Path -> seq<Name>, roots: seq<Path>, i: nat, skip: Path -> bool)
    requires i <= |roots|
    ensures AllVisits(e, order, roots[..i], skip) <= AllVisits(e, order, roots, skip)
    decreases |roots| - i
  {
    if i == |roots| {
      assert roots[..i] == roots;
    } else {
      OneMoreRoot(e, order, roots, i, skip);
      SomeRoots(e, order, roots, i + 1, skip);
    }
  }
}

/** Which entries a search comes to, said without following it: by what lies between
    them and the root. */
module SearchReach {
  import opened Basics
  import opened FileSystem
  import opened Matching
  import opened Removal
  import opened Discovery

  /** An entry below `p`, every directory from `p` down to it can be listed, and nothing
      below `p` down to and with it is passed over, unless it is a link. */
  ghost predicate InSearch(e: Entries, p: Path, q: Path, skip: Path -> bool) {
    && q in e && Above(p, q)
    && (forall d | d in e && AtOrAbove(p, d) && Above(d, q) :: !e[d].unreadable)
    && forall a | a in e && Above(p, a) && AtOrAbove(a, q) && !e[a].kind.Reparse? :: !skip(a)
  }

  /** The same for what lies at or below the entry `n` of `p`. */
  ghost predicate InEntry(e: Entries, p: Path, n: Name, q: Path, skip: Path -> bool) {
    var k := p + [n];
    && k in e && (e[k].kind.Reparse? || !skip(k))
    && (q == k || (e[k].kind.Directory? && InSearch(e, k, q, skip)))
  }

  lemma InEntryIsBelow(e: Entries, p: Path, n: Name, q: Path, skip: Path -> bool)
    requires InEntry(e, p, n, q, skip)
    ensures Above(p, q) && q[|p|] == n
  {
    assert AtOrAbove(p + [n], q);
    BelowChild(p, n, q);
  }

  /** Between a directory and what lies below it, its entry comes first. */
  lemma FirstEntry(e: Entries, p: Path, q: Path, skip: Path -> bool)
    requires WellFormed(e) && p != [] && p in e && !e[p].unreadable && Above(p, q)
    ensures InSearch(e, p, q, skip) <==> q in e && InEntry(e, p, q[|p|], q, skip)
  {
    var n := q[|p|];
    var k := p + [n];
    BelowChild(p, n, q);
    assert Above(p, k);
    if q in e && q != k {
      StrictOrEqual(k, q);
      AncestorsAreDirectories(e, k, q);
    }
    forall a | AtOrAbove(p, a) && AtOrAbove(a, q)
      ensures a == p || AtOrAbove(k, a)
    {
      BetweenRootAndChild(p, n, a, q);
    }
    forall a | Above(p, a) && AtOrAbove(a, q)
      ensures a == k || Above(k, a)
    {
      BetweenRootAndChild(p, n, a, q);
      StrictOrEqual(k, a);
    }
  }

  lemma ListedAre(e: Entries, order: Path -> seq<Name>, p: Path)
    requires WellFormed(e) && Enumerates(order, e) && p in e && e[p].kind.Directory?
    ensures LeadsToDirectory(e, p) && Resolve(e, p) == p && Distinct(Listed(e, order, p))
    ensures forall n :: n in Listed(e, order, p) <==> !e[p].unreadable && p + [n] in e
  {
    EntryIsDirect(e, p);
    ResolveDirect(e, p);
    PresentDistinct(e, p, order(p));
    forall n | p + [n] in e
      ensures n in order(p)
    {
      assert Parent(p + [n]) == p && Leaf(p + [n]) == n;
    }
  }

  lemma {:induction false} EntryVisitsAre(e: Entries, order: Path -> seq<Name>, p: Path, n: Name, skip: Path -> bool)
    requires WellFormed(e) && Enumerates(order, e) && p in e && e[p].kind.Directory? && LeadsToDirectory(e, p)
    ensures Distinct(EntryVisits(e, order, p, n, skip))
    ensures forall q :: q in EntryVisits(e, order, p, n, skip) <==> InEntry(e, p, n, q, skip)
    decreases Subtree(e, p), 0, 0
  {
    var k := p + [n];
    ListedAre(e, order, p);
    if k in e && e[k].kind.Directory? && !skip(k) {
      ChildOfDirectory(e, p, n);
      SmallerBelow(e, p, n);
      VisitsAre(e, order, k, skip);
      OneBefore(k, Visits(e, order, k, skip));
      assert EntryVisits(e, order, p, n, skip) == [k] + Visits(e, order, k, skip);
    } else if k in e && (e[k].kind.Reparse? || !skip(k)) {
      assert EntryVisits(e, order, p, n, skip) == [k];
    } else {
      assert EntryVisits(e, order, p, n, skip) == [];
    }
  }

  lemma OneBefore(k: Path, s: seq<Path>)
    requires Distinct(s) && forall q | q in s :: Above(k, q)
    ensures Distinct([k] + s) && forall q :: q in [k] + s <==> q == k || q in s
  {
    var t := [k] + s;
    forall i, j | 0 <= i < j < |t|
      ensures t[i] != t[j]
    {
      assert t[j] == s[j - 1] && s[j - 1] in s;
      assert i > 0 ==> t[i] == s[i - 1];
    }
  }

  lemma {:induction false} VisitsOfAre(e: Entries, order: Path -> seq<Name>, p: Path, names: seq<Name>,
                                       skip: Path -> bool)
    requires WellFormed(e) && Enumerates(order, e) && p in e && e[p].kind.Directory? && LeadsToDirectory(e, p)
    requires Distinct(names)
    ensures Distinct(VisitsOf(e, order, p, names, skip))
    ensures forall q :: q in VisitsOf(e, order, p, names, skip) <==> InOneOf(e, p, names, q, skip)
    decreases Subtree(e, p), 0, |names|
  {
    if names == [] {
    } else {
      var front, n := names[..|names| - 1], names[|names| - 1];
      assert names == front + [n] && n !in front;
      VisitsOfAre(e, order, p, front, skip);
      EntryVisitsAre(e, order, p, n, skip);
      MoreVisits(e, p, front, n, VisitsOf(e, order, p, front, skip), EntryVisits(e, order, p, n, skip), skip);
    }
  }

  ghost predicate InOneOf(e: Entries, p: Path, names: seq<Name>, q: Path, skip: Path -> bool) {
    exists n :: n in names && InEntry(e, p, n, q, skip)
  }

  lemma MoreVisits(e: Entries, p: Path, front: seq<Name>, n: Name, before: seq<Path>, own: seq<Path>,
                   skip: Path -> bool)
    requires n !in front && Distinct(before) && Distinct(own)
    requires forall q :: q in before <==> InOneOf(e, p, front, q, skip)
    requires forall q :: q in own <==> InEntry(e, p, n, q, skip)
    ensures Distinct(before + own)
    ensures forall q :: q in before + own <==> InOneOf(e, p, front + [n], q, skip)
  {
    forall q | q in before
      ensures q !in own
    {
      var m :| m in front && InEntry(e, p, m, q, skip);
      InEntryIsBelow(e, p, m, q, skip);
      if q in own {
        InEntryIsBelow(e, p, n, q, skip);
      }
    }
    DistinctConcat(before, own);
    assert forall q :: q in before + own <==> q in before || q in own;
    forall q
      ensures InOneOf(e, p, front + [n], q, skip) <==> InOneOf(e, p, front, q, skip) || InEntry(e, p, n, q, skip)
    {
      assert forall m :: m in front + [n] <==> m in front || m == n;
    }
  }

  /** Below a directory, exactly these entries are visited, each once. */
  lemma {:induction false} VisitsAre(e: Entries, order: Path -> seq<Name>, p: Path, skip: Path -> bool)
    requires WellFormed(e) && Enumerates(order, e) && p in e && e[p].kind.Directory? && LeadsToDirectory(e, p)
    ensures Distinct(Visits(e, order, p, skip))
    ensures forall q :: q in Visits(e, order, p, skip) <==> InSearch(e, p, q, skip)
    decreases Subtree(e, p), 1, 0
  {
    var names := Listed(e, order, p);
    ListedAre(e, order, p);
    VisitsOfAre(e, order, p, names, skip);
    forall q
      ensures InOneOf(e, p, names, q, skip) <==> InSearch(e, p, q, skip)
    {
      ByFirstEntry(e, p, names, q, skip);
    }
  }

  lemma ByFirstEntry(e: Entries, p: Path, names: seq<Name>, q: Path, skip: Path -> bool)
    requires WellFormed(e) && p != [] && p in e
    requires forall n :: n in names <==> !e[p].unreadable && p + [n] in e
    ensures InOneOf(e, p, names, q, skip) <==> InSearch(e, p, q, skip)
  {
    if e[p].unreadable {
      assert AtOrAbove(p, p);
    } else if Above(p, q) {
      FirstEntry(e, p, q, skip);
    }
    if n :| n in names && InEntry(e, p, n, q, skip) {
      InEntryIsBelow(e, p, n, q, skip);
    }
  }

  // ---- the whole search ----

  /** The root itself, or what lies below it if it is a directory that can be examined. */
  ghost predicate FromRoot(e: Entries, root: Path, q: Path, skip: Path -> bool) {
    q == root || (root in e && e[root].kind.Directory? && !e[root].denied && InSearch(e, root, q, skip))
  }

  ghost predicate FromRoots(e: Entries, roots: seq<Path>, q: Path, skip: Path -> bool) {
    exists root :: root in roots && FromRoot(e, root, q, skip)
  }

  lemma RootVisitsAre(e: Entries, order: Path -> seq<Name>, root: Path, skip: Path -> bool)
    requires WellFormed(e) && Enumerates(order, e) && Direct(e, root)
    ensures forall q :: q in RootVisits(e, order, root, skip) <==> FromRoot(e, root, q, skip)
  {
    ResolveDirect(e, root);
    if ProbeAt(e, root) == Found(ADirectory) {
      VisitsAre(e, order, root, skip);
    }
  }

  /** From roots that lead through no link, these are the visited paths. */
  lemma {:induction false} AllVisitsAre(e: Entries, order: Path -> seq<Name>, roots: seq<Path>, skip: Path -> bool)
    requires WellFormed(e) && Enumerates(order, e) && forall root | root in roots :: Direct(e, root)
    ensures forall q :: q in AllVisits(e, order, roots, skip) <==> FromRoots(e, roots, q, skip)
  {
    hide FromRoot, RootVisits, Direct;
    if roots == [] {
    } else {
      var front, root := roots[..|roots| - 1], roots[|roots| - 1];
      assert roots == front + [root];
      AllVisitsAre(e, order, front, skip);
      RootVisitsAre(e, order, root, skip);
      assert forall r :: r in roots <==> r in front || r == root;
    }
  }

  /** A candidate stands for the path: the same canonical path was recorded. */
  ghost predicate StoodFor(s: Search, candidates: seq<Candidate>, q: Path) {
    exists c :: c in candidates && s.Key(c.path) == s.Key(q)
  }

  /** What the search over all the roots records: only what it can come to, and all of
      that which matches, whatever it prunes on the way. */
  lemma SearchIsComplete(s: Search, order: Path -> seq<Name>, roots: seq<Path>)
    requires WellFormed(s.e) && Enumerates(order, s.e) && forall root | root in roots :: Direct(s.e, root)
    ensures var found := s.Candidates(AllVisits(s.e, order, roots, NothingSkipped()));
      && (forall c | c in found :: s.Hit(c.path) && FromRoots(s.e, roots, c.path, NothingSkipped()))
      && forall q | s.Hit(q) && FromRoots(s.e, roots, q, NothingSkipped()) :: StoodFor(s, found, q)
  {
    hide AllVisits, FromRoots, Search.Hit, Search.Candidates, Search.Keys, Search.Key, Direct;
    var v := AllVisits(s.e, order, roots, NothingSkipped());
    AllVisitsAre(s.e, order, roots, NothingSkipped());
    CandidatesAreExact(s, v);
  }
}

/** The second removal pass: attributes are cleared first, so that only what is
    genuinely undeletable stays. */
module Retry {
  import opened Basics
  import opened FileSystem
  import opened Removal

  /** `e` with the entries of `s` made writable where that is possible. */
  function Swept(e: Entries, s: set<Path>): Entries {
    map p | p in e :: if p in s then Writable(e[p]) else e[p]
  }

  /** What the attribute walk gets to below `d`: it never goes through a link
      (nothing lies below one) nor into a directory it cannot list. */
  ghost function WalkedBelow(e: Entries, d: Path): set<Path> {
    set p | p in e && Above(d, p) && forall a | a in e && AtOrAbove(d, a) && Above(a, p) :: !e[a].unreadable
  }

  ghost function WalkedChildren(e: Entries, d: Path, names: seq<Name>): set<Path> {
    set p | p in WalkedBelow(e, d) && p[|d|] in names
  }

  /** What ClearBlockingAttributes gets to. */
  ghost function Walked(e: Entries, root: Path): set<Path> {
    if root !in e then {}
    else if e[root].kind.Directory? && !e[root].denied then {root} + WalkedBelow(e, root)
    else {root}
  }

  lemma SweptTwice(e: Entries, a: set<Path>, b: set<Path>)
    ensures Swept(Swept(e, a), b) == Swept(e, a + b)
  {
  }

  lemma SweptShape(e: Entries, s: set<Path>, order: Path -> seq<Name>)
    requires WellFormed(e) && Enumerates(order, e)
    ensures WellFormed(Swept(e, s)) && Enumerates(order, Swept(e, s))
    ensures forall d :: WalkedBelow(Swept(e, s), d) == WalkedBelow(e, d)
  {
    forall d
      ensures WalkedBelow(Swept(e, s), d) == WalkedBelow(e, d)
    {
    }
  }

  /** A child that is a directory contributes itself and its own walk. */
  lemma WalkedChild(e: Entries, d: Path, c: Name)
    requires WellFormed(e) && d != [] && d in e && !e[d].unreadable && d + [c] in e
    ensures WalkedChildren(e, d, [c])
         == {d + [c]} + (if e[d + [c]].kind.Directory? then WalkedBelow(e, d + [c]) else {})
  {
    var k := d + [c];
    forall a | a in e && AtOrAbove(d, a) && Above(a, k)
      ensures a == d
    {
      StrictOrEqual(d, a);
    }
    forall p | p in e && AtOrAbove(d, p)
      ensures p in WalkedChildren(e, d, [c]) <==> p == k || (e[k].kind.Directory? && p in WalkedBelow(e, k))
    {
      BelowChild(d, c, p);
      if Above(k, p) {
        AncestorsAreDirectories(e, k, p);
        forall a | a in e && AtOrAbove(d, a) && Above(a, p) && e[a].unreadable
          ensures AtOrAbove(k, a)
        {
          BetweenRootAndChild(d, c, a, p);
        }
        assert AtOrAbove(d, k);
      } else if AtOrAbove(k, p) {
        StrictOrEqual(k, p);
      }
    }
  }

  lemma WalkedNext(e: Entries, d: Path, names: seq<Name>, i: nat)
    requires i < |names|
    ensures WalkedChildren(e, d, names[..i + 1]) == WalkedChildren(e, d, names[..i]) + WalkedChildren(e, d, [names[i]])
  {
    assert names[..i + 1] == names[..i] + [names[i]];
  }

  lemma WalkedAll(e: Entries, d: Path, names: seq<Name>)
    requires WellFormed(e) && d != [] && forall n | d + [n] in e :: n in names
    ensures WalkedChildren(e, d, names) == WalkedBelow(e, d)
  {
    forall p | p in WalkedBelow(e, d)
      ensures p[|d|] in names
    {
      BelowAChild(e, d, names, p);
    }
  }

  lemma NothingWalkedInUnreadable(e: Entries, d: Path)
    requires d in e && e[d].unreadable
    ensures WalkedBelow(e, d) == {}
  {
  }

  /** The attribute walk over the entries of the real directory `d`. */
  method WalkClear(vol: Volume, d: Path)
    requires vol.Valid() && d in vol.entries && vol.entries[d].kind.Directory?
    modifies vol
    ensures vol.Valid()
    ensures vol.entries == Swept(old(vol.entries), WalkedBelow(old(vol.entries), d))
    decreases Subtree(vol.entries, d), 0
  {
    ghost var e := vol.entries;
    assert Resolve(e, d) == d by {
      EntryIsDirect(e, d);
      ResolveDirect(e, d);
    }
    var listing := ListingAt(vol.entries, vol.order, d);
    if listing == None {
      NothingWalkedInUnreadable(e, d);
      return;
    }
    var names := listing.value;
    assert WalkedChildren(e, d, names[..0]) == {};
    for i := 0 to |names|
      invariant vol.Valid() && vol.entries == Swept(e, WalkedChildren(e, d, names[..i]))
    {
      ghost var before := WalkedChildren(e, d, names[..i]);
      SmallerSubtree(e, vol.entries, d, names[i]);
      ClearEntry(vol, d + [names[i]]);
      assert vol.entries == Swept(e, WalkedChildren(e, d, names[..i + 1])) by {
        SweptShape(e, before, vol.order);
        WalkedChild(e, d, names[i]);
        SweptTwice(e, before, WalkedChildren(e, d, [names[i]]));
        WalkedNext(e, d, names, i);
      }
    }
    assert names[..|names|] == names;
    WalkedAll(e, d, names);
  }

  lemma SmallerSubtree(e: Entries, cur: Entries, d: Path, c: Name)
    requires d in e && cur.Keys == e.Keys
    ensures Subtree(cur, d + [c]) < Subtree(e, d)
  {
    assert d in Subtree(e, d) && d !in Subtree(cur, d + [c]);
    assert AtOrAbove(d, d + [c]);
  }

  /** One entry of the walk: its own attributes, and what is below it when it is
      a real directory. */
  method ClearEntry(vol: Volume, p: Path)
    requires vol.Valid() && p in vol.entries
    modifies vol
    ensures vol.Valid()
    ensures vol.entries == Swept(old(vol.entries), {p} +
      (if old(vol.entries)[p].kind.Directory? then WalkedBelow(old(vol.entries), p) else {}))
    decreases Subtree(vol.entries, p), 1
  {
    ghost var e := vol.entries;
    assert Resolve(e, p) == p by {
      EntryIsDirect(e, p);
      ResolveDirect(e, p);
    }
    vol.SetAttributesNormal(p);
    assert vol.entries == Swept(e, {p});
    SweptShape(e, {p}, vol.order);
    if vol.entries[p].kind.Directory? {
      WalkClear(vol, p);
      SweptTwice(e, {p}, WalkedBelow(e, p));
    }
  }

  lemma SweptOne(e: Entries, p: Path)
    requires Direct(e, p)
    ensures p in e ==> Swept(e, {p}) == e[p := Writable(e[p])] && Direct(Swept(e, {p}), p)
    ensures p !in e ==> Swept(e, {}) == e
  {
  }

  lemma SweptNode(e: Entries, s: set<Path>, p: Path)
    ensures p in Swept(e, s) <==> p in e
    ensures p in e ==> Swept(e, s)[p].kind == e[p].kind && Swept(e, s)[p].denied == e[p].denied
  {
  }

  method ClearBlockingAttributes(vol: Volume, root: Path)
    requires vol.Valid() && Direct(vol.entries, root)
    modifies vol
    ensures vol.Valid()
    ensures vol.entries == Swept(old(vol.entries), Walked(old(vol.entries), root))
  {
    hide Swept, WalkedBelow, Direct, WellFormed, Enumerates;
    ghost var e := vol.entries;
    ResolveDirect(e, root);
    vol.SetAttributesNormal(root);
    ghost var one := if root in e then {root} else {};
    assert vol.entries == Swept(e, one) && Direct(vol.entries, root) by {
      SweptOne(e, root);
    }
    SweptShape(e, one, vol.order);
    SweptNode(e, one, root);
    ResolveDirect(vol.entries, root);
    if ProbeAt(vol.entries, root) == Found(ADirectory) {
      WalkClear(vol, root);
      SweptTwice(e, {root}, WalkedBelow(e, root));
    }
  }

  /** `e` with every attribute that can be cleared at or below `root` cleared. */
  ghost function Softened(e: Entries, root: Path): Entries {
    Swept(e, Subtree(e, root))
  }

  /** The state the second pass starts from. */
  ghost function BetweenPasses(e: Entries, root: Path): Entries {
    var mid := e - Gone(e, root);
    Swept(mid, Walked(mid, root))
  }

  lemma ResistingStays(e: Entries, root: Path, q: Path)
    requires ResistsUnder(e, root, q)
    ensures q !in Gone(e, root)
  {
  }

  /** An entry the attribute walk did not get to sits below a directory that the
      removal passes cannot look into either. */
  lemma NotWalked(e: Entries, root: Path, q: Path) returns (a: Path)
    requires WellFormed(e) && root != [] && q in e && AtOrAbove(root, q) && q !in Walked(e, root)
    ensures a in e && AtOrAbove(root, a) && Above(a, q) && Opaque(e[a])
  {
    StrictOrEqual(root, q);
    AncestorsAreDirectories(e, root, q);
    if e[root].denied {
      a := root;
    } else {
      assert q !in WalkedBelow(e, root);
      a :| a in e && AtOrAbove(root, a) && Above(a, q) && e[a].unreadable;
      AncestorsAreDirectories(e, a, q);
    }
  }

  lemma SoftenedResists(e: Entries, root: Path, q: Path)
    requires ResistsUnder(Softened(e, root), root, q)
    ensures ResistsUnder(e, root, q) && ResistsUnder(BetweenPasses(e, root), root, q)
    ensures Opaque(Softened(e, root)[q]) == Opaque(BetweenPasses(e, root)[q])
  {
    ResistingStays(e, root, q);
  }

  lemma ClearedResists(e: Entries, root: Path, q: Path) returns (a: Path)
    requires WellFormed(e) && root != [] && ResistsUnder(BetweenPasses(e, root), root, q)
    ensures ResistsUnder(Softened(e, root), root, a) && AtOrAbove(a, q)
    ensures a == q || Opaque(Softened(e, root)[a])
    ensures Opaque(BetweenPasses(e, root)[q]) ==> a == q && Opaque(Softened(e, root)[q])
  {
    var mid := e - Gone(e, root);
    if ResistsUnder(Softened(e, root), root, q) {
      a := q;
    } else {
      WellFormedAfter(e, root);
      a := NotWalked(mid, root, q);
    }
  }

  lemma SameStays(e: Entries, root: Path, p: Path)
    requires WellFormed(e) && root != [] && AtOrAbove(root, p)
    ensures Stays(BetweenPasses(e, root), root, p) <==> Stays(Softened(e, root), root, p)
    ensures Stays(Softened(e, root), root, p) ==> Stays(e, root, p)
  {
    var s, b := Softened(e, root), BetweenPasses(e, root);
    if Stays(s, root, p) {
      var q :| ResistsUnder(s, root, q) && (AtOrAbove(p, q) || (Opaque(s[q]) && AtOrAbove(q, p)));
      SoftenedResists(e, root, q);
    }
    if Stays(b, root, p) {
      var q :| ResistsUnder(b, root, q) && (AtOrAbove(p, q) || (Opaque(b[q]) && AtOrAbove(q, p)));
      var a := ClearedResists(e, root, q);
      if AtOrAbove(p, q) {
        Comparable(p, a, q);
      }
    }
  }

  lemma SameReported(e: Entries, root: Path, q: Path)
    requires WellFormed(e) && root != []
    ensures Reported(BetweenPasses(e, root), root, q) <==> Reported(Softened(e, root), root, q)
  {
    var s, b := Softened(e, root), BetweenPasses(e, root);
    forall a | ResistsUnder(s, root, a)
      ensures ResistsUnder(b, root, a) && Opaque(b[a]) == Opaque(s[a])
    {
      SoftenedResists(e, root, a);
    }
    forall a | ResistsUnder(b, root, a)
      ensures Opaque(b[a]) ==> ResistsUnder(s, root, a) && Opaque(s[a])
    {
      var t := ClearedResists(e, root, a);
    }
    if ResistsUnder(b, root, q) && !ResistsUnder(s, root, q) {
      var a := ClearedResists(e, root, q);
      StrictOrEqual(a, q);
      assert !Reported(b, root, q);
    }
    if Reported(s, root, q) && !Opaque(s[q]) {
      forall d | ResistsUnder(b, root, d)
        ensures !Above(q, d)
      {
        var a := ClearedResists(e, root, d);
        if Above(q, d) {
          Comparable(q, a, d);
          StrictOrEqual(q, a);
        }
      }
    }
  }

  /** What the two passes together remove is what one pass would remove if every
      clearable attribute had been cleared beforehand, and the failures that
      remain are the failures of that pass. */
  lemma TwoPasses(e: Entries, root: Path)
    requires WellFormed(e) && root != []
    ensures Gone(e, root) !! Gone(BetweenPasses(e, root), root)
    ensures Gone(e, root) + Gone(BetweenPasses(e, root), root) == Gone(Softened(e, root), root)
    ensures Failures(BetweenPasses(e, root), root) == Failures(Softened(e, root), root)
  {
    var s, b := Softened(e, root), BetweenPasses(e, root);
    forall p | AtOrAbove(root, p)
      ensures Stays(b, root, p) <==> Stays(s, root, p)
      ensures Stays(s, root, p) ==> Stays(e, root, p)
    {
      SameStays(e, root, p);
    }
    forall q
      ensures q in Failures(b, root) <==> q in Failures(s, root)
    {
      SameReported(e, root, q);
    }
  }

  /** When the first pass reports nothing there is nothing left for a second. */
  lemma OnePassEnough(e: Entries, root: Path)
    requires WellFormed(e) && root != [] && Failures(e, root) == {}
    ensures Gone(Softened(e, root), root) == Gone(e, root) && Failures(Softened(e, root), root) == {}
  {
    if root in e {
      GoneIffNothingReported(e, root);
      forall q
        ensures !ResistsUnder(Softened(e, root), root, q)
      {
        if ResistsUnder(Softened(e, root), root, q) {
          SoftenedResists(e, root, q);
        }
      }
    } else {
      NothingAtMissingRoot(e, root);
      NothingAtMissingRoot(Softened(e, root), root);
    }
  }

  /** The volume after the removal of `gone` at or below `root`; attributes of
      what stayed there may have been cleared. */
  ghost predicate RemovedAt(e: Entries, after: Entries, root: Path, gone: set<Path>) {
    && after.Keys == e.Keys - gone
    && forall p | p in after ::
         after[p] == e[p] || (AtOrAbove(root, p) && after[p] == Writable(e[p]))
  }

  lemma AfterOnePass(e: Entries, root: Path)
    requires WellFormed(e) && root != [] && Failures(e, root) == {}
    ensures RemovedAt(e, e - Gone(e, root), root, Gone(Softened(e, root), root))
  {
    OnePassEnough(e, root);
  }

  lemma AfterTwoPasses(e: Entries, root: Path)
    requires WellFormed(e) && root != []
    ensures var b := BetweenPasses(e, root); RemovedAt(e, b - Gone(b, root), root, Gone(Softened(e, root), root))
    ensures |Gone(e, root)| + |Gone(BetweenPasses(e, root), root)| == |Gone(Softened(e, root), root)|
  {
    var b := BetweenPasses(e, root);
    BetweenValues(e, root);
    TwoPasses(e, root);
    TwoSteps(e, b, Gone(e, root), Gone(b, root), Gone(Softened(e, root), root));
  }

  lemma BetweenValues(e: Entries, root: Path)
    ensures BetweenPasses(e, root).Keys == e.Keys - Gone(e, root)
    ensures forall p | p in BetweenPasses(e, root) ::
      BetweenPasses(e, root)[p] == e[p] || (AtOrAbove(root, p) && BetweenPasses(e, root)[p] == Writable(e[p]))
  {
  }

  lemma TwoSteps(e: Entries, b: Entries, first: set<Path>, second: set<Path>, all: set<Path>)
    requires b.Keys == e.Keys - first && first !! second && first + second == all
    ensures (b - second).Keys == e.Keys - all && |first| + |second| == |all|
  {
  }

  lemma DirectBetween(e: Entries, root: Path)
    requires Direct(e, root)
    ensures root != [] && Direct(e - Gone(e, root), root) && Direct(BetweenPasses(e, root), root)
  {
    hide Gone, Walked;
  }

  /** Two passes; the second clears attributes first, so only genuinely
      undeletable entries stay. */
  method RemoveTreeWithRetry(vol: Volume, path: Path) returns (removal: TreeRemoval)
    requires vol.Valid() && Direct(vol.entries, path)
    modifies vol
    ensures fresh(removal) && vol.Valid()
    ensures RemovedAt(old(vol.entries), vol.entries, path, Gone(Softened(old(vol.entries), path), path))
    ensures removal.removed == |Gone(Softened(old(vol.entries), path), path)|
    ensures Distinct(removal.failures)
      && Elements(removal.failures) == Failures(Softened(old(vol.entries), path), path)
  {
    hide Grown, Gone, Failures, Softened, Swept, Walked, RemovedAt, Distinct, Elements, Direct;
    ghost var e := vol.entries;
    DirectBetween(e, path);
    var first := new TreeRemoval();
    RemoveTreeBestEffort(vol, path, first);
    GrownFromNothing(first.removed, first.failures, Gone(e, path), Failures(e, path));
    if first.failures == [] {
      OnePassEnough(e, path);
      AfterOnePass(e, path);
      return first;
    }
    ClearBlockingAttributes(vol, path);
    ghost var b := vol.entries;
    assert b == BetweenPasses(e, path);
    var retry := new TreeRemoval();
    RemoveTreeBestEffort(vol, path, retry);
    GrownFromNothing(retry.removed, retry.failures, Gone(b, path), Failures(b, path));
    retry.removed := retry.removed + first.removed;
    AfterTwoPasses(e, path);
    TwoPasses(e, path);
    return retry;
  }
}

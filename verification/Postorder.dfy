/** The explicit-stack traversal, its recursive meaning, and what the sequence
    of visited entries guarantees. */
module Postorder {
  import opened Basics
  import opened FileSystem
  import opened Removal
  import opened RunState

  datatype Work = Emit(path: Path) | Expand(path: Path)

  /** The kind seen when a directory is emitted. */
  function EmitKind(e: Entries, p: Path): PathKind {
    if p !in e || e[p].denied then Missing else KindOf(e[p])
  }

  predicate Listable(e: Entries, p: Path) {
    p in e && e[p].kind.Directory? && !e[p].unreadable
  }

  ghost function Children(e: Entries, order: Path -> seq<Name>, d: Path): seq<Name> {
    Present(e, d, order(d))
  }

  /** Everything visited for the directory `d`: files and links in listing order,
      then the subdirectories, last one first, then `d`. */
  ghost function Walk(e: Entries, order: Path -> seq<Name>, d: Path): seq<Event>
    decreases Subtree(e, d), 1, 0
  {
    (if Listable(e, d)
     then Leaves(e, d, Children(e, order, d)) + Branches(e, order, d, Children(e, order, d))
     else [])
    + [Visit(d, EmitKind(e, d))]
  }

  ghost function Leaves(e: Entries, d: Path, names: seq<Name>): seq<Event> {
    if names == [] then []
    else
      var p := d + [names[|names| - 1]];
      Leaves(e, d, names[..|names| - 1])
      + (if p in e && !e[p].kind.Directory? then [Visit(p, KindOf(e[p]))] else [])
  }

  ghost function Branches(e: Entries, order: Path -> seq<Name>, d: Path, names: seq<Name>): seq<Event>
    requires d in e
    decreases Subtree(e, d), 0, |names|
  {
    if names == [] then []
    else
      var p := d + [names[|names| - 1]];
      SmallerBelow(e, d, names[|names| - 1]);
      (if p in e && e[p].kind.Directory? then Walk(e, order, p) else [])
      + Branches(e, order, d, names[..|names| - 1])
  }

  /** The traversal from `root`: a link, a file or an entry that cannot be
      examined is visited and nothing else is. */
  ghost function WalkFrom(e: Entries, order: Path -> seq<Name>, root: Path): seq<Event> {
    match ProbeAt(e, root)
    case Found(AReparse) => [Visit(root, AReparse)]
    case Found(AFile) => [Visit(root, AFile)]
    case AccessError => [Visit(root, Missing)]
    case _ => Walk(e, order, root)
  }

  ghost function FrameVisits(e: Entries, order: Path -> seq<Name>, w: Work): seq<Event> {
    if w.Emit? then [Visit(w.path, EmitKind(e, w.path))] else Walk(e, order, w.path)
  }

  /** What the frames of the stack, top last, still have to visit. */
  ghost function Future(e: Entries, order: Path -> seq<Name>, stack: seq<Work>): seq<Event> {
    if stack == [] then []
    else
      FrameVisits(e, order, stack[|stack| - 1])
      + Future(e, order, stack[..|stack| - 1])
  }

  /** Termination measure: a frame to expand counts twice its subtree. */
  ghost function Weight(e: Entries, order: Path -> seq<Name>, stack: seq<Work>): nat {
    if stack == [] then 0
    else
      var top := stack[|stack| - 1];
      (if top.Emit? then 1 else 2 * |Walk(e, order, top.path)|) + Weight(e, order, stack[..|stack| - 1])
  }

  /** The subdirectory frames pushed while a listing is read. */
  function Pushed(e: Entries, d: Path, names: seq<Name>): seq<Work> {
    if names == [] then []
    else
      var p := d + [names[|names| - 1]];
      Pushed(e, d, names[..|names| - 1]) + (if p in e && e[p].kind.Directory? then [Expand(p)] else [])
  }

  lemma Regroup<T>(a: seq<T>, b: seq<T>, c: seq<T>, d: seq<T>)
    ensures ((a + b) + c) + d == a + (b + (c + d))
  {
  }

  lemma FutureTop(e: Entries, order: Path -> seq<Name>, stack: seq<Work>, top: Work)
    ensures Future(e, order, stack + [top]) == FrameVisits(e, order, top) + Future(e, order, stack)
    ensures Weight(e, order, stack + [top])
         == (if top.Emit? then 1 else 2 * |Walk(e, order, top.path)|) + Weight(e, order, stack)
  {
    assert (stack + [top])[..|stack|] == stack;
  }

  lemma {:induction false} FutureOfPushed(e: Entries, order: Path -> seq<Name>, base: seq<Work>, d: Path,
                                          names: seq<Name>)
    requires d in e
    ensures Future(e, order, base + Pushed(e, d, names)) == Branches(e, order, d, names) + Future(e, order, base)
    ensures Weight(e, order, base + Pushed(e, d, names)) == 2 * |Branches(e, order, d, names)| + Weight(e, order, base)
  {
    if names == [] {
      assert base + [] == base;
    } else {
      var front := names[..|names| - 1];
      var p := d + [names[|names| - 1]];
      FutureOfPushed(e, order, base, d, front);
      var under := base + Pushed(e, d, front);
      if p in e && e[p].kind.Directory? {
        FutureTop(e, order, under, Expand(p));
        Assoc(base, Pushed(e, d, front), [Expand(p)]);
        Assoc(Walk(e, order, p), Branches(e, order, d, front), Future(e, order, base));
      } else {
        assert Pushed(e, d, front) + [] == Pushed(e, d, front);
        assert [] + Branches(e, order, d, front) == Branches(e, order, d, front);
      }
    }
  }

  /** The callback ran over `all`, or over a proper prefix of it and then met an
      abort request at the next entry. */
  ghost predicate Traversed(before: seq<Event>, after: seq<Event>, all: seq<Event>, finished: bool) {
    if finished then after == before + all
    else exists n: nat | n < |all| :: StoppedAfter(before, after, all, n)
  }

  ghost predicate StoppedAfter(before: seq<Event>, after: seq<Event>, all: seq<Event>, n: nat)
    requires n < |all|
  {
    after == before + all[..n] + (if all[n].Act? then [] else [Stop(all[n].path, all[n].kind)])
  }

  lemma StoppedInside(before: seq<Event>, after: seq<Event>, s: seq<Event>, v: Event, rest: seq<Event>, all: seq<Event>)
    requires v.Visit? && after == before + s + [Stop(v.path, v.kind)] && all == s + [v] + rest
    ensures Traversed(before, after, all, false)
  {
    assert all[..|s|] == s && all[|s|] == v;
    assert StoppedAfter(before, after, all, |s|);
  }

  /** The listed entries of `d`, or none when it cannot be listed. */
  ghost function Listed(e: Entries, order: Path -> seq<Name>, d: Path): seq<Name> {
    if Listable(e, d) then Children(e, order, d) else []
  }

  ghost predicate FrameReady(e: Entries, w: Work) {
    Direct(e, w.path) && (w.path in e ==> e[w.path].kind.Directory?)
  }

  ghost predicate AllReady(e: Entries, stack: seq<Work>) {
    forall i | 0 <= i < |stack| :: FrameReady(e, stack[i])
  }

  lemma ReadyTogether(e: Entries, a: seq<Work>, b: seq<Work>)
    ensures AllReady(e, a + b) <==> AllReady(e, a) && AllReady(e, b)
  {
    forall i | 0 <= i < |b| && AllReady(e, a + b)
      ensures FrameReady(e, b[i])
    {
      assert (a + b)[|a| + i] == b[i];
    }
    forall i | 0 <= i < |a| && AllReady(e, a + b)
      ensures FrameReady(e, a[i])
    {
      assert (a + b)[i] == a[i];
    }
  }

  lemma {:induction false} PushedReady(e: Entries, d: Path, names: seq<Name>)
    requires WellFormed(e)
    ensures AllReady(e, Pushed(e, d, names))
  {
    if names == [] {
    } else {
      PushedReady(e, d, names[..|names| - 1]);
      var p := d + [names[|names| - 1]];
      if p in e {
        EntryIsDirect(e, p);
      }
    }
  }

  lemma LeavesSplit(e: Entries, d: Path, names: seq<Name>, i: nat)
    requires i <= |names|
    ensures Leaves(e, d, names[..i]) <= Leaves(e, d, names)
    decreases |names|
  {
    if i < |names| {
      assert names[..|names| - 1][..i] == names[..i];
      LeavesSplit(e, d, names[..|names| - 1], i);
    } else {
      assert names[..i] == names;
    }
  }

  /** One more listed name: a frame for a subdirectory, a visit for the rest. */
  lemma NextListed(e: Entries, d: Path, names: seq<Name>, i: nat)
    requires i < |names| && d + [names[i]] in e
    ensures e[d + [names[i]]].kind.Directory? ==>
      && Pushed(e, d, names[..i + 1]) == Pushed(e, d, names[..i]) + [Expand(d + [names[i]])]
      && Leaves(e, d, names[..i + 1]) == Leaves(e, d, names[..i])
    ensures !e[d + [names[i]]].kind.Directory? ==>
      var s, v, all := Leaves(e, d, names[..i]), Visit(d + [names[i]], KindOf(e[d + [names[i]]])), Leaves(e, d, names);
      && Pushed(e, d, names[..i + 1]) == Pushed(e, d, names[..i])
      && Leaves(e, d, names[..i + 1]) == s + [v]
      && |s| < |all| && all == s + [v] + all[|s| + 1..]
  {
    assert names[..i + 1][..i] == names[..i];
    if !e[d + [names[i]]].kind.Directory? {
      var s, v, all := Leaves(e, d, names[..i]), Visit(d + [names[i]], KindOf(e[d + [names[i]]])), Leaves(e, d, names);
      assert Leaves(e, d, names[..i + 1]) == s + [v];
      assert s + [v] <= all by {
        LeavesSplit(e, d, names, i + 1);
      }
      BeginsWith(s, v, all);
    }
  }

  lemma BeginsWith(s: seq<Event>, v: Event, all: seq<Event>)
    requires s + [v] <= all
    ensures |s| < |all| && all == s + [v] + all[|s| + 1..]
  {
  }

  /** One listed entry: a subdirectory is pushed, the rest is visited at once. */
  method HandleListed(vol: Volume, p: Path, stack: seq<Work>, run: Run) returns (go: bool, more: seq<Work>)
    requires p in vol.entries && run.Valid()
    modifies run
    ensures run.Valid() && run.aborted == (old(run.aborted) || !go)
    ensures var n := vol.entries[p];
      if n.kind.Directory? then go && more == stack + [Expand(p)] && run.history == old(run.history)
      else more == stack && run.history == old(run.history) + [if go then Visit(p, KindOf(n)) else Stop(p, KindOf(n))]
  {
    var n := vol.entries[p];
    if n.kind.Directory? {
      return true, stack + [Expand(p)];
    }
    go := run.VisitEntry(p, if n.kind.Reparse? then AReparse else AFile);
    more := stack;
  }

  lemma NothingListed(e: Entries, d: Path)
    ensures Leaves(e, d, []) == [] && Pushed(e, d, []) == []
  {
  }

  lemma AllTraversed(before: seq<Event>, all: seq<Event>)
    ensures Traversed(before, before + all, all, true)
  {
  }

  /** Expanding a directory visits its files and links at once and leaves a frame
      for each subdirectory above the frame that emits the directory. */
  method ExpandDirectory(vol: Volume, d: Path, base: seq<Work>, run: Run) returns (go: bool, stack: seq<Work>)
    requires vol.Valid() && FrameReady(vol.entries, Expand(d)) && run.Valid()
    modifies run
    ensures run.Valid() && run.aborted == (old(run.aborted) || !go)
    ensures var names := Listed(vol.entries, vol.order, d);
      && Traversed(old(run.history), run.history, Leaves(vol.entries, d, names), go)
      && (go ==> stack == base + [Emit(d)] + Pushed(vol.entries, d, names))
  {
    hide Run.Valid, Leaves, Pushed, WellFormed, Direct, Traversed, Present, Enumerates;
    ghost var e, before := vol.entries, run.history;
    ghost var names := Listed(e, vol.order, d);
    ResolveDirect(e, d);
    NothingListed(e, d);
    AllTraversed(before, []);
    stack := base + [Emit(d)];
    go := true;
    var listing := ListingAt(vol.entries, vol.order, d);
    assert before + [] == before && stack + [] == stack;
    if listing == None {
      return;
    }
    for i := 0 to |listing.value|
      invariant go && run.Valid() && run.history == before + Leaves(e, d, names[..i])
      invariant stack == base + [Emit(d)] + Pushed(e, d, names[..i])
      invariant run.aborted == old(run.aborted)
    {
      go, stack := ExpandEntry(vol, d, listing.value, i, before, base + [Emit(d)], stack, run);
      if !go {
        return;
      }
    }
    assert names[..|names|] == names;
    AllTraversed(before, Leaves(e, d, names));
  }

  /** The next entry of a listing; `before` and `base` are what the history and the
      stack were when the directory was opened. */
  method ExpandEntry(vol: Volume, d: Path, names: seq<Name>, i: nat, ghost before: seq<Event>, ghost base: seq<Work>,
                     stack: seq<Work>, run: Run)
    returns (go: bool, more: seq<Work>)
    requires i < |names| && d + [names[i]] in vol.entries && run.Valid()
    requires run.history == before + Leaves(vol.entries, d, names[..i])
    requires stack == base + Pushed(vol.entries, d, names[..i])
    modifies run
    ensures run.Valid() && run.aborted == (old(run.aborted) || !go)
    ensures go ==> run.history == before + Leaves(vol.entries, d, names[..i + 1])
    ensures go ==> more == base + Pushed(vol.entries, d, names[..i + 1])
    ensures !go ==> Traversed(before, run.history, Leaves(vol.entries, d, names), false)
  {
    ghost var e := vol.entries;
    ghost var p := d + [names[i]];
    ghost var s, v := Leaves(e, d, names[..i]), Visit(p, KindOf(e[p]));
    NextListed(e, d, names, i);
    go, more := HandleListed(vol, d + [names[i]], stack, run);
    Assoc(before, s, [v]);
    Assoc(base, Pushed(e, d, names[..i]), [Expand(p)]);
    if !go {
      assert Traversed(before, run.history, Leaves(e, d, names), false) by {
        StoppedInside(before, run.history, s, v, Leaves(e, d, names)[|s| + 1..], Leaves(e, d, names));
      }
    }
  }

  lemma TraversedPrefix(before: seq<Event>, after: seq<Event>, a: seq<Event>, b: seq<Event>)
    requires Traversed(before, after, a, false)
    ensures Traversed(before, after, a + b, false)
  {
    var n: nat :| n < |a| && StoppedAfter(before, after, a, n);
    assert (a + b)[..n] == a[..n] && (a + b)[n] == a[n];
    assert StoppedAfter(before, after, a + b, n);
  }

  /** Replacing a directory frame by its expansion keeps what is to be visited. */
  lemma ExpandUnfolds(e: Entries, order: Path -> seq<Name>, below: seq<Work>, d: Path)
    requires d in e ==> e[d].kind.Directory?
    ensures var names := Listed(e, order, d);
      var stack := below + [Emit(d)] + Pushed(e, d, names);
      && Walk(e, order, d) + Future(e, order, below) == Leaves(e, d, names) + Future(e, order, stack)
      && Weight(e, order, stack) < Weight(e, order, below + [Expand(d)])
  {
    var names := Listed(e, order, d);
    var base := below + [Emit(d)];
    var last := [Visit(d, EmitKind(e, d))];
    FutureTop(e, order, below, Emit(d));
    FutureTop(e, order, below, Expand(d));
    if Listable(e, d) {
      FutureOfPushed(e, order, base, d, names);
      Regroup(Leaves(e, d, names), Branches(e, order, d, names), last, Future(e, order, below));
    } else {
      assert base + [] == base;
      assert Walk(e, order, d) == last;
    }
  }

  lemma StoppedAtOnce(before: seq<Event>, after: seq<Event>, v: Event, rest: seq<Event>)
    requires v.Visit? && after == before + [Stop(v.path, v.kind)]
    ensures Traversed(before, after, [v] + rest, false)
  {
    var all := [v] + rest;
    assert before + all[..0] == before;
    assert StoppedAfter(before, after, all, 0);
  }

  /** Emitting a directory, of whatever kind it is by now. */
  method HandleEmit(vol: Volume, path: Path, ghost below: seq<Work>, run: Run) returns (go: bool, ghost s: seq<Event>)
    requires vol.Valid() && FrameReady(vol.entries, Emit(path)) && run.Valid()
    modifies run
    ensures run.Valid() && run.aborted == (old(run.aborted) || !go)
    ensures s == FrameVisits(vol.entries, vol.order, Emit(path))
    ensures go ==> run.history == old(run.history) + s
    ensures !go ==> Traversed(old(run.history), run.history, s + Future(vol.entries, vol.order, below), false)
    ensures Weight(vol.entries, vol.order, below) < Weight(vol.entries, vol.order, below + [Emit(path)])
  {
    ghost var e, order, before := vol.entries, vol.order, run.history;
    ResolveDirect(e, path);
    var probe := ProbeAt(vol.entries, path);
    var kind := if probe == AccessError then Missing else probe.kind;
    go := run.VisitEntry(path, kind);
    s := [Visit(path, kind)];
    FutureTop(e, order, below, Emit(path));
    if !go {
      StoppedAtOnce(before, run.history, Visit(path, kind), Future(e, order, below));
    }
  }

  lemma ExpandedReady(e: Entries, order: Path -> seq<Name>, below: seq<Work>, dir: Path)
    requires WellFormed(e) && FrameReady(e, Expand(dir)) && AllReady(e, below)
    ensures AllReady(e, below + [Emit(dir)] + Pushed(e, dir, Listed(e, order, dir)))
  {
    PushedReady(e, dir, Listed(e, order, dir));
    ReadyTogether(e, below, [Emit(dir)]);
    ReadyTogether(e, below + [Emit(dir)], Pushed(e, dir, Listed(e, order, dir)));
  }

  method HandleExpand(vol: Volume, dir: Path, below: seq<Work>, run: Run)
    returns (go: bool, stack: seq<Work>, ghost s: seq<Event>)
    requires vol.Valid() && FrameReady(vol.entries, Expand(dir)) && AllReady(vol.entries, below) && run.Valid()
    modifies run
    ensures run.Valid() && run.aborted == (old(run.aborted) || !go)
    ensures go ==> run.history == old(run.history) + s
    ensures var pending := Walk(vol.entries, vol.order, dir) + Future(vol.entries, vol.order, below);
      if go then pending == s + Future(vol.entries, vol.order, stack)
      else Traversed(old(run.history), run.history, pending, false)
    ensures go ==> Weight(vol.entries, vol.order, stack) < Weight(vol.entries, vol.order, below + [Expand(dir)])
    ensures go ==> AllReady(vol.entries, stack)
  {
    ghost var e, order, before := vol.entries, vol.order, run.history;
    ghost var pending := Walk(e, order, dir) + Future(e, order, below);
    go, stack := ExpandDirectory(vol, dir, below, run);
    s := Leaves(e, dir, Listed(e, order, dir));
    ExpandUnfolds(e, order, below, dir);
    if go {
      assert AllReady(e, stack) by {
        ExpandedReady(e, order, below, dir);
      }
    } else {
      assert Traversed(before, run.history, pending, false) by {
        TraversedPrefix(before, run.history, s,
                        Future(e, order, below + [Emit(dir)] + Pushed(e, dir, Listed(e, order, dir))));
      }
    }
  }

  /** What one frame leads to: its own visits now, the rest on the stack. */
  method HandleFrame(vol: Volume, top: Work, below: seq<Work>, run: Run)
    returns (go: bool, stack: seq<Work>, ghost s: seq<Event>)
    requires vol.Valid() && FrameReady(vol.entries, top) && AllReady(vol.entries, below) && run.Valid()
    modifies run
    ensures run.Valid() && run.aborted == (old(run.aborted) || !go)
    ensures var pending := FrameVisits(vol.entries, vol.order, top) + Future(vol.entries, vol.order, below);
      if go then run.history == old(run.history) + s && pending == s + Future(vol.entries, vol.order, stack)
      else Traversed(old(run.history), run.history, pending, false)
    ensures go ==> Weight(vol.entries, vol.order, stack) < Weight(vol.entries, vol.order, below + [top])
    ensures go ==> AllReady(vol.entries, stack)
  {
    match top {
      case Emit(path) => go, s := HandleEmit(vol, path, below, run); stack := below;
      case Expand(dir) => go, stack, s := HandleExpand(vol, dir, below, run);
    }
  }

  /** One round of the loop: pop a frame and handle it. */
  method HandleTop(vol: Volume, stack: seq<Work>, run: Run) returns (go: bool, next: seq<Work>, ghost s: seq<Event>)
    requires vol.Valid() && stack != [] && AllReady(vol.entries, stack) && run.Valid()
    modifies run
    ensures run.Valid() && run.aborted == (old(run.aborted) || !go)
    ensures var pending := Future(vol.entries, vol.order, stack);
      if go then run.history == old(run.history) + s && pending == s + Future(vol.entries, vol.order, next)
      else Traversed(old(run.history), run.history, pending, false)
    ensures go ==> Weight(vol.entries, vol.order, next) < Weight(vol.entries, vol.order, stack)
    ensures go ==> AllReady(vol.entries, next)
  {
    var top, below := stack[|stack| - 1], stack[..|stack| - 1];
    assert stack == below + [top];
    go, next, s := HandleFrame(vol, top, below, run);
  }

  lemma StoppedLater(before: seq<Event>, after: seq<Event>, s: seq<Event>, rest: seq<Event>)
    requires Traversed(before + s, after, rest, false)
    ensures Traversed(before, after, s + rest, false)
  {
    var n: nat :| n < |rest| && StoppedAfter(before + s, after, rest, n);
    assert (s + rest)[..|s| + n] == s + rest[..n] && (s + rest)[|s| + n] == rest[n];
    Assoc(before, s, rest[..n]);
    assert StoppedAfter(before, after, s + rest, |s| + n);
  }

  lemma TraversedFurther(before: seq<Event>, mid: seq<Event>, after: seq<Event>, s: seq<Event>, more: seq<Event>,
                         rest: seq<Event>, all: seq<Event>)
    requires mid == before + s && after == mid + more && all == s + (more + rest)
    ensures after == before + (s + more) && all == (s + more) + rest
  {
  }

  lemma FutureOfNothing(e: Entries, order: Path -> seq<Name>)
    ensures Future(e, order, []) == []
  {
  }

  lemma FutureOfRoot(e: Entries, order: Path -> seq<Name>, root: Path)
    ensures Future(e, order, [Expand(root)]) == Walk(e, order, root)
  {
    hide Walk;
    FutureTop(e, order, [], Expand(root));
    assert [] + [Expand(root)] == [Expand(root)];
  }

  /** The loop over the stack of work frames. */
  method RunStack(vol: Volume, root: Path, run: Run) returns (finished: bool)
    requires vol.Valid() && FrameReady(vol.entries, Expand(root)) && run.Valid()
    modifies run
    ensures run.Valid() && run.aborted == (old(run.aborted) || !finished)
    ensures Traversed(old(run.history), run.history, Walk(vol.entries, vol.order, root), finished)
  {
    hide Run.Valid, Walk, Future, Weight, Traversed, FrameReady, WellFormed, Enumerates;
    ghost var e, order, before := vol.entries, vol.order, run.history;
    ghost var all := Walk(e, order, root);
    ghost var s: seq<Event>, more := [], [];
    var stack := [Expand(root)];
    FutureOfRoot(e, order, root);
    while stack != []
      invariant run.Valid() && run.history == before + s && run.aborted == old(run.aborted)
      invariant AllReady(e, stack)
      invariant all == s + Future(e, order, stack)
      decreases Weight(e, order, stack)
    {
      ghost var mid, pending := run.history, Future(e, order, stack);
      finished, stack, more := HandleTop(vol, stack, run);
      if !finished {
        StoppedLater(before, run.history, s, pending);
        return;
      }
      TraversedFurther(before, mid, run.history, s, more, Future(e, order, stack), all);
      s := s + more;
    }
    FutureOfNothing(e, order);
    assert all == s;
    AllTraversed(before, all);
    return true;
  }

  /** Visits every entry below `root` before the directory it is in, `root` last,
      nothing beyond a link, until the callback asks to stop. */
  method ForEachPostorder(vol: Volume, root: Path, run: Run) returns (finished: bool)
    requires vol.Valid() && Direct(vol.entries, root) && run.Valid()
    modifies run
    ensures run.Valid() && run.aborted == (old(run.aborted) || !finished)
    ensures Traversed(old(run.history), run.history, WalkFrom(vol.entries, vol.order, root), finished)
  {
    hide Run.Valid, Walk, Traversed, Direct, WellFormed, Enumerates;
    ResolveDirect(vol.entries, root);
    var probe := ProbeAt(vol.entries, root);
    if probe == AccessError || probe == Found(AReparse) || probe == Found(AFile) {
      finished := VisitOnly(root, if probe == AccessError then Missing else probe.kind, run);
      return;
    }
    finished := RunStack(vol, root, run);
  }

  method VisitOnly(root: Path, kind: PathKind, run: Run) returns (finished: bool)
    requires run.Valid()
    modifies run
    ensures run.Valid() && run.aborted == (old(run.aborted) || !finished)
    ensures Traversed(old(run.history), run.history, [Visit(root, kind)], finished)
  {
    ghost var before := run.history;
    finished := run.VisitEntry(root, kind);
    if !finished {
      StoppedAtOnce(before, run.history, Visit(root, kind), []);
      assert [Visit(root, kind)] + [] == [Visit(root, kind)];
    }
  }
}

/** What happens to one candidate: safety checks, removal now, deletion at restart
    for what is left, and the records of all that. */
module Deletion {
  import opened Basics
  import opened FileSystem
  import opened PathKeys
  import opened Protected
  import opened Removal
  import opened Retry
  import opened RunState
  import opened Postorder
  import opened Text
  import opened Matching

  datatype Options = Options(execute: bool, scheduleLockedForReboot: bool)

  const ALLOWED_DRIVER_STORE_DIRS := ["nvcamera", "nvwmi", "ansel", "display.update", "update.core"]
  const MAX_LISTED_ENTRIES := 16

  /** Whole driver packages, and driver payload folders that are not known bloat,
      are never removed as a whole. */
  predicate UnsafeRecursiveDirectory(isDir: bool, full: string, parent: string, leaf: string) {
    && isDir
    && ((Contains(parent, FILE_REPOSITORY) && LeafHasInfArchMarker(leaf))
      || (Contains(full, FILE_REPOSITORY + "\\") && Lower(leaf) !in ALLOWED_DRIVER_STORE_DIRS))
  }

  predicate UnsafeTarget(e: Entries, p: Path)
    requires p != []
  {
    UnsafeRecursiveDirectory(ProbeAt(e, p) != Found(Missing) && ProbeAt(e, p) != Found(AFile),
                             PathKey(p), PathKey(Parent(p)), Lower(Leaf(p)))
  }

  lemma LowerTwice(s: string)
    ensures Lower(Lower(s)) == Lower(s)
  {
  }

  /** Name by name: a directory, or what cannot be examined, is never removed as a whole
      if it is a driver package, or lies below the repository and is none of the
      folders known as bloat. */
  lemma UnsafeByName(e: Entries, p: Path)
    requires Named(p)
    ensures UnsafeTarget(e, p) <==>
      ProbeAt(e, p) != Found(Missing) && ProbeAt(e, p) != Found(AFile)
      && (IsPackage(p) || (BelowRepository(p) && LeafKey(p) !in ALLOWED_DRIVER_STORE_DIRS))
  {
    hide IsPackage, BelowRepository, Contains, PathKey, ProbeAt, Lower, Begun;
    PackageText(p);
    RepositoryText(p);
    LowerTwice(Leaf(p));
  }

  /** INFO only when the leftovers will be handled at restart, every failure was
      analysed, and each one is a lock held by an NVIDIA container. */
  function FailureLevel(schedule: bool, allAnalyzed: bool, containerOnly: seq<bool>): Status {
    if schedule && allAnalyzed && containerOnly != [] && false !in containerOnly then Info else Warn
  }

  /** Whether the candidate is removed as a tree; the recorded hint decides only
      when its kind cannot be examined. */
  predicate RemovedAsTree(e: Entries, c: Candidate) {
    match ProbeAt(e, c.path)
    case Found(kind) => kind == ADirectory || kind == AReparse
    case AccessError => c.isDirectory
  }

  /** The candidate is handled rather than skipped or only announced. */
  predicate Handled(e: Entries, c: Candidate, o: Options)
    requires c.path != []
  {
    ProbeAt(e, c.path) != Found(Missing) && !UnsafeTarget(e, c.path) && o.execute
  }

  /** What handling the candidate removes at once. */
  ghost function GoneNow(e: Entries, c: Candidate): set<Path> {
    if RemovedAsTree(e, c) then Gone(Softened(e, c.path), c.path)
    else if c.path in e && FileDeletable(Writable(e[c.path])) then {c.path}
    else {}
  }

  /** DeleteFileW, retried once after clearing the attributes. */
  method DeleteSingleFile(vol: Volume, p: Path) returns (ok: bool)
    requires vol.Valid() && Direct(vol.entries, p) && p in vol.entries
    modifies vol
    ensures vol.Valid()
    ensures ok == FileDeletable(Writable(old(vol.entries)[p]))
    ensures RemovedAt(old(vol.entries), vol.entries, p, if ok then {p} else {})
  {
    ghost var e := vol.entries;
    ResolveDirect(e, p);
    LeafRemovalKeepsShape(e, p, vol.order);
    var res := vol.RemoveFile(p);
    if res == Done {
      return true;
    }
    if vol.entries[p].readOnly {
      vol.SetAttributesNormal(p);
      ResolveDirect(vol.entries, p);
      res := vol.RemoveFile(p);
      return res == Done;
    }
    return false;
  }

  lemma LeafRemovalKeepsShape(e: Entries, p: Path, order: Path -> seq<Name>)
    requires WellFormed(e) && Enumerates(order, e) && p in e
    ensures var w := e[p := Writable(e[p])];
      && WellFormed(w) && Enumerates(order, w) && (Direct(e, p) ==> Direct(w, p))
      && (!e[p].kind.Directory? ==> WellFormed(e - {p}) && Enumerates(order, e - {p})
                                    && WellFormed(w - {p}) && Enumerates(order, w - {p}))
  {
    if !e[p].kind.Directory? {
      forall q | q in e - {p} && |q| > 1
        ensures Parent(q) != p
      {
      }
    }
  }

  /** The records handling a candidate leaves, oldest first. */
  ghost predicate CandidateRecords(acts: seq<Event>, c: Candidate, last: Status) {
    acts != [] && OwnRecords(acts, c) && acts[|acts| - 1].record.status == last
  }

  ghost predicate OwnRecords(acts: seq<Event>, c: Candidate) {
    forall a | a in acts :: a.Act? && a.record.kind == DeletePath && a.record.path == c.path
  }

  function OwnRecord(c: Candidate, status: Status): Event {
    Act(ActionRecord(DeletePath, status, c.componentKey, c.path))
  }

  /** log_action for the candidate; `acts` are its records so far. */
  method Record(run: Run, c: Candidate, status: Status, ghost h: seq<Event>, ghost acts: seq<Event>)
    returns (ghost more: seq<Event>)
    requires run.Valid() && run.history == h + acts && OwnRecords(acts, c)
    modifies run`actions, run`history
    ensures run.Valid() && run.history == h + more && CandidateRecords(more, c, status)
    ensures more == acts + [OwnRecord(c, status)]
  {
    run.AddAction(ActionRecord(DeletePath, status, c.componentKey, c.path));
    more := acts + [Act(ActionRecord(DeletePath, status, c.componentKey, c.path))];
  }

  /** What the removal of a candidate reports as not removed. */
  ghost function NotRemoved(e: Entries, c: Candidate): set<Path> {
    if RemovedAsTree(e, c) then Failures(Softened(e, c.path), c.path)
    else if c.path in GoneNow(e, c) then {}
    else {c.path}
  }

  /** Whatever the candidate is, a file, a link or a directory: if it can be examined, what
      goes at once and what is reported are those of one pass over its tree with every
      clearable attribute cleared. */
  lemma EveryKindIsATree(e: Entries, c: Candidate)
    requires WellFormed(e) && Direct(e, c.path) && ProbeAt(e, c.path) != AccessError
    ensures GoneNow(e, c) == Gone(Softened(e, c.path), c.path)
    ensures c.path in e ==> NotRemoved(e, c) == Failures(Softened(e, c.path), c.path)
  {
    var p, s := c.path, Softened(e, c.path);
    ResolveDirect(e, p);
    assert WellFormed(s) by {
      SoftenedShape(e, p);
    }
    if p !in e {
      NothingAtMissingRoot(s, p);
    } else if !e[p].kind.Directory? {
      assert p in Subtree(e, p) && s[p] == Writable(e[p]);
      LeafRoot(s, p);
    }
  }

  /** What cannot be examined goes only if it was recorded as a file and can be deleted as
      one; nothing of what was recorded as a directory goes. */
  lemma UnexaminedByHint(e: Entries, c: Candidate)
    requires WellFormed(e) && Direct(e, c.path) && ProbeAt(e, c.path) == AccessError
    ensures c.path in e
    ensures GoneNow(e, c) == if !c.isDirectory && FileDeletable(Writable(e[c.path])) then {c.path} else {}
  {
    var p, s := c.path, Softened(e, c.path);
    ResolveDirect(e, p);
    SoftenedShape(e, p);
    assert p in Subtree(e, p) && s[p] == Writable(e[p]);
    if s[p].kind.Directory? {
      OpaqueRoot(s, p);
    } else {
      LeafRoot(s, p);
    }
  }

  lemma SoftenedShape(e: Entries, root: Path)
    requires WellFormed(e)
    ensures WellFormed(Softened(e, root)) && Softened(e, root).Keys == e.Keys
  {
  }

  /** All that is left is known, and NVIDIA containers alone hold it. */
  ghost predicate HeldByContainers(left: set<Path>, containerOnly: Path -> bool) {
    0 < |left| <= MAX_LISTED_ENTRIES && forall q | q in left :: containerOnly(q)
  }

  /** The removal itself, dispatched by the no-follow kind of the candidate. */
  method RemoveNow(vol: Volume, c: Candidate) returns (failures: seq<Path>)
    requires vol.Valid() && Direct(vol.entries, c.path) && ProbeAt(vol.entries, c.path) != Found(Missing)
    modifies vol
    ensures vol.Valid()
    ensures RemovedAt(old(vol.entries), vol.entries, c.path, GoneNow(old(vol.entries), c))
    ensures failures == [] <==> c.path !in vol.entries
    ensures Distinct(failures) && Elements(failures) == NotRemoved(old(vol.entries), c)
  {
    ghost var e := vol.entries;
    ResolveDirect(e, c.path);
    var probe := ProbeAt(vol.entries, c.path);
    var asTree := match probe
      case Found(kind) => kind == ADirectory || kind == AReparse
      case AccessError => c.isDirectory;
    if asTree {
      var removal := RemoveTreeWithRetry(vol, c.path);
      failures := removal.failures;
      GoneIffNothingReported(Softened(e, c.path), c.path);
      assert failures != [] ==> failures[0] in Elements(failures);
    } else {
      var ok := DeleteSingleFile(vol, c.path);
      failures := if ok then [] else [c.path];
    }
  }

  /** How the handling of a candidate ended. */
  datatype Outcome =
    | Aborted
    | Skipped(status: Status)
    | Removed
    | LeftBehind
    | QueuedForRestart(finished: bool)

  /** What each ending means for the volume and for the history of the run. */
  ghost predicate Ended(e: Entries, after: Entries, order: Path -> seq<Name>, h: seq<Event>, h': seq<Event>,
                        c: Candidate, o: Options, acts: seq<Event>, r: Outcome)
    requires c.path != []
  {
    var removed := Handled(e, c, o) && RemovedAt(e, after, c.path, GoneNow(e, c));
    match r
    case Aborted => after == e && h' == h
    case Skipped(status) =>
      && !Handled(e, c, o) && after == e && h' == h + acts && CandidateRecords(acts, c, status)
      && (status == Skip || (status == DryRun && !o.execute))
    case Removed => removed && c.path !in after && h' == h + acts && CandidateRecords(acts, c, Info)
    case LeftBehind =>
      && removed && c.path in after && !o.scheduleLockedForReboot
      && h' == h + acts && CandidateRecords(acts, c, Warn)
    case QueuedForRestart(finished) =>
      && removed && c.path in after && o.scheduleLockedForReboot
      && (CandidateRecords(acts, c, Info) || CandidateRecords(acts, c, Warn))
      && Traversed(h + acts, h', WalkFrom(after, order, c.path), finished)
  }

  lemma RecordsAreOwn(acts: seq<Event>, c: Candidate, last: Status)
    requires CandidateRecords(acts, c, last)
    ensures OwnRecords(acts, c)
  {
  }

  /** What is recorded last about a candidate. */
  ghost function EndStatus(e: Entries, c: Candidate, r: Outcome, containerOnly: Path -> bool): Status
    requires c.path != []
  {
    match r
    case Skipped(_) => if ProbeAt(e, c.path) == Found(Missing) || UnsafeTarget(e, c.path) then Skip else DryRun
    case QueuedForRestart(_) => LeftoverStatus(NotRemoved(e, c), containerOnly)
    case LeftBehind => Warn
    case _ => Info
  }

  /** Leftovers that will be handled at restart are a warning unless they are known to be
      held by containers alone. */
  ghost function LeftoverStatus(left: set<Path>, containerOnly: Path -> bool): Status {
    if HeldByContainers(left, containerOnly) then Info else Warn
  }

  /** A candidate that cannot be examined is warned about first. */
  function FirstRecords(e: Entries, c: Candidate): seq<Event> {
    if ProbeAt(e, c.path) == AccessError then [OwnRecord(c, Warn)] else []
  }

  /** Exactly what is recorded about a candidate. */
  ghost predicate ExactRecords(e: Entries, c: Candidate, acts: seq<Event>, r: Outcome, containerOnly: Path -> bool)
    requires c.path != []
  {
    acts == if r == Aborted then [] else FirstRecords(e, c) + [OwnRecord(c, EndStatus(e, c, r, containerOnly))]
  }

  /** delete_candidate. Nothing is touched unless every safety check passes; what
      cannot go now is queued for the restart when that is asked for. */
  method DeleteCandidate(vol: Volume, run: Run, c: Candidate, o: Options, containerOnly: Path -> bool)
    returns (ghost acts: seq<Event>, ghost r: Outcome)
    requires vol.Valid() && Direct(vol.entries, c.path) && run.Valid()
    modifies vol, run
    ensures vol.Valid() && run.Valid()
    ensures Ended(old(vol.entries), vol.entries, vol.order, old(run.history), run.history, c, o, acts, r)
    ensures ExactRecords(old(vol.entries), c, acts, r, containerOnly)
    ensures run.aborted == (old(run.aborted) || r == Aborted || r == QueuedForRestart(false))
  {
    hide RemovedAt, GoneNow, Traversed, WalkFrom, UnsafeTarget, ProbeAt, Run.Valid, Volume.Valid;
    hide NotRemoved, LeftoverStatus, CandidateRecords;
    acts := [];
    assert run.history + acts == run.history;
    ghost var h := run.history;
    var abort := run.AbortRequested();
    if abort {
      run.aborted := true;
      return acts, Aborted;
    }
    var probe := ProbeAt(vol.entries, c.path);
    if probe == Found(Missing) {
      acts := Record(run, c, Skip, h, acts);
      return acts, Skipped(Skip);
    }
    if probe == AccessError {
      acts := Record(run, c, Warn, h, acts);
      RecordsAreOwn(acts, c, Warn);
    }
    assert acts == FirstRecords(vol.entries, c);
    if UnsafeTarget(vol.entries, c.path) {
      acts := Record(run, c, Skip, h, acts);
      return acts, Skipped(Skip);
    }
    if !o.execute {
      acts := Record(run, c, DryRun, h, acts);
      return acts, Skipped(DryRun);
    }
    acts, r := HandleCandidate(vol, run, c, o, containerOnly, h, acts);
  }

  lemma DirectAfterRemoval(e: Entries, after: Entries, root: Path, gone: set<Path>)
    requires Direct(e, root) && RemovedAt(e, after, root, gone)
    ensures Direct(after, root)
  {
  }

  lemma HandledEnds(e: Entries, after: Entries, order: Path -> seq<Name>, h: seq<Event>, h': seq<Event>, c: Candidate,
                    o: Options, acts: seq<Event>, r: Outcome)
    requires c.path != [] && Handled(e, c, o) && RemovedAt(e, after, c.path, GoneNow(e, c))
    requires if c.path !in after then r == Removed && h' == h + acts && CandidateRecords(acts, c, Info)
      else LeftoverReported(after, order, h, h', c, o, acts, r)
    ensures Ended(e, after, order, h, h', c, o, acts, r)
  {
  }

  /** What is recorded about a candidate that could not be removed. */
  ghost predicate LeftoverReported(after: Entries, order: Path -> seq<Name>, h: seq<Event>, h': seq<Event>,
                                   c: Candidate, o: Options, acts: seq<Event>, r: Outcome) {
    && (CandidateRecords(acts, c, Warn) || (CandidateRecords(acts, c, Info) && o.scheduleLockedForReboot))
    && if o.scheduleLockedForReboot
       then r.QueuedForRestart? && Traversed(h + acts, h', WalkFrom(after, order, c.path), r.finished)
       else r == LeftBehind && h' == h + acts
  }

  /** The part of delete_candidate that changes the volume; `before` are the
      candidate's records so far and `h` the history without them. */
  method HandleCandidate(vol: Volume, run: Run, c: Candidate, o: Options, containerOnly: Path -> bool,
                         ghost h: seq<Event>, ghost before: seq<Event>)
    returns (ghost acts: seq<Event>, ghost r: Outcome)
    requires vol.Valid() && Direct(vol.entries, c.path) && Handled(vol.entries, c, o)
    requires run.Valid() && run.history == h + before && OwnRecords(before, c)
    modifies vol, run
    ensures vol.Valid() && run.Valid()
    ensures Ended(old(vol.entries), vol.entries, vol.order, h, run.history, c, o, acts, r)
    ensures acts == before + [OwnRecord(c, EndStatus(old(vol.entries), c, r, containerOnly))]
    ensures run.aborted == (old(run.aborted) || r == QueuedForRestart(false))
    ensures !r.Aborted? && !r.Skipped?
  {
    hide GoneNow, CandidateRecords, Traversed, WalkFrom, UnsafeTarget, Run.Valid, Volume.Valid;
    ghost var e := vol.entries;
    var failures := RemoveNow(vol, c);
    assert Direct(vol.entries, c.path) by {
      DirectAfterRemoval(e, vol.entries, c.path, GoneNow(e, c));
    }
    acts, r := ReportOutcome(vol, run, c, o, failures, containerOnly, h, before);
    HandledEnds(e, vol.entries, vol.order, h, run.history, c, o, acts, r);
  }

  /** The part of delete_candidate that follows the removal. */
  method ReportOutcome(vol: Volume, run: Run, c: Candidate, o: Options, failures: seq<Path>,
                       containerOnly: Path -> bool, ghost h: seq<Event>, ghost before: seq<Event>)
    returns (ghost acts: seq<Event>, ghost r: Outcome)
    requires vol.Valid() && Direct(vol.entries, c.path)
    requires run.Valid() && run.history == h + before && OwnRecords(before, c) && Distinct(failures)
    modifies run
    ensures run.Valid()
    ensures acts == before + [OwnRecord(c, if r == Removed then Info else if r == LeftBehind then Warn
                                           else LeftoverStatus(Elements(failures), containerOnly))]
    ensures if failures == [] then r == Removed && run.history == h + acts && CandidateRecords(acts, c, Info)
      else LeftoverReported(vol.entries, vol.order, h, run.history, c, o, acts, r)
    ensures run.aborted == (old(run.aborted) || r == QueuedForRestart(false))
  {
    if failures == [] {
      acts := Record(run, c, Info, h, before);
      r := Removed;
    } else {
      acts, r := ReportLeftover(vol, run, c, o, failures, containerOnly, h, before);
    }
  }

  lemma LevelIsStatus(failures: seq<Path>, containerOnly: Path -> bool, flags: seq<bool>, schedule: bool)
    requires failures != [] && Distinct(failures)
    requires |flags| == if |failures| <= MAX_LISTED_ENTRIES then |failures| else MAX_LISTED_ENTRIES
    requires forall i | 0 <= i < |flags| :: flags[i] == containerOnly(failures[i])
    ensures FailureLevel(schedule, |failures| <= MAX_LISTED_ENTRIES, flags)
         == if schedule then LeftoverStatus(Elements(failures), containerOnly) else Warn
  {
    DistinctCount(failures);
    assert failures[0] in Elements(failures);
    if |failures| <= MAX_LISTED_ENTRIES {
      assert false in flags <==> exists q | q in Elements(failures) :: !containerOnly(q) by {
        forall i | 0 <= i < |failures|
          ensures failures[i] in Elements(failures)
        {
        }
        if false in flags {
          var i :| 0 <= i < |flags| && !flags[i];
          assert !containerOnly(failures[i]);
        }
        if q :| q in Elements(failures) && !containerOnly(q) {
          var i :| 0 <= i < |failures| && failures[i] == q;
          assert !flags[i];
        }
      }
    }
  }

  /** The part of delete_candidate that follows a removal with leftovers. */
  method ReportLeftover(vol: Volume, run: Run, c: Candidate, o: Options, failures: seq<Path>,
                        containerOnly: Path -> bool, ghost h: seq<Event>, ghost before: seq<Event>)
    returns (ghost acts: seq<Event>, ghost r: Outcome)
    requires vol.Valid() && Direct(vol.entries, c.path)
    requires run.Valid() && run.history == h + before && OwnRecords(before, c)
    requires failures != [] && Distinct(failures)
    modifies run
    ensures run.Valid() && r != Removed
    ensures acts == before + [OwnRecord(c, if r == LeftBehind then Warn
                                           else LeftoverStatus(Elements(failures), containerOnly))]
    ensures LeftoverReported(vol.entries, vol.order, h, run.history, c, o, acts, r)
    ensures run.aborted == (old(run.aborted) || r == QueuedForRestart(false))
  {
    hide Run.Valid, WalkFrom, Traversed, CandidateRecords;
    var listed := if |failures| <= MAX_LISTED_ENTRIES then failures else failures[..MAX_LISTED_ENTRIES];
    var flags := seq(|listed|, i requires 0 <= i < |listed| => containerOnly(listed[i]));
    var level := FailureLevel(o.scheduleLockedForReboot, |failures| <= MAX_LISTED_ENTRIES, flags);
    LevelIsStatus(failures, containerOnly, flags, o.scheduleLockedForReboot);
    acts := Record(run, c, level, h, before);
    if o.scheduleLockedForReboot {
      var finished := ForEachPostorder(vol, c.path, run);
      r := QueuedForRestart(finished);
    } else {
      r := LeftBehind;
    }
  }
}

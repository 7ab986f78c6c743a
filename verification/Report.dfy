/** The account a run gives of itself: what is still there, what of that waits for
    the restart, and the figures in the closing summary. */
module Report {
  import opened Basics
  import opened FileSystem
  import opened RunState
  import opened Text
  import opened Matching
  import opened Removal
  import opened Retry
  import opened Postorder
  import opened WalkOrder
  import opened Restart
  import opened Deletion
  import opened Leftovers
  import opened Collapse
  import opened Cleanup

  datatype VerifyOutcome = DryRunOnly | ScheduledReboot | SkippedIt | DeletionFailed | NoAction | StillPresent

  /** verify_outcome_for; no record counts as the empty status. */
  function VerifyOutcomeFor(execute: bool, status: Option<Status>, scheduled: bool): VerifyOutcome {
    if !execute || status == Some(DryRun) then DryRunOnly
    else if scheduled && status != Some(Warn) && status != Some(Skip) then ScheduledReboot
    else
      match status
      case Some(Skip) => SkippedIt
      case Some(Warn) => DeletionFailed
      case Some(Fatal) => DeletionFailed
      case None => NoAction
      case _ => StillPresent
  }

  predicate AboutDeletion(a: ActionRecord) {
    a.kind == DeletePath || a.kind == ScheduleDelete
  }

  /** The status of the latest deletion record for a path. */
  function Latest(actions: seq<ActionRecord>, text: string): Option<Status> {
    if actions == [] then None
    else
      var last := actions[|actions| - 1];
      if AboutDeletion(last) && PathText(last.path) == text then Some(last.status)
      else Latest(actions[..|actions| - 1], text)
  }

  /** Records of anything else than a deletion do not count, whatever path they carry. */
  lemma OtherActionsDoNotCount(actions: seq<ActionRecord>, a: ActionRecord, text: string)
    requires a.kind.OtherAction?
    ensures Latest(actions + [a], text) == Latest(actions, text)
  {
    assert (actions + [a])[..|actions|] == actions;
  }

  /** What the check after the run says about one candidate. */
  datatype Verdict = Gone | Unverified | Remains(outcome: VerifyOutcome)

  function VerdictOn(e: Entries, execute: bool, actions: seq<ActionRecord>, scheduled: set<string>, c: Candidate)
    : Verdict
  {
    match ProbeAt(e, c.path)
    case Found(Missing) => Gone
    case AccessError => Unverified
    case Found(_) =>
      Remains(VerifyOutcomeFor(execute, Latest(actions, PathText(c.path)), PathKey(c.path) in scheduled))
  }

  /** An entry that cannot be examined is never taken for gone; one that is there is put
      down to what was recorded last about it, and to the restart only when its key is
      pending and nothing went wrong. */
  lemma VerdictMeans(e: Entries, execute: bool, actions: seq<ActionRecord>, scheduled: set<string>, c: Candidate)
    requires Direct(e, c.path)
    ensures var v := VerdictOn(e, execute, actions, scheduled, c);
      && (v == Gone <==> c.path !in e) && (v == Unverified <==> c.path in e && e[c.path].denied)
    ensures c.path in e && !e[c.path].denied ==>
      var v, latest := VerdictOn(e, execute, actions, scheduled, c), Latest(actions, PathText(c.path));
      var pending := PathKey(c.path) in scheduled;
      && (v == Remains(DryRunOnly) <==> !execute || latest == Some(DryRun))
      && (v == Remains(SkippedIt) <==> execute && latest == Some(Skip))
      && (v == Remains(DeletionFailed) <==> execute && (latest == Some(Warn) || (latest == Some(Fatal) && !pending)))
      && (v == Remains(ScheduledReboot) <==>
            execute && pending && latest != Some(DryRun) && latest != Some(Skip) && latest != Some(Warn))
      && (v == Remains(NoAction) <==> execute && latest == None && !pending)
  {
    hide Latest, PathText;
    ResolveDirect(e, c.path);
  }

  function Verdicts(e: Entries, execute: bool, actions: seq<ActionRecord>, scheduled: set<string>,
                    candidates: seq<Candidate>): seq<Verdict> {
    seq(|candidates|, i requires 0 <= i < |candidates| => VerdictOn(e, execute, actions, scheduled, candidates[i]))
  }

  function Count(verdicts: seq<Verdict>, counted: Verdict -> bool): (n: nat)
    ensures n <= |verdicts|
  {
    if verdicts == [] then 0
    else Count(verdicts[..|verdicts| - 1], counted) + (if counted(verdicts[|verdicts| - 1]) then 1 else 0)
  }

  function Remaining(): Verdict -> bool {
    (v: Verdict) => v != Gone
  }

  function Pending(): Verdict -> bool {
    (v: Verdict) => v == Remains(ScheduledReboot)
  }

  function Errors(): Verdict -> bool {
    (v: Verdict) => v == Unverified
  }

  function DryRuns(): Verdict -> bool {
    (v: Verdict) => v == Remains(DryRunOnly)
  }

  /** The latest status of each path, by its text. */
  method PathOutcomes(actions: seq<ActionRecord>) returns (m: map<string, Status>)
    ensures forall t :: (t in m <==> Latest(actions, t).Some?) && (t in m ==> Latest(actions, t) == Some(m[t]))
  {
    m := map[];
    assert actions[..0] == [];
    assert actions[..|actions|] == actions;
    for i := 0 to |actions|
      invariant forall t ::
        (t in m <==> Latest(actions[..i], t).Some?) && (t in m ==> Latest(actions[..i], t) == Some(m[t]))
    {
      assert actions[..i + 1][..i] == actions[..i];
      if AboutDeletion(actions[i]) {
        m := m[PathText(actions[i].path) := actions[i].status];
      }
    }
  }

  lemma WhatCounts(v: Verdict)
    ensures (Remaining()(v) <==> v != Gone) && (Errors()(v) <==> v == Unverified)
    ensures (Pending()(v) <==> v == Remains(ScheduledReboot)) && (DryRuns()(v) <==> v == Remains(DryRunOnly))
  {
  }

  /** verify_candidate_removal */
  method VerifyCandidateRemoval(e: Entries, execute: bool, actions: seq<ActionRecord>, scheduled: set<string>,
                                candidates: seq<Candidate>)
    returns (remaining: nat, pendingReboot: nat, errors: nat, dryRun: nat)
    ensures var v := Verdicts(e, execute, actions, scheduled, candidates);
      && remaining == Count(v, Remaining()) && pendingReboot == Count(v, Pending())
      && errors == Count(v, Errors()) && dryRun == Count(v, DryRuns())
  {
    hide PathText, Latest, ProbeAt, Lower, Remaining, Pending, Errors, DryRuns;
    remaining, pendingReboot, errors, dryRun := 0, 0, 0, 0;
    var pathOutcome := PathOutcomes(actions);
    ghost var v := Verdicts(e, execute, actions, scheduled, candidates);
    assert v[..0] == [];
    assert v[..|v|] == v;
    for i := 0 to |candidates|
      invariant remaining == Count(v[..i], Remaining()) && pendingReboot == Count(v[..i], Pending())
      invariant errors == Count(v[..i], Errors()) && dryRun == Count(v[..i], DryRuns())
    {
      assert v[..i + 1][..i] == v[..i];
      WhatCounts(v[i]);
      var c := candidates[i];
      var stat := ProbeAt(e, c.path);
      if stat == Found(Missing) {
        continue;
      }
      remaining := remaining + 1;
      var pathKey := PathText(c.path);
      var status := if pathKey in pathOutcome then Some(pathOutcome[pathKey]) else None;
      assert status == Latest(actions, pathKey);
      var wasScheduled := Lower(pathKey) in scheduled;
      if stat == AccessError {
        errors := errors + 1;
      } else {
        match VerifyOutcomeFor(execute, status, wasScheduled)
        case DryRunOnly => dryRun := dryRun + 1;
        case ScheduledReboot => pendingReboot := pendingReboot + 1;
        case _ =>
      }
    }
  }

  /** Each remaining candidate is counted under one heading at most. */
  lemma {:induction false} HeadingsAreApart(v: seq<Verdict>)
    ensures Count(v, Pending()) + Count(v, Errors()) + Count(v, DryRuns()) <= Count(v, Remaining()) <= |v|
  {
    if v == [] {
    } else {
      HeadingsAreApart(v[..|v| - 1]);
    }
  }

  /** Where candidates of a kind stand among the first `n`. */
  function Positions(verdicts: seq<Verdict>, n: nat, counted: Verdict -> bool): set<nat>
    requires n <= |verdicts|
  {
    set i: nat | i < n && counted(verdicts[i])
  }

  lemma {:induction false} CountIs(verdicts: seq<Verdict>, n: nat, counted: Verdict -> bool)
    requires n <= |verdicts|
    ensures Count(verdicts[..n], counted) == |Positions(verdicts, n, counted)|
  {
    if n == 0 {
      assert Positions(verdicts, 0, counted) == {};
    } else {
      hide Positions;
      CountIs(verdicts, n - 1, counted);
      assert verdicts[..n][..n - 1] == verdicts[..n - 1];
      OnePosition(verdicts, n - 1, counted);
    }
  }

  lemma OnePosition(verdicts: seq<Verdict>, n: nat, counted: Verdict -> bool)
    requires n < |verdicts|
    ensures var front := Positions(verdicts, n, counted);
      && n !in front && Positions(verdicts, n + 1, counted) == if counted(verdicts[n]) then front + {n} else front
  {
  }

  function NotGone(e: Entries, candidates: seq<Candidate>): set<nat> {
    set i: nat | i < |candidates| && candidates[i].path in e
  }

  function CannotBeExamined(e: Entries, candidates: seq<Candidate>): set<nat> {
    set i: nat | i < |candidates| && candidates[i].path in e && e[candidates[i].path].denied
  }

  /** Examined, still there, pending, and nothing went wrong with it last. */
  function WaitingForRestart(e: Entries, execute: bool, actions: seq<ActionRecord>, scheduled: set<string>,
                             candidates: seq<Candidate>): set<nat> {
    set i: nat | i < |candidates| && candidates[i].path in e && !e[candidates[i].path].denied && execute
      && PathKey(candidates[i].path) in scheduled
      && Latest(actions, PathText(candidates[i].path)) !in [Some(DryRun), Some(Skip), Some(Warn)]
  }

  /** Examined, still there and only announced. */
  function OnlyAnnounced(e: Entries, execute: bool, actions: seq<ActionRecord>, candidates: seq<Candidate>): set<nat> {
    set i: nat | i < |candidates| && candidates[i].path in e && !e[candidates[i].path].denied
      && (!execute || Latest(actions, PathText(candidates[i].path)) == Some(DryRun))
  }

  /** What the figures of the check count, said of the volume and the records. */
  lemma FiguresMean(e: Entries, execute: bool, actions: seq<ActionRecord>, scheduled: set<string>,
                    candidates: seq<Candidate>)
    requires forall c | c in candidates :: Direct(e, c.path)
    ensures var v := Verdicts(e, execute, actions, scheduled, candidates);
      && Count(v, Remaining()) == |NotGone(e, candidates)|
      && Count(v, Errors()) == |CannotBeExamined(e, candidates)|
      && Count(v, Pending()) == |WaitingForRestart(e, execute, actions, scheduled, candidates)|
      && Count(v, DryRuns()) == |OnlyAnnounced(e, execute, actions, candidates)|
  {
    var v := Verdicts(e, execute, actions, scheduled, candidates);
    hide VerdictOn, Latest, PathText, PathKey, Direct;
    assert v[..|v|] == v;
    forall i: nat | i < |v|
      ensures v[i] != Gone <==> candidates[i].path in e
      ensures v[i] == Unverified <==> candidates[i].path in e && e[candidates[i].path].denied
      ensures v[i] == Remains(ScheduledReboot)
        <==> i in WaitingForRestart(e, execute, actions, scheduled, candidates)
      ensures v[i] == Remains(DryRunOnly) <==> i in OnlyAnnounced(e, execute, actions, candidates)
    {
      VerdictMeans(e, execute, actions, scheduled, candidates[i]);
    }
    CountIs(v, |v|, Remaining());
    CountIs(v, |v|, Errors());
    CountIs(v, |v|, Pending());
    CountIs(v, |v|, DryRuns());
    assert Positions(v, |v|, Remaining()) == NotGone(e, candidates);
    assert Positions(v, |v|, Errors()) == CannotBeExamined(e, candidates);
    assert Positions(v, |v|, Pending()) == WaitingForRestart(e, execute, actions, scheduled, candidates);
    assert Positions(v, |v|, DryRuns()) == OnlyAnnounced(e, execute, actions, candidates);
  }

  // ---- the closing summary ----

  datatype ResultFacts = ResultFacts(execute: bool, aborted: bool, found: nat, remaining: nat, pendingReboot: nat,
                                     rebootEntries: nat, problems: nat)

  datatype Line =
    | StoppedEarly | NothingToRemove | WouldRemove(n: nat) | RemovedAll(n: nat) | RemovedNow(n: nat, found: nat)
    | WaitsForRestart(n: nat) | PartsWaitForRestart | CouldNotRemove(n: nat) | WarningsReported(n: nat)

  function SaturatingSub(a: nat, b: nat): nat {
    if a < b then 0 else a - b
  }

  /** How many of the found candidates a line accounts for. */
  function Accounted(line: Line): nat {
    match line
    case RemovedAll(n) => n
    case RemovedNow(n, _) => n
    case WaitsForRestart(n) => n
    case CouldNotRemove(n) => n
    case _ => 0
  }

  function Account(lines: seq<Line>): nat {
    if lines == [] then 0 else Account(lines[..|lines| - 1]) + Accounted(lines[|lines| - 1])
  }

  method Push(lines: seq<Line>, line: Line) returns (out: seq<Line>)
    ensures Account(out) == Account(lines) + Accounted(line)
    ensures forall l :: l in out <==> l in lines || l == line
  {
    out := lines + [line];
    assert out[..|lines|] == lines;
  }

  /** The facts can come from one check: what waits is part of what remains, and
      that of what was found. */
  predicate Consistent(f: ResultFacts) {
    f.pendingReboot <= f.remaining <= f.found
  }

  /** What is said about an executed run that found something. */
  predicate SaidOfExecuted(f: ResultFacts, line: Line) {
    match line
    case RemovedAll(n) => f.remaining == 0 && n == f.found
    case RemovedNow(n, found) => f.remaining > 0 && n == SaturatingSub(f.found, f.remaining) && found == f.found
    case WaitsForRestart(n) => n == f.pendingReboot && n > 0
    case PartsWaitForRestart => f.pendingReboot == 0 && f.rebootEntries > 0
    case CouldNotRemove(n) => f.remaining > f.pendingReboot && n == f.remaining - f.pendingReboot
    case _ => false
  }

  /** Exactly when a line is part of the summary. */
  predicate Said(f: ResultFacts, line: Line) {
    match line
    case StoppedEarly => f.aborted
    case NothingToRemove => f.found == 0
    case WouldRemove(n) => !f.execute && f.found > 0 && n == f.found
    case WarningsReported(n) => n == f.problems && n > 0
    case _ => f.execute && f.found > 0 && SaidOfExecuted(f, line)
  }

  /** result_lines. In an executed run every found candidate is accounted for once:
      removed, waiting for the restart, or not removed. */
  method ResultLines(f: ResultFacts) returns (out: seq<Line>)
    ensures f.execute && f.found > 0 && Consistent(f) ==> Account(out) == f.found
    ensures !f.execute || f.found == 0 ==> Account(out) == 0
    ensures forall l :: l in out <==> Said(f, l)
  {
    out := [];
    if f.aborted {
      out := Push(out, StoppedEarly);
    }
    if f.found == 0 {
      out := Push(out, NothingToRemove);
    } else if !f.execute {
      out := Push(out, WouldRemove(f.found));
    } else {
      out := OutcomeLines(f, out);
    }
    if f.problems > 0 {
      out := Push(out, WarningsReported(f.problems));
    }
  }

  method OutcomeLines(f: ResultFacts, before: seq<Line>) returns (out: seq<Line>)
    requires f.execute && f.found > 0 && Account(before) == 0
    ensures Consistent(f) ==> Account(out) == f.found
    ensures forall l :: l in out <==> l in before || SaidOfExecuted(f, l)
  {
    var removed := SaturatingSub(f.found, f.remaining);
    var failed := SaturatingSub(f.remaining, f.pendingReboot);
    var first := if f.remaining == 0 then RemovedAll(f.found) else RemovedNow(removed, f.found);
    out := Push(before, first);
    if f.pendingReboot > 0 {
      out := Push(out, WaitsForRestart(f.pendingReboot));
    } else if f.rebootEntries > 0 {
      out := Push(out, PartsWaitForRestart);
    }
    if failed > 0 {
      out := Push(out, CouldNotRemove(failed));
    }
  }

  /** Whatever a run has recorded, the figures of its check are consistent, so the
      summary of an executed run adds up to what was found. */
  method CloseRun(e: Entries, execute: bool, aborted: bool, actions: seq<ActionRecord>, scheduled: set<string>,
                  candidates: seq<Candidate>, problems: nat)
    returns (f: ResultFacts, lines: seq<Line>)
    ensures Consistent(f) && f.found == |candidates| && f.execute == execute && f.aborted == aborted
    ensures f.rebootEntries == |scheduled| && f.problems == problems && forall l :: l in lines <==> Said(f, l)
    ensures var v := Verdicts(e, execute, actions, scheduled, candidates);
      f.remaining == Count(v, Remaining()) && f.pendingReboot == Count(v, Pending())
    ensures execute && candidates != [] ==> Account(lines) == |candidates|
  {
    var remaining, pendingReboot, errors, dryRun := VerifyCandidateRemoval(e, execute, actions, scheduled, candidates);
    HeadingsAreApart(Verdicts(e, execute, actions, scheduled, candidates));
    f := ResultFacts(execute, aborted, |candidates|, remaining, pendingReboot, |scheduled|, problems);
    lines := ResultLines(f);
  }

  // ---- what "waits for the restart" means ----

  lemma {:induction false} ScheduledKey(run: Run, h: seq<Event>, k: string)
    ensures k in run.KeysOf(h) <==> exists q :: q in run.QueueOf(h) && PathKey(q) == k
  {
    if h == [] {
    } else {
      var front, last := h[..|h| - 1], h[|h| - 1];
      ScheduledKey(run, front, k);
      assert h == front + [last];
    }
  }

  /** A candidate is reported as waiting only when a path with its key is in the
      queue and its latest record is neither a warning nor a skip. */
  lemma WaitingWasQueued(run: Run, e: Entries, execute: bool, c: Candidate)
    requires run.Valid()
    requires VerdictOn(e, execute, run.actions, run.rebootScheduled, c) == Remains(ScheduledReboot)
    ensures execute && exists q :: q in run.queue && PathKey(q) == PathKey(c.path)
    ensures var latest := Latest(run.actions, PathText(c.path));
      latest != Some(Warn) && latest != Some(Skip) && latest != Some(DryRun)
  {
    ScheduledKey(run, run.history, PathKey(c.path));
  }

  lemma OneMoreRecord(a: seq<ActionRecord>, more: seq<ActionRecord>, text: string)
    requires |more| <= 1 && forall r | r in more :: PathText(r.path) != text
    ensures Latest(a + more, text) == Latest(a, text)
  {
    if more == [] {
      assert a + more == a;
    } else {
      assert (a + more)[..|a + more| - 1] == a;
    }
  }

  lemma LatestAfter(run: Run, h: seq<Event>, v: Event, text: string)
    requires PathText(EventPath(v)) != text
    ensures Latest(run.ActionsOf(h + [v]), text) == Latest(run.ActionsOf(h), text)
  {
    run.OneMore(h, v);
    var more := if v.Visit? then [run.ScheduleRecord(v.path)] else if v.Act? then [v.record] else [];
    OneMoreRecord(run.ActionsOf(h), more, text);
  }

  /** Events about other paths leave the latest record of a path as it is. */
  lemma {:induction false} LatestThrough(run: Run, h: seq<Event>, added: seq<Event>, text: string)
    requires forall v | v in added :: PathText(EventPath(v)) != text
    ensures Latest(run.ActionsOf(h + added), text) == Latest(run.ActionsOf(h), text)
  {
    if added == [] {
      assert h + added == h;
    } else {
      var front, last := added[..|added| - 1], added[|added| - 1];
      assert added == front + [last] && last in added;
      LatestThrough(run, h, front, text);
      Assoc(h, front, [last]);
      LatestAfter(run, h + front, last, text);
    }
  }

  /** Every event is about a path at or below `root`. */
  ghost predicate AllBelow(root: Path, s: seq<Event>) {
    forall v | v in s :: AtOrAbove(root, EventPath(v))
  }

  lemma BelowTogether(root: Path, a: seq<Event>, b: seq<Event>)
    requires AllBelow(root, a) && AllBelow(root, b)
    ensures AllBelow(root, a + b)
  {
  }

  lemma WalkBelow(e: Entries, order: Path -> seq<Name>, root: Path)
    requires WellFormed(e) && Enumerates(order, e) && Direct(e, root)
    ensures AllBelow(root, WalkFrom(e, order, root))
  {
    var all := WalkFrom(e, order, root);
    WalkFromFacts(e, order, root);
    forall v | v in all
      ensures AtOrAbove(root, EventPath(v))
    {
      assert EventPath(v) in PathSet(all);
      VisitsAreDirect(e, root, EventPath(v));
    }
  }

  lemma TraversalBelow(h: seq<Event>, h': seq<Event>, all: seq<Event>, finished: bool, root: Path)
    returns (added: seq<Event>)
    requires Traversed(h, h', all, finished) && AllBelow(root, all)
    ensures h' == h + added && AllBelow(root, added)
  {
    added := all;
    if !finished {
      var n: nat :| n < |all| && StoppedAfter(h, h', all, n);
      var stop := if all[n].Act? then [] else [Stop(all[n].path, all[n].kind)];
      assert all[n] in all;
      added := all[..n] + stop;
      assert h + (all[..n] + stop) == h + all[..n] + stop;
    }
  }

  lemma NothingIsBelow(root: Path)
    ensures AllBelow(root, [])
  {
  }

  lemma RecordsAreBelow(acts: seq<Event>, c: Candidate)
    requires OwnRecords(acts, c)
    ensures AllBelow(c.path, acts)
  {
  }

  lemma GrowsBelow(x: Handling, order: Path -> seq<Name>, c: Candidate) returns (added: seq<Event>)
    requires Grows(x, order, c) && AllBelow(c.path, WalkFrom(x.after, order, c.path))
    ensures x.h' == x.h + added && AllBelow(c.path, added)
  {
    hide AllBelow, Traversed, WalkFrom, OwnRecords;
    added := [];
    if x.r == Aborted {
      assert x.h + [] == x.h;
      NothingIsBelow(c.path);
    } else {
      added := x.acts;
      RecordsAreBelow(x.acts, c);
      if x.r.QueuedForRestart? {
        var rest := TraversalBelow(x.h + x.acts, x.h', WalkFrom(x.after, order, c.path), x.r.finished, c.path);
        added := x.acts + rest;
        BelowTogether(c.path, x.acts, rest);
        assert x.h + (x.acts + rest) == x.h + x.acts + rest;
      }
    }
  }

  /** What handling a candidate adds to the history is about paths at or below it. */
  lemma StepAddsBelow(x: Handling, order: Path -> seq<Name>, c: Candidate, o: Options) returns (added: seq<Event>)
    requires HandledAs(x, order, c, o)
    ensures x.h' == x.h + added && AllBelow(c.path, added)
  {
    assert Grows(x, order, c) by {
      EndedGrows(x, order, c, o);
    }
    assert AllBelow(c.path, WalkFrom(x.after, order, c.path)) by {
      StepOnVolume(x, order, c, o);
      WalkBelow(x.after, order, c.path);
    }
    added := GrowsBelow(x, order, c);
  }

  ghost predicate KeepsLatest(run: Run, x: Handling, text: string) {
    Latest(run.ActionsOf(x.h'), text) == Latest(run.ActionsOf(x.h), text)
  }

  /** Handling one candidate leaves the latest record of another as it is. */
  lemma LatestOfAnother(run: Run, x: Handling, order: Path -> seq<Name>, c: Candidate, o: Options, other: Candidate)
    requires HandledAs(x, order, c, o) && !Covers(PathKey(c.path), PathKey(other.path))
    ensures KeepsLatest(run, x, PathText(other.path))
  {
    var added := StepAddsBelow(x, order, c, o);
    forall v | v in added
      ensures PathText(EventPath(v)) != PathText(other.path)
    {
      BelowHasKey(c.path, EventPath(v));
    }
    LatestThrough(run, x.h, added, PathText(other.path));
  }

  lemma {:induction false} LatestSince(run: Run, trace: seq<Handling>, e: Entries, h: seq<Event>, i: nat, n: nat,
                                       text: string)
    requires Linked(trace, e, h) && i < n <= |trace|
    requires forall j | i < j < n :: KeepsLatest(run, trace[j], text)
    ensures Latest(run.ActionsOf(HistoryAt(trace, h, n)), text) == Latest(run.ActionsOf(trace[i].h'), text)
  {
    if i == n - 1 {
    } else {
      LatestSince(run, trace, e, h, i, n - 1, text);
      LinkAt(trace, e, h, n);
      assert KeepsLatest(run, trace[n - 1], text);
    }
  }

  /** After a candidate's tree has been traversed to the end, its latest record is
      that of its own path, which is visited last. */
  lemma LatestIsTheRoots(run: Run, x: Handling, order: Path -> seq<Name>, c: Candidate, o: Options)
    requires HandledAs(x, order, c, o) && x.r == QueuedForRestart(true)
    ensures Latest(run.ActionsOf(x.h'), PathText(c.path)) == Some(if run.Accepted(c.path) then Info else Warn)
  {
    var s := WalkFrom(x.after, order, c.path);
    assert x.h' == x.h + x.acts + s;
    assert s != [] && s[|s| - 1].Visit? && s[|s| - 1].path == c.path by {
      StepOnVolume(x, order, c, o);
      WalkFromFacts(x.after, order, c.path);
      assert s[|s| - 1] in s;
    }
    LatestVisit(run, x.h + x.acts, s, c.path);
  }

  lemma LatestVisit(run: Run, h: seq<Event>, s: seq<Event>, p: Path)
    requires s != [] && s[|s| - 1].Visit? && s[|s| - 1].path == p
    ensures Latest(run.ActionsOf(h + s), PathText(p)) == Some(if run.Accepted(p) then Info else Warn)
  {
    var before, last := h + s[..|s| - 1], s[|s| - 1];
    assert h + s == before + [last];
    run.OneMore(before, last);
    var a := run.ActionsOf(before);
    assert (a + [run.ScheduleRecord(p)])[..|a|] == a;
  }

  /** A run that itself queued all that is in the queue, and a candidate of which no
      other one's lowercased path covers that of this one or is covered by it, as is
      so of collapsed candidates. */
  ghost predicate RunWith(run: Run, trace: seq<Handling>, order: Path -> seq<Name>, cs: seq<Candidate>, o: Options,
                          e: Entries, h: seq<Event>, i: nat) {
    && WellFormed(e) && Chain(trace, order, cs, o, e, h) && run.QueueOf(h) == []
    && i < |cs| && AloneByKey(cs, i)
  }

  lemma RunIsAlone(run: Run, trace: seq<Handling>, order: Path -> seq<Name>, cs: seq<Candidate>, o: Options,
                   e: Entries, h: seq<Event>, i: nat)
    requires RunWith(run, trace, order, cs, o, e, h, i)
    ensures forall j | 0 <= j < |trace| :: cs[j].path != []
    ensures i < |trace| ==> Alone(cs, i, |trace|)
  {
    forall j | 0 <= j < |trace|
      ensures cs[j].path != []
    {
      assert HandledAt(trace, order, cs, o, j);
    }
    if i < |trace| {
      AloneByKeyIsAlone(cs, i, |trace|);
    }
  }

  /** The candidate's own path was queued: it was traversed to the end and accepted. */
  ghost predicate OwnPathQueued(run: Run, trace: seq<Handling>, cs: seq<Candidate>, i: nat)
    requires i < |cs|
  {
    i < |trace| && trace[i].r == QueuedForRestart(true) && run.Accepted(cs[i].path)
  }

  lemma OwnInQueue(run: Run, x: Handling, root: Path, q: seq<Path>, before: seq<Path>, own: seq<Path>,
                   behind: seq<Path>)
    requires QueueAround(run, x, root, q, before, own, behind)
    ensures root in q <==> x.r == QueuedForRestart(true) && run.Accepted(root)
  {
    assert AtOrAbove(root, root);
  }

  /** A key counts as scheduled only through the candidate's own path: no part of
      another candidate has it, and a traversal that was cut short did not come to
      its root. */
  lemma ScheduledIsOwn(run: Run, trace: seq<Handling>, order: Path -> seq<Name>, cs: seq<Candidate>, o: Options,
                       e: Entries, h: seq<Event>, i: nat)
    requires RunWith(run, trace, order, cs, o, e, h, i)
    ensures PathKey(cs[i].path) in run.KeysOf(HistoryAt(trace, h, |trace|)) <==> OwnPathQueued(run, trace, cs, i)
  {
    var q := run.QueueOf(HistoryAt(trace, h, |trace|));
    ChainSteps(run, trace, order, cs, o, e, h);
    RunIsAlone(run, trace, order, cs, o, e, h, i);
    ScheduledKey(run, HistoryAt(trace, h, |trace|), PathKey(cs[i].path));
    QueueSoFar(run, trace, cs, e, h, |trace|);
    forall p | p in q && PathKey(p) == PathKey(cs[i].path)
      ensures p == cs[i].path && i < |trace|
    {
      var j :| 0 <= j < |trace| && AtOrAbove(cs[j].path, p);
      BelowHasKey(cs[j].path, p);
    }
    if i < |trace| {
      var before, own, behind := OwnPart(run, trace, cs, e, h, i);
      OwnInQueue(run, trace[i], cs[i].path, q, before, own, behind);
    }
  }

  lemma LatestAtEnd(run: Run, trace: seq<Handling>, order: Path -> seq<Name>, cs: seq<Candidate>, o: Options,
                    e: Entries, h: seq<Event>, i: nat)
    requires RunWith(run, trace, order, cs, o, e, h, i) && OwnPathQueued(run, trace, cs, i)
    ensures Latest(run.ActionsOf(HistoryAt(trace, h, |trace|)), PathText(cs[i].path)) == Some(Info)
  {
    LatestStays(run, trace, order, cs, o, e, h, i);
    assert HandledAt(trace, order, cs, o, i);
    LatestByOutcome(run, trace[i], order, cs[i], o);
  }

  lemma OwnPathRemains(run: Run, trace: seq<Handling>, order: Path -> seq<Name>, cs: seq<Candidate>, o: Options,
                       e: Entries, h: seq<Event>, i: nat)
    requires RunWith(run, trace, order, cs, o, e, h, i) && i < |trace| && trace[i].r == QueuedForRestart(true)
    ensures var final := EntriesAt(trace, e, |trace|);
      o.execute && cs[i].path in final && Resolve(final, cs[i].path) == cs[i].path
  {
    var p := cs[i].path;
    assert HandledAt(trace, order, cs, o, i);
    ChainSteps(run, trace, order, cs, o, e, h);
    RunIsAlone(run, trace, order, cs, o, e, h, i);
    StaysAsLeft(trace, cs, e, h, i, p);
    FinalShape(trace, order, cs, o, e, h);
    EntryIsDirect(EntriesAt(trace, e, |trace|), p);
    ResolveDirect(EntriesAt(trace, e, |trace|), p);
  }

  lemma WaitingFrom(e: Entries, execute: bool, actions: seq<ActionRecord>, scheduled: set<string>, c: Candidate,
                    own: bool)
    requires PathKey(c.path) in scheduled <==> own
    requires own ==> execute && c.path in e && Resolve(e, c.path) == c.path
    requires own ==> Latest(actions, PathText(c.path)) == Some(Info)
    ensures VerdictOn(e, execute, actions, scheduled, c) == Remains(ScheduledReboot)
       <==> own && ProbeAt(e, c.path) != AccessError
  {
  }

  /** At the end of the run, whatever the other candidates recorded: a candidate that
      can be examined is reported as waiting for the restart exactly when its
      leftovers were traversed to the end and queueing its own path succeeded. */
  lemma WaitingIsTheRootsOwn(run: Run, trace: seq<Handling>, order: Path -> seq<Name>, cs: seq<Candidate>, o: Options,
                             e: Entries, h: seq<Event>, i: nat)
    requires RunWith(run, trace, order, cs, o, e, h, i)
    ensures var final, end := EntriesAt(trace, e, |trace|), HistoryAt(trace, h, |trace|);
      VerdictOn(final, o.execute, run.ActionsOf(end), run.KeysOf(end), cs[i]) == Remains(ScheduledReboot)
      <==> OwnPathQueued(run, trace, cs, i) && ProbeAt(final, cs[i].path) != AccessError
  {
    var final, end := EntriesAt(trace, e, |trace|), HistoryAt(trace, h, |trace|);
    var own := OwnPathQueued(run, trace, cs, i);
    assert PathKey(cs[i].path) in run.KeysOf(end) <==> own by {
      ScheduledIsOwn(run, trace, order, cs, o, e, h, i);
    }
    assert own ==> o.execute && cs[i].path in final && Resolve(final, cs[i].path) == cs[i].path by {
      if own {
        OwnPathRemains(run, trace, order, cs, o, e, h, i);
      }
    }
    assert own ==> Latest(run.ActionsOf(end), PathText(cs[i].path)) == Some(Info) by {
      if own {
        LatestAtEnd(run, trace, order, cs, o, e, h, i);
      }
    }
    WaitingFrom(final, o.execute, run.ActionsOf(end), run.KeysOf(end), cs[i], own);
  }

  /** The latest record after a candidate's own records is the last of these. */
  lemma LatestOwn(run: Run, h: seq<Event>, acts: seq<Event>, c: Candidate, last: Status)
    requires CandidateRecords(acts, c, last)
    ensures Latest(run.ActionsOf(h + acts), PathText(c.path)) == Some(last)
  {
    var front, act := acts[..|acts| - 1], acts[|acts| - 1];
    assert act in acts && h + acts == (h + front) + [act];
    run.OneMore(h + front, act);
    var a := run.ActionsOf(h + front);
    assert (a + [act.record])[..|a|] == a;
  }

  /** What is recorded last about a candidate when its own handling ends. */
  lemma LatestByOutcome(run: Run, x: Handling, order: Path -> seq<Name>, c: Candidate, o: Options)
    requires HandledAs(x, order, c, o)
    ensures var latest := Latest(run.ActionsOf(x.h'), PathText(c.path));
      && (x.r == Skipped(Skip) ==> latest == Some(Skip)) && (x.r == LeftBehind ==> latest == Some(Warn))
      && (x.r == QueuedForRestart(true) ==> latest == Some(if run.Accepted(c.path) then Info else Warn))
  {
    hide Latest, PathText, Run.ActionsOf;
    if x.r == Skipped(Skip) {
      LatestOwn(run, x.h, x.acts, c, Skip);
    } else if x.r == LeftBehind {
      LatestOwn(run, x.h, x.acts, c, Warn);
    } else if x.r == QueuedForRestart(true) {
      LatestIsTheRoots(run, x, order, c, o);
    }
  }

  /** The others leave that record as it is. */
  lemma LatestStays(run: Run, trace: seq<Handling>, order: Path -> seq<Name>, cs: seq<Candidate>, o: Options,
                    e: Entries, h: seq<Event>, i: nat)
    requires RunWith(run, trace, order, cs, o, e, h, i) && i < |trace|
    ensures Latest(run.ActionsOf(HistoryAt(trace, h, |trace|)), PathText(cs[i].path))
         == Latest(run.ActionsOf(trace[i].h'), PathText(cs[i].path))
  {
    forall j | i < j < |trace|
      ensures KeepsLatest(run, trace[j], PathText(cs[i].path))
    {
      assert HandledAt(trace, order, cs, o, j);
      LatestOfAnother(run, trace[j], order, cs[j], o, cs[i]);
    }
    LatestSince(run, trace, e, h, i, |trace|, PathText(cs[i].path));
  }

  /** The check at the end of an executed run says of a candidate, as long as it can be
      examined, what became of it: skipped, failed, or waiting for the restart. */
  lemma VerdictFollowsOutcome(run: Run, trace: seq<Handling>, order: Path -> seq<Name>, cs: seq<Candidate>, o: Options,
                              e: Entries, h: seq<Event>, i: nat)
    requires RunWith(run, trace, order, cs, o, e, h, i) && i < |trace| && o.execute
    requires var final := EntriesAt(trace, e, |trace|);
      Direct(final, cs[i].path) && cs[i].path in final && !final[cs[i].path].denied
    ensures var final, end := EntriesAt(trace, e, |trace|), HistoryAt(trace, h, |trace|);
      var v := VerdictOn(final, true, run.ActionsOf(end), run.KeysOf(end), cs[i]);
      && (trace[i].r == Skipped(Skip) ==> v == Remains(SkippedIt))
      && (trace[i].r == LeftBehind ==> v == Remains(DeletionFailed))
      && (trace[i].r == QueuedForRestart(true) ==>
            v == Remains(if run.Accepted(cs[i].path) then ScheduledReboot else DeletionFailed))
  {
    hide Latest, PathText, Run.ActionsOf, Run.KeysOf, VerdictOn, Direct, HandledAs;
    var final, end := EntriesAt(trace, e, |trace|), HistoryAt(trace, h, |trace|);
    VerdictMeans(final, true, run.ActionsOf(end), run.KeysOf(end), cs[i]);
    LatestStays(run, trace, order, cs, o, e, h, i);
    assert HandledAt(trace, order, cs, o, i);
    LatestByOutcome(run, trace[i], order, cs[i], o);
    ScheduledIsOwn(run, trace, order, cs, o, e, h, i);
  }

  lemma SameTree(run: Run, e: Entries, after: Entries, root: Path)
    requires forall d | AtOrAbove(root, d) :: SameEntry(e, after, d)
    ensures AllQueued(run, e, root) <==> AllQueued(run, after, root)
  {
    forall d | d in e && AtOrAbove(root, d)
      ensures Reached(e, root, d) <==> Reached(after, root, d)
    {
      assert AtOrAbove(root, root);
    }
  }

  lemma GoneWhenAllQueued(run: Run, trace: seq<Handling>, order: Path -> seq<Name>, cs: seq<Candidate>, o: Options,
                          e: Entries, h: seq<Event>, i: nat)
    requires RunWith(run, trace, order, cs, o, e, h, i) && OwnPathQueued(run, trace, cs, i)
    ensures var final := EntriesAt(trace, e, |trace|);
      cs[i].path !in AfterRestart(final, run.QueueOf(HistoryAt(trace, h, |trace|)))
      <==> AllQueued(run, final, cs[i].path)
  {
    var final, x, p := EntriesAt(trace, e, |trace|), trace[i], cs[i].path;
    ChainSteps(run, trace, order, cs, o, e, h);
    RunIsAlone(run, trace, order, cs, o, e, h, i);
    forall d | AtOrAbove(p, d)
      ensures SameEntry(x.after, final, d)
    {
      StaysAsLeft(trace, cs, e, h, i, d);
    }
    assert AllQueued(run, x.after, p) <==> AllQueued(run, final, p) by {
      SameTree(run, x.after, final, p);
    }
    assert p in x.after by {
      OwnPathRemains(run, trace, order, cs, o, e, h, i);
      assert AtOrAbove(p, p);
    }
    GoneWhenSettled(run, trace, order, cs, o, e, h, i);
  }

  /** So the promise that it "will be deleted" holds exactly when, beyond its own
      path, everything below it was reached and queued too. */
  lemma WaitingIsKept(run: Run, trace: seq<Handling>, order: Path -> seq<Name>, cs: seq<Candidate>, o: Options,
                      e: Entries, h: seq<Event>, i: nat)
    requires RunWith(run, trace, order, cs, o, e, h, i)
    requires var final, end := EntriesAt(trace, e, |trace|), HistoryAt(trace, h, |trace|);
      VerdictOn(final, o.execute, run.ActionsOf(end), run.KeysOf(end), cs[i]) == Remains(ScheduledReboot)
    ensures var final := EntriesAt(trace, e, |trace|);
      var restarted := AfterRestart(final, run.QueueOf(HistoryAt(trace, h, |trace|)));
      cs[i].path !in restarted <==>
      FullyReached(final, cs[i].path)
      && forall d | d in Subtree(final, cs[i].path) && d != cs[i].path :: run.Accepted(d)
  {
    var final, p := EntriesAt(trace, e, |trace|), cs[i].path;
    var restarted := AfterRestart(final, run.QueueOf(HistoryAt(trace, h, |trace|)));
    assert OwnPathQueued(run, trace, cs, i) by {
      WaitingIsTheRootsOwn(run, trace, order, cs, o, e, h, i);
    }
    assert p !in restarted <==> AllQueued(run, final, p) by {
      GoneWhenAllQueued(run, trace, order, cs, o, e, h, i);
    }
  }

  lemma WaitingIsScheduled(e: Entries, execute: bool, actions: seq<ActionRecord>, scheduled: set<string>, c: Candidate)
    requires VerdictOn(e, execute, actions, scheduled, c) == Remains(ScheduledReboot)
    ensures execute && PathKey(c.path) in scheduled
  {
  }

  /** Whatever the candidates' paths have to do with each other: one that is reported
      as waiting, holds nothing any more and alone has its key among the queued paths
      is gone after the restart. */
  lemma WaitingLeafIsKept(run: Run, trace: seq<Handling>, order: Path -> seq<Name>, cs: seq<Candidate>, o: Options,
                          e: Entries, h: seq<Event>, i: nat)
    requires WellFormed(e) && Chain(trace, order, cs, o, e, h) && run.QueueOf(h) == [] && i < |cs|
    requires var final, end := EntriesAt(trace, e, |trace|), HistoryAt(trace, h, |trace|);
      && VerdictOn(final, o.execute, run.ActionsOf(end), run.KeysOf(end), cs[i]) == Remains(ScheduledReboot)
      && !HasEntries(final, cs[i].path)
      && forall q | q in run.QueueOf(end) && PathKey(q) == PathKey(cs[i].path) :: q == cs[i].path
    ensures cs[i].path !in AfterRestart(EntriesAt(trace, e, |trace|), run.QueueOf(HistoryAt(trace, h, |trace|)))
  {
    var final, end := EntriesAt(trace, e, |trace|), HistoryAt(trace, h, |trace|);
    hide VerdictOn, Run.QueueOf, Run.KeysOf, Run.ActionsOf, HandledAs, PathText;
    WaitingIsScheduled(final, o.execute, run.ActionsOf(end), run.KeysOf(end), cs[i]);
    ScheduledKey(run, end, PathKey(cs[i].path));
    assert forall p | p in run.QueueOf(end) :: Direct(final, p) by {
      ChainSteps(run, trace, order, cs, o, e, h);
      QueueSoFar(run, trace, cs, e, h, |trace|);
    }
    FinalShape(trace, order, cs, o, e, h);
    QueuedLeafGoes(final, run.QueueOf(end), cs[i].path);
  }

  const DRIVE: Path := ["C:"]
  const DATA: Path := ["C:", "ProgramData"]
  const DIR: Path := ["C:", "ProgramData", "NVIDIA"]
  const FILE_IN_DIR: Path := ["C:", "ProgramData", "NVIDIA", "cache.bin"]
  const PLAIN_DIRECTORY := Node(Directory, false, false, false, false, false)
  const IN_USE := Node(Directory, true, false, false, false, false)
  const ALL_ON := Options(true, true)

  /** A directory and a file in it, both in use. */
  const TWO_IN_USE: Entries := map[
    DRIVE := PLAIN_DIRECTORY, DATA := PLAIN_DIRECTORY, DIR := IN_USE, FILE_IN_DIR := IN_USE.(kind := File)]

  lemma TwoInUseShape()
    ensures WellFormed(TWO_IN_USE) && Direct(TWO_IN_USE, DIR) && ProbeAt(TWO_IN_USE, DIR) == Found(ADirectory)
  {
    hide Direct, Resolve;
    assert Parent(FILE_IN_DIR) == DIR && Parent(DIR) == DATA && Parent(DATA) == DRIVE;
    EntryIsDirect(TWO_IN_USE, DIR);
    ResolveDirect(TWO_IN_USE, DIR);
  }

  lemma TwoInUseTree()
    ensures Subtree(TWO_IN_USE, DIR) == {DIR, FILE_IN_DIR} && FILE_IN_DIR != DIR
  {
    assert AtOrAbove(DIR, FILE_IN_DIR) && !AtOrAbove(DIR, DATA) && !AtOrAbove(DIR, DRIVE);
  }

  lemma TwoInUseIsSafe()
    ensures !UnsafeTarget(TWO_IN_USE, DIR)
  {
    assert Parent(DIR) == DATA && Parent(DATA) == DRIVE;
    assert |PathText(DATA)| == 14 && |PathText(DIR)| == 21;
    assert |FILE_REPOSITORY| > 21;
  }

  lemma NothingOfTwoGoes(c: Candidate)
    requires c.path == DIR
    ensures GoneNow(TWO_IN_USE, c) == {}
  {
    TwoInUseShape();
    TwoInUseTree();
    var s := Softened(TWO_IN_USE, DIR);
    assert s[DIR].locked && s[FILE_IN_DIR].locked;
    assert ResistsUnder(s, DIR, DIR) && ResistsUnder(s, DIR, FILE_IN_DIR);
    assert Stays(s, DIR, DIR) && Stays(s, DIR, FILE_IN_DIR);
  }

  /** A candidate of which nothing could be removed, queued to the end. */
  ghost function QueuedHandling(e: Entries, order: Path -> seq<Name>, c: Candidate): Handling {
    var acts := [Act(ActionRecord(DeletePath, Warn, c.componentKey, c.path))];
    Handling(e, e, [], acts + WalkFrom(e, order, c.path), acts, QueuedForRestart(true))
  }

  lemma NothingGone(e: Entries, c: Candidate)
    requires GoneNow(e, c) == {}
    ensures RemovedAt(e, e, c.path, GoneNow(e, c))
  {
  }

  lemma QueuedEnds(e: Entries, order: Path -> seq<Name>, c: Candidate)
    requires WellFormed(e) && Enumerates(order, e) && Direct(e, c.path) && c.path in e
    requires Handled(e, c, ALL_ON) && GoneNow(e, c) == {}
    ensures HandledAs(QueuedHandling(e, order, c), order, c, ALL_ON)
  {
    hide RemovedAt, GoneNow, WalkFrom, WellFormed, Enumerates, ProbeAt, UnsafeTarget, Traversed;
    var x := QueuedHandling(e, order, c);
    assert RemovedAt(e, e, c.path, GoneNow(e, c)) by {
      NothingGone(e, c);
    }
    assert CandidateRecords(x.acts, c, Warn);
    assert x.h + x.acts == x.acts;
    AllTraversed(x.acts, WalkFrom(e, order, c.path));
  }

  lemma OneHandling(run: Run, x: Handling, order: Path -> seq<Name>, c: Candidate, o: Options)
    requires WellFormed(x.e) && HandledAs(x, order, c, o) && x.h == []
    ensures RunWith(run, [x], order, [c], o, x.e, [], 0)
  {
    hide HandledAs, WellFormed;
    assert Chain([x], order, [c], o, x.e, []) by {
      assert LinkedAt([x], x.e, [], 0) && HandledAt([x], order, [c], o, 0);
    }
  }

  lemma PartRefused(run: Run, x: Handling, order: Path -> seq<Name>, c: Candidate, o: Options, d: Path)
    requires RunWith(run, [x], order, [c], o, x.e, [], 0) && x.r == QueuedForRestart(true) && run.Accepted(c.path)
    requires ProbeAt(x.after, c.path) != AccessError
    requires d in Subtree(x.after, c.path) && d != c.path && !run.Accepted(d)
    ensures VerdictOn(x.after, o.execute, run.ActionsOf(x.h'), run.KeysOf(x.h'), c) == Remains(ScheduledReboot)
    ensures c.path in AfterRestart(x.after, run.QueueOf(x.h'))
  {
    assert OwnPathQueued(run, [x], [c], 0);
    WaitingIsTheRootsOwn(run, [x], order, [c], o, x.e, [], 0);
    WaitingIsKept(run, [x], order, [c], o, x.e, [], 0);
  }

  lemma StillThere(run: Run, e: Entries, order: Path -> seq<Name>, c: Candidate, d: Path)
    requires WellFormed(e) && Enumerates(order, e) && Direct(e, c.path) && ProbeAt(e, c.path) == Found(ADirectory)
    requires !UnsafeTarget(e, c.path) && GoneNow(e, c) == {}
    requires run.Accepted(c.path) && d in Subtree(e, c.path) && d != c.path && !run.Accepted(d)
    ensures var x := QueuedHandling(e, order, c);
      && RunWith(run, [x], order, [c], ALL_ON, e, [], 0)
      && VerdictOn(e, true, run.ActionsOf(x.h'), run.KeysOf(x.h'), c) == Remains(ScheduledReboot)
      && c.path in AfterRestart(e, run.QueueOf(x.h'))
  {
    var x := QueuedHandling(e, order, c);
    ResolveDirect(e, c.path);
    assert HandledAs(x, order, c, ALL_ON) by {
      QueuedEnds(e, order, c);
    }
    OneHandling(run, x, order, c, ALL_ON);
    PartRefused(run, x, order, c, ALL_ON, d);
  }

  /** The promise can fail: of a directory and a file in it, both in use, the system
      takes the directory's own path but not that of the file. The run reports the
      candidate as waiting, and it is still there after the restart. */
  lemma PromiseCanFail(run: Run, order: Path -> seq<Name>, c: Candidate)
    requires Enumerates(order, TWO_IN_USE) && c.path == DIR
    requires run.Accepted(DIR) && !run.Accepted(FILE_IN_DIR)
    ensures var x := QueuedHandling(TWO_IN_USE, order, c);
      && RunWith(run, [x], order, [c], ALL_ON, TWO_IN_USE, [], 0)
      && VerdictOn(TWO_IN_USE, true, run.ActionsOf(x.h'), run.KeysOf(x.h'), c) == Remains(ScheduledReboot)
      && c.path in AfterRestart(TWO_IN_USE, run.QueueOf(x.h'))
  {
    TwoInUseShape();
    TwoInUseTree();
    TwoInUseIsSafe();
    NothingOfTwoGoes(c);
    StillThere(run, TWO_IN_USE, order, c, FILE_IN_DIR);
  }
}

/** What one run records while it works, and the parts of the operating system
    it talks to: the abort request and the queue of deletions at restart. */
module RunState {
  import opened FileSystem
  import opened Text

  datatype ActionKind = DeletePath | ScheduleDelete | OtherAction(name: string)
  datatype Status = Info | Warn | Skip | DryRun | Fatal | OtherStatus(name: string)
  datatype ActionRecord = ActionRecord(kind: ActionKind, status: Status, component: string, path: Path)

  /** What a run does, one event at a time: the traversal callback schedules an
      entry, the callback meets an abort request, an action is recorded. */
  datatype Event = Visit(path: Path, kind: PathKind) | Stop(path: Path, kind: PathKind) | Act(record: ActionRecord)

  /** The path as one string. */
  function PathText(p: Path): string {
    if p == [] then "" else if |p| == 1 then p[0] else PathText(Parent(p)) + "\\" + Leaf(p)
  }

  function PathKey(p: Path): string {
    Lower(PathText(p))
  }

  class Run {
    var actions: seq<ActionRecord>
    var rebootScheduled: set<string>
    var aborted: bool
    /** Deletions the operating system holds for the next restart. */
    var queue: seq<Path>
    var polls: nat
    /** What the n-th look at the abort flag finds. */
    const abortSeen: nat -> bool
    /** Whether queueing a path succeeds, plainly spelled or extended-length. */
    const accepts: (Path, bool) -> bool
    ghost var history: seq<Event>

    /** Everything the run holds is what its history made it. */
    ghost predicate Valid()
      reads `queue, `rebootScheduled, `actions, `history
    {
      queue == QueueOf(history) && rebootScheduled == KeysOf(history) && actions == ActionsOf(history)
    }

    predicate Accepted(p: Path) {
      accepts(p, false) || accepts(p, true)
    }

    function ScheduleRecord(p: Path): ActionRecord {
      ActionRecord(ScheduleDelete, if Accepted(p) then Info else Warn, "RebootDelete", p)
    }

    /** Only accepted paths are queued. */
    ghost function QueueOf(h: seq<Event>): seq<Path> {
      if h == [] then []
      else
        var last := h[|h| - 1];
        QueueOf(h[..|h| - 1]) + (if last.Visit? && Accepted(last.path) then [last.path] else [])
    }

    /** Only accepted paths count as pending. */
    ghost function KeysOf(h: seq<Event>): set<string> {
      if h == [] then {}
      else
        var last := h[|h| - 1];
        KeysOf(h[..|h| - 1]) + (if last.Visit? && Accepted(last.path) then {PathKey(last.path)} else {})
    }

    ghost function ActionsOf(h: seq<Event>): seq<ActionRecord> {
      if h == [] then []
      else
        var last := h[|h| - 1];
        ActionsOf(h[..|h| - 1])
        + (match last
           case Visit(p, _) => [ScheduleRecord(p)]
           case Act(a) => [a]
           case Stop(_, _) => [])
    }

    constructor (abortSeen: nat -> bool, accepts: (Path, bool) -> bool)
      ensures Valid()
      ensures history == [] && !aborted && polls == 0
      ensures this.abortSeen == abortSeen && this.accepts == accepts
    {
      actions, rebootScheduled, aborted, queue, polls := [], {}, false, [], 0;
      this.abortSeen, this.accepts := abortSeen, accepts;
      history := [];
    }

    /** One more event adds its own part to each record. */
    lemma OneMore(h: seq<Event>, last: Event)
      ensures QueueOf(h + [last]) == QueueOf(h) + (if last.Visit? && Accepted(last.path) then [last.path] else [])
      ensures KeysOf(h + [last])
           == KeysOf(h) + (if last.Visit? && Accepted(last.path) then {PathKey(last.path)} else {})
      ensures ActionsOf(h + [last]) == ActionsOf(h)
        + (if last.Visit? then [ScheduleRecord(last.path)] else if last.Act? then [last.record] else [])
    {
      assert (h + [last])[..|h|] == h;
    }

    method AbortRequested() returns (b: bool)
      modifies this`polls
      ensures b == abortSeen(old(polls)) && polls == old(polls) + 1
    {
      b := abortSeen(polls);
      polls := polls + 1;
    }

    method AddAction(a: ActionRecord)
      requires Valid()
      modifies this`actions, this`history
      ensures Valid() && history == old(history) + [Act(a)] && actions == old(actions) + [a]
    {
      OneMore(history, Act(a));
      actions := actions + [a];
      history := history + [Act(a)];
    }

    /** MoveFileExW(path, NULL, MOVEFILE_DELAY_UNTIL_REBOOT). */
    method MoveFileDelayed(p: Path, extended: bool) returns (ok: bool)
      modifies this`queue
      ensures ok == accepts(p, extended)
      ensures queue == if ok then old(queue) + [p] else old(queue)
    {
      ok := accepts(p, extended);
      if ok {
        queue := queue + [p];
      }
    }

    /** schedule_delete_one: only a call that succeeded is recorded as pending. */
    method ScheduleDeleteOne(p: Path, ghost kind: PathKind) returns (ok: bool)
      requires Valid()
      modifies this`queue, this`actions, this`rebootScheduled, this`history
      ensures Valid() && ok == Accepted(p) == (accepts(p, false) || accepts(p, true))
      ensures history == old(history) + [Visit(p, kind)]
      ensures queue == old(queue) + (if ok then [p] else [])
      ensures rebootScheduled == old(rebootScheduled) + (if ok then {PathKey(p)} else {})
      ensures actions == old(actions) + [ActionRecord(ScheduleDelete, if ok then Info else Warn, "RebootDelete", p)]
    {
      ok := MoveFileDelayed(p, false);
      if !ok {
        ok := MoveFileDelayed(p, true);
      }
      OneMore(history, Visit(p, kind));
      history := history + [Visit(p, kind)];
      if !ok {
        actions := actions + [ActionRecord(ScheduleDelete, Warn, "RebootDelete", p)];
        return;
      }
      actions := actions + [ActionRecord(ScheduleDelete, Info, "RebootDelete", p)];
      rebootScheduled := rebootScheduled + {PathKey(p)};
    }

    /** The traversal callback of schedule_delete_tree. */
    method VisitEntry(p: Path, kind: PathKind) returns (go: bool)
      requires Valid()
      modifies this
      ensures Valid()
      ensures history == old(history) + [if go then Visit(p, kind) else Stop(p, kind)]
      ensures polls == old(polls) + 1 && go == !abortSeen(old(polls))
      ensures aborted == (old(aborted) || !go)
      ensures go ==> |actions| == |old(actions)| + 1
      ensures !go ==> queue == old(queue) && rebootScheduled == old(rebootScheduled) && actions == old(actions)
    {
      var abort := AbortRequested();
      if abort {
        aborted := true;
        OneMore(history, Stop(p, kind));
        history := history + [Stop(p, kind)];
        return false;
      }
      var ok := ScheduleDeleteOne(p, kind);
      return true;
    }
  }
}

/** Any number of launches of the program side by side: the gate that lets one
    destructive run through, and the hand-off to an elevated child that the
    launcher waits for. Every step is one the processes, the user or the system
    can take at any time. */
module Instances {
  import opened Basics
  import opened Relay

  const EXIT_ALREADY_RUNNING: int := 12
  const EXIT_BAD_ARGS: int := 13

  type Pid = nat

  /** Where a process is in wmain_try. A launcher is `Waiting` for its elevated
      child, with `mixed` in its event's name; `Rejected` found the mutex taken and
      still holds the handle it opened; `Working` is past the gate; `Closing` has
      left wmain_try, handles closed, and may still wait for a key. */
  datatype Phase =
    | Starting | Waiting(child: Pid, mixed: nat) | AtGate | Rejected | Working
    | Closing(code: int) | Ended(code: int, killed: bool)

  /** `handOff`: wizard defaults without administrator rights. `event` is the name
      given with `--abort-event`. `abort`: Ctrl+C was pressed in its console;
      `relayed`: it has signaled its event. `handedTo`: the child it launched. */
  datatype Process = Process(execute: bool, tiChild: bool, badArgs: bool, handOff: bool, event: string,
                             phase: Phase, handle: bool, abort: bool, relayed: bool, handedTo: Option<Pid>)

  /** The processes, the handles other programs have on the mutex, and the named
      events with whether they are signaled. */
  datatype System = System(procs: map<Pid, Process>, others: nat, events: map<string, bool>)

  datatype Step =
    | Launch(pid: Pid, execute: bool, tiChild: bool, badArgs: bool, handOff: bool, event: string)
    | RefuseArgs(pid: Pid)
    | HandOver(pid: Pid, child: Pid, mixed: nat, badArgs: bool)
    | NoHandOver(pid: Pid)
    | PollChild(pid: Pid)
    | TryGate(pid: Pid, available: bool)
    | Refuse(pid: Pid)
    | Finish(pid: Pid, code: int)
    | Leave(pid: Pid)
    | PressCtrlC(pid: Pid)
    | Kill(pid: Pid, code: int)
    | OtherHandles(others: nat)

  /** A process exit code is 32 bits. */
  predicate IsCode(code: int) {
    -0x8000_0000 <= code < 0x8000_0000
  }

  function ToU32(code: int): nat {
    code % 0x1_0000_0000
  }

  /** `as i32`. */
  function AsI32(code: nat): int {
    if code >= 0x8000_0000 then code - 0x1_0000_0000 else code
  }

  /** Whether this process takes part in the single-instance rule. */
  predicate Gated(p: Process) {
    p.execute && !p.tiChild
  }

  predicate HandsOver(p: Process) {
    p.handOff && p.execute && !p.tiChild
  }

  predicate HandleOpen(s: System) {
    s.others > 0 || exists p | p in s.procs :: s.procs[p].handle
  }

  predicate In(s: System, pid: Pid, phase: Phase) {
    pid in s.procs && s.procs[pid].phase == phase
  }

  ghost predicate Enabled(s: System, step: Step) {
    match step
    case Launch(pid, _, _, _, _, _) => pid !in s.procs
    case RefuseArgs(pid) => In(s, pid, Starting) && s.procs[pid].badArgs && s.procs[pid].execute
    case HandOver(pid, child, mixed, _) =>
      && In(s, pid, Starting) && !s.procs[pid].badArgs && HandsOver(s.procs[pid])
      && child !in s.procs
    case NoHandOver(pid) => In(s, pid, Starting) && !(s.procs[pid].badArgs && s.procs[pid].execute)
    case PollChild(pid) => pid in s.procs && s.procs[pid].phase.Waiting? && s.procs[pid].phase.child in s.procs
    case TryGate(pid, _) => In(s, pid, AtGate)
    case Refuse(pid) => In(s, pid, Rejected)
    case Finish(pid, code) => In(s, pid, Working) && IsCode(code)
    case Leave(pid) => pid in s.procs && s.procs[pid].phase.Closing?
    case PressCtrlC(pid) => pid in s.procs
    case Kill(pid, code) => pid in s.procs && !s.procs[pid].phase.Ended? && IsCode(code)
    case OtherHandles(_) => true
  }

  function With(s: System, pid: Pid, p: Process): System {
    s.(procs := s.procs[pid := p])
  }

  /** The process closes its handles; a launcher's event is gone with them. */
  function Release(s: System, pid: Pid, phase: Phase): System
    requires pid in s.procs
  {
    var p := s.procs[pid];
    var events := if p.phase.Waiting? then s.events - {RelayName(pid, p.phase.mixed)} else s.events;
    With(s, pid, p.(phase := phase, handle := false)).(events := events)
  }

  /** One round of the launcher's wait. The child's exit code is taken when it has
      exited; an abort request is passed on and never ends the wait. */
  function Poll(s: System, pid: Pid): System
    requires pid in s.procs && s.procs[pid].phase.Waiting? && s.procs[pid].phase.child in s.procs
  {
    var p := s.procs[pid];
    var child := s.procs[p.phase.child];
    if child.phase.Ended? then Release(s, pid, Closing(AsI32(ToU32(child.phase.code))))
    else if p.abort then With(s, pid, p.(relayed := true)).(events := s.events[RelayName(pid, p.phase.mixed) := true])
    else s
  }

  function PassGate(s: System, pid: Pid, available: bool): System
    requires pid in s.procs
  {
    var p := s.procs[pid];
    if !Gated(p) then With(s, pid, p.(phase := Working))
    else if !available then Release(s, pid, Closing(EXIT_ALREADY_RUNNING))
    else if HandleOpen(s) then With(s, pid, p.(phase := Rejected, handle := true))
    else With(s, pid, p.(phase := Working, handle := true))
  }

  ghost function After(s: System, step: Step): System
    requires Enabled(s, step)
  {
    match step
    case Launch(pid, execute, tiChild, badArgs, handOff, event) =>
      With(s, pid, Process(execute, tiChild, badArgs, handOff, event, Starting, false, false, false, None))
    case RefuseArgs(pid) => Release(s, pid, Closing(EXIT_BAD_ARGS))
    case HandOver(pid, child, mixed, badArgs) =>
      var name := RelayName(pid, mixed);
      var launched := Process(true, false, badArgs, false, name, Starting, false, false, false, None);
      With(With(s, pid, s.procs[pid].(phase := Waiting(child, mixed), handedTo := Some(child))), child, launched)
      .(events := if name in s.events then s.events else s.events[name := false])
    case NoHandOver(pid) => With(s, pid, s.procs[pid].(phase := AtGate))
    case PollChild(pid) => Poll(s, pid)
    case TryGate(pid, available) => PassGate(s, pid, available)
    case Refuse(pid) => Release(s, pid, Closing(EXIT_ALREADY_RUNNING))
    case Finish(pid, code) => Release(s, pid, Closing(code))
    case Leave(pid) => Release(s, pid, Ended(s.procs[pid].phase.code, false))
    case PressCtrlC(pid) => With(s, pid, s.procs[pid].(abort := true))
    case Kill(pid, code) => Release(s, pid, Ended(code, true))
    case OtherHandles(others) => s.(others := others)
  }

  /** A run: steps that were each possible where they were taken. */
  ghost predicate Possible(steps: seq<Step>)
    decreases |steps|, 0
  {
    steps == [] || (Possible(steps[..|steps| - 1]) && Enabled(Reached(steps[..|steps| - 1]), steps[|steps| - 1]))
  }

  ghost function Reached(steps: seq<Step>): System
    requires Possible(steps)
    decreases |steps|, 1
  {
    if steps == [] then System(map[], 0, map[])
    else After(Reached(steps[..|steps| - 1]), steps[|steps| - 1])
  }

  // ---- what every run keeps ----

  type Procs = map<Pid, Process>
  type Events = map<string, bool>

  /** Past the gate as a process the single-instance rule is about. */
  predicate Running(procs: Procs, pid: Pid) {
    pid in procs && procs[pid].phase == Working && procs[pid].execute && !procs[pid].tiChild
  }

  ghost predicate AtMostOne(procs: Procs) {
    forall p, q :: Running(procs, p) && Running(procs, q) ==> p == q
  }

  /** Out of wmain_try. */
  predicate Over(phase: Phase) {
    phase.Closing? || phase.Ended?
  }

  /** A handle on the mutex is open as long as the process is past the gate, or
      has been turned away there, and has not left wmain_try. */
  predicate HandleFits(p: Process) {
    p.handle <==> p.phase == Rejected || (p.phase == Working && Gated(p))
  }

  ghost predicate HandlesFit(procs: Procs) {
    forall pid | pid in procs :: HandleFits(procs[pid])
  }

  /** The event is one this launcher made. */
  ghost predicate MadeBy(event: string, pid: Pid) {
    exists mixed: nat :: event == RelayName(pid, mixed)
  }

  /** A launcher's child exists and was given the launcher's event; while the launcher
      waits, that is signaled exactly when the launcher has passed an abort request
      on. */
  ghost predicate ChildFits(procs: Procs, events: Events, pid: Pid)
    requires pid in procs
  {
    var p := procs[pid];
    && (p.relayed ==> p.abort)
    && (p.handedTo.Some? ==> p.handedTo.value in procs && MadeBy(procs[p.handedTo.value].event, pid))
    && (p.phase.Waiting? ==>
          var name := RelayName(pid, p.phase.mixed);
          && p.handedTo == Some(p.phase.child) && p.phase.child in procs && p.phase.child != pid
          && procs[p.phase.child].event == name
          && name in events && (events[name] <==> p.relayed))
    && (!p.phase.Waiting? && !Over(p.phase) ==> p.handedTo == None && !p.relayed)
  }

  ghost predicate ChildrenFit(procs: Procs, events: Events) {
    forall pid | pid in procs :: ChildFits(procs, events, pid)
  }

  /** A launcher that got a child and was not killed has left only after the child's
      end, with its code. */
  predicate CodeFits(procs: Procs, pid: Pid)
    requires pid in procs
  {
    var p := procs[pid];
    && (Over(p.phase) ==> IsCode(p.phase.code))
    && (Over(p.phase) && !(p.phase.Ended? && p.phase.killed) && p.handedTo.Some? ==>
          var child := p.handedTo.value;
          child in procs && procs[child].phase.Ended? && procs[child].phase.code == p.phase.code)
  }

  ghost predicate CodesFit(procs: Procs) {
    forall pid | pid in procs :: CodeFits(procs, pid)
  }

  ghost predicate Owner(procs: Procs, name: string, pid: Pid) {
    pid in procs && procs[pid].phase.Waiting? && name == RelayName(pid, procs[pid].phase.mixed)
  }

  /** Every event belongs to a launcher that is waiting. */
  ghost predicate Owned(procs: Procs, events: Events) {
    forall name | name in events :: exists pid :: Owner(procs, name, pid)
  }

  ghost predicate Sound(s: System) {
    && AtMostOne(s.procs) && HandlesFit(s.procs) && ChildrenFit(s.procs, s.events)
    && CodesFit(s.procs) && Owned(s.procs, s.events)
  }

  /** Names of different launchers differ, so nobody touches another's event. */
  lemma OthersEvent(procs: Procs, pid: Pid, mixed: nat, other: Pid)
    requires other in procs && procs[other].phase.Waiting? && other != pid
    ensures RelayName(pid, mixed) != RelayName(other, procs[other].phase.mixed)
  {
    if RelayName(pid, mixed) == RelayName(other, procs[other].phase.mixed) {
      RelayNamesDiffer(pid, mixed, other, procs[other].phase.mixed);
    }
  }

  /** One process changes: it gets past the gate only while no handle is open. */
  lemma OneKept(procs: Procs, pid: Pid, p: Process)
    requires AtMostOne(procs) && HandlesFit(procs) && HandleFits(p)
    requires p.phase == Working && Gated(p) && !Running(procs, pid) ==>
      forall o | o in procs :: !procs[o].handle
    ensures AtMostOne(procs[pid := p]) && HandlesFit(procs[pid := p])
  {
    var after := procs[pid := p];
    forall a, b | Running(after, a) && Running(after, b)
      ensures a == b
    {
      if a != pid {
        assert Running(procs, a) && procs[a].handle;
      }
      if b != pid {
        assert Running(procs, b) && procs[b].handle;
      }
    }
  }

  lemma OwnedKept(procs: Procs, events: Events, pid: Pid, p: Process, events': Events)
    requires Owned(procs, events)
    requires forall name | name in events' ::
      name in events || (p.phase.Waiting? && name == RelayName(pid, p.phase.mixed))
    requires pid in procs && procs[pid].phase.Waiting? && p.phase != procs[pid].phase ==>
      RelayName(pid, procs[pid].phase.mixed) !in events'
    ensures Owned(procs[pid := p], events')
  {
    var after := procs[pid := p];
    forall name | name in events'
      ensures exists o :: Owner(after, name, o)
    {
      if name in events {
        var o :| Owner(procs, name, o);
        assert o != pid || p.phase == procs[pid].phase ==> Owner(after, name, o);
        if o == pid && p.phase != procs[pid].phase {
          assert false;
        }
      } else {
        assert Owner(after, name, pid);
      }
    }
  }

  /** The other launchers keep their children and events. */
  lemma ChildrenKept(procs: Procs, events: Events, pid: Pid, p: Process, events': Events)
    requires ChildrenFit(procs, events) && ChildFits(procs[pid := p], events', pid)
    requires pid in procs ==> p.event == procs[pid].event
    requires forall o | o in procs && o != pid && procs[o].phase.Waiting? ::
      var name := RelayName(o, procs[o].phase.mixed);
      name in events ==> name in events' && events'[name] == events[name]
    ensures ChildrenFit(procs[pid := p], events')
  {
    var after := procs[pid := p];
    forall o | o in after
      ensures ChildFits(after, events', o)
    {
      if o != pid {
        assert ChildFits(procs, events, o);
      }
    }
  }

  lemma CodesKept(procs: Procs, pid: Pid, p: Process)
    requires CodesFit(procs) && CodeFits(procs[pid := p], pid)
    requires pid in procs && procs[pid].phase.Ended? ==> p.phase == procs[pid].phase
    ensures CodesFit(procs[pid := p])
  {
    var after := procs[pid := p];
    forall o | o in after
      ensures CodeFits(after, o)
    {
      if o != pid {
        assert CodeFits(procs, o);
      }
    }
  }

  /** A process changes its phase without touching events or children. */
  lemma PlainKeeps(s: System, pid: Pid, p: Process)
    requires Sound(s) && HandleFits(p) && !p.phase.Waiting? && !Over(p.phase) && p.handedTo == None && !p.relayed
    requires pid in s.procs ==>
      !s.procs[pid].phase.Waiting? && !Over(s.procs[pid].phase) && p.event == s.procs[pid].event
    requires p.phase == Working && Gated(p) && !Running(s.procs, pid) ==> !HandleOpen(s)
    ensures Sound(With(s, pid, p))
  {
    OneKept(s.procs, pid, p);
    OwnedKept(s.procs, s.events, pid, p, s.events);
    ChildrenKept(s.procs, s.events, pid, p, s.events);
    CodesKept(s.procs, pid, p);
  }

  /** Closing one launcher's event leaves those of the others. */
  lemma OtherEventsStay(procs: Procs, events: Events, pid: Pid, mixed: nat, o: Pid)
    requires o in procs && o != pid && procs[o].phase.Waiting?
    ensures var name := RelayName(o, procs[o].phase.mixed);
      var events' := events - {RelayName(pid, mixed)};
      name in events ==> name in events' && events'[name] == events[name]
  {
    OthersEvent(procs, pid, mixed, o);
  }

  lemma ReleaseKeeps(s: System, pid: Pid, phase: Phase)
    requires Sound(s) && pid in s.procs && !s.procs[pid].phase.Ended? && Over(phase)
    requires CodeFits(s.procs[pid := s.procs[pid].(phase := phase, handle := false)], pid)
    ensures Sound(Release(s, pid, phase))
  {
    var was := s.procs[pid];
    var p := was.(phase := phase, handle := false);
    var events' := Release(s, pid, phase).events;
    assert ChildFits(s.procs, s.events, pid);
    assert AtMostOne(s.procs[pid := p]) && HandlesFit(s.procs[pid := p]) by {
      OneKept(s.procs, pid, p);
    }
    assert Owned(s.procs[pid := p], events') by {
      OwnedKept(s.procs, s.events, pid, p, events');
    }
    assert ChildrenFit(s.procs[pid := p], events') by {
      forall o | o in s.procs && o != pid && s.procs[o].phase.Waiting?
        ensures var name := RelayName(o, s.procs[o].phase.mixed);
          name in s.events ==> name in events' && events'[name] == s.events[name]
      {
        if was.phase.Waiting? {
          OtherEventsStay(s.procs, s.events, pid, was.phase.mixed, o);
        }
      }
      ChildrenKept(s.procs, s.events, pid, p, events');
    }
    assert CodesFit(s.procs[pid := p]) by {
      CodesKept(s.procs, pid, p);
    }
  }

  /** Leaving wmain_try, for a process that has handed nothing over. */
  lemma CloseKeeps(s: System, pid: Pid, code: int)
    requires Sound(s) && pid in s.procs && !s.procs[pid].phase.Waiting? && !Over(s.procs[pid].phase) && IsCode(code)
    ensures Sound(Release(s, pid, Closing(code)))
  {
    assert ChildFits(s.procs, s.events, pid);
    ReleaseKeeps(s, pid, Closing(code));
  }

  lemma CtrlCKeeps(s: System, pid: Pid)
    requires Sound(s) && pid in s.procs
    ensures Sound(With(s, pid, s.procs[pid].(abort := true)))
  {
    hide RelayName;
    var p := s.procs[pid].(abort := true);
    assert ChildFits(s.procs, s.events, pid) && CodeFits(s.procs, pid) && HandleFits(s.procs[pid]);
    OneKept(s.procs, pid, p);
    OwnedKept(s.procs, s.events, pid, p, s.events);
    ChildrenKept(s.procs, s.events, pid, p, s.events);
    CodesKept(s.procs, pid, p);
  }

  lemma RelayKeeps(s: System, pid: Pid)
    requires Sound(s) && pid in s.procs && s.procs[pid].phase.Waiting? && s.procs[pid].abort
    ensures var p := s.procs[pid].(relayed := true);
      Sound(With(s, pid, p).(events := s.events[RelayName(pid, p.phase.mixed) := true]))
  {
    hide RelayName;
    var p := s.procs[pid].(relayed := true);
    var events' := s.events[RelayName(pid, p.phase.mixed) := true];
    assert ChildFits(s.procs, s.events, pid);
    OneKept(s.procs, pid, p);
    OwnedKept(s.procs, s.events, pid, p, events');
    forall o | o in s.procs && o != pid && s.procs[o].phase.Waiting?
      ensures var name := RelayName(o, s.procs[o].phase.mixed);
        name in s.events ==> name in events' && events'[name] == s.events[name]
    {
      OthersEvent(s.procs, pid, p.phase.mixed, o);
    }
    ChildrenKept(s.procs, s.events, pid, p, events');
    CodesKept(s.procs, pid, p);
  }

  lemma CodeRoundTrip(code: int)
    requires IsCode(code)
    ensures AsI32(ToU32(code)) == code
  {
  }

  lemma PollKeeps(s: System, pid: Pid)
    requires Sound(s) && Enabled(s, PollChild(pid))
    ensures Sound(Poll(s, pid))
  {
    hide RelayName;
    var p := s.procs[pid];
    var child := s.procs[p.phase.child];
    if child.phase.Ended? {
      assert CodeFits(s.procs, p.phase.child);
      CodeRoundTrip(child.phase.code);
      assert ChildFits(s.procs, s.events, pid);
      ReleaseKeeps(s, pid, Closing(child.phase.code));
    } else if p.abort {
      RelayKeeps(s, pid);
    }
  }

  /** A launcher that has not handed over yet owns no event. */
  lemma NoEventYet(s: System, pid: Pid, mixed: nat)
    requires Sound(s) && pid in s.procs && !s.procs[pid].phase.Waiting?
    ensures RelayName(pid, mixed) !in s.events
  {
    var name := RelayName(pid, mixed);
    if name in s.events {
      var o :| Owner(s.procs, name, o);
      RelayNamesDiffer(pid, mixed, o, s.procs[o].phase.mixed);
    }
  }

  /** The launcher's half of a hand-over, once the child exists. */
  lemma BeginsToWait(s: System, pid: Pid, child: Pid, mixed: nat)
    requires Sound(s) && In(s, pid, Starting) && child in s.procs && child != pid
    requires s.procs[child].event == RelayName(pid, mixed)
    ensures var p := s.procs[pid].(phase := Waiting(child, mixed), handedTo := Some(child));
      Sound(With(s, pid, p).(events := s.events[RelayName(pid, mixed) := false]))
  {
    hide RelayName;
    var p := s.procs[pid].(phase := Waiting(child, mixed), handedTo := Some(child));
    var events' := s.events[RelayName(pid, mixed) := false];
    NoEventYet(s, pid, mixed);
    assert ChildFits(s.procs, s.events, pid) && HandleFits(s.procs[pid]);
    OneKept(s.procs, pid, p);
    OwnedKept(s.procs, s.events, pid, p, events');
    ChildrenKept(s.procs, s.events, pid, p, events');
    CodesKept(s.procs, pid, p);
  }

  lemma HandOverKeeps(s: System, pid: Pid, child: Pid, mixed: nat, badArgs: bool)
    requires Sound(s) && Enabled(s, HandOver(pid, child, mixed, badArgs))
    ensures Sound(After(s, HandOver(pid, child, mixed, badArgs)))
  {
    var launched := Process(true, false, badArgs, false, RelayName(pid, mixed), Starting, false, false, false, None);
    var s1 := With(s, child, launched);
    PlainKeeps(s, child, launched);
    BeginsToWait(s1, pid, child, mixed);
    NoEventYet(s, pid, mixed);
    var p := s.procs[pid].(phase := Waiting(child, mixed), handedTo := Some(child));
    assert s.procs[child := launched][pid := p] == s.procs[pid := p][child := launched];
  }

  lemma GateKeeps(s: System, pid: Pid, available: bool)
    requires Sound(s) && Enabled(s, TryGate(pid, available))
    ensures Sound(PassGate(s, pid, available))
  {
    var p := s.procs[pid];
    assert ChildFits(s.procs, s.events, pid) && HandleFits(p);
    if !Gated(p) {
      PlainKeeps(s, pid, p.(phase := Working));
    } else if !available {
      CloseKeeps(s, pid, EXIT_ALREADY_RUNNING);
    } else if HandleOpen(s) {
      PlainKeeps(s, pid, p.(phase := Rejected, handle := true));
    } else {
      PlainKeeps(s, pid, p.(phase := Working, handle := true));
    }
  }

  lemma StepKeeps(s: System, step: Step)
    requires Sound(s) && Enabled(s, step)
    ensures Sound(After(s, step))
  {
    match step
    case Launch(pid, execute, tiChild, badArgs, handOff, event) =>
      PlainKeeps(s, pid, Process(execute, tiChild, badArgs, handOff, event, Starting, false, false, false, None));
    case RefuseArgs(pid) => CloseKeeps(s, pid, EXIT_BAD_ARGS);
    case HandOver(pid, child, mixed, badArgs) => HandOverKeeps(s, pid, child, mixed, badArgs);
    case NoHandOver(pid) =>
      assert ChildFits(s.procs, s.events, pid) && HandleFits(s.procs[pid]);
      PlainKeeps(s, pid, s.procs[pid].(phase := AtGate));
    case PollChild(pid) => PollKeeps(s, pid);
    case TryGate(pid, available) => GateKeeps(s, pid, available);
    case Refuse(pid) => CloseKeeps(s, pid, EXIT_ALREADY_RUNNING);
    case Finish(pid, code) => CloseKeeps(s, pid, code);
    case Leave(pid) =>
      assert CodeFits(s.procs, pid);
      ReleaseKeeps(s, pid, Ended(s.procs[pid].phase.code, false));
    case PressCtrlC(pid) => CtrlCKeeps(s, pid);
    case Kill(pid, code) => ReleaseKeeps(s, pid, Ended(code, true));
    case OtherHandles(others) =>
  }

  lemma {:induction false} AllReachedAreSound(steps: seq<Step>)
    requires Possible(steps)
    ensures Sound(Reached(steps))
  {
    if steps == [] {
    } else {
      AllReachedAreSound(steps[..|steps| - 1]);
      StepKeeps(Reached(steps[..|steps| - 1]), steps[|steps| - 1]);
    }
  }

  /** However the launches interleave, at most one destructive run is past the gate. */
  lemma OneDestructiveRun(steps: seq<Step>, p: Pid, q: Pid)
    requires Possible(steps) && Running(Reached(steps).procs, p) && Running(Reached(steps).procs, q)
    ensures p == q
  {
    AllReachedAreSound(steps);
  }

  /** A launcher that got a child and left of itself left after that child's end, with
      the child's exit code. */
  lemma LauncherEndsWithItsChild(steps: seq<Step>, pid: Pid)
    requires Possible(steps) && pid in Reached(steps).procs
    requires var p := Reached(steps).procs[pid];
      p.handedTo.Some? && Over(p.phase) && !(p.phase.Ended? && p.phase.killed)
    ensures var procs := Reached(steps).procs;
      var child := procs[pid].handedTo.value;
      child in procs && procs[child].phase.Ended? && procs[child].phase.code == procs[pid].phase.code
  {
    AllReachedAreSound(steps);
    assert CodeFits(Reached(steps).procs, pid);
  }

  // ---- who may go how far ----

  /** A destructive process whose arguments were not all understood. */
  predicate Refused(p: Process) {
    p.execute && p.badArgs
  }

  predicate OverWith(phase: Phase, code: int) {
    phase == Closing(code) || phase == Ended(code, false) || (phase.Ended? && phase.killed)
  }

  /** What one process may have come to: a refused one stops before the hand-over and the
      gate; only one that needs it has handed over; only a destructive run is turned away
      at the gate. */
  predicate MayBe(p: Process) {
    && (Refused(p) ==> !p.handle && p.handedTo == None && (p.phase == Starting || OverWith(p.phase, EXIT_BAD_ARGS)))
    && (p.handedTo.Some? ==> p.handOff && p.execute && !p.tiChild)
    && (p.phase.Waiting? ==> p.handedTo.Some?)
    && (p.phase == Rejected ==> p.execute && !p.tiChild)
  }

  /** The process a step is about. */
  function Subject(step: Step): Option<Pid> {
    match step
    case Launch(pid, _, _, _, _, _) => Some(pid)
    case RefuseArgs(pid) => Some(pid)
    case HandOver(pid, _, _, _) => Some(pid)
    case NoHandOver(pid) => Some(pid)
    case PollChild(pid) => Some(pid)
    case TryGate(pid, _) => Some(pid)
    case Refuse(pid) => Some(pid)
    case Finish(pid, _) => Some(pid)
    case Leave(pid) => Some(pid)
    case PressCtrlC(pid) => Some(pid)
    case Kill(pid, _) => Some(pid)
    case OtherHandles(_) => None
  }

  /** A step leaves every other process as it was; a child it launches has only begun. */
  lemma OthersStay(s: System, step: Step, pid: Pid)
    requires Enabled(s, step) && pid in After(s, step).procs && Subject(step) != Some(pid)
    ensures var p := After(s, step).procs[pid];
      if pid in s.procs then p == s.procs[pid] else p.phase == Starting && !p.handle && p.handedTo == None
  {
    hide RelayName, HandleOpen, ToU32, AsI32, IsCode;
  }

  predicate SameKind(p: Process, q: Process) {
    && p.execute == q.execute && p.tiChild == q.tiChild && p.badArgs == q.badArgs
    && p.handOff == q.handOff && p.event == q.event
  }

  /** How a step moves its own process on. */
  predicate Moves(p: Process, q: Process, step: Step) {
    && SameKind(p, q) && (step.HandOver? || q.handedTo == p.handedTo)
    && match step
       case RefuseArgs(_) => Refused(p) && p.phase == Starting && q.phase == Closing(EXIT_BAD_ARGS) && !q.handle
       case HandOver(_, _, _, _) => !p.badArgs && HandsOver(p) && q.phase.Waiting? && q.handedTo.Some?
       case NoHandOver(_) => !Refused(p) && p.phase == Starting && q.phase == AtGate && q.handle == p.handle
       case PollChild(_) => p.phase.Waiting? && (q.phase == p.phase || q.phase.Closing?) && (q.handle ==> p.handle)
       case TryGate(_, _) => p.phase == AtGate && AtGateMoves(p, q)
       case Refuse(_) => p.phase == Rejected && q.phase == Closing(EXIT_ALREADY_RUNNING) && !q.handle
       case Finish(_, code) => p.phase == Working && q.phase == Closing(code) && !q.handle
       case Leave(_) => p.phase.Closing? && q.phase == Ended(p.phase.code, false) && !q.handle
       case PressCtrlC(_) => q.phase == p.phase && q.handle == p.handle
       case Kill(_, code) => q.phase == Ended(code, true) && !q.handle
       case _ => false
  }

  predicate AtGateMoves(p: Process, q: Process) {
    q.phase == Working || (Gated(p) && (q.phase == Rejected || q.phase == Closing(EXIT_ALREADY_RUNNING)))
  }

  lemma OwnMove(s: System, step: Step, pid: Pid)
    requires Enabled(s, step) && Subject(step) == Some(pid) && !step.Launch?
    ensures pid in s.procs && pid in After(s, step).procs && Moves(s.procs[pid], After(s, step).procs[pid], step)
  {
    hide After, Moves, Enabled;
    if step.HandOver? {
      OwnHandOver(s, step, pid);
    } else if step.PollChild? {
      OwnPoll(s, step, pid);
    } else if step.TryGate? {
      OwnGate(s, step, pid);
    } else {
      OwnOtherMove(s, step, pid);
    }
  }

  lemma OwnHandOver(s: System, step: Step, pid: Pid)
    requires Enabled(s, step) && Subject(step) == Some(pid) && step.HandOver?
    ensures pid in s.procs && pid in After(s, step).procs && Moves(s.procs[pid], After(s, step).procs[pid], step)
  {
    hide RelayName, HandleOpen, HandsOver;
  }

  lemma OwnPoll(s: System, step: Step, pid: Pid)
    requires Enabled(s, step) && Subject(step) == Some(pid) && step.PollChild?
    ensures pid in s.procs && pid in After(s, step).procs && Moves(s.procs[pid], After(s, step).procs[pid], step)
  {
    hide RelayName, HandleOpen, ToU32, AsI32;
  }

  lemma OwnGate(s: System, step: Step, pid: Pid)
    requires Enabled(s, step) && Subject(step) == Some(pid) && step.TryGate?
    ensures pid in s.procs && pid in After(s, step).procs && Moves(s.procs[pid], After(s, step).procs[pid], step)
  {
    hide RelayName, HandleOpen;
  }

  lemma OwnOtherMove(s: System, step: Step, pid: Pid)
    requires Enabled(s, step) && Subject(step) == Some(pid)
    requires !step.Launch? && !step.HandOver? && !step.PollChild? && !step.TryGate?
    ensures pid in s.procs && pid in After(s, step).procs && Moves(s.procs[pid], After(s, step).procs[pid], step)
  {
    hide RelayName, HandleOpen, IsCode;
  }

  lemma LaunchedIsNew(s: System, step: Step, pid: Pid)
    requires Enabled(s, step) && Subject(step) == Some(pid) && step.Launch?
    ensures pid in After(s, step).procs
    ensures var p := After(s, step).procs[pid]; p.phase == Starting && !p.handle && p.handedTo == None
  {
  }

  lemma MoveStays(p: Process, q: Process, step: Step)
    requires MayBe(p) && Moves(p, q, step)
    ensures MayBe(q)
  {
  }

  lemma StepStays(s: System, step: Step, pid: Pid)
    requires Enabled(s, step) && pid in After(s, step).procs && (pid in s.procs ==> MayBe(s.procs[pid]))
    ensures MayBe(After(s, step).procs[pid])
  {
    hide After, Moves;
    if Subject(step) != Some(pid) {
      OthersStay(s, step, pid);
    } else if step.Launch? {
      LaunchedIsNew(s, step, pid);
    } else {
      OwnMove(s, step, pid);
      MoveStays(s.procs[pid], After(s, step).procs[pid], step);
    }
  }

  /** In every run, a destructive process with arguments that were not understood never
      hands over, never holds the mutex and never gets past the gate; unless it is
      killed, it ends with the code for bad arguments. */
  lemma {:induction false} RefusedGoNoFurther(steps: seq<Step>, pid: Pid)
    requires Possible(steps) && pid in Reached(steps).procs
    ensures MayBe(Reached(steps).procs[pid])
    ensures Refused(Reached(steps).procs[pid]) ==> !Running(Reached(steps).procs, pid)
  {
    hide MayBe, After;
    if steps == [] {
    } else {
      var front, last := steps[..|steps| - 1], steps[|steps| - 1];
      if pid in Reached(front).procs {
        RefusedGoNoFurther(front, pid);
      }
      StepStays(Reached(front), last, pid);
    }
    if Refused(Reached(steps).procs[pid]) {
      NotPastTheGate(Reached(steps).procs[pid]);
    }
  }

  lemma NotPastTheGate(p: Process)
    requires MayBe(p) && Refused(p)
    ensures p.phase != Working
  {
  }

  /** A process that starts is refused exactly when it must be, and otherwise may go on
      to the gate; it may hand over exactly when it needs to. */
  lemma StartingStep(s: System, pid: Pid, child: Pid, mixed: nat, badArgs: bool)
    requires In(s, pid, Starting) && child !in s.procs
    ensures Enabled(s, RefuseArgs(pid)) <==> Refused(s.procs[pid])
    ensures Enabled(s, NoHandOver(pid)) <==> !Refused(s.procs[pid])
    ensures Enabled(s, HandOver(pid, child, mixed, badArgs)) <==> !Refused(s.procs[pid]) && HandsOver(s.procs[pid])
  {
  }

  /** A destructive run gets past the gate exactly when the mutex can be made and nobody
      else holds it; one that is not destructive always does. */
  lemma PastTheGate(s: System, pid: Pid, available: bool)
    requires In(s, pid, AtGate)
    ensures var after := After(s, TryGate(pid, available));
      after.procs[pid].phase == Working <==>
        !(s.procs[pid].execute && !s.procs[pid].tiChild)
        || (available && s.others == 0 && forall q | q in s.procs :: !s.procs[q].handle)
  {
  }

  ghost predicate Worked(steps: seq<Step>, pid: Pid) {
    exists code: int :: Finish(pid, code) in steps
  }

  /** A run that never began ends with the code that says why, unless it is killed. */
  predicate EndsUnbegun(p: Process) {
    Over(p.phase) && p.handedTo == None ==>
      OverWith(p.phase, if Refused(p) then EXIT_BAD_ARGS else EXIT_ALREADY_RUNNING)
  }

  lemma MoveEndsUnbegun(p: Process, q: Process, step: Step)
    requires MayBe(p) && EndsUnbegun(p) && Moves(p, q, step) && !step.Finish?
    ensures EndsUnbegun(q)
  {
  }

  lemma UnbegunStep(s: System, step: Step, pid: Pid)
    requires Enabled(s, step) && pid in After(s, step).procs && forall code: int :: step != Finish(pid, code)
    requires pid in s.procs ==> MayBe(s.procs[pid]) && EndsUnbegun(s.procs[pid])
    ensures EndsUnbegun(After(s, step).procs[pid])
  {
    hide After, Enabled, MayBe, Moves;
    if Subject(step) != Some(pid) {
      OthersStay(s, step, pid);
    } else if step.Launch? {
      LaunchedIsNew(s, step, pid);
    } else {
      OwnMove(s, step, pid);
      MoveEndsUnbegun(s.procs[pid], After(s, step).procs[pid], step);
    }
  }

  lemma {:induction false} UnbegunRuns(steps: seq<Step>, pid: Pid)
    requires Possible(steps) && pid in Reached(steps).procs && !Worked(steps, pid)
    ensures EndsUnbegun(Reached(steps).procs[pid])
  {
    hide MayBe, EndsUnbegun, After;
    if steps == [] {
    } else {
      var front, last := steps[..|steps| - 1], steps[|steps| - 1];
      assert steps == front + [last];
      if pid in Reached(front).procs {
        RefusedGoNoFurther(front, pid);
        UnbegunRuns(front, pid);
      }
      UnbegunStep(Reached(front), last, pid);
    }
  }

  /** The step launched the process with these attributes. */
  predicate BornOf(step: Step, pid: Pid, p: Process) {
    match step
    case Launch(q, execute, tiChild, badArgs, handOff, event) =>
      q == pid && p.execute == execute && p.tiChild == tiChild && p.badArgs == badArgs && p.handOff == handOff
      && p.event == event
    case HandOver(q, child, mixed, badArgs) =>
      child == pid && p.execute && !p.tiChild && p.badArgs == badArgs && !p.handOff && p.event == RelayName(q, mixed)
    case _ => false
  }

  lemma BornOrKept(s: System, step: Step, pid: Pid)
    requires Enabled(s, step) && pid in After(s, step).procs
    ensures var p := After(s, step).procs[pid];
      if pid in s.procs then SameKind(s.procs[pid], p) else BornOf(step, pid, p)
  {
    hide After, BornOf;
    if step.Launch? && Subject(step) == Some(pid) {
      Born(s, step, pid);
    } else if Subject(step) == Some(pid) {
      OwnMove(s, step, pid);
    } else {
      OthersStay(s, step, pid);
      if pid !in s.procs {
        Born(s, step, pid);
      }
    }
  }

  lemma Born(s: System, step: Step, pid: Pid)
    requires Enabled(s, step) && pid in After(s, step).procs && pid !in s.procs
    ensures BornOf(step, pid, After(s, step).procs[pid])
  {
    hide RelayName, HandleOpen, ToU32, AsI32, IsCode;
  }

  /** Every process is what it was launched as, by the user or by its launcher, which
      launches nothing but destructive runs. */
  lemma {:induction false} ProcessesStayAsLaunched(steps: seq<Step>, pid: Pid)
    requires Possible(steps) && pid in Reached(steps).procs
    ensures exists step :: step in steps && BornOf(step, pid, Reached(steps).procs[pid])
  {
    hide After, Enabled;
    if steps == [] {
    } else {
      var front, last := steps[..|steps| - 1], steps[|steps| - 1];
      assert steps == front + [last];
      BornOrKept(Reached(front), last, pid);
      if pid in Reached(front).procs {
        ProcessesStayAsLaunched(front, pid);
        var step :| step in front && BornOf(step, pid, Reached(front).procs[pid]);
        SameBirth(step, pid, Reached(front).procs[pid], Reached(steps).procs[pid]);
      }
    }
  }

  lemma SameBirth(step: Step, pid: Pid, p: Process, q: Process)
    requires BornOf(step, pid, p) && SameKind(p, q)
    ensures BornOf(step, pid, q)
  {
  }

  // ---- abort requests ----

  /** AbortFlag::load: the process's own flag, or its event, opened anew each time. */
  predicate AbortSeen(s: System, pid: Pid)
    requires pid in s.procs
  {
    var p := s.procs[pid];
    p.abort || (Validated(p.event) && p.event in s.events && s.events[p.event])
  }

  lemma EventOfGone(s: System, pid: Pid, event: string)
    requires Sound(s) && pid in s.procs && !s.procs[pid].phase.Waiting? && MadeBy(event, pid)
    ensures event !in s.events
  {
    var mixed: nat :| event == RelayName(pid, mixed);
    NoEventYet(s, pid, mixed);
  }

  /** A child sees an abort request exactly when one was made in its own console, or
      its launcher has passed one on and is still waiting: with the launcher its
      event is gone. A launcher passes on only what was requested in its console. */
  lemma AbortCrossesElevation(steps: seq<Step>, pid: Pid)
    requires Possible(steps) && pid in Reached(steps).procs && Reached(steps).procs[pid].handedTo.Some?
    ensures var s := Reached(steps);
      var p := s.procs[pid];
      var child := p.handedTo.value;
      && child in s.procs && (AbortSeen(s, child) <==> s.procs[child].abort || (p.phase.Waiting? && p.relayed))
      && (p.relayed ==> p.abort)
  {
    AllReachedAreSound(steps);
    var s := Reached(steps);
    var p := s.procs[pid];
    assert ChildFits(s.procs, s.events, pid);
    if p.phase.Waiting? {
      RelayNameIsValid(pid, p.phase.mixed);
    } else {
      EventOfGone(s, pid, s.procs[p.handedTo.value].event);
    }
  }

  lemma PollPassesOn(s: System, pid: Pid)
    requires pid in s.procs && s.procs[pid].phase.Waiting? && s.procs[pid].abort
    requires ChildFits(s.procs, s.events, pid) && Validated(RelayName(pid, s.procs[pid].phase.mixed))
    ensures var t := Poll(s, pid);
      var child := s.procs[pid].phase.child;
      t.procs[pid].phase.Closing? || (child in t.procs && AbortSeen(t, child))
  {
    hide RelayName, Validated;
  }

  /** Once a request has been made in the launcher's console, its next look at the
      child either passes it on or finds the child gone. */
  lemma NextPollRelays(steps: seq<Step>, pid: Pid)
    requires Possible(steps) && pid in Reached(steps).procs && Reached(steps).procs[pid].phase.Waiting?
    requires Reached(steps).procs[pid].abort
    ensures Enabled(Reached(steps), PollChild(pid))
    ensures var t := Poll(Reached(steps), pid);
      var child := Reached(steps).procs[pid].phase.child;
      t.procs[pid].phase.Closing? || (child in t.procs && AbortSeen(t, child))
  {
    hide RelayName, Validated, Poll;
    var s := Reached(steps);
    assert ChildFits(s.procs, s.events, pid) by {
      AllReachedAreSound(steps);
    }
    RelayNameIsValid(pid, s.procs[pid].phase.mixed);
    PollPassesOn(s, pid);
  }

  /** What no step takes back. */
  ghost predicate ProcessLasts(p: Process, q: Process) {
    && (p.abort ==> q.abort) && (p.relayed ==> q.relayed) && (Over(p.phase) ==> Over(q.phase))
    && (p.handedTo.Some? ==> q.handedTo == p.handedTo)
  }

  ghost predicate Lasts(procs: Procs, procs': Procs, pid: Pid)
    requires pid in procs
  {
    pid in procs' && ProcessLasts(procs[pid], procs'[pid])
  }

  lemma OneChangeLasts(procs: Procs, pid: Pid, q: Process, o: Pid)
    requires o in procs && (pid in procs ==> ProcessLasts(procs[pid], q))
    ensures Lasts(procs, procs[pid := q], o)
  {
  }

  lemma HandOverLasts(s: System, pid: Pid, child: Pid, mixed: nat, badArgs: bool, o: Pid)
    requires Sound(s) && Enabled(s, HandOver(pid, child, mixed, badArgs)) && o in s.procs
    ensures Lasts(s.procs, After(s, HandOver(pid, child, mixed, badArgs)).procs, o)
  {
    hide RelayName;
    assert ChildFits(s.procs, s.events, pid);
  }

  lemma PollLasts(s: System, pid: Pid, o: Pid)
    requires Enabled(s, PollChild(pid)) && o in s.procs
    ensures Lasts(s.procs, Poll(s, pid).procs, o)
  {
    hide RelayName;
  }

  lemma GateLasts(s: System, pid: Pid, available: bool, o: Pid)
    requires Enabled(s, TryGate(pid, available)) && o in s.procs
    ensures Lasts(s.procs, PassGate(s, pid, available).procs, o)
  {
    hide RelayName;
  }

  lemma ReleaseLasts(s: System, pid: Pid, phase: Phase, o: Pid)
    requires pid in s.procs && o in s.procs && Over(phase)
    ensures Lasts(s.procs, Release(s, pid, phase).procs, o)
  {
    hide RelayName;
  }

  lemma StepLasts(s: System, step: Step, o: Pid)
    requires Sound(s) && Enabled(s, step) && o in s.procs
    ensures Lasts(s.procs, After(s, step).procs, o)
  {
    hide RelayName, Sound, HandleOpen;
    match step
    case Launch(pid, execute, tiChild, badArgs, handOff, event) =>
    case RefuseArgs(pid) => ReleaseLasts(s, pid, Closing(EXIT_BAD_ARGS), o);
    case HandOver(pid, child, mixed, badArgs) => HandOverLasts(s, pid, child, mixed, badArgs, o);
    case NoHandOver(pid) => OneChangeLasts(s.procs, pid, s.procs[pid].(phase := AtGate), o);
    case PollChild(pid) => PollLasts(s, pid, o);
    case TryGate(pid, available) => GateLasts(s, pid, available, o);
    case Refuse(pid) => ReleaseLasts(s, pid, Closing(EXIT_ALREADY_RUNNING), o);
    case Finish(pid, code) => ReleaseLasts(s, pid, Closing(code), o);
    case Leave(pid) => ReleaseLasts(s, pid, Ended(s.procs[pid].phase.code, false), o);
    case PressCtrlC(pid) => OneChangeLasts(s.procs, pid, s.procs[pid].(abort := true), o);
    case Kill(pid, code) => ReleaseLasts(s, pid, Ended(code, true), o);
    case OtherHandles(others) =>
  }

  lemma {:induction false} RunLasts(steps: seq<Step>, more: seq<Step>, pid: Pid)
    requires Possible(steps) && Possible(steps + more) && pid in Reached(steps).procs
    ensures Lasts(Reached(steps).procs, Reached(steps + more).procs, pid)
    decreases |more|
  {
    if more == [] {
      assert steps + more == steps;
    } else {
      var front, last := more[..|more| - 1], more[|more| - 1];
      assert (steps + more)[..|steps + more| - 1] == steps + front && (steps + more)[|steps + more| - 1] == last;
      RunLasts(steps, front, pid);
      AllReachedAreSound(steps + front);
      StepLasts(Reached(steps + front), last, pid);
    }
  }

  /** A request the child has seen it sees as long as its launcher is there; once the
      launcher is gone it sees its own requests only, then and in all that follows. */
  lemma SeenWhileTheLauncherLives(steps: seq<Step>, more: seq<Step>, pid: Pid)
    requires Possible(steps) && Possible(steps + more)
    requires pid in Reached(steps).procs && Reached(steps).procs[pid].handedTo.Some?
    ensures var s, t := Reached(steps), Reached(steps + more);
      var child := s.procs[pid].handedTo.value;
      && pid in t.procs && child in s.procs && child in t.procs
      && (AbortSeen(s, child) ==> AbortSeen(t, child) || Over(t.procs[pid].phase))
      && (Over(s.procs[pid].phase) ==> (AbortSeen(t, child) <==> t.procs[child].abort))
  {
    AllReachedAreSound(steps);
    AllReachedAreSound(steps + more);
    AbortCrossesElevation(steps, pid);
    RunLasts(steps, more, pid);
    RunLasts(steps, more, Reached(steps).procs[pid].handedTo.value);
    AbortCrossesElevation(steps + more, pid);
    assert ChildFits(Reached(steps + more).procs, Reached(steps + more).events, pid);
  }

  lemma OneMoreStep(steps: seq<Step>, step: Step)
    requires Possible(steps) && Enabled(Reached(steps), step)
    ensures Possible(steps + [step]) && Reached(steps + [step]) == After(Reached(steps), step)
  {
    assert (steps + [step])[..|steps|] == steps;
  }

  /** A launch that hands over, is asked to stop and passes that on. */
  const PASSED_ON: seq<Step> := [
    Launch(0, true, false, false, true, ""), HandOver(0, 1, 0, false), PressCtrlC(0), PollChild(0)]

  /** The launcher of that run, and its child. */
  function PassedOn(abort: bool, relayed: bool): map<Pid, Process> {
    map[0 := Process(true, false, false, true, "", Waiting(1, 0), false, abort, relayed, Some(1)),
        1 := Process(true, false, false, false, RelayName(0, 0), Starting, false, false, false, None)]
  }

  lemma HandedOver()
    ensures Possible(PASSED_ON[..2])
    ensures Reached(PASSED_ON[..2]) == System(PassedOn(false, false), 0, map[RelayName(0, 0) := false])
  {
    var empty: seq<Step> := [];
    OneMoreStep(empty, PASSED_ON[0]);
    assert PASSED_ON[..1] == empty + [PASSED_ON[0]];
    OneMoreStep(PASSED_ON[..1], PASSED_ON[1]);
    assert PASSED_ON[..2] == PASSED_ON[..1] + [PASSED_ON[1]];
  }

  lemma Requested()
    ensures Possible(PASSED_ON[..3])
    ensures Reached(PASSED_ON[..3]) == System(PassedOn(true, false), 0, map[RelayName(0, 0) := false])
  {
    hide RelayName;
    HandedOver();
    OneMoreStep(PASSED_ON[..2], PASSED_ON[2]);
    assert PASSED_ON[..3] == PASSED_ON[..2] + [PASSED_ON[2]];
  }

  lemma RequestPassedOn()
    ensures Possible(PASSED_ON)
    ensures Reached(PASSED_ON) == System(PassedOn(true, true), 0, map[RelayName(0, 0) := true])
  {
    hide RelayName;
    Requested();
    OneMoreStep(PASSED_ON[..3], PASSED_ON[3]);
    assert PASSED_ON == PASSED_ON[..3] + [PASSED_ON[3]];
  }

  /** So a request can vanish: the launcher that passed it on is killed, and the child,
      still at work, sees none any more. */
  lemma RequestCanVanish(code: int)
    requires IsCode(code)
    ensures Possible(PASSED_ON) && 1 in Reached(PASSED_ON).procs && AbortSeen(Reached(PASSED_ON), 1)
    ensures var gone := PASSED_ON + [Kill(0, code)];
      && Possible(gone) && 1 in Reached(gone).procs && !Over(Reached(gone).procs[1].phase)
      && !AbortSeen(Reached(gone), 1)
  {
    RequestPassedOn();
    RelayNameIsValid(0, 0);
    OneMoreStep(PASSED_ON, Kill(0, code));
  }
}

/** Waiting for the privileged worker: the poll loop over the scheduler, its four
    ways to end, and what the waiting process makes of each. Times are
    milliseconds since the worker was launched. */
module WorkerWait {
  import opened Basics

  const HAS_NOT_RUN: int := 0x41303
  const START_GRACE_SECONDS: int := 60
  const PAUSE: nat := 300

  const EXIT_OK: int := 0
  const EXIT_ABORTED: int := 3
  const EXIT_TI_RELAUNCH_FAILED: int := 10
  const EXIT_TI_CHILD_FAILED: int := 11

  datatype TaskState = Running | Queued | Other | Unreadable
  datatype PollDecision = KeepWaiting | Finish(code: int) | GiveUp

  /** ti_poll_decision. */
  function Decide(running: bool, queued: bool, lastResult: Option<int>, waitedSeconds: int, grace: int): PollDecision {
    if running then KeepWaiting
    else if queued then KeepWaiting
    else if lastResult.Some? && lastResult.value != HAS_NOT_RUN then Finish(lastResult.value)
    else if waitedSeconds >= grace then GiveUp
    else KeepWaiting
  }

  /** What one round of the loop finds: the clock at its two readings, the abort
      flag, the scheduler's state for the worker and its last result; and whether a
      look at the abort flag cut the pause behind it short. */
  datatype Look = Look(checked: nat, waited: nat, abort: bool, state: TaskState, lastResult: Option<int>, cut: bool)

  datatype Ending = Finished(code: int) | Aborted | NeverStarted | TimedOut

  /** The scheduler has the worker running, or still waiting to run. */
  predicate Active(look: Look) {
    look.state == Running || look.state == Queued
  }

  predicate HasResult(look: Look) {
    look.lastResult.Some? && look.lastResult.value != HAS_NOT_RUN
  }

  /** The round is within the bound and saw no abort request. */
  predicate InTime(look: Look, waitSeconds: int) {
    look.checked < 1000 * waitSeconds && !look.abort
  }

  /** The round ends the wait in this way. */
  predicate Ends(look: Look, waitSeconds: int, ending: Ending) {
    match ending
    case TimedOut => 1000 * waitSeconds <= look.checked
    case Aborted => look.checked < 1000 * waitSeconds && look.abort
    case Finished(code) =>
      InTime(look, waitSeconds) && !Active(look) && HasResult(look) && look.lastResult == Some(code)
    case NeverStarted =>
      InTime(look, waitSeconds) && !Active(look) && !HasResult(look) && 1000 * START_GRACE_SECONDS <= look.waited
  }

  /** The round leaves the wait going on. */
  predicate GoesOn(look: Look, waitSeconds: int) {
    InTime(look, waitSeconds) && (Active(look) || (!HasResult(look) && look.waited < 1000 * START_GRACE_SECONDS))
  }

  /** The request that cut a pause short is gone when the next round looks. */
  predicate Lost(world: nat -> Look, k: nat) {
    world(k).cut && !world(k + 1).abort
  }

  /** Between rounds the program pauses, unless an abort request cuts the pause short.
      A request can be lost once: it was relayed, and the launcher that relayed it is
      gone for good; a later one is the process's own and stays. */
  ghost predicate Advancing(world: nat -> Look) {
    && (forall k: nat :: world(k).checked <= world(k).waited)
    && (forall k: nat :: world(k).waited + (if world(k).cut then 0 else PAUSE) <= world(k + 1).checked)
    && (forall j: nat, k: nat | j < k && Lost(world, j) :: !Lost(world, k))
  }

  /** Round `k` is the first that ends the wait. */
  ghost predicate EndsAt(world: nat -> Look, waitSeconds: int, k: nat, ending: Ending) {
    Ends(world(k), waitSeconds, ending) && forall j | 0 <= j < k :: GoesOn(world(j), waitSeconds)
  }

  /** The wait ends in one way only. */
  lemma OneEnding(world: nat -> Look, waitSeconds: int, j: nat, a: Ending, k: nat, b: Ending)
    requires EndsAt(world, waitSeconds, j, a) && EndsAt(world, waitSeconds, k, b)
    ensures j == k && a == b
  {
  }

  predicate AnyLost(world: nat -> Look, k: nat) {
    exists j | 0 <= j < k :: Lost(world, j)
  }

  /** Nobody waits past the bound: a round that goes on began within it, and the
      rounds are at least a pause apart, but for one at most. */
  lemma {:induction false} RoundsAreApart(world: nat -> Look, waitSeconds: int, k: nat)
    requires Advancing(world) && forall j | 0 <= j < k :: GoesOn(world(j), waitSeconds)
    ensures !world(k).abort ==> PAUSE * (if AnyLost(world, k) then k - 1 else k) <= world(k).checked
    ensures k > 0 ==> PAUSE * (k - 2) < 1000 * waitSeconds
  {
    if k == 0 {
    } else {
      RoundsAreApart(world, waitSeconds, k - 1);
      assert GoesOn(world(k - 1), waitSeconds);
      assert world(k - 1).checked <= world(k - 1).waited;
      assert world(k - 1).waited + (if world(k - 1).cut then 0 else PAUSE) <= world(k - 1 + 1).checked;
      assert AnyLost(world, k) <==> AnyLost(world, k - 1) || Lost(world, k - 1);
      assert Lost(world, k - 1) ==> !AnyLost(world, k - 1);
      assert world(k - 1 + 1) == world(k);
    }
  }

  /** The worker as registered with the scheduler. */
  class RegisteredTask {
    var live: bool
    var finishes: nat

    constructor ()
      ensures live && finishes == 0
    {
      live, finishes := true, 0;
    }

    /** Stops the worker and deletes its registration. */
    method FinishTask()
      modifies this
      ensures !live && finishes == old(finishes) + 1
    {
      live, finishes := false, finishes + 1;
    }
  }

  /** TiRelaunchResult, its text aside. */
  datatype WaitResult = WaitResult(attempted: bool, childStatusSeen: bool, childExitCode: int, childSucceeded: bool,
                                   aborted: bool)

  const NOTHING_SEEN := WaitResult(true, false, -1, false, false)

  function ResultOf(ending: Ending): WaitResult {
    match ending
    case Finished(code) => WaitResult(true, true, code, code == 0, false)
    case Aborted => WaitResult(true, false, -1, false, true)
    case NeverStarted => NOTHING_SEEN
    case TimedOut => NOTHING_SEEN
  }

  /** The wait loop. It ends at the first round that brings an ending, which is the
      only one there is, within the bound, and always stops and deletes the
      registered worker once. */
  method WaitForWorker(task: RegisteredTask, world: nat -> Look, waitSeconds: int)
    returns (res: WaitResult, ghost rounds: nat, ghost ending: Ending)
    requires Advancing(world)
    modifies task
    ensures EndsAt(world, waitSeconds, rounds, ending) && res == ResultOf(ending)
    ensures forall k: nat, other | EndsAt(world, waitSeconds, k, other) :: k == rounds && other == ending
    ensures !task.live && task.finishes == old(task.finishes) + 1
    ensures rounds > 0 ==> PAUSE * (rounds - 2) < 1000 * waitSeconds
  {
    res := NOTHING_SEEN;
    var timedOut := true;
    var k := 0;
    ending := TimedOut;
    while world(k).checked / 1000 < waitSeconds
      invariant forall j | 0 <= j < k :: GoesOn(world(j), waitSeconds)
      invariant res == NOTHING_SEEN && timedOut && ending == TimedOut && task.finishes == old(task.finishes)
      decreases 1000 * waitSeconds + 2 - k
    {
      RoundsAreApart(world, waitSeconds, k);
      var waited := world(k).waited / 1000;
      if world(k).abort {
        res := res.(aborted := true);
        timedOut := false;
        ending := Aborted;
        break;
      }
      var decision := Decide(world(k).state == Running, world(k).state == Queued, world(k).lastResult, waited,
                             START_GRACE_SECONDS);
      if decision.Finish? {
        res := res.(childStatusSeen := true, childExitCode := decision.code, childSucceeded := decision.code == 0);
        timedOut := false;
        ending := Finished(decision.code);
        break;
      } else if decision.GiveUp? {
        timedOut := false;
        ending := NeverStarted;
        break;
      }
      k := k + 1;
    }
    RoundsAreApart(world, waitSeconds, k);
    rounds := k;
    forall j: nat, other | EndsAt(world, waitSeconds, j, other)
      ensures j == rounds && other == ending
    {
      OneEnding(world, waitSeconds, rounds, ending, j, other);
    }
    task.FinishTask();
  }

  // ---- the waiting process ----

  datatype Setup = Setup(execute: bool, tiChild: bool, allowAdminFallback: bool, attemptTiRelaunch: bool,
                         trustedInstaller: bool, admin: bool, waitSeconds: int)

  predicate NeedsWorker(s: Setup) {
    s.execute && !s.tiChild && !s.allowAdminFallback && !s.trustedInstaller
  }

  /** attempt_trusted_installer_relaunch: `registers` says whether the worker could be
      registered and launched. */
  method AttemptRelaunch(s: Setup, registers: bool, world: nat -> Look)
    returns (res: WaitResult, task: RegisteredTask?, ghost rounds: nat, ghost ending: Ending)
    requires Advancing(world)
    ensures task != null ==> fresh(task) && !task.live && task.finishes == 1
    ensures task != null <==> NeedsWorker(s) && s.attemptTiRelaunch && s.admin && registers
    ensures task != null ==> EndsAt(world, s.waitSeconds, rounds, ending) && res == ResultOf(ending)
    ensures task == null ==> !res.childStatusSeen && !res.aborted
  {
    rounds, ending, task := 0, TimedOut, null;
    res := WaitResult(false, false, -1, false, false);
    if !s.execute || s.tiChild || s.allowAdminFallback || s.trustedInstaller {
      return;
    }
    if !s.attemptTiRelaunch {
      return;
    }
    res := res.(attempted := true);
    if !s.admin {
      return;
    }
    if !registers {
      return;
    }
    var registered := new RegisteredTask();
    res, rounds, ending := WaitForWorker(registered, world, s.waitSeconds);
    task := registered;
  }

  /** The preflight before cleanup: an exit code, or None to go on to cleanup.
      Destructive work is reached in this process exactly when no worker is
      needed; with a worker, success is reported exactly when the wait ended with
      the worker's own exit code 0. */
  method Preflight(s: Setup, registers: bool, world: nat -> Look)
    returns (exit: Option<int>, ghost rounds: nat, ghost ending: Ending)
    requires Advancing(world)
    ensures exit == None <==> !NeedsWorker(s)
    ensures exit == Some(EXIT_OK) ==> EndsAt(world, s.waitSeconds, rounds, Finished(0))
    ensures NeedsWorker(s) && !(s.attemptTiRelaunch && s.admin && registers) ==> exit == Some(EXIT_TI_RELAUNCH_FAILED)
    ensures NeedsWorker(s) && s.attemptTiRelaunch && s.admin && registers ==>
      && EndsAt(world, s.waitSeconds, rounds, ending)
      && (exit == Some(EXIT_OK) <==> ending == Finished(0))
      && (exit == Some(EXIT_TI_CHILD_FAILED) <==> ending.Finished? && ending.code != 0)
      && (exit == Some(EXIT_ABORTED) <==> ending == Aborted)
      && (exit == Some(EXIT_TI_RELAUNCH_FAILED) <==> ending == NeverStarted || ending == TimedOut)
  {
    rounds, ending := 0, TimedOut;
    if !(s.execute && !s.tiChild && !s.allowAdminFallback && !s.trustedInstaller) {
      return None, rounds, ending;
    }
    if !s.attemptTiRelaunch {
      return Some(EXIT_TI_RELAUNCH_FAILED), rounds, ending;
    }
    var res, task;
    res, task, rounds, ending := AttemptRelaunch(s, registers, world);
    if res.childStatusSeen && res.childSucceeded {
      return Some(EXIT_OK), rounds, ending;
    }
    if res.childStatusSeen {
      return Some(EXIT_TI_CHILD_FAILED), rounds, ending;
    }
    if res.aborted {
      return Some(EXIT_ABORTED), rounds, ending;
    }
    if !s.allowAdminFallback {
      return Some(EXIT_TI_RELAUNCH_FAILED), rounds, ending;
    }
    exit := None;
  }
}

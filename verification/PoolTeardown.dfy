/** What may still touch the pool after its destroyer has freed it. Line numbers are those of src/util/thread_pool.c. */
module PoolTeardown {
  import opened TaskQueue
  import opened PoolProtocol
  import opened PoolSafety
  import opened PoolLiveness

  /** Every submitter has sent its signal and every waiter has returned. */
  predicate CallersGone(s: System) {
    s.owedSignals == 0 && forall i :: 0 <= i < |s.waiters| ==> s.waiters[i] == Outside
  }

  /** Nobody can move, so nobody touches the pool's memory again. */
  ghost predicate Untouched(s: System) { forall step :: !Enabled(s, step) }

  /** Lines 374-387: of the threads that were in the pool no worker is left and no waiter is blocked; the freed memory is
      touched again if and only if a submitter still owes its signal or a waiter has yet to look at the counter. */
  lemma FreedPoolTouchedIff(s: System)
    requires Reachable(s) && s.destroyer.Destroyed?
    ensures forall w :: 0 <= w < |s.workers| ==> s.workers[w] == Exited
    ensures Blocked !in s.waiters
    ensures !Untouched(s) <==> s.owedSignals > 0 || Checking in s.waiters
  {
    hide Reachable;
    ReachableInv(s);
    NothingBlocked(s);
    if s.owedSignals > 0 {
      assert Asleep !in s.workers;
      assert Enabled(s, Signal(-1));
    } else if Checking in s.waiters {
      var i :| 0 <= i < |s.waiters| && s.waiters[i] == Checking;
      assert Enabled(s, CheckPending(i));
    } else {
      NothingMoves(s);
    }
  }

  lemma NothingBlocked(s: System)
    requires Inv(s) && s.destroyer.Destroyed?
    ensures Blocked !in s.waiters
  {
    TotalZero(s.workers, BusyWeight);
    assert s.workers[0] in s.workers;
  }

  lemma NothingMoves(s: System)
    requires s.destroyer.Destroyed? && (forall w :: 0 <= w < |s.workers| ==> s.workers[w] == Exited)
    requires s.owedSignals == 0 && Checking !in s.waiters && Blocked !in s.waiters
    ensures Untouched(s)
  {
    forall step ensures !Enabled(s, step) {
      match step
      case SpuriousWaiter(i) => if i < |s.waiters| { assert s.waiters[i] in s.waiters; }
      case CheckPending(i) => if i < |s.waiters| { assert s.waiters[i] in s.waiters; }
      case _ =>
    }
  }

  /** The step that frees the pool is safe exactly when the callers of submit and wait are gone. */
  lemma FreeIsSafeIff(s: System)
    requires Reachable(s) && Enabled(s, FreePool)
    ensures Untouched(Apply(s, FreePool)) <==> CallersGone(s)
  {
    hide Reachable;
    ReachableInv(s);
    var t := Apply(s, FreePool);
    StepKeepsInv(s, FreePool);
    NothingBlocked(t);
    if s.owedSignals > 0 {
      assert Enabled(t, Signal(-1));
    } else if !CallersGone(s) {
      var i :| 0 <= i < |s.waiters| && s.waiters[i] != Outside;
      assert t.waiters[i] in t.waiters;
      assert Enabled(t, CheckPending(i));
    } else {
      NothingMoves(t);
    }
  }

  /** A pool with one worker, room for one task and no waiter, as a run takes it along. */
  function One(shared: Shared, worker: Worker, destroyer: Destroyer, owed: nat, accepted: seq<Slot>, done: nat): System {
    System(shared, [worker], [], destroyer, owed, accepted, if done > 0 then accepted else [],
           if done > 1 then [0] else [], if done > 2 then {0} else {})
  }

  const TASK := Slot(1, 0, true)

  /** One submission whose signal comes late: the worker finds and runs the task without it, destroy joins the worker
      and frees the pool, and the submitter still has to signal. */
  lemma LateSignal() returns (steps: seq<Step>, end: System)
    ensures Executes(Init(1, 0, 1), steps, end) && Reachable(end)
    ensures end.destroyer.Destroyed? && end.owedSignals == 1 && AllRun(end) && !Untouched(end)
  {
    hide Executes, Enabled, Apply;
    end := One(Shared([], 1, 0, true), Exited, Destroyed, 1, [TASK], 3);
    steps := TornDown(end);
    steps := Served(steps, end);
    assert Init(1, 0, 1) == One(Shared([], 1, 0, false), Hunting, NotCalled, 0, [], 0);
    assert Reachable(end);
    DestroyDrains(end);
    FreedPoolTouchedIff(end);
  }

  /** From the submission to the finished task. */
  lemma Served(rest: seq<Step>, end: System) returns (steps: seq<Step>)
    requires Executes(One(Shared([], 1, 0, false), Hunting, NotCalled, 1, [TASK], 3), rest, end)
    ensures Executes(One(Shared([], 1, 0, false), Hunting, NotCalled, 0, [], 0), steps, end)
  {
    hide Executes;
    var running := One(Shared([], 1, 1, false), Running(0, TASK), NotCalled, 1, [TASK], 1);
    var ran := One(Shared([], 1, 1, false), Ran(0), NotCalled, 1, [TASK], 2);
    var queued := One(Shared([TASK], 1, 1, false), Hunting, NotCalled, 1, [TASK], 0);
    steps := Before(ran, Finish(0), One(Shared([], 1, 0, false), Hunting, NotCalled, 1, [TASK], 3), rest, end);
    steps := Before(running, RunTask(0), ran, steps, end);
    steps := Before(queued, PollQueue(0), running, steps, end);
    steps := Before(One(Shared([], 1, 0, false), Hunting, NotCalled, 0, [], 0), SubmitCall(1, 0), queued, steps, end);
  }

  /** From the call of destroy to its end. */
  lemma TornDown(end: System) returns (steps: seq<Step>)
    requires end == One(Shared([], 1, 0, true), Exited, Destroyed, 1, [TASK], 3)
    ensures Executes(One(Shared([], 1, 0, false), Hunting, NotCalled, 1, [TASK], 3), steps, end)
  {
    hide Executes;
    var owing := One(Shared([], 1, 0, true), Hunting, OwesBroadcast, 1, [TASK], 3);
    var joining := One(Shared([], 1, 0, true), Hunting, Joining(0), 1, [TASK], 3);
    var exited := One(Shared([], 1, 0, true), Exited, Joining(0), 1, [TASK], 3);
    steps := Freed(end);
    steps := Before(joining, PollQueue(0), exited, steps, end);
    steps := Before(owing, Broadcast, joining, steps, end);
    steps := Before(One(Shared([], 1, 0, false), Hunting, NotCalled, 1, [TASK], 3), DestroyCall, owing, steps, end);
  }

  lemma Freed(end: System) returns (steps: seq<Step>)
    requires end == One(Shared([], 1, 0, true), Exited, Destroyed, 1, [TASK], 3)
    ensures Executes(One(Shared([], 1, 0, true), Exited, Joining(0), 1, [TASK], 3), steps, end)
  {
    assert Executes(end, [], end);
    hide Executes;
    var joined := One(Shared([], 1, 0, true), Exited, Joining(1), 1, [TASK], 3);
    steps := Before(joined, FreePool, end, [], end);
    steps := Before(One(Shared([], 1, 0, true), Exited, Joining(0), 1, [TASK], 3), Join, joined, steps, end);
  }

  lemma Before(s: System, step: Step, next: System, rest: seq<Step>, end: System) returns (steps: seq<Step>)
    requires Enabled(s, step) && Apply(s, step) == next && Executes(next, rest, end)
    ensures Executes(s, steps, end)
  {
    hide Enabled, Apply;
    steps := [step] + rest;
    assert steps[0] == step && steps[1..] == rest;
  }
}

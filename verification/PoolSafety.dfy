/** What every reachable state of the pool satisfies: FIFO hand-over, exactly-once execution, exact
  counting, no lost wakeup; and what follows for callers of wait and destroy. */
module PoolSafety {
  import opened TaskQueue
  import opened PoolProtocol

  /** Sum of a weight over a sequence. */
  function Total<T>(ws: seq<T>, weight: T -> nat): nat {
    if ws == [] then 0 else weight(ws[0]) + Total(ws[1..], weight)
  }

  lemma {:induction false} TotalUpdate<T>(ws: seq<T>, weight: T -> nat, i: nat, w: T)
    requires i < |ws|
    ensures Total(ws[i := w], weight) == Total(ws, weight) - weight(ws[i]) + weight(w)
    ensures Total(ws, weight) >= weight(ws[i])
  {
    if i == 0 {
      assert ws[0 := w][1..] == ws[1..];
    } else {
      TotalUpdate(ws[1..], weight, i - 1, w);
      assert ws[i := w][1..] == ws[1..][i - 1 := w];
    }
  }

  lemma {:induction false} TotalZero<T>(ws: seq<T>, weight: T -> nat)
    ensures Total(ws, weight) == 0 <==> forall i :: 0 <= i < |ws| ==> weight(ws[i]) == 0
  {
    if ws != [] {
      TotalZero(ws[1..], weight);
      if forall i :: 0 <= i < |ws| ==> weight(ws[i]) == 0 {
        forall i | 0 <= i < |ws[1..]| ensures weight(ws[1..][i]) == 0 {
          assert ws[1..][i] == ws[i + 1];
        }
      }
      if Total(ws, weight) == 0 {
        forall i | 0 <= i < |ws| ensures weight(ws[i]) == 0 {
          if i > 0 { assert ws[i] == ws[1..][i - 1]; }
        }
      }
    }
  }

  /** Raising each weight cannot lower the sum. */
  lemma {:induction false} TotalMonotone<T>(a: seq<T>, b: seq<T>, weight: T -> nat)
    requires |a| == |b| && forall i :: 0 <= i < |a| ==> weight(a[i]) <= weight(b[i])
    ensures Total(a, weight) <= Total(b, weight)
  {
    if a != [] {
      forall i | 0 <= i < |a[1..]| ensures weight(a[1..][i]) <= weight(b[1..][i]) {
        assert a[1..][i] == a[i + 1] && b[1..][i] == b[i + 1];
      }
      TotalMonotone(a[1..], b[1..], weight);
    }
  }

  function HuntingWeight(w: Worker): nat { if w.Hunting? then 1 else 0 }
  function BusyWeight(w: Worker): nat { if w.Running? || w.Ran? then 1 else 0 }

  ghost predicate Busy(ws: seq<Worker>, ticket: nat) {
    exists w :: 0 <= w < |ws| && Holds(ws[w], ticket)
  }

  predicate Holds(w: Worker, ticket: nat) {
    (w.Running? || w.Ran?) && w.ticket == ticket
  }

  /** The queue never exceeds its limit, and the tasks handed out are exactly the oldest accepted ones. */
  ghost predicate FirstInFirstOut(s: System) {
    && |s.shared.queue| <= s.shared.limit
    && s.accepted == s.taken + s.shared.queue
    && forall i :: 0 <= i < |s.accepted| ==> s.accepted[i].Callable()
  }

  /** Each ticket handed out is with exactly one worker or finished, never both; a function is called
      once per ticket, after it was handed out and before it counts as finished. */
  ghost predicate ExactlyOnce(s: System) {
    && (forall w :: 0 <= w < |s.workers| && (s.workers[w].Running? || s.workers[w].Ran?) ==>
          s.workers[w].ticket < |s.taken| && s.workers[w].ticket !in s.finished)
    && (forall w :: 0 <= w < |s.workers| && s.workers[w].Running? ==>
          s.workers[w].slot == s.taken[s.workers[w].ticket] && s.workers[w].ticket !in s.executed)
    && (forall w :: 0 <= w < |s.workers| && s.workers[w].Ran? ==> s.workers[w].ticket in s.executed)
    && (forall v, w, t :: 0 <= v < w < |s.workers| && Holds(s.workers[v], t) ==> !Holds(s.workers[w], t))
    && (forall t :: t in s.finished ==> t < |s.taken| && t in s.executed)
    && (forall t :: 0 <= t < |s.taken| ==> t in s.finished || Busy(s.workers, t))
    && (forall t :: t in s.executed ==> t < |s.taken|)
    && (forall i, j :: 0 <= i < j < |s.executed| ==> s.executed[i] != s.executed[j])
  }

  ghost predicate CountsPending(s: System) {
    s.shared.pending == |s.shared.queue| + Total(s.workers, BusyWeight)
  }

  ghost predicate Lifecycle(s: System) {
    && |s.workers| > 0
    && (s.shared.shutdown <==> !s.destroyer.NotCalled?)
    && (Exited in s.workers ==> s.shared.shutdown && s.shared.queue == [])
    && (s.destroyer.Joining? ==> s.destroyer.joined <= |s.workers|)
    && (s.destroyer.Joining? ==> forall w :: 0 <= w < s.destroyer.joined ==> s.workers[w] == Exited)
    && (s.destroyer.Destroyed? ==> forall w :: 0 <= w < |s.workers| ==> s.workers[w] == Exited)
  }

  /** No wakeup is lost: while any worker sleeps, every queued task is matched by a worker about to look
      at the queue or a signal still owed; a sleeper after shutdown is still owed the broadcast; and
      nobody sleeps in wait when nothing is pending. */
  ghost predicate NoLostWakeup(s: System) {
    && (Asleep in s.workers ==> |s.shared.queue| <= Total(s.workers, HuntingWeight) + s.owedSignals)
    && (Asleep in s.workers && s.shared.shutdown ==> s.destroyer.OwesBroadcast?)
    && (Blocked in s.waiters ==> s.shared.pending > 0)
  }

  ghost predicate Inv(s: System) {
    FirstInFirstOut(s) && ExactlyOnce(s) && CountsPending(s) && Lifecycle(s) && NoLostWakeup(s)
  }

  lemma InitInv(workers: nat, waiters: nat, limit: nat)
    requires workers > 0
    ensures Inv(Init(workers, waiters, limit))
  {
    TotalZero(Init(workers, waiters, limit).workers, BusyWeight);
  }

  predicate Idle(w: Worker) { !w.Running? && !w.Ran? }

  /** Workers that hold no ticket may change freely. */
  lemma SameTickets(s: System, s': System)
    requires |s'.workers| == |s.workers|
    requires forall w :: 0 <= w < |s.workers| ==> s'.workers[w] == s.workers[w] || (Idle(s.workers[w]) && Idle(s'.workers[w]))
    requires s'.taken == s.taken && s'.executed == s.executed && s'.finished == s.finished
    requires ExactlyOnce(s)
    ensures ExactlyOnce(s')
  {
    forall t | 0 <= t < |s'.taken| && t !in s'.finished ensures Busy(s'.workers, t) {
      var v :| 0 <= v < |s.workers| && Holds(s.workers[v], t);
      assert Holds(s'.workers[v], t);
    }
  }

  lemma SubmitKeepsInv(s: System, fn: nat, context: nat)
    requires Inv(s) && Enabled(s, SubmitCall(fn, context))
    ensures Inv(Apply(s, SubmitCall(fn, context)))
  {
  }

  lemma TakeKeepsTickets(s: System, w: nat)
    requires Inv(s) && Enabled(s, PollQueue(w)) && PollResult(s.shared).Take?
    ensures ExactlyOnce(Polls(s, w))
  {
    var s' := Polls(s, w);
    assert s'.workers[w].slot == s.shared.queue[0];
    forall t | 0 <= t < |s'.taken| && t !in s'.finished ensures Busy(s'.workers, t) {
      if t == |s.taken| {
        assert Holds(s'.workers[w], t);
      } else {
        var v :| 0 <= v < |s.workers| && Holds(s.workers[v], t);
        assert Holds(s'.workers[v], t);
      }
    }
  }

  lemma PollKeepsInv(s: System, w: nat)
    requires Inv(s) && Enabled(s, PollQueue(w))
    ensures Inv(Polls(s, w))
  {
    PollKeepsTickets(s, w);
    PollKeepsQueue(s, w);
    PollKeepsLifecycle(s, w);
    PollKeepsWakeups(s, w);
    hide Polls, Enabled, FirstInFirstOut, ExactlyOnce, CountsPending, Lifecycle, NoLostWakeup;
  }

  lemma PollKeepsQueue(s: System, w: nat)
    requires Inv(s) && Enabled(s, PollQueue(w))
    ensures FirstInFirstOut(Polls(s, w)) && CountsPending(Polls(s, w))
  {
    TotalUpdate(s.workers, BusyWeight, w, Polls(s, w).workers[w]);
    hide ExactlyOnce, Lifecycle, NoLostWakeup, Total;
  }

  lemma PollKeepsLifecycle(s: System, w: nat)
    requires Inv(s) && Enabled(s, PollQueue(w))
    ensures Lifecycle(Polls(s, w))
  {
    hide ExactlyOnce, CountsPending, NoLostWakeup, FirstInFirstOut;
  }

  lemma PollKeepsWakeups(s: System, w: nat)
    requires Inv(s) && Enabled(s, PollQueue(w))
    ensures NoLostWakeup(Polls(s, w))
  {
    TotalUpdate(s.workers, HuntingWeight, w, Polls(s, w).workers[w]);
    hide ExactlyOnce, CountsPending, FirstInFirstOut, Total;
  }

  lemma PollKeepsTickets(s: System, w: nat)
    requires Inv(s) && Enabled(s, PollQueue(w))
    ensures ExactlyOnce(Polls(s, w))
  {
    hide CountsPending, Lifecycle, NoLostWakeup, Total;
    if PollResult(s.shared).Take? {
      TakeKeepsTickets(s, w);
    } else {
      SameTickets(s, Polls(s, w));
    }
  }

  lemma RunKeepsInv(s: System, w: nat)
    requires Inv(s) && Enabled(s, RunTask(w))
    ensures Inv(Runs(s, w))
  {
    var s' := Runs(s, w);
    TotalUpdate(s.workers, BusyWeight, w, s'.workers[w]);
    TotalUpdate(s.workers, HuntingWeight, w, s'.workers[w]);
    RunKeepsTickets(s, w);
    hide ExactlyOnce;
  }

  lemma RunKeepsTickets(s: System, w: nat)
    requires Inv(s) && Enabled(s, RunTask(w))
    ensures ExactlyOnce(Runs(s, w))
  {
    hide CountsPending, Lifecycle, NoLostWakeup, Total;
    var s' := Runs(s, w);
    assert s.workers[w].slot == s.accepted[s.workers[w].ticket];
    forall t | 0 <= t < |s'.taken| && t !in s'.finished ensures Busy(s'.workers, t) {
      var v :| 0 <= v < |s.workers| && Holds(s.workers[v], t);
      assert Holds(s'.workers[v], t);
    }
  }

  lemma FinishKeepsInv(s: System, w: nat)
    requires Inv(s) && Enabled(s, Finish(w))
    ensures Inv(Finishes(s, w))
  {
    var s' := Finishes(s, w);
    TotalUpdate(s.workers, BusyWeight, w, Hunting);
    TotalUpdate(s.workers, HuntingWeight, w, Hunting);
    FinishKeepsTickets(s, w);
    assert s'.waiters == s.waiters || Blocked !in s'.waiters;
    hide ExactlyOnce;
  }

  lemma FinishKeepsTickets(s: System, w: nat)
    requires Inv(s) && Enabled(s, Finish(w))
    ensures ExactlyOnce(Finishes(s, w))
  {
    hide CountsPending, Lifecycle, NoLostWakeup, Total;
    var s' := Finishes(s, w);
    forall t | 0 <= t < |s'.taken| && t !in s'.finished ensures Busy(s'.workers, t) {
      var v :| 0 <= v < |s.workers| && Holds(s.workers[v], t);
      assert Holds(s'.workers[v], t);
    }
  }

  lemma WakeKeepsInv(s: System, step: Step)
    requires Inv(s) && Enabled(s, step) && (step.SpuriousWorker? || step.Signal?)
    ensures Inv(Apply(s, step))
  {
    var w := if step.SpuriousWorker? then step.worker else step.wakes;
    if w >= 0 {
      TotalUpdate(s.workers, BusyWeight, w, Hunting);
      TotalUpdate(s.workers, HuntingWeight, w, Hunting);
      SameTickets(s, Apply(s, step));
    }
  }

  lemma BroadcastKeepsInv(s: System)
    requires Inv(s) && Enabled(s, Broadcast)
    ensures Inv(Apply(s, Broadcast))
  {
    var s' := Apply(s, Broadcast);
    TotalMonotone(s.workers, s'.workers, BusyWeight);
    TotalMonotone(s'.workers, s.workers, BusyWeight);
    SameTickets(s, s');
    assert Asleep !in s'.workers;
    if Exited in s'.workers {
      var v :| 0 <= v < |s.workers| && s'.workers[v] == Exited;
      assert s.workers[v] == Exited;
    }
  }

  /** Every step of every thread keeps the invariant. */
  lemma StepKeepsInv(s: System, step: Step)
    requires Inv(s) && Enabled(s, step)
    ensures Inv(Apply(s, step))
  {
    hide Inv, Enabled, Polls, Runs, Finishes;
    match step
    case SubmitCall(fn, context) => SubmitKeepsInv(s, fn, context);
    case PollQueue(w) => PollKeepsInv(s, w);
    case RunTask(w) => RunKeepsInv(s, w);
    case Finish(w) => FinishKeepsInv(s, w);
    case Broadcast => BroadcastKeepsInv(s);
    case SpuriousWorker(_) => WakeKeepsInv(s, step);
    case Signal(_) => WakeKeepsInv(s, step);
    case _ => QuietKeepsInv(s, step);
  }

  /** The remaining steps change only waiters or the destroyer. */
  lemma QuietKeepsInv(s: System, step: Step)
    requires Inv(s) && Enabled(s, step)
    requires !step.SubmitCall? && !step.PollQueue? && !step.RunTask? && !step.Finish? && !step.Broadcast?
    requires !step.SpuriousWorker? && !step.Signal?
    ensures Inv(Apply(s, step))
  {
    hide Total;
    if step.WaitCall? || step.SpuriousWaiter? || step.CheckPending? {
      WaiterKeepsInv(s, step);
    } else {
      var s' := Apply(s, step);
      SameTickets(s, s');
      hide ExactlyOnce;
    }
  }

  lemma WaiterKeepsInv(s: System, step: Step)
    requires Inv(s) && Enabled(s, step) && (step.WaitCall? || step.SpuriousWaiter? || step.CheckPending?)
    ensures Inv(Apply(s, step))
  {
    SameTickets(s, Apply(s, step));
    hide Total, ExactlyOnce;
  }

  lemma {:induction false} ExecutionKeepsInv(s: System, steps: seq<Step>, end: System)
    requires Inv(s) && Executes(s, steps, end)
    ensures Inv(end)
    decreases |steps|
  {
    hide Inv, Enabled, Apply;
    if steps != [] {
      StepKeepsInv(s, steps[0]);
      ExecutionKeepsInv(Apply(s, steps[0]), steps[1..], end);
    }
  }

  lemma ReachableInv(s: System)
    requires Reachable(s)
    ensures Inv(s)
  {
    var workers: nat, waiters: nat, limit: nat, steps :|
      workers > 0 && Executes(Init(workers, waiters, limit), steps, s);
    InitInv(workers, waiters, limit);
    ExecutionKeepsInv(Init(workers, waiters, limit), steps, s);
  }
}

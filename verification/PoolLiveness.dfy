/** Results for users of the pool: what wait and destroy guarantee, that nothing is stranded, and that
  the pool always runs to quiescence within a computable number of steps. */
module PoolLiveness {
  import opened TaskQueue
  import opened PoolProtocol
  import opened PoolSafety

  /** The function of every accepted task was called exactly once and all the bookkeeping is over. */
  ghost predicate AllRun(s: System) {
    && s.shared.queue == []
    && s.taken == s.accepted
    && (forall t :: 0 <= t < |s.accepted| ==> t in s.finished && t in s.executed)
    && (forall i, j :: 0 <= i < j < |s.executed| ==> s.executed[i] != s.executed[j])
  }

  lemma NothingPending(s: System)
    requires Inv(s) && s.shared.pending <= 0
    ensures AllRun(s)
  {
    TotalZero(s.workers, BusyWeight);
    assert forall v :: 0 <= v < |s.workers| ==> BusyWeight(s.workers[v]) == 0;
    assert forall t :: 0 <= t < |s.taken| ==> !Busy(s.workers, t);
  }

  /** The counter is the number of accepted tasks that have not finished, whoever holds them. */
  lemma PendingIsUnfinished(s: System)
    requires Reachable(s)
    ensures s.shared.pending == |s.accepted| - |s.finished|
    ensures 0 <= s.shared.pending
  {
    ReachableInv(s);
    BusyTickets(s.workers);
    TicketPartition(s);
  }

  ghost function TicketsOf(ws: seq<Worker>): set<nat> {
    if ws == [] then {} else TicketsOf(ws[1..]) + if Idle(ws[0]) then {} else {ws[0].ticket}
  }

  lemma TicketPartition(s: System)
    requires ExactlyOnce(s)
    requires forall t :: t in TicketsOf(s.workers) <==> Busy(s.workers, t)
    ensures |s.taken| == |s.finished| + |TicketsOf(s.workers)|
  {
    var busy := TicketsOf(s.workers);
    forall t | t in busy ensures t < |s.taken| && t !in s.finished {
      var w :| 0 <= w < |s.workers| && Holds(s.workers[w], t);
    }
    assert TicketsBelow(|s.taken|) == s.finished + busy;
  }

  ghost function TicketsBelow(n: nat): (r: set<nat>)
    ensures |r| == n && forall t: nat :: t in r <==> t < n
  {
    if n == 0 then {} else TicketsBelow(n - 1) + {n - 1}
  }

  lemma {:induction false} BusyTickets(ws: seq<Worker>)
    requires forall v, w, t :: 0 <= v < w < |ws| && Holds(ws[v], t) ==> !Holds(ws[w], t)
    ensures |TicketsOf(ws)| == Total(ws, BusyWeight)
    ensures forall t :: t in TicketsOf(ws) <==> Busy(ws, t)
  {
    if ws != [] {
      var rest := ws[1..];
      forall v, w, t | 0 <= v < w < |rest| && Holds(rest[v], t) ensures !Holds(rest[w], t) {
        assert rest[v] == ws[v + 1] && rest[w] == ws[w + 1];
      }
      BusyTickets(rest);
      forall t ensures Busy(ws, t) <==> Holds(ws[0], t) || Busy(rest, t) {
        if Busy(rest, t) {
          var w :| 0 <= w < |rest| && Holds(rest[w], t);
          assert Holds(ws[w + 1], t);
        }
        if Busy(ws, t) {
          var w :| 0 <= w < |ws| && Holds(ws[w], t);
          if w > 0 { assert Holds(rest[w - 1], t); }
        }
      }
      forall w | 0 <= w < |rest| && !Idle(ws[0]) ensures !Holds(rest[w], ws[0].ticket) {
        assert Holds(ws[0], ws[0].ticket) && rest[w] == ws[w + 1];
      }
    }
  }

  /** wait returns exactly when everything accepted so far has run. */
  lemma WaitReturnsWhenAllRun(s: System, waiter: nat)
    requires Reachable(s) && Enabled(s, CheckPending(waiter))
    ensures Apply(s, CheckPending(waiter)).waiters[waiter] == Outside <==> |s.finished| == |s.accepted|
    ensures Apply(s, CheckPending(waiter)).waiters[waiter] == Outside ==> AllRun(s)
  {
    ReachableInv(s);
    PendingIsUnfinished(s);
    if s.shared.pending <= 0 { NothingPending(s); }
  }

  /** When destroy has joined the workers no accepted task is unrun. */
  lemma DestroyDrains(s: System)
    requires Reachable(s) && s.destroyer.Destroyed?
    ensures AllRun(s)
  {
    ReachableInv(s);
    TotalZero(s.workers, BusyWeight);
    assert s.workers[0] in s.workers;
    NothingPending(s);
  }

  /** A queued task always has somebody on the way to it. */
  lemma NoTaskStranded(s: System)
    requires Reachable(s) && s.shared.queue != []
    ensures s.owedSignals > 0 || exists w :: 0 <= w < |s.workers| && s.workers[w] != Asleep && s.workers[w] != Exited
    ensures Asleep in s.workers ==> |s.shared.queue| <= Total(s.workers, HuntingWeight) + s.owedSignals
  {
    ReachableInv(s);
    TotalZero(s.workers, HuntingWeight);
    assert s.workers[0] in s.workers;
  }

  // ---- Progress ----

  /** No thread of the pool can move by itself. */
  ghost predicate Quiescent(s: System) {
    forall step: Step :: step.Internal() ==> !Enabled(s, step)
  }

  lemma QuiescentAtRest(s: System)
    requires Inv(s) && Quiescent(s)
    ensures forall w :: 0 <= w < |s.workers| ==> s.workers[w] == Asleep || s.workers[w] == Exited
    ensures s.owedSignals == 0
    ensures forall i :: 0 <= i < |s.waiters| ==> s.waiters[i] != Checking
    ensures !s.destroyer.OwesBroadcast?
    ensures s.destroyer.Joining? ==> s.destroyer.joined < |s.workers| && s.workers[s.destroyer.joined] != Exited
  {
    forall w | 0 <= w < |s.workers| ensures s.workers[w] == Asleep || s.workers[w] == Exited {
      assert !Enabled(s, PollQueue(w)) && !Enabled(s, RunTask(w)) && !Enabled(s, Finish(w));
    }
    assert !Enabled(s, Signal(-1));
    if Asleep in s.workers {
      var w :| 0 <= w < |s.workers| && s.workers[w] == Asleep;
      assert !Enabled(s, Signal(w));
    }
    forall i | 0 <= i < |s.waiters| ensures s.waiters[i] != Checking {
      assert !Enabled(s, CheckPending(i));
    }
    assert !Enabled(s, Broadcast) && !Enabled(s, Join) && !Enabled(s, FreePool);
  }

  /** Sleepers and exited workers leave the queue empty and nothing running. */
  lemma AtRestMeansAllRun(s: System)
    requires Inv(s) && s.owedSignals == 0
    requires forall w :: 0 <= w < |s.workers| ==> s.workers[w] == Asleep || s.workers[w] == Exited
    ensures AllRun(s) && s.shared.pending == 0
  {
    TotalZero(s.workers, BusyWeight);
    TotalZero(s.workers, HuntingWeight);
    assert s.workers[0] in s.workers;
    NothingPending(s);
  }

  /** A state in which nothing can move has nothing left to do: all accepted tasks ran, nobody waits,
      and either the workers sleep for the next task or the pool is destroyed. */
  lemma QuiescentMeansDone(s: System)
    requires Reachable(s) && Quiescent(s)
    ensures AllRun(s) && s.owedSignals == 0
    ensures forall i :: 0 <= i < |s.waiters| ==> s.waiters[i] == Outside
    ensures if s.shared.shutdown then s.destroyer.Destroyed? else forall w :: 0 <= w < |s.workers| ==> s.workers[w] == Asleep
  {
    ReachableInv(s);
    QuiescentAtRest(s);
    AtRestMeansAllRun(s);
    forall i | 0 <= i < |s.waiters| ensures s.waiters[i] == Outside {
      assert s.waiters[i] in s.waiters;
    }
    forall w | 0 <= w < |s.workers|
      ensures s.workers[w] == if s.shared.shutdown then Exited else Asleep
    {
      assert s.workers[w] in s.workers;
    }
  }

  // ---- Termination ----

  function WorkerWeight(waiters: nat): Worker -> nat {
    (w: Worker) => match w
      case Hunting => 1
      case Asleep => 0
      case Running(_, _) => waiters + 3
      case Ran(_) => waiters + 2
      case Exited => 0
  }

  function WaiterWeight(w: Waiter): nat { if w == Checking then 1 else 0 }

  function DestroyerWeight(d: Destroyer, workers: nat): nat {
    match d
    case NotCalled => 0
    case OwesBroadcast => 2 * workers + 3
    case Joining(j) => if j <= workers then workers + 1 - j else 0
    case Destroyed => 0
  }

  /** An upper bound on the steps the pool can still take by itself. */
  function Measure(s: System): nat {
    |s.shared.queue| * (|s.waiters| + 3) + Total(s.workers, WorkerWeight(|s.waiters|))
    + 2 * s.owedSignals + Total(s.waiters, WaiterWeight) + DestroyerWeight(s.destroyer, |s.workers|)
  }

  /** What one call or one spurious wakeup can add to the measure. */
  function CallCost(s: System): nat { 2 * |s.workers| + |s.waiters| + 5 }

  lemma {:induction false} TotalAtMost<T>(a: seq<T>, b: seq<T>, weight: T -> nat)
    requires |a| == |b| && forall i :: 0 <= i < |a| ==> weight(b[i]) <= weight(a[i]) + 1
    ensures Total(b, weight) <= Total(a, weight) + |a|
  {
    if a != [] {
      forall i | 0 <= i < |a[1..]| ensures weight(b[1..][i]) <= weight(a[1..][i]) + 1 {
        assert a[1..][i] == a[i + 1] && b[1..][i] == b[i + 1];
      }
      TotalAtMost(a[1..], b[1..], weight);
    }
  }

  lemma TakeFalls(s: System, w: nat)
    requires Inv(s) && Enabled(s, PollQueue(w)) && s.shared.queue != []
    ensures Measure(Polls(s, w)) < Measure(s)
  {
    var s' := Polls(s, w);
    TotalUpdate(s.workers, WorkerWeight(|s.waiters|), w, Running(|s.taken|, s.shared.queue[0]));
    var q, k := |s.shared.queue|, |s.waiters| + 3;
    assert (q - 1) * k == q * k - k;
  }

  lemma IdlePollFalls(s: System, w: nat)
    requires Inv(s) && Enabled(s, PollQueue(w)) && s.shared.queue == []
    ensures Measure(Polls(s, w)) < Measure(s)
  {
    TotalUpdate(s.workers, WorkerWeight(|s.waiters|), w, Polls(s, w).workers[w]);
  }

  lemma RunFalls(s: System, w: nat)
    requires Inv(s) && Enabled(s, RunTask(w))
    ensures Measure(Runs(s, w)) < Measure(s)
  {
    TotalUpdate(s.workers, WorkerWeight(|s.waiters|), w, Ran(s.workers[w].ticket));
  }

  lemma FinishFalls(s: System, w: nat)
    requires Inv(s) && Enabled(s, Finish(w))
    ensures Measure(Finishes(s, w)) < Measure(s)
  {
    var s' := Finishes(s, w);
    TotalUpdate(s.workers, WorkerWeight(|s.waiters|), w, Hunting);
    assert Total(s'.waiters, WaiterWeight) <= Total(s.waiters, WaiterWeight) + |s.waiters| by {
      TotalAtMost(s.waiters, s'.waiters, WaiterWeight);
    }
  }

  lemma BroadcastFalls(s: System)
    requires Inv(s) && Enabled(s, Broadcast)
    ensures Measure(Apply(s, Broadcast)) < Measure(s)
  {
    TotalAtMost(s.workers, WakeAll(s.workers), WorkerWeight(|s.waiters|));
  }

  lemma InternalStepFalls(s: System, step: Step)
    requires Inv(s) && Enabled(s, step) && step.Internal()
    ensures Measure(Apply(s, step)) < Measure(s)
  {
    match step {
      case Signal(wakes) =>
        if wakes >= 0 { TotalUpdate(s.workers, WorkerWeight(|s.waiters|), wakes, Hunting); }
      case PollQueue(w) =>
        if s.shared.queue == [] { IdlePollFalls(s, w); } else { TakeFalls(s, w); }
      case RunTask(w) => RunFalls(s, w);
      case Finish(w) => FinishFalls(s, w);
      case CheckPending(i) =>
        TotalUpdate(s.waiters, WaiterWeight, i, Apply(s, step).waiters[i]);
      case Broadcast => BroadcastFalls(s);
      case Join =>
      case FreePool =>
    }
  }

  lemma OtherStepCosts(s: System, step: Step)
    requires Inv(s) && Enabled(s, step) && !step.Internal()
    ensures Measure(Apply(s, step)) <= Measure(s) + CallCost(s)
  {
    hide Inv, CanSubmit;
    var weight := WorkerWeight(|s.waiters|);
    match step {
      case SubmitCall(fn, context) =>
        assert (|s.shared.queue| + 1) * (|s.waiters| + 3) == |s.shared.queue| * (|s.waiters| + 3) + |s.waiters| + 3;
      case SpuriousWorker(w) => TotalUpdate(s.workers, weight, w, Hunting);
      case WaitCall(i) => TotalUpdate(s.waiters, WaiterWeight, i, Checking);
      case SpuriousWaiter(i) => TotalUpdate(s.waiters, WaiterWeight, i, Checking);
      case DestroyCall =>
    }
  }

  function InternalSteps(steps: seq<Step>): nat {
    if steps == [] then 0 else (if steps[0].Internal() then 1 else 0) + InternalSteps(steps[1..])
  }

  /** In every run the pool's own steps are bounded by the measure of its first state plus a constant for
      each call and each spurious wakeup: no interleaving keeps the pool busy for ever. */
  lemma {:induction false} RunsAreBounded(s: System, steps: seq<Step>, end: System)
    requires Inv(s) && Executes(s, steps, end)
    ensures InternalSteps(steps) + Measure(end) <= Measure(s) + (|steps| - InternalSteps(steps)) * CallCost(s)
    ensures InternalSteps(steps) <= |steps|
    decreases |steps|
  {
    hide Inv, Enabled, Apply, Measure, CallCost;
    if steps != [] {
      var s', rest := Apply(s, steps[0]), steps[1..];
      SameCost(s, steps[0]);
      StepKeepsInv(s, steps[0]);
      RunsAreBounded(s', rest, end);
      CountStep(steps);
      if steps[0].Internal() {
        InternalStepFalls(s, steps[0]);
      } else {
        OtherStepCosts(s, steps[0]);
        OneMore(|rest| - InternalSteps(rest), |steps| - InternalSteps(steps), CallCost(s));
      }
    }
  }

  lemma SameCost(s: System, step: Step)
    requires Enabled(s, step)
    ensures CallCost(Apply(s, step)) == CallCost(s)
  {
    hide PollResult, Polled, CanSubmit, Submitted, ShutDown, TaskFinished;
  }

  lemma CountStep(steps: seq<Step>)
    requires steps != []
    ensures InternalSteps(steps) == InternalSteps(steps[1..]) + if steps[0].Internal() then 1 else 0
  {
  }

  lemma OneMore(n: int, m: int, cost: int)
    requires m == n + 1
    ensures m * cost == n * cost + cost
  {
  }

  /** After destroy was called, a run of pool steps alone is at most as long as the measure, and one that
      cannot be continued has destroyed the pool with every accepted task run. */
  lemma ShutdownTerminates(s: System, steps: seq<Step>, end: System)
    requires Reachable(s) && s.shared.shutdown && Executes(s, steps, end)
    requires forall i :: 0 <= i < |steps| ==> steps[i].Internal()
    ensures |steps| <= Measure(s)
    ensures Quiescent(end) ==> end.destroyer.Destroyed? && AllRun(end)
  {
    assert |steps| <= Measure(s) by {
      ReachableInv(s);
      RunsAreBounded(s, steps, end);
      AllInternal(steps);
      assert 0 * CallCost(s) == 0;
    }
    KeepsShutdown(s, steps, end);
    ReachableExtends(s, steps, end);
    if Quiescent(end) { QuiescentMeansDone(end); }
  }

  lemma {:induction false} AllInternal(steps: seq<Step>)
    requires forall i :: 0 <= i < |steps| ==> steps[i].Internal()
    ensures InternalSteps(steps) == |steps|
  {
    if steps != [] { AllInternal(steps[1..]); }
  }

  lemma {:induction false} KeepsShutdown(s: System, steps: seq<Step>, end: System)
    requires s.shared.shutdown && Executes(s, steps, end)
    ensures end.shared.shutdown
    decreases |steps|
  {
    if steps != [] { KeepsShutdown(Apply(s, steps[0]), steps[1..], end); }
  }

  lemma {:induction false} Concatenates(s: System, first: seq<Step>, mid: System, second: seq<Step>, end: System)
    requires Executes(s, first, mid) && Executes(mid, second, end)
    ensures Executes(s, first + second, end)
    decreases |first|
  {
    if first == [] {
      assert first + second == second;
    } else {
      assert (first + second)[1..] == first[1..] + second;
      Concatenates(Apply(s, first[0]), first[1..], mid, second, end);
    }
  }

  lemma ReachableExtends(s: System, steps: seq<Step>, end: System)
    requires Reachable(s) && Executes(s, steps, end)
    ensures Reachable(end)
  {
    var workers: nat, waiters: nat, limit: nat, first :|
      workers > 0 && Executes(Init(workers, waiters, limit), first, s);
    Concatenates(Init(workers, waiters, limit), first, s, steps, end);
  }
}

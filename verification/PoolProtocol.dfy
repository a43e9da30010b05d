/** Every interleaving of the POSIX thread pool: workers, submitters, waiters and one destroyer.

  A step is one critical section, one wakeup, one call of a task, one signal or broadcast sent
  after the mutex was released, or one join. Condition variables may wake a thread for no reason.
  */
module PoolProtocol {
  import opened TaskQueue

  /** Hunting: runnable and about to enter the critical section at the top of the loop. */
  datatype Worker =
    | Hunting
    | Asleep
    | Running(ticket: nat, slot: Slot)
    | Ran(ticket: nat)
    | Exited

  datatype Waiter = Outside | Checking | Blocked

  datatype Destroyer = NotCalled | OwesBroadcast | Joining(joined: nat) | Destroyed

  /** `accepted` is the history of accepted tasks; a ticket is an index into it. `taken` lists the tasks
      handed to workers in the order they left the queue and `executed` lists the tickets whose function was called, in call order;
      `finished` holds the tickets whose worker has also decremented the counter. */
  datatype System = System(
    shared: Shared,
    workers: seq<Worker>,
    waiters: seq<Waiter>,
    destroyer: Destroyer,
    owedSignals: nat,
    accepted: seq<Slot>,
    taken: seq<Slot>,
    executed: seq<nat>,
    finished: set<nat>)

  datatype Step =
    // calls made by the program that uses the pool
    | SubmitCall(fn: nat, context: nat)
    | WaitCall(waiter: nat)
    | DestroyCall
    // wakeups without a cause
    | SpuriousWorker(worker: nat)
    | SpuriousWaiter(waiter: nat)
    // the pool's own steps
    | Signal(wakes: int)
    | PollQueue(worker: nat)
    | RunTask(worker: nat)
    | Finish(worker: nat)
    | CheckPending(waiter: nat)
    | Broadcast
    | Join
    | FreePool
  {
    predicate External() { SubmitCall? || WaitCall? || DestroyCall? }
    predicate Spurious() { SpuriousWorker? || SpuriousWaiter? }
    predicate Internal() { !External() && !Spurious() }
  }

  function Init(workers: nat, waiters: nat, limit: nat): System {
    System(Shared([], limit, 0, false), seq(workers, _ => Hunting), seq(waiters, _ => Outside),
           NotCalled, 0, [], [], [], {})
  }

  predicate Enabled(s: System, step: Step) {
    match step
    case SubmitCall(_, _) => s.destroyer.NotCalled? || s.destroyer.OwesBroadcast? || s.destroyer.Joining?
    case WaitCall(i) => i < |s.waiters| && s.waiters[i] == Outside && !s.destroyer.Destroyed?
    case DestroyCall => s.destroyer.NotCalled?
    case SpuriousWorker(w) => w < |s.workers| && s.workers[w] == Asleep
    case SpuriousWaiter(i) => i < |s.waiters| && s.waiters[i] == Blocked
    case Signal(wakes) =>
      && s.owedSignals > 0
      && if wakes < 0 then Asleep !in s.workers else wakes < |s.workers| && s.workers[wakes] == Asleep
    case PollQueue(w) => w < |s.workers| && s.workers[w] == Hunting
    case RunTask(w) => w < |s.workers| && s.workers[w].Running?
    case Finish(w) => w < |s.workers| && s.workers[w].Ran?
    case CheckPending(i) => i < |s.waiters| && s.waiters[i] == Checking
    case Broadcast => s.destroyer.OwesBroadcast?
    case Join => s.destroyer.Joining? && s.destroyer.joined < |s.workers| && s.workers[s.destroyer.joined] == Exited
    case FreePool => s.destroyer.Joining? && s.destroyer.joined == |s.workers|
  }

  function Woken(w: Worker): Worker { if w == Asleep then Hunting else w }
  function Released(w: Waiter): Waiter { if w == Blocked then Checking else w }
  function WakeAll(ws: seq<Worker>): (r: seq<Worker>)
    ensures |r| == |ws| && forall i :: 0 <= i < |ws| ==> r[i] == Woken(ws[i])
  {
    seq(|ws|, i requires 0 <= i < |ws| => Woken(ws[i]))
  }
  function ReleaseAll(ws: seq<Waiter>): (r: seq<Waiter>)
    ensures |r| == |ws| && forall i :: 0 <= i < |ws| ==> r[i] == Released(ws[i])
  {
    seq(|ws|, i requires 0 <= i < |ws| => Released(ws[i]))
  }

  function Polls(s: System, w: nat): System
    requires w < |s.workers|
  {
    match PollResult(s.shared)
    case Sleep => s.(workers := s.workers[w := Asleep])
    case Exit => s.(workers := s.workers[w := Exited])
    case Take(slot) =>
      s.(shared := Polled(s.shared), workers := s.workers[w := Running(|s.taken|, slot)], taken := s.taken + [slot])
  }

  function Runs(s: System, w: nat): System
    requires w < |s.workers| && s.workers[w].Running?
  {
    var t := s.workers[w];
    s.(workers := s.workers[w := Ran(t.ticket)],
       executed := if t.slot.Callable() then s.executed + [t.ticket] else s.executed)
  }

  function Finishes(s: System, w: nat): System
    requires w < |s.workers| && s.workers[w].Ran?
  {
    var shared := TaskFinished(s.shared);
    s.(shared := shared,
       workers := s.workers[w := Hunting],
       waiters := if shared.pending == 0 then ReleaseAll(s.waiters) else s.waiters,
       finished := s.finished + {s.workers[w].ticket})
  }

  function Apply(s: System, step: Step): System
    requires Enabled(s, step)
  {
    match step
    case SubmitCall(fn, context) =>
      if CanSubmit(s.shared, fn) then
        s.(shared := Submitted(s.shared, fn, context),
           accepted := s.accepted + [Slot(fn, context, true)],
           owedSignals := s.owedSignals + 1)
      else s
    case WaitCall(i) => s.(waiters := s.waiters[i := Checking])
    case DestroyCall => s.(shared := ShutDown(s.shared), destroyer := OwesBroadcast)
    case SpuriousWorker(w) => s.(workers := s.workers[w := Hunting])
    case SpuriousWaiter(i) => s.(waiters := s.waiters[i := Checking])
    case Signal(wakes) =>
      var t := s.(owedSignals := s.owedSignals - 1);
      if wakes < 0 then t else t.(workers := s.workers[wakes := Hunting])
    case PollQueue(w) => Polls(s, w)
    case RunTask(w) => Runs(s, w)
    case Finish(w) => Finishes(s, w)
    case CheckPending(i) => s.(waiters := s.waiters[i := if s.shared.pending > 0 then Blocked else Outside])
    case Broadcast => s.(workers := WakeAll(s.workers), destroyer := Joining(0))
    case Join => s.(destroyer := Joining(s.destroyer.joined + 1))
    case FreePool => s.(destroyer := Destroyed)
  }

  /** The state after the steps, when each is enabled in its turn. */
  ghost predicate Executes(s: System, steps: seq<Step>, end: System)
    decreases |steps|
  {
    if steps == [] then end == s
    else Enabled(s, steps[0]) && Executes(Apply(s, steps[0]), steps[1..], end)
  }

  ghost predicate Reachable(s: System) {
    exists workers: nat, waiters: nat, limit: nat, steps ::
      workers > 0 && Executes(Init(workers, waiters, limit), steps, s)
  }
}

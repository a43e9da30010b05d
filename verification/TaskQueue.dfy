/** The state guarded by the pool's mutex, and the critical sections that change it.

  `Shared` is what a critical section sees and leaves behind, with the queue as a plain sequence.
  The class `ThreadPool` keeps the ring buffer of the implementation (an array, a front and a back
  index) and each of its methods is one critical section, proved to do to the ring what the
  function of the same step does to the sequence. The interleavings of those steps are the subject
  of module `PoolProtocol`.
    Line numbers are those of src/util/thread_pool.c. */
module TaskQueue {

  const QUEUE_MAX := 10000

  /** A queue slot: function pointer (0 is NULL), context pointer and the `valid` flag. */
  datatype Slot = Slot(fn: nat, context: nat, valid: bool) {
    /** The test a worker makes before it calls the function. */
    predicate Callable() { valid && fn != 0 }
  }

  const EMPTY_SLOT := Slot(0, 0, false)

  /** The mutex-protected state; at most `limit` tasks fit. */
  datatype Shared = Shared(queue: seq<Slot>, limit: nat, pending: int, shutdown: bool)

  /** What a worker that holds the mutex at the top of its loop does next. */
  datatype Poll = Sleep | Exit | Take(slot: Slot)

  predicate CanSubmit(s: Shared, fn: nat) {
    fn != 0 && !s.shutdown && |s.queue| < s.limit
  }

  function Submitted(s: Shared, fn: nat, context: nat): Shared {
    if CanSubmit(s, fn) then s.(queue := s.queue + [Slot(fn, context, true)], pending := s.pending + 1) else s
  }

  function PollResult(s: Shared): Poll {
    if s.queue == [] then (if s.shutdown then Exit else Sleep) else Take(s.queue[0])
  }

  function Polled(s: Shared): Shared {
    if s.queue == [] then s else s.(queue := s.queue[1..])
  }

  function TaskFinished(s: Shared): Shared { s.(pending := s.pending - 1) }

  function ShutDown(s: Shared): Shared { s.(shutdown := true) }

  /** A task as it is submitted: a function and its context. */
  datatype Call = Call(fn: nat, context: nat)

  /** One submission after the other. */
  function SubmittedAll(s: Shared, calls: seq<Call>): Shared
    decreases |calls|
  {
    if calls == [] then s else SubmittedAll(Submitted(s, calls[0].fn, calls[0].context), calls[1..])
  }

  function SlotsOf(calls: seq<Call>): (r: seq<Slot>)
    ensures |r| == |calls|
  {
    seq(|calls|, i requires 0 <= i < |calls| => Slot(calls[i].fn, calls[i].context, true))
  }

  /** An open queue takes as many submissions in a row as it has room for, in their order, and then refuses every further
      one. */
  lemma {:induction false} TakesUpToLimit(s: Shared, calls: seq<Call>, fn: nat)
    requires !s.shutdown && |s.queue| + |calls| <= s.limit && forall i :: 0 <= i < |calls| ==> calls[i].fn != 0
    ensures SubmittedAll(s, calls) == s.(queue := s.queue + SlotsOf(calls), pending := s.pending + |calls|)
    ensures CanSubmit(SubmittedAll(s, calls), fn) <==> fn != 0 && |s.queue| + |calls| < s.limit
    decreases |calls|
  {
    if calls == [] {
      assert s.queue + [] == s.queue;
    } else {
      var one := Slot(calls[0].fn, calls[0].context, true);
      TakesUpToLimit(Submitted(s, calls[0].fn, calls[0].context), calls[1..], fn);
      assert s.queue + [one] + SlotsOf(calls[1..]) == s.queue + SlotsOf(calls);
    }
  }

  /** An index below `2 * n` reduced modulo `n` without division. */
  function Wrap(i: nat, n: nat): nat
    requires i < 2 * n
  {
    if i < n then i else i - n
  }

  lemma WrapIsModulo(i: nat, n: nat)
    requires i < 2 * n
    ensures i % n == Wrap(i, n)
  {
    if i >= n {
      assert i == n + (i - n);
    }
  }

  /** The tasks between `front` and `back`, oldest first, across the wrap-around. */
  function RingContents<T>(ring: seq<T>, front: nat, back: nat): (c: seq<T>)
    requires front < |ring| && back < |ring|
    ensures |c| == if front <= back then back - front else |ring| - front + back
    ensures forall k :: 0 <= k < |c| ==> c[k] == ring[Wrap(front + k, |ring|)]
  {
    if front <= back then ring[front..back] else ring[front..] + ring[..back]
  }

  /** A sequence that agrees with the ring from `front` on and ends before `back` is the ring's contents. */
  lemma RingContentsAre<T>(ring: seq<T>, front: nat, back: nat, c: seq<T>)
    requires front < |ring| && back < |ring|
    requires |c| < |ring| && Wrap(front + |c|, |ring|) == back
    requires forall k :: 0 <= k < |c| ==> c[k] == ring[Wrap(front + k, |ring|)]
    ensures RingContents(ring, front, back) == c
  {
  }

  class ThreadPool {
    const queue: array<Slot>
    const numThreads: nat
    var queueFront: nat
    var queueBack: nat
    var pendingTasks: int
    var shutdown: bool

    ghost predicate Valid()
      reads this, queue
    {
      queueFront < queue.Length && queueBack < queue.Length
    }

    ghost function View(): (s: Shared)
      reads this, queue
      requires Valid()
    {
      Shared(RingContents(queue[..], queueFront, queueBack), queue.Length - 1, pendingTasks, shutdown)
    }

    constructor (numThreads: nat)
      ensures Valid() && fresh(queue) && this.numThreads == numThreads
      ensures View() == Shared([], QUEUE_MAX - 1, 0, false)
    {
      this.numThreads := numThreads;
      queue := new Slot[QUEUE_MAX](_ => EMPTY_SLOT);
      queueFront, queueBack, pendingTasks, shutdown := 0, 0, 0, false;
    }

    /** Lines 324-345: the critical section of a submission; -1 when the task is refused. */
    method Submit(fn: nat, context: nat) returns (status: int)
      requires Valid()
      modifies this`queueBack, this`pendingTasks, queue
      ensures Valid()
      ensures View() == Submitted(old(View()), fn, context)
      ensures status == if CanSubmit(old(View()), fn) then 0 else -1
      ensures status == 0 <==> fn != 0 && !old(shutdown) && |old(View()).queue| + 1 < queue.Length
      ensures View() == if status == 0 then old(View()).(queue := old(View()).queue + [Slot(fn, context, true)],
                                                         pending := old(pendingTasks) + 1)
                        else old(View())
    {
      if fn == 0 {
        return -1;
      }
      if shutdown {
        return -1;
      }
      var next := (queueBack + 1) % queue.Length;
      ghost var before := RingContents(queue[..], queueFront, queueBack);
      WrapIsModulo(queueBack + 1, queue.Length);
      if next == queueFront {
        return -1;
      }
      queue[queueBack] := Slot(fn, context, true);
      queueBack := next;
      pendingTasks := pendingTasks + 1;
      RingContentsAre(queue[..], queueFront, queueBack, before + [Slot(fn, context, true)]);
      return 0;
    }

    /** Lines 236-250: sleep when the queue is empty, exit when it is also shut down, else take the oldest task. */
    method WorkerPoll() returns (next: Poll)
      requires Valid()
      modifies this`queueFront
      ensures Valid()
      ensures View() == Polled(old(View()))
      ensures next == PollResult(old(View()))
      ensures old(View()).queue == [] ==> View() == old(View()) && next == if shutdown then Exit else Sleep
      ensures old(View()).queue != [] ==>
        next == Take(old(View()).queue[0]) && View() == old(View()).(queue := old(View()).queue[1..])
    {
      if queueFront == queueBack {
        return if shutdown then Exit else Sleep;
      }
      ghost var before := RingContents(queue[..], queueFront, queueBack);
      var task := queue[queueFront];
      var front := (queueFront + 1) % queue.Length;
      WrapIsModulo(queueFront + 1, queue.Length);
      RingContentsAre(queue[..], front, queueBack, before[1..]);
      queueFront := front;
      return Take(task);
    }

    /** Lines 256-261: the decrement after a task ran; `allDone` tells to broadcast to the waiters. */
    method FinishTask() returns (allDone: bool)
      requires Valid()
      modifies this`pendingTasks
      ensures Valid()
      ensures View() == TaskFinished(old(View()))
      ensures View() == old(View()).(pending := old(pendingTasks) - 1) && allDone == (pendingTasks == 0)
    {
      pendingTasks := pendingTasks - 1;
      allDone := pendingTasks == 0;
    }

    /** Lines 370-372. */
    method BeginShutdown()
      requires Valid()
      modifies this`shutdown
      ensures Valid()
      ensures View() == ShutDown(old(View())) && View() == old(View()).(shutdown := true)
    {
      shutdown := true;
    }

    /** Lines 396-412: the two-case subtraction is the length of the queue. */
    method QueueSize() returns (size: nat)
      requires Valid()
      ensures size == |View().queue|
    {
      if queueBack >= queueFront {
        size := queueBack - queueFront;
      } else {
        size := queue.Length - queueFront + queueBack;
      }
    }
  }

}

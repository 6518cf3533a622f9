/**
 The thread pool (common/apsi/util/thread_pool.h) as a state machine.

 Everything that the source does while it holds queue_mutex is one step; starting a task, finishing
 it and decrementing in_flight are steps of their own. A run is any sequence of events, so a statement
 about every run covers every interleaving of producers, resizing, shutdown and workers.
 */
module ThreadPool {

  /** Where a worker thread is in its loop. */
  datatype Pc =
    | Waiting              // on condition_consumers, or about to test its condition
    | Holding(task: nat)   // has taken a task from the queue
    | Running(task: nat)   // runs its function
    | Finished(task: nat)  // about to decrement in_flight

  /** A thread in the vector of workers: its thread id and the number it was created with. */
  datatype Worker = Worker(id: nat, number: nat, pc: Pc)

  /** The pool, and the histories of accepted, taken and started tasks. Tasks are numbered as accepted. */
  datatype Pool = Pool(workers: seq<Worker>, poolSize: nat, queue: seq<nat>, maxQueueSize: nat, stop: bool,
                       inFlight: int, blockedProducers: nat, nextId: nat,
                       accepted: seq<nat>, taken: seq<nat>, started: seq<nat>)

  datatype Event =
    | EnqueueCall
    | ProducerWakes
    | SetQueueSizeLimit(limit: nat)
    | SetPoolSize(size: nat)
    | Destroy
    | WorkerTurn(position: nat)

  // ---------- Steps ----------

  /** emplace_back_worker for the numbers up to size. */
  function AddWorkers(workers: seq<Worker>, nextId: nat, size: nat): (r: seq<Worker>)
    ensures |r| == if size > |workers| then size else |workers|
    decreases size - |workers|
  {
    if |workers| >= size then workers
    else AddWorkers(workers + [Worker(nextId, |workers|, Waiting)], nextId + 1, size)
  }

  function Initial(threads: nat): Pool {
    Pool(AddWorkers([], 0, threads), threads, [], 100000, false, 0, 0, threads, [], [], [])
  }

  function LimitNoLock(p: Pool, limit: nat): Pool {
    if p.stop then p else p.(maxQueueSize := if limit > 1 then limit else 1)
  }

  /** The end of enqueue, once the queue has room or the pool is stopped. */
  function Accept(p: Pool): Pool {
    if p.stop then p
    else
      var task := |p.accepted|;
      p.(queue := p.queue + [task], inFlight := p.inFlight + 1, accepted := p.accepted + [task])
  }

  /** Downsizing or shutdown concerns worker w. */
  predicate Leaving(p: Pool, w: nat)
    requires w < |p.workers|
  {
    (p.stop && p.queue == []) || (!p.stop && p.poolSize < p.workers[w].number + 1)
  }

  /** A worker whose wait condition holds leaves, takes a task, or waits again. */
  function Awake(p: Pool, w: nat): Pool
    requires w < |p.workers|
  {
    var me := p.workers[w];
    if Leaving(p, w) then
      if me.id == p.workers[|p.workers| - 1].id then p.(workers := p.workers[..|p.workers| - 1]) else p
    else if p.queue != [] then
      p.(workers := p.workers[w := me.(pc := Holding(p.queue[0]))], queue := p.queue[1..],
         taken := p.taken + [p.queue[0]])
    else p
  }

  function Turn(p: Pool, w: nat): Pool
    requires w < |p.workers|
  {
    var me := p.workers[w];
    match me.pc
    case Waiting => if p.stop || p.queue != [] || p.poolSize < me.number + 1 then Awake(p, w) else p
    case Holding(task) => p.(workers := p.workers[w := me.(pc := Running(task))], started := p.started + [task])
    case Running(task) => p.(workers := p.workers[w := me.(pc := Finished(task))])
    case Finished(task) => p.(workers := p.workers[w := me.(pc := Waiting)], inFlight := p.inFlight - 1)
  }

  /** An event that cannot happen leaves the pool as it is. */
  function Next(p: Pool, e: Event): Pool {
    match e
    case EnqueueCall =>
      if |p.queue| < p.maxQueueSize then Accept(p)
      else
        var q := LimitNoLock(p, 2 * p.maxQueueSize);
        if |q.queue| < q.maxQueueSize || q.stop then Accept(q) else q.(blockedProducers := q.blockedProducers + 1)
    case ProducerWakes =>
      if p.blockedProducers > 0 && (|p.queue| < p.maxQueueSize || p.stop)
      then Accept(p.(blockedProducers := p.blockedProducers - 1)) else p
    case SetQueueSizeLimit(limit) => LimitNoLock(p, limit)
    case SetPoolSize(size) =>
      if p.stop then p
      else
        var target := if size < 1 then 1 else size;
        var workers := AddWorkers(p.workers, p.nextId, target);
        p.(poolSize := target, workers := workers, nextId := p.nextId + (|workers| - |p.workers|))
    case Destroy => p.(stop := true, poolSize := 0)
    case WorkerTurn(w) => if w < |p.workers| then Turn(p, w) else p
  }

  function Run(p: Pool, events: seq<Event>): Pool {
    if events == [] then p else Next(Run(p, events[..|events| - 1]), events[|events| - 1])
  }

  /** The destructor stops waiting. */
  predicate DestructorReturns(p: Pool) {
    p.stop && p.workers == []
  }

  // ---------- What every run keeps ----------

  /** Workers that have taken a task and not yet decremented in_flight. */
  function Busy(workers: seq<Worker>): nat {
    if workers == [] then 0
    else Busy(workers[..|workers| - 1]) + (if workers[|workers| - 1].pc.Waiting? then 0 else 1)
  }

  /** How many workers have taken the task and not yet started it. */
  function Held(workers: seq<Worker>, task: nat): nat {
    if workers == [] then 0
    else Held(workers[..|workers| - 1], task) + (if workers[|workers| - 1].pc == Holding(task) then 1 else 0)
  }

  /** Worker i is at position i, and thread ids are unique. */
  predicate InPosition(workers: seq<Worker>, nextId: nat) {
    && (forall i :: 0 <= i < |workers| ==> workers[i].number == i && workers[i].id < nextId)
    && forall i, j :: 0 <= i < j < |workers| ==> workers[i].id != workers[j].id
  }

  /** Tasks are taken in the order in which they were accepted, each one once. */
  predicate Fifo(p: Pool) {
    p.accepted == p.taken + p.queue && forall k :: 0 <= k < |p.accepted| ==> p.accepted[k] == k
  }

  /** A taken task is started or in the hands of a worker about to start it. */
  predicate Accounted(p: Pool, task: nat) {
    multiset(p.taken)[task] == multiset(p.started)[task] + Held(p.workers, task)
  }

  ghost predicate Inv(p: Pool) {
    Shape(p) && p.inFlight == |p.queue| + Busy(p.workers) && forall task :: Accounted(p, task)
  }

  /** Workers only have tasks that were taken from the queue. */
  predicate InHand(p: Pool) {
    forall w :: 0 <= w < |p.workers| && !p.workers[w].pc.Waiting? ==> p.workers[w].pc.task < |p.taken|
  }

  predicate Shape(p: Pool) {
    && InPosition(p.workers, p.nextId)
    && Fifo(p) && InHand(p)
    && (if p.stop then p.poolSize == 0 else 1 <= p.poolSize <= |p.workers|)
    && (DestructorReturns(p) ==> p.queue == [])
    && p.maxQueueSize >= 1
  }

  lemma {:induction false} SetBusy(workers: seq<Worker>, i: nat, w: Worker)
    requires i < |workers|
    ensures Busy(workers[i := w])
              == Busy(workers) - (if workers[i].pc.Waiting? then 0 else 1) + (if w.pc.Waiting? then 0 else 1)
  {
    var n := |workers| - 1;
    if i == n {
      assert workers[i := w][..n] == workers[..n];
    } else {
      assert workers[i := w][..n] == workers[..n][i := w];
      SetBusy(workers[..n], i, w);
    }
  }

  lemma {:induction false} SetHeld(workers: seq<Worker>, i: nat, w: Worker, task: nat)
    requires i < |workers|
    ensures Held(workers[i := w], task) + (if workers[i].pc == Holding(task) then 1 else 0)
            == Held(workers, task) + (if w.pc == Holding(task) then 1 else 0)
  {
    var n := |workers| - 1;
    if i == n {
      assert workers[i := w][..n] == workers[..n];
    } else {
      assert workers[i := w][..n] == workers[..n][i := w];
      SetHeld(workers[..n], i, w, task);
    }
  }

  lemma {:induction false} AddedWorkersWait(workers: seq<Worker>, nextId: nat, size: nat)
    ensures workers <= AddWorkers(workers, nextId, size)
    ensures forall i :: |workers| <= i < |AddWorkers(workers, nextId, size)| ==>
              AddWorkers(workers, nextId, size)[i].pc == Waiting
    decreases size - |workers|
  {
    if |workers| < size {
      AddedWorkersWait(workers + [Worker(nextId, |workers|, Waiting)], nextId + 1, size);
    }
  }

  lemma {:induction false} AddedWorkersIdle(workers: seq<Worker>, nextId: nat, size: nat, task: nat)
    requires InPosition(workers, nextId)
    ensures Busy(AddWorkers(workers, nextId, size)) == Busy(workers)
    ensures Held(AddWorkers(workers, nextId, size), task) == Held(workers, task)
    ensures InPosition(AddWorkers(workers, nextId, size), nextId + (|AddWorkers(workers, nextId, size)| - |workers|))
    decreases size - |workers|
  {
    if |workers| < size {
      var more := workers + [Worker(nextId, |workers|, Waiting)];
      assert more[..|workers|] == workers;
      AddedWorkersIdle(more, nextId + 1, size, task);
    }
  }

  lemma InitialInv(threads: nat)
    requires threads >= 1
    ensures Inv(Initial(threads))
  {
    forall task: nat ensures Accounted(Initial(threads), task) {
      AddedWorkersIdle([], 0, threads, task);
    }
    AddedWorkersIdle([], 0, threads, 0);
    AddedWorkersWait([], 0, threads);
  }

  /** The end of enqueue. */
  lemma AcceptKeepsShape(p: Pool)
    requires Shape(p)
    ensures Shape(Accept(p))
  {
    if !p.stop {
      var q := Accept(p);
      assert q.taken + q.queue == (p.taken + p.queue) + [|p.accepted|];
    }
  }

  lemma EnqueueKeepsShape(p: Pool)
    requires Shape(p)
    ensures Shape(Next(p, EnqueueCall))
  {
    AcceptKeepsShape(if |p.queue| < p.maxQueueSize then p else LimitNoLock(p, 2 * p.maxQueueSize));
  }

  lemma WakeKeepsShape(p: Pool)
    requires Shape(p)
    ensures Shape(Next(p, ProducerWakes))
  {
    if p.blockedProducers > 0 {
      AcceptKeepsShape(p.(blockedProducers := p.blockedProducers - 1));
    }
  }

  lemma ResizeKeepsShape(p: Pool, size: nat)
    requires Shape(p)
    ensures Shape(Next(p, SetPoolSize(size)))
  {
    AddedWorkersIdle(p.workers, p.nextId, if size < 1 then 1 else size, 0);
    AddedWorkersWait(p.workers, p.nextId, if size < 1 then 1 else size);
  }

  lemma NextKeepsShape(p: Pool, e: Event)
    requires Shape(p)
    ensures Shape(Next(p, e))
  {
    match e
    case EnqueueCall => EnqueueKeepsShape(p);
    case ProducerWakes => WakeKeepsShape(p);
    case SetQueueSizeLimit(limit) =>
    case SetPoolSize(size) => ResizeKeepsShape(p, size);
    case Destroy =>
    case WorkerTurn(w) =>
      if w < |p.workers| {
        TurnKeepsShape(p, w);
      }
  }

  lemma TakeKeepsShape(p: Pool, w: nat)
    requires Shape(p) && w < |p.workers| && p.queue != []
    ensures var me := p.workers[w];
            Shape(p.(workers := p.workers[w := me.(pc := Holding(p.queue[0]))], queue := p.queue[1..],
                     taken := p.taken + [p.queue[0]]))
  {
    assert p.accepted[|p.taken|] == p.queue[0];
    assert p.queue == [p.queue[0]] + p.queue[1..];
    assert (p.taken + [p.queue[0]]) + p.queue[1..] == p.taken + p.queue;
  }

  lemma LeaveKeepsShape(p: Pool, w: nat)
    requires Shape(p) && w < |p.workers| && Leaving(p, w)
    ensures Shape(Awake(p, w))
  {
  }

  lemma BusyTurnKeepsShape(p: Pool, w: nat)
    requires Shape(p) && w < |p.workers| && !p.workers[w].pc.Waiting?
    ensures Shape(Turn(p, w))
  {
    var q := Turn(p, w);
    assert InPosition(q.workers, q.nextId) by {
      assert q.workers == p.workers[w := p.workers[w].(pc := q.workers[w].pc)];
    }
    assert Fifo(q);
    assert InHand(q) by {
      assert q.workers[w].pc.Waiting? || q.workers[w].pc.task == p.workers[w].pc.task;
    }
  }

  lemma TurnKeepsShape(p: Pool, w: nat)
    requires Shape(p) && w < |p.workers|
    ensures Shape(Turn(p, w))
  {
    if !p.workers[w].pc.Waiting? {
      BusyTurnKeepsShape(p, w);
    } else if Leaving(p, w) {
      LeaveKeepsShape(p, w);
    } else if p.queue != [] {
      TakeKeepsShape(p, w);
    }
  }

  lemma NextKeepsInFlight(p: Pool, e: Event)
    requires Shape(p) && p.inFlight == |p.queue| + Busy(p.workers)
    ensures Next(p, e).inFlight == |Next(p, e).queue| + Busy(Next(p, e).workers)
  {
    match e
    case SetPoolSize(size) =>
      AddedWorkersIdle(p.workers, p.nextId, if size < 1 then 1 else size, 0);
    case WorkerTurn(w) =>
      if w < |p.workers| {
        TurnKeepsInFlight(p, w);
      }
    case _ =>
  }

  lemma TurnKeepsInFlight(p: Pool, w: nat)
    requires Shape(p) && p.inFlight == |p.queue| + Busy(p.workers) && w < |p.workers|
    ensures Turn(p, w).inFlight == |Turn(p, w).queue| + Busy(Turn(p, w).workers)
  {
    var me := p.workers[w];
    match me.pc
    case Waiting =>
      if !Leaving(p, w) && p.queue != [] {
        SetBusy(p.workers, w, me.(pc := Holding(p.queue[0])));
      } else if Leaving(p, w) && w == |p.workers| - 1 {
        assert Busy(p.workers[..w]) == Busy(p.workers);
      }
    case Holding(t) =>
      SetBusy(p.workers, w, me.(pc := Running(t)));
    case Running(t) =>
      SetBusy(p.workers, w, me.(pc := Finished(t)));
    case Finished(t) =>
      SetBusy(p.workers, w, me.(pc := Waiting));
  }

  lemma NextKeepsAccounted(p: Pool, e: Event, task: nat)
    requires Shape(p) && Accounted(p, task)
    ensures Accounted(Next(p, e), task)
  {
    match e
    case SetPoolSize(size) =>
      AddedWorkersIdle(p.workers, p.nextId, if size < 1 then 1 else size, task);
    case WorkerTurn(w) =>
      if w < |p.workers| {
        TurnKeepsAccounted(p, w, task);
      }
    case _ =>
  }

  lemma TurnKeepsAccounted(p: Pool, w: nat, task: nat)
    requires Shape(p) && Accounted(p, task) && w < |p.workers|
    ensures Accounted(Turn(p, w), task)
  {
    var me := p.workers[w];
    match me.pc
    case Waiting =>
      if !Leaving(p, w) && p.queue != [] {
        SetHeld(p.workers, w, me.(pc := Holding(p.queue[0])), task);
        CountAppend(p.taken, p.queue[0], task);
      } else if Leaving(p, w) && w == |p.workers| - 1 {
        assert Held(p.workers[..w], task) == Held(p.workers, task);
      }
    case Holding(t) =>
      SetHeld(p.workers, w, me.(pc := Running(t)), task);
      CountAppend(p.started, t, task);
    case Running(t) =>
      SetHeld(p.workers, w, me.(pc := Finished(t)), task);
    case Finished(t) =>
      SetHeld(p.workers, w, me.(pc := Waiting), task);
  }

  lemma CountAppend(s: seq<nat>, x: nat, task: nat)
    ensures multiset(s + [x])[task] == multiset(s)[task] + (if x == task then 1 else 0)
  {
  }

  lemma NextKeepsInv(p: Pool, e: Event)
    requires Inv(p)
    ensures Inv(Next(p, e))
  {
    NextKeepsShape(p, e);
    NextKeepsInFlight(p, e);
    forall task: nat ensures Accounted(Next(p, e), task) {
      NextKeepsAccounted(p, e, task);
    }
  }

  /** In every run of a pool with at least one thread. */
  lemma {:induction false} EveryRunKeepsInv(threads: nat, events: seq<Event>)
    requires threads >= 1
    ensures Inv(Run(Initial(threads), events))
  {
    if events == [] {
      InitialInv(threads);
    } else {
      EveryRunKeepsInv(threads, events[..|events| - 1]);
      NextKeepsInv(Run(Initial(threads), events[..|events| - 1]), events[|events| - 1]);
    }
  }

  /** No task is started twice, and none that was not accepted. */
  lemma StartedAtMostOnce(threads: nat, events: seq<Event>, task: nat)
    requires threads >= 1
    ensures multiset(Run(Initial(threads), events).started)[task] <= 1
    ensures task in Run(Initial(threads), events).started ==> task in Run(Initial(threads), events).accepted
  {
    EveryRunKeepsInv(threads, events);
    var p := Run(Initial(threads), events);
    forall k | 0 <= k < |p.taken| ensures p.taken[k] == k {
      assert p.accepted[k] == k;
    }
    DistinctCount(p.taken, task);
    assert Accounted(p, task);
    if task in p.started {
      assert task in multiset(p.started) && task in multiset(p.taken);
      var k :| 0 <= k < |p.taken| && p.taken[k] == task;
      assert p.accepted[k] == task;
    }
  }

  lemma {:induction false} DistinctCount(s: seq<nat>, x: nat)
    requires forall i :: 0 <= i < |s| ==> s[i] == i
    ensures multiset(s)[x] <= 1
  {
    if s != [] {
      var front, last := s[..|s| - 1], s[|s| - 1];
      DistinctCount(front, x);
      assert s == front + [last];
      assert last !in front;
    }
  }

  /** Only the last worker leaves, and worker 0 stays until the pool is stopped. */
  lemma OnlyTheLastLeaves(p: Pool, e: Event)
    requires Inv(p) && |Next(p, e).workers| < |p.workers|
    ensures e == WorkerTurn(|p.workers| - 1) && Next(p, e).workers == p.workers[..|p.workers| - 1]
    ensures p.workers[|p.workers| - 1].pc.Waiting? && (!p.stop ==> |p.workers| > 1)
  {
  }

  /** When the destructor stops waiting, every accepted task was started and nothing is in flight. */
  lemma DestructorLeavesNothing(threads: nat, events: seq<Event>)
    requires threads >= 1 && DestructorReturns(Run(Initial(threads), events))
    ensures Run(Initial(threads), events).queue == [] && Run(Initial(threads), events).inFlight == 0
    ensures multiset(Run(Initial(threads), events).started) == multiset(Run(Initial(threads), events).accepted)
  {
    EveryRunKeepsInv(threads, events);
    var p := Run(Initial(threads), events);
    assert p.accepted == p.taken;
    forall task: nat ensures multiset(p.started)[task] == multiset(p.accepted)[task] {
      assert Accounted(p, task);
    }
  }

  /** With no thread at all the destructor returns although a task is still queued. */
  lemma PoolWithoutThreadsLosesTask()
    ensures DestructorReturns(Run(Initial(0), [EnqueueCall, Destroy]))
    ensures Run(Initial(0), [EnqueueCall, Destroy]).inFlight == 1
  {
    var start := Initial(0);
    var events := [EnqueueCall, Destroy];
    assert events[..1] == [EnqueueCall] && [EnqueueCall][..0] == [];
    assert Run(start, []) == start;
    assert Run(start, [EnqueueCall]) == Accept(start);
    assert Run(start, events) == Next(Run(start, events[..1]), Destroy);
  }

  /** One thread at construction is exactly what it takes for the destructor to leave nothing in flight. */
  lemma NothingLostIffOneThread(threads: nat)
    ensures (forall events: seq<Event> :: DestructorReturns(Run(Initial(threads), events)) ==>
             Run(Initial(threads), events).inFlight == 0)
            <==> threads >= 1
  {
    if threads >= 1 {
      forall events: seq<Event> | DestructorReturns(Run(Initial(threads), events))
        ensures Run(Initial(threads), events).inFlight == 0 {
        DestructorLeavesNothing(threads, events);
      }
    } else {
      PoolWithoutThreadsLosesTask();
    }
  }

  // ---------- Rounds ----------

  /** A stretch of events in which each of the first few workers has a turn. */
  predicate FullRound(events: seq<Event>, count: nat) {
    forall w: nat :: w < count ==> WorkerTurn(w) in events
  }

  lemma {:induction false} RunConcat(p: Pool, first: seq<Event>, second: seq<Event>)
    ensures Run(p, first + second) == Run(Run(p, first), second)
  {
    if second == [] {
      assert first + second == first;
    } else {
      var last := |second| - 1;
      assert (first + second)[..|first| + last] == first + second[..last];
      RunConcat(p, first, second[..last]);
    }
  }

  function Flatten(rounds: seq<seq<Event>>): seq<Event> {
    if rounds == [] then [] else rounds[0] + Flatten(rounds[1..])
  }

  // ---------- Every task runs ----------

  function StepsLeft(pc: Pc): nat {
    match pc
    case Waiting => 0
    case Holding(_) => 3
    case Running(_) => 2
    case Finished(_) => 1
  }

  /** The worker has one of the first n tasks. */
  predicate Works(w: Worker, n: nat) {
    !w.pc.Waiting? && w.pc.task < n
  }

  /** The turns that the workers still need for those of the first n tasks that they have taken. */
  function Share(workers: seq<Worker>, n: nat): nat {
    if workers == [] then 0
    else
      var last := workers[|workers| - 1];
      Share(workers[..|workers| - 1], n) + (if Works(last, n) then StepsLeft(last.pc) else 0)
  }

  /** The turns that the first n tasks still need. */
  function Left(p: Pool, n: nat): nat {
    4 * (if |p.taken| < n then n - |p.taken| else 0) + Share(p.workers, n)
  }

  lemma {:induction false} ShareBound(workers: seq<Worker>, n: nat)
    ensures Share(workers, n) <= 3 * |workers|
    ensures Share(workers, n) == 0 <==> forall w :: 0 <= w < |workers| ==> !Works(workers[w], n)
  {
    if workers != [] {
      var front := workers[..|workers| - 1];
      ShareBound(front, n);
      if Share(workers, n) == 0 {
        forall w | 0 <= w < |workers| ensures !Works(workers[w], n) {
          assert w < |front| ==> workers[w] == front[w];
        }
      }
    }
  }

  lemma {:induction false} SetShare(workers: seq<Worker>, i: nat, w: Worker, n: nat)
    requires i < |workers|
    ensures Share(workers[i := w], n) + (if Works(workers[i], n) then StepsLeft(workers[i].pc) else 0)
            == Share(workers, n) + (if Works(w, n) then StepsLeft(w.pc) else 0)
  {
    var last := |workers| - 1;
    if i == last {
      assert workers[i := w][..last] == workers[..last];
    } else {
      assert workers[i := w][..last] == workers[..last][i := w];
      SetShare(workers[..last], i, w, n);
    }
  }

  lemma {:induction false} AddedShare(workers: seq<Worker>, nextId: nat, size: nat, n: nat)
    ensures Share(AddWorkers(workers, nextId, size), n) == Share(workers, n)
    decreases size - |workers|
  {
    if |workers| < size {
      var more := workers + [Worker(nextId, |workers|, Waiting)];
      assert more[..|workers|] == workers;
      AddedShare(more, nextId + 1, size, n);
    }
  }

  /** Worker w is the one to bring the first n tasks forward. */
  predicate Due(p: Pool, w: nat, n: nat) {
    && w < |p.workers|
    && (Works(p.workers[w], n) || (w == 0 && p.workers[w].pc.Waiting? && |p.taken| < n))
  }

  /** As long as something is left, there is such a worker. */
  lemma SomebodyIsDue(p: Pool, n: nat) returns (w: nat)
    requires Inv(p) && n <= |p.accepted| && Left(p, n) > 0
    ensures Due(p, w, n)
  {
    ShareBound(p.workers, n);
    if v :| 0 <= v < |p.workers| && Works(p.workers[v], n) {
      return v;
    }
    assert p.queue != [];
    return 0;
  }

  /** No event puts the first n tasks back; a turn of a worker that is due brings them forward. */
  lemma TurnLeft(p: Pool, w: nat, n: nat)
    requires Inv(p) && n <= |p.accepted| && w < |p.workers|
    ensures Left(Turn(p, w), n) <= Left(p, n)
    ensures Due(p, w, n) ==> Left(Turn(p, w), n) < Left(p, n)
    ensures Left(Turn(p, w), n) == Left(p, n) ==> forall v :: Due(p, v, n) ==> Due(Turn(p, w), v, n)
  {
    var me := p.workers[w];
    match me.pc
    case Waiting =>
      if Leaving(p, w) {
        assert w == |p.workers| - 1 ==> Share(p.workers[..w], n) == Share(p.workers, n);
      } else if p.queue != [] {
        assert p.accepted[|p.taken|] == p.queue[0];
        SetShare(p.workers, w, me.(pc := Holding(p.queue[0])), n);
      }
    case Holding(task) => SetShare(p.workers, w, me.(pc := Running(task)), n);
    case Running(task) => SetShare(p.workers, w, me.(pc := Finished(task)), n);
    case Finished(task) => SetShare(p.workers, w, me.(pc := Waiting), n);
  }

  lemma NextLeft(p: Pool, e: Event, n: nat)
    requires Inv(p) && n <= |p.accepted|
    ensures n <= |Next(p, e).accepted| && p.accepted <= Next(p, e).accepted && Left(Next(p, e), n) <= Left(p, n)
    ensures e.WorkerTurn? && Due(p, e.position, n) ==> Left(Next(p, e), n) < Left(p, n)
    ensures Left(Next(p, e), n) == Left(p, n) ==> forall v :: Due(p, v, n) ==> Due(Next(p, e), v, n)
  {
    match e
    case SetPoolSize(size) =>
      AddedWorkersIdle(p.workers, p.nextId, if size < 1 then 1 else size, 0);
      AddedWorkersWait(p.workers, p.nextId, if size < 1 then 1 else size);
      AddedShare(p.workers, p.nextId, if size < 1 then 1 else size, n);
    case WorkerTurn(w) =>
      if w < |p.workers| {
        TurnLeft(p, w, n);
      }
    case _ =>
  }

  /** Until the first n tasks get forward, the same worker is due. */
  lemma {:induction false} StillDue(p: Pool, events: seq<Event>, w: nat, n: nat)
    requires Inv(p) && n <= |p.accepted|
    ensures Inv(Run(p, events)) && p.accepted <= Run(p, events).accepted && Left(Run(p, events), n) <= Left(p, n)
    ensures Due(p, w, n) ==> Left(Run(p, events), n) < Left(p, n) || Due(Run(p, events), w, n)
    ensures Due(p, w, n) && WorkerTurn(w) in events ==> Left(Run(p, events), n) < Left(p, n)
  {
    if events != [] {
      var front, e := events[..|events| - 1], events[|events| - 1];
      assert events == front + [e];
      StillDue(p, front, w, n);
      NextKeepsInv(Run(p, front), e);
      NextLeft(Run(p, front), e, n);
    }
  }

  /** Each round gives a turn to every worker that is there when it starts. */
  predicate Rounds(p: Pool, rounds: seq<seq<Event>>)
    decreases |rounds|
  {
    rounds == [] || (FullRound(rounds[0], |p.workers|) && Rounds(Run(p, rounds[0]), rounds[1..]))
  }

  lemma {:induction false} RoundsFinish(p: Pool, rounds: seq<seq<Event>>, n: nat)
    requires Inv(p) && n <= |p.accepted| && Rounds(p, rounds) && |rounds| >= Left(p, n)
    ensures Inv(Run(p, Flatten(rounds))) && p.accepted <= Run(p, Flatten(rounds)).accepted
    ensures Left(Run(p, Flatten(rounds)), n) == 0
    decreases |rounds|
  {
    if Left(p, n) == 0 {
      StillDue(p, Flatten(rounds), 0, n);
    } else {
      var w := SomebodyIsDue(p, n);
      StillDue(p, rounds[0], w, n);
      RoundsFinish(Run(p, rounds[0]), rounds[1..], n);
      RunConcat(p, rounds[0], Flatten(rounds[1..]));
    }
  }

  /** Executed once: started exactly once, and neither queued nor with any worker. */
  predicate Done(p: Pool, task: nat) {
    && multiset(p.started)[task] == 1 && task !in p.queue
    && forall w :: 0 <= w < |p.workers| && !p.workers[w].pc.Waiting? ==> p.workers[w].pc.task != task
  }

  /**
   In a running pool, a stopped one, or one that is resized meanwhile: once every worker has had its turn
   often enough, every task that was accepted before has been executed exactly once.
   */
  lemma EveryTaskRuns(p: Pool, rounds: seq<seq<Event>>)
    requires Inv(p) && Rounds(p, rounds) && |rounds| >= 4 * |p.queue| + 3 * |p.workers|
    ensures forall task :: task in p.accepted ==> Done(Run(p, Flatten(rounds)), task)
  {
    var n, q := |p.accepted|, Run(p, Flatten(rounds));
    ShareBound(p.workers, n);
    RoundsFinish(p, rounds, n);
    ShareBound(q.workers, n);
    forall task | task in p.accepted ensures Done(q, task) {
      LeftNothing(q, n, task);
    }
  }

  lemma LeftNothing(p: Pool, n: nat, task: nat)
    requires Inv(p) && n <= |p.accepted| && Left(p, n) == 0 && task < n
    ensures Done(p, task)
  {
    ShareBound(p.workers, n);
    forall k | 0 <= k < |p.taken| ensures p.taken[k] == k {
      assert p.accepted[k] == k;
    }
    forall k | 0 <= k < |p.queue| ensures p.queue[k] == |p.taken| + k {
      assert p.accepted[|p.taken| + k] == p.queue[k];
    }
    DistinctCount(p.taken, task);
    assert p.taken[task] == task;
    NobodyHolds(p.workers, task);
    assert Accounted(p, task);
  }

  lemma {:induction false} NobodyHolds(workers: seq<Worker>, task: nat)
    requires forall w :: 0 <= w < |workers| ==> workers[w].pc != Holding(task)
    ensures Held(workers, task) == 0
  {
    if workers != [] {
      NobodyHolds(workers[..|workers| - 1], task);
    }
  }

  predicate NoProducers(events: seq<Event>) {
    EnqueueCall !in events && ProducerWakes !in events
  }

  lemma {:induction false} NothingAccepted(p: Pool, events: seq<Event>)
    requires NoProducers(events)
    ensures Run(p, events).accepted == p.accepted
  {
    if events != [] {
      assert forall e :: e in events[..|events| - 1] ==> e in events;
      NothingAccepted(p, events[..|events| - 1]);
      assert events[|events| - 1] in events;
    }
  }

  lemma {:induction false} NobodyWorks(workers: seq<Worker>)
    requires forall w :: 0 <= w < |workers| ==> workers[w].pc.Waiting?
    ensures Busy(workers) == 0
  {
    if workers != [] {
      NobodyWorks(workers[..|workers| - 1]);
    }
  }

  /** If no producer comes in between, the queue is then empty and nothing is in flight. */
  lemma PoolDrains(p: Pool, rounds: seq<seq<Event>>)
    requires Inv(p) && Rounds(p, rounds) && |rounds| >= 4 * |p.queue| + 3 * |p.workers| && NoProducers(Flatten(rounds))
    ensures Run(p, Flatten(rounds)).queue == [] && Run(p, Flatten(rounds)).inFlight == 0
  {
    var n, q := |p.accepted|, Run(p, Flatten(rounds));
    ShareBound(p.workers, n);
    RoundsFinish(p, rounds, n);
    ShareBound(q.workers, n);
    NothingAccepted(p, Flatten(rounds));
    assert forall w :: 0 <= w < |q.workers| ==> !Works(q.workers[w], n);
    NobodyWorks(q.workers);
  }

  // ---------- Shutdown ----------

  function WorkLeft(workers: seq<Worker>): nat {
    if workers == [] then 0 else WorkLeft(workers[..|workers| - 1]) + StepsLeft(workers[|workers| - 1].pc) + 1
  }

  /** How many worker turns a stopped pool still has to make. */
  function Rank(p: Pool): nat {
    4 * |p.queue| + WorkLeft(p.workers)
  }

  lemma {:induction false} SetWorkLeft(workers: seq<Worker>, i: nat, w: Worker)
    requires i < |workers|
    ensures WorkLeft(workers[i := w]) + StepsLeft(workers[i].pc) == WorkLeft(workers) + StepsLeft(w.pc)
  {
    var n := |workers| - 1;
    if i == n {
      assert workers[i := w][..n] == workers[..n];
    } else {
      assert workers[i := w][..n] == workers[..n][i := w];
      SetWorkLeft(workers[..n], i, w);
    }
  }

  /** After shutdown began, a worker's turn changes nothing or brings the end nearer by one. */
  lemma ShutdownProgress(p: Pool, w: nat)
    requires Inv(p) && p.stop && w < |p.workers|
    ensures Turn(p, w) == p || Rank(Turn(p, w)) == Rank(p) - 1
    ensures !p.workers[w].pc.Waiting? || p.queue != [] || w == |p.workers| - 1 ==> Turn(p, w) != p
  {
    var me := p.workers[w];
    match me.pc
    case Waiting =>
      if p.queue != [] {
        SetWorkLeft(p.workers, w, me.(pc := Holding(p.queue[0])));
        assert |Turn(p, w).queue| < |p.queue|;
      }
    case Holding(task) =>
      SetWorkLeft(p.workers, w, me.(pc := Running(task)));
      assert Turn(p, w).workers[w] != me;
    case Running(task) =>
      SetWorkLeft(p.workers, w, me.(pc := Finished(task)));
      assert Turn(p, w).workers[w] != me;
    case Finished(task) =>
      SetWorkLeft(p.workers, w, me.(pc := Waiting));
      assert Turn(p, w).workers[w] != me;
  }

  /** Shutdown never gets stuck: there is always a worker whose turn changes something. */
  lemma ShutdownNotStuck(p: Pool) returns (w: nat)
    requires Inv(p) && p.stop && p.workers != []
    ensures w < |p.workers| && Rank(Turn(p, w)) < Rank(p)
  {
    w := |p.workers| - 1;
    ShutdownProgress(p, w);
  }

  /** No other event undoes the progress. */
  lemma OthersKeepRank(p: Pool, e: Event)
    requires Inv(p) && p.stop && !e.WorkerTurn?
    ensures Rank(Next(p, e)) == Rank(p) && Next(p, e).stop && Next(p, e).accepted == p.accepted
    ensures Next(p, e).workers == p.workers
  {
  }

  lemma ShutdownStep(p: Pool, e: Event)
    requires Inv(p) && p.stop
    ensures Inv(Next(p, e)) && Next(p, e).stop && Next(p, e).accepted == p.accepted
    ensures Rank(p) == Rank(Next(p, e)) + (if e.WorkerTurn? && Next(p, e) != p then 1 else 0)
    ensures |Next(p, e).workers| <= |p.workers|
    ensures !e.WorkerTurn? || Next(p, e) == p ==> Next(p, e).workers == p.workers
  {
    NextKeepsInv(p, e);
    if !e.WorkerTurn? {
      OthersKeepRank(p, e);
    } else if e.position < |p.workers| {
      ShutdownProgress(p, e.position);
    }
  }

  /** How many events of a run are turns of a worker that change the pool. */
  function ChangingTurns(p: Pool, events: seq<Event>): nat {
    if events == [] then 0
    else
      var (q, e) := (Run(p, events[..|events| - 1]), events[|events| - 1]);
      ChangingTurns(p, events[..|events| - 1]) + (if e.WorkerTurn? && Next(q, e) != q then 1 else 0)
  }

  /**
   After shutdown began, every run contains at most Rank(p) turns that change the pool, whatever
   producers and resizing do in between; what is left of the rank is what the workers still have to do.
   */
  lemma {:induction false} ShutdownIsBounded(p: Pool, events: seq<Event>)
    requires Inv(p) && p.stop
    ensures Inv(Run(p, events)) && Run(p, events).stop && Run(p, events).accepted == p.accepted
    ensures ChangingTurns(p, events) + Rank(Run(p, events)) == Rank(p)
    ensures |Run(p, events).workers| <= |p.workers|
    ensures ChangingTurns(p, events) == 0 ==> Run(p, events).workers == p.workers
  {
    if events != [] {
      ShutdownIsBounded(p, events[..|events| - 1]);
      ShutdownStep(Run(p, events[..|events| - 1]), events[|events| - 1]);
    }
  }

  /** The destructor returns exactly when that many changing turns were made. */
  lemma DestructorReturnsIff(p: Pool, events: seq<Event>)
    requires Inv(p) && p.stop
    ensures DestructorReturns(Run(p, events)) <==> ChangingTurns(p, events) == Rank(p)
  {
    ShutdownIsBounded(p, events);
    var q := Run(p, events);
    if Rank(q) == 0 {
      assert q.workers == [];
    }
  }

  /** A turn of the last worker changes the pool, if no other turn did before. */
  lemma {:induction false} LastWorkerActs(p: Pool, events: seq<Event>)
    requires Inv(p) && p.stop && p.workers != [] && WorkerTurn(|p.workers| - 1) in events
    ensures ChangingTurns(p, events) > 0
  {
    var front, e := events[..|events| - 1], events[|events| - 1];
    assert events == front + [e];
    ShutdownIsBounded(p, front);
    if e == WorkerTurn(|p.workers| - 1) {
      if ChangingTurns(p, front) == 0 {
        ShutdownProgress(Run(p, front), |p.workers| - 1);
      }
    } else {
      LastWorkerActs(p, front);
    }
  }

  /** However often producers and resizing interfere, the destructor returns after Rank(p) rounds of the workers. */
  lemma {:induction false} FairShutdownReturns(p: Pool, rounds: seq<seq<Event>>)
    requires Inv(p) && p.stop && |rounds| >= Rank(p)
    requires forall k :: 0 <= k < |rounds| ==> FullRound(rounds[k], |p.workers|)
    ensures DestructorReturns(Run(p, Flatten(rounds)))
    decreases |rounds|
  {
    if Rank(p) == 0 {
      ShutdownIsBounded(p, Flatten(rounds));
      DestructorReturnsIff(p, Flatten(rounds));
    } else {
      var n := Run(p, rounds[0]);
      ShutdownIsBounded(p, rounds[0]);
      if p.workers != [] {
        assert FullRound(rounds[0], |p.workers|);
        LastWorkerActs(p, rounds[0]);
      }
      forall k | 0 <= k < |rounds[1..]| ensures FullRound(rounds[1..][k], |n.workers|) {
        assert rounds[1..][k] == rounds[k + 1];
      }
      FairShutdownReturns(n, rounds[1..]);
      RunConcat(p, rounds[0], Flatten(rounds[1..]));
    }
  }

  /** How many calls of enqueue the events contain. */
  function Calls(events: seq<Event>): nat {
    multiset(events)[EnqueueCall]
  }

  lemma OneCallCounts(p: Pool, e: Event)
    requires !p.stop && e != Destroy
    ensures var q := Next(p, e);
            && !q.stop
            && |q.accepted| + q.blockedProducers
               == |p.accepted| + p.blockedProducers + (if e == EnqueueCall then 1 else 0)
  {
  }

  /** Until the pool is stopped, every call of enqueue has been accepted or is blocked. */
  lemma {:induction false} EveryCallCounts(p: Pool, events: seq<Event>)
    requires !p.stop && Destroy !in events
    ensures var q := Run(p, events);
            !q.stop && |q.accepted| + q.blockedProducers == |p.accepted| + p.blockedProducers + Calls(events)
  {
    if events != [] {
      var front, e := events[..|events| - 1], events[|events| - 1];
      assert events == front + [e] && multiset(events) == multiset(front) + multiset{e};
      EveryCallCounts(p, front);
      OneCallCounts(Run(p, front), e);
    }
  }

  predicate NoLimits(events: seq<Event>) {
    forall e :: e in events ==> !e.SetQueueSizeLimit?
  }

  /** The queue keeps within its limit and nobody is blocked. */
  predicate Unblocked(p: Pool) {
    p.blockedProducers == 0 && p.maxQueueSize >= 1 && |p.queue| <= p.maxQueueSize
  }

  lemma NextUnblocked(p: Pool, e: Event)
    requires Unblocked(p) && !e.SetQueueSizeLimit?
    ensures Unblocked(Next(p, e))
  {
  }

  /** As a full queue doubles its limit, no producer is ever blocked unless somebody sets the limit. */
  lemma {:induction false} NobodyIsBlocked(threads: nat, events: seq<Event>)
    requires NoLimits(events)
    ensures Unblocked(Run(Initial(threads), events))
  {
    if events != [] {
      var front, e := events[..|events| - 1], events[|events| - 1];
      assert e in events && forall f :: f in front ==> f in events;
      NobodyIsBlocked(threads, front);
      NextUnblocked(Run(Initial(threads), front), e);
    }
  }

  /** A blocked producer gets in once the workers have had their turns. */
  lemma BlockedProducerGetsIn(p: Pool, rounds: seq<seq<Event>>)
    requires Inv(p) && Rounds(p, rounds) && |rounds| >= 4 * |p.queue| + 3 * |p.workers| && NoProducers(Flatten(rounds))
    requires !p.stop && Destroy !in Flatten(rounds) && p.blockedProducers > 0
    ensures |Run(p, Flatten(rounds) + [ProducerWakes]).accepted| == |p.accepted| + 1
  {
    var events := Flatten(rounds);
    PoolDrains(p, rounds);
    NothingAccepted(p, events);
    EveryCallCounts(p, events);
    StillDue(p, events, 0, 0);
    assert Calls(events) == 0;
    WakeAccepts(Run(p, events));
    RunOne(p, events, ProducerWakes);
  }

  lemma WakeAccepts(p: Pool)
    requires Shape(p) && !p.stop && p.blockedProducers > 0 && p.queue == []
    ensures |Next(p, ProducerWakes).accepted| == |p.accepted| + 1
  {
  }

  lemma RunOne(p: Pool, events: seq<Event>, e: Event)
    ensures Run(p, events + [e]) == Next(Run(p, events), e)
  {
    assert (events + [e])[..|events|] == events;
  }

  // ---------- Resizing ----------

  /** The turns that the workers beyond the pool's size still need. */
  function Excess(p: Pool): nat {
    if |p.workers| <= p.poolSize then 0 else WorkLeft(p.workers[p.poolSize..])
  }

  lemma {:induction false} WorkLeftBound(workers: seq<Worker>)
    ensures |workers| <= WorkLeft(workers) <= 4 * |workers|
  {
    if workers != [] {
      WorkLeftBound(workers[..|workers| - 1]);
    }
  }

  lemma TurnExcess(p: Pool, w: nat)
    requires Inv(p) && !p.stop && w < |p.workers|
    ensures Excess(Turn(p, w)) <= Excess(p) && Turn(p, w).poolSize == p.poolSize
    ensures w == |p.workers| - 1 && |p.workers| > p.poolSize ==> Excess(Turn(p, w)) < Excess(p)
    ensures Excess(Turn(p, w)) == Excess(p) ==> |Turn(p, w).workers| == |p.workers|
  {
    var q, s := Turn(p, w), p.poolSize;
    if |q.workers| < |p.workers| {
      assert p.workers[s..][..|p.workers| - 1 - s] == q.workers[s..];
    } else if s <= w {
      assert q.workers[s..] == p.workers[s..][w - s := q.workers[w]];
      SetWorkLeft(p.workers[s..], w - s, q.workers[w]);
    } else {
      assert q.workers[s..] == p.workers[s..];
    }
  }

  predicate NoResizing(events: seq<Event>) {
    Destroy !in events && forall e :: e in events ==> !e.SetPoolSize?
  }

  /** Until the excess gets smaller the number of workers stays. */
  lemma {:induction false} ExcessFalls(p: Pool, events: seq<Event>)
    requires Inv(p) && !p.stop && NoResizing(events)
    ensures var q := Run(p, events);
            && Inv(q) && !q.stop && q.poolSize == p.poolSize && Excess(q) <= Excess(p)
            && (Excess(q) == Excess(p) ==> |q.workers| == |p.workers|)
    ensures Excess(p) > 0 && WorkerTurn(|p.workers| - 1) in events ==> Excess(Run(p, events)) < Excess(p)
  {
    if events != [] {
      var front, e := events[..|events| - 1], events[|events| - 1];
      assert events == front + [e];
      ExcessFalls(p, front);
      var q := Run(p, front);
      NextKeepsInv(q, e);
      if e.WorkerTurn? && e.position < |q.workers| {
        TurnExcess(q, e.position);
      }
    }
  }

  lemma {:induction false} RoundsResize(p: Pool, rounds: seq<seq<Event>>)
    requires Inv(p) && !p.stop && Rounds(p, rounds) && NoResizing(Flatten(rounds)) && |rounds| >= Excess(p)
    ensures |Run(p, Flatten(rounds)).workers| == p.poolSize
    decreases |rounds|
  {
    if Excess(p) == 0 {
      ExcessFalls(p, Flatten(rounds));
      WorkLeftBound(p.workers[p.poolSize..]);
    } else {
      assert forall e :: e in rounds[0] || e in Flatten(rounds[1..]) ==> e in Flatten(rounds);
      ExcessFalls(p, rounds[0]);
      RoundsResize(Run(p, rounds[0]), rounds[1..]);
      RunConcat(p, rounds[0], Flatten(rounds[1..]));
    }
  }

  /** After a call of set_pool_size, and once the workers have had their turns, the pool has that many workers. */
  lemma ResizeTakesEffect(p: Pool, size: nat, rounds: seq<seq<Event>>)
    requires Inv(p) && !p.stop && Rounds(Next(p, SetPoolSize(size)), rounds) && NoResizing(Flatten(rounds))
    requires |rounds| >= 4 * |p.workers|
    ensures |Run(Next(p, SetPoolSize(size)), Flatten(rounds)).workers| == if size < 1 then 1 else size
  {
    var q := Next(p, SetPoolSize(size));
    NextKeepsInv(p, SetPoolSize(size));
    WorkLeftBound(q.workers[q.poolSize..]);
    RoundsResize(q, rounds);
  }
}

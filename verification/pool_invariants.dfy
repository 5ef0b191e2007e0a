/** What every transition of the pool preserves, and what holds of every
    sequence of transitions: the bookkeeping invariant, FIFO conservation of
    tasks, the fixed-mode workforce and the cached-mode ceiling. Also the
    discrepancy between how `start` registers and how it launches workers. */
module PoolInvariants {
  import opened CppInts
  import opened Futures
  import opened ThreadPool

  /** The bookkeeping invariant: `taskSize_` counts the queue, the thread
      counters count the registry and its idle part, every registered id was
      handed out by the counter, the initial workers are never retired below
      `initThreadSize_`, and every queued task has a result to deliver to. */
  ghost predicate Inv(p: Pool)
  {
    Counted(p) && p.curSize >= p.initSize
  }

  /** The invariant less its floor on the thread count. */
  ghost predicate Counted(p: Pool)
  {
    && p.taskSize == |p.queue|
    && p.curSize == |p.workers|
    && p.idleSize == |IdleWorkers(p.workers)|
    && (forall id :: id in p.workers ==> id < p.nextId)
    && (forall i :: 0 <= i < |p.queue| ==> p.queue[i].hasResult)
  }

  lemma SubsetCardinality(a: set<nat>, b: set<nat>)
    requires a <= b
    ensures |a| <= |b|
  {
    assert b == a + (b - a);
  }

  /** Under the invariant no counter is negative and `idle <= cur`. */
  lemma InvBoundsCounters(p: Pool)
    requires Inv(p)
    ensures 0 <= p.idleSize <= p.curSize
    ensures 0 <= p.taskSize
  {
    SubsetCardinality(IdleWorkers(p.workers), p.workers.Keys);
  }

  lemma NewPoolInv(idBase: nat)
    ensures Inv(NewPool(idBase))
  {
  }

  lemma SpawnInv(p: Pool)
    requires Counted(p)
    ensures Counted(Spawn(p))
  {
    var q := Spawn(p);
    assert p.nextId !in p.workers;
    assert IdleWorkers(q.workers) == IdleWorkers(p.workers) + {p.nextId};
  }

  lemma {:induction false} SpawnManyInv(p: Pool, k: nat)
    requires Counted(p)
    ensures Counted(SpawnMany(p, k).pool)
    decreases k
  {
    if k > 0 {
      var before := SpawnMany(p, k - 1).pool;
      SpawnManyInv(p, k - 1);
      SpawnInv(before);
      assert SpawnMany(p, k).pool == Spawn(before);
    }
  }

  lemma StartInv(p: Pool, n: Int32)
    requires Inv(p)
    ensures Inv(Start(p, n))
  {
    InvBoundsCounters(p);
    SpawnManyInv(p.(running := true, initSize := n), Rounds(n));
  }

  lemma SubmitInv(p: Pool, t: Task)
    requires Inv(p)
    ensures Inv(Submit(p, t).pool)
  {
    var s := Submit(p, t);
    if s.result.isValid {
      var q := p.(queue := p.queue + [t.(hasResult := true)], taskSize := p.taskSize + 1);
      assert Inv(q);
      if WantsGrowth(q) {
        SpawnInv(q);
      }
    }
  }

  lemma DequeueInv(p: Pool, w: nat)
    requires Inv(p) && w in p.workers && p.workers[w] == Idle
    ensures Dequeue(p, w).Took? ==> Inv(Dequeue(p, w).pool)
    ensures Dequeue(p, w).Took? ==> Dequeue(p, w).task.hasResult
  {
    var r := Dequeue(p, w);
    if r.Took? {
      assert IdleWorkers(r.pool.workers) == IdleWorkers(p.workers) - {w};
      assert forall i :: 0 <= i < |r.pool.queue| ==> r.pool.queue[i] == p.queue[i + 1];
    }
  }

  lemma FinishInv(p: Pool, w: nat)
    requires Inv(p) && w in p.workers && p.workers[w].Busy?
    ensures Inv(Finish(p, w))
  {
    assert IdleWorkers(Finish(p, w).workers) == IdleWorkers(p.workers) + {w};
  }

  lemma RetireInv(p: Pool, w: nat, idleSeconds: nat)
    requires Inv(p) && w in p.workers && p.workers[w] == Idle
    ensures Inv(Retire(p, w, idleSeconds))
  {
    var q := Retire(p, w, idleSeconds);
    if w !in q.workers {
      assert q.workers.Keys == p.workers.Keys - {w};
      assert IdleWorkers(q.workers) == IdleWorkers(p.workers) - {w};
    }
  }

  /** One thing that can happen to the pool: a call by the user, one step of
      the worker `worker`, or `count` threads created elsewhere in the
      process (by another pool), which moves the shared id counter. */
  datatype Event =
    | SetQueueCapE(threshhold: Int32)
    | SetThreadCapE(threshhold: Int32)
    | SetModeE(mode: PoolMode)
    | StartE(n: Int32)
    | SubmitE(task: Task)
    | DequeueE(worker: nat)
    | FinishE(worker: nat)
    | RetireE(worker: nat, idleSeconds: nat)
    | OtherThreadsE(count: nat)

  /** The pool after some events, the tasks the queue accepted and the tasks
      workers took from it, both in order. */
  datatype Trace = Trace(pool: Pool, accepted: seq<Task>, taken: seq<Task>)

  /** Apply one event. A worker step whose worker is not in the state that
      step needs (a dequeue by a busy or unknown worker, say) cannot occur
      and leaves the pool as it was. */
  function Apply(p: Pool, e: Event): Trace
  {
    match e
    case SetQueueCapE(x) => Trace(SetQueueCap(p, x), [], [])
    case SetThreadCapE(x) => Trace(SetThreadCap(p, x), [], [])
    case SetModeE(m) => Trace(SetMode(p, m), [], [])
    case StartE(n) => Trace(Start(p, n), [], [])
    case SubmitE(t) =>
      var s := Submit(p, t);
      Trace(s.pool, if s.result.isValid then [t.(hasResult := true)] else [], [])
    case DequeueE(w) =>
      if w in p.workers && p.workers[w] == Idle then
        match Dequeue(p, w)
        case Waits => Trace(p, [], [])
        case Took(q, t) => Trace(q, [], [t])
      else Trace(p, [], [])
    case FinishE(w) =>
      if w in p.workers && p.workers[w].Busy? then Trace(Finish(p, w), [], []) else Trace(p, [], [])
    case RetireE(w, secs) =>
      if w in p.workers && p.workers[w] == Idle then Trace(Retire(p, w, secs), [], []) else Trace(p, [], [])
    case OtherThreadsE(k) => Trace(OtherThreadsCreated(p, k), [], [])
  }

  function Run(p: Pool, es: seq<Event>): Trace
    decreases |es|
  {
    if |es| == 0 then Trace(p, [], [])
    else
      var s := Apply(p, es[0]);
      var r := Run(s.pool, es[1..]);
      Trace(r.pool, s.accepted + r.accepted, s.taken + r.taken)
  }

  /** Every event keeps the invariant, and the queue neither loses nor
      reorders tasks: what was taken followed by what is still queued equals
      what was queued before followed by what was accepted. */
  lemma ApplyKeeps(p: Pool, e: Event)
    requires Inv(p)
    ensures Inv(Apply(p, e).pool)
    ensures Apply(p, e).taken + Apply(p, e).pool.queue == p.queue + Apply(p, e).accepted
  {
    match e
    case SetQueueCapE(x) =>
    case SetThreadCapE(x) =>
    case SetModeE(m) =>
    case StartE(n) => StartInv(p, n);
    case SubmitE(t) => SubmitInv(p, t);
    case DequeueE(w) =>
      if w in p.workers && p.workers[w] == Idle {
        DequeueInv(p, w);
        if |p.queue| > 0 {
          assert [p.queue[0]] + p.queue[1..] == p.queue;
        }
      }
    case FinishE(w) =>
      if w in p.workers && p.workers[w].Busy? {
        FinishInv(p, w);
      }
    case RetireE(w, secs) =>
      if w in p.workers && p.workers[w] == Idle {
        RetireInv(p, w, secs);
      }
    case OtherThreadsE(k) =>
  }

  /** Queue conservation over two consecutive stretches composes: if the
      first stretch turns queue `q0` into `q1` while accepting `a1` and
      handing out `t1`, and the second turns `q1` into `q2` with `a2` and
      `t2`, then together they turn `q0` into `q2` with `a1 + a2` and
      `t1 + t2`. */
  lemma ConservationComposes(q0: seq<Task>, a1: seq<Task>, t1: seq<Task>, q1: seq<Task>,
                             a2: seq<Task>, t2: seq<Task>, q2: seq<Task>)
    requires t1 + q1 == q0 + a1
    requires t2 + q2 == q1 + a2
    ensures (t1 + t2) + q2 == q0 + (a1 + a2)
  {
    calc {
      (t1 + t2) + q2;
      t1 + (q1 + a2);
      (q0 + a1) + a2;
      q0 + (a1 + a2);
    }
  }

  lemma {:induction false} RunKeeps(p: Pool, es: seq<Event>)
    requires Inv(p)
    ensures Inv(Run(p, es).pool)
    ensures Run(p, es).taken + Run(p, es).pool.queue == p.queue + Run(p, es).accepted
    decreases |es|
  {
    if |es| > 0 {
      var s := Apply(p, es[0]);
      ApplyKeeps(p, es[0]);
      RunKeeps(s.pool, es[1..]);
      var r := Run(s.pool, es[1..]);
      assert Run(p, es) == Trace(r.pool, s.accepted + r.accepted, s.taken + r.taken);
      ConservationComposes(p.queue, s.accepted, s.taken, s.pool.queue, r.accepted, r.taken, r.pool.queue);
    }
  }

  /** From a new pool, whatever happens: the invariant holds, so
      `0 <= idle <= cur` and `taskSize == |queue|`; and workers take tasks
      exactly in the order the queue accepted them, none lost or repeated. */
  lemma Reachable(idBase: nat, es: seq<Event>)
    ensures Inv(Run(NewPool(idBase), es).pool)
    ensures var r := Run(NewPool(idBase), es);
            0 <= r.pool.idleSize <= r.pool.curSize
            && r.taken + r.pool.queue == r.accepted
  {
    NewPoolInv(idBase);
    RunKeeps(NewPool(idBase), es);
    InvBoundsCounters(Run(NewPool(idBase), es).pool);
  }

  predicate NoStart(es: seq<Event>)
  {
    forall i :: 0 <= i < |es| ==> !es[i].StartE?
  }

  /** Once a fixed-mode pool runs, no event other than another `start`
      changes its workforce: the counter of current threads and the set of
      registered workers stay as they are. */
  lemma {:induction false} FixedModeKeepsWorkforce(p: Pool, es: seq<Event>)
    requires p.running && p.mode == Fixed && NoStart(es)
    ensures Run(p, es).pool.curSize == p.curSize
    ensures Run(p, es).pool.workers.Keys == p.workers.Keys
    ensures Run(p, es).pool.mode == Fixed && Run(p, es).pool.running
    decreases |es|
  {
    if |es| > 0 {
      var s := Apply(p, es[0]);
      assert s.pool.curSize == p.curSize && s.pool.workers.Keys == p.workers.Keys;
      assert s.pool.mode == Fixed && s.pool.running;
      FixedModeKeepsWorkforce(s.pool, es[1..]);
    }
  }

  function Max(a: int, b: int): int
  {
    if a >= b then a else b
  }

  /** Once a pool runs, growth never takes the thread count past the
      ceiling: without another `start`, the count stays at or below the
      larger of its current value and the ceiling. */
  lemma {:induction false} GrowthBoundedByCeiling(p: Pool, es: seq<Event>)
    requires p.running && NoStart(es)
    ensures Run(p, es).pool.curSize <= Max(p.curSize, p.threadCap)
    ensures Run(p, es).pool.threadCap == p.threadCap && Run(p, es).pool.running
    decreases |es|
  {
    if |es| > 0 {
      var s := Apply(p, es[0]);
      assert s.pool.curSize <= Max(p.curSize, p.threadCap);
      assert s.pool.threadCap == p.threadCap && s.pool.running;
      GrowthBoundedByCeiling(s.pool, es[1..]);
    }
  }

  /** `start` as written launches the registered workers only when the
      thread id counter stands at zero: the loop counter `i` addresses
      `threads_[i]`, while the workers were registered under the counter's
      next values. */
  lemma StartAsWrittenLaunchesOwnWorkersIff(p: Pool, n: Int32)
    requires Inv(p) && n > 0
    ensures var q := Start(p, n);
            var ks := StartAsWrittenLaunches(n);
            (forall i :: 0 <= i < |ks| ==> ks[i] in q.workers && ks[i] !in p.workers)
            <==> p.nextId == 0
  {
    var q := Start(p, n);
    var ks := StartAsWrittenLaunches(n);
    if p.nextId != 0 {
      assert ks[0] == 0;
      assert 0 in q.workers ==> 0 in p.workers;
    }
  }

  /** A second pool in the same process: the first pool's `start(4)` moved
      the counter to 4, so this pool's `start(4)` registers workers 4..7 and
      then looks up `threads_[0]` .. `threads_[3]`, none of which exists; each
      lookup inserts a null pointer that `->start()` dereferences. */
  lemma SecondPoolStartMissesItsWorkers()
    ensures var q := Start(NewPool(4), 4);
            && (forall id :: id in q.workers <==> 4 <= id < 8)
            && (forall i :: 0 <= i < 4 ==> StartAsWrittenLaunches(4)[i] !in q.workers)
  {
  }

  /** Two pools built up front share the id counter: after pool A's
      `start(2)` takes ids 0 and 1, pool B's `start(2)` registers 2 and 3 but
      looks up `threads_[0]` and `threads_[1]`, which B does not hold. */
  lemma TwoPoolsStartMissesWorkers()
    ensures var b := Start(OtherThreadsCreated(NewPool(0), 2), 2);
            && (forall id :: id in b.workers <==> 2 <= id < 4)
            && (forall i :: 0 <= i < 2 ==> StartAsWrittenLaunches(2)[i] !in b.workers)
  {
  }

  /** Within one pool: a cached-mode `submitTask` before `start` spawns
      worker 0; `start(2)` then registers 1 and 2, yet as written launches
      `threads_[0]` a second time and never launches worker 2. */
  lemma SubmitBeforeStartMisLaunches(t: Task)
    ensures var p := Submit(SetMode(NewPool(0), Cached), t).pool;
            var q := Start(p, 2);
            && p.workers == map[0 := Idle]
            && (forall id :: id in q.workers <==> 0 <= id < 3)
            && StartAsWrittenLaunches(2) == [0, 1]
  {
  }
}

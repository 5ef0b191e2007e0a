/** `ThreadPool`: configuration, the task queue with its `taskSize_` counter,
    the thread counters and the registry of worker threads. Every operation is
    one atomic, pure transition from pool to pool. `Submit`, `Dequeue` and
    `Retire` are the sections the C++ code runs under `taskQueMtx_`; the
    C++ code runs the setters, `start` and the idle increment that `Finish`
    models without the lock. The OS threads themselves are not modelled: a
    registered worker is either waiting for a task (`Idle`) or running one
    (`Busy`). */
module ThreadPool {
  import opened CppInts
  import opened Futures

  /** Default bound on queued tasks. */
  const TASK_MAX_THRESHHOLD: nat := INT32_MAX
  /** Default bound on threads in cached mode. */
  const THREAD_MAX_THRESHHOLD: nat := 100
  /** Seconds a surplus cached-mode worker may wait before it retires. */
  const THREAD_MAX_IDLE_TIME: nat := 60

  datatype PoolMode = Fixed | Cached

  datatype WorkerStatus = Idle | Busy(task: Task)

  /** The pool's state. The fields stand for, in order: `poolMode_`,
      `taskQueMaxThreshHold_`, `threadSizeThreshHold_`, `initThreadSize_`,
      `isPoolRunning_`, `taskQue_`, `taskSize_`, `curThreadSize_`,
      `idleThreadSize_`, `threads_` (keyed by thread id) and the thread id
      counter `Thread::generateId_`. */
  datatype Pool = Pool(
    mode: PoolMode,
    queueCap: nat,
    threadCap: nat,
    initSize: Int32,
    running: bool,
    queue: seq<Task>,
    taskSize: int,
    curSize: int,
    idleSize: int,
    workers: map<nat, WorkerStatus>,
    nextId: nat)

  /** The registered workers that are waiting for a task. */
  function IdleWorkers(ws: map<nat, WorkerStatus>): (s: set<nat>)
    ensures s <= ws.Keys
    ensures forall id :: id in s <==> id in ws && ws[id] == Idle
  {
    set id | id in ws && ws[id] == Idle
  }

  /** The pool's configuration: what the setters and `start` write. */
  datatype Config = Config(mode: PoolMode, queueCap: nat, threadCap: nat, initSize: Int32, running: bool)

  function ConfigOf(p: Pool): Config
  {
    Config(p.mode, p.queueCap, p.threadCap, p.initSize, p.running)
  }

  /** `ThreadPool()`. `idBase` is the value of the process-wide thread id
      counter when the pool is built: nonzero when other pools have already
      created threads. */
  function NewPool(idBase: nat): (p: Pool)
    ensures !p.running && p.mode == Fixed
    ensures p.curSize == 0 && p.idleSize == 0 && p.taskSize == 0 && p.initSize == 0
    ensures p.threadCap == 100 && p.queueCap == INT32_MAX
    ensures p.queue == [] && p.workers == map[] && p.nextId == idBase
  {
    Pool(Fixed, TASK_MAX_THRESHHOLD, THREAD_MAX_THRESHHOLD, 0, false, [], 0, 0, 0, map[], idBase)
  }

  /** `setTaskQueMaxThreshHold(int)`: ignored once the pool runs; the `int`
      is stored into a `size_t`. */
  function SetQueueCap(p: Pool, threshhold: Int32): (q: Pool)
    ensures q.queueCap == (if p.running then p.queueCap else ToSizeT(threshhold))
    ensures q.(queueCap := p.queueCap) == p
  {
    if p.running then p else p.(queueCap := ToSizeT(threshhold))
  }

  /** `setThreadSizeThreshHold(int)`: ignored once the pool runs, and
      ignored in fixed mode. */
  function SetThreadCap(p: Pool, threshhold: Int32): (q: Pool)
    ensures q.threadCap == (if !p.running && p.mode == Cached then ToSizeT(threshhold) else p.threadCap)
    ensures q.(threadCap := p.threadCap) == p
  {
    if p.running then p
    else if p.mode == Cached then p.(threadCap := ToSizeT(threshhold))
    else p
  }

  /** `setMode(PoolMode)`: ignored once the pool runs. */
  function SetMode(p: Pool, m: PoolMode): (q: Pool)
    ensures q.mode == (if p.running then p.mode else m)
    ensures q.(mode := p.mode) == p
  {
    if p.running then p else p.(mode := m)
  }

  /** Threads created elsewhere in the process (by another pool) take the
      next `k` values of the process-wide id counter; nothing else in this
      pool changes. */
  function OtherThreadsCreated(p: Pool, k: nat): (q: Pool)
    ensures q.nextId == p.nextId + k
    ensures q.(nextId := p.nextId) == p
  {
    p.(nextId := p.nextId + k)
  }

  /** Create one `Thread`, register it under the next id, start it and count
      it as a current and an idle thread. Shared by `start` and by the
      cached-mode growth in `submitTask`. */
  function Spawn(p: Pool): (q: Pool)
    ensures q.workers == p.workers[p.nextId := Idle] && q.nextId == p.nextId + 1
    ensures q.curSize == p.curSize + 1 && q.idleSize == p.idleSize + 1
    ensures q.(workers := p.workers, nextId := p.nextId, curSize := p.curSize, idleSize := p.idleSize) == p
  {
    p.(workers := p.workers[p.nextId := Idle], nextId := p.nextId + 1,
       curSize := p.curSize + 1, idleSize := p.idleSize + 1)
  }

  /** The pool after spawning workers, and their ids in creation order. */
  datatype Spawned = Spawned(pool: Pool, ids: seq<nat>)

  /** Spawn `k` workers one after another. Their ids are the next `k` values
      of the counter, strictly increasing; each is registered idle; no
      worker that already held an older id is touched. */
  function SpawnMany(p: Pool, k: nat): (r: Spawned)
    ensures |r.ids| == k
    ensures forall i :: 0 <= i < k ==> r.ids[i] == p.nextId + i
    ensures forall i, j :: 0 <= i < j < k ==> r.ids[i] < r.ids[j]
    ensures forall id :: p.nextId <= id < p.nextId + k ==> id in r.pool.workers && r.pool.workers[id] == Idle
    ensures forall id :: id in r.pool.workers <==> id in p.workers || p.nextId <= id < p.nextId + k
    ensures forall id :: id in p.workers && id < p.nextId ==> r.pool.workers[id] == p.workers[id]
    ensures r.pool.nextId == p.nextId + k
    ensures r.pool.curSize == p.curSize + k && r.pool.idleSize == p.idleSize + k
    ensures r.pool.(workers := p.workers, nextId := p.nextId, curSize := p.curSize, idleSize := p.idleSize) == p
    decreases k
  {
    if k == 0 then Spawned(p, [])
    else
      var s := SpawnMany(p, k - 1);
      Spawned(Spawn(s.pool), s.ids + [s.pool.nextId])
  }

  /** The number of loop rounds `for(int i=0; i<n; i++)` runs. */
  function Rounds(n: Int32): (k: nat)
    ensures n >= 0 ==> k == n
    ensures n < 0 ==> k == 0
  {
    if n > 0 then n else 0
  }

  /** `start(n)`: mark the pool running, record `n` as the initial size and
      create, register and start `n` workers, each under a fresh id. The
      workers are started by their ids (see `StartAsWrittenLaunches` for the
      source's indexing). */
  function Start(p: Pool, n: Int32): (q: Pool)
    ensures q.running && q.initSize == n
    ensures q.curSize == p.curSize + Rounds(n) && q.idleSize == p.idleSize + Rounds(n)
    ensures q.nextId == p.nextId + Rounds(n)
    ensures forall id :: id in q.workers <==> id in p.workers || p.nextId <= id < p.nextId + Rounds(n)
    ensures forall id :: p.nextId <= id < p.nextId + Rounds(n) ==> q.workers[id] == Idle
    ensures forall id :: id in p.workers && id < p.nextId ==> q.workers[id] == p.workers[id]
    ensures q.queue == p.queue && q.taskSize == p.taskSize
    ensures q.mode == p.mode && q.queueCap == p.queueCap && q.threadCap == p.threadCap
  {
    SpawnMany(p.(running := true, initSize := n), Rounds(n)).pool
  }

  /** The pool after `submitTask` and the `Result` it hands back. */
  datatype Submission = Submission(pool: Pool, result: Result)

  /** The cached-mode growth rule, evaluated right after an enqueue: there
      are more pending tasks than idle workers, the pool is in cached mode,
      and one more worker stays within the ceiling. */
  predicate WantsGrowth(p: Pool)
    ensures WantsGrowth(p) ==> p.mode == Cached && p.taskSize > p.idleSize
    ensures WantsGrowth(p) ==> Spawn(p).curSize <= p.threadCap
    ensures !WantsGrowth(p) && p.mode == Cached && p.taskSize > p.idleSize ==> p.curSize >= p.threadCap
  {
    p.taskSize > p.idleSize && p.mode == Cached && p.curSize < p.threadCap
  }

  /** `submitTask(sp)`. A queue at capacity (the one-second wait for space
      ran out) yields an invalid result and changes nothing. Otherwise the
      task, now pointing at its result, joins the back of the queue, and in
      cached mode one worker is added when the pending tasks outnumber the
      idle workers and the thread ceiling is not yet reached. */
  function Submit(p: Pool, t: Task): (s: Submission)
    ensures s.result.task == t.id && s.result.any.Empty? && s.result.sem.count == 0
    ensures s.result.isValid <==> |p.queue| < p.queueCap
    ensures !s.result.isValid ==> s.pool == p
    ensures s.result.isValid ==>
              s.pool.queue == p.queue + [t.(hasResult := true)]
              && s.pool.taskSize == p.taskSize + 1
    ensures ConfigOf(s.pool) == ConfigOf(p)
    ensures var grew := s.result.isValid && p.taskSize + 1 > p.idleSize
                        && p.mode == Cached && p.curSize < p.threadCap;
            && (grew ==> s.pool.workers == p.workers[p.nextId := Idle]
                         && s.pool.nextId == p.nextId + 1
                         && s.pool.curSize == p.curSize + 1
                         && s.pool.idleSize == p.idleSize + 1)
            && (!grew ==> s.pool.workers == p.workers && s.pool.nextId == p.nextId
                          && s.pool.curSize == p.curSize && s.pool.idleSize == p.idleSize)
    ensures s.pool.curSize > p.curSize ==> s.pool.curSize <= p.threadCap
    ensures p.mode == Fixed ==> s.pool.curSize == p.curSize && s.pool.workers == p.workers
  {
    if |p.queue| >= p.queueCap then
      Submission(p, NewResult(t, false).result)
    else
      var b := NewResult(t, true);
      var q := p.(queue := p.queue + [b.task], taskSize := p.taskSize + 1);
      Submission(if WantsGrowth(q) then Spawn(q) else q, b.result)
  }

  /** What an idle worker gets from one pass of its loop under the lock. */
  datatype Take = Took(pool: Pool, task: Task) | Waits

  /** The dequeue half of `threadFunc`: with an empty queue the worker keeps
      waiting; otherwise it becomes busy, stops counting as idle, and takes
      the task at the front of the queue. */
  function Dequeue(p: Pool, w: nat): (r: Take)
    requires w in p.workers && p.workers[w] == Idle
    ensures r.Waits? <==> |p.queue| == 0
    ensures r.Took? ==>
              && r.task == p.queue[0]
              && r.pool.queue == p.queue[1..]
              && r.pool.taskSize == p.taskSize - 1
              && r.pool.idleSize == p.idleSize - 1
              && r.pool.workers == p.workers[w := Busy(r.task)]
              && r.pool.(queue := p.queue, taskSize := p.taskSize, idleSize := p.idleSize, workers := p.workers) == p
  {
    if |p.queue| == 0 then Waits
    else
      Took(p.(queue := p.queue[1..], taskSize := p.taskSize - 1, idleSize := p.idleSize - 1,
              workers := p.workers[w := Busy(p.queue[0])]),
           p.queue[0])
  }

  /** The bookkeeping after `exec()` returns: the worker counts as idle again. */
  function Finish(p: Pool, w: nat): (q: Pool)
    requires w in p.workers && p.workers[w].Busy?
    ensures q.workers == p.workers[w := Idle]
    ensures q.idleSize == p.idleSize + 1
    ensures q.(workers := p.workers, idleSize := p.idleSize) == p
  {
    p.(workers := p.workers[w := Idle], idleSize := p.idleSize + 1)
  }

  /** Idle retirement in `threadFunc`: a worker waiting on an empty queue in
      cached mode whose one-second wait timed out after `idleSeconds` without
      work leaves, provided that is at least 60 seconds and the pool still
      has more threads than its initial size (`initThreadSize_` compared as
      `unsigned int`). It erases its own registry entry and both counters drop
      by one. Otherwise the pool is unchanged. The queue test is made inside
      the same atomic step; the source makes it before the wait, which drops
      the lock. */
  function Retire(p: Pool, w: nat, idleSeconds: nat): (q: Pool)
    requires w in p.workers && p.workers[w] == Idle
    ensures w !in q.workers <==>
              |p.queue| == 0 && p.mode == Cached
              && idleSeconds >= THREAD_MAX_IDLE_TIME && p.curSize > ToUInt(p.initSize)
    ensures w in q.workers ==> q == p
    ensures w !in q.workers ==>
              q.workers == p.workers - {w}
              && q.curSize == p.curSize - 1 && q.idleSize == p.idleSize - 1
              && q.(workers := p.workers, curSize := p.curSize, idleSize := p.idleSize) == p
    ensures w !in q.workers ==> q.curSize >= p.initSize
    ensures p.mode == Fixed ==> q == p
  {
    if |p.queue| == 0 && p.mode == Cached
       && idleSeconds >= THREAD_MAX_IDLE_TIME && p.curSize > ToUInt(p.initSize)
    then p.(workers := p.workers - {w}, curSize := p.curSize - 1, idleSize := p.idleSize - 1)
    else p
  }

  /** The map keys on which the second loop of `start(n)` calls
      `threads_[i]->start()`: the loop counter `i`, not the thread ids. */
  function StartAsWrittenLaunches(n: Int32): (ks: seq<nat>)
    ensures |ks| == Rounds(n)
    ensures forall i :: 0 <= i < |ks| ==> ks[i] == i
  {
    seq(Rounds(n), i requires 0 <= i => i)
  }
}

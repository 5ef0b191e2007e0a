# A Dafny model of a C++ thread pool

This project models the bookkeeping core of a small C++ thread pool library. The
library has a `ThreadPool` with a FIXED and a CACHED (elastic) mode, a bounded task
queue, worker threads that take tasks and may retire when idle, and a `Result` handle
that a submitter waits on. The handle is a one-shot hand-off built from a counting
`Semaphore`. An `Any` box carries the task's return value.

The model is sequential. Each pool operation becomes one atomic, pure transition from
a `Pool` value to the next one. Those transitions are `SetQueueCap`, `SetThreadCap`,
`SetMode`, `Start`, `Submit`, `Dequeue`, `Finish`, `Retire` and `OtherThreadsCreated`
(threads another pool creates, which advance the shared id counter). Only `Submit`,
`Dequeue` and `Retire` correspond to sections the C++ code runs under the pool mutex
`taskQueMtx_`. The setters and `start` take no lock, and the idle increment that
`Finish` models runs outside the lock. The model makes those steps atomic too. The
proofs show what every transition preserves. They also show what holds of every sequence of transitions from a new pool.

Files and modules:

- `cpp_ints.dfy` (`CppInts`): the `int` parameter type. It also writes out the
  conversions of a negative `int` into `size_t` or `unsigned int`, which wrap around.
- `type_erased.dfy` (`TypeErased`): `Any` as a tagged box. `Cast` returns
  `TypeMismatch` where the C++ code throws a string.
- `semaphores.dfy` (`Semaphores`): the counter with `Post` and a guarded `Wait`.
- `futures.dfy` (`Futures`): `Task`, `Result`, `setVal`, `get` and `exec`. A task's raw
  `result_` pointer is a flag plus a key: a map keyed by task id holds the result each
  task's `result_` points to.
- `thread_pool.dfy` (`ThreadPool`): the pool state and its transitions.
- `pool_invariants.dfy` (`PoolInvariants`): the invariant and its preservation. It
  also holds the lemmas over arbitrary event sequences (FIFO conservation, the
  fixed-mode workforce, the ceiling on growth) and the `start` counterexamples.

Inputs that stand in for things the model does not compute:

- `idleSeconds` (in `Retire`) is how long the worker has waited since its last task.
  The source measures it with `high_resolution_clock`.
- `run: nat -> Any` (in `Exec`) is the user's override of `Task::run()`.
- `idBase` (in `NewPool`) is the value of the process-wide thread id counter
  `Thread::generateId_` when the pool is built. The pool's `nextId` field tracks that
  counter. This pool's own spawns advance it. So does `OtherThreadsCreated`, which
  stands for threads that other pools in the process create.

The one-second `wait_for` in `submitTask` is modelled as its outcome. If the queue is
at capacity when the submission runs, the submission fails. In a sequential model no
other thread can free space during the wait.

Behaviour of the code that the model keeps, though a reader might expect otherwise:

- `Task::exec` calls `run()` only when a result is attached. A task without one is not
  run at all (src/threadpool.cpp:216-222).
- A setter called while the pool runs, or `setThreadSizeThreshHold` called in FIXED
  mode, is silently ignored. Nothing reports the rejection.
- `start` may be called again. It then adds more workers and overwrites the initial
  size. Nothing reports an "already started" error.
- `submitTask` is accepted before `start`. In CACHED mode it can even spawn a worker
  then.

## Model

| member | source | states |
|---|---|---|
| CppInts.ToSizeT | src/threadpool.cpp:32-36 | storing an `int` threshold into a `size_t` keeps non-negative values and sends negative ones to a value above `INT32_MAX`, congruent modulo 2^64 |
| CppInts.ToUInt | src/threadpool.cpp:148-149 | comparing `initThreadSize_` with an `unsigned int` counter keeps a non-negative size and turns a negative one into a value above `INT32_MAX`, congruent modulo 2^32 |
| TypeErased.From | include/threadpool.h:33-35 | a box built from a value is not empty, and a cast succeeds exactly for that value's own type |
| TypeErased.Cast | include/threadpool.h:37-51 | a cast succeeds iff the box holds a value of the requested type; the value it returns is the boxed value, of that type |
| TypeErased.Move | include/threadpool.h:27-30 | after a move the target answers every cast as the original did, and the moved-from box fails every cast |
| TypeErased.CastRoundTrip | include/threadpool.h:33-51 | building a box from `v` and casting to the type of `v` gives back `v` |
| TypeErased.CastOtherTypeFails | include/threadpool.h:41-46 | casting to any type other than the stored one is a `TypeMismatch` |
| TypeErased.CastEmptyFails | include/threadpool.h:41-46 | casting a default-constructed box fails for every type |
| TypeErased.CastDeterminesBox | include/threadpool.h:37-51 | two boxes that answer every cast alike are equal, so the cast is the complete view of a box |
| Semaphores.NewSemaphore | include/threadpool.h:75-76 | a new semaphore has count 0 whatever `limit` is passed |
| Semaphores.Wait | include/threadpool.h:80-86 | `wait` proceeds iff the count is positive, and then lowers it by exactly one without making it negative |
| Semaphores.Post | include/threadpool.h:89-94 | `post` raises the count by exactly one, keeps a valid semaphore valid, and enables a `wait` |
| Semaphores.PostThenWait | include/threadpool.h:80-94 | a `post` followed by a `wait` restores the original semaphore |
| Semaphores.ReplayKeepsCount | include/threadpool.h:80-94 | along any run of posts and successful waits the count equals the start count plus posts minus waits and never becomes negative |
| Futures.NewTask | src/threadpool.cpp:229-230 | a new task has no result attached |
| Futures.NewResult | src/threadpool.cpp:260-263 | a new result has an empty slot, a semaphore at zero and the given validity, and its task now points back at it |
| Futures.SetVal | src/threadpool.cpp:266-270 | `setVal` stores the value and posts exactly once, leaving task and validity as they were |
| Futures.Get | src/threadpool.cpp:273-282 | an invalid result answers at once with the `""` placeholder; a valid one is ready iff its semaphore is positive, and then yields the stored value and leaves the slot empty |
| Futures.Exec | src/threadpool.cpp:216-222 | `exec` changes nothing when no result is attached; otherwise it stores `run`'s value in that task's own result and posts once, and no other result in the map changes |
| Futures.GetBeforeSetValBlocks | src/threadpool.cpp:279-281 | `get` on a valid result that has not received a value waits |
| Futures.SetValThenGet | src/threadpool.cpp:266-282 | on a valid, fresh result, `get` after `setVal(a)` returns exactly `a` |
| Futures.ExecThenGet | src/threadpool.cpp:216-222 | after its task executes, `get` on the valid, fresh result that the task's `result_` points to returns the value that task's own `run` produced |
| Futures.SecondGetBlocks | src/threadpool.cpp:280-281 | `get` consumes the hand-off: a second `get` waits again |
| ThreadPool.NewPool | src/threadpool.cpp:10-19 | a new pool is stopped, in FIXED mode, with zero counters and initial size, ceiling 100, capacity `INT32_MAX`, an empty queue and registry, and the id counter where the process left it |
| ThreadPool.SetQueueCap | src/threadpool.cpp:32-36 | the queue capacity changes only while the pool is stopped, to the `size_t` value of the argument; nothing else changes |
| ThreadPool.SetThreadCap | src/threadpool.cpp:39-46 | the thread ceiling changes only while the pool is stopped and in CACHED mode; nothing else changes |
| ThreadPool.SetMode | src/threadpool.cpp:49-53 | the mode changes only while the pool is stopped; nothing else changes |
| ThreadPool.SpawnMany | src/threadpool.cpp:107-123 | spawning k workers gives them the next k ids of the counter, strictly increasing, all registered idle; older workers are untouched; cur and idle each rise by k |
| ThreadPool.Spawn | src/threadpool.cpp:83-91 | creating one worker registers it idle under the counter's next id, advances the counter by one, raises cur and idle by one each, and changes nothing else |
| ThreadPool.WantsGrowth | src/threadpool.cpp:79-81 | growth is wanted only in CACHED mode with more pending tasks than idle workers, and then the added worker keeps cur within the ceiling; with a backlog in CACHED mode, growth is refused only when cur has reached the ceiling |
| ThreadPool.OtherThreadsCreated | src/threadpool.cpp:235-239 | threads created by other pools advance the shared id counter by their number and change nothing else in this pool |
| ThreadPool.Start | src/threadpool.cpp:99-124 | `start(n)` marks the pool running, records n, and registers max(n,0) fresh idle workers under the counter's next ids; cur and idle each rise by that many; queue and configuration are unchanged |
| ThreadPool.Submit | src/threadpool.cpp:56-96 | a full queue gives an invalid result and changes nothing; otherwise the task goes to the back of the queue and taskSize rises by one; exactly one worker is added iff taskSize exceeds idle, the mode is CACHED and cur is below the ceiling; growth never passes the ceiling and FIXED mode never grows |
| ThreadPool.Dequeue | src/threadpool.cpp:178-191 | an idle worker waits iff the queue is empty; otherwise it takes the front task, the rest of the queue stays in order, taskSize and idle drop by one, and the worker is busy with that task |
| ThreadPool.Finish | src/threadpool.cpp:198-200 | after a task executes, its worker is idle again and idle rises by one; nothing else changes |
| ThreadPool.Retire | src/threadpool.cpp:140-161 | in one atomic step, a worker retires iff the queue is empty (the loop test of line 137, which the model checks inside that step), the mode is CACHED, it has waited at least 60 s and cur exceeds the initial size; it then removes exactly its own id and lowers cur and idle by one, never below the initial size; FIXED mode never retires |
| ThreadPool.StartAsWrittenLaunches | src/threadpool.cpp:119-123 | the second loop of `start(n)` addresses the map keys 0 .. n-1, in order |
| PoolInvariants.InvBoundsCounters | src/threadpool.cpp:178-200 | under the invariant, 0 ≤ idle ≤ cur and taskSize ≥ 0 |
| PoolInvariants.NewPoolInv | src/threadpool.cpp:10-19 | a new pool satisfies the bookkeeping invariant |
| PoolInvariants.StartInv | src/threadpool.cpp:99-124 | `start` preserves the invariant, including cur ≥ initial size |
| PoolInvariants.SubmitInv | src/threadpool.cpp:63-92 | both outcomes of `submitTask` preserve the invariant, including taskSize equal to the queue length |
| PoolInvariants.DequeueInv | src/threadpool.cpp:178-183 | a dequeue preserves the invariant, and the task taken has a result to deliver to |
| PoolInvariants.FinishInv | src/threadpool.cpp:198-200 | finishing a task preserves the invariant |
| PoolInvariants.RetireInv | src/threadpool.cpp:148-157 | idle retirement preserves the invariant |
| PoolInvariants.ApplyKeeps | src/threadpool.cpp:56-200 | every event preserves the invariant, and the tasks taken followed by those still queued equal the tasks queued before followed by those accepted |
| PoolInvariants.RunKeeps | src/threadpool.cpp:56-200 | the same two facts hold across any sequence of events |
| PoolInvariants.Reachable | src/threadpool.cpp:10-200 | from a new pool, after any events, 0 ≤ idle ≤ cur, taskSize equals the queue length, and workers take tasks exactly in acceptance order, with none lost or repeated |
| PoolInvariants.FixedModeKeepsWorkforce | src/threadpool.cpp:79-81 | once a FIXED pool runs, no event except another `start` changes cur or the set of registered workers |
| PoolInvariants.GrowthBoundedByCeiling | src/threadpool.cpp:79-92 | once a pool runs, without another `start` cur never exceeds the larger of its value then and the thread ceiling |
| PoolInvariants.StartAsWrittenLaunchesOwnWorkersIff | src/threadpool.cpp:107-123 | the as-written launch loop addresses exactly the workers that `start` registered iff the id counter stood at 0 |
| PoolInvariants.SecondPoolStartMissesItsWorkers | src/threadpool.cpp:119-121 | with the counter at 4, `start(4)` registers ids 4..7, but the loop looks up keys 0..3, none of which is registered |
| PoolInvariants.TwoPoolsStartMissesWorkers | src/threadpool.cpp:107-123 | with two pools built up front, after the first pool's `start(2)` the second pool's `start(2)` registers ids 2 and 3 but looks up keys 0 and 1, which it does not hold |
| PoolInvariants.SubmitBeforeStartMisLaunches | src/threadpool.cpp:79-123 | after a CACHED `submitTask` before `start` spawned worker 0, `start(2)` registers 1 and 2 but launches keys 0 and 1 |

## Findings

| source | as written | input that shows it | evidently intended | confidence | as-written member | corrected member |
|---|---|---|---|---|---|---|
| src/threadpool.cpp:119-123 | `start` launches `threads_[i]` for the loop counter `i`, but the workers were registered under ids from the process-wide counter (src/threadpool.cpp:235-240) | a second pool in the process, whose `start(4)` registers 4..7 and then looks up 0..3; each lookup inserts a null pointer that `->start()` dereferences. Or, in one pool, a CACHED `submitTask` before `start(2)`: worker 0 is launched again if its first thread has not yet erased itself; otherwise `threads_[0]` is a new null entry that `->start()` dereferences; worker 2 is never launched | launch each worker that was just registered, by its id | high, not executed | ThreadPool.StartAsWrittenLaunches, PoolInvariants.SecondPoolStartMissesItsWorkers, PoolInvariants.TwoPoolsStartMissesWorkers, PoolInvariants.StartAsWrittenLaunchesOwnWorkersIff | ThreadPool.Start |

`Start` and the rest of the model register and launch each worker under its own id.
`SpawnMany` states which ids those are.

## Left out

- OS threads, `detach`, the mutex, condition variables and their notifications, and
  atomics. Each operation is one atomic step, including the setters, `start` and the
  idle increment after `exec`, which run without the lock. A worker's `exec` runs between its
  `Dequeue` and its `Finish` steps.
- The interleaving inside `start`. It launches each worker (src/threadpool.cpp:121)
  before counting it idle (line 122). A launched worker can take a task queued before
  `start` and run `idleThreadSize_--` (line 178) while the count is still 0. That
  briefly wraps the unsigned counter until line 122 catches up. The atomic `Start`
  hides this window.
- Wall-clock time. The one-second submission wait is replaced by its outcome, as
  described above. The idle time is the `idleSeconds` input of `Retire`.
- The destructor and shutdown path (src/threadpool.cpp:21-29, 171-176, 204-205). The
  model has no transition that sets the pool to stopped. `exitCond_` is never notified,
  and line 204 erases the registry entry without holding the lock.
- The worker exit at src/threadpool.cpp:129 and 204 when the pool is not running. This
  covers the thread that a CACHED `submitTask` spawns before `start`. That thread can
  see the pool stopped and erase itself without lowering `curThreadSize_` or
  `idleThreadSize_`. The model keeps such a worker registered and idle.
- Logging to `std::cout`/`std::cerr`.
- The `hardware_concurrency()` default argument of `start`. `Start` always takes `n`
  explicitly.
- `dynamic_cast` and RTTI. They become a comparison of type tags.
- User `run()` bodies. They become the `run` parameter of `Exec`.
- The header's `Any` as written does not compile: line 34 builds `make_unique<T>`
  instead of a `Derive<T>`, and line 64 has a malformed initialiser. The model follows
  the evident intent, a box holding a `Derive<T>`.
- The width of the counters. `curThreadSize_`, `idleThreadSize_` and `taskSize_` are
  32-bit unsigned, and the model's counters are unbounded. The invariant shows no
  decrement ever takes them below zero. Wrap-around after 2^32 increments is not
  modelled.
- Overflow of the `int` thread id counter is not modelled either.
- Futures.ExecThenGet: assumes each task object is submitted once. The `Result`
  constructor points the task's `result_` at the newest result, even a rejected one
  (src/threadpool.cpp:262). So a task submitted twice delivers into the second result,
  and `get` on the first waits forever. `Submit` returns the new result but does not
  update the map of results that `Exec` delivers into, so the model does not show this
  re-pointing.
- ThreadPool.Retire: checks the queue inside its atomic step, so a worker never
  retires while a task is queued. In the source the queue test (src/threadpool.cpp:137)
  runs before the one-second `wait_for` (line 144), which releases the lock. A
  `submitTask` can enqueue a task after the wait times out and before the worker gets
  the lock back. The worker then retires on lines 148-157 without looking at the queue
  again. With one idle CACHED worker, that submission spawns nothing (lines 79-81 see
  one idle thread), so the task stays queued with no worker until a later submission
  spawns one. The model does not show this window.
- Semaphores.Post: the count is unbounded. The source's `int resLimit_` would overflow
  after 2^31 posts, which a one-shot result never reaches.
- The lifetime of the `Result` object whose address the task keeps. `Exec` requires the
  attached result to be alive (`t.id in rs`), as the raw pointer does.

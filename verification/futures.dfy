/** `Task` and `Result`: the unit of work and the one-shot handle its
    submitter waits on. A task's raw `result_` back-pointer is modelled as a
    flag plus a key: a map keyed by task id holds the result each task's
    `result_` points to, and an attached task delivers into the entry under
    its own id. */
module Futures {
  import opened TypeErased
  import opened Semaphores

  /** A submitted unit of work. `hasResult` is `result_ != nullptr`. */
  datatype Task = Task(id: nat, hasResult: bool)

  /** `Task()`: a new task has no result attached. */
  function NewTask(id: nat): (t: Task)
    ensures t.id == id
    ensures !t.hasResult
  {
    Task(id, false)
  }

  /** `Result`: the value slot `any_`, the completion semaphore `sem_`, the
      task it keeps alive (`task_`, by id) and the `isValid_` flag. */
  datatype Result = Result(task: nat, any: Any, sem: Semaphore, isValid: bool)

  /** The task after `setResult(this)` and the new result object. */
  datatype Bound = Bound(task: Task, result: Result)

  /** `Result(sp, isValid)`: an empty slot, a semaphore at zero, and the task
      pointed back at the new result, whether or not the result is valid. */
  function NewResult(t: Task, isValid: bool): (b: Bound)
    ensures b.task.id == t.id && b.task.hasResult
    ensures b.result.task == t.id && b.result.isValid == isValid
    ensures b.result.any == Empty && b.result.sem.count == 0
  {
    Bound(t.(hasResult := true), Result(t.id, Empty, NewSemaphore(0), isValid))
  }

  /** `setVal(any)`: move the value into the slot, then post once. */
  function SetVal(r: Result, a: Any): (r': Result)
    ensures r'.any == a
    ensures r'.sem.count == r.sem.count + 1
    ensures r'.task == r.task && r'.isValid == r.isValid
  {
    r.(any := a, sem := Post(r.sem))
  }

  /** `get()` either returns a value together with the result object left
      behind, or is `Pending`: the caller would block on the semaphore. */
  datatype GetOutcome = Ready(value: Any, after: Result) | Pending

  /** The `""` that `get()` returns for a rejected submission. */
  const Placeholder: Any := Holding(CStringV(""))

  /** `get()`: an invalid result answers at once with the placeholder;
      a valid one waits for the semaphore, then moves the value out of the
      slot, leaving it empty. */
  function Get(r: Result): (g: GetOutcome)
    ensures !r.isValid ==> g == Ready(Placeholder, r)
    ensures r.isValid ==> (g.Ready? <==> r.sem.count > 0)
    ensures r.isValid && g.Ready? ==>
              g.value == r.any && g.after.any == Empty
              && g.after.sem.count == r.sem.count - 1
              && g.after.task == r.task && g.after.isValid
  {
    if !r.isValid then Ready(Placeholder, r)
    else match Wait(r.sem)
      case Blocks => Pending
      case Acquired(s) => Ready(Move(r.any).target, r.(any := Move(r.any).source, sem := s))
  }

  /** By task id, the `Result` each task's `result_` points to. */
  type Results = map<nat, Result>

  /** `exec()`: when a result is attached, run the task's work (`run`, the
      user's override of `run()`) and hand its value to that result; when
      none is attached the work is not run at all. Only the task's own
      result changes. */
  function Exec(t: Task, rs: Results, run: nat -> Any): (rs': Results)
    requires t.hasResult ==> t.id in rs
    ensures !t.hasResult ==> rs' == rs
    ensures rs'.Keys == rs.Keys
    ensures forall id :: id in rs && id != t.id ==> rs'[id] == rs[id]
    ensures t.hasResult ==> rs'[t.id].any == run(t.id)
                            && rs'[t.id].sem.count == rs[t.id].sem.count + 1
                            && rs'[t.id].task == rs[t.id].task
                            && rs'[t.id].isValid == rs[t.id].isValid
  {
    if t.hasResult then rs[t.id := SetVal(rs[t.id], run(t.id))] else rs
  }

  /** A result never given a value makes `get()` wait. */
  lemma GetBeforeSetValBlocks(t: Task)
    ensures Get(NewResult(t, true).result) == Pending
  {
  }

  /** On a valid result, `get()` returns exactly what `setVal` delivered and
      empties the slot. */
  lemma SetValThenGet(r: Result, a: Any)
    requires r.isValid && r.sem.count == 0
    ensures Get(SetVal(r, a)) == Ready(a, r.(any := Empty))
  {
  }

  /** Executing a task and then calling `get()` on the valid, fresh result
      its `result_` points to yields the task's own value. */
  lemma ExecThenGet(t: Task, rs: Results, run: nat -> Any)
    requires t.hasResult && t.id in rs
    requires rs[t.id].isValid && rs[t.id].sem.count == 0
    ensures Get(Exec(t, rs, run)[t.id]) == Ready(run(t.id), rs[t.id].(any := Empty))
  {
  }

  /** `get()` consumes the handoff: a second `get()` waits again. */
  lemma SecondGetBlocks(r: Result, a: Any)
    requires r.isValid && r.sem.count == 0
    ensures Get(SetVal(r, a)).Ready? && Get(Get(SetVal(r, a)).after) == Pending
  {
  }
}

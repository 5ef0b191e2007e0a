/** The counting `Semaphore` of the header: a counter guarded by a mutex,
    with a blocking `wait` and a `post`. Each call is one atomic step here;
    a `wait` that would block is reported as `Blocks` rather than suspended. */
module Semaphores {
  import opened CppInts

  datatype Semaphore = Semaphore(count: int)

  /** The count is never negative. */
  predicate Valid(s: Semaphore)
  {
    s.count >= 0
  }

  /** `Semaphore(int limit = 0)`: the constructor ignores `limit` and starts
      the count at zero. */
  function NewSemaphore(limit: Int32): (s: Semaphore)
    ensures Valid(s)
    ensures s.count == 0
  {
    Semaphore(0)
  }

  datatype WaitOutcome = Acquired(after: Semaphore) | Blocks

  /** `wait()`: proceeds only on a positive count and takes exactly one unit. */
  function Wait(s: Semaphore): (r: WaitOutcome)
    ensures r.Acquired? <==> s.count > 0
    ensures r.Acquired? ==> r.after.count + 1 == s.count
    ensures r.Acquired? ==> Valid(r.after)
  {
    if s.count > 0 then Acquired(Semaphore(s.count - 1)) else Blocks
  }

  /** `post()`: adds exactly one unit, after which a `wait` can proceed. */
  function Post(s: Semaphore): (r: Semaphore)
    ensures r.count - 1 == s.count
    ensures Valid(s) ==> Valid(r) && Wait(r).Acquired?
  {
    Semaphore(s.count + 1)
  }

  /** A `post` followed by a `wait` gives back the original semaphore. */
  lemma PostThenWait(s: Semaphore)
    requires Valid(s)
    ensures Wait(Post(s)) == Acquired(s)
  {
  }

  /** Every sequence of `post`s and successful `wait`s from a valid
      semaphore keeps it valid; `true` stands for `post`, `false` for `wait`. */
  function Replay(s: Semaphore, ops: seq<bool>): (r: WaitOutcome)
    decreases |ops|
  {
    if |ops| == 0 then Acquired(s)
    else if ops[0] then Replay(Post(s), ops[1..])
    else match Wait(s)
      case Blocks => Blocks
      case Acquired(s') => Replay(s', ops[1..])
  }

  /** The count of a replayed semaphore is its start count plus the posts
      minus the waits, and it never goes negative. */
  lemma {:induction false} ReplayKeepsCount(s: Semaphore, ops: seq<bool>)
    requires Valid(s)
    ensures Replay(s, ops).Acquired? ==>
              Valid(Replay(s, ops).after)
              && Replay(s, ops).after.count == s.count + Posts(ops) - (|ops| - Posts(ops))
    decreases |ops|
  {
    if |ops| > 0 {
      if ops[0] {
        ReplayKeepsCount(Post(s), ops[1..]);
      } else if Wait(s).Acquired? {
        ReplayKeepsCount(Wait(s).after, ops[1..]);
      }
    }
  }

  /** The number of `post`s in `ops`. */
  function Posts(ops: seq<bool>): (n: nat)
    ensures n <= |ops|
    decreases |ops|
  {
    if |ops| == 0 then 0 else (if ops[0] then 1 else 0) + Posts(ops[1..])
  }
}

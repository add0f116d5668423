/** A synchronous executor: every accepted task runs at once, on the caller's
    thread, before `post` returns.

    The executor's whole state is one completion event, `stopped`; every
    lifecycle query is derived from it. Task bodies are foreign code, so a
    task is an opaque value of type `T` and running it is recorded by appending
    an `Invocation` (the task and the arguments it was called with) to `log`. */
module ImmediateExecutor {
  import opened Wrappers
  import CompletionEvent

  /** The exception `post` raises when it is given no block. */
  datatype Error = ArgumentError(message: string)

  const NoBlockGiven: Error := ArgumentError("no block given")

  /** One call of a task, with the arguments it received. */
  datatype Invocation<T, A> = Invocation(task: T, args: seq<A>)

  datatype Executor<T, A> = Executor(stopped: CompletionEvent.Event, log: seq<Invocation<T, A>>)

  /** What a `post` that did not raise returns, with the executor after it. */
  datatype Posted<T, A> = Posted(accepted: bool, next: Executor<T, A>)

  /** What `shutdown` returns, with the executor after it. */
  datatype Stopped<T, A> = Stopped(ok: bool, next: Executor<T, A>)

  predicate IsShutdown<T, A>(ex: Executor<T, A>)
  {
    CompletionEvent.IsSet(ex.stopped)
  }

  predicate IsRunning<T, A>(ex: Executor<T, A>)
  {
    !IsShutdown(ex)
  }

  /** There is no draining phase: shutting down is a single step. */
  predicate IsShuttingDown<T, A>(ex: Executor<T, A>)
  {
    false
  }

  /** A new executor is running, not shutting down, and has run nothing. */
  function New<T, A>(): (ex: Executor<T, A>)
    ensures IsRunning(ex) && !IsShutdown(ex) && !IsShuttingDown(ex)
    ensures ex.log == []
  {
    Executor(CompletionEvent.Init(), [])
  }

  /** Submits `task` (absent when no block is given) with `args`.

      A missing task raises `ArgumentError`, whether or not the executor is
      running. A shut-down executor returns `false` and runs nothing. A running
      executor runs the task exactly once with `args` and returns `true`. */
  function Post<T, A>(ex: Executor<T, A>, task: Option<T>, args: seq<A>): (r: Result<Posted<T, A>, Error>)
    ensures r.Failure? <==> task.None?
    ensures r.Failure? ==> r.error == NoBlockGiven
    ensures r.Success? ==> (r.value.accepted <==> IsRunning(ex))
    ensures r.Success? ==> r.value.next.stopped == ex.stopped
    ensures r.Success? && !r.value.accepted ==> r.value.next.log == ex.log
    ensures r.Success? && r.value.accepted ==>
              && |r.value.next.log| == |ex.log| + 1
              && r.value.next.log[..|ex.log|] == ex.log
              && r.value.next.log[|ex.log|] == Invocation(task.value, args)
  {
    if task.None? then Failure(NoBlockGiven)
    else if !IsRunning(ex) then Success(Posted(false, ex))
    else Success(Posted(true, ex.(log := ex.log + [Invocation(task.value, args)])))
  }

  /** The `<<` operator: posts `task` with no arguments, ignores the boolean
      result and returns the executor itself (here: its state afterwards). A
      nil task reaches `post` without a block and raises in the same way. */
  function Append<T, A>(ex: Executor<T, A>, task: Option<T>): (r: Result<Executor<T, A>, Error>)
    ensures r.Failure? <==> task.None?
    ensures r.Failure? ==> r.error == NoBlockGiven
    ensures r.Success? ==> r.value.stopped == ex.stopped
    ensures r.Success? && IsShutdown(ex) ==> r.value == ex
    ensures r.Success? && IsRunning(ex) ==> r.value.log == ex.log + [Invocation(task.value, [])]
  {
    match Post(ex, task, [])
    case Failure(e) => Failure(e)
    case Success(p) => Success(p.next)
  }

  /** Stops the executor and returns `true`. The log is untouched, and a
      second shutdown changes nothing. */
  function Shutdown<T, A>(ex: Executor<T, A>): (r: Stopped<T, A>)
    ensures r.ok
    ensures IsShutdown(r.next) && !IsRunning(r.next)
    ensures r.next.log == ex.log
    ensures IsShutdown(ex) ==> r.next == ex
  {
    Stopped(true, ex.(stopped := CompletionEvent.Set(ex.stopped)))
  }

  /** `kill` is an alias of `shutdown`. */
  function Kill<T, A>(ex: Executor<T, A>): (r: Stopped<T, A>)
    ensures r.ok
    ensures IsShutdown(r.next) && r.next.log == ex.log
    ensures r == Shutdown(ex)
  {
    Shutdown(ex)
  }

  /** Waits for the executor to stop, as one caller observes it: `true` at
      once when it is already shut down, `false` after the timeout when it is
      running, and `None` (never returns) when it is running and no timeout is
      given. */
  function WaitForTermination<T, A>(ex: Executor<T, A>, timeout: Option<real>): (r: Option<bool>)
    ensures IsShutdown(ex) ==> r == Some(true)
    ensures IsRunning(ex) && timeout.Some? ==> r == Some(false)
    ensures IsRunning(ex) && timeout.None? ==> r == None
  {
    CompletionEvent.Wait(ex.stopped, timeout)
  }

  /** Shutting down is idempotent, and `kill` has the same effect. */
  lemma ShutdownIdempotent<T, A>(ex: Executor<T, A>)
    ensures Shutdown(Shutdown(ex).next) == Shutdown(ex)
    ensures Kill(Shutdown(ex).next) == Shutdown(ex)
    ensures Shutdown(Kill(ex).next) == Kill(ex)
  {
  }

  /** `<<` has exactly the effect on the executor of `post` with no
      arguments, whatever `post` returns. */
  lemma AppendIsPostWithoutArgs<T, A>(ex: Executor<T, A>, task: Option<T>)
    ensures Append(ex, task).Failure? <==> Post(ex, task, []).Failure?
    ensures Append(ex, task).Success? ==> Append(ex, task).value == Post(ex, task, []).value.next
  {
  }
}

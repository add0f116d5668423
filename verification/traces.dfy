/** Sequences of calls on one executor.

    A trace is the list of calls in the order they take effect; calls may
    come from different callers. Each call's reply is what its caller sees at
    that point. A `wait_for_termination` with no timeout on a running executor
    does not return there: its reply `WaitReturned(None)` records a caller
    that is blocked while the other callers go on, and `BlockedWaitReleased`
    says when a later call releases it. An `ArgumentError` raised
    by a call leaves the executor as it was, and the trace goes on (a caller
    may rescue it). Two reference definitions give the intended meaning
    independently of the step function: `Accepted`, the tasks that should
    run, and `StoppedReply`/`RunningReply`, what each call should return in
    each lifecycle state. */
module ExecutorTraces {
  import opened Wrappers
  import IE = ImmediateExecutor
  import CompletionEvent

  /** One call on the executor's public surface. */
  datatype Op<T, A> =
    | Post(task: Option<T>, args: seq<A>)
    | Append(task: Option<T>)
    | Shutdown
    | Kill
    | WaitForTermination(timeout: Option<real>)
    | AskRunning
    | AskShuttingDown
    | AskShutdown
  {
    /** Calls that stop the executor. */
    predicate Stops()
    {
      Shutdown? || Kill?
    }
  }

  /** What a call returned, or the exception it raised. */
  datatype Reply<T, A> =
    | PostReturned(accepted: bool)
    | Raised(error: IE.Error)
    | ReturnedSelf
    | ShutdownReturned(ok: bool)
    | WaitReturned(released: Option<bool>)
    | Answered(answer: bool)

  datatype Outcome<T, A> = Outcome(next: IE.Executor<T, A>, reply: Reply<T, A>)

  /** Performs one call. */
  function Step<T, A>(ex: IE.Executor<T, A>, op: Op<T, A>): Outcome<T, A>
  {
    match op
    case Post(task, args) =>
      (match IE.Post(ex, task, args)
       case Success(p) => Outcome(p.next, PostReturned(p.accepted))
       case Failure(e) => Outcome(ex, Raised(e)))
    case Append(task) =>
      (match IE.Append(ex, task)
       case Success(next) => Outcome(next, ReturnedSelf)
       case Failure(e) => Outcome(ex, Raised(e)))
    case Shutdown =>
      var s := IE.Shutdown(ex);
      Outcome(s.next, ShutdownReturned(s.ok))
    case Kill =>
      var s := IE.Kill(ex);
      Outcome(s.next, ShutdownReturned(s.ok))
    case WaitForTermination(timeout) => Outcome(ex, WaitReturned(IE.WaitForTermination(ex, timeout)))
    case AskRunning => Outcome(ex, Answered(IE.IsRunning(ex)))
    case AskShuttingDown => Outcome(ex, Answered(IE.IsShuttingDown(ex)))
    case AskShutdown => Outcome(ex, Answered(IE.IsShutdown(ex)))
  }

  /** The executor after every call of `ops`, in order. */
  function Run<T, A>(ex: IE.Executor<T, A>, ops: seq<Op<T, A>>): IE.Executor<T, A>
    decreases |ops|
  {
    if ops == [] then ex else Run(Step(ex, ops[0]).next, ops[1..])
  }

  /** What each call of `ops` returned, one reply per call. */
  function Replies<T, A>(ex: IE.Executor<T, A>, ops: seq<Op<T, A>>): (rs: seq<Reply<T, A>>)
    ensures |rs| == |ops|
    decreases |ops|
  {
    if ops == [] then [] else [Step(ex, ops[0]).reply] + Replies(Step(ex, ops[0]).next, ops[1..])
  }

  // ---------------------------------------------------------------------
  // Reference definitions

  /** The index of the first stopping call, or `|ops|` when there is none. */
  function FirstStop<T, A>(ops: seq<Op<T, A>>): (n: nat)
    ensures n <= |ops|
    ensures forall i :: 0 <= i < n ==> !ops[i].Stops()
    ensures n < |ops| ==> ops[n].Stops()
    decreases |ops|
  {
    if ops == [] || ops[0].Stops() then 0 else 1 + FirstStop(ops[1..])
  }

  /** The invocation a call submits, if it carries a task. */
  function Submission<T, A>(op: Op<T, A>): seq<IE.Invocation<T, A>>
  {
    match op
    case Post(Some(t), args) => [IE.Invocation(t, args)]
    case Append(Some(t)) => [IE.Invocation(t, [])]
    case _ => []
  }

  /** Every task submitted by `ops`, in submission order. */
  function Submitted<T, A>(ops: seq<Op<T, A>>): seq<IE.Invocation<T, A>>
    decreases |ops|
  {
    if ops == [] then [] else Submission(ops[0]) + Submitted(ops[1..])
  }

  /** The tasks a running executor should run for `ops`: those submitted
      before the first shutdown, in submission order. */
  function Accepted<T, A>(ops: seq<Op<T, A>>): seq<IE.Invocation<T, A>>
  {
    Submitted(ops[..FirstStop(ops)])
  }

  /** What a call should return on a shut-down executor. */
  function StoppedReply<T, A>(op: Op<T, A>): Reply<T, A>
  {
    match op
    case Post(task, _) => if task.Some? then PostReturned(false) else Raised(IE.NoBlockGiven)
    case Append(task) => if task.Some? then ReturnedSelf else Raised(IE.NoBlockGiven)
    case Shutdown => ShutdownReturned(true)
    case Kill => ShutdownReturned(true)
    case WaitForTermination(_) => WaitReturned(Some(true))
    case AskRunning => Answered(false)
    case AskShuttingDown => Answered(false)
    case AskShutdown => Answered(true)
  }

  /** What a call should return on a running executor. */
  function RunningReply<T, A>(op: Op<T, A>): Reply<T, A>
  {
    match op
    case Post(task, _) => if task.Some? then PostReturned(true) else Raised(IE.NoBlockGiven)
    case Append(task) => if task.Some? then ReturnedSelf else Raised(IE.NoBlockGiven)
    case Shutdown => ShutdownReturned(true)
    case Kill => ShutdownReturned(true)
    case WaitForTermination(timeout) => WaitReturned(if timeout.Some? then Some(false) else None)
    case AskRunning => Answered(true)
    case AskShuttingDown => Answered(false)
    case AskShutdown => Answered(false)
  }

  // ---------------------------------------------------------------------
  // Lemmas

  /** Running a trace in two pieces is running it whole. */
  lemma {:induction false} RunAppend<T, A>(ex: IE.Executor<T, A>, a: seq<Op<T, A>>, b: seq<Op<T, A>>)
    ensures Run(ex, a + b) == Run(Run(ex, a), b)
    ensures Replies(ex, a + b) == Replies(ex, a) + Replies(Run(ex, a), b)
    decreases |a|
  {
    if a == [] {
      assert a + b == b;
    } else {
      assert (a + b)[0] == a[0];
      assert (a + b)[1..] == a[1..] + b;
      RunAppend(Step(ex, a[0]).next, a[1..], b);
    }
  }

  /** A shut-down executor never changes again, and every call on it returns
      what `StoppedReply` says. */
  lemma {:induction false} ShutdownIsFinal<T, A>(ex: IE.Executor<T, A>, ops: seq<Op<T, A>>)
    requires IE.IsShutdown(ex)
    ensures Run(ex, ops) == ex
    ensures forall k :: 0 <= k < |ops| ==> Replies(ex, ops)[k] == StoppedReply(ops[k])
    decreases |ops|
  {
    if ops != [] {
      ShutdownIsFinal(ex, ops[1..]);
      assert Step(ex, ops[0]) == Outcome(ex, StoppedReply(ops[0]));
      forall k | 1 <= k < |ops|
        ensures Replies(ex, ops)[k] == StoppedReply(ops[k])
      {
        assert Replies(ex, ops)[k] == Replies(ex, ops[1..])[k - 1];
      }
    }
  }

  /** While no stopping call has happened, a running executor stays running
      and every call returns what `RunningReply` says. */
  lemma {:induction false} RunningReplies<T, A>(ex: IE.Executor<T, A>, ops: seq<Op<T, A>>)
    requires IE.IsRunning(ex)
    requires forall i :: 0 <= i < |ops| ==> !ops[i].Stops()
    ensures IE.IsRunning(Run(ex, ops))
    ensures forall k :: 0 <= k < |ops| ==> Replies(ex, ops)[k] == RunningReply(ops[k])
    decreases |ops|
  {
    if ops != [] {
      var next := Step(ex, ops[0]).next;
      assert IE.IsRunning(next);
      assert Step(ex, ops[0]).reply == RunningReply(ops[0]);
      RunningReplies(next, ops[1..]);
      forall k | 1 <= k < |ops|
        ensures Replies(ex, ops)[k] == RunningReply(ops[k])
      {
        assert Replies(ex, ops)[k] == Replies(next, ops[1..])[k - 1];
      }
    }
  }

  /** From a stopping call on, every call of a trace returns what
      `StoppedReply` says, whatever the executor's state before it. */
  lemma StopReplies<T, A>(ex: IE.Executor<T, A>, ops: seq<Op<T, A>>)
    requires ops != [] && ops[0].Stops()
    ensures IE.IsShutdown(Run(ex, ops))
    ensures forall k :: 0 <= k < |ops| ==> Replies(ex, ops)[k] == StoppedReply(ops[k])
  {
    var next := Step(ex, ops[0]).next;
    ShutdownIsFinal(next, ops[1..]);
    forall k | 1 <= k < |ops|
      ensures Replies(ex, ops)[k] == StoppedReply(ops[k])
    {
      assert Replies(ex, ops)[k] == Replies(next, ops[1..])[k - 1];
    }
  }

  /** The reply at index `k` of a trace cut in two comes from the piece that
      holds the call. */
  lemma ReplyAt<T, A>(ex: IE.Executor<T, A>, a: seq<Op<T, A>>, b: seq<Op<T, A>>, k: nat)
    requires k < |a| + |b|
    ensures k < |a| ==> Replies(ex, a + b)[k] == Replies(ex, a)[k] && (a + b)[k] == a[k]
    ensures |a| <= k ==> Replies(ex, a + b)[k] == Replies(Run(ex, a), b)[k - |a|] && (a + b)[k] == b[k - |a|]
  {
    RunAppend(ex, a, b);
  }

  /** Every call of a trace returns what its lifecycle state dictates: calls
      before the first stop see a running executor, the stopping call and all
      later calls see a shut-down one. */
  lemma TraceReplies<T, A>(ex: IE.Executor<T, A>, ops: seq<Op<T, A>>)
    requires IE.IsRunning(ex)
    ensures forall k :: 0 <= k < FirstStop(ops) ==> Replies(ex, ops)[k] == RunningReply(ops[k])
    ensures forall k :: FirstStop(ops) <= k < |ops| ==> Replies(ex, ops)[k] == StoppedReply(ops[k])
  {
    var n := FirstStop(ops);
    var before, after := ops[..n], ops[n..];
    assert ops == before + after;
    RunningReplies(ex, before);
    forall k | 0 <= k < n
      ensures Replies(ex, ops)[k] == RunningReply(ops[k])
    {
      ReplyAt(ex, before, after, k);
    }
    if n < |ops| {
      StopReplies(Run(ex, before), after);
      forall k | n <= k < |ops|
        ensures Replies(ex, ops)[k] == StoppedReply(ops[k])
      {
        ReplyAt(ex, before, after, k);
      }
    }
  }

  /** The executor's log grows by exactly the accepted tasks, in submission
      order: each runs once, none after shutdown. */
  lemma {:induction false} RunLog<T, A>(ex: IE.Executor<T, A>, ops: seq<Op<T, A>>)
    ensures Run(ex, ops).log == ex.log + (if IE.IsShutdown(ex) then [] else Accepted(ops))
    decreases |ops|
  {
    if IE.IsShutdown(ex) {
      ShutdownIsFinal(ex, ops);
    } else if ops != [] {
      var next := Step(ex, ops[0]).next;
      if ops[0].Stops() {
        ShutdownIsFinal(next, ops[1..]);
        assert ops[..FirstStop(ops)] == [];
      } else {
        RunLog(next, ops[1..]);
        var n := FirstStop(ops);
        assert ops[..n][0] == ops[0];
        assert ops[..n][1..] == ops[1..][..n - 1];
        assert Accepted(ops) == Submission(ops[0]) + Accepted(ops[1..]);
        assert next.log == ex.log + Submission(ops[0]);
      }
    }
  }

  /** A new executor runs exactly the tasks submitted before its first
      shutdown, in submission order. */
  lemma FreshRunLog<T, A>(ops: seq<Op<T, A>>)
    ensures Run(IE.New<T, A>(), ops).log == Accepted(ops)
  {
    RunLog(IE.New<T, A>(), ops);
  }

  /** An executor is shut down after a trace exactly when it was before, or
      the trace holds a shutdown or a kill. */
  lemma {:induction false} ShutdownIffStopped<T, A>(ex: IE.Executor<T, A>, ops: seq<Op<T, A>>)
    ensures IE.IsShutdown(Run(ex, ops)) <==> IE.IsShutdown(ex) || exists i :: 0 <= i < |ops| && ops[i].Stops()
    decreases |ops|
  {
    if ops != [] {
      var next := Step(ex, ops[0]).next;
      ShutdownIffStopped(next, ops[1..]);
      assert IE.IsShutdown(next) <==> IE.IsShutdown(ex) || ops[0].Stops();
      if exists i :: 0 <= i < |ops| && ops[i].Stops() {
        var i :| 0 <= i < |ops| && ops[i].Stops();
        if i > 0 {
          assert ops[1..][i - 1].Stops();
        }
      }
      if exists j :: 0 <= j < |ops[1..]| && ops[1..][j].Stops() {
        var j :| 0 <= j < |ops[1..]| && ops[1..][j].Stops();
        assert ops[j + 1].Stops();
      }
    }
  }

  /** A wait with no timeout that blocks in a trace is released, with `true`,
      exactly when a later call of the trace shuts the executor down: the
      blocked caller then observes the set event. */
  lemma BlockedWaitReleased<T, A>(ex: IE.Executor<T, A>, ops: seq<Op<T, A>>, k: nat)
    requires IE.IsRunning(ex)
    requires k < |ops| && Replies(ex, ops)[k] == WaitReturned(None)
    ensures ops[k] == WaitForTermination(None)
    ensures IE.IsShutdown(Run(ex, ops)) <==> exists j :: k < j < |ops| && ops[j].Stops()
  {
    TraceReplies(ex, ops);
    assert k < FirstStop(ops);
    ShutdownIffStopped(ex, ops);
    if IE.IsShutdown(Run(ex, ops)) {
      var j :| 0 <= j < |ops| && ops[j].Stops();
      assert k < j;
    }
  }

  /** The executor's event only moves forward: once a trace has set it, no
      later call unsets it. */
  lemma {:induction false} StoppedIsMonotone<T, A>(ex: IE.Executor<T, A>, ops: seq<Op<T, A>>)
    ensures CompletionEvent.Follows(ex.stopped, Run(ex, ops).stopped)
    decreases |ops|
  {
    if ops != [] {
      var next := Step(ex, ops[0]).next;
      assert CompletionEvent.Follows(ex.stopped, next.stopped);
      StoppedIsMonotone(next, ops[1..]);
    }
  }

  /** The three lifecycle queries hold by definition in every state, reachable
      or not: `running?` is the negation of `shutdown?`, `shutdown?` reads the
      event, and `shuttingdown?` is false. */
  lemma QueriesAgree<T, A>(ex: IE.Executor<T, A>)
    ensures IE.IsRunning(ex) <==> !IE.IsShutdown(ex)
    ensures IE.IsShutdown(ex) <==> CompletionEvent.IsSet(ex.stopped)
    ensures !IE.IsShuttingDown(ex)
  {
  }
}

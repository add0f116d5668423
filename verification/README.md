# ImmediateExecutor — a Dafny model

This project models `Concurrent::ImmediateExecutor` from concurrent-ruby. It is a
synchronous executor: `post` runs the task at once, on the caller's thread, and
returns `true`. After `shutdown` (or its alias `kill`), `post` returns `false` and
runs nothing. The lifecycle state lives in a single `Concurrent::Event`, `@stopped`:

- `running?` is `!shutdown?`;
- `shutdown?` reads the event;
- `shuttingdown?` is always `false`.

The model is functional. An executor is an immutable record holding
`stopped`, a completion event, and `log`, the sequence of task invocations
run so far. Each invocation records an opaque task and its arguments. Every
Ruby method becomes a pure function that returns its result together with
the new executor. A `Result` value stands for the `ArgumentError` that `post`
raises when it gets no block.

Modules:

- `Wrappers` (`wrappers.dfy`): `Option` for a block or timeout that may be
  absent, and `Result` for a call that may raise.
- `CompletionEvent` (`event.dfy`): the one behaviour of `Concurrent::Event`
  the executor depends on. It is a boolean that starts unset and stays set
  once set. Setting it again does nothing. `wait` is approximated for a single
  caller.
- `ImmediateExecutor` (`immediate_executor.dfy`): `initialize`, `post`, `<<`,
  the three queries, `shutdown`/`kill` and `wait_for_termination`. The
  queries are the predicates `IsRunning` (`running?`), `IsShuttingDown`
  (`shuttingdown?`) and `IsShutdown` (`shutdown?`). They are plain
  definitions, and `ExecutorTraces.QueriesAgree` states how they relate.
- `ExecutorTraces` (`traces.dfy`): sequences of calls. `Run` gives the executor
  after a trace and `Replies` gives what each call returned. Each is compared
  with a reference definition that is independent of the step function:
  - `Accepted`: the tasks submitted before the first shutdown, in order;
  - `RunningReply` / `StoppedReply`: what each call should return in each
    lifecycle state.

Two details of the code, both modelled:

- `<<` passes its argument as a block (`post(&task)`). A `nil` task therefore
  reaches `post` without a block and raises `ArgumentError`. `Append` models
  this.
- The block check comes before the running check. So a `post` without a block
  raises even on a shut-down executor.

## Model

| member | source | states |
|---|---|---|
| CompletionEvent.Init | lib/concurrent/executor/immediate_executor.rb:20-22 | the executor's event starts unset |
| CompletionEvent.Set | lib/concurrent/executor/immediate_executor.rb:54-56 | after `set` the event is set; setting a set event changes nothing |
| CompletionEvent.SetIdempotent | lib/concurrent/executor/immediate_executor.rb:54-56 | setting twice is the same as setting once |
| CompletionEvent.Wait | lib/concurrent/executor/immediate_executor.rb:61-63 | returns `true` exactly when the event is set; never returns exactly when it is unset and there is no timeout; otherwise returns `false` |
| ImmediateExecutor.New | lib/concurrent/executor/immediate_executor.rb:20-22 | a new executor is running, not shut down and not shutting down, and has run no task |
| ImmediateExecutor.Post | lib/concurrent/executor/immediate_executor.rb:25-30 | raises `ArgumentError("no block given")` exactly when no block is given, checked before the running test; returns `true` exactly when running; a rejected post leaves the log alone; an accepted post appends exactly one invocation, with the given task and args, after the old log; `stopped` never changes |
| ImmediateExecutor.Append | lib/concurrent/executor/immediate_executor.rb:33-36 | `<<` raises exactly when the task is nil; otherwise it returns the executor, which is unchanged when shut down and has one more invocation with no args when running |
| ImmediateExecutor.AppendIsPostWithoutArgs | lib/concurrent/executor/immediate_executor.rb:33-36 | `<<` has the same effect as `post` with no args, whatever `post` returned |
| ImmediateExecutor.Shutdown | lib/concurrent/executor/immediate_executor.rb:54-57 | returns `true`; the executor is shut down and no longer running; the log is untouched; on a shut-down executor it changes nothing |
| ImmediateExecutor.Kill | lib/concurrent/executor/immediate_executor.rb:58 | `kill` is `shutdown`: returns `true`, shuts down, leaves the log |
| ImmediateExecutor.ShutdownIdempotent | lib/concurrent/executor/immediate_executor.rb:54-58 | `shutdown` twice equals `shutdown` once, in any mix with `kill` |
| ImmediateExecutor.WaitForTermination | lib/concurrent/executor/immediate_executor.rb:61-63 | `true` at once when shut down; `false` when running and a timeout is given; never returns when running and no timeout is given |
| ExecutorTraces.ShutdownIsFinal | lib/concurrent/executor/immediate_executor.rb:25-63 | once shut down, no call changes the executor again, and every call returns its shut-down reply (post `false`, shutdown `true`, wait `true`, running? `false`) |
| ExecutorTraces.RunningReplies | lib/concurrent/executor/immediate_executor.rb:25-63 | with no shutdown or kill in a trace, a running executor stays running and every post with a task returns `true` |
| ExecutorTraces.StopReplies | lib/concurrent/executor/immediate_executor.rb:25-63 | from a shutdown or kill on, every call returns its shut-down reply |
| ExecutorTraces.TraceReplies | lib/concurrent/executor/immediate_executor.rb:25-63 | every call before the first shutdown returns its running reply, and every call from the first shutdown on returns its shut-down reply |
| ExecutorTraces.RunLog | lib/concurrent/executor/immediate_executor.rb:6-29 | a trace adds to the log exactly the tasks submitted before the first shutdown, once each, in submission order; it adds nothing to a shut-down executor |
| ExecutorTraces.FreshRunLog | lib/concurrent/executor/immediate_executor.rb:20-29 | a new executor's log after a trace equals the tasks accepted by that trace, in submission order |
| ExecutorTraces.ShutdownIffStopped | lib/concurrent/executor/immediate_executor.rb:49-58 | after a trace, the executor is shut down exactly when it already was or the trace contains a shutdown or kill |
| ExecutorTraces.QueriesAgree | lib/concurrent/executor/immediate_executor.rb:39-51 | for every executor, the query predicates `ImmediateExecutor.IsRunning` (`running?`, lines 39-41), `ImmediateExecutor.IsShuttingDown` (`shuttingdown?`, lines 44-46) and `ImmediateExecutor.IsShutdown` (`shutdown?`, lines 49-51) agree: `running?` is `!shutdown?`, `shutdown?` is whether the event is set, `shuttingdown?` is false; the three predicates are definitions with no contract of their own |
| ExecutorTraces.StoppedIsMonotone | lib/concurrent/executor/immediate_executor.rb:49-58 | over any trace the `stopped` event only moves forward: once set, it is still set after every later call |
| ExecutorTraces.BlockedWaitReleased | lib/concurrent/executor/immediate_executor.rb:54-63 | a no-timeout wait that blocks on a running executor is released, with `true`, exactly when a later call of the trace is a shutdown or kill |

## Left out

- The internals of `Concurrent::Event`: its mutex, condition variable, and the blocking and waking of waiters. `concurrent/atomic/event` is not part of this model. Only its monotone, idempotent flag is modelled.
- The return value of `Event#set`: the executor ignores it, because `shutdown` always returns `true`.
- CompletionEvent.Wait: weaker than the real wait. It is a single-caller approximation: no other caller can set the event while it waits, and timing is not modelled. A wait released by a concurrent `shutdown` is not expressible.
- ImmediateExecutor.WaitForTermination: weaker than the real wait, for the same reason as `Wait`. It never models a release caused by another thread's `shutdown`.
- Concurrent callers: a `post` racing with `shutdown`. A trace here is the sequence of calls in the order they take effect, from any number of callers. A call does not overlap another, except for a no-timeout wait that blocks.
- ExecutorTraces.TraceReplies: weaker than the multi-caller behaviour. A no-timeout wait made before the first shutdown gets the reply `WaitReturned(None)`, meaning its caller is blocked at that point. The later `true` that a subsequent shutdown releases it with is not part of that reply. `ExecutorTraces.BlockedWaitReleased` states the release separately, in terms of the executor's final state.
- Task bodies and their exceptions. A task is an opaque value, and running it is recorded in the log. An exception raised by a task would propagate out of `post`; it is not modelled.
- The `SerialExecutor` mixin and `concurrent/executor/executor`: they are not part of this model.

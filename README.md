# Job-batch worker of the Camunda job executor, in Dafny

This project models `ExecuteJobsRunnable`, the runnable the job executor hands to its
thread pool for one batch of job ids, and proves what one run does. A run:

- creates a fresh job-executor context and copies the batch into that context's
  processor job queue;
- installs the context on the thread;
- drains the queue from the front, one id per iteration;
- removes the context again in a `finally`.

For each id taken from the queue, the worker reads the executor's active flag afresh.
If the flag is set, it issues one `ExecuteJobsCmd` through the transaction-required
command executor. If the flag is cleared, because the executor is shutting down, it
issues one `UnlockJobCmd` instead. When either command throws, the worker catches the
throwable, logs it with the job id, and goes on with the next id.

The model has three modules:

- `JobTrace` (JobTrace.dfy) holds value types and specification functions.
  - `Drain` is the sequence of actions of a drain. Each action is an execution or an
    unlock, each ending normally or failing.
  - `Issued` is the sequence of commands a drain issues.
  - `Handled` is how many ids get an action.
  - `RunTrace` is a whole run: context installed, drain, context removed.
  - Lemmas prove the properties the worker promises: FIFO order, one action and one
    command per id taken, the choice per fresh read, failure isolation, every id
    attempted exactly once, and the context bracketing the run.
- `JobExecution` (ExecuteJobsRunnable.dfy) holds the imperative model.
  - The class `ExecuteJobsRunnable` has the queue, the context flag and the trace as
    fields.
  - Its `Run` method copies the batch, installs the context, drains the queue by
    calling `DrainQueue` and removes the context. `DrainQueue` holds the `while` loop;
    `ProcessNextJob` is one iteration of it.
  - The constructors of `JobExecutor`, `CommandExecutor` and `ProcessEngine` only set
    up the collaborators' oracles. They model no source lines and have no row below.
  - Each method is proved against the `JobTrace` functions.
- `JobScenarios` (Scenarios.dfy) holds three concrete runs over the batch
  `["job1", "job2", "job3"]`:
  - the second job fails;
  - the executor shuts down after the first read;
  - the second read of the active flag throws, and the throwable leaves the loop.

The collaborators are opaque, so they are given as oracles:

- The n-th read of the executor's active flag answers `readAt(n)`: `Active`, `Inactive`
  or `Raised`. `Raised` stands for a throwable raised by the read itself
  (`jobExecutor.isActive()`), which no `catch` guards.
- The n-th command run through the command executor ends as `outcomeAt(n)`: `Ok` or
  `Fail`.

The code has no `catch` around the loop, only a `finally`. So a throwable from the
flag read ends the run and reaches the caller once the context is removed. The model
follows the code here: `Run` returns `escaped`, and the trace then ends with
`ContextRemoved` right after the last completed action. The id taken in the
failing iteration gets no action and is not put back. The ids after it stay in the
queue.

## Model

| member | source | states |
|---|---|---|
| JobExecution.ExecuteJobsRunnable.constructor | engine/src/main/java/org/camunda/bpm/engine/impl/jobexecutor/ExecuteJobsRunnable.java:37-41 | keeps the batch and the engine, and takes the job executor from the engine's configuration; no context is installed and the trace is empty |
| JobExecution.ExecuteJobsRunnable.Run | engine/src/main/java/org/camunda/bpm/engine/impl/jobexecutor/ExecuteJobsRunnable.java:43-76 | the run's trace is exactly `RunTrace` of the batch: context installed, the drain, context removed on every exit path; the commands issued are exactly `Issued` of the batch; `escaped` holds iff some read raised before the batch was drained; on a normal exit the queue is empty, on an escape it holds exactly the ids after the one taken last; one flag read per id taken |
| JobExecution.ExecuteJobsRunnable.DrainQueue | engine/src/main/java/org/camunda/bpm/engine/impl/jobexecutor/ExecuteJobsRunnable.java:52-71 | the loop appends `Drain` of the initial queue to the trace and `Issued` of it to the command executor, leaves the context flag alone, and stops with an empty queue unless a read raised |
| JobExecution.ExecuteJobsRunnable.ProcessNextJob | engine/src/main/java/org/camunda/bpm/engine/impl/jobexecutor/ExecuteJobsRunnable.java:54-70 | one iteration removes the head of the queue and reads the flag once; on `Active` it records an execution of that id and issues `ExecuteJobsCmd` for it, on `Inactive` it records an unlock and issues `UnlockJobCmd`; a failing command is recorded as a failure and does not escape; on `Raised` nothing is recorded or issued |
| JobExecution.ExecuteJobsRunnable.ExecuteJob | engine/src/main/java/org/camunda/bpm/engine/impl/jobexecutor/ExecuteJobsRunnable.java:78-80 | issues exactly one command, `ExecuteJobsCmd` for the given id, and reports how it ended |
| JobExecution.ExecuteJobsRunnable.UnlockJob | engine/src/main/java/org/camunda/bpm/engine/impl/jobexecutor/ExecuteJobsRunnable.java:82-84 | issues exactly one command, `UnlockJobCmd` for the given id, and reports how it ended |
| JobExecution.JobExecutor.IsActive | engine/src/main/java/org/camunda/bpm/engine/impl/jobexecutor/ExecuteJobsRunnable.java:55 | every call is a fresh read of the active flag: the n-th call answers the n-th reading |
| JobExecution.CommandExecutor.Execute | engine/src/main/java/org/camunda/bpm/engine/impl/jobexecutor/ExecuteJobsRunnable.java:79 | running a command appends it to the commands issued, and the n-th command ends as the n-th outcome |
| JobTrace.DrainFollowsQueue | engine/src/main/java/org/camunda/bpm/engine/impl/jobexecutor/ExecuteJobsRunnable.java:52-54 | FIFO: the k-th action is an action on the k-th id of the queue; there is one action per id handled, and no more than the queue holds |
| JobTrace.DrainAt | engine/src/main/java/org/camunda/bpm/engine/impl/jobexecutor/ExecuteJobsRunnable.java:52-70 | for every k before the drain stops, the k-th read did not raise and the k-th action is fixed by the k-th id, the k-th flag read and the k-th command's outcome |
| JobTrace.DrainChoosesPerRead | engine/src/main/java/org/camunda/bpm/engine/impl/jobexecutor/ExecuteJobsRunnable.java:55-70 | the k-th action is an execution iff the k-th read found the flag set, an unlock iff it found it cleared, and a failure iff the k-th command threw |
| JobTrace.HandledAllUnlessRaised | engine/src/main/java/org/camunda/bpm/engine/impl/jobexecutor/ExecuteJobsRunnable.java:52-71 | every id of the queue is handled iff no read during the run raises |
| JobTrace.DrainAttemptsQueuePrefix | engine/src/main/java/org/camunda/bpm/engine/impl/jobexecutor/ExecuteJobsRunnable.java:48-54 | the ids acted on are exactly the first `Handled` ids of the queue, in queue order |
| JobTrace.EveryIdAttemptedOnce | engine/src/main/java/org/camunda/bpm/engine/impl/jobexecutor/ExecuteJobsRunnable.java:48-71 | when no read raises, every id of the batch is acted on exactly once, in batch order, and the number of actions is the size of the batch |
| JobTrace.FailuresDoNotStopTheLoop | engine/src/main/java/org/camunda/bpm/engine/impl/jobexecutor/ExecuteJobsRunnable.java:56-68 | failure isolation: changing how the commands end changes neither the number of actions, nor the ids acted on, nor which action each id gets |
| JobTrace.IssuedMatchesDrain | engine/src/main/java/org/camunda/bpm/engine/impl/jobexecutor/ExecuteJobsRunnable.java:55-70 | the commands a drain issues are exactly the commands behind its actions, whatever the outcomes |
| JobTrace.IssuedAt | engine/src/main/java/org/camunda/bpm/engine/impl/jobexecutor/ExecuteJobsRunnable.java:54-70 | exactly one command per id handled: the k-th command is for the k-th id, `ExecuteJobsCmd` when the k-th read found the flag set and `UnlockJobCmd` otherwise |
| JobTrace.CommandsMatchAttempts | engine/src/main/java/org/camunda/bpm/engine/impl/jobexecutor/ExecuteJobsRunnable.java:78-84 | every action stands for one command on the same id: `ExecuteJobsCmd` for an execution, `UnlockJobCmd` for an unlock |
| JobTrace.RunTraceBracketed | engine/src/main/java/org/camunda/bpm/engine/impl/jobexecutor/ExecuteJobsRunnable.java:50-75 | a run's trace starts with the context being installed and ends with it being removed, with only actions on job ids in between |
| JobScenarios.FailingJobIsIsolated | engine/src/main/java/org/camunda/bpm/engine/impl/jobexecutor/ExecuteJobsRunnable.java:52-71 | with job 2 of 3 throwing, jobs 1 and 3 are still executed, the failure is logged for job 2, and the run ends normally |
| JobScenarios.ShutdownUnlocksTheRest | engine/src/main/java/org/camunda/bpm/engine/impl/jobexecutor/ExecuteJobsRunnable.java:55-70 | once the flag reads cleared, the remaining ids are unlocked and not executed |
| JobScenarios.EscapeStillRemovesContext | engine/src/main/java/org/camunda/bpm/engine/impl/jobexecutor/ExecuteJobsRunnable.java:50-75 | when the second flag read throws, the context is still removed; the second id gets no command and the third stays in the queue |

## Left out

- Job ids that a command appends to the current processor job queue while the loop
  runs are not modelled. The queue changes only through the worker's own removals, so
  the loop ends after at most as many iterations as the batch has ids.
- The thread-local job-executor context is reduced to one flag, `contextSet`.
  Installing the context sets it and removing the context clears it. What
  `Context.setJobExecutorContext` and `Context.removeJobExecutorContext` do beyond that
  is not part of this model.
- The two log lines become the trace events `ExecFailed` and `UnlockFailed`. Their
  message format and the logged throwable are not modelled.
- JobExecution.ExecuteJobsRunnable.ProcessNextJob: models a throwable that leaves the
  loop only when the read of the active flag raises it. An escape from the
  catch-block logging is not modelled: there `LOG.exceptionWhileExecutingJob` or
  `LOG.exceptionWhileUnlockingJob` throws after a failed command. In such a run the
  id's command was already issued, no failure is logged, and the run ends. The model
  cannot produce that run, so `Run` and `DrainQueue` promise nothing about it either.
- What `ExecuteJobsCmd` and `UnlockJobCmd` do is not modelled, and neither is the
  command executor's transaction handling. Each command is recorded, and the outcome
  oracle decides whether it ends normally or throws.
- The active flag is changed concurrently by the executor's shutdown. This appears
  only as the sequence of readings the oracle gives.
- The job's own retry and lock-expiry bookkeeping is not modelled. It belongs to the
  job entity, not to this worker.
- The migration test class `MigrationRemoveBoundaryEventsTest` is not part of this
  model.

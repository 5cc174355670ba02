/**
 The job-batch worker: a runnable that copies its job ids into the processor queue
 of a fresh job-executor context, installs the context, drains the queue from the
 front executing (or, once the executor is no longer active, unlocking) one job per
 id, and removes the context on every exit path. Its obligations are stated against
 the trace functions of JobTrace.
 */
module JobExecution {
  import opened JobTrace

  /** The job executor as the worker sees it: its active flag may be cleared by
      another thread at any time, so the n-th read is answered by `readAt(n)`. */
  class JobExecutor {
    const readAt: nat -> Reading
    var readCount: nat

    constructor (readAt: nat -> Reading)
      ensures this.readAt == readAt && readCount == 0
    {
      this.readAt := readAt;
      readCount := 0;
    }

    /** One fresh read of the active flag. */
    method IsActive() returns (reading: Reading)
      modifies this
      ensures reading == readAt(old(readCount))
      ensures readCount == old(readCount) + 1
    {
      reading := readAt(readCount);
      readCount := readCount + 1;
    }
  }

  /** Runs each command in its own transaction; the n-th command ends as `outcomeAt(n)`.
      `issued` records every command run through it, in order. */
  class CommandExecutor {
    const outcomeAt: nat -> Outcome
    var issued: seq<Command>

    constructor (outcomeAt: nat -> Outcome)
      ensures this.outcomeAt == outcomeAt && issued == []
    {
      this.outcomeAt := outcomeAt;
      issued := [];
    }

    method Execute(command: Command) returns (outcome: Outcome)
      modifies this
      ensures issued == old(issued) + [command]
      ensures outcome == outcomeAt(|old(issued)|)
    {
      outcome := outcomeAt(|issued|);
      issued := issued + [command];
    }
  }

  /** The two collaborators the worker takes from the engine's configuration. */
  class ProcessEngine {
    const jobExecutor: JobExecutor
    const commandExecutorTxRequired: CommandExecutor

    constructor (jobExecutor: JobExecutor, commandExecutorTxRequired: CommandExecutor)
      ensures this.jobExecutor == jobExecutor
      ensures this.commandExecutorTxRequired == commandExecutorTxRequired
    {
      this.jobExecutor := jobExecutor;
      this.commandExecutorTxRequired := commandExecutorTxRequired;
    }
  }

  class ExecuteJobsRunnable {
    const jobIds: seq<JobId>
    const processEngine: ProcessEngine
    const jobExecutor: JobExecutor

    /** The current processor job queue of the job-executor context a run installs. */
    var queue: seq<JobId>
    /** Whether that context is installed as the thread's job-executor context. */
    var contextSet: bool
    /** What the runs of this runnable did, in order. */
    var trace: seq<Event>

    constructor (jobIds: seq<JobId>, processEngine: ProcessEngine)
      ensures this.jobIds == jobIds && this.processEngine == processEngine
      ensures jobExecutor == processEngine.jobExecutor
      ensures queue == [] && !contextSet && trace == []
    {
      this.jobIds := jobIds;
      this.processEngine := processEngine;
      this.jobExecutor := processEngine.jobExecutor;
      queue := [];
      contextSet := false;
      trace := [];
    }

    /** One run over the batch. `escaped` is true when a read of the active flag threw
        and the throwable left the loop;
        the context is removed either way. On a normal exit the queue is empty; on an
        escape it holds the ids after the one taken in the failing iteration, and that
        id received no action. */
    method Run() returns (escaped: bool)
      modifies this, jobExecutor, processEngine.commandExecutorTxRequired
      ensures !contextSet
      ensures trace == old(trace) + RunTrace(jobIds, jobExecutor.readAt,
                                             processEngine.commandExecutorTxRequired.outcomeAt,
                                             old(jobExecutor.readCount),
                                             |old(processEngine.commandExecutorTxRequired.issued)|)
      ensures processEngine.commandExecutorTxRequired.issued ==
                old(processEngine.commandExecutorTxRequired.issued) +
                Issued(jobIds, jobExecutor.readAt, old(jobExecutor.readCount))
      ensures escaped <==> Handled(jobIds, jobExecutor.readAt, old(jobExecutor.readCount)) < |jobIds|
      ensures queue == if escaped then jobIds[Handled(jobIds, jobExecutor.readAt, old(jobExecutor.readCount)) + 1..] else []
      ensures jobExecutor.readCount == old(jobExecutor.readCount) + |jobIds| - |queue|
    {
      var commandExecutor := processEngine.commandExecutorTxRequired;
      ghost var readAt, outcomeAt := jobExecutor.readAt, commandExecutor.outcomeAt;
      ghost var r0, issued0 := jobExecutor.readCount, commandExecutor.issued;

      queue := [];
      queue := queue + jobIds;
      assert queue == jobIds;

      contextSet := true;
      trace := trace + [ContextSet];

      escaped := DrainQueue(commandExecutor);

      contextSet := false;
      trace := trace + [ContextRemoved];
      RunTraceAfter(old(trace), jobIds, readAt, outcomeAt, r0, |issued0|);
    }

    /** The loop of a run: drains the queue from the front, one id per iteration,
        until it is empty or a read of the active flag throws. */
    method DrainQueue(commandExecutor: CommandExecutor) returns (escaped: bool)
      modifies this, jobExecutor, commandExecutor
      ensures contextSet == old(contextSet)
      ensures trace == old(trace) + Drain(old(queue), jobExecutor.readAt, commandExecutor.outcomeAt,
                                          old(jobExecutor.readCount), |old(commandExecutor.issued)|)
      ensures commandExecutor.issued == old(commandExecutor.issued) +
                Issued(old(queue), jobExecutor.readAt, old(jobExecutor.readCount))
      ensures escaped <==> Handled(old(queue), jobExecutor.readAt, old(jobExecutor.readCount)) < |old(queue)|
      ensures queue == if escaped then old(queue)[Handled(old(queue), jobExecutor.readAt, old(jobExecutor.readCount)) + 1..] else []
      ensures jobExecutor.readCount == old(jobExecutor.readCount) + |old(queue)| - |queue|
    {
      ghost var readAt, outcomeAt := jobExecutor.readAt, commandExecutor.outcomeAt;
      ghost var q0, r0, trace0, issued0 := queue, jobExecutor.readCount, trace, commandExecutor.issued;
      ghost var target := Drain(q0, readAt, outcomeAt, r0, |issued0|);
      ghost var handled := Handled(q0, readAt, r0);

      ghost var popped := 0;
      escaped := false;
      while queue != []
        invariant contextSet == old(contextSet) && !escaped
        invariant popped <= |q0| && queue == q0[popped..]
        invariant jobExecutor.readCount == r0 + popped
        invariant trace + Drain(queue, readAt, outcomeAt, jobExecutor.readCount, |commandExecutor.issued|)
                  == trace0 + target
        invariant commandExecutor.issued + Issued(queue, readAt, jobExecutor.readCount)
                  == issued0 + Issued(q0, readAt, r0)
        invariant handled == popped + Handled(queue, readAt, jobExecutor.readCount)
        decreases |queue|
      {
        ghost var readsBefore, issuedBefore, traceBefore, queueBefore :=
          jobExecutor.readCount, commandExecutor.issued, trace, queue;
        escaped := ProcessNextJob(commandExecutor);
        popped := popped + 1;
        if escaped {
          // the throwable from the flag read leaves the loop; the id just taken got no action
          DrainStops(queueBefore, readAt, outcomeAt, readsBefore, |issuedBefore|);
          break;
        }
        DrainAdvance(traceBefore, queueBefore, readAt, outcomeAt, readsBefore, |issuedBefore|);
        IssuedAdvance(issuedBefore, queueBefore, readAt, readsBefore);
      }
      if !escaped {
        DrainStops(queue, readAt, outcomeAt, jobExecutor.readCount, |commandExecutor.issued|);
      }
    }

    /** One iteration of the loop: takes the head of the queue, reads the active flag
        afresh, and executes the job if it is set or unlocks it if not; a command that
        throws is caught and logged with the job's id. `escaped` is true when the
        read of the active flag threw (the taken id then gets no action). */
    method ProcessNextJob(commandExecutor: CommandExecutor) returns (escaped: bool)
      requires queue != []
      modifies this, jobExecutor, commandExecutor
      ensures queue == old(queue)[1..]
      ensures contextSet == old(contextSet)
      ensures jobExecutor.readCount == old(jobExecutor.readCount) + 1
      ensures escaped <==> jobExecutor.readAt(old(jobExecutor.readCount)) == Raised
      ensures escaped ==> trace == old(trace) && commandExecutor.issued == old(commandExecutor.issued)
      ensures !escaped ==>
        var active := jobExecutor.readAt(old(jobExecutor.readCount)) == Active;
        trace == old(trace) + [Attempt(old(queue)[0], active, commandExecutor.outcomeAt(|old(commandExecutor.issued)|))] &&
        commandExecutor.issued == old(commandExecutor.issued) + [CommandFor(old(queue)[0], active)]
    {
      var nextJobId := queue[0];
      queue := queue[1..];
      var reading := jobExecutor.IsActive();
      escaped := reading == Raised;
      if reading == Active {
        var outcome := ExecuteJob(nextJobId, commandExecutor);
        if outcome == Ok {
          trace := trace + [Executed(nextJobId)];
        } else {
          trace := trace + [ExecFailed(nextJobId)];
        }
      } else if reading == Inactive {
        var outcome := UnlockJob(nextJobId, commandExecutor);
        if outcome == Ok {
          trace := trace + [Unlocked(nextJobId)];
        } else {
          trace := trace + [UnlockFailed(nextJobId)];
        }
      }
    }

    /** Issues exactly one ExecuteJobsCmd for the id; `outcome` is Fail when it threw. */
    method ExecuteJob(nextJobId: JobId, commandExecutor: CommandExecutor) returns (outcome: Outcome)
      modifies commandExecutor
      ensures commandExecutor.issued == old(commandExecutor.issued) + [ExecuteJobsCmd(nextJobId)]
      ensures outcome == commandExecutor.outcomeAt(|old(commandExecutor.issued)|)
    {
      outcome := commandExecutor.Execute(ExecuteJobsCmd(nextJobId));
    }

    /** Issues exactly one UnlockJobCmd for the id; `outcome` is Fail when it threw. */
    method UnlockJob(nextJobId: JobId, commandExecutor: CommandExecutor) returns (outcome: Outcome)
      modifies commandExecutor
      ensures commandExecutor.issued == old(commandExecutor.issued) + [UnlockJobCmd(nextJobId)]
      ensures outcome == commandExecutor.outcomeAt(|old(commandExecutor.issued)|)
    {
      outcome := commandExecutor.Execute(UnlockJobCmd(nextJobId));
    }
  }
}

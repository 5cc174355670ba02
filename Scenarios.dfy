/**
 Three concrete runs of the worker over the batch ["job1", "job2", "job3"], each with
 the collaborators answering in a fixed way.
 */
module JobScenarios {
  import opened JobTrace
  import opened JobExecution

  /** The executor stays active and the second command throws: the failure is logged
      and the third job is still executed. */
  method FailingJobIsIsolated() returns (escaped: bool, trace: seq<Event>, issued: seq<Command>)
    ensures !escaped
    ensures trace == [ContextSet, Executed("job1"), ExecFailed("job2"), Executed("job3"), ContextRemoved]
    ensures issued == [ExecuteJobsCmd("job1"), ExecuteJobsCmd("job2"), ExecuteJobsCmd("job3")]
  {
    var jobExecutor := new JobExecutor(n => Active);
    var commandExecutor := new CommandExecutor(n => if n == 1 then Fail else Ok);
    var engine := new ProcessEngine(jobExecutor, commandExecutor);
    var runnable := new ExecuteJobsRunnable(["job1", "job2", "job3"], engine);
    escaped := runnable.Run();
    trace, issued := runnable.trace, commandExecutor.issued;
  }

  /** The executor is shut down after the first read: the first job is executed and the
      remaining two are unlocked, not executed. */
  method ShutdownUnlocksTheRest() returns (escaped: bool, trace: seq<Event>, issued: seq<Command>)
    ensures !escaped
    ensures trace == [ContextSet, Executed("job1"), Unlocked("job2"), Unlocked("job3"), ContextRemoved]
    ensures issued == [ExecuteJobsCmd("job1"), UnlockJobCmd("job2"), UnlockJobCmd("job3")]
  {
    var jobExecutor := new JobExecutor(n => if n == 0 then Active else Inactive);
    var commandExecutor := new CommandExecutor(n => Ok);
    var engine := new ProcessEngine(jobExecutor, commandExecutor);
    var runnable := new ExecuteJobsRunnable(["job1", "job2", "job3"], engine);
    escaped := runnable.Run();
    trace, issued := runnable.trace, commandExecutor.issued;
  }

  /** The second read of the active flag throws: the context is still removed, the id
      taken in that iteration gets no command, and the third id stays in the queue. */
  method EscapeStillRemovesContext() returns (escaped: bool, trace: seq<Event>, issued: seq<Command>, left: seq<JobId>)
    ensures escaped
    ensures trace == [ContextSet, Executed("job1"), ContextRemoved]
    ensures issued == [ExecuteJobsCmd("job1")]
    ensures left == ["job3"]
  {
    var jobExecutor := new JobExecutor(n => if n == 1 then Raised else Active);
    var commandExecutor := new CommandExecutor(n => Ok);
    var engine := new ProcessEngine(jobExecutor, commandExecutor);
    var runnable := new ExecuteJobsRunnable(["job1", "job2", "job3"], engine);
    escaped := runnable.Run();
    trace, issued, left := runnable.trace, commandExecutor.issued, runnable.queue;
  }
}

/**
 The observable behaviour of one run of a job-batch worker (ExecuteJobsRunnable.run):
 which job ids are taken from the processor queue, which command is issued for each,
 how each command ends, and when the job-executor context is installed and removed.

 The collaborators the worker calls are opaque here and are given as oracles:
 - the n-th read of the executor's active flag answers `readAt(n)`;
 - the n-th command issued through the command executor ends as `outcomeAt(n)`.
 */
module JobTrace {

  type JobId = string

  /** What one read of the executor's active flag yields. `Raised` stands for a
      throwable raised by that read itself: it escapes the loop after the job id was
      taken from the queue and before any command was issued for it. */
  datatype Reading = Active | Inactive | Raised

  /** How one command run through the command executor ends: normally, or by
      throwing (which the worker catches and logs). */
  datatype Outcome = Ok | Fail

  /** The two commands the worker issues, each for one job id. */
  datatype Command = ExecuteJobsCmd(jobId: JobId) | UnlockJobCmd(jobId: JobId)

  /** One entry of a run's trace. `ExecFailed` and `UnlockFailed` are the two log
      lines (exception while executing / unlocking the job with that id). */
  datatype Event =
    | ContextSet
    | Executed(jobId: JobId)
    | ExecFailed(jobId: JobId)
    | Unlocked(jobId: JobId)
    | UnlockFailed(jobId: JobId)
    | ContextRemoved
  {
    /** An event that records an action on one job id. */
    predicate IsAttempt() { !ContextSet? && !ContextRemoved? }
    predicate IsExecution() { Executed? || ExecFailed? }
    predicate IsUnlock() { Unlocked? || UnlockFailed? }
    predicate IsFailure() { ExecFailed? || UnlockFailed? }
  }

  /** The event recorded for a job id taken from the queue, given whether the flag
      read in that iteration was set and how the command issued for it ended. */
  function Attempt(id: JobId, active: bool, outcome: Outcome): (e: Event)
  {
    if active then
      if outcome == Ok then Executed(id) else ExecFailed(id)
    else
      if outcome == Ok then Unlocked(id) else UnlockFailed(id)
  }

  /** The command issued for a job id taken from the queue, given whether the flag read
      in that iteration was set. */
  function CommandFor(id: JobId, active: bool): (command: Command)
  {
    if active then ExecuteJobsCmd(id) else UnlockJobCmd(id)
  }

  /** The command behind an action event: the one issued for its id, given whether
      the id was executed or unlocked. */
  function CommandOf(e: Event): (command: Command)
    requires e.IsAttempt()
  {
    CommandFor(e.jobId, e.IsExecution())
  }

  /** The commands behind the action events of a trace, in order. */
  function CommandsOf(events: seq<Event>): (commands: seq<Command>)
  {
    if events == [] then []
    else (if events[0].IsAttempt() then [CommandOf(events[0])] else []) + CommandsOf(events[1..])
  }

  /** The job ids acted on in a trace, in order. */
  function JobIdsOf(events: seq<Event>): (ids: seq<JobId>)
  {
    if events == [] then []
    else (if events[0].IsAttempt() then [events[0].jobId] else []) + JobIdsOf(events[1..])
  }

  /** The actions of draining `queue` from the front, the first flag read being
      read number `r` and the first command being command number `c`. Draining
      stops when the queue is empty or when a read raises. */
  function Drain(queue: seq<JobId>, readAt: nat -> Reading, outcomeAt: nat -> Outcome, r: nat, c: nat): (events: seq<Event>)
    decreases |queue|
  {
    if queue == [] || readAt(r) == Raised then []
    else [Attempt(queue[0], readAt(r) == Active, outcomeAt(c))]
         + Drain(queue[1..], readAt, outcomeAt, r + 1, c + 1)
  }

  /** How many ids at the front of `queue` are acted on before the queue runs
      empty or a read raises. This is `|Drain(..)|` (DrainFollowsQueue), written
      without the outcome oracle, which the count does not depend on. */
  function Handled(queue: seq<JobId>, readAt: nat -> Reading, r: nat): (n: nat)
    ensures n <= |queue|
    decreases |queue|
  {
    if queue == [] || readAt(r) == Raised then 0
    else 1 + Handled(queue[1..], readAt, r + 1)
  }

  /** The commands issued while draining `queue` from the front, the first flag read
      being read number `r`. They do not depend on how earlier commands ended.
      This is `CommandsOf(Drain(..))` for every outcome oracle (IssuedMatchesDrain),
      written as its own recursion so that reasoning about the commands a loop has
      issued need not unfold the trace. */
  function Issued(queue: seq<JobId>, readAt: nat -> Reading, r: nat): (commands: seq<Command>)
    decreases |queue|
  {
    if queue == [] || readAt(r) == Raised then []
    else [CommandFor(queue[0], readAt(r) == Active)] + Issued(queue[1..], readAt, r + 1)
  }

  /** The whole trace of one run over the batch `jobIds`: the context is installed,
      the queue is drained, and the context is removed on every exit path. */
  function RunTrace(jobIds: seq<JobId>, readAt: nat -> Reading, outcomeAt: nat -> Outcome, r: nat, c: nat): (events: seq<Event>)
  {
    [ContextSet] + Drain(jobIds, readAt, outcomeAt, r, c) + [ContextRemoved]
  }

  /** The k-th action of a drain, for every k before the drain stops, is fixed by the
      k-th id of the queue, the k-th flag read and the k-th command's outcome. */
  lemma {:induction false} DrainAt(queue: seq<JobId>, readAt: nat -> Reading, outcomeAt: nat -> Outcome, r: nat, c: nat, k: nat)
    requires k < Handled(queue, readAt, r)
    ensures k < |queue| && k < |Drain(queue, readAt, outcomeAt, r, c)| && readAt(r + k) != Raised
    ensures Drain(queue, readAt, outcomeAt, r, c)[k] == Attempt(queue[k], readAt(r + k) == Active, outcomeAt(c + k))
    decreases k
  {
    if k > 0 {
      DrainAt(queue[1..], readAt, outcomeAt, r + 1, c + 1, k - 1);
      assert r + 1 + (k - 1) == r + k && c + 1 + (k - 1) == c + k;
    }
  }

  /** One step of a drain that goes on: the action on the head, then the drain of the
      rest from the next read and the next command. Appended after earlier entries,
      this is the drain of the whole queue. */
  lemma DrainAdvance(done: seq<Event>, queue: seq<JobId>, readAt: nat -> Reading, outcomeAt: nat -> Outcome, r: nat, c: nat)
    requires queue != [] && readAt(r) != Raised
    ensures (done + [Attempt(queue[0], readAt(r) == Active, outcomeAt(c))])
              + Drain(queue[1..], readAt, outcomeAt, r + 1, c + 1)
            == done + Drain(queue, readAt, outcomeAt, r, c)
    ensures Handled(queue, readAt, r) == 1 + Handled(queue[1..], readAt, r + 1)
  {
  }

  /** The same step for the commands a drain issues. */
  lemma IssuedAdvance(issued: seq<Command>, queue: seq<JobId>, readAt: nat -> Reading, r: nat)
    requires queue != [] && readAt(r) != Raised
    ensures (issued + [CommandFor(queue[0], readAt(r) == Active)]) + Issued(queue[1..], readAt, r + 1)
            == issued + Issued(queue, readAt, r)
  {
  }

  /** A drain whose queue is empty, or whose first read raises, does nothing. */
  lemma DrainStops(queue: seq<JobId>, readAt: nat -> Reading, outcomeAt: nat -> Outcome, r: nat, c: nat)
    requires queue == [] || readAt(r) == Raised
    ensures Drain(queue, readAt, outcomeAt, r, c) == [] && Issued(queue, readAt, r) == []
    ensures Handled(queue, readAt, r) == 0
  {
  }

  /** The pieces of a run, appended to an earlier trace, form that run's trace. */
  lemma RunTraceAfter(before: seq<Event>, jobIds: seq<JobId>, readAt: nat -> Reading, outcomeAt: nat -> Outcome, r: nat, c: nat)
    ensures before + [ContextSet] + Drain(jobIds, readAt, outcomeAt, r, c) + [ContextRemoved]
            == before + RunTrace(jobIds, readAt, outcomeAt, r, c)
  {
  }

  /** FIFO: the k-th action is on the k-th id of the queue, one action per id taken,
      and the number of actions is the number of ids handled. */
  lemma {:induction false} DrainFollowsQueue(queue: seq<JobId>, readAt: nat -> Reading, outcomeAt: nat -> Outcome, r: nat, c: nat)
    ensures Handled(queue, readAt, r) <= |queue|
    ensures |Drain(queue, readAt, outcomeAt, r, c)| == Handled(queue, readAt, r)
    ensures forall k :: 0 <= k < |Drain(queue, readAt, outcomeAt, r, c)| ==>
              Drain(queue, readAt, outcomeAt, r, c)[k].IsAttempt() &&
              Drain(queue, readAt, outcomeAt, r, c)[k].jobId == queue[k]
    decreases |queue|
  {
    if queue != [] && readAt(r) != Raised {
      DrainFollowsQueue(queue[1..], readAt, outcomeAt, r + 1, c + 1);
    }
  }

  /** The action on the k-th id is chosen by the k-th flag read of the run, not once
      for the batch: execution exactly when that read found the flag set, unlock
      exactly when it found it cleared; the action failed exactly when its command
      (the k-th of the run) threw. */
  lemma {:induction false} DrainChoosesPerRead(queue: seq<JobId>, readAt: nat -> Reading, outcomeAt: nat -> Outcome, r: nat, c: nat)
    ensures forall k :: 0 <= k < |Drain(queue, readAt, outcomeAt, r, c)| ==>
              (Drain(queue, readAt, outcomeAt, r, c)[k].IsExecution() <==> readAt(r + k) == Active) &&
              (Drain(queue, readAt, outcomeAt, r, c)[k].IsUnlock() <==> readAt(r + k) == Inactive) &&
              (Drain(queue, readAt, outcomeAt, r, c)[k].IsFailure() <==> outcomeAt(c + k) == Fail)
  {
    var d := Drain(queue, readAt, outcomeAt, r, c);
    DrainFollowsQueue(queue, readAt, outcomeAt, r, c);
    forall k | 0 <= k < |d|
      ensures (d[k].IsExecution() <==> readAt(r + k) == Active) &&
              (d[k].IsUnlock() <==> readAt(r + k) == Inactive) &&
              (d[k].IsFailure() <==> outcomeAt(c + k) == Fail)
    {
      DrainAt(queue, readAt, outcomeAt, r, c, k);
    }
  }

  /** Every id of the queue is handled exactly when no flag read during the run raises. */
  lemma {:induction false} HandledAllUnlessRaised(queue: seq<JobId>, readAt: nat -> Reading, r: nat)
    ensures Handled(queue, readAt, r) == |queue| <==>
            forall n :: r <= n < r + |queue| ==> readAt(n) != Raised
    decreases |queue|
  {
    if queue != [] {
      HandledAllUnlessRaised(queue[1..], readAt, r + 1);
      if readAt(r) == Raised {
        assert Handled(queue, readAt, r) == 0 != |queue|;
      }
    }
  }

  /** The ids acted on are exactly the first `Handled` ids of the queue, in order. */
  lemma {:induction false} DrainAttemptsQueuePrefix(queue: seq<JobId>, readAt: nat -> Reading, outcomeAt: nat -> Outcome, r: nat, c: nat)
    ensures Handled(queue, readAt, r) <= |queue|
    ensures JobIdsOf(Drain(queue, readAt, outcomeAt, r, c)) == queue[..Handled(queue, readAt, r)]
    decreases |queue|
  {
    if queue != [] && readAt(r) != Raised {
      DrainAttemptsQueuePrefix(queue[1..], readAt, outcomeAt, r + 1, c + 1);
      var d := Drain(queue, readAt, outcomeAt, r, c);
      var rest := Drain(queue[1..], readAt, outcomeAt, r + 1, c + 1);
      assert d[1..] == rest;
      assert queue[..Handled(queue, readAt, r)] == [queue[0]] + queue[1..][..Handled(queue[1..], readAt, r + 1)];
    }
  }

  /** When no flag read raises, the run acts on every id of the batch exactly once,
      in the batch's order, and makes exactly as many attempts as the batch has ids. */
  lemma {:induction false} EveryIdAttemptedOnce(jobIds: seq<JobId>, readAt: nat -> Reading, outcomeAt: nat -> Outcome, r: nat, c: nat)
    requires forall n :: r <= n < r + |jobIds| ==> readAt(n) != Raised
    ensures JobIdsOf(Drain(jobIds, readAt, outcomeAt, r, c)) == jobIds
    ensures |Drain(jobIds, readAt, outcomeAt, r, c)| == |jobIds|
  {
    HandledAllUnlessRaised(jobIds, readAt, r);
    DrainAttemptsQueuePrefix(jobIds, readAt, outcomeAt, r, c);
    DrainFollowsQueue(jobIds, readAt, outcomeAt, r, c);
  }

  /** Failure isolation: how the commands end never changes which ids are acted on,
      in which order, or which action each gets; a failed job never stops the loop. */
  lemma {:induction false} FailuresDoNotStopTheLoop(queue: seq<JobId>, readAt: nat -> Reading, outcomeAt1: nat -> Outcome, outcomeAt2: nat -> Outcome, r: nat, c: nat)
    ensures |Drain(queue, readAt, outcomeAt1, r, c)| == |Drain(queue, readAt, outcomeAt2, r, c)|
    ensures forall k :: 0 <= k < |Drain(queue, readAt, outcomeAt1, r, c)| ==>
              Drain(queue, readAt, outcomeAt1, r, c)[k].IsAttempt() &&
              Drain(queue, readAt, outcomeAt2, r, c)[k].IsAttempt() &&
              Drain(queue, readAt, outcomeAt1, r, c)[k].jobId == Drain(queue, readAt, outcomeAt2, r, c)[k].jobId &&
              (Drain(queue, readAt, outcomeAt1, r, c)[k].IsExecution() <==> Drain(queue, readAt, outcomeAt2, r, c)[k].IsExecution())
  {
    DrainFollowsQueue(queue, readAt, outcomeAt1, r, c);
    DrainFollowsQueue(queue, readAt, outcomeAt2, r, c);
    DrainChoosesPerRead(queue, readAt, outcomeAt1, r, c);
    DrainChoosesPerRead(queue, readAt, outcomeAt2, r, c);
  }

  /** One command per action: the commands behind a sequence of actions are, position
      by position, the command of each action, so an ExecuteJobsCmd for each execution
      and an UnlockJobCmd for each unlock, for the same job id. */
  lemma {:induction false} CommandsMatchAttempts(events: seq<Event>)
    requires forall k :: 0 <= k < |events| ==> events[k].IsAttempt()
    ensures |CommandsOf(events)| == |events|
    ensures forall k :: 0 <= k < |events| ==>
              events[k].IsAttempt() &&
              CommandsOf(events)[k] == CommandOf(events[k]) &&
              CommandsOf(events)[k].jobId == events[k].jobId &&
              (CommandsOf(events)[k].ExecuteJobsCmd? <==> events[k].IsExecution())
    decreases |events|
  {
    if events != [] {
      CommandsMatchAttempts(events[1..]);
      assert forall k :: 1 <= k < |events| ==> CommandsOf(events)[k] == CommandsOf(events[1..])[k - 1];
    }
  }

  /** The commands issued by a drain are exactly the commands behind its actions:
      one per action, for the same id, ExecuteJobsCmd for an execution and
      UnlockJobCmd for an unlock, whatever the outcomes. */
  lemma {:induction false} IssuedMatchesDrain(queue: seq<JobId>, readAt: nat -> Reading, outcomeAt: nat -> Outcome, r: nat, c: nat)
    ensures Issued(queue, readAt, r) == CommandsOf(Drain(queue, readAt, outcomeAt, r, c))
    decreases |queue|
  {
    if queue != [] && readAt(r) != Raised {
      IssuedMatchesDrain(queue[1..], readAt, outcomeAt, r + 1, c + 1);
      var d := Drain(queue, readAt, outcomeAt, r, c);
      assert d[1..] == Drain(queue[1..], readAt, outcomeAt, r + 1, c + 1);
    }
  }

  /** Exactly one command per id handled: the k-th command of a drain is for the k-th
      id of the queue, an ExecuteJobsCmd when the k-th flag read found the flag set and
      an UnlockJobCmd when it found it cleared. */
  lemma {:induction false} IssuedAt(queue: seq<JobId>, readAt: nat -> Reading, r: nat)
    ensures |Issued(queue, readAt, r)| == Handled(queue, readAt, r)
    ensures forall k :: 0 <= k < |Issued(queue, readAt, r)| ==>
              k < |queue| && Issued(queue, readAt, r)[k] == CommandFor(queue[k], readAt(r + k) == Active)
    decreases |queue|
  {
    if queue != [] && readAt(r) != Raised {
      IssuedAt(queue[1..], readAt, r + 1);
      var issued := Issued(queue, readAt, r);
      var rest := Issued(queue[1..], readAt, r + 1);
      assert issued == [CommandFor(queue[0], readAt(r) == Active)] + rest;
      forall k | 0 <= k < |issued|
        ensures k < |queue| && issued[k] == CommandFor(queue[k], readAt(r + k) == Active)
      {
        if k > 0 {
          assert issued[k] == rest[k - 1] && queue[1..][k - 1] == queue[k];
          assert r + 1 + (k - 1) == r + k;
        }
      }
    }
  }

  /** The context brackets the run: it is installed before the first action and
      removed after the last, and every entry in between is an action on a job id. */
  lemma RunTraceBracketed(jobIds: seq<JobId>, readAt: nat -> Reading, outcomeAt: nat -> Outcome, r: nat, c: nat)
    ensures |RunTrace(jobIds, readAt, outcomeAt, r, c)| == Handled(jobIds, readAt, r) + 2
    ensures RunTrace(jobIds, readAt, outcomeAt, r, c)[0] == ContextSet
    ensures RunTrace(jobIds, readAt, outcomeAt, r, c)[|RunTrace(jobIds, readAt, outcomeAt, r, c)| - 1] == ContextRemoved
    ensures forall i :: 0 < i < |RunTrace(jobIds, readAt, outcomeAt, r, c)| - 1 ==>
              RunTrace(jobIds, readAt, outcomeAt, r, c)[i].IsAttempt()
  {
    DrainFollowsQueue(jobIds, readAt, outcomeAt, r, c);
    var d := Drain(jobIds, readAt, outcomeAt, r, c);
    var t := RunTrace(jobIds, readAt, outcomeAt, r, c);
    forall i | 0 < i < |t| - 1 ensures t[i].IsAttempt() {
      assert t[i] == d[i - 1];
    }
  }
}

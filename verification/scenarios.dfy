/** End-to-end runs of the supervisor on small concrete environments: a run
    whose only job completes, one whose job fails, one whose job never reaches
    the queue, and one whose launcher fails. */
module Scenarios {
  import opened Results
  import Seqs
  import opened Slurm
  import opened LatestJobs
  import opened Supervisor

  const RunId: string := "run123"

  /** A successful query answer listing `jobs`, taking one second. */
  function Answer(jobs: seq<Job>): QueryResponse
  {
    QueryResponse(0, jobs, "", 1)
  }

  /** The run's only job as the live queue lists it. */
  const Queued: Job := Job("run123-step1", ["PENDING"], [], 0)

  /** The run's only job as accounting lists it, ended in `state`. */
  function Finished(state: string): Job
  {
    Job("run123-step1", [], [state], 1500)
  }

  /** The launcher exits with `code` after five seconds; the first `queued`
      live-queue queries list the job, later ones list nothing; accounting
      reports the job ended in `state`. */
  function Scenario(code: int, queued: nat, state: string): Environment
  {
    Environment(
      "alice", 1000, ExitStatus(code, "", 5),
      (user: string, n: nat) => if n < queued then Answer([Queued]) else Answer([]),
      (since: int) => Answer([Finished(state)]))
  }

  lemma QueuedIsLive()
    ensures SlurmSqueue(Some(RunId), Answer([Queued])) == Ok([Queued])
    ensures SlurmSqueue(Some(RunId), Answer([])) == Ok([])
  {
    assert RunId <= Queued.name;
    assert IsLive(Queued);
    assert [Queued][1..] == [];
    assert ByRunId(Some(RunId), [Queued]) == [Queued];
    assert Seqs.Filter([Queued], IsLive) == [Queued];
  }

  lemma QueueAnswers(queued: nat, state: string, n: nat)
    ensures LiveJobs(Scenario(0, queued, state), RunId, n) == if n < queued then Ok([Queued]) else Ok([])
  {
    QueuedIsLive();
    var env := Scenario(0, queued, state);
    assert env.liveQueue(env.user, n) == if n < queued then Answer([Queued]) else Answer([]);
  }

  /** Every poll of a phase takes one second and sees the job exactly while
      fewer than `queued` queries have been made. */
  lemma ScenarioPoll(queued: nat, state: string, first: nat, k: nat)
    ensures PhasePolls(Scenario(0, queued, state), RunId, first)(k) ==
              Poll(if first + k < queued then Ok([Queued]) else Ok([]), 1)
  {
    var env := Scenario(0, queued, state);
    QueueAnswers(queued, state, first + k);
    assert env.liveQueue(env.user, first + k) == if first + k < queued then Answer([Queued]) else Answer([]);
  }

  /** The launch is confirmed by its first poll, six seconds after the start. */
  lemma ScenarioLaunch(queued: nat, state: string)
    requires queued > 0
    ensures Launch(Scenario(0, queued, state), RunId) == Polled(Ok(1000), 1, 1006)
  {
    var env := Scenario(0, queued, state);
    QueueAnswers(queued, state, 0);
    LaunchConfirmedAtFirstJob(env, RunId);
    ScenarioPoll(queued, state, 0, 0);
  }

  /** Monitoring from query 1 on sees the job twice and an empty queue at its
      third poll. */
  lemma ScenarioMonitor(state: string, t0: int)
    ensures Monitor(Scenario(0, 3, state), RunId, 1, t0, RunTimeout) == Polled(Ok(()), 3, t0 + 63)
  {
    var polls := PhasePolls(Scenario(0, 3, state), RunId, 1);
    ScenarioPoll(3, state, 1, 0);
    ScenarioPoll(3, state, 1, 1);
    ScenarioPoll(3, state, 1, 2);
    assert PollEnds(polls, t0, MonitorPause, 0) == t0 + 1;
    assert PollEnds(polls, t0, MonitorPause, 1) == t0 + 32;
    assert PollEnds(polls, t0, MonitorPause, 2) == t0 + 63;
    var p := Monitor(Scenario(0, 3, state), RunId, 1, t0, RunTimeout);
    assert p.polls - 1 != 0;
    assert p.polls - 1 != 1;
    assert p.polls - 1 == 2;
    assert p.result.Ok?;
    assert p.result.value == ();
    assert p.clock == t0 + 63;
  }

  lemma SacctAnswer(state: string)
    ensures SlurmSacct(Some(RunId), None, Answer([Finished(state)])) == Ok([Finished(state)])
  {
    var job := Finished(state);
    assert [job][1..] == [];
    assert RunId <= job.name;
    assert ByRunId(Some(RunId), [job]) == [job];
  }

  lemma ClassifyOne(state: string)
    ensures Classify([Finished(state)]) ==
              if state == "COMPLETED" then Ok(())
              else Err(PipelineFailed([FailureReport("run123-step1", [state])]))
  {
    var job := Finished(state);
    assert [job][..0] == [];
    assert FilterLatest([job]) == [job];
    assert [job][1..] == [];
    assert Completed(job) <==> state == "COMPLETED";
    if state == "COMPLETED" {
      assert Classify([job]).value == ();
    } else {
      assert Seqs.Filter([job], (j: Job) => !Completed(j)) == [job];
      assert Seqs.Map([job], Report) == [Report(job)];
    }
  }

  /** Accounting lists the job once, ended in `state`. */
  lemma ScenarioCheck(queued: nat, state: string)
    ensures Check(Scenario(0, queued, state), RunId, 1000) ==
              if state == "COMPLETED" then Ok(())
              else Err(PipelineFailed([FailureReport("run123-step1", [state])]))
  {
    var env := Scenario(0, queued, state);
    assert env.history(1000) == Answer([Finished(state)]);
    SacctAnswer(state);
    ClassifyOne(state);
  }

  /** The job shows up at once, the queue is empty at the third
      monitoring poll, and accounting says COMPLETED: the run succeeds after four
      live-queue queries. */
  lemma ScenarioCompletes()
    ensures var run := Supervise(Scenario(0, 3, "COMPLETED"), RunId, RunTimeout);
            run.entered == Pipeline && run.result.Ok? && run.queueCalls == 4
  {
    ScenarioLaunch(3, "COMPLETED");
    ScenarioMonitor("COMPLETED", 1006);
    ScenarioCheck(3, "COMPLETED");
  }

  /** The same run as in `ScenarioCompletes`, but accounting says FAILED: the run fails and reports
      the job with its state. */
  lemma ScenarioFails()
    ensures var run := Supervise(Scenario(0, 3, "FAILED"), RunId, RunTimeout);
            && run.entered == Pipeline
            && run.result == Err(PipelineFailed([FailureReport("run123-step1", ["FAILED"])]))
  {
    ScenarioLaunch(3, "FAILED");
    ScenarioMonitor("FAILED", 1006);
    ScenarioCheck(3, "FAILED");
  }

  /** The launcher succeeds but no job of the run ever reaches the
      queue: the launch is not confirmed and nothing else runs. */
  lemma ScenarioNeverQueued()
    ensures var run := Supervise(Scenario(0, 0, "COMPLETED"), RunId, RunTimeout);
            run.entered == [Launching] && run.result == Err(LaunchNotConfirmed)
  {
    var p := Launch(Scenario(0, 0, "COMPLETED"), RunId);
    ScenarioPoll(0, "COMPLETED", 0, p.polls - 1);
  }

  /** A launcher that exits nonzero fails the run before any queue query. */
  lemma ScenarioLauncherFails()
    ensures var run := Supervise(Scenario(1, 3, "COMPLETED"), RunId, RunTimeout);
            run.entered == [Launching] && run.result == Err(LaunchFailed("")) && run.queueCalls == 0
  {
  }

  /** The record of the next lemma: COMPLETED, but not in first position. */
  const LateCompleted: Job := Job("run123-step1", [], ["FAILED", "COMPLETED"], 10)

  lemma LateCompletedPassesCheck()
    ensures Classify([LateCompleted]).Ok?
  {
    var job := LateCompleted;
    assert [job][..0] == [];
    assert FilterLatest([job]) == [job];
    assert Completed(job);
  }

  lemma LateCompletedFailsStateFilter()
    ensures SlurmSacct(None, Some(["COMPLETED"]), Answer([LateCompleted])) == Ok([])
  {
    var job := LateCompleted;
    assert [job][1..] == [];
    assert ByRunId(None, [job]) == [job];
    assert !InStates(job, ["COMPLETED"]);
    assert Seqs.Filter([job], (j: Job) => InStates(j, ["COMPLETED"])) == [];
  }

  /** `check` accepts a record whose state list holds COMPLETED in any
      position, while sacct's state filter reads only the first position: the
      same record passes the one and is dropped by the other. */
  lemma StateListReadDifferently()
    ensures Classify([LateCompleted]).Ok?
    ensures SlurmSacct(None, Some(["COMPLETED"]), Answer([LateCompleted])) == Ok([])
  {
    LateCompletedPassesCheck();
    LateCompletedFailsStateFilter();
  }
}

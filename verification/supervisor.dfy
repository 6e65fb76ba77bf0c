/** The supervisor of `supervisor_python/start.py`: `launch`, `monitor` and
    `check`, run in that order by `main`.

    Everything outside the decision logic is an input. The clock is an integer
    (seconds); the environment supplies the launcher's exit status, the answer to
    every live-queue query in call order, and the accounting answer for a given
    start date. Each external call takes the time its answer says, and each
    `time.sleep` advances the clock by its argument. */
module Supervisor {
  import opened Results
  import opened Seqs
  import opened Slurm
  import opened LatestJobs

  /** `launch` gives up when no job was seen within this many seconds (two minutes). */
  const ConfirmDeadline: int := 120
  /** `launch` sleeps this long between queue polls. */
  const ConfirmPause: nat := 10
  /** `monitor` sleeps this long between queue polls. */
  const MonitorPause: nat := 30
  /** The timeout `main` hands to `monitor` (twenty minutes). */
  const RunTimeout: int := 1200

  /** Exit code and standard error of the pipeline launcher, and its run time. */
  datatype ExitStatus = ExitStatus(returnCode: int, stderr: string, took: nat)

  /** Everything the supervisor learns from outside. */
  datatype Environment = Environment(
    user: string,                                // the acting user, `os.environ["USER"]`
    start: int,                                  // clock reading `launch` records before the launcher runs
    launcher: ExitStatus,                        // how the launcher command ends
    liveQueue: (string, nat) -> QueryResponse,   // squeue's answer to the n-th query of the run, for a user
    history: int -> QueryResponse)               // sacct's answer for a window opening at the given time

  /** How a polling phase ended: its result, how many polls it made, and the
      clock reading when it returned. */
  datatype Polled<T> = Polled(result: Result<T>, polls: nat, clock: int)

  /** One live-queue poll as a phase sees it: the filtered job list (or the
      query's failure) and how long the query took. */
  datatype Poll = Poll(seen: Result<seq<Job>>, took: nat)

  /** The live jobs of the run reported by the n-th squeue query of the run. */
  function LiveJobs(env: Environment, runId: string, n: nat): Result<seq<Job>>
  {
    SlurmSqueue(Some(runId), env.liveQueue(env.user, n))
  }

  /** The polls of a phase whose first poll is the run's query number `first`. */
  function PhasePolls(env: Environment, runId: string, first: nat): nat -> Poll
  {
    (k: nat) => Poll(LiveJobs(env, runId, first + k), env.liveQueue(env.user, first + k).took)
  }

  /** Clock reading when the k-th poll of a phase begins, for a phase whose
      first poll begins at `t0` and which sleeps `pause` between polls. */
  function PollBegins(polls: nat -> Poll, t0: int, pause: nat, k: nat): int
    decreases k, 0
  {
    if k == 0 then t0 else PollEnds(polls, t0, pause, k - 1) + pause
  }

  /** Clock reading when the k-th poll of a phase has returned. */
  function PollEnds(polls: nat -> Poll, t0: int, pause: nat, k: nat): int
    decreases k, 1
  {
    PollBegins(polls, t0, pause, k) + polls(k).took
  }

  /** Polls are at least `pause` apart. */
  lemma {:induction false} PollEndsAtLeast(polls: nat -> Poll, t0: int, pause: nat, k: nat)
    ensures PollEnds(polls, t0, pause, k) >= t0 + pause * k
    decreases k
  {
    if k > 0 {
      PollEndsAtLeast(polls, t0, pause, k - 1);
    }
  }

  // ----- launch -----

  /** How `launch`'s confirmation loop ends when started at its k-th poll, for a
      launch that recorded `start` and whose first poll begins at `t0`: every
      poll before the last found no job within the deadline, and the last poll
      decides. A query error is passed on; a poll with jobs returns `start`; an
      empty poll ends the loop only past the deadline, with
      `LaunchNotConfirmed`. */
  ghost predicate ConfirmEnds(polls: nat -> Poll, start: int, t0: int, k: nat, p: Polled<int>)
  {
    && p.polls > k
    && (forall j :: k <= j < p.polls - 1 ==>
          polls(j).seen == Ok([]) && PollEnds(polls, t0, ConfirmPause, j) - start <= ConfirmDeadline)
    && var last := polls(p.polls - 1).seen;
       && p.clock == PollEnds(polls, t0, ConfirmPause, p.polls - 1)
       && (last.Err? ==> p.result == Err(last.error))
       && (p.result.Ok? <==> last.Ok? && |last.value| > 0)
       && (p.result.Ok? ==> p.result.value == start)
       && (last == Ok([]) ==> p.clock - start > ConfirmDeadline && p.result == Err(LaunchNotConfirmed))
  }

  /** The `while True` loop of `launch`, from its k-th poll on, at clock `t`. */
  function ConfirmLoop(polls: nat -> Poll, start: int, t0: int, k: nat, t: int): (p: Polled<int>)
    requires t == PollBegins(polls, t0, ConfirmPause, k)
    ensures ConfirmEnds(polls, start, t0, k, p)
    decreases if t - start > ConfirmDeadline then 0 else ConfirmDeadline + 1 - (t - start)
  {
    var now := t + polls(k).took;
    var seen := polls(k).seen;
    if seen.Err? then
      Polled(Err(seen.error), k + 1, now)
    else if |seen.value| > 0 then
      Polled(Ok(start), k + 1, now)
    else if now - start > ConfirmDeadline then
      Polled(Err(LaunchNotConfirmed), k + 1, now)
    else
      ConfirmLoop(polls, start, t0, k + 1, now + ConfirmPause)
  }

  /** The confirmation loop makes at most fourteen polls when its first poll
      begins no earlier than `start`: one each at elapsed times 0, 10, ..., 120
      at the earliest, and one more that sees the deadline passed. */
  lemma ConfirmBounded(polls: nat -> Poll, start: int, t0: int, p: Polled<int>)
    requires t0 >= start
    requires ConfirmEnds(polls, start, t0, 0, p)
    ensures p.polls <= ConfirmDeadline / ConfirmPause + 2
  {
    if p.polls >= 2 {
      var j := p.polls - 2;
      PollEndsAtLeast(polls, t0, ConfirmPause, j);
      assert polls(j).seen == Ok([]);
    }
  }

  /** `launch`: run the launcher; if it exits nonzero fail without polling,
      else poll the queue until a job of the run shows up. */
  function Launch(env: Environment, runId: string): (p: Polled<int>)
    ensures env.launcher.returnCode != 0 ==> p.result == Err(LaunchFailed(env.launcher.stderr)) && p.polls == 0
    ensures env.launcher.returnCode == 0 ==>
              ConfirmEnds(PhasePolls(env, runId, 0), env.start, env.start + env.launcher.took, 0, p)
    ensures p.polls <= ConfirmDeadline / ConfirmPause + 2
  {
    var launched := env.start + env.launcher.took;
    if env.launcher.returnCode != 0 then
      Polled(Err(LaunchFailed(env.launcher.stderr)), 0, launched)
    else
      var polls := PhasePolls(env, runId, 0);
      var p := ConfirmLoop(polls, env.start, launched, 0, launched);
      ConfirmBounded(polls, env.start, launched, p);
      p
  }

  /** A launch whose first poll already shows a job is confirmed by that poll. */
  lemma LaunchConfirmedAtFirstJob(env: Environment, runId: string)
    requires env.launcher.returnCode == 0
    requires LiveJobs(env, runId, 0).Ok? && |LiveJobs(env, runId, 0).value| > 0
    ensures Launch(env, runId).result == Ok(env.start)
    ensures Launch(env, runId).polls == 1
  {
    var p := Launch(env, runId);
    var polls := PhasePolls(env, runId, 0);
    assert polls(0).seen == LiveJobs(env, runId, 0);
  }

  // ----- monitor -----

  /** How `monitor`'s loop ends when started at its k-th poll, for a monitor
      that read the clock as `t0` on entry: every poll before the last still
      found jobs within the timeout, and the last poll decides. A query error is
      passed on; an empty poll succeeds, whatever the clock says; a poll with
      jobs ends the loop only once the timeout has elapsed, with
      `MonitorTimedOut`. */
  ghost predicate MonitorEnds(polls: nat -> Poll, t0: int, timeout: int, k: nat, p: Polled<()>)
  {
    && p.polls > k
    && (forall j :: k <= j < p.polls - 1 ==>
          && polls(j).seen.Ok?
          && |polls(j).seen.value| > 0
          && PollEnds(polls, t0, MonitorPause, j) - t0 < timeout)
    && var last := polls(p.polls - 1).seen;
       && p.clock == PollEnds(polls, t0, MonitorPause, p.polls - 1)
       && (last.Err? ==> p.result == Err(last.error))
       && (p.result.Ok? <==> last == Ok([]))
       && (last.Ok? && |last.value| > 0 ==> p.clock - t0 >= timeout && p.result == Err(MonitorTimedOut(timeout)))
  }

  /** The `while True` loop of `monitor`, from its k-th poll on, at clock `t`. */
  function MonitorLoop(polls: nat -> Poll, t0: int, timeout: int, k: nat, t: int): (p: Polled<()>)
    requires t == PollBegins(polls, t0, MonitorPause, k)
    ensures MonitorEnds(polls, t0, timeout, k, p)
    decreases if t - t0 >= timeout then 0 else timeout - (t - t0)
  {
    var now := t + polls(k).took;
    var seen := polls(k).seen;
    if seen.Err? then
      Polled(Err(seen.error), k + 1, now)
    else if |seen.value| == 0 then
      Polled(Ok(()), k + 1, now)
    else if now - t0 >= timeout then
      Polled(Err(MonitorTimedOut(timeout)), k + 1, now)
    else
      MonitorLoop(polls, t0, timeout, k + 1, now + MonitorPause)
  }

  /** `monitor`: poll the queue, starting with the run's query number `first`
      at clock `t0`, until the run has no queued or running job. With a timeout of
      zero or less it stops after one poll; otherwise every 30-second pause
      but the one before its last poll fits within the timeout. */
  function Monitor(env: Environment, runId: string, first: nat, t0: int, timeout: int): (p: Polled<()>)
    ensures MonitorEnds(PhasePolls(env, runId, first), t0, timeout, 0, p)
    ensures p.polls == 1 || MonitorPause * (p.polls - 2) < timeout
    ensures timeout <= 0 ==> p.polls == 1
  {
    var polls := PhasePolls(env, runId, first);
    var p := MonitorLoop(polls, t0, timeout, 0, t0);
    if p.polls >= 2 then
      PollEndsAtLeast(polls, t0, MonitorPause, p.polls - 2);
      p
    else
      p
  }

  /** An empty queue ends monitoring successfully even when the timeout has
      already elapsed: the emptiness test comes before the timeout test. */
  lemma MonitorEmptyBeatsTimeout(env: Environment, runId: string, first: nat, t0: int, timeout: int)
    requires LiveJobs(env, runId, first) == Ok([])
    ensures Monitor(env, runId, first, t0, timeout).result == Ok(())
    ensures Monitor(env, runId, first, t0, timeout).polls == 1
  {
    var polls := PhasePolls(env, runId, first);
    assert polls(0).seen == LiveJobs(env, runId, first);
  }

  // ----- check -----

  /** `check` counts a record as successful when COMPLETED occurs anywhere in
      its current state list. */
  predicate Completed(j: Job)
  {
    "COMPLETED" in j.stateCurrent
  }

  /** The failure summary line for a record. */
  function Report(j: Job): FailureReport
  {
    FailureReport(j.name, j.stateCurrent)
  }

  /** Deduplicate the accounting records and fail when any kept record lacks
      COMPLETED, reporting those records. */
  function Classify(records: seq<Job>): (r: Result<()>)
    ensures r.Ok? <==> forall j :: j in FilterLatest(records) ==> Completed(j)
    ensures r.Err? ==> r.error.PipelineFailed? && |r.error.failures| > 0
  {
    var failed := Filter(FilterLatest(records), (j: Job) => !Completed(j));
    if |failed| == 0 then Ok(())
    else Err(PipelineFailed(Map(failed, Report)))
  }

  /** Filtering keeps names distinct. */
  lemma {:induction false} FilterKeepsDistinctNames(s: seq<Job>, keep: Job -> bool)
    requires DistinctNames(s)
    ensures DistinctNames(Filter(s, keep))
    decreases |s|
  {
    if |s| > 0 {
      FilterKeepsDistinctNames(s[1..], keep);
      var rest := Filter(s[1..], keep);
      forall x | x in rest ensures x.name != s[0].name {
        var k :| 0 <= k < |s[1..]| && s[1..][k] == x;
        assert s[k + 1] == x;
      }
      if keep(s[0]) {
        var r := [s[0]] + rest;
        assert Filter(s, keep) == r;
        forall a, b | 0 <= a < b < |r| ensures r[a].name != r[b].name {
          assert r[b] == rest[b - 1];
          if a > 0 {
            assert r[a] == rest[a - 1];
          }
        }
      }
    }
  }

  /** The failures `check` reports are exactly the deduplicated records that
      lack COMPLETED, one line per name, in deduplication order. */
  lemma ClassifyReports(records: seq<Job>)
    ensures Classify(records).Err? ==>
            var latest := FilterLatest(records);
            var failures := Classify(records).error.failures;
            && IsSubsequence(failures, Map(latest, Report))
            && (forall f :: f in failures <==> exists j :: j in latest && !Completed(j) && f == Report(j))
            && (forall a, b :: 0 <= a < b < |failures| ==> failures[a].name != failures[b].name)
  {
    if Classify(records).Err? {
      var latest := FilterLatest(records);
      var failed := Filter(latest, (j: Job) => !Completed(j));
      assert Classify(records).error.failures == Map(failed, Report);
      MapSubsequence(failed, latest, Report);
      FilterKeepsDistinctNames(latest, (j: Job) => !Completed(j));
      ReportsDistinct(failed);
      ReportsOf(latest, failed);
    }
  }

  /** Reports of records with distinct names have distinct names. */
  lemma ReportsDistinct(failed: seq<Job>)
    requires DistinctNames(failed)
    ensures var failures := Map(failed, Report);
            forall a, b :: 0 <= a < b < |failures| ==> failures[a].name != failures[b].name
  {
    var failures := Map(failed, Report);
    forall a, b | 0 <= a < b < |failures| ensures failures[a].name != failures[b].name {
      assert failures[a] == Report(failed[a]) && failures[b] == Report(failed[b]);
    }
  }

  /** The reports of `failed` are the reports of the records of `latest` that
      lack COMPLETED, when `failed` holds exactly those records. */
  lemma ReportsOf(latest: seq<Job>, failed: seq<Job>)
    requires forall j :: j in failed <==> j in latest && !Completed(j)
    ensures forall f :: f in Map(failed, Report) <==> exists j :: j in latest && !Completed(j) && f == Report(j)
  {
    var failures := Map(failed, Report);
    forall f | f in failures ensures exists j :: j in latest && !Completed(j) && f == Report(j) {
      var k :| 0 <= k < |failures| && failures[k] == f;
      assert failed[k] in failed;
    }
    forall f | exists j :: j in latest && !Completed(j) && f == Report(j) ensures f in failures {
      var j :| j in latest && !Completed(j) && f == Report(j);
      var k :| 0 <= k < |failed| && failed[k] == j;
      assert failures[k] == f;
    }
  }

  /** `check`: query the run's accounting records since `start` and classify
      them. */
  function Check(env: Environment, runId: string, start: int): (r: Result<()>)
    ensures env.history(start).returnCode != 0 ==> r == Err(QueryFailed(Sacct, env.history(start).stderr))
    ensures env.history(start).returnCode == 0 ==>
              && SlurmSacct(Some(runId), None, env.history(start)).Ok?
              && r == Classify(SlurmSacct(Some(runId), None, env.history(start)).value)
  {
    match SlurmSacct(Some(runId), None, env.history(start))
    case Err(e) => Err(e)
    case Ok(records) => Classify(records)
  }

  // ----- main -----

  datatype Phase = Launching | Monitoring | Checking

  /** The order in which `main` runs the phases. */
  const Pipeline: seq<Phase> := [Launching, Monitoring, Checking]

  /** A supervised run: the phases entered, the outcome, and the number of
      live-queue queries made. */
  datatype Run = Run(entered: seq<Phase>, result: Result<()>, queueCalls: nat)

  /** `main` after argument parsing: launch, monitor, check, stopping at the
      first failure. */
  function Supervise(env: Environment, runId: string, timeout: int): (run: Run)
    ensures 1 <= |run.entered| <= |Pipeline| && run.entered == Pipeline[..|run.entered|]
    ensures |run.entered| < |Pipeline| ==> run.result.Err?
    ensures |run.entered| == 1 <==> Launch(env, runId).result.Err?
    ensures env.launcher.returnCode != 0 ==>
              run.result == Err(LaunchFailed(env.launcher.stderr)) && run.queueCalls == 0 && |run.entered| == 1
    ensures run.entered == Pipeline ==> run.result == Check(env, runId, env.start)
    ensures run.result.Ok? ==> run.entered == Pipeline && Launch(env, runId).result == Ok(env.start)
  {
    var launched := Launch(env, runId);
    match launched.result
    case Err(e) => Run([Launching], Err(e), launched.polls)
    case Ok(start) =>
      var monitored := Monitor(env, runId, launched.polls, launched.clock, timeout);
      match monitored.result
      case Err(e) => Run([Launching, Monitoring], Err(e), launched.polls + monitored.polls)
      case Ok(_) => Run(Pipeline, Check(env, runId, start), launched.polls + monitored.polls)
  }

  /** A failing phase is the last one entered and its failure is the run's. */
  lemma SuperviseShortCircuits(env: Environment, runId: string, timeout: int)
    ensures var run := Supervise(env, runId, timeout);
            var launched := Launch(env, runId);
            var monitored := Monitor(env, runId, launched.polls, launched.clock, timeout);
            && (launched.result.Err? ==> run.entered == [Launching] && run.result == Err(launched.result.error))
            && (launched.result.Ok? && monitored.result.Err? ==>
                  run.entered == [Launching, Monitoring] && run.result == Err(monitored.result.error))
            && (launched.result.Ok? && monitored.result.Ok? ==> run.entered == Pipeline)
  {
  }
}

/** The two scheduler queries of `supervisor_python/slurm.py`, `slurm_squeue` and
    `slurm_sacct`, reduced to what happens after the command returns: the exit
    code check and the client-side filters over the parsed job records. Running
    the command and decoding its JSON are not modelled; the parsed `jobs` array
    arrives as part of a `QueryResponse`. */
module Slurm {
  import opened Results
  import opened Seqs

  /** One job record as the scheduler reports it. `jobState` is squeue's
      `job_state`, `stateCurrent` is sacct's `state.current`, `endTime` is sacct's
      `time.end`. */
  datatype Job = Job(name: string, jobState: seq<string>, stateCurrent: seq<string>, endTime: int)

  /** What a scheduler command hands back: its exit code, the records parsed from
      its standard output, its standard error, and the clock time it took. */
  datatype QueryResponse = QueryResponse(returnCode: int, jobs: seq<Job>, stderr: string, took: nat)

  /** The live states squeue's records must be in to count as queued. */
  const LiveStates: seq<string> := ["PENDING", "RUNNING"]

  /** A record belongs to the run: no run id was given, or the name starts with it. */
  predicate Prefixed(runId: Option<string>, j: Job)
  {
    runId.None? || runId.value <= j.name
  }

  /** The live-queue record's first state is PENDING or RUNNING. */
  predicate IsLive(j: Job)
  {
    |j.jobState| > 0 && j.jobState[0] in LiveStates
  }

  /** The accounting record's first state is one of `states`. */
  predicate InStates(j: Job, states: seq<string>)
  {
    |j.stateCurrent| > 0 && j.stateCurrent[0] in states
  }

  /** Python's `if state:` — a state list that is given and non-empty. */
  predicate FiltersStates(states: Option<seq<string>>)
  {
    states.Some? && |states.value| > 0
  }

  /** The name filter both queries apply when the run id is truthy (given and
      non-empty). An empty run id keeps everything, as does the prefix test
      with the empty prefix. */
  function ByRunId(runId: Option<string>, jobs: seq<Job>): (r: seq<Job>)
    ensures IsSubsequence(r, jobs)
    ensures forall j :: multiset(r)[j] == if Prefixed(runId, j) then multiset(jobs)[j] else 0
    ensures forall j :: j in r <==> j in jobs && Prefixed(runId, j)
  {
    if runId.Some? && runId.value != "" then
      Filter(jobs, (j: Job) => runId.value <= j.name)
    else
      SubsequenceReflexive(jobs);
      jobs
  }

  /** `slurm_squeue`: the user's queued and running jobs of the run. */
  function SlurmSqueue(runId: Option<string>, resp: QueryResponse): (r: Result<seq<Job>>)
    ensures resp.returnCode != 0 <==> r == Err(QueryFailed(Squeue, resp.stderr))
    ensures r == Err(MissingState) <==>
              resp.returnCode == 0 && exists j :: j in resp.jobs && Prefixed(runId, j) && |j.jobState| == 0
    ensures r.Ok? <==>
              resp.returnCode == 0 && forall j :: j in resp.jobs && Prefixed(runId, j) ==> |j.jobState| > 0
    ensures r.Ok? ==> IsSubsequence(r.value, resp.jobs)
    ensures r.Ok? ==> forall j :: j in r.value ==> |j.jobState| > 0 && j.jobState[0] in LiveStates
    ensures r.Ok? && runId.Some? ==> forall j :: j in r.value ==> runId.value <= j.name
    ensures r.Ok? ==> forall j ::
              multiset(r.value)[j] == if Prefixed(runId, j) && IsLive(j) then multiset(resp.jobs)[j] else 0
  {
    if resp.returnCode != 0 then
      Err(QueryFailed(Squeue, resp.stderr))
    else
      var named := ByRunId(runId, resp.jobs);
      if exists j :: j in named && |j.jobState| == 0 then
        Err(MissingState)
      else
        var live := Filter(named, IsLive);
        SubsequenceTransitive(live, named, resp.jobs);
        Ok(live)
  }

  /** `slurm_sacct`: the run's accounting records, optionally restricted to
      records whose first current state is in `states`. The time window is
      applied by the scheduler and is already reflected in `resp`. */
  function SlurmSacct(runId: Option<string>, states: Option<seq<string>>, resp: QueryResponse): (r: Result<seq<Job>>)
    ensures resp.returnCode != 0 <==> r == Err(QueryFailed(Sacct, resp.stderr))
    ensures r == Err(MissingState) <==>
              && resp.returnCode == 0
              && FiltersStates(states)
              && exists j :: j in resp.jobs && Prefixed(runId, j) && |j.stateCurrent| == 0
    ensures r.Ok? <==>
              && resp.returnCode == 0
              && (!FiltersStates(states) || forall j :: j in resp.jobs && Prefixed(runId, j) ==> |j.stateCurrent| > 0)
    ensures resp.returnCode == 0 && !FiltersStates(states) ==> r.Ok?
    ensures r.Ok? ==> IsSubsequence(r.value, resp.jobs)
    ensures r.Ok? && runId.Some? ==> forall j :: j in r.value ==> runId.value <= j.name
    ensures r.Ok? && FiltersStates(states) ==> forall j :: j in r.value ==> |j.stateCurrent| > 0 && j.stateCurrent[0] in states.value
    ensures r.Ok? ==> forall j ::
              multiset(r.value)[j] ==
                if Prefixed(runId, j) && (!FiltersStates(states) || InStates(j, states.value))
                then multiset(resp.jobs)[j] else 0
  {
    if resp.returnCode != 0 then
      Err(QueryFailed(Sacct, resp.stderr))
    else
      var named := ByRunId(runId, resp.jobs);
      if FiltersStates(states) then
        if exists j :: j in named && |j.stateCurrent| == 0 then
          Err(MissingState)
        else
          var kept := Filter(named, (j: Job) => InStates(j, states.value));
          SubsequenceTransitive(kept, named, resp.jobs);
          Ok(kept)
      else
        Ok(named)
  }
}

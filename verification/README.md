# supervisor-python, modelled in Dafny

The supervisor launches a batch pipeline on a Slurm cluster and watches it through to the end. First it runs the pipeline's launcher. Then it polls `squeue` until a job of the run shows up (`launch`). Next it polls `squeue` until no job of the run is pending or running (`monitor`). Last it reads the run's `sacct` accounting records, keeps the latest record per job name, and fails if any kept record lacks `COMPLETED` (`check`). This project models that decision logic. It covers the client-side filters of both scheduler queries, the per-name deduplication, the terminal classification, the two polling loops, and the order in which `main` runs the phases. It proves what each of these guarantees.

Modules:

- `Results` (results.dfy): `Option`, `Result` and the `Failure` kinds. These are the source's `RuntimeError`s, plus the `IndexError` an empty state list causes.
- `Seqs` (seqs.dfy): an order-preserving `Filter`, `Map`, and an `IsSubsequence` relation.
- `Slurm` (slurm.dfy): the `Job` record, a query's `QueryResponse`, `SlurmSqueue` and `SlurmSacct`.
- `LatestJobs` (latest_jobs.dfy): `FilterLatest`, which models `filter_latest_slurm_jobs`, and its characterisation.
- `Supervisor` (supervisor.dfy): `Launch`, `Monitor`, `Classify`/`Check` and `Supervise` (`main`'s phase order), over an abstract clock.
- `Scenarios` (scenarios.dfy): end-to-end runs on concrete environments.

Time is an integer number of seconds, so durations shorter than a second, which `datetime.datetime.now()` can measure, are not represented. Each external call takes the time its answer says (`took`). `time.sleep(n)` advances the clock by `n`. The live queue's answers come as a stream indexed by user and call number, so both polling loops are total functions. On this clock, which never goes backwards, their termination follows from the deadline and the timeout.

Behaviour of the code that the model keeps:

- Deduplication ties: `filter_latest_slurm_jobs` replaces a stored record only when the new end time is strictly greater (supervisor_python/slurm.py:86). So of two same-named records with equal end times, the one seen first is kept.
- Two state tests: `check` counts a record as successful when `COMPLETED` occurs anywhere in `state.current` (supervisor_python/start.py:75). `slurm_sacct`'s state filter reads only the first element of that list (supervisor_python/slurm.py:71). `Scenarios.StateListReadDifferently` shows one record that the two tests treat differently.
- Monitor timeout: `monitor` gives up once the elapsed time is greater than or equal to the timeout (supervisor_python/start.py:62).
- Confirmation deadline: `launch` records `start` before it runs the launcher (supervisor_python/start.py:23), and its two-minute test measures from that `start` (supervisor_python/start.py:34). So the launcher's own run time counts against the deadline.

## Model

| member | source | states |
|---|---|---|
| `Seqs.Filter` | supervisor_python/slurm.py:25 | a list comprehension keeps exactly the elements satisfying its test, each as often as in the input, in input order |
| `Slurm.ByRunId` | supervisor_python/slurm.py:24-25 | the run-id filter yields an order-preserving subsequence holding exactly the records whose name starts with the run id; an absent or empty run id keeps every record |
| `Slurm.SlurmSqueue` | supervisor_python/slurm.py:15-31 | a nonzero exit yields the squeue error and no jobs; an empty `job_state` on a record of the run yields the index error; otherwise the result is an order-preserving subsequence of the parsed jobs, every returned job's first state is PENDING or RUNNING whether or not a run id is given, every returned name starts with a given run id, and every input record passing both tests is kept with its multiplicity |
| `Slurm.SlurmSacct` | supervisor_python/slurm.py:57-73 | a nonzero exit yields the sacct error; with no (or an empty) state list there is no state filtering and no error; with a state list, an empty `state.current` on a record of the run yields the index error, and the query succeeds exactly when no such record exists; every returned record's first current state is in the list; returned records are an order-preserving subsequence with exactly the matching records kept |
| `LatestJobs.IndexOfName` | supervisor_python/slurm.py:86 | the position of the first record with a name, or the length when there is none (the `name not in recent_jobs` test) |
| `LatestJobs.KeepPreserves` | supervisor_python/slurm.py:83-87 | one loop iteration keeps the dictionary a correct selection of the records seen so far |
| `LatestJobs.FilterLatest` | supervisor_python/slurm.py:76-89 | output names are distinct and are exactly the input names; each output record is the input record of its name with maximal end time, ties going to the earliest; names appear in order of first occurrence |
| `LatestJobs.LatestUnique` | supervisor_python/slurm.py:86-87 | the latest record of a name is unique, so the output is fully determined by the input |
| `LatestJobs.FilterLatestFromInput` | supervisor_python/slurm.py:82-89 | every output record is an element of the input |
| `LatestJobs.FilterLatestCount` | supervisor_python/slurm.py:82-89 | the output has one record per distinct input name; empty input gives empty output and only empty input does |
| `LatestJobs.FilterLatestOfDistinct` | supervisor_python/slurm.py:83-87 | records whose names are already distinct pass through unchanged |
| `LatestJobs.FilterLatestIdempotent` | supervisor_python/slurm.py:76-89 | deduplicating twice equals deduplicating once |
| `LatestJobs.TieKeepsFirstSeen` | supervisor_python/slurm.py:86 | of two same-named records with equal end time, the first seen is kept |
| `Supervisor.PollEndsAtLeast` | supervisor_python/start.py:39 | with a pause of `p` between polls, the k-th poll ends no earlier than `k * p` after the first began |
| `Supervisor.ConfirmLoop` | supervisor_python/start.py:29-39 | the loop's polls before the last each saw no job within the two-minute deadline; the last poll decides: a query error is passed on, a poll with jobs returns the recorded start, an empty poll stops only past the deadline and fails with the not-confirmed error |
| `Supervisor.ConfirmBounded` | supervisor_python/start.py:34-39 | the confirmation loop makes at most 14 polls |
| `Supervisor.Launch` | supervisor_python/start.py:19-41 | a nonzero launcher exit fails the launch before any queue poll; otherwise the confirmation loop's characterisation holds, with the start recorded before the launcher ran |
| `Supervisor.LaunchConfirmedAtFirstJob` | supervisor_python/start.py:30-32 | when the first poll already lists a job, launch succeeds after that one poll and returns the start |
| `Supervisor.MonitorLoop` | supervisor_python/start.py:53-65 | the loop's polls before the last each still listed jobs within the timeout; the last poll decides: a query error is passed on, success exactly when it listed no job, and a poll with jobs stops only once elapsed time is at least the timeout, failing with the timeout error |
| `Supervisor.Monitor` | supervisor_python/start.py:44-65 | the monitor loop's characterisation from the clock reading taken on entry; with a timeout of zero or less the loop makes exactly one poll, and otherwise every 30-second pause but the one before the last poll fits within the timeout (`30 * (polls - 2) < timeout`): the second-to-last poll ended before the timeout ran out |
| `Supervisor.MonitorEmptyBeatsTimeout` | supervisor_python/start.py:56-63 | an empty first poll ends monitoring successfully even when the timeout has already elapsed |
| `Supervisor.Classify` | supervisor_python/start.py:74-81 | the run succeeds if and only if every deduplicated record has COMPLETED somewhere in its state list; otherwise it fails with a non-empty failure list |
| `Supervisor.ClassifyReports` | supervisor_python/start.py:75-79 | the reported failures are exactly the name and state list of each deduplicated record lacking COMPLETED, one per name, in deduplication order |
| `Supervisor.FilterKeepsDistinctNames` | supervisor_python/start.py:75 | filtering the deduplicated records keeps their names distinct |
| `Supervisor.Check` | supervisor_python/start.py:68-81 | a nonzero sacct exit fails the check with the sacct error; otherwise sacct cannot fail on state lists here, and the outcome is the classification of its records |
| `Supervisor.Supervise` | supervisor_python/start.py:98-107 | the phases entered are a prefix of launch, monitor, check; a run that stops early has failed; only a launch failure stops after the first phase; a failed launcher means no queue query; check receives the start launch recorded; success means every phase ran and succeeded |
| `Supervisor.SuperviseShortCircuits` | supervisor_python/start.py:99-107 | a failing phase is the last one entered and its failure is the run's result |
| `Scenarios.ScenarioCompletes` | supervisor_python/start.py:99-107 | a job that shows up at once, leaves the queue by the third monitoring poll and ends COMPLETED gives a successful run after four queue queries |
| `Scenarios.ScenarioFails` | supervisor_python/start.py:75-80 | the same run ending FAILED fails, reporting the job's name with its state list |
| `Scenarios.ScenarioNeverQueued` | supervisor_python/start.py:34-37 | a job that never reaches the queue ends the run in the launch phase with the not-confirmed error |
| `Scenarios.ScenarioLauncherFails` | supervisor_python/start.py:24-26 | a launcher exiting nonzero ends the run with the launch error and no queue query |
| `Scenarios.StateListReadDifferently` | supervisor_python/start.py:75 | a record with COMPLETED in second position passes `check` but is dropped by the sacct state filter for COMPLETED |

## Left out

- Running the commands (`subprocess.run`), building their command strings and decoding their JSON are not modelled. A query's exit code, standard error and parsed `jobs` array arrive as a `QueryResponse`.
- The `sacct` time window is not modelled. This covers the `strftime` formatting and the default start and end dates. The window is applied by the scheduler, so the accounting answer is an input keyed by the start date.
- `time.sleep` and `datetime.now()` are replaced by the abstract clock. Sleeps add their argument. Every external call takes the duration its answer carries.
- `os.environ["USER"]` becomes the environment's `user`. The user only scopes the live-queue answers, which are inputs.
- `print` output is left out. It has no bearing on the outcome.
- `os.makedirs` is not modelled (supervisor_python/start.py:19). It can raise before the launcher runs, for instance when the directory cannot be created, and that ends the run. `Launch` assumes the working directory can be created.
- The clock is assumed never to go backwards. The source reads `datetime.datetime.now()`, which is local wall-clock time. A daylight-saving fall-back or a clock step can move it back, and then both loops keep polling for longer. The poll bounds of `Supervisor.ConfirmBounded` and `Supervisor.Monitor`, and the termination of both loops, hold only for a clock that never goes back. Here the clock advances by each call's `took` and by each sleep.
- `argparse` and the generation of the run id from the clock in `main` are left out. `Supervise` takes the run id and the timeout as parameters, and `RunTimeout` is the twenty minutes `main` passes.
- Records with missing keys, and `time.end` values that are not integers, are left out. Malformed JSON is a parsing concern, and the `Job` datatype always has every field.
- The launcher's standard output is left out. Only its exit code, standard error and duration matter.

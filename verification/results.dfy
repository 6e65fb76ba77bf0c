/** The failures the supervisor can raise and the result type that carries them.
    Every `RuntimeError` of the Python source, and the `IndexError` of an empty
    state list (supervisor_python/slurm.py:29, supervisor_python/slurm.py:71),
    becomes a `Failure` value, so that each error path is an ordinary result. */
module Results {

  /** An optional argument: Python's `None` or a value. */
  datatype Option<+T> = None | Some(value: T)

  /** The scheduler command behind a failed query. */
  datatype Command = Squeue | Sacct

  /** One line of the failure summary printed by `check`: a job name and its
      accounting state list. */
  datatype FailureReport = FailureReport(name: string, states: seq<string>)

  datatype Failure =
    | QueryFailed(command: Command, stderr: string)  // a scheduler query exited nonzero
    | MissingState                                   // a state list read at position 0 was empty
    | LaunchFailed(stderr: string)                   // the pipeline launcher exited nonzero
    | LaunchNotConfirmed                             // no job reached the queue within the deadline
    | MonitorTimedOut(timeout: int)                  // jobs were still queued when the timeout passed
    | PipelineFailed(failures: seq<FailureReport>)   // some job did not end COMPLETED

  datatype Result<+T> = Ok(value: T) | Err(error: Failure)
}

/** A job record and the conditional updates `JobService` makes to it. */
module JobRecords {
  import opened Lib

  type JobId = nat
  type WorkerId = nat

  datatype Status = Queued | Running | Done | Dead

  /** The fields of a job the protocol depends on. Times are in microseconds. */
  datatype Job = Job(status: Status, attempts: nat, runAt: int, leaseUntil: Option<int>, worker: Option<WorkerId>)

  datatype Config = Config(maxAttempts: nat, timeout: nat)

  /** How one run of a handler came out; a missing handler or any `LookupError` fails for good. */
  datatype Outcome = Returned | Raised(permanent: bool)

  function NewJob(runAt: int): Job {
    Job(Queued, 0, runAt, None, None)
  }

  predicate Expired(job: Job, now: int) {
    job.status.Running? && job.leaseUntil.Some? && job.leaseUntil.value < now
  }

  /** `run_once`'s first write: back to queued if the lease ran out before `now`. */
  function ExpireJob(job: Job, now: int): Job {
    if Expired(job, now) then job.(status := Queued, leaseUntil := None) else job
  }

  predicate Due(job: Job, now: int) {
    job.status.Queued? && job.runAt <= now
  }

  /** `_claim` by a worker whose snapshot shows `seen` attempts and who read the time `now`. */
  function ClaimJob(cfg: Config, job: Job, seen: nat, now: int, worker: WorkerId): Job {
    if !job.status.Queued? then job
    else if seen + 1 > cfg.maxAttempts then job.(status := Dead)
    else job.(status := Running, attempts := seen + 1, leaseUntil := Some(now + 2 * cfg.timeout),
              worker := Some(worker))
  }

  predicate ClaimWins(cfg: Config, job: Job, seen: nat) {
    job.status.Queued? && seen + 1 <= cfg.maxAttempts
  }

  /** What a run's outcome does to the record: done, dead, or queued again after `delay`. */
  function Settled(cfg: Config, job: Job, seen: nat, outcome: Outcome, now: int, delay: nat): Job {
    match outcome
    case Returned => job.(status := Done, leaseUntil := None)
    case Raised(permanent) =>
      if permanent || seen + 1 >= cfg.maxAttempts then job.(status := Dead, leaseUntil := None)
      else job.(status := Queued, runAt := now + delay, leaseUntil := None)
  }

  predicate HeldBy(job: Job, worker: WorkerId) {
    job.status.Running? && job.worker == Some(worker)
  }

  /** `_finish`: conditional on the record still being this worker's. */
  function FinishJob(cfg: Config, job: Job, worker: WorkerId, seen: nat, outcome: Outcome, now: int, delay: nat): Job {
    if HeldBy(job, worker) then Settled(cfg, job, seen, outcome, now, delay) else job
  }

  /** `retry`: a dead job starts over. */
  function RetryJob(job: Job, now: int): Job {
    if job.status.Dead? then job.(status := Queued, attempts := 0, runAt := now) else job
  }
}

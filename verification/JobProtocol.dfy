/** Workers, clock and job records as a machine whose steps interleave freely. Each worker is
    sequential; it may crash anywhere (and come back under a new id) or abandon a pass. */
module JobProtocol {
  import opened Lib
  import opened JobRecords

  /** A due job as `find_many` returned it: its id and the attempts stored at that moment. */
  datatype Snapshot = Snapshot(id: JobId, attempts: nat)

  /** Where a worker is in `run_once`; `todo` are the snapshots it has yet to try. */
  datatype Phase =
    | Resting
    | Sweeping(now: int)                                        // requeueing expired leases
    | Trying(todo: seq<Snapshot>)
    | Claiming(snap: Snapshot, now: int, todo: seq<Snapshot>)   // `_claim` has read the time
    | Claimed(snap: Snapshot, now: int, claim: nat, todo: seq<Snapshot>)
    | Executing(snap: Snapshot, now: int, start: int, claim: nat, todo: seq<Snapshot>)
    | Reporting(snap: Snapshot, claim: nat, outcome: Outcome, todo: seq<Snapshot>)

  datatype Worker = Worker(id: WorkerId, phase: Phase)

  /** A record with its history: how often it was claimed, and retried by an administrator. */
  datatype Entry = Entry(job: Job, claims: nat, retries: nat)

  datatype State = State(clock: int, entries: map<JobId, Entry>, workers: seq<Worker>, nextWorker: WorkerId)

  datatype Event =
    | Tick(elapsed: nat)
    | Enqueue(id: JobId, runAt: int)
    | BeginPass(w: nat)
    | Expire(w: nat, id: JobId)
    | Find(w: nat, ids: seq<JobId>)
    | ReadClock(w: nat)
    | Claim(w: nat)
    | Start(w: nat)
    | Finish(w: nat, outcome: Outcome)
    | Report(w: nat, delay: nat)
    | Crash(w: nat)
    | Abandon(w: nat)
    | AdminRetry(id: JobId)

  function SetPhase(s: State, w: nat, phase: Phase): (t: State)
    requires w < |s.workers|
    ensures |t.workers| == |s.workers| && t.clock == s.clock && t.entries == s.entries
  {
    s.(workers := s.workers[w := s.workers[w].(phase := phase)])
  }

  predicate Distinct(ids: seq<JobId>) {
    forall i, j | 0 <= i < j < |ids| :: ids[i] != ids[j]
  }

  predicate HasActor(e: Event) {
    !e.Tick? && !e.Enqueue? && !e.AdminRetry?
  }

  predicate Enabled(s: State, e: Event) {
    && (HasActor(e) ==> e.w < |s.workers|)
    && match e
      case Tick(_) => true
      case Enqueue(id, _) => id !in s.entries
      case BeginPass(w) => s.workers[w].phase.Resting?
      case Expire(w, id) => s.workers[w].phase.Sweeping? && id in s.entries
      case Find(w, ids) =>
        && s.workers[w].phase.Sweeping? && Distinct(ids)
        && forall id | id in ids :: id in s.entries && Due(s.entries[id].job, s.workers[w].phase.now)
      case ReadClock(w) => s.workers[w].phase.Trying? && s.workers[w].phase.todo != []
      case Claim(w) => s.workers[w].phase.Claiming? && s.workers[w].phase.snap.id in s.entries
      case Start(w) => s.workers[w].phase.Claimed?
      case Finish(w, outcome) =>
        s.workers[w].phase.Executing? || (s.workers[w].phase.Claimed? && outcome == Raised(true))  // no handler
      case Report(w, _) => s.workers[w].phase.Reporting? && s.workers[w].phase.snap.id in s.entries
      case Crash(_) => true
      case Abandon(w) => !s.workers[w].phase.Executing?
      case AdminRetry(id) => id in s.entries
  }

  function Snapshots(s: State, ids: seq<JobId>): (r: seq<Snapshot>)
    requires forall id | id in ids :: id in s.entries
    ensures |r| == |ids|
    ensures forall i | 0 <= i < |ids| :: r[i] == Snapshot(ids[i], s.entries[ids[i]].job.attempts)
  {
    seq(|ids|, i requires 0 <= i < |ids| => Snapshot(ids[i], s.entries[ids[i]].job.attempts))
  }

  function SetJob(s: State, id: JobId, job: Job): State
    requires id in s.entries
  {
    s.(entries := s.entries[id := s.entries[id].(job := job)])
  }

  function Next(cfg: Config, s: State, e: Event): (t: State)
    requires Enabled(s, e)
    ensures |t.workers| == |s.workers| && t.entries.Keys >= s.entries.Keys
  {
    match e
    case Tick(elapsed) => s.(clock := s.clock + elapsed)
    case Enqueue(id, runAt) => s.(entries := s.entries[id := Entry(NewJob(runAt), 0, 0)])
    case BeginPass(w) => SetPhase(s, w, Sweeping(s.clock))
    case Expire(w, id) => SetJob(s, id, ExpireJob(s.entries[id].job, s.workers[w].phase.now))
    case Find(w, ids) => SetPhase(s, w, Trying(Snapshots(s, ids)))
    case ReadClock(w) =>
      var todo := s.workers[w].phase.todo;
      SetPhase(s, w, Claiming(todo[0], s.clock, todo[1..]))
    case Claim(w) => DoClaim(cfg, s, w)
    case Start(w) =>
      var p := s.workers[w].phase;
      SetPhase(s, w, Executing(p.snap, p.now, s.clock, p.claim, p.todo))
    case Finish(w, outcome) =>
      var p := s.workers[w].phase;
      SetPhase(s, w, Reporting(p.snap, p.claim, outcome, p.todo))
    case Report(w, delay) => DoReport(cfg, s, w, delay)
    case Crash(w) => s.(workers := s.workers[w := Worker(s.nextWorker, Resting)], nextWorker := s.nextWorker + 1)
    case Abandon(w) => SetPhase(s, w, Resting)
    case AdminRetry(id) =>
      var entry := s.entries[id];
      s.(entries := s.entries[id := Entry(RetryJob(entry.job, s.clock), entry.claims,
                                          entry.retries + if entry.job.status.Dead? then 1 else 0)])
  }

  function DoClaim(cfg: Config, s: State, w: nat): (t: State)
    requires Enabled(s, Claim(w))
    ensures |t.workers| == |s.workers| && t.entries.Keys == s.entries.Keys
  {
    var p := s.workers[w].phase;
    var entry := s.entries[p.snap.id];
    var job := ClaimJob(cfg, entry.job, p.snap.attempts, p.now, s.workers[w].id);
    var won := ClaimWins(cfg, entry.job, p.snap.attempts);
    var claims := entry.claims + if won then 1 else 0;
    SetPhase(s.(entries := s.entries[p.snap.id := entry.(job := job, claims := claims)]), w,
             if won then Claimed(p.snap, p.now, claims, p.todo) else Trying(p.todo))
  }

  function DoReport(cfg: Config, s: State, w: nat, delay: nat): (t: State)
    requires Enabled(s, Report(w, delay))
    ensures |t.workers| == |s.workers| && t.entries.Keys == s.entries.Keys
  {
    var p := s.workers[w].phase;
    var job := FinishJob(cfg, s.entries[p.snap.id].job, s.workers[w].id, p.snap.attempts, p.outcome, s.clock, delay);
    SetPhase(SetJob(s, p.snap.id, job), w, Trying(p.todo))
  }

  /** No records, and workers with distinct ids that have not begun. */
  predicate Init(s: State) {
    && s.entries == map[]
    && (forall i | 0 <= i < |s.workers| :: s.workers[i].phase.Resting? && s.workers[i].id < s.nextWorker)
    && (forall i, j | 0 <= i < j < |s.workers| :: s.workers[i].id != s.workers[j].id)
  }

  // ---- runs ------------------------------------------------------------------------------------------

  /** The events can happen one after the other from `s`. */
  predicate IsRun(cfg: Config, s: State, es: seq<Event>)
    decreases |es|
  {
    es == [] || (Enabled(s, es[0]) && IsRun(cfg, Next(cfg, s, es[0]), es[1..]))
  }

  function After(cfg: Config, s: State, es: seq<Event>): (t: State)
    requires IsRun(cfg, s, es)
    ensures |t.workers| == |s.workers| && t.entries.Keys >= s.entries.Keys
    decreases |es|
  {
    if es == [] then s else After(cfg, Next(cfg, s, es[0]), es[1..])
  }

  // ---- timing ------------------------------------------------------------------------------------------

  /** The latest moment a worker may still be where it is: a handler starts within `slack` of the
      time its claim read, and is stopped `timeout` after it started. */
  function Deadline(cfg: Config, slack: nat, phase: Phase): Option<int> {
    match phase
    case Claiming(_, now, _) => Some(now + slack)
    case Claimed(_, now, _, _) => Some(now + slack)
    case Executing(_, _, start, _, _) => Some(start + cfg.timeout)
    case _ => None
  }

  predicate Timely(cfg: Config, slack: nat, s: State, e: Event) {
    e.Tick? ==> forall i | 0 <= i < |s.workers| ::
      var d := Deadline(cfg, slack, s.workers[i].phase);
      d.Some? ==> s.clock + e.elapsed <= d.value
  }

  predicate TimelyRun(cfg: Config, slack: nat, s: State, es: seq<Event>)
    requires IsRun(cfg, s, es)
    decreases |es|
  {
    es == [] || (Timely(cfg, slack, s, es[0]) && TimelyRun(cfg, slack, Next(cfg, s, es[0]), es[1..]))
  }
}

/** What holds of the job queue in every run, however its workers interleave, crash and restart. */
module JobProofs {
  import opened Lib
  import opened JobRecords
  import opened JobProtocol

  // ---- what a worker holds ------------------------------------------------------------------------------

  /** The snapshots a worker has yet to use, the one it is claiming first. */
  function Unused(phase: Phase): seq<Snapshot> {
    match phase
    case Trying(todo) => todo
    case Claiming(snap, _, todo) => [snap] + todo
    case Claimed(_, _, _, todo) => todo
    case Executing(_, _, _, _, todo) => todo
    case Reporting(_, _, _, todo) => todo
    case _ => []
  }

  /** The attempts an unused snapshot of `id` shows, if the worker has one. */
  function Held(snaps: seq<Snapshot>, id: JobId): Option<nat> {
    if snaps == [] then None
    else if snaps[0].id == id then Some(snaps[0].attempts)
    else Held(snaps[1..], id)
  }

  predicate DistinctSnaps(snaps: seq<Snapshot>) {
    forall i, j | 0 <= i < j < |snaps| :: snaps[i].id != snaps[j].id
  }

  lemma {:induction false} HeldIsMember(snaps: seq<Snapshot>, id: JobId)
    ensures Held(snaps, id).Some? ==> Snapshot(id, Held(snaps, id).value) in snaps
    ensures Held(snaps, id).None? ==> forall x | x in snaps :: x.id != id
  {
    if snaps != [] {
      HeldIsMember(snaps[1..], id);
    }
  }

  /** The claim a worker won and has not yet reported on. */
  predicate Working(phase: Phase) {
    phase.Claimed? || phase.Executing? || phase.Reporting?
  }

  // ---- the invariant ---------------------------------------------------------------------------------------

  predicate DistinctIds(s: State) {
    && (forall i | 0 <= i < |s.workers| :: s.workers[i].id < s.nextWorker)
    && (forall i, j | 0 <= i < j < |s.workers| :: s.workers[i].id != s.workers[j].id)
  }

  /** Unused snapshots are of different, existing jobs and show no more attempts than allowed. */
  predicate GoodSnaps(cfg: Config, s: State, snaps: seq<Snapshot>) {
    DistinctSnaps(snaps) && forall x | x in snaps :: x.id in s.entries && x.attempts <= cfg.maxAttempts
  }

  predicate GoodSnapshots(cfg: Config, s: State) {
    forall i | 0 <= i < |s.workers| :: GoodSnaps(cfg, s, Unused(s.workers[i].phase))
  }

  predicate AttemptsBounded(cfg: Config, s: State) {
    forall id | id in s.entries :: s.entries[id].job.attempts <= cfg.maxAttempts
  }

  /** A worker at work whose id the record still carries is working on the record's latest claim. */
  predicate LatestClaim(s: State, worker: Worker) {
    Working(worker.phase) ==>
      var p := worker.phase;
      && p.snap.id in s.entries && p.claim <= s.entries[p.snap.id].claims
      && (s.entries[p.snap.id].job.worker == Some(worker.id) ==> p.claim == s.entries[p.snap.id].claims)
  }

  predicate LatestClaims(s: State) {
    forall i | 0 <= i < |s.workers| :: LatestClaim(s, s.workers[i])
  }

  predicate Inv(cfg: Config, s: State) {
    DistinctIds(s) && GoodSnapshots(cfg, s) && AttemptsBounded(cfg, s) && LatestClaims(s)
  }

  lemma InitInv(cfg: Config, s: State)
    requires Init(s)
    ensures Inv(cfg, s)
  {
  }

  lemma SnapshotsGood(cfg: Config, s: State, ids: seq<JobId>)
    requires AttemptsBounded(cfg, s) && Distinct(ids) && forall id | id in ids :: id in s.entries
    ensures DistinctSnaps(Snapshots(s, ids))
    ensures forall x | x in Snapshots(s, ids) :: x.id in s.entries && x.attempts <= cfg.maxAttempts
  {
  }

  /** The acting worker uses snapshots up, or reads fresh ones. */
  lemma ActorKeepsSnapshots(cfg: Config, s: State, e: Event)
    requires Enabled(s, e) && HasActor(e) && AttemptsBounded(cfg, s) && GoodSnaps(cfg, s, Unused(s.workers[e.w].phase))
    ensures GoodSnaps(cfg, Next(cfg, s, e), Unused(Next(cfg, s, e).workers[e.w].phase))
  {
    var t := Next(cfg, s, e);
    var p := s.workers[e.w].phase;
    assert t.entries.Keys >= s.entries.Keys;
    if e.Find? {
      SnapshotsGood(cfg, s, e.ids);
    } else if e.ReadClock? {
      assert Unused(t.workers[e.w].phase) == p.todo;
    } else if e.Claim? {
      assert Unused(p)[1..] == p.todo && Unused(t.workers[e.w].phase) == p.todo;
    }
  }

  lemma StepKeepsSnapshots(cfg: Config, s: State, e: Event)
    requires Inv(cfg, s) && Enabled(s, e)
    ensures GoodSnapshots(cfg, Next(cfg, s, e))
  {
    hide Unused;
    forall i | 0 <= i < |s.workers|
      ensures GoodSnaps(cfg, Next(cfg, s, e), Unused(Next(cfg, s, e).workers[i].phase))
    {
      assert GoodSnaps(cfg, s, Unused(s.workers[i].phase));
      if HasActor(e) && i == e.w {
        ActorKeepsSnapshots(cfg, s, e);
      } else {
        BystanderUnchanged(cfg, s, e, i);
      }
    }
  }

  lemma StepKeepsAttempts(cfg: Config, s: State, e: Event)
    requires Inv(cfg, s) && Enabled(s, e)
    ensures AttemptsBounded(cfg, Next(cfg, s, e))
  {
  }

  lemma BystanderKeepsClaim(cfg: Config, s: State, e: Event, worker: Worker)
    requires Enabled(s, e) && LatestClaim(s, worker) && (HasActor(e) ==> s.workers[e.w].id != worker.id)
    ensures LatestClaim(Next(cfg, s, e), worker)
  {
  }

  lemma ActorKeepsClaim(cfg: Config, s: State, e: Event)
    requires Enabled(s, e) && HasActor(e) && LatestClaim(s, s.workers[e.w])
    ensures LatestClaim(Next(cfg, s, e), Next(cfg, s, e).workers[e.w])
  {
  }

  lemma BystanderUnchanged(cfg: Config, s: State, e: Event, i: nat)
    requires Enabled(s, e) && i < |s.workers| && (HasActor(e) ==> i != e.w)
    ensures Next(cfg, s, e).workers[i] == s.workers[i]
  {
  }

  lemma StepKeepsClaims(cfg: Config, s: State, e: Event)
    requires Inv(cfg, s) && Enabled(s, e)
    ensures LatestClaims(Next(cfg, s, e))
  {
    forall i | 0 <= i < |s.workers|
      ensures LatestClaim(Next(cfg, s, e), Next(cfg, s, e).workers[i])
    {
      assert LatestClaim(s, s.workers[i]);
      if HasActor(e) && i == e.w {
        ActorKeepsClaim(cfg, s, e);
      } else {
        BystanderUnchanged(cfg, s, e, i);
        BystanderKeepsClaim(cfg, s, e, s.workers[i]);
      }
    }
  }

  lemma StepKeepsIds(cfg: Config, s: State, e: Event)
    requires DistinctIds(s) && Enabled(s, e)
    ensures DistinctIds(Next(cfg, s, e))
  {
    hide DoClaim, DoReport;
    var t := Next(cfg, s, e);
    if e.Crash? {
      assert t.workers == s.workers[e.w := Worker(s.nextWorker, Resting)] && t.nextWorker == s.nextWorker + 1;
    } else {
      SameIds(cfg, s, e);
    }
  }

  lemma SameIds(cfg: Config, s: State, e: Event)
    requires Enabled(s, e) && !e.Crash?
    ensures Next(cfg, s, e).nextWorker == s.nextWorker
    ensures forall i | 0 <= i < |s.workers| :: Next(cfg, s, e).workers[i].id == s.workers[i].id
  {
  }

  lemma StepKeepsInv(cfg: Config, s: State, e: Event)
    requires Inv(cfg, s) && Enabled(s, e)
    ensures Inv(cfg, Next(cfg, s, e))
  {
    StepKeepsSnapshots(cfg, s, e);
    StepKeepsAttempts(cfg, s, e);
    StepKeepsClaims(cfg, s, e);
    StepKeepsIds(cfg, s, e);
  }

  lemma {:induction false} RunKeepsInv(cfg: Config, s: State, es: seq<Event>)
    requires Inv(cfg, s) && IsRun(cfg, s, es)
    ensures Inv(cfg, After(cfg, s, es))
    decreases |es|
  {
    if es != [] {
      StepKeepsInv(cfg, s, es[0]);
      RunKeepsInv(cfg, Next(cfg, s, es[0]), es[1..]);
    }
  }

  // ---- outcomes -----------------------------------------------------------------------------------------------

  /** In every run, an outcome that changes a record comes from the record's most recent claim;
      any other outcome leaves every record as it is. */
  lemma OnlyTheLatestClaimSettles(cfg: Config, s: State, es: seq<Event>, w: nat, delay: nat)
    requires Init(s) && IsRun(cfg, s, es) && Enabled(After(cfg, s, es), Report(w, delay))
    ensures var t := After(cfg, s, es);
      var p := t.workers[w].phase;
      var u := Next(cfg, t, Report(w, delay));
      var entry := t.entries[p.snap.id];
      var settled := Settled(cfg, entry.job, p.snap.attempts, p.outcome, t.clock, delay);
      && (u.entries == t.entries || (HeldBy(entry.job, t.workers[w].id) && p.claim == entry.claims))
      && (HeldBy(entry.job, t.workers[w].id) ==> u.entries == t.entries[p.snap.id := entry.(job := settled)])
  {
    InitInv(cfg, s);
    RunKeepsInv(cfg, s, es);
    var t := After(cfg, s, es);
    var p := t.workers[w].phase;
    assert LatestClaim(t, t.workers[w]);
    assert t.entries[p.snap.id := t.entries[p.snap.id]] == t.entries;
  }

  /** The ways a record may change in one step. */
  datatype Change = Same | Added | Expired | Won | Buried | Finished | Failed | Postponed | Revived

  /** Which statuses a change leads from and to, and what it does to the other fields. */
  predicate Follows(cfg: Config, change: Change, before: Job, after: Job) {
    match change
    case Same => after == before
    case Added => false
    case Expired => before.status == Running && after == before.(status := Queued, leaseUntil := None)
    case Won =>
      && before.status == Queued && after.status == Running && 1 <= after.attempts <= cfg.maxAttempts
      && after.leaseUntil.Some? && after.worker.Some? && after.runAt == before.runAt
    case Buried => before.status == Queued && after == before.(status := Dead)
    case Finished => before.status == Running && after == before.(status := Done, leaseUntil := None)
    case Failed => before.status == Running && after == before.(status := Dead, leaseUntil := None)
    case Postponed =>
      before.status == Running && after == before.(status := Queued, leaseUntil := None, runAt := after.runAt)
    case Revived => before.status == Dead && after == before.(status := Queued, attempts := 0, runAt := after.runAt)
  }

  /** What the step does to the record of that id. */
  function ChangeBy(cfg: Config, s: State, e: Event, id: JobId): Change
    requires Enabled(s, e)
  {
    if e.Enqueue? && e.id == id then Added
    else if id !in s.entries then Same
    else
      var job := s.entries[id].job;
      match e
      case Expire(w, x) =>
        if x == id && job.status == Running && job.leaseUntil.Some? && job.leaseUntil.value < s.workers[w].phase.now
        then Expired else Same
      case Claim(w) =>
        var p := s.workers[w].phase;
        if p.snap.id != id || job.status != Queued then Same
        else if p.snap.attempts < cfg.maxAttempts then Won else Buried
      case Report(w, _) =>
        var p := s.workers[w].phase;
        if p.snap.id != id || job.status != Running || job.worker != Some(s.workers[w].id) then Same
        else if p.outcome == Returned then Finished
        else if p.outcome == Raised(true) || p.snap.attempts + 1 >= cfg.maxAttempts then Failed
        else Postponed
      case AdminRetry(x) => if x == id && job.status == Dead then Revived else Same
      case _ => Same
  }

  /** The life of a record: it begins queued without attempts, and every step changes it along one of these lines,
      which says who may change it, to which status, and what stays. */
  lemma RecordLife(cfg: Config, s: State, e: Event, id: JobId)
    requires Enabled(s, e) && id in Next(cfg, s, e).entries
    ensures id !in s.entries ==>
      e.Enqueue? && e.id == id && Next(cfg, s, e).entries[id] == Entry(Job(Queued, 0, e.runAt, None, None), 0, 0)
    ensures id in s.entries ==>
      Follows(cfg, ChangeBy(cfg, s, e, id), s.entries[id].job, Next(cfg, s, e).entries[id].job)
    ensures id in s.entries ==>
      && Next(cfg, s, e).entries[id].claims == s.entries[id].claims + (if ChangeBy(cfg, s, e, id) == Won then 1 else 0)
      && Next(cfg, s, e).entries[id].retries
           == s.entries[id].retries + (if ChangeBy(cfg, s, e, id) == Revived then 1 else 0)
    ensures id in s.entries && ChangeBy(cfg, s, e, id) == Won ==>
      var p, after := s.workers[e.w].phase, Next(cfg, s, e).entries[id].job;
      && after.attempts == p.snap.attempts + 1 && after.worker == Some(s.workers[e.w].id)
      && after.leaseUntil == Some(p.now + 2 * cfg.timeout)
    ensures id in s.entries && ChangeBy(cfg, s, e, id) == Postponed ==>
      Next(cfg, s, e).entries[id].job.runAt == s.clock + e.delay
    ensures id in s.entries && ChangeBy(cfg, s, e, id) == Revived ==>
      Next(cfg, s, e).entries[id].job.runAt == s.clock
  {
  }

  lemma {:induction false} DoneIsNotClaimed(cfg: Config, s: State, es: seq<Event>, id: JobId)
    requires IsRun(cfg, s, es) && id in s.entries && s.entries[id].job.status == Done
    ensures After(cfg, s, es).entries[id].job.status == Done
    ensures After(cfg, s, es).entries[id].claims == s.entries[id].claims
    decreases |es|
  {
    if es != [] {
      var t := Next(cfg, s, es[0]);
      assert t.entries[id].job.status == Done && t.entries[id].claims == s.entries[id].claims;
      DoneIsNotClaimed(cfg, t, es[1..], id);
    }
  }

  /** In every run: when a worker that still holds the record reports that its handler returned, the job is done, and
      whatever happens afterwards it stays done and is never claimed again. */
  lemma ReturnedIsForGood(cfg: Config, s: State, es: seq<Event>, w: nat, delay: nat, more: seq<Event>)
    requires Init(s) && IsRun(cfg, s, es) && Enabled(After(cfg, s, es), Report(w, delay))
    requires IsRun(cfg, Next(cfg, After(cfg, s, es), Report(w, delay)), more)
    requires var t := After(cfg, s, es);
      var p := t.workers[w].phase;
      && p.outcome == Returned && t.entries[p.snap.id].job.status == Running
      && t.entries[p.snap.id].job.worker == Some(t.workers[w].id)
    ensures var t := After(cfg, s, es);
      var p := t.workers[w].phase;
      var u := After(cfg, Next(cfg, t, Report(w, delay)), more);
      && p.claim == t.entries[p.snap.id].claims
      && u.entries[p.snap.id].job.status == Done && u.entries[p.snap.id].claims == p.claim
  {
    var t := After(cfg, s, es);
    var p := t.workers[w].phase;
    OnlyTheLatestClaimSettles(cfg, s, es, w, delay);
    InitInv(cfg, s);
    RunKeepsInv(cfg, s, es);
    assert LatestClaim(t, t.workers[w]);
    var u := Next(cfg, t, Report(w, delay));
    assert u.entries[p.snap.id].job.status == Done && u.entries[p.snap.id].claims == p.claim;
    DoneIsNotClaimed(cfg, u, more, p.snap.id);
  }

  /** A done job stays done, and a dead one dead unless an administrator retries it, in any run. */
  lemma {:induction false} FinalStatesStay(cfg: Config, s: State, es: seq<Event>, id: JobId)
    requires IsRun(cfg, s, es) && id in s.entries
    ensures s.entries[id].job.status.Done? ==> After(cfg, s, es).entries[id].job.status.Done?
    ensures s.entries[id].job.status.Dead? && AdminRetry(id) !in es ==> After(cfg, s, es).entries[id].job.status.Dead?
    decreases |es|
  {
    if es != [] {
      var t := Next(cfg, s, es[0]);
      assert es == [es[0]] + es[1..];
      assert s.entries[id].job.status.Done? ==> t.entries[id].job.status.Done?;
      assert s.entries[id].job.status.Dead? && es[0] != AdminRetry(id) ==> t.entries[id].job.status.Dead?;
      FinalStatesStay(cfg, t, es[1..], id);
    }
  }
}

/** Mutual exclusion of the handlers: how late after its claim a handler may start before two
    workers can run the same job at once. */
module JobTiming {
  import opened Lib
  import opened JobRecords
  import opened JobProtocol
  import opened JobProofs

  /** Two workers are inside the handler of one job. */
  ghost predicate Overlap(s: State) {
    exists i, j | 0 <= i < j < |s.workers| ::
      && s.workers[i].phase.Executing? && s.workers[j].phase.Executing?
      && s.workers[i].phase.snap.id == s.workers[j].phase.snap.id
  }

  /** No run that starts every handler within `slack` of its claim, and stops it in time, overlaps. */
  ghost predicate Excludes(cfg: Config, slack: nat, s: State) {
    forall es | IsRun(cfg, s, es) && TimelyRun(cfg, slack, s, es) :: !Overlap(After(cfg, s, es))
  }

  // ---- a start within `timeout` is early enough ------------------------------------------------------

  /** A worker between winning a claim and the end of its handler still holds the record, under a
      lease that outlasts everything it may yet do. */
  predicate LeasedAt(cfg: Config, slack: nat, s: State, worker: Worker) {
    match worker.phase
    case Sweeping(now) => now <= s.clock
    case Claiming(_, now, _) => s.clock <= now + slack
    case Claimed(snap, now, _, _) => s.clock <= now + slack && Holds(cfg, s, snap.id, worker.id, now)
    case Executing(snap, now, start, _, _) =>
      start <= now + slack && s.clock <= start + cfg.timeout && Holds(cfg, s, snap.id, worker.id, now)
    case _ => true
  }

  predicate Holds(cfg: Config, s: State, id: JobId, worker: WorkerId, now: int) {
    id in s.entries && HeldBy(s.entries[id].job, worker) && s.entries[id].job.leaseUntil == Some(now + 2 * cfg.timeout)
  }

  predicate Leased(cfg: Config, slack: nat, s: State) {
    forall i | 0 <= i < |s.workers| :: LeasedAt(cfg, slack, s, s.workers[i])
  }

  /** No step of anyone else takes an unexpired lease away. */
  lemma OthersKeepLease(cfg: Config, s: State, e: Event, id: JobId, worker: WorkerId, now: int)
    requires Enabled(s, e) && Holds(cfg, s, id, worker, now) && s.clock <= now + 2 * cfg.timeout
    requires HasActor(e) ==> s.workers[e.w].id != worker
    requires e.Expire? ==> s.workers[e.w].phase.now <= s.clock
    ensures Holds(cfg, Next(cfg, s, e), id, worker, now)
  {
  }

  lemma OtherStaysLeased(cfg: Config, slack: nat, s: State, e: Event, i: nat)
    requires slack <= cfg.timeout
    requires Inv(cfg, s) && Leased(cfg, slack, s) && Enabled(s, e) && Timely(cfg, slack, s, e)
    requires i < |s.workers| && (HasActor(e) ==> i != e.w)
    ensures LeasedAt(cfg, slack, Next(cfg, s, e), s.workers[i])
  {
    hide Inv, Next;
    assert LeasedAt(cfg, slack, s, s.workers[i]);
    if HasActor(e) {
      DifferentIds(cfg, s, i, e.w);
      assert LeasedAt(cfg, slack, s, s.workers[e.w]);
    }
    ClockAfter(cfg, s, e);
    match s.workers[i].phase
    case Claimed(snap, now, _, _) => OthersKeepLease(cfg, s, e, snap.id, s.workers[i].id, now);
    case Executing(snap, now, _, _, _) => OthersKeepLease(cfg, s, e, snap.id, s.workers[i].id, now);
    case _ =>
  }

  lemma DifferentIds(cfg: Config, s: State, i: nat, j: nat)
    requires Inv(cfg, s) && i < |s.workers| && j < |s.workers| && i != j
    ensures s.workers[i].id != s.workers[j].id
  {
  }

  lemma ClockAfter(cfg: Config, s: State, e: Event)
    requires Enabled(s, e)
    ensures Next(cfg, s, e).clock == s.clock + if e.Tick? then e.elapsed else 0
  {
  }

  lemma ActorStaysLeased(cfg: Config, slack: nat, s: State, e: Event)
    requires Leased(cfg, slack, s) && Enabled(s, e) && HasActor(e)
    ensures LeasedAt(cfg, slack, Next(cfg, s, e), Next(cfg, s, e).workers[e.w])
  {
    assert LeasedAt(cfg, slack, s, s.workers[e.w]);
  }

  lemma StepKeepsLeases(cfg: Config, slack: nat, s: State, e: Event)
    requires slack <= cfg.timeout
    requires Inv(cfg, s) && Leased(cfg, slack, s) && Enabled(s, e) && Timely(cfg, slack, s, e)
    ensures Leased(cfg, slack, Next(cfg, s, e))
  {
    var t := Next(cfg, s, e);
    forall i | 0 <= i < |t.workers|
      ensures LeasedAt(cfg, slack, t, t.workers[i])
    {
      if HasActor(e) && i == e.w {
        ActorStaysLeased(cfg, slack, s, e);
      } else {
        BystanderUnchanged(cfg, s, e, i);
        OtherStaysLeased(cfg, slack, s, e, i);
      }
    }
  }

  lemma {:induction false} RunKeepsLeases(cfg: Config, slack: nat, s: State, es: seq<Event>)
    requires slack <= cfg.timeout
    requires Inv(cfg, s) && Leased(cfg, slack, s) && IsRun(cfg, s, es) && TimelyRun(cfg, slack, s, es)
    ensures Leased(cfg, slack, After(cfg, s, es)) && Inv(cfg, After(cfg, s, es))
    decreases |es|
  {
    if es != [] {
      StepKeepsLeases(cfg, slack, s, es[0]);
      StepKeepsInv(cfg, s, es[0]);
      RunKeepsLeases(cfg, slack, Next(cfg, s, es[0]), es[1..]);
    }
  }

  /** If every handler starts within `slack` <= `timeout` of its claim reading the clock and is
      stopped `timeout` later, no two workers ever run the same job's handler at once. */
  lemma NoTwoExecuteTheSameJob(cfg: Config, slack: nat, s: State, es: seq<Event>)
    requires Init(s) && IsRun(cfg, s, es) && slack <= cfg.timeout && TimelyRun(cfg, slack, s, es)
    ensures !Overlap(After(cfg, s, es))
  {
    InitInv(cfg, s);
    RunKeepsLeases(cfg, slack, s, es);
    var t := After(cfg, s, es);
    forall i, j | 0 <= i < j < |t.workers| && t.workers[i].phase.Executing? && t.workers[j].phase.Executing?
      ensures t.workers[i].phase.snap.id != t.workers[j].phase.snap.id
    {
      assert LeasedAt(cfg, slack, t, t.workers[i]) && LeasedAt(cfg, slack, t, t.workers[j]);
      DifferentIds(cfg, t, i, j);
    }
  }

  // ---- with no attempts allowed, no handler starts --------------------------------------------------

  predicate NoneWorks(s: State) {
    forall i | 0 <= i < |s.workers| :: !s.workers[i].phase.Claimed? && !s.workers[i].phase.Executing?
  }

  lemma {:induction false} NothingStarts(cfg: Config, s: State, es: seq<Event>)
    requires cfg.maxAttempts == 0 && NoneWorks(s) && IsRun(cfg, s, es)
    ensures NoneWorks(After(cfg, s, es))
    decreases |es|
  {
    if es != [] {
      NothingStarts(cfg, Next(cfg, s, es[0]), es[1..]);
    }
  }

  // ---- a later start overlaps -----------------------------------------------------------------------

  /** Some timely run leads from `s` to `t`. */
  ghost predicate Reaches(cfg: Config, slack: nat, s: State, t: State) {
    exists es :: IsRun(cfg, s, es) && TimelyRun(cfg, slack, s, es) && After(cfg, s, es) == t
  }

  lemma ReachesItself(cfg: Config, slack: nat, s: State)
    ensures Reaches(cfg, slack, s, s)
  {
    assert IsRun(cfg, s, []) && After(cfg, s, []) == s;
  }

  /** One more step at the end of a run. */
  lemma {:induction false} Extend(cfg: Config, slack: nat, s: State, es: seq<Event>, e: Event)
    requires IsRun(cfg, s, es) && TimelyRun(cfg, slack, s, es)
    requires Enabled(After(cfg, s, es), e) && Timely(cfg, slack, After(cfg, s, es), e)
    ensures IsRun(cfg, s, es + [e]) && TimelyRun(cfg, slack, s, es + [e])
    ensures After(cfg, s, es + [e]) == Next(cfg, After(cfg, s, es), e)
    decreases |es|
  {
    hide Enabled, Next, Timely;
    if es == [] {
      assert es + [e] == [e] && [e][1..] == [];
      assert IsRun(cfg, Next(cfg, s, e), []) && TimelyRun(cfg, slack, Next(cfg, s, e), []);
    } else {
      Extend(cfg, slack, Next(cfg, s, es[0]), es[1..], e);
      assert (es + [e])[1..] == es[1..] + [e];
    }
  }

  lemma Then(cfg: Config, slack: nat, s: State, t: State, e: Event)
    requires Reaches(cfg, slack, s, t) && Enabled(t, e) && Timely(cfg, slack, t, e)
    ensures Reaches(cfg, slack, s, Next(cfg, t, e))
  {
    hide Enabled, Next, Timely, IsRun, TimelyRun, After;
    var es :| IsRun(cfg, s, es) && TimelyRun(cfg, slack, s, es) && After(cfg, s, es) == t;
    Extend(cfg, slack, s, es, e);
  }

  predicate Claimable(s: State, w: nat, id: JobId) {
    && w < |s.workers| && s.workers[w].phase.Resting? && id in s.entries
    && Due(ExpireJob(s.entries[id].job, s.clock), s.clock)
  }

  /** A worker sweeps, finds one job and reads the clock to claim it. */
  lemma Pass(cfg: Config, slack: nat, s: State, u: State, w: nat, id: JobId) returns (t: State)
    requires Claimable(u, w, id) && Reaches(cfg, slack, s, u)
    ensures Reaches(cfg, slack, s, t)
    ensures t == SetPhase(SetJob(u, id, ExpireJob(u.entries[id].job, u.clock)), w,
                           Claiming(Snapshot(id, u.entries[id].job.attempts), u.clock, []))
  {
    hide Reaches;
    Then(cfg, slack, s, u, BeginPass(w));
    var begun := Next(cfg, u, BeginPass(w));
    Then(cfg, slack, s, begun, Expire(w, id));
    var swept := Next(cfg, begun, Expire(w, id));
    Then(cfg, slack, s, swept, Find(w, [id]));
    var found := Next(cfg, swept, Find(w, [id]));
    assert found.workers[w].phase.todo == [Snapshot(id, u.entries[id].job.attempts)];
    Then(cfg, slack, s, found, ReadClock(w));
    t := Next(cfg, found, ReadClock(w));
    assert found.workers[w].phase.todo[1..] == [];
    assert t.workers == SetPhase(u, w, t.workers[w].phase).workers;
  }

  /** An instant in which a worker sweeps, finds the job and claims it. */
  lemma Take(cfg: Config, slack: nat, s: State, u: State, w: nat, id: JobId) returns (t: State)
    requires Claimable(u, w, id) && Reaches(cfg, slack, s, u)
    requires u.entries[id].job.attempts < cfg.maxAttempts
    ensures Reaches(cfg, slack, s, t) && t.clock == u.clock
    ensures var job := u.entries[id].job;
      && t.workers == SetPhase(u, w, Claimed(Snapshot(id, job.attempts), u.clock, u.entries[id].claims + 1, [])).workers
      && t.entries.Keys == u.entries.Keys
      && t.entries[id].job == Job(Running, job.attempts + 1, job.runAt, Some(u.clock + 2 * cfg.timeout),
                                  Some(u.workers[w].id))
  {
    hide Reaches;
    var p := Pass(cfg, slack, s, u, w, id);
    Then(cfg, slack, s, p, Claim(w));
    t := Next(cfg, p, Claim(w));
    assert t.workers == SetPhase(u, w, t.workers[w].phase).workers;
  }

  /** The first worker claims a job and stalls. */
  lemma FirstClaims(cfg: Config, slack: nat, s: State, id: JobId) returns (t: State)
    requires Init(s) && |s.workers| >= 2 && cfg.maxAttempts >= 1
    ensures Reaches(cfg, slack, s, t) && t.clock == s.clock && id in t.entries
    ensures t.entries[id].job == Job(Running, 1, s.clock, Some(s.clock + 2 * cfg.timeout), Some(s.workers[0].id))
    ensures t.workers == SetPhase(s, 0, Claimed(Snapshot(id, 0), s.clock, 1, [])).workers
  {
    hide Reaches;
    ReachesItself(cfg, slack, s);
    Then(cfg, slack, s, s, Enqueue(id, s.clock));
    var u := Next(cfg, s, Enqueue(id, s.clock));
    t := Take(cfg, slack, s, u, 0, id);
  }

  /** It starts one tick later than `timeout` allows, and has not been stopped when its lease has run out. */
  lemma FirstStartsLate(cfg: Config, slack: nat, s: State, id: JobId) returns (t: State)
    requires Init(s) && |s.workers| >= 2 && cfg.maxAttempts >= 1 && slack > cfg.timeout
    ensures Reaches(cfg, slack, s, t) && id in t.entries && t.clock == s.clock + 2 * cfg.timeout + 1
    ensures t.entries[id].job == Job(Running, 1, s.clock, Some(s.clock + 2 * cfg.timeout), Some(s.workers[0].id))
    ensures t.workers == SetPhase(s, 0, Executing(Snapshot(id, 0), s.clock, s.clock + cfg.timeout + 1, 1, [])).workers
  {
    hide Reaches;
    var u := FirstClaims(cfg, slack, s, id);
    Then(cfg, slack, s, u, Tick(cfg.timeout + 1));
    var v := Next(cfg, u, Tick(cfg.timeout + 1));
    Then(cfg, slack, s, v, Start(0));
    var x := Next(cfg, v, Start(0));
    assert x.workers == SetPhase(s, 0, x.workers[0].phase).workers;
    Then(cfg, slack, s, x, Tick(cfg.timeout));
    t := Next(cfg, x, Tick(cfg.timeout));
  }

  /** If the only attempt is used up, the second worker's claim buries the job and an administrator
      retries it. */
  lemma BuryAndRetry(cfg: Config, slack: nat, s: State, u: State, w: nat, id: JobId) returns (t: State)
    requires Claimable(u, w, id) && Reaches(cfg, slack, s, u)
    requires u.entries[id].job.attempts >= cfg.maxAttempts
    ensures Reaches(cfg, slack, s, t) && Claimable(t, w, id) && t.entries[id].job.attempts == 0
    ensures t.workers == u.workers
  {
    hide Reaches;
    var p := Pass(cfg, slack, s, u, w, id);
    Then(cfg, slack, s, p, Claim(w));
    var buried := Next(cfg, p, Claim(w));
    Then(cfg, slack, s, buried, Abandon(w));
    var left := Next(cfg, buried, Abandon(w));
    Then(cfg, slack, s, left, AdminRetry(id));
    t := Next(cfg, left, AdminRetry(id));
    assert t.workers == u.workers;
  }

  /** Once the first worker's lease has run out, the second claims the job and starts it too. */
  lemma LateStartOverlaps(cfg: Config, slack: nat, s: State, id: JobId) returns (t: State)
    requires Init(s) && |s.workers| >= 2 && cfg.maxAttempts >= 1 && slack > cfg.timeout
    ensures Reaches(cfg, slack, s, t)
    ensures t.workers[0].phase.Executing? && t.workers[1].phase.Executing?
    ensures t.workers[0].phase.snap.id == t.workers[1].phase.snap.id == id
  {
    hide Reaches;
    var u := FirstStartsLate(cfg, slack, s, id);
    if cfg.maxAttempts == 1 {
      u := BuryAndRetry(cfg, slack, s, u, 1, id);
    }
    var v := Take(cfg, slack, s, u, 1, id);
    Then(cfg, slack, s, v, Start(1));
    t := Next(cfg, v, Start(1));
  }

  /** Whatever the workers do, no two execute one job at once exactly if handlers start within
      `timeout` of their claims, or there is but one worker, or nothing may be attempted. */
  lemma ExclusionNeedsTimelyStarts(cfg: Config, slack: nat, s: State)
    requires Init(s)
    ensures Excludes(cfg, slack, s) <==> slack <= cfg.timeout || |s.workers| < 2 || cfg.maxAttempts == 0
  {
    hide IsRun, TimelyRun, After;
    if slack <= cfg.timeout {
      forall es | IsRun(cfg, s, es) && TimelyRun(cfg, slack, s, es) ensures !Overlap(After(cfg, s, es)) {
        NoTwoExecuteTheSameJob(cfg, slack, s, es);
      }
    } else if cfg.maxAttempts == 0 {
      forall es | IsRun(cfg, s, es) && TimelyRun(cfg, slack, s, es) ensures !Overlap(After(cfg, s, es)) {
        NothingStarts(cfg, s, es);
      }
    } else if |s.workers| >= 2 {
      var t := LateStartOverlaps(cfg, slack, s, 0);
      assert Overlap(t);
    }
  }
}

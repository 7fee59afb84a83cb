/** The job service as it is written, over a shared store; a pass of `run_once` is one run of the
    protocol machine. */
module JobService {
  import opened Lib
  import opened JobRecords
  import opened JobProtocol

  /** The jobs collection. Each method below makes one of its atomic conditional updates. */
  class Store {
    var jobs: map<JobId, Job>

    constructor ()
      ensures jobs == map[]
    {
      jobs := map[];
    }
  }

  /** When the service reads the clock while handling one due job, and what its handler does. */
  datatype Turn = Turn(claimAt: int, outcome: Outcome, finishAt: int, delay: nat)

  predicate InOrder(now: int, turns: seq<Turn>)
    decreases |turns|
  {
    turns == [] || (now <= turns[0].claimAt <= turns[0].finishAt && InOrder(turns[0].finishAt, turns[1..]))
  }

  function Swept(jobs: map<JobId, Job>, ids: set<JobId>, now: int): map<JobId, Job> {
    map id | id in jobs :: if id in ids then ExpireJob(jobs[id], now) else jobs[id]
  }

  /** Exactly the running jobs whose lease has passed are queued again, without a lease. */
  lemma SweptMeans(jobs: map<JobId, Job>, now: int)
    ensures var after := Swept(jobs, jobs.Keys, now);
      && after.Keys == jobs.Keys
      && forall id | id in jobs :: after[id]
           == if jobs[id].status == Running && jobs[id].leaseUntil != None && jobs[id].leaseUntil.value < now
              then jobs[id].(status := Queued, leaseUntil := None) else jobs[id]
  {
  }

  class Service {
    const cfg: Config
    const worker: WorkerId
    const store: Store

    constructor (cfg: Config, worker: WorkerId, store: Store)
      ensures this.cfg == cfg && this.worker == worker && this.store == store
    {
      this.cfg, this.worker, this.store := cfg, worker, store;
    }

    /** Requeue expired leases. */
    method Sweep(now: int)
      modifies store
      ensures store.jobs == Swept(old(store.jobs), old(store.jobs).Keys, now)
    {
      store.jobs := map id | id in store.jobs ::
        if Expired(store.jobs[id], now) then store.jobs[id].(status := Queued, leaseUntil := None) else store.jobs[id];
    }

    /** Take a due job, or bury it when its attempts are used up; true if this worker may run it. */
    method Claim(id: JobId, seen: nat, now: int) returns (won: bool)
      requires id in store.jobs
      modifies store
      ensures store.jobs == old(store.jobs)[id := ClaimJob(cfg, old(store.jobs[id]), seen, now, worker)]
      ensures won == ClaimWins(cfg, old(store.jobs[id]), seen)
      ensures won <==> old(store.jobs[id]).status == Queued && seen < cfg.maxAttempts
      ensures won ==> store.jobs[id] == old(store.jobs[id]).(status := Running, attempts := seen + 1,
                                           leaseUntil := Some(now + 2 * cfg.timeout), worker := Some(worker))
      ensures !won ==> store.jobs[id] == if old(store.jobs[id]).status == Queued
                                         then old(store.jobs[id]).(status := Dead) else old(store.jobs[id])
    {
      var attempts := seen + 1;
      var job := store.jobs[id];
      var queued := job.status.Queued?;
      if attempts > cfg.maxAttempts {
        if queued {
          store.jobs := store.jobs[id := job.(status := Dead)];
        }
        return false;
      }
      if queued {
        store.jobs := store.jobs[id := job.(status := Running, attempts := attempts,
                                            leaseUntil := Some(now + 2 * cfg.timeout), worker := Some(worker))];
      }
      won := queued;
    }

    /** Record an outcome, unless the record is no longer this worker's. */
    method Finish(id: JobId, status: Status, runAt: Option<int>)
      requires id in store.jobs
      modifies store
      ensures store.jobs == if HeldBy(old(store.jobs[id]), worker)
        then old(store.jobs)[id := old(store.jobs[id]).(status := status, leaseUntil := None,
               runAt := if runAt.Some? then runAt.value else old(store.jobs[id]).runAt)]
        else old(store.jobs)
    {
      var job := store.jobs[id];
      if job.status == Running && job.worker == Some(worker) {
        store.jobs := store.jobs[id := job.(status := status, leaseUntil := None,
                                            runAt := if runAt.Some? then runAt.value else job.runAt)];
      }
    }

    /** The end of one run of a handler: if the record is still this worker's, success makes it done, a permanent
        failure or the last attempt makes it dead, and any other failure queues it again after the delay; the
        lease goes, and nothing else changes. */
    method Settle(id: JobId, seen: nat, turn: Turn)
      requires id in store.jobs
      modifies store
      ensures store.jobs == old(store.jobs)[id :=
        FinishJob(cfg, old(store.jobs[id]), worker, seen, turn.outcome, turn.finishAt, turn.delay)]
      ensures !(old(store.jobs[id]).status == Running && old(store.jobs[id]).worker == Some(worker)) ==>
        store.jobs == old(store.jobs)
      ensures old(store.jobs[id]).status == Running && old(store.jobs[id]).worker == Some(worker) ==>
        var before, after := old(store.jobs[id]), store.jobs[id];
        && store.jobs == old(store.jobs)[id := after]
        && after.leaseUntil == None && after.attempts == before.attempts && after.worker == before.worker
        && (turn.outcome == Returned ==> after.status == Done && after.runAt == before.runAt)
        && (turn.outcome == Raised(true) || (turn.outcome.Raised? && seen + 1 >= cfg.maxAttempts) ==>
              after.status == Dead && after.runAt == before.runAt)
        && (turn.outcome == Raised(false) && seen + 1 < cfg.maxAttempts ==>
              after.status == Queued && after.runAt == turn.finishAt + turn.delay)
    {
      match turn.outcome
      case Returned =>
        Finish(id, Done, None);
      case Raised(permanent) =>
        if permanent || seen + 1 >= cfg.maxAttempts {
          Finish(id, Dead, None);
        } else {
          Finish(id, Queued, Some(turn.finishAt + turn.delay));
        }
      assert old(store.jobs)[id := old(store.jobs[id])] == old(store.jobs);
    }

    /** Queue a dead job again from scratch; false if it is not dead. */
    method Retry(id: JobId, now: int) returns (queued: bool)
      modifies store
      ensures queued == (id in old(store.jobs) && old(store.jobs[id]).status.Dead?)
      ensures store.jobs == if id in old(store.jobs)
        then old(store.jobs)[id := RetryJob(old(store.jobs[id]), now)] else old(store.jobs)
      ensures !queued ==> store.jobs == old(store.jobs)
      ensures queued ==>
        var before, after := old(store.jobs[id]), store.jobs[id];
        && store.jobs == old(store.jobs)[id := after]
        && after.status == Queued && after.attempts == 0 && after.runAt == now
        && after.leaseUntil == before.leaseUntil && after.worker == before.worker
    {
      queued := id in store.jobs && store.jobs[id].status.Dead?;
      if queued {
        store.jobs := store.jobs[id := store.jobs[id].(status := Queued, attempts := 0, runAt := now)];
      }
      assert id in old(store.jobs) ==> old(store.jobs)[id := old(store.jobs[id])] == old(store.jobs);
    }

    /** One due job: claim it and, if the claim is won, run it and settle its outcome. */
    method RunTurn(id: JobId, seen: nat, turn: Turn, ghost t: State, ghost w: nat)
      returns (won: bool, ghost es: seq<Event>)
      requires t.clock <= turn.claimAt <= turn.finishAt && id in store.jobs
      requires w < |t.workers| && t.workers[w].id == worker && t.workers[w].phase.Trying?
      requires t.workers[w].phase.todo != [] && t.workers[w].phase.todo[0] == Snapshot(id, seen)
      requires Records(t) == store.jobs
      modifies store
      ensures IsRun(cfg, t, es) && Records(After(cfg, t, es)) == store.jobs && store.jobs.Keys == old(store.jobs).Keys
      ensures After(cfg, t, es).workers[w] == Worker(worker, Trying(t.workers[w].phase.todo[1..]))
      ensures t.clock <= After(cfg, t, es).clock <= turn.finishAt
      ensures Starts(es) == if won then 1 else 0
    {
      hide IsRun, After, Starts, ClaimJob, FinishJob, ClaimWins;
      assert id in t.entries by {
        assert id in Records(t);
      }
      won := Claim(id, seen, turn.claimAt);
      es := ClaimEvents(cfg, t, w, turn.claimAt);
      if won {
        ghost var claimed := After(cfg, t, es);
        Settle(id, seen, turn);
        ghost var more := SettleEvents(cfg, claimed, w, turn);
        es := Extend(cfg, t, es, more);
      }
    }

    /** One pass over the jobs `find_many` reported due, with nobody else writing in between: the
        store ends up as a run of the protocol machine leaves its records. */
    method RunOnce(now: int, due: seq<JobId>, turns: seq<Turn>, ghost s: State, ghost w: nat)
      returns (ran: nat, ghost es: seq<Event>)
      requires |turns| == |due| && InOrder(now, turns) && Distinct(due)
      requires forall id | id in due :: id in store.jobs && Due(ExpireJob(store.jobs[id], now), now)
      requires w < |s.workers| && s.workers[w] == Worker(worker, Resting)
      requires s.clock == now && Records(s) == store.jobs
      modifies store
      ensures IsRun(cfg, s, es) && Records(After(cfg, s, es)) == store.jobs
      ensures After(cfg, s, es).workers[w] == Worker(worker, Resting)
      ensures ran == Starts(es)
    {
      hide IsRun, After, Starts;
      Sweep(now);
      es := SweepEvents(cfg, s, w, due);
      ghost var t := After(cfg, s, es);
      var seen := seq(|due|, i requires 0 <= i < |due| && due[i] in store.jobs reads store =>
                        store.jobs[due[i]].attempts);
      ghost var snaps := t.workers[w].phase.todo;
      ran := 0;
      var i := 0;
      while i < |due|
        invariant 0 <= i <= |due| && ran == Starts(es)
        invariant w < |t.workers| && t.workers[w] == Worker(worker, Trying(snaps[i..]))
        invariant IsRun(cfg, s, es) && t == After(cfg, s, es)
        invariant Records(t) == store.jobs && forall id | id in due :: id in store.jobs
        invariant i < |due| ==> t.clock <= turns[i].claimAt && InOrder(turns[i].claimAt, turns[i..])
      {
        var won: bool;
        ghost var steps: seq<Event>;
        won, steps := RunTurn(due[i], seen[i], turns[i], t, w);
        es := Extend(cfg, s, es, steps);
        t := After(cfg, t, steps);
        if won {
          ran := ran + 1;
        }
        i := i + 1;
      }
      ghost var rest := Single(cfg, t, Abandon(w));
      es := Extend(cfg, s, es, rest);
    }
  }

  // ---- the same pass as steps of the machine -----------------------------------------------------------------

  function Records(s: State): map<JobId, Job> {
    map id | id in s.entries :: s.entries[id].job
  }

  lemma {:induction false} RunConcat(cfg: Config, s: State, es: seq<Event>, more: seq<Event>)
    requires IsRun(cfg, s, es) && IsRun(cfg, After(cfg, s, es), more)
    ensures IsRun(cfg, s, es + more) && After(cfg, s, es + more) == After(cfg, After(cfg, s, es), more)
    decreases |es|
  {
    if es == [] {
      assert es + more == more;
    } else {
      RunConcat(cfg, Next(cfg, s, es[0]), es[1..], more);
      assert (es + more)[1..] == es[1..] + more;
    }
  }

  /** How many handlers a run starts. */
  function Starts(es: seq<Event>): nat {
    if es == [] then 0 else (if es[0].Start? then 1 else 0) + Starts(es[1..])
  }

  lemma {:induction false} StartsConcat(es: seq<Event>, more: seq<Event>)
    ensures Starts(es + more) == Starts(es) + Starts(more)
  {
    if es == [] {
      assert es + more == more;
    } else {
      assert (es + more)[1..] == es[1..] + more;
      StartsConcat(es[1..], more);
    }
  }

  lemma Extend(cfg: Config, s: State, es: seq<Event>, more: seq<Event>) returns (all: seq<Event>)
    requires IsRun(cfg, s, es) && IsRun(cfg, After(cfg, s, es), more)
    ensures IsRun(cfg, s, all) && After(cfg, s, all) == After(cfg, After(cfg, s, es), more)
    ensures Starts(all) == Starts(es) + Starts(more)
  {
    all := es + more;
    StartsConcat(es, more);
    RunConcat(cfg, s, es, more);
  }

  /** A step in front of a run. */
  lemma Before(cfg: Config, s: State, e: Event, es: seq<Event>) returns (all: seq<Event>)
    requires Enabled(s, e) && IsRun(cfg, Next(cfg, s, e), es)
    ensures IsRun(cfg, s, all) && After(cfg, s, all) == After(cfg, Next(cfg, s, e), es)
    ensures Starts(all) == (if e.Start? then 1 else 0) + Starts(es)
  {
    all := [e] + es;
    assert all[1..] == es;
  }

  /** A run of one step. */
  lemma Single(cfg: Config, s: State, e: Event) returns (all: seq<Event>)
    requires Enabled(s, e)
    ensures IsRun(cfg, s, all) && After(cfg, s, all) == Next(cfg, s, e) && Starts(all) == if e.Start? then 1 else 0
  {
    hide Next;
    all := Before(cfg, s, e, []);
  }

  lemma SweepOneMore(jobs: map<JobId, Job>, ids: set<JobId>, id: JobId, now: int)
    requires id in ids && id in jobs
    ensures Swept(jobs[id := ExpireJob(jobs[id], now)], ids - {id}, now) == Swept(jobs, ids, now)
  {
  }

  lemma {:induction false} ExpireAll(cfg: Config, s: State, w: nat, ids: set<JobId>) returns (es: seq<Event>)
    requires w < |s.workers| && s.workers[w].phase.Sweeping? && ids <= s.entries.Keys
    ensures IsRun(cfg, s, es) && Starts(es) == 0
    ensures var t := After(cfg, s, es);
      t.workers == s.workers && t.clock == s.clock && Records(t) == Swept(Records(s), ids, s.workers[w].phase.now)
    decreases ids
  {
    es := [];
    if ids != {} {
      var id :| id in ids;
      var t := Next(cfg, s, Expire(w, id));
      var rest := ExpireAll(cfg, t, w, ids - {id});
      es := Before(cfg, s, Expire(w, id), rest);
      assert Records(t) == Records(s)[id := ExpireJob(Records(s)[id], s.workers[w].phase.now)];
      SweepOneMore(Records(s), ids, id, s.workers[w].phase.now);
    } else {
      assert Records(s) == Swept(Records(s), ids, s.workers[w].phase.now);
    }
  }

  /** Begin a pass, requeue every expired lease, and read the due jobs. */
  lemma SweepEvents(cfg: Config, s: State, w: nat, due: seq<JobId>) returns (es: seq<Event>)
    requires w < |s.workers| && s.workers[w].phase.Resting? && Distinct(due)
    requires forall id | id in due :: id in s.entries && Due(ExpireJob(s.entries[id].job, s.clock), s.clock)
    ensures IsRun(cfg, s, es) && Starts(es) == 0
    ensures var t := After(cfg, s, es);
      && Records(t) == Swept(Records(s), Records(s).Keys, s.clock) && t.clock == s.clock
      && t.workers[w].id == s.workers[w].id && t.workers[w].phase.Trying?
      && |t.workers[w].phase.todo| == |due|
      && forall i | 0 <= i < |due| :: due[i] in t.entries
           && t.workers[w].phase.todo[i] == Snapshot(due[i], t.entries[due[i]].job.attempts)
  {
    var begun := Next(cfg, s, BeginPass(w));
    assert Records(begun) == Records(s);
    var swept := ExpireAll(cfg, begun, w, s.entries.Keys);
    es := Before(cfg, s, BeginPass(w), swept);
    var t := After(cfg, s, es);
    forall id | id in due
      ensures id in t.entries && Due(t.entries[id].job, s.clock)
    {
      assert id in Records(t) && Records(t)[id] == ExpireJob(Records(s)[id], s.clock);
    }
    var find := Before(cfg, t, Find(w, due), []);
    es := Extend(cfg, s, es, find);
  }

  /** Let time pass until `_claim` reads the clock, then make its conditional write. */
  lemma ClaimEvents(cfg: Config, s: State, w: nat, claimAt: int) returns (es: seq<Event>)
    requires w < |s.workers| && s.workers[w].phase.Trying? && s.workers[w].phase.todo != [] && s.clock <= claimAt
    requires s.workers[w].phase.todo[0].id in s.entries
    ensures IsRun(cfg, s, es) && Starts(es) == 0
    ensures var t := After(cfg, s, es);
      var snap, rest := s.workers[w].phase.todo[0], s.workers[w].phase.todo[1..];
      var job := s.entries[snap.id].job;
      && Records(t) == Records(s)[snap.id := ClaimJob(cfg, job, snap.attempts, claimAt, s.workers[w].id)]
      && t.clock == claimAt && t.workers[w].id == s.workers[w].id
      && if ClaimWins(cfg, job, snap.attempts)
         then t.workers[w].phase.Claimed? && t.workers[w].phase.snap == snap && t.workers[w].phase.todo == rest
         else t.workers[w].phase == Trying(rest)
  {
    var s1 := Next(cfg, s, Tick(claimAt - s.clock));
    var s2 := Next(cfg, s1, ReadClock(w));
    var t := Next(cfg, s2, Claim(w));
    es := Before(cfg, s2, Claim(w), []);
    es := Before(cfg, s1, ReadClock(w), es);
    es := Before(cfg, s, Tick(claimAt - s.clock), es);
    assert After(cfg, s, es) == t;
  }

  /** Run the handler of a won claim. */
  lemma HandlerEvents(cfg: Config, s: State, w: nat, turn: Turn) returns (es: seq<Event>)
    requires w < |s.workers| && s.workers[w].phase.Claimed? && s.clock <= turn.finishAt
    ensures IsRun(cfg, s, es) && Starts(es) == 1
    ensures var p := s.workers[w].phase;
      After(cfg, s, es) == SetPhase(s.(clock := turn.finishAt), w, Reporting(p.snap, p.claim, turn.outcome, p.todo))
  {
    var s1 := Next(cfg, s, Start(w));
    var s2 := Next(cfg, s1, Tick(turn.finishAt - s.clock));
    es := Before(cfg, s2, JobProtocol.Finish(w, turn.outcome), []);
    es := Before(cfg, s1, Tick(turn.finishAt - s.clock), es);
    es := Before(cfg, s, Start(w), es);
  }

  /** Run the handler of a won claim and report its outcome. */
  lemma SettleEvents(cfg: Config, s: State, w: nat, turn: Turn) returns (es: seq<Event>)
    requires w < |s.workers| && s.workers[w].phase.Claimed? && s.clock <= turn.finishAt
    requires s.workers[w].phase.snap.id in s.entries
    ensures IsRun(cfg, s, es) && Starts(es) == 1
    ensures var t := After(cfg, s, es);
      var p := s.workers[w].phase;
      var job := FinishJob(cfg, s.entries[p.snap.id].job, s.workers[w].id, p.snap.attempts,
                           turn.outcome, turn.finishAt, turn.delay);
      && Records(t) == Records(s)[p.snap.id := job]
      && t.clock == turn.finishAt && t.workers[w] == Worker(s.workers[w].id, Trying(p.todo))
  {
    es := HandlerEvents(cfg, s, w, turn);
    var t := After(cfg, s, es);
    var report := Before(cfg, t, Report(w, turn.delay), []);
    es := Extend(cfg, s, es, report);
  }
}

/** A job is claimed only finitely often, although stale snapshots can push its stored attempts
    down again: every claim lowers a potential summed over the workers. */
module JobBudget {
  import opened Lib
  import opened JobRecords
  import opened JobProtocol
  import opened JobProofs

  function Pow(base: nat, e: nat): (p: nat)
    ensures base >= 1 ==> p >= 1
  {
    if e == 0 then 1 else base * Pow(base, e - 1)
  }

  lemma {:induction false} PowMonotone(base: nat, low: nat, high: nat)
    requires base >= 1 && low <= high
    ensures Pow(base, low) <= Pow(base, high)
    decreases high
  {
    if low < high {
      PowMonotone(base, low, high - 1);
      assert 1 * Pow(base, high - 1) <= base * Pow(base, high - 1);
    }
  }

  function Min(a: nat, b: nat): nat {
    if a <= b then a else b
  }

  /** What `v` attempts leave: the fewer, the more claims may follow. */
  function Weight(cfg: Config, base: nat, v: nat): (x: nat)
    ensures base >= 1 ==> x >= 1
  {
    Pow(base, if v <= cfg.maxAttempts then cfg.maxAttempts - v else 0)
  }

  lemma WeightAntitone(cfg: Config, base: nat, low: nat, high: nat)
    requires base >= 1 && low <= high
    ensures Weight(cfg, base, high) <= Weight(cfg, base, low)
  {
    PowMonotone(base, if high <= cfg.maxAttempts then cfg.maxAttempts - high else 0,
                if low <= cfg.maxAttempts then cfg.maxAttempts - low else 0);
  }

  /** A worker could next claim from the snapshot it holds or, later, from what is stored. */
  function Share(cfg: Config, base: nat, stored: nat, held: Option<nat>): (x: nat)
    ensures base >= 1 ==> x >= 1
  {
    Weight(cfg, base, if held.Some? then Min(held.value, stored) else stored)
  }

  function Shares(cfg: Config, s: State, id: JobId): (xs: seq<nat>)
    requires id in s.entries
    ensures |xs| == |s.workers|
    ensures forall i | 0 <= i < |s.workers| ::
      xs[i] == Share(cfg, |s.workers| + 1, s.entries[id].job.attempts, Held(Unused(s.workers[i].phase), id))
  {
    seq(|s.workers|, i requires 0 <= i < |s.workers| =>
      Share(cfg, |s.workers| + 1, s.entries[id].job.attempts, Held(Unused(s.workers[i].phase), id)))
  }

  function Sum(xs: seq<nat>): nat {
    if xs == [] then 0 else xs[0] + Sum(xs[1..])
  }

  function Potential(cfg: Config, s: State, id: JobId): nat
    requires id in s.entries
  {
    Sum(Shares(cfg, s, id))
  }

  /** What one life of a job may cost: as many claims as `workers` fresh readers weigh. */
  function Allowance(cfg: Config, workers: nat): nat {
    workers * Pow(workers + 1, cfg.maxAttempts)
  }

  lemma {:induction false} SumAtMost(xs: seq<nat>, bound: nat)
    requires forall i | 0 <= i < |xs| :: xs[i] <= bound
    ensures Sum(xs) <= |xs| * bound
  {
    if xs != [] {
      SumAtMost(xs[1..], bound);
      assert |xs| * bound == bound + |xs[1..]| * bound;
    }
  }

  lemma {:induction false} SumMonotone(xs: seq<nat>, ys: seq<nat>)
    requires |xs| == |ys| && forall i | 0 <= i < |xs| :: ys[i] <= xs[i]
    ensures Sum(ys) <= Sum(xs)
  {
    if xs != [] {
      SumMonotone(xs[1..], ys[1..]);
    }
  }

  /** One entry changes freely, the others gain at most `gain` each. */
  lemma {:induction false} SumShift(xs: seq<nat>, ys: seq<nat>, w: nat, gain: nat)
    requires |xs| == |ys| && w < |xs|
    requires forall i | 0 <= i < |xs| && i != w :: ys[i] <= xs[i] + gain
    ensures Sum(ys) + xs[w] <= Sum(xs) + ys[w] + (|xs| - 1) * gain
  {
    if w > 0 {
      SumShift(xs[1..], ys[1..], w - 1, gain);
      assert (|xs| - 1) * gain == gain + (|xs[1..]| - 1) * gain;
    } else {
      SumSpread(xs[1..], ys[1..], gain);
    }
  }

  lemma {:induction false} SumSpread(xs: seq<nat>, ys: seq<nat>, gain: nat)
    requires |xs| == |ys| && forall i | 0 <= i < |xs| :: ys[i] <= xs[i] + gain
    ensures Sum(ys) <= Sum(xs) + |xs| * gain
  {
    if xs != [] {
      SumSpread(xs[1..], ys[1..], gain);
      assert |xs| * gain == gain + |xs[1..]| * gain;
    }
  }

  lemma PotentialAtMostAllowance(cfg: Config, s: State, id: JobId)
    requires id in s.entries
    ensures Potential(cfg, s, id) <= Allowance(cfg, |s.workers|)
  {
    var base := |s.workers| + 1;
    forall i | 0 <= i < |s.workers|
      ensures Shares(cfg, s, id)[i] <= Pow(base, cfg.maxAttempts)
    {
      var held := Held(Unused(s.workers[i].phase), id);
      var stored := s.entries[id].job.attempts;
      WeightAntitone(cfg, base, 0, if held.Some? then Min(held.value, stored) else stored);
    }
    SumAtMost(Shares(cfg, s, id), Pow(base, cfg.maxAttempts));
  }

  // ---- one step ----------------------------------------------------------------------------------------------

  predicate IsWinOf(cfg: Config, s: State, e: Event, id: JobId) {
    && Enabled(s, e) && e.Claim? && s.workers[e.w].phase.snap.id == id
    && ClaimWins(cfg, s.entries[id].job, s.workers[e.w].phase.snap.attempts)
  }

  lemma {:induction false} HeldSnapshot(s: State, ids: seq<JobId>, id: JobId)
    requires forall x | x in ids :: x in s.entries
    ensures var h := Held(Snapshots(s, ids), id); h.Some? ==> id in s.entries && h.value == s.entries[id].job.attempts
  {
    HeldIsMember(Snapshots(s, ids), id);
  }

  lemma HeldAfterHead(snaps: seq<Snapshot>, id: JobId)
    requires snaps != [] && DistinctSnaps(snaps)
    ensures Held(snaps[1..], id) == if snaps[0].id == id then None else Held(snaps, id)
  {
    HeldIsMember(snaps[1..], id);
    assert forall x | x in snaps[1..] :: x.id != snaps[0].id;
  }

  /** A step leaves a worker's snapshot of a job alone, uses it up, or refreshes it from the store. */
  lemma HeldAfterStep(cfg: Config, s: State, e: Event, i: nat, id: JobId)
    requires Inv(cfg, s) && Enabled(s, e) && id in s.entries && i < |s.workers|
    ensures var before := Held(Unused(s.workers[i].phase), id);
      var after := Held(Unused(Next(cfg, s, e).workers[i].phase), id);
      after == before || after.None? || after == Some(s.entries[id].job.attempts)
    ensures IsWinOf(cfg, s, e, id) && i == e.w ==>
      Held(Unused(s.workers[i].phase), id) == Some(s.workers[i].phase.snap.attempts)
      && Held(Unused(Next(cfg, s, e).workers[i].phase), id).None?
  {
    if HasActor(e) && i == e.w {
      var p, q := s.workers[i].phase, Next(cfg, s, e).workers[i].phase;
      if e.Find? {
        HeldSnapshot(s, e.ids, id);
      } else if e.ReadClock? {
        assert Unused(q) == Unused(p);
      } else if e.Claim? {
        assert Unused(p)[1..] == p.todo == Unused(q);
        HeldAfterHead(Unused(p), id);
      }
    }
  }

  lemma StoredAfterStep(cfg: Config, s: State, e: Event, id: JobId)
    requires Enabled(s, e) && id in s.entries
    ensures var before, after := s.entries[id], Next(cfg, s, e).entries[id];
      && (!IsWinOf(cfg, s, e, id) ==> after.claims == before.claims)
      && (IsWinOf(cfg, s, e, id) ==> after.claims == before.claims + 1)
      && (IsWinOf(cfg, s, e, id) ==>
            after.job.attempts == s.workers[e.w].phase.snap.attempts + 1 <= cfg.maxAttempts)
      && (!IsWinOf(cfg, s, e, id) && after.job.attempts != before.job.attempts ==>
            after.retries == before.retries + 1 && after.job.attempts == 0)
      && after.retries >= before.retries
  {
  }

  /** Without a win, nobody's share of a job grows. */
  lemma SharesShrink(cfg: Config, s: State, e: Event, id: JobId)
    requires Inv(cfg, s) && Enabled(s, e) && id in s.entries
    requires Next(cfg, s, e).entries[id].job.attempts == s.entries[id].job.attempts && !IsWinOf(cfg, s, e, id)
    ensures Potential(cfg, Next(cfg, s, e), id) <= Potential(cfg, s, id)
  {
    hide Inv, Next, IsWinOf, Weight, Held, Unused, Sum;
    var t := Next(cfg, s, e);
    var base, stored := |s.workers| + 1, s.entries[id].job.attempts;
    forall i | 0 <= i < |s.workers|
      ensures Shares(cfg, t, id)[i] <= Shares(cfg, s, id)[i]
    {
      HeldAfterStep(cfg, s, e, i, id);
      var held := Held(Unused(s.workers[i].phase), id);
      WeightAntitone(cfg, base, if held.Some? then Min(held.value, stored) else stored, stored);
    }
    SumMonotone(Shares(cfg, s, id), Shares(cfg, t, id));
  }

  lemma Arithmetic(workers: nat, q: nat)
    requires workers >= 1 && q >= 1
    ensures (workers + 1) * q >= q + (workers - 1) * (q - 1) + 1
  {
  }

  /** The others gain at most `q - 1` each while the winner gives up `W + 1` times `q`. */
  lemma SumDrops(xs: seq<nat>, ys: seq<nat>, w: nat, q: nat)
    requires |xs| == |ys| && w < |xs| && q >= 1
    requires xs[w] >= (|xs| + 1) * q && ys[w] == q
    requires forall i | 0 <= i < |xs| && i != w :: ys[i] <= xs[i] + (q - 1)
    ensures Sum(ys) < Sum(xs)
  {
    SumShift(xs, ys, w, q - 1);
    Arithmetic(|xs|, q);
  }

  /** The win writes one more than the winner had seen, which may be less than was stored; still
      the potential drops. */
  lemma WinLowersPotential(cfg: Config, s: State, e: Event, id: JobId)
    requires Inv(cfg, s) && IsWinOf(cfg, s, e, id)
    ensures Potential(cfg, Next(cfg, s, e), id) < Potential(cfg, s, id)
  {
    hide Inv, Next, Shares, Weight;
    var t := Next(cfg, s, e);
    var q := Weight(cfg, |s.workers| + 1, s.workers[e.w].phase.snap.attempts + 1);
    var xs, ys := Shares(cfg, s, id), Shares(cfg, t, id);
    WinnerShare(cfg, s, e, id);
    forall i | 0 <= i < |s.workers| && i != e.w
      ensures ys[i] <= xs[i] + (q - 1)
    {
      OthersGain(cfg, s, e, id, i);
    }
    SumDrops(xs, ys, e.w, q);
  }

  lemma OthersGain(cfg: Config, s: State, e: Event, id: JobId, i: nat)
    requires IsWinOf(cfg, s, e, id) && i < |s.workers| && i != e.w
    ensures Shares(cfg, Next(cfg, s, e), id)[i]
         <= Shares(cfg, s, id)[i] + Weight(cfg, |s.workers| + 1, s.workers[e.w].phase.snap.attempts + 1) - 1
  {
    BystanderUnchanged(cfg, s, e, i);
    StoredAfterStep(cfg, s, e, id);
    ShareAfterWin(cfg, |s.workers| + 1, s.entries[id].job.attempts, s.workers[e.w].phase.snap.attempts + 1,
                  Held(Unused(s.workers[i].phase), id));
  }

  lemma WinnerShare(cfg: Config, s: State, e: Event, id: JobId)
    requires Inv(cfg, s) && IsWinOf(cfg, s, e, id)
    ensures var q := Weight(cfg, |s.workers| + 1, s.workers[e.w].phase.snap.attempts + 1);
      Shares(cfg, s, id)[e.w] >= (|s.workers| + 1) * q && Shares(cfg, Next(cfg, s, e), id)[e.w] == q
  {
    var base, stored, seen := |s.workers| + 1, s.entries[id].job.attempts, s.workers[e.w].phase.snap.attempts;
    StoredAfterStep(cfg, s, e, id);
    HeldAfterStep(cfg, s, e, e.w, id);
    assert Weight(cfg, base, seen) == base * Weight(cfg, base, seen + 1);
    WeightAntitone(cfg, base, Min(seen, stored), seen);
  }

  lemma ShareAfterWin(cfg: Config, base: nat, stored: nat, written: nat, held: Option<nat>)
    requires base >= 1
    ensures Share(cfg, base, written, held) <= Share(cfg, base, stored, held) + Weight(cfg, base, written) - 1
  {
    var before := if held.Some? then Min(held.value, stored) else stored;
    var after := if held.Some? then Min(held.value, written) else written;
    if after >= before {
      WeightAntitone(cfg, base, before, after);
    } else {
      assert after == written;
    }
  }

  // ---- whole runs ------------------------------------------------------------------------------------------------

  /** Claims made and claims still possible together fit the lives the job has had. */
  predicate WithinBudget(cfg: Config, s: State) {
    forall id | id in s.entries ::
      s.entries[id].claims + Potential(cfg, s, id) <= (1 + s.entries[id].retries) * Allowance(cfg, |s.workers|)
  }

  lemma JobWithinBudget(cfg: Config, s: State, e: Event, id: JobId)
    requires Inv(cfg, s) && Enabled(s, e) && WithinBudget(cfg, s) && id in Next(cfg, s, e).entries
    ensures var t := Next(cfg, s, e);
      t.entries[id].claims + Potential(cfg, t, id) <= (1 + t.entries[id].retries) * Allowance(cfg, |s.workers|)
  {
    hide Next, Inv, Enabled, Potential, Allowance, IsWinOf;
    var t := Next(cfg, s, e);
    PotentialAtMostAllowance(cfg, t, id);
    if id in s.entries {
      StoredAfterStep(cfg, s, e, id);
      MoreLives(s.entries[id].retries, t.entries[id].retries, Allowance(cfg, |s.workers|));
      if IsWinOf(cfg, s, e, id) {
        WinLowersPotential(cfg, s, e, id);
      } else if t.entries[id].job.attempts == s.entries[id].job.attempts {
        SharesShrink(cfg, s, e, id);
      }
    } else {
      NewJobIsFresh(cfg, s, e, id);
    }
  }

  lemma NewJobIsFresh(cfg: Config, s: State, e: Event, id: JobId)
    requires Enabled(s, e) && id !in s.entries && id in Next(cfg, s, e).entries
    ensures Next(cfg, s, e).entries[id].claims == Next(cfg, s, e).entries[id].retries == 0
  {
  }

  lemma StepWithinBudget(cfg: Config, s: State, e: Event)
    requires Inv(cfg, s) && Enabled(s, e) && WithinBudget(cfg, s)
    ensures WithinBudget(cfg, Next(cfg, s, e))
  {
    forall id | id in Next(cfg, s, e).entries {
      JobWithinBudget(cfg, s, e, id);
    }
  }

  lemma MoreLives(before: nat, after: nat, allowance: nat)
    requires before <= after
    ensures (1 + before) * allowance <= (1 + after) * allowance
    ensures (1 + (before + 1)) * allowance == (1 + before) * allowance + allowance
  {
    assert (1 + after) * allowance == (1 + before) * allowance + (after - before) * allowance;
  }

  lemma {:induction false} RunWithinBudget(cfg: Config, s: State, es: seq<Event>)
    requires Inv(cfg, s) && WithinBudget(cfg, s) && IsRun(cfg, s, es)
    ensures WithinBudget(cfg, After(cfg, s, es))
    decreases |es|
  {
    if es != [] {
      StepWithinBudget(cfg, s, es[0]);
      StepKeepsInv(cfg, s, es[0]);
      RunWithinBudget(cfg, Next(cfg, s, es[0]), es[1..]);
    }
  }

  /** In every run of `W` workers a job is claimed at most `W * (W + 1)^max` times per life: once
      over, plus once more for each administrator retry. Its stored attempts never exceed `max`. */
  lemma ClaimsAreBounded(cfg: Config, s: State, es: seq<Event>, id: JobId)
    requires Init(s) && IsRun(cfg, s, es) && id in After(cfg, s, es).entries
    ensures var entry, workers := After(cfg, s, es).entries[id], |s.workers|;
      && entry.claims <= (1 + entry.retries) * (workers * Pow(workers + 1, cfg.maxAttempts))
      && entry.job.attempts <= cfg.maxAttempts
  {
    hide Potential;
    InitInv(cfg, s);
    RunKeepsInv(cfg, s, es);
    RunWithinBudget(cfg, s, es);
  }

  // ---- one worker ---------------------------------------------------------------------------------------------------

  /** A lone worker's snapshots are never stale, so the stored attempts count its claims. */
  predicate Sole(cfg: Config, s: State) {
    && |s.workers| == 1
    && (forall x | x in Unused(s.workers[0].phase) ::
          x.id in s.entries && s.entries[x.id].job.status.Queued? && s.entries[x.id].job.attempts == x.attempts)
    && (forall id | id in s.entries ::
          s.entries[id].claims <= s.entries[id].retries * cfg.maxAttempts + s.entries[id].job.attempts)
  }

  lemma StepKeepsSole(cfg: Config, s: State, e: Event)
    requires Inv(cfg, s) && Sole(cfg, s) && Enabled(s, e)
    ensures Sole(cfg, Next(cfg, s, e))
  {
    var t := Next(cfg, s, e);
    SoleSnapshotsFresh(cfg, s, e);
    forall id | id in t.entries
      ensures t.entries[id].claims <= t.entries[id].retries * cfg.maxAttempts + t.entries[id].job.attempts
    {
      if id in s.entries {
        StoredAfterStep(cfg, s, e, id);
        MoreRetries(s.entries[id].retries, cfg.maxAttempts);
        if IsWinOf(cfg, s, e, id) {
          var p := s.workers[e.w].phase;
          assert p.snap in Unused(p);
          assert t.entries[id].retries == s.entries[id].retries;
        } else if e == AdminRetry(id) {
          assert s.entries[id].job.attempts <= cfg.maxAttempts;
        }
      }
    }
  }

  lemma MoreRetries(retries: nat, max: nat)
    ensures (retries + 1) * max == retries * max + max
  {
  }

  lemma SoleSnapshotsFresh(cfg: Config, s: State, e: Event)
    requires Inv(cfg, s) && Sole(cfg, s) && Enabled(s, e)
    ensures var t := Next(cfg, s, e); forall x | x in Unused(t.workers[0].phase) ::
      x.id in t.entries && t.entries[x.id].job.status.Queued? && t.entries[x.id].job.attempts == x.attempts
  {
    var t := Next(cfg, s, e);
    var before, after := Unused(s.workers[0].phase), Unused(t.workers[0].phase);
    if e.Claim? || e.ReadClock? {
      var p := s.workers[0].phase;
      assert before == if e.Claim? then [p.snap] + p.todo else p.todo;
      assert e.ReadClock? ==> after == before;
      if e.Claim? {
        assert after == before[1..];
        forall x | x in after
          ensures x.id != p.snap.id && x in before
        {
          var k :| 0 <= k < |after| && after[k] == x;
          assert before[k + 1] == x && before[0] == p.snap;
        }
      }
    }
  }

  lemma {:induction false} RunKeepsSole(cfg: Config, s: State, es: seq<Event>)
    requires Inv(cfg, s) && Sole(cfg, s) && IsRun(cfg, s, es)
    ensures Sole(cfg, After(cfg, s, es)) && Inv(cfg, After(cfg, s, es))
    decreases |es|
  {
    if es != [] {
      StepKeepsSole(cfg, s, es[0]);
      StepKeepsInv(cfg, s, es[0]);
      RunKeepsSole(cfg, Next(cfg, s, es[0]), es[1..]);
    }
  }

  /** With one worker, crashes and restarts included, a job is claimed at most `max` times per life. */
  lemma OneWorkerClaimsAtMostMax(cfg: Config, s: State, es: seq<Event>, id: JobId)
    requires Init(s) && |s.workers| == 1 && IsRun(cfg, s, es) && id in After(cfg, s, es).entries
    ensures After(cfg, s, es).entries[id].claims <= (1 + After(cfg, s, es).entries[id].retries) * cfg.maxAttempts
  {
    InitInv(cfg, s);
    RunKeepsSole(cfg, s, es);
    MoreRetries(After(cfg, s, es).entries[id].retries, cfg.maxAttempts);
  }
}

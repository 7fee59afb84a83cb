/** The in-process rate limiter: a sliding window of hit times, or a counter that resets. */
module RateLimit {
  import opened Lib

  /** Whether the hit is allowed, how many hits count so far, and in how many seconds to try again. */
  datatype Decision = Decision(allowed: bool, count: int, retryAfter: Option<int>)

  /** `max(1, int(wait) + 1)`; `int` truncates. */
  function RetryAfter(wait: real): (seconds: int)
    ensures wait > 0.0 ==> wait < seconds as real <= wait + 1.0
    ensures wait <= 0.0 ==> seconds == 1
    ensures seconds >= 1
  {
    var whole := if wait >= 0.0 then wait.Floor else -((-wait).Floor);
    if whole + 1 >= 1 then whole + 1 else 1
  }

  // ---- one hit ------------------------------------------------------------------------------------------------

  /** The hits still inside the window. */
  function Prune(hits: seq<real>, now: real, window: real): (kept: seq<real>)
    ensures |kept| <= |hits| && kept == hits[|hits| - |kept|..]
    ensures kept != [] ==> kept[0] > now - window
    ensures forall i | 0 <= i < |hits| - |kept| :: hits[i] <= now - window
  {
    if hits != [] && hits[0] <= now - window then Prune(hits[1..], now, window) else hits
  }

  function Slide(hits: seq<real>, now: real, limit: nat, window: real): (r: (seq<real>, Decision))
    requires limit >= 1
  {
    var kept := Prune(hits, now, window);
    if |kept| >= limit then (kept, Decision(false, |kept|, Some(RetryAfter(kept[0] + window - now))))
    else (kept + [now], Decision(true, |kept| + 1, None))
  }

  /** Hits counted so far, and when the count starts over. */
  datatype Counter = Counter(count: nat, reset: real)

  function Count(c: Option<Counter>, now: real, limit: nat, window: real): (Counter, Decision) {
    var running := c.Some? && c.value.reset > now;
    var count := if running then c.value.count + 1 else 1;
    var reset := if running then c.value.reset else now + window;
    (Counter(count, reset),
     Decision(count <= limit, count, if count <= limit then None else Some(RetryAfter(reset - now))))
  }

  /** The popping loop. */
  method DropExpired(all: seq<real>, now: real, window: real) returns (hits: seq<real>)
    ensures hits == Prune(all, now, window)
  {
    hits := all;
    while hits != [] && hits[0] <= now - window
      invariant Prune(hits, now, window) == Prune(all, now, window)
    {
      hits := hits[1..];
    }
  }

  class MemoryCache {
    var windows: map<string, seq<real>>
    var counters: map<string, Counter>

    constructor ()
      ensures windows == map[] && counters == map[]
    {
      windows, counters := map[], map[];
    }

    /** The sliding branch of `hit`. */
    method HitSliding(key: string, limit: nat, window: real, now: real) returns (d: Decision)
      requires limit >= 1
      modifies this
      ensures var r := Slide(if key in old(windows) then old(windows)[key] else [], now, limit, window);
        windows == old(windows)[key := r.0] && d == r.1
      ensures counters == old(counters)
      ensures var kept := Prune(if key in old(windows) then old(windows)[key] else [], now, window);
        && (d.allowed <==> |kept| < limit)
        && windows == old(windows)[key := if d.allowed then kept + [now] else kept]
        && d.count == |windows[key]|
        && d.retryAfter == if d.allowed then None else Some(RetryAfter(kept[0] + window - now))
    {
      hide Prune, RetryAfter;
      var hits := DropExpired(if key in windows then windows[key] else [], now, window);
      if |hits| >= limit {
        d := Decision(false, |hits|, Some(RetryAfter(hits[0] + window - now)));
      } else {
        hits := hits + [now];
        d := Decision(true, |hits|, None);
      }
      windows := windows[key := hits];
    }

    /** The fixed branch of `hit`. */
    method HitFixed(key: string, limit: nat, window: real, now: real) returns (d: Decision)
      modifies this
      ensures var r := Count(if key in old(counters) then Some(old(counters)[key]) else None, now, limit, window);
        counters == old(counters)[key := r.0] && d == r.1
      ensures windows == old(windows)
      ensures counters == old(counters)[key := counters[key]]
      ensures counters[key] == if key in old(counters) && now < old(counters)[key].reset
                               then Counter(old(counters)[key].count + 1, old(counters)[key].reset)
                               else Counter(1, now + window)
      ensures d.count == counters[key].count && (d.allowed <==> d.count <= limit)
      ensures d.retryAfter == if d.allowed then None else Some(RetryAfter(counters[key].reset - now))
    {
      var c := if key in counters then counters[key] else Counter(0, now + window);
      if c.reset <= now {
        c := Counter(0, now + window);
      }
      c := Counter(c.count + 1, c.reset);
      counters := counters[key := c];
      var allowed := c.count <= limit;
      d := Decision(allowed, c.count, if allowed then None else Some(RetryAfter(c.reset - now)));
    }
  }

  // ---- runs of hits on one key -----------------------------------------------------------------------------------

  predicate NonDecreasing(times: seq<real>) {
    forall i, j | 0 <= i < j < |times| :: times[i] <= times[j]
  }

  /** How many of the times lie in [from, to). */
  function CountIn(times: seq<real>, from: real, to: real): (n: nat)
    ensures n <= |times|
  {
    if times == [] then 0
    else
      var last := times[|times| - 1];
      CountIn(times[..|times| - 1], from, to) + if from <= last < to then 1 else 0
  }

  lemma {:induction false} CountInConcat(a: seq<real>, b: seq<real>, from: real, to: real)
    ensures CountIn(a + b, from, to) == CountIn(a, from, to) + CountIn(b, from, to)
  {
    if b == [] {
      assert a + b == a;
    } else {
      assert (a + b)[..|a + b| - 1] == a + b[..|b| - 1];
      CountInConcat(a, b[..|b| - 1], from, to);
    }
  }

  lemma {:induction false} CountInNone(times: seq<real>, from: real, to: real)
    requires forall i | 0 <= i < |times| :: times[i] < from
    ensures CountIn(times, from, to) == 0
  {
    if times != [] {
      CountInNone(times[..|times| - 1], from, to);
    }
  }

  /** The sliding state and the allowed hits after hits at these times. */
  datatype Sliding = Sliding(hits: seq<real>, allowed: seq<real>)

  function SlidingRun(times: seq<real>, limit: nat, window: real): Sliding
    requires limit >= 1
  {
    if times == [] then Sliding([], [])
    else
      var before, now := SlidingRun(times[..|times| - 1], limit, window), times[|times| - 1];
      var r := Slide(before.hits, now, limit, window);
      Sliding(r.0, if r.1.allowed then before.allowed + [now] else before.allowed)
  }

  /** Any hit comes at least a window after the hit `limit` places before it. */
  predicate Spaced(allowed: seq<real>, limit: nat, window: real) {
    forall i | limit <= i < |allowed| :: allowed[i - limit] <= allowed[i] - window
  }

  /** The stored hits are the newest allowed ones; older ones have left the window. */
  predicate Remembers(s: Sliding, now: real, limit: nat, window: real) {
    && |s.hits| <= |s.allowed| && |s.hits| <= limit
    && s.hits == s.allowed[|s.allowed| - |s.hits|..]
    && (forall i | 0 <= i < |s.allowed| - |s.hits| :: s.allowed[i] <= now - window)
    && (forall i | 0 <= i < |s.allowed| :: s.allowed[i] <= now)
    && NonDecreasing(s.allowed) && Spaced(s.allowed, limit, window)
  }

  lemma {:induction false} PrunedHaveLeft(hits: seq<real>, now: real, window: real)
    ensures forall i | 0 <= i < |hits| - |Prune(hits, now, window)| :: hits[i] <= now - window
  {
    if hits != [] && hits[0] <= now - window {
      PrunedHaveLeft(hits[1..], now, window);
      forall i | 0 <= i < |hits| - |Prune(hits, now, window)|
        ensures hits[i] <= now - window
      {
        assert i > 0 ==> hits[i] == hits[1..][i - 1];
      }
    }
  }

  lemma RememberLess(s: Sliding, last: real, now: real, limit: nat, window: real)
    requires last <= now && Remembers(s, last, limit, window)
    ensures Remembers(Sliding(Prune(s.hits, now, window), s.allowed), now, limit, window)
  {
    hide Prune, NonDecreasing, Spaced;
    var kept := Prune(s.hits, now, window);
    PrunedHaveLeft(s.hits, now, window);
    var gone := |s.allowed| - |s.hits|;
    assert kept == s.allowed[|s.allowed| - |kept|..];
    forall i | 0 <= i < |s.allowed| - |kept|
      ensures s.allowed[i] <= now - window
    {
      assert i >= gone ==> s.allowed[i] == s.hits[i - gone];
    }
  }

  lemma RememberOneMore(s: Sliding, now: real, limit: nat, window: real)
    requires limit >= 1 && Remembers(s, now, limit, window) && |s.hits| < limit
    ensures Remembers(Sliding(s.hits + [now], s.allowed + [now]), now, limit, window)
  {
    hide NonDecreasing, Spaced;
    var more := s.allowed + [now];
    assert s.hits + [now] == more[|more| - |s.hits| - 1..];
    assert forall i | 0 <= i < |s.allowed| :: more[i] == s.allowed[i];
    LastIsGreatest(s.allowed, now);
    if |s.allowed| >= limit {
      assert s.allowed[|s.allowed| - limit] <= now - window;
    }
    SpacedMore(s.allowed, now, limit, window);
  }

  lemma LastIsGreatest(times: seq<real>, now: real)
    requires NonDecreasing(times) && forall i | 0 <= i < |times| :: times[i] <= now
    ensures NonDecreasing(times + [now])
  {
  }

  lemma SpacedMore(allowed: seq<real>, now: real, limit: nat, window: real)
    requires limit >= 1 && Spaced(allowed, limit, window)
    requires |allowed| >= limit ==> allowed[|allowed| - limit] <= now - window
    ensures Spaced(allowed + [now], limit, window)
  {
  }

  lemma {:induction false} RunRemembers(times: seq<real>, limit: nat, window: real)
    requires limit >= 1 && NonDecreasing(times) && times != []
    ensures Remembers(SlidingRun(times, limit, window), times[|times| - 1], limit, window)
  {
    hide Remembers, Prune;
    var front, now := times[..|times| - 1], times[|times| - 1];
    var before := SlidingRun(front, limit, window);
    if front == [] {
      RememberNothing(now, limit, window);
      RememberLess(before, now, now, limit, window);
    } else {
      RunRemembers(front, limit, window);
      RememberLess(before, front[|front| - 1], now, limit, window);
    }
    var pruned := Sliding(Prune(before.hits, now, window), before.allowed);
    if |pruned.hits| < limit {
      RememberOneMore(pruned, now, limit, window);
    }
  }

  lemma RememberNothing(now: real, limit: nat, window: real)
    ensures Remembers(Sliding([], []), now, limit, window)
  {
  }

  /** How many of the times are later than `from`. */
  function CountAfter(times: seq<real>, from: real): (n: nat)
    ensures n <= |times|
  {
    if times == [] then 0
    else CountAfter(times[..|times| - 1], from) + if times[|times| - 1] > from then 1 else 0
  }

  lemma {:induction false} CountAfterSplit(old_: seq<real>, recent: seq<real>, from: real)
    requires (forall i | 0 <= i < |old_| :: old_[i] <= from) && (forall i | 0 <= i < |recent| :: recent[i] > from)
    ensures CountAfter(old_ + recent, from) == |recent|
    decreases |old_| + |recent|
  {
    var all := old_ + recent;
    if recent != [] {
      assert all[..|all| - 1] == old_ + recent[..|recent| - 1];
      CountAfterSplit(old_, recent[..|recent| - 1], from);
    } else if old_ != [] {
      assert all == old_ && all[..|all| - 1] == old_[..|old_| - 1] + [];
      CountAfterSplit(old_[..|old_| - 1], [], from);
    }
  }

  /** After any run, a sliding hit is allowed exactly if fewer than `limit` allowed hits lie within the window before
      it; the count it reports is theirs, with its own if it is allowed. */
  lemma SlidingAllowsExactly(times: seq<real>, now: real, limit: nat, window: real)
    requires limit >= 1 && NonDecreasing(times + [now])
    ensures var before := SlidingRun(times, limit, window);
      var recent := CountAfter(before.allowed, now - window);
      var d := Slide(before.hits, now, limit, window).1;
      (d.allowed <==> recent < limit) && d.count == recent + (if d.allowed then 1 else 0)
  {
    hide Remembers, Prune;
    var before := SlidingRun(times, limit, window);
    if times == [] {
      RememberNothing(now, limit, window);
      RememberLess(before, now, now, limit, window);
    } else {
      assert forall i | 0 <= i < |times| :: (times + [now])[i] == times[i];
      assert (times + [now])[|times|] == now;
      RunRemembers(times, limit, window);
      RememberLess(before, times[|times| - 1], now, limit, window);
    }
    var kept := Prune(before.hits, now, window);
    RecentAreKept(Sliding(kept, before.allowed), now, limit, window);
  }

  lemma RecentAreKept(s: Sliding, now: real, limit: nat, window: real)
    requires Remembers(s, now, limit, window) && (s.hits != [] ==> s.hits[0] > now - window)
    ensures CountAfter(s.allowed, now - window) == |s.hits|
  {
    hide Spaced;
    var gone := |s.allowed| - |s.hits|;
    assert s.allowed == s.allowed[..gone] + s.hits;
    forall i | 0 <= i < |s.hits|
      ensures s.hits[i] > now - window
    {
      assert s.hits[i] == s.allowed[gone + i] && s.hits[0] == s.allowed[gone];
    }
    CountAfterSplit(s.allowed[..gone], s.hits, now - window);
  }

  /** How many of the times lie in the interval of the window's length that starts at `from`. */
  function InWindow(times: seq<real>, from: real, window: real): nat {
    CountIn(times, from, from + window)
  }

  lemma {:induction false} SpacedCount(allowed: seq<real>, limit: nat, window: real, from: real)
    requires NonDecreasing(allowed) && Spaced(allowed, limit, window)
    ensures InWindow(allowed, from, window) <= limit
  {
    hide NonDecreasing, Spaced;
    var n := |allowed|;
    if n > limit {
      if from <= allowed[n - 1] < from + window {
        OnlyLateOnesCount(allowed, limit, window, from);
      } else {
        FrontIsSpaced(allowed, limit, window);
        SpacedCount(allowed[..n - 1], limit, window, from);
      }
    }
  }

  lemma OnlyLateOnesCount(allowed: seq<real>, limit: nat, window: real, from: real)
    requires NonDecreasing(allowed) && Spaced(allowed, limit, window) && |allowed| > limit
    requires allowed[|allowed| - 1] < from + window
    ensures InWindow(allowed, from, window) <= limit
  {
    hide NonDecreasing, Spaced, CountIn;
    var early, late := allowed[..|allowed| - limit], allowed[|allowed| - limit..];
    EarlyOnes(allowed, limit, window, from);
    CountInNone(early, from, from + window);
    CountInConcat(early, late, from, from + window);
    assert allowed == early + late;
  }

  lemma EarlyOnes(allowed: seq<real>, limit: nat, window: real, from: real)
    requires NonDecreasing(allowed) && Spaced(allowed, limit, window) && |allowed| > limit
    requires allowed[|allowed| - 1] < from + window
    ensures forall i | 0 <= i < |allowed| - limit :: allowed[i] < from
  {
    assert allowed[|allowed| - 1 - limit] <= allowed[|allowed| - 1] - window;
  }

  lemma FrontIsSpaced(allowed: seq<real>, limit: nat, window: real)
    requires NonDecreasing(allowed) && Spaced(allowed, limit, window) && allowed != []
    ensures NonDecreasing(allowed[..|allowed| - 1]) && Spaced(allowed[..|allowed| - 1], limit, window)
  {
  }

  /** Sliding mode: in no interval of the window's length are more than `limit` hits allowed. */
  lemma SlidingNeverExceedsLimit(times: seq<real>, limit: nat, window: real, from: real)
    requires limit >= 1 && NonDecreasing(times)
    ensures InWindow(SlidingRun(times, limit, window).allowed, from, window) <= limit
  {
    if times != [] {
      RunRemembers(times, limit, window);
      SpacedCount(SlidingRun(times, limit, window).allowed, limit, window, from);
    }
  }

  // ---- fixed windows -----------------------------------------------------------------------------------------------

  datatype Fixed = Fixed(counter: Option<Counter>, allowed: seq<real>)

  function FixedRun(times: seq<real>, limit: nat, window: real): Fixed {
    if times == [] then Fixed(None, [])
    else
      var before, now := FixedRun(times[..|times| - 1], limit, window), times[|times| - 1];
      var r := Count(before.counter, now, limit, window);
      Fixed(Some(r.0), if r.1.allowed then before.allowed + [now] else before.allowed)
  }

  /** Allowed hits of earlier counting periods, then those of the current one, which began with a hit at `start`. */
  ghost predicate Periods(f: Fixed, earlier: seq<real>, now: real, limit: nat, window: real) {
    && f.counter.Some? && f.counter.value.count >= 1
    && var start := f.counter.value.reset - window;
       var n := |f.allowed| - |earlier|;
    && start <= now && |earlier| < |f.allowed| && n == Min(f.counter.value.count, limit)
    && earlier == f.allowed[..|earlier|] && f.allowed[|earlier|] == start
    && (forall i | 0 <= i < |earlier| :: earlier[i] < start)
    && (forall from, to | from > start - window :: CountIn(earlier, from, to) <= limit - 1)
    && (forall from :: InWindow(f.allowed, from, window) <= 2 * limit - 1)
  }

  function Min(a: nat, b: nat): nat {
    if a <= b then a else b
  }

  lemma FirstIsLeftOut(times: seq<real>, from: real, to: real)
    requires times != [] && times[0] < from
    ensures CountIn(times, from, to) <= |times| - 1
  {
  }

  lemma SamePeriod(f: Fixed, earlier: seq<real>, last: real, now: real, limit: nat, window: real)
    requires limit >= 1 && window > 0.0 && last <= now && Periods(f, earlier, last, limit, window)
    requires f.counter.value.reset > now
    ensures var r := Count(f.counter, now, limit, window);
      Periods(Fixed(Some(r.0), if r.1.allowed then f.allowed + [now] else f.allowed), earlier, now, limit, window)
  {
    var start := f.counter.value.reset - window;
    if f.counter.value.count + 1 <= limit {
      var more := f.allowed + [now];
      forall from
        ensures InWindow(more, from, window) <= 2 * limit - 1
      {
        assert InWindow(f.allowed, from, window) <= 2 * limit - 1;
        if from <= now < from + window {
          var current := more[|earlier|..];
          assert more == earlier + current;
          CountInConcat(earlier, current, from, from + window);
        }
      }
    }
  }

  lemma NewPeriod(f: Fixed, earlier: seq<real>, last: real, now: real, limit: nat, window: real)
    requires limit >= 1 && window > 0.0 && last <= now && Periods(f, earlier, last, limit, window)
    requires f.counter.value.reset <= now
    requires forall i | 0 <= i < |f.allowed| :: f.allowed[i] < f.counter.value.reset
    ensures Periods(Fixed(Some(Counter(1, now + window)), f.allowed + [now]), f.allowed, now, limit, window)
  {
    var start := f.counter.value.reset - window;
    var current := f.allowed[|earlier|..];
    assert f.allowed == earlier + current;
    forall from, to | from > now - window
      ensures CountIn(f.allowed, from, to) <= limit - 1
    {
      CountInConcat(earlier, current, from, to);
      CountInNone(earlier, from, to);
      FirstIsLeftOut(current, from, to);
    }
    forall from
      ensures InWindow(f.allowed + [now], from, window) <= 2 * limit - 1
    {
      assert InWindow(f.allowed, from, window) <= 2 * limit - 1;
      CountInConcat(f.allowed, [now], from, from + window);
    }
  }

  lemma {:induction false} RunHasPeriods(times: seq<real>, limit: nat, window: real) returns (earlier: seq<real>)
    requires limit >= 1 && window > 0.0 && NonDecreasing(times) && times != []
    ensures Periods(FixedRun(times, limit, window), earlier, times[|times| - 1], limit, window)
    ensures forall i | 0 <= i < |FixedRun(times, limit, window).allowed| ::
      FixedRun(times, limit, window).allowed[i] < FixedRun(times, limit, window).counter.value.reset
  {
    hide Periods;
    var front, now := times[..|times| - 1], times[|times| - 1];
    if front == [] {
      earlier := [];
      FirstPeriod(now, limit, window);
    } else {
      var before := RunHasPeriods(front, limit, window);
      var f := FixedRun(front, limit, window);
      if f.counter.value.reset > now {
        SamePeriod(f, before, front[|front| - 1], now, limit, window);
        earlier := before;
      } else {
        NewPeriod(f, before, front[|front| - 1], now, limit, window);
        earlier := f.allowed;
      }
    }
  }

  lemma FirstPeriod(now: real, limit: nat, window: real)
    requires limit >= 1 && window > 0.0
    ensures Periods(FixedRun([now], limit, window), [], now, limit, window)
  {
    assert FixedRun([now], limit, window) == Fixed(Some(Counter(1, now + window)), [now]);
  }

  /** Fixed mode: an interval of the window's length can straddle two counting periods, but it cannot hold
      the hit that began the first of them: at most `2 * limit - 1` hits are allowed in it. */
  lemma FixedNeverExceedsTwice(times: seq<real>, limit: nat, window: real, from: real)
    requires limit >= 1 && window > 0.0 && NonDecreasing(times)
    ensures InWindow(FixedRun(times, limit, window).allowed, from, window) <= 2 * limit - 1
  {
    if times != [] {
      var earlier := RunHasPeriods(times, limit, window);
      assert InWindow(FixedRun(times, limit, window).allowed, from, window) <= 2 * limit - 1;
    }
  }

  lemma FixedStep(times: seq<real>, now: real, limit: nat, window: real)
    ensures var before := FixedRun(times, limit, window);
      var r := Count(before.counter, now, limit, window);
      FixedRun(times + [now], limit, window)
        == Fixed(Some(r.0), if r.1.allowed then before.allowed + [now] else before.allowed)
  {
    assert (times + [now])[..|times|] == times;
  }

  function Copies(t: real, n: nat): (s: seq<real>)
    ensures |s| == n && forall i | 0 <= i < n :: s[i] == t
  {
    seq(n, i requires 0 <= i < n => t)
  }

  /** More hits at one moment of a running period, as many as the limit leaves. */
  lemma {:induction false} HitsAtOnce(times: seq<real>, t: real, n: nat, limit: nat, window: real)
    requires var f := FixedRun(times, limit, window);
      f.counter.Some? && f.counter.value.reset > t && f.counter.value.count + n <= limit
    ensures var f := FixedRun(times, limit, window);
      FixedRun(times + Copies(t, n), limit, window)
        == Fixed(Some(Counter(f.counter.value.count + n, f.counter.value.reset)), f.allowed + Copies(t, n))
  {
    hide FixedRun;
    if n == 0 {
      assert times + Copies(t, 0) == times && FixedRun(times, limit, window).allowed + Copies(t, 0)
        == FixedRun(times, limit, window).allowed;
    } else {
      HitsAtOnce(times, t, n - 1, limit, window);
      FixedStep(times + Copies(t, n - 1), t, limit, window);
      assert Copies(t, n) == Copies(t, n - 1) + [t];
      assert times + Copies(t, n) == times + Copies(t, n - 1) + [t];
    }
  }

  lemma {:induction false} CountCopies(t: real, n: nat, from: real, to: real)
    ensures CountIn(Copies(t, n), from, to) == if from <= t < to then n else 0
  {
    if n > 0 {
      CountCopies(t, n - 1, from, to);
      assert Copies(t, n)[..n - 1] == Copies(t, n - 1);
    }
  }

  /** One hit at the start of a period, the rest of its hits halfway, and a full period's worth right after. */
  function Burst(limit: nat, window: real): seq<real>
    requires limit >= 1
  {
    [0.0] + Copies(window / 2.0, limit - 1) + Copies(window, limit)
  }

  lemma BurstIsAllowed(limit: nat, window: real)
    requires limit >= 1 && window > 0.0
    ensures FixedRun(Burst(limit, window), limit, window).allowed == Burst(limit, window)
  {
    hide FixedRun;
    NoHits(limit, window);
    FixedStep([], 0.0, limit, window);
    assert [] + [0.0] == [0.0];
    HitsAtOnce([0.0], window / 2.0, limit - 1, limit, window);
    var first := [0.0] + Copies(window / 2.0, limit - 1);
    FixedStep(first, window, limit, window);
    HitsAtOnce(first + [window], window, limit - 1, limit, window);
    assert Copies(window, limit) == [window] + Copies(window, limit - 1);
    assert first + [window] + Copies(window, limit - 1) == Burst(limit, window);
  }

  /** The bound is met for every limit and window: the interval from halfway on holds all hits but the first. */
  lemma FixedBoundIsMet(limit: nat, window: real)
    requires limit >= 1 && window > 0.0
    ensures NonDecreasing(Burst(limit, window))
    ensures InWindow(FixedRun(Burst(limit, window), limit, window).allowed, window / 2.0, window) == 2 * limit - 1
  {
    hide FixedRun, CountIn;
    BurstIsAllowed(limit, window);
    var first, late := [0.0] + Copies(window / 2.0, limit - 1), Copies(window, limit);
    var from, to := window / 2.0, window / 2.0 + window;
    CountInConcat(first, late, from, to);
    CountInConcat([0.0], Copies(window / 2.0, limit - 1), from, to);
    CountOne(0.0, from, to);
    CountCopies(window / 2.0, limit - 1, from, to);
    CountCopies(window, limit, from, to);
  }

  lemma NoHits(limit: nat, window: real)
    ensures FixedRun([], limit, window) == Fixed(None, [])
  {
  }

  lemma CountOne(t: real, from: real, to: real)
    ensures CountIn([t], from, to) == if from <= t < to then 1 else 0
  {
    assert [t][..0] == [];
  }

  // ---- waiting --------------------------------------------------------------------------------------------------

  /** After a refusal in sliding mode, and no other hit, the next one is allowed exactly when the oldest
      counted hit has left the window; waiting `retry_after` seconds always suffices. */
  lemma SlidingRetry(hits: seq<real>, now: real, limit: nat, window: real, later: real)
    requires limit >= 1 && |hits| <= limit && !Slide(hits, now, limit, window).1.allowed && later >= now
    ensures var r := Slide(hits, now, limit, window);
      && r.1.retryAfter.Some?
      && (Slide(r.0, later, limit, window).1.allowed <==> later >= r.0[0] + window)
      && (later >= now + r.1.retryAfter.value as real ==> later >= r.0[0] + window)
  {
  }

  /** The same in fixed mode: refused until the counter resets, allowed from then on. */
  lemma FixedRetry(c: Option<Counter>, now: real, limit: nat, window: real, later: real)
    requires limit >= 1 && window > 0.0 && !Count(c, now, limit, window).1.allowed && later >= now
    ensures var r := Count(c, now, limit, window);
      && r.1.retryAfter.Some?
      && (Count(Some(r.0), later, limit, window).1.allowed <==> later >= r.0.reset)
      && (later >= now + r.1.retryAfter.value as real ==> later >= r.0.reset)
  {
  }
}

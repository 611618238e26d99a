/**
 The conditions of the two admission bounds are exact, for every rate and burst: where a pause pays, a run
 that serves greedily, pauses until the keys expire and serves again breaks the bound. The runs are built
 call by call, every call allowed. For whole-number rates and bursts the conditions have closed forms.
 */
module RedisExactness {
  import opened Options
  import opened Histories
  import opened RateLimitTypes
  import opened RedisLimiter
  import opened RedisBounds
  import opened RedisAdmission

  // ---------------------------------------------------------------- runs in which every call is allowed

  datatype Run = Run(calls: seq<Call>, records: seq<Record>, decisions: seq<Decision>)

  ghost predicate AllAllowed(cfg: RateLimitConfig, run: Run, end: Time)
    requires UsableLimits(cfg)
  {
    && KeyRun(cfg, run.calls, run.records, run.decisions)
    && InOrder(run.calls)
    && (forall k :: 0 <= k < |run.calls| ==> run.decisions[k].action == Allow)
    && (forall k :: 0 <= k < |run.calls| ==> 0 <= run.calls[k].now <= end)
  }

  function Last(run: Run): Record {
    if run.records == [] then NOTHING else run.records[|run.records| - 1]
  }

  const NO_CALLS := Run([], [NOTHING], [])

  /** One more allowed call at a time not before the others. */
  lemma {:induction false} Extend(cfg: RateLimitConfig, run: Run, end: Time, now: Time) returns (longer: Run)
    requires UsableLimits(cfg) && AllAllowed(cfg, run, end) && 0 <= end <= now
    requires Evaluate(Last(run), Call("", "", cfg, now)).decision.action == Allow
    ensures AllAllowed(cfg, longer, now) && |longer.calls| == |run.calls| + 1
    ensures Last(longer) == Evaluate(Last(run), Call("", "", cfg, now)).record
  {
    hide Evaluate;
    var c := Call("", "", cfg, now);
    var e := Evaluate(Last(run), c);
    longer := Run(run.calls + [c], run.records + [e.record], run.decisions + [e.decision]);
    forall k | 0 <= k < |longer.calls| ensures KeyCallAt(cfg, longer.calls, longer.records, longer.decisions, k) {
      if k < |run.calls| {
        assert KeyCallAt(cfg, run.calls, run.records, run.decisions, k);
      }
    }
  }

  lemma {:induction false} AllAllowedCount(cfg: RateLimitConfig, run: Run, end: Time, n: nat)
    requires UsableLimits(cfg) && AllAllowed(cfg, run, end) && n <= |run.calls|
    ensures CountBetween(AllowedTimes(run.calls, run.decisions, n), -1, end) == n
  {
    if n > 0 {
      AllAllowedCount(cfg, run, end, n - 1);
      CountAppend(AllowedTimes(run.calls, run.decisions, n - 1), run.calls[n - 1].now, -1, end);
    }
  }

  // ---------------------------------------------------------------- records ahead of the greedy serving

  /** At now the window holds no more than count calls and the bucket at least this many tokens. */
  predicate Ahead(r: Record, cfg: RateLimitConfig, now: Time, count: int, tokens: real)
    requires UsableLimits(cfg)
  {
    && r.block.Absent?
    && (r.burst.Held? ==> r.burst.value.lastRefill <= now && r.burst.expires <= now + cfg.eventRetentionSeconds)
    && (r.window.Held? ==> r.window.expires <= now + cfg.eventRetentionSeconds)
    && |WindowAt(r, now)| <= count
    && Refilled(Live(r.burst, now), cfg, now) >= tokens
  }

  /** At now the keys of the window and the bucket are gone. */
  predicate Idle(r: Record, now: Time) {
    && r.block.Absent?
    && (r.window.Held? ==> r.window.expires <= now)
    && (r.burst.Held? ==> r.burst.expires <= now && r.burst.value.lastRefill <= now)
  }

  lemma {:induction false} IdleIsAhead(r: Record, cfg: RateLimitConfig, now: Time)
    requires UsableLimits(cfg) && Idle(r, now)
    ensures Ahead(r, cfg, now, 0, cfg.burstCapacity)
  {
  }

  lemma {:induction false} AheadGoesIdle(r: Record, cfg: RateLimitConfig, now: Time, count: int, tokens: real, later: Time)
    requires UsableLimits(cfg) && Ahead(r, cfg, now, count, tokens) && later >= now + cfg.eventRetentionSeconds
    ensures Idle(r, later)
  {
  }

  /** A second later the bucket has gained a second's worth, or is full. */
  lemma {:induction false} AheadNextSecond(r: Record, cfg: RateLimitConfig, now: Time, count: int, tokens: real)
    requires UsableLimits(cfg) && Ahead(r, cfg, now, count, tokens) && count >= 0
    ensures Ahead(r, cfg, now + 1, count, MinReal(cfg.burstCapacity, tokens + cfg.baseRequestsPerSecond))
  {
    FewSeconds(cfg);
    if r.burst.Held? {
      var last := r.burst.value.lastRefill;
      LiveRefill(r.burst.value, cfg, now);
      LiveRefill(r.burst.value, cfg, now + 1);
      GainAdds(cfg, now - last, 1);
    }
    hide Gain;
  }

  /** A call that meets both limits is allowed. */
  lemma {:induction false} MeetsBoth(r: Record, c: Call)
    requires UsableLimits(c.cfg) && r.block.Absent?
    requires ViewAt(r, c).count as real <= Gain(c.cfg, c.cfg.slidingWindowSeconds)
    requires Refilled(Live(r.burst, c.now), c.cfg, c.now) >= 1.0
    ensures FreshDecision(r, c).action == Allow && FreshRecord(r, c).block.Absent?
  {
    var v, s := ViewAt(r, c), c.cfg.slidingWindowSeconds as real;
    assert ObservedRate(v, c.cfg) * s == v.count as real;
    CancelSeconds(c.cfg.baseRequestsPerSecond, ObservedRate(v, c.cfg), s);
  }

  lemma {:induction false} AheadPasses(r: Record, c: Call, count: nat, tokens: real)
    requires UsableLimits(c.cfg) && Ahead(r, c.cfg, c.now, count, tokens)
    requires tokens >= 1.0 && count + 1 <= WindowRoom(c.cfg)
    ensures var e := Evaluate(r, c);
            e.decision.action == Allow && Ahead(e.record, c.cfg, c.now, count + 1, tokens - 1.0)
  {
    var cfg, now := c.cfg, c.now;
    var kept := After(WindowAt(r, now), now - cfg.slidingWindowSeconds) + [now];
    KeptIsShorter(WindowAt(r, now), now - cfg.slidingWindowSeconds);
    RoomIsGain(cfg);
    assert ViewAt(r, c).count == |kept| <= count + 1;
    hide After, WindowRoom, Gain;
    MeetsBoth(r, c);
    FreshEffect(r, c);
    hide FreshDecision, FreshRecord;
    var next := FreshRecord(r, c);
    FewSeconds(cfg);
    LiveRefill(next.burst.value, cfg, now);
  }

  // ---------------------------------------------------------------- servings

  /** Calls at one second, while there are tokens for them. */
  lemma {:induction false} ServeSecond(cfg: RateLimitConfig, run: Run, end: Time, now: Time, count: nat, tokens: real, n: nat)
    returns (longer: Run)
    requires UsableLimits(cfg) && AllAllowed(cfg, run, end) && 0 <= end <= now
    requires Ahead(Last(run), cfg, now, count, tokens) && n as real <= tokens && count + n <= WindowRoom(cfg)
    ensures AllAllowed(cfg, longer, now) && |longer.calls| == |run.calls| + n
    ensures Ahead(Last(longer), cfg, now, count + n, tokens - n as real)
  {
    hide Evaluate, Ahead, WindowRoom;
    if n == 0 {
      longer := run;
    } else {
      var shorter := ServeSecond(cfg, run, end, now, count, tokens, n - 1);
      AheadPasses(Last(shorter), Call("", "", cfg, now), count + n - 1, tokens - (n - 1) as real);
      longer := Extend(cfg, shorter, now, now);
    }
  }

  function Least(a: int, b: int): (m: int)
    ensures m <= a && m <= b && (m == a || m == b)
  {
    if a <= b then a else b
  }

  /** Greedy service from an empty start, up to second d of it and no more than most calls. */
  lemma {:induction false} Serve(cfg: RateLimitConfig, run: Run, end: Time, start: Time, d: nat, most: nat)
    returns (longer: Run, tokens: real)
    requires UsableLimits(cfg) && AllAllowed(cfg, run, end) && 0 <= end <= start && Idle(Last(run), start)
    requires most <= WindowRoom(cfg)
    ensures AllAllowed(cfg, longer, start + d)
    ensures |longer.calls| == |run.calls| + Least(Greedy(cfg, d).passes, most)
    ensures tokens >= 0.0 && (Greedy(cfg, d).passes <= most ==> tokens >= Greedy(cfg, d).left)
    ensures Ahead(Last(longer), cfg, start + d, Least(Greedy(cfg, d).passes, most), tokens)
  {
    hide Greedy, Ahead, WindowRoom, Idle, AllAllowed, Last;
    if d == 0 {
      IdleIsAhead(Last(run), cfg, start);
      GreedyFirstSecond(cfg);
      var n := Least(Greedy(cfg, 0).passes, most);
      longer := ServeSecond(cfg, run, end, start, 0, cfg.burstCapacity, n);
      tokens := cfg.burstCapacity - n as real;
    } else {
      var shorter, before := Serve(cfg, run, end, start, d - 1, most);
      var count := Least(Greedy(cfg, d - 1).passes, most);
      AheadNextSecond(Last(shorter), cfg, start + d - 1, count, before);
      var there := MinReal(cfg.burstCapacity, before + cfg.baseRequestsPerSecond);
      var n := Least(Greedy(cfg, d).passes, most) - count;
      SecondFits(cfg, d, most, before);
      longer := ServeSecond(cfg, shorter, start + d - 1, start + d, count, there, n);
      tokens := there - n as real;
    }
  }

  /** Such a serving, seen from when its keys have expired. */
  lemma {:induction false} ServeAndPause(cfg: RateLimitConfig, run: Run, end: Time, start: Time, d: nat, most: nat)
    returns (longer: Run)
    requires UsableLimits(cfg) && AllAllowed(cfg, run, end) && 0 <= end <= start && Idle(Last(run), start)
    requires most <= WindowRoom(cfg)
    ensures AllAllowed(cfg, longer, start + d)
    ensures |longer.calls| == |run.calls| + Least(Greedy(cfg, d).passes, most)
    ensures Idle(Last(longer), start + d + cfg.eventRetentionSeconds)
  {
    hide Greedy, Ahead, WindowRoom, Idle, AllAllowed, Last;
    var tokens;
    longer, tokens := Serve(cfg, run, end, start, d, most);
    AheadGoesIdle(Last(longer), cfg, start + d, Least(Greedy(cfg, d).passes, most), tokens,
                  start + d + cfg.eventRetentionSeconds);
  }

  lemma {:induction false} GreedyFirstSecond(cfg: RateLimitConfig)
    requires UsableLimits(cfg)
    ensures Greedy(cfg, 0).passes as real + Greedy(cfg, 0).left == cfg.burstCapacity
  {
  }

  /** The greedy calls of second d find their tokens in a bucket that is not behind. */
  lemma {:induction false} SecondFits(cfg: RateLimitConfig, d: nat, most: nat, before: real)
    requires UsableLimits(cfg) && d > 0 && before >= 0.0
    requires Greedy(cfg, d - 1).passes <= most ==> before >= Greedy(cfg, d - 1).left
    ensures var there := MinReal(cfg.burstCapacity, before + cfg.baseRequestsPerSecond);
            var n := Least(Greedy(cfg, d).passes, most) - Least(Greedy(cfg, d - 1).passes, most);
            && 0 <= n && n as real <= there
            && (Greedy(cfg, d).passes <= most ==> there - n as real >= Greedy(cfg, d).left)
  {
    GreedyNextSecond(cfg, d);
    hide Greedy;
  }

  lemma {:induction false} GreedyNextSecond(cfg: RateLimitConfig, d: nat)
    requires UsableLimits(cfg) && d > 0
    ensures var before, now := Greedy(cfg, d - 1), Greedy(cfg, d);
            && before.passes <= now.passes
            && (now.passes - before.passes) as real + now.left ==
               MinReal(cfg.burstCapacity, before.left + cfg.baseRequestsPerSecond)
  {
  }

  // ---------------------------------------------------------------- the token bound

  /** k servings of d seconds, each as soon as the keys of the one before have expired. */
  lemma {:induction false} Cycles(cfg: RateLimitConfig, k: nat, d: nat) returns (run: Run)
    requires UsableLimits(cfg) && k >= 1
    ensures AllAllowed(cfg, run, k * (d + cfg.eventRetentionSeconds) - cfg.eventRetentionSeconds)
    ensures |run.calls| == k * Capped(cfg, d)
    ensures Idle(Last(run), k * (d + cfg.eventRetentionSeconds))
  {
    var cycle := d + cfg.eventRetentionSeconds;
    hide Greedy, WindowRoom, AllAllowed, Idle, Last;
    assert Least(Greedy(cfg, d).passes, WindowRoom(cfg)) == Capped(cfg, d);
    hide Capped;
    if k == 1 {
      NothingIsAllowed(cfg, 0);
      run := ServeAndPause(cfg, NO_CALLS, 0, 0, d, WindowRoom(cfg));
    } else {
      var shorter := Cycles(cfg, k - 1, d);
      var start := (k - 1) * cycle;
      OneMore(k, cycle);
      OneMore(k, Capped(cfg, d));
      run := ServeAndPause(cfg, shorter, start - cfg.eventRetentionSeconds, start, d, WindowRoom(cfg));
    }
  }

  lemma {:induction false} OneMore(k: int, x: int)
    ensures k * x == (k - 1) * x + x
    ensures k >= 2 && x >= 0 ==> (k - 1) * x >= x
  {
  }

  lemma {:induction false} NothingIsAllowed(cfg: RateLimitConfig, now: Time)
    requires UsableLimits(cfg)
    ensures AllAllowed(cfg, NO_CALLS, 0) && Idle(Last(NO_CALLS), now)
  {
  }

  lemma {:induction false} ManyGains(cfg: RateLimitConfig, k: nat, seconds: Time)
    ensures Gain(cfg, k * seconds) == k as real * Gain(cfg, seconds)
  {
    var base := cfg.baseRequestsPerSecond;
    assert (k * seconds) as real == k as real * seconds as real;
    assert base * (k as real * seconds as real) == k as real * (base * seconds as real);
  }

  lemma {:induction false} CyclesOutgrowLine(cfg: RateLimitConfig, k: nat, d: nat, served: int, gain: real)
    requires UsableLimits(cfg) && gain == served as real - Gain(cfg, d + cfg.eventRetentionSeconds)
    requires k as real * gain > cfg.burstCapacity
    ensures (k * served) as real >
            cfg.burstCapacity + Gain(cfg, k * (d + cfg.eventRetentionSeconds) - cfg.eventRetentionSeconds)
  {
    var cycle := d + cfg.eventRetentionSeconds;
    hide Gain;
    ManyGains(cfg, k, cycle);
    GainGrows(cfg, k * cycle - cfg.eventRetentionSeconds, k * cycle);
    assert (k * served) as real == k as real * served as real;
    assert k as real * gain == k as real * served as real - k as real * Gain(cfg, cycle);
  }

  /** More allowed calls in an interval than its line permits. */
  lemma {:induction false} BreaksLine(cfg: RateLimitConfig, run: Run, end: Time)
    requires UsableLimits(cfg) && end >= 0 && AllAllowed(cfg, run, end)
    requires |run.calls| as real > TokenLine(cfg, 0, end)
    ensures !TokenBoundHolds(cfg)
  {
    AllAllowedCount(cfg, run, end, |run.calls|);
    assert AllowedBetween(run.calls, run.decisions, |run.calls|, 0, end) as real > TokenLine(cfg, 0, end);
  }

  lemma {:induction false} EnoughCycles(gain: real, burst: real) returns (k: nat)
    requires gain > 0.0 && burst > 0.0
    ensures k >= 1 && k as real * gain > burst
  {
    var needed := burst / gain;
    assert needed * gain == burst && needed > 0.0;
    k := needed.Floor + 1;
    StrictProduct(k as real, needed, gain);
  }

  lemma {:induction false} StrictProduct(x: real, y: real, s: real)
    requires s > 0.0 && x > y
    ensures x * s > y * s
  {
  }

  lemma {:induction false} PayingPauseBreaksLine(cfg: RateLimitConfig, d: nat)
    requires UsableLimits(cfg) && Capped(cfg, d) as real > Gain(cfg, d + cfg.eventRetentionSeconds)
    ensures !TokenBoundHolds(cfg)
  {
    hide Capped, Gain, AllAllowed, Idle, TokenBoundHolds;
    var gain := Capped(cfg, d) as real - Gain(cfg, d + cfg.eventRetentionSeconds);
    var k := EnoughCycles(gain, cfg.burstCapacity);
    var run := Cycles(cfg, k, d);
    CyclesOutgrowLine(cfg, k, d, Capped(cfg, d), gain);
    assert k * (d + cfg.eventRetentionSeconds) >= d + cfg.eventRetentionSeconds;
    BreaksLine(cfg, run, k * (d + cfg.eventRetentionSeconds) - cfg.eventRetentionSeconds);
  }

  /** The token bound holds of every run exactly when no pause pays. */
  lemma {:induction false} TokenBoundExactly(cfg: RateLimitConfig)
    requires UsableLimits(cfg)
    ensures TokenBoundHolds(cfg) <==> PausesDoNotPay(cfg)
  {
    hide TokenBoundHolds, Capped, Gain;
    if PausesDoNotPay(cfg) {
      TokenBound(cfg);
    } else {
      var d: nat :| d < cfg.slidingWindowSeconds && Capped(cfg, d) as real > Gain(cfg, d + cfg.eventRetentionSeconds);
      PayingPauseBreaksLine(cfg, d);
    }
  }

  // ---------------------------------------------------------------- the window bound

  /** Some last serving attains the best with a pause. */
  lemma {:induction false} BestPausedAttained(cfg: RateLimitConfig, t: int, e: int) returns (d: nat)
    requires UsableLimits(cfg) && e <= t - cfg.eventRetentionSeconds && BestPaused(cfg, t, e) > 0
    ensures d <= e && Best(cfg, t - d - cfg.eventRetentionSeconds) + Greedy(cfg, d).passes == BestPaused(cfg, t, e)
    decreases e + 1
  {
    hide Best, BestPaused, Greedy;
    PausedSplits(cfg, t, e);
    if BestPaused(cfg, t, e) == BestPaused(cfg, t, e - 1) {
      d := BestPausedAttained(cfg, t, e - 1);
    } else {
      d := e;
    }
  }

  /** Any number of calls up to the best for t seconds, and to the window's room, can be allowed in them. */
  lemma {:induction false} ServeBest(cfg: RateLimitConfig, t: nat, n: nat) returns (run: Run)
    requires UsableLimits(cfg) && n <= Best(cfg, t) && n <= WindowRoom(cfg)
    ensures AllAllowed(cfg, run, t) && |run.calls| == n && Idle(Last(run), t + cfg.eventRetentionSeconds)
    decreases t
  {
    hide Best, BestPaused, Greedy, WindowRoom, AllAllowed, Idle, Last;
    BestSplits(cfg, t);
    if n <= Greedy(cfg, t).passes {
      NothingIsAllowed(cfg, 0);
      run := ServeAndPause(cfg, NO_CALLS, 0, 0, t, n);
    } else {
      var d := BestPausedAttained(cfg, t, t - cfg.eventRetentionSeconds);
      var late := Least(n, Greedy(cfg, d).passes);
      var early := ServeBest(cfg, t - d - cfg.eventRetentionSeconds, n - late);
      run := ServeAndPause(cfg, early, t - d - cfg.eventRetentionSeconds, t - d, d, late);
    }
  }

  /** Too many allowed calls inside one window length. */
  lemma {:induction false} BreaksWindow(cfg: RateLimitConfig, run: Run)
    requires UsableLimits(cfg) && AllAllowed(cfg, run, cfg.slidingWindowSeconds - 1)
    requires |run.calls| as real > Gain(cfg, cfg.slidingWindowSeconds)
    ensures !WindowBoundHolds(cfg)
  {
    AllAllowedCount(cfg, run, cfg.slidingWindowSeconds - 1, |run.calls|);
    assert InWindow(AllowedTimes(run.calls, run.decisions, |run.calls|), cfg, -1) == |run.calls|;
  }

  lemma {:induction false} PauseBreaksWindow(cfg: RateLimitConfig)
    requires UsableLimits(cfg) && !PausesFitWindow(cfg)
    ensures !WindowBoundHolds(cfg)
  {
    var t, room := cfg.slidingWindowSeconds - 1, WindowRoom(cfg);
    assert room as real + 1.0 > Gain(cfg, cfg.slidingWindowSeconds);
    hide Best, BestPaused, Greedy, WindowRoom, Gain, AllAllowed, Idle, Last, WindowBoundHolds;
    var d := BestPausedAttained(cfg, t, t - cfg.eventRetentionSeconds);
    var late := Least(room, Greedy(cfg, d).passes);
    var start := t - d - cfg.eventRetentionSeconds;
    var early := ServeBest(cfg, start, room + 1 - late);
    var run := ServeAndPause(cfg, early, start, t - d, d, late);
    BreaksWindow(cfg, run);
  }

  /** The window bound holds of every run exactly when pauses fit the window. */
  lemma {:induction false} WindowBoundExactly(cfg: RateLimitConfig)
    requires UsableLimits(cfg)
    ensures WindowBoundHolds(cfg) <==> PausesFitWindow(cfg)
  {
    hide WindowBoundHolds;
    if PausesFitWindow(cfg) {
      WindowBound(cfg);
    } else {
      PauseBreaksWindow(cfg);
    }
  }

  // ---------------------------------------------------------------- closed forms

  /** The rate and the burst are whole numbers. */
  predicate WholeLimits(cfg: RateLimitConfig) {
    && cfg.baseRequestsPerSecond == cfg.baseRequestsPerSecond.Floor as real
    && cfg.burstCapacity == cfg.burstCapacity.Floor as real
  }

  lemma {:induction false} WholeRoom(cfg: RateLimitConfig)
    requires UsableLimits(cfg) && WholeLimits(cfg)
    ensures WindowRoom(cfg) as real == Gain(cfg, cfg.slidingWindowSeconds)
    ensures Gain(cfg, 1) >= 1.0
  {
    var base, s := cfg.baseRequestsPerSecond.Floor, cfg.slidingWindowSeconds;
    assert base as real * s as real == (base * s) as real;
    assert Gain(cfg, s) == (base * s) as real;
    FewSeconds(cfg);
  }

  /** With a whole burst a pause does not pay exactly when the retention covers the refill, or what the window has room for. */
  lemma {:induction false} WholeBurstPauses(cfg: RateLimitConfig)
    requires UsableLimits(cfg) && cfg.burstCapacity == cfg.burstCapacity.Floor as real
    ensures PausesDoNotPay(cfg) <==>
            || Gain(cfg, cfg.eventRetentionSeconds) >= cfg.burstCapacity
            || Gain(cfg, cfg.eventRetentionSeconds) >= WindowRoom(cfg) as real
  {
    var r := cfg.eventRetentionSeconds;
    assert Greedy(cfg, 0).passes as real == cfg.burstCapacity;
    hide Greedy, WindowRoom, Gain;
    if Gain(cfg, r) >= cfg.burstCapacity {
      LongRetentionDoesNotPay(cfg);
    } else if Gain(cfg, r) >= WindowRoom(cfg) as real {
      forall d: nat | d < cfg.slidingWindowSeconds ensures Capped(cfg, d) as real <= Gain(cfg, d + r) {
        GainGrows(cfg, r, d + r);
      }
    } else {
      assert Capped(cfg, 0) as real > Gain(cfg, 0 + r);
    }
  }

  /** Whole tokens are all spent, so the greedy serving follows the line of the bucket. */
  lemma {:induction false} WholeGreedy(cfg: RateLimitConfig, d: nat)
    requires UsableLimits(cfg) && WholeLimits(cfg) && cfg.baseRequestsPerSecond <= cfg.burstCapacity
    ensures Greedy(cfg, d).passes as real == cfg.burstCapacity + Gain(cfg, d) && Greedy(cfg, d).left == 0.0
  {
    FewSeconds(cfg);
    if d > 0 {
      WholeGreedy(cfg, d - 1);
      GainAdds(cfg, d - 1, 1);
      GreedyNextSecond(cfg, d);
      hide Gain;
    }
  }

  /** With whole limits pauses fit exactly when the keys outlive the window or a pause costs a second bucket. */
  lemma {:induction false} WholeLimitsPauses(cfg: RateLimitConfig)
    requires UsableLimits(cfg) && WholeLimits(cfg)
    ensures PausesFitWindow(cfg) <==>
            || cfg.eventRetentionSeconds >= cfg.slidingWindowSeconds
            || 2.0 * cfg.burstCapacity <= Gain(cfg, cfg.eventRetentionSeconds + 1)
  {
    var r, s := cfg.eventRetentionSeconds, cfg.slidingWindowSeconds;
    if r >= s {
      LongRetentionFits(cfg);
    } else if 2.0 * cfg.burstCapacity <= Gain(cfg, r + 1) {
      CostlyPausesFit(cfg);
    } else {
      WholeRoom(cfg);
      FewSeconds(cfg);
      hide Best, BestPaused, Greedy, WindowRoom, Gain;
      GainAdds(cfg, r, 1);
      GainGrows(cfg, 1, r);
      GainGrows(cfg, 1, s);
      var e := s - 1 - r;
      WholeGreedy(cfg, 0);
      WholeGreedy(cfg, e);
      BestPausedCovers(cfg, s - 1, e, e);
      GainAdds(cfg, r + 1, e);
    }
  }
}

/**
 When the two admission bounds hold, for any rates: a pause that lets the keys expire hands out a full
 bucket and an empty window, so the bounds depend on what a full bucket serves while its key lives and
 on what pauses between such servings cost. Both are computed from the configuration alone.
 */
module RedisAdmission {
  import opened Options
  import opened Histories
  import opened RateLimitTypes
  import opened RedisLimiter
  import opened RedisBounds

  // ---------------------------------------------------------------- what a full bucket serves

  datatype Service = Service(passes: int, left: real)

  /** Calls served up to second d, and tokens left, when every whole token is spent as soon as it is there. */
  function Greedy(cfg: RateLimitConfig, d: nat): (s: Service)
    requires UsableLimits(cfg)
    ensures s.passes >= 1 && 0.0 <= s.left < 1.0
  {
    if d == 0 then Service(cfg.burstCapacity.Floor, cfg.burstCapacity - cfg.burstCapacity.Floor as real)
    else
      var before := Greedy(cfg, d - 1);
      var tokens := MinReal(cfg.burstCapacity, before.left + cfg.baseRequestsPerSecond);
      Service(before.passes + tokens.Floor, tokens - tokens.Floor as real)
  }

  lemma {:induction false} GreedyGrows(cfg: RateLimitConfig, d: nat, e: nat)
    requires UsableLimits(cfg) && d <= e
    ensures Greedy(cfg, d).passes <= Greedy(cfg, e).passes
  {
    if d < e {
      GreedyGrows(cfg, d, e - 1);
    }
  }

  /** It never serves more than the line of the bucket. */
  lemma {:induction false} GreedyBelowLine(cfg: RateLimitConfig, d: nat)
    requires UsableLimits(cfg)
    ensures Greedy(cfg, d).passes as real + Greedy(cfg, d).left <= cfg.burstCapacity + Gain(cfg, d)
  {
    if d > 0 {
      GreedyBelowLine(cfg, d - 1);
      GainAdds(cfg, d - 1, 1);
    }
  }

  /** Serving calls later than greedily never catches up: calls so far plus tokens stay behind. */
  lemma {:induction false} GreedyKeepsAhead(cfg: RateLimitConfig, d: nat, served: int, tokens: real)
    requires UsableLimits(cfg) && 0.0 <= tokens <= cfg.burstCapacity
    requires served as real + tokens <= Greedy(cfg, d).passes as real + Greedy(cfg, d).left
    ensures served <= Greedy(cfg, d).passes
    ensures served as real + MinReal(cfg.burstCapacity, tokens + cfg.baseRequestsPerSecond) <=
            Greedy(cfg, d + 1).passes as real + Greedy(cfg, d + 1).left
  {
  }

  lemma {:induction false} GreedyStaysAhead(cfg: RateLimitConfig, d: nat, served: int, tokens: real, gap: nat)
    requires UsableLimits(cfg) && 0.0 <= tokens <= cfg.burstCapacity
    requires served as real + tokens <= Greedy(cfg, d).passes as real + Greedy(cfg, d).left
    ensures served as real + MinReal(cfg.burstCapacity, tokens + Gain(cfg, gap)) <=
            Greedy(cfg, d + gap).passes as real + Greedy(cfg, d + gap).left
  {
    hide Greedy, Gain;
    FewSeconds(cfg);
    if gap > 0 {
      GreedyStaysAhead(cfg, d, served, tokens, gap - 1);
      GainGrows(cfg, 0, gap - 1);
      GainAdds(cfg, gap - 1, 1);
      GreedyKeepsAhead(cfg, d + gap - 1, served, MinReal(cfg.burstCapacity, tokens + Gain(cfg, gap - 1)));
    }
  }

  lemma {:induction false} FewSeconds(cfg: RateLimitConfig)
    ensures Gain(cfg, 0) == 0.0 && Gain(cfg, 1) == cfg.baseRequestsPerSecond
  {
  }

  // ---------------------------------------------------------------- the two conditions

  /** What a full bucket serves in d seconds within the window's room. */
  function Capped(cfg: RateLimitConfig, d: nat): (n: int)
    requires UsableLimits(cfg)
    ensures n <= Greedy(cfg, d).passes && n <= WindowRoom(cfg)
    ensures n == Greedy(cfg, d).passes || n == WindowRoom(cfg)
  {
    if Greedy(cfg, d).passes <= WindowRoom(cfg) then Greedy(cfg, d).passes else WindowRoom(cfg)
  }

  /** A serving of d seconds and the pause that renews the keys take at least as long as the rate needs for it. */
  ghost predicate PausesDoNotPay(cfg: RateLimitConfig)
    requires UsableLimits(cfg)
  {
    forall d: nat :: d < cfg.slidingWindowSeconds ==> Capped(cfg, d) as real <= Gain(cfg, d + cfg.eventRetentionSeconds)
  }

  /** The most calls that full buckets can serve in seconds 0, ..., t, pausing for the keys to expire in between. */
  function Best(cfg: RateLimitConfig, t: int): (n: int)
    requires UsableLimits(cfg)
    ensures n >= 0 && (t >= 0 ==> n >= Greedy(cfg, t).passes)
    decreases if t < 0 then 0 else t + 1, 1, 0
  {
    if t < 0 then 0 else MaxInt(Greedy(cfg, t).passes, BestPaused(cfg, t, t - cfg.eventRetentionSeconds))
  }

  /** The same with at least one pause, the last serving taking at most e seconds. */
  function BestPaused(cfg: RateLimitConfig, t: int, e: int): (n: int)
    requires UsableLimits(cfg) && e <= t - cfg.eventRetentionSeconds
    ensures n >= 0
    decreases if t < 0 then 0 else t + 1, 0, e + 1
  {
    if e < 0 then 0
    else MaxInt(BestPaused(cfg, t, e - 1), Best(cfg, t - e - cfg.eventRetentionSeconds) + Greedy(cfg, e).passes)
  }

  lemma {:induction false} BestSplits(cfg: RateLimitConfig, t: int)
    requires UsableLimits(cfg)
    ensures t < 0 ==> Best(cfg, t) == 0
    ensures t >= 0 ==>
              Best(cfg, t) == MaxInt(Greedy(cfg, t).passes, BestPaused(cfg, t, t - cfg.eventRetentionSeconds))
  {
    hide BestPaused, Greedy;
  }

  lemma {:induction false} PausedSplits(cfg: RateLimitConfig, t: int, e: int)
    requires UsableLimits(cfg) && e <= t - cfg.eventRetentionSeconds
    ensures e < 0 ==> BestPaused(cfg, t, e) == 0
    ensures e >= 0 ==>
              BestPaused(cfg, t, e) ==
              MaxInt(BestPaused(cfg, t, e - 1), Best(cfg, t - e - cfg.eventRetentionSeconds) + Greedy(cfg, e).passes)
  {
    hide Best, Greedy;
  }

  lemma {:induction false} BestPausedCovers(cfg: RateLimitConfig, t: int, e: int, d: nat)
    requires UsableLimits(cfg) && d <= e <= t - cfg.eventRetentionSeconds
    ensures Best(cfg, t - d - cfg.eventRetentionSeconds) + Greedy(cfg, d).passes <= BestPaused(cfg, t, e)
    decreases e
  {
    hide Best, BestPaused, Greedy;
    PausedSplits(cfg, t, e);
    if d < e {
      BestPausedCovers(cfg, t, e - 1, d);
    }
  }

  /** Best up to x, a pause and a serving of y seconds fit into t seconds. */
  lemma {:induction false} BestAfterPause(cfg: RateLimitConfig, t: int, x: nat, y: nat)
    requires UsableLimits(cfg) && x + cfg.eventRetentionSeconds + y <= t
    ensures Best(cfg, x) + Greedy(cfg, y).passes <= BestPaused(cfg, t, t - cfg.eventRetentionSeconds) <= Best(cfg, t)
  {
    BestSplits(cfg, t);
    hide Best, BestPaused, Greedy;
    var e := t - cfg.eventRetentionSeconds - x;
    GreedyGrows(cfg, y, e);
    BestPausedCovers(cfg, t, t - cfg.eventRetentionSeconds, e);
  }

  /** The same where x == -1 stands for no pause. */
  lemma {:induction false} BestCovers(cfg: RateLimitConfig, t: nat, x: int, y: nat)
    requires UsableLimits(cfg) && x >= -1 && y <= t && (x >= 0 ==> x + cfg.eventRetentionSeconds + y <= t)
    ensures Best(cfg, x) + Greedy(cfg, y).passes <= Best(cfg, t)
  {
    hide Greedy, Best, BestPaused;
    BestSplits(cfg, x);
    if x >= 0 {
      BestAfterPause(cfg, t, x, y);
    } else {
      GreedyGrows(cfg, y, t);
      BestSplits(cfg, t);
    }
  }

  /** No servings with a pause in between exceed the window's room inside one window length. */
  predicate PausesFitWindow(cfg: RateLimitConfig)
    requires UsableLimits(cfg)
  {
    var t := cfg.slidingWindowSeconds - 1;
    WindowRoom(cfg) == 0 || BestPaused(cfg, t, t - cfg.eventRetentionSeconds) <= WindowRoom(cfg)
  }

  // ---------------------------------------------------------------- one evaluation

  /** How many of the times are at or after t. */
  function Since(past: seq<Time>, t: Time): nat {
    |After(past, t - 1)|
  }

  lemma {:induction false} SinceAppend(past: seq<Time>, d: Decision, now: Time, t: Time)
    requires t <= now
    ensures Since(Extended(past, d, now), t) == Since(past, t) + if d.action == Allow then 1 else 0
  {
    AfterAppend(past, now, t - 1);
  }

  lemma {:induction false} NoneSince(past: seq<Time>, t: Time)
    requires forall i :: 0 <= i < |past| ==> past[i] < t
    ensures Since(past, t) == 0
  {
    AfterNothing(past, |past|, t - 1);
  }

  /** The bucket after an evaluation, and its window seen from a cut that pruning does not reach. */
  lemma {:induction false} CallEffect(r: Record, c: Call, past: seq<Time>)
    requires UsableLimits(c.cfg) && InStep(r, c.cfg, past, c.now) && !Blocked(r, c.now)
    ensures var cfg, next, d := c.cfg, FreshRecord(r, c), FreshDecision(r, c);
            && next.burst.Held? && next.window.Held? && next.burst.value.lastRefill == c.now
            && InStep(next, cfg, Extended(past, d, c.now), c.now)
            && next.burst.value.tokens + (if d.action == Allow then 1.0 else 0.0) <= cfg.burstCapacity
            && (r.burst.Held? && c.now < r.burst.expires ==>
                  next.burst.value.tokens + (if d.action == Allow then 1.0 else 0.0) ==
                  MinReal(cfg.burstCapacity, r.burst.value.tokens + Gain(cfg, c.now - r.burst.value.lastRefill)))
            && (d.action == Allow ==> |next.window.value| <= WindowRoom(cfg))
  {
    hide FreshRecord, FreshDecision, After, WindowRoom;
    FreshEffect(r, c);
    OneCallInStep(r, c, past);
    RefilledInRange(Live(r.burst, c.now), c.cfg, c.now);
    if FreshDecision(r, c).action == Allow {
      FitsInRoom(c.cfg, |FreshRecord(r, c).window.value|);
    }
    if r.burst.Held? && c.now < r.burst.expires {
      LiveRefill(r.burst.value, c.cfg, c.now);
    }
  }

  lemma {:induction false} LiveRefill(b: Burst, cfg: RateLimitConfig, now: Time)
    requires b.lastRefill <= now
    ensures Refilled(Some(b), cfg, now) == MinReal(cfg.burstCapacity, b.tokens + Gain(cfg, now - b.lastRefill))
  {
  }

  /** How a cut that pruning does not reach sees the new window. */
  lemma {:induction false} CallKeeps(r: Record, c: Call, past: seq<Time>, lo: Time)
    requires UsableLimits(c.cfg) && InStep(r, c.cfg, past, c.now) && !Blocked(r, c.now)
    requires c.now - c.cfg.slidingWindowSeconds <= lo < c.now
    ensures var next := FreshRecord(r, c);
            && next.window.Held?
            && 1 <= |After(next.window.value, lo)| <= |next.window.value|
            && (r.burst.Held? && c.now < r.burst.expires ==>
                  |After(next.window.value, lo)| == |After(r.window.value, lo)| + 1)
  {
    hide FreshRecord, FreshDecision, After;
    FreshEffect(r, c);
    KeptIsShorter(FreshRecord(r, c).window.value, lo);
    KeptAfterCall(WindowAt(r, c.now), c.now, c.cfg.slidingWindowSeconds, lo);
  }

  // ---------------------------------------------------------------- the token bound

  /**
   Since the anchor a the keys have lived, and the calls allowed since fit both a full bucket and one
   window; those allowed from first to a were paid for by the time that took.
   */
  predicate Anchored(r: Record, cfg: RateLimitConfig, past: seq<Time>, first: Time, a: Time)
    requires UsableLimits(cfg)
  {
    && r.burst.Held? && r.window.Held?
    && var last := r.burst.value.lastRefill;
    && first <= a <= last < a + cfg.slidingWindowSeconds
    && Since(past, first) as real <= Gain(cfg, a - first) + Since(past, a) as real
    && Since(past, a) as real + r.burst.value.tokens <=
       Greedy(cfg, last - a).passes as real + Greedy(cfg, last - a).left
    && Since(past, a) <= |After(r.window.value, a - 1)|
    && Since(past, a) <= WindowRoom(cfg)
  }

  /** A call that begins a new stretch: nothing was allowed at its time yet. */
  lemma {:induction false} NewAnchor(r: Record, c: Call, past: seq<Time>, first: Time)
    requires UsableLimits(c.cfg) && InStep(r, c.cfg, past, c.now) && !Blocked(r, c.now) && first <= c.now
    requires Since(past, c.now) == 0 && Since(past, first) as real <= Gain(c.cfg, c.now - first)
    ensures Anchored(FreshRecord(r, c), c.cfg, Extended(past, FreshDecision(r, c), c.now), first, c.now)
  {
    hide FreshRecord, FreshDecision, Since, Gain, WindowRoom, After, InStep;
    CallEffect(r, c, past);
    CallKeeps(r, c, past, c.now - 1);
    SinceAppend(past, FreshDecision(r, c), c.now, c.now);
    SinceAppend(past, FreshDecision(r, c), c.now, first);
  }

  /** A call in the same stretch. */
  lemma {:induction false} SameAnchor(r: Record, c: Call, past: seq<Time>, first: Time, a: Time)
    requires UsableLimits(c.cfg) && InStep(r, c.cfg, past, c.now) && !Blocked(r, c.now)
    requires Anchored(r, c.cfg, past, first, a) && c.now < r.burst.expires && c.now < a + c.cfg.slidingWindowSeconds
    ensures Anchored(FreshRecord(r, c), c.cfg, Extended(past, FreshDecision(r, c), c.now), first, a)
  {
    var cfg, last := c.cfg, r.burst.value.lastRefill;
    assert last <= c.now && 0.0 <= r.burst.value.tokens <= cfg.burstCapacity;
    hide FreshRecord, FreshDecision, Since, Gain, WindowRoom, After, InStep, Greedy;
    CallEffect(r, c, past);
    CallKeeps(r, c, past, a - 1);
    SinceAppend(past, FreshDecision(r, c), c.now, a);
    SinceAppend(past, FreshDecision(r, c), c.now, first);
    GreedyStaysAhead(cfg, last - a, Since(past, a), r.burst.value.tokens, c.now - last);
  }

  /** The stretch since the anchor, with the pause or the full window after it, is paid for too. */
  lemma {:induction false} StretchIsPaid(r: Record, cfg: RateLimitConfig, past: seq<Time>, first: Time, a: Time, now: Time)
    requires UsableLimits(cfg) && PausesDoNotPay(cfg) && InStep(r, cfg, past, now) && Anchored(r, cfg, past, first, a)
    requires now >= r.burst.expires || now >= a + cfg.slidingWindowSeconds
    ensures first <= now && Since(past, now) == 0
    ensures Since(past, first) as real <= Gain(cfg, now - first)
  {
    var last := r.burst.value.lastRefill;
    NoneSince(past, now);
    hide Since, Gain, WindowRoom, After, Greedy;
    if now >= r.burst.expires {
      assert Since(past, a) <= Capped(cfg, last - a);
      assert Capped(cfg, last - a) as real <= Gain(cfg, last - a + cfg.eventRetentionSeconds);
      GainAdds(cfg, a - first, last - a + cfg.eventRetentionSeconds);
      GainGrows(cfg, last - first + cfg.eventRetentionSeconds, now - first);
    } else {
      RoomIsGain(cfg);
      GainGrows(cfg, cfg.slidingWindowSeconds, now - a);
      GainAdds(cfg, a - first, now - a);
    }
  }

  lemma {:induction false} RoomIsGain(cfg: RateLimitConfig)
    requires UsableLimits(cfg)
    ensures WindowRoom(cfg) as real <= Gain(cfg, cfg.slidingWindowSeconds)
  {
  }

  /** Either nothing was evaluated at or after first, or there is an anchor. */
  ghost predicate PaidFor(r: Record, cfg: RateLimitConfig, past: seq<Time>, first: Time)
    requires UsableLimits(cfg)
  {
    if r.burst.Held? && r.burst.value.lastRefill >= first then exists a :: Anchored(r, cfg, past, first, a)
    else Since(past, first) == 0
  }

  lemma {:induction false} CallIsPaidFor(r: Record, c: Call, past: seq<Time>, first: Time)
    requires UsableLimits(c.cfg) && PausesDoNotPay(c.cfg) && InStep(r, c.cfg, past, c.now)
    requires PaidFor(r, c.cfg, past, first)
    ensures var e := Evaluate(r, c); PaidFor(e.record, c.cfg, Extended(past, e.decision, c.now), first)
  {
    if !Blocked(r, c.now) {
      var cfg, now := c.cfg, c.now;
      assert r.burst.Absent? || r.burst.value.lastRefill < first ==> forall i :: 0 <= i < |past| ==> past[i] < now || now < first;
      hide FreshRecord, FreshDecision, Anchored, Gain, After, PausesDoNotPay;
      CallEffect(r, c, past);
      if now < first {
        NoneSinceLater(past, FreshDecision(r, c), now, first);
      } else if r.burst.Held? && r.burst.value.lastRefill >= first {
        var a :| Anchored(r, cfg, past, first, a);
        if now < r.burst.expires && now < a + cfg.slidingWindowSeconds {
          SameAnchor(r, c, past, first, a);
        } else {
          StretchIsPaid(r, cfg, past, first, a, now);
          NewAnchor(r, c, past, first);
        }
      } else {
        NoneSince(past, now);
        GainGrows(cfg, 0, now - first);
        NewAnchor(r, c, past, first);
      }
    }
  }

  lemma {:induction false} NoneSinceLater(past: seq<Time>, d: Decision, now: Time, first: Time)
    requires now < first && AllAtMost(past, now)
    ensures Since(Extended(past, d, now), first) == 0
  {
    NoneSince(Extended(past, d, now), first);
  }

  lemma {:induction false} RunIsPaidFor(
    cfg: RateLimitConfig, calls: seq<Call>, records: seq<Record>, decisions: seq<Decision>, n: nat, first: Time)
    requires UsableLimits(cfg) && PausesDoNotPay(cfg) && KeyRun(cfg, calls, records, decisions) && InOrder(calls)
    requires n <= |calls|
    ensures PaidFor(records[n], cfg, AllowedTimes(calls, decisions, n), first)
  {
    hide PausesDoNotPay, Anchored;
    if n > 0 {
      hide PaidFor, Evaluate;
      var c := calls[n - 1];
      RunIsPaidFor(cfg, calls, records, decisions, n - 1, first);
      RunInStep(cfg, calls, records, decisions, n - 1, c.now);
      assert KeyCallAt(cfg, calls, records, decisions, n - 1);
      CallIsPaidFor(records[n - 1], c, AllowedTimes(calls, decisions, n - 1), first);
    }
  }

  lemma {:induction false} AnchoredBelowLine(r: Record, cfg: RateLimitConfig, past: seq<Time>, first: Time, a: Time)
    requires UsableLimits(cfg) && Anchored(r, cfg, past, first, a) && r.burst.value.tokens >= 0.0
    ensures Since(past, first) as real <= TokenLine(cfg, first, r.burst.value.lastRefill)
  {
    hide Since, Gain, After, WindowRoom, Greedy;
    var last := r.burst.value.lastRefill;
    GreedyBelowLine(cfg, last - a);
    GainAdds(cfg, a - first, last - a);
  }

  /** The calls of the first n that are allowed at first, ..., end. */
  lemma {:induction false} BelowLine(
    cfg: RateLimitConfig, calls: seq<Call>, records: seq<Record>, decisions: seq<Decision>, n: nat, first: Time, end: Time)
    requires UsableLimits(cfg) && PausesDoNotPay(cfg) && KeyRun(cfg, calls, records, decisions) && InOrder(calls)
    requires n <= |calls| && first <= end
    ensures CountBetween(AllowedTimes(calls, decisions, n), first - 1, end) as real <= TokenLine(cfg, first, end)
  {
    hide PausesDoNotPay, Gain, Anchored, KeyCallAt, After;
    GainGrows(cfg, 0, end - first);
    if n > 0 {
      var past := AllowedTimes(calls, decisions, n);
      if calls[n - 1].now > end {
        BelowLine(cfg, calls, records, decisions, n - 1, first, end);
        CountAppend(AllowedTimes(calls, decisions, n - 1), calls[n - 1].now, first - 1, end);
      } else {
        RunInStep(cfg, calls, records, decisions, n, end);
        RunIsPaidFor(cfg, calls, records, decisions, n, first);
        CountIsSince(past, first, end);
        var r := records[n];
        if r.burst.Held? && r.burst.value.lastRefill >= first {
          var a :| Anchored(r, cfg, past, first, a);
          AnchoredBelowLine(r, cfg, past, first, a);
          GainGrows(cfg, r.burst.value.lastRefill - first, end - first);
        }
      }
    }
  }

  lemma {:induction false} CountIsSince(past: seq<Time>, first: Time, end: Time)
    requires AllAtMost(past, end)
    ensures CountBetween(past, first - 1, end) == Since(past, first)
  {
    CountIsAfter(past, |past|, first - 1, end);
  }

  /** If no pause pays, at most burst + base * T calls are allowed in any T seconds. */
  lemma {:induction false} TokenBound(cfg: RateLimitConfig)
    requires UsableLimits(cfg) && PausesDoNotPay(cfg)
    ensures TokenBoundHolds(cfg)
  {
    hide PausesDoNotPay, KeyCallAt;
    forall calls, records, decisions, first, end |
      KeyRun(cfg, calls, records, decisions) && InOrder(calls) && first <= end
      ensures AllowedBetween(calls, decisions, |calls|, first, end) as real <= TokenLine(cfg, first, end)
    {
      BelowLine(cfg, calls, records, decisions, |calls|, first, end);
    }
  }

  /** That is so whenever the retention covers the window or the time the bucket takes to refill. */
  lemma {:induction false} LongRetentionDoesNotPay(cfg: RateLimitConfig)
    requires UsableLimits(cfg)
    requires cfg.eventRetentionSeconds >= cfg.slidingWindowSeconds || Gain(cfg, cfg.eventRetentionSeconds) >= cfg.burstCapacity
    ensures PausesDoNotPay(cfg)
  {
    forall d: nat | d < cfg.slidingWindowSeconds
      ensures Capped(cfg, d) as real <= Gain(cfg, d + cfg.eventRetentionSeconds)
    {
      RoomIsGain(cfg);
      GreedyBelowLine(cfg, d);
      hide Gain, WindowRoom, Greedy;
      GainAdds(cfg, d, cfg.eventRetentionSeconds);
      if cfg.eventRetentionSeconds >= cfg.slidingWindowSeconds {
        GainGrows(cfg, cfg.slidingWindowSeconds, d + cfg.eventRetentionSeconds);
      }
    }
  }

  // ---------------------------------------------------------------- the window bound

  /**
   Inside the window length from first, in numbers: the calls allowed before the anchor a took no more than x
   seconds and a pause, with x == -1 when there was no pause and the window still holds them all.
   */
  predicate Stretch(
    cfg: RateLimitConfig, first: Time, a: Time, x: int, last: Time, tokens: real, sinceFirst: nat, sinceA: nat, kept: nat)
    requires UsableLimits(cfg)
  {
    && first <= a <= last && x >= -1
    && (x >= 0 ==> x + cfg.eventRetentionSeconds <= a - first)
    && sinceFirst <= Best(cfg, x) + sinceA
    && 0.0 <= tokens <= cfg.burstCapacity
    && sinceA as real + tokens <= Greedy(cfg, last - a).passes as real + Greedy(cfg, last - a).left
    && (x == -1 ==> sinceFirst <= kept)
    && sinceFirst <= WindowRoom(cfg)
  }

  /** A stretch with a pause before it fits the window's room. */
  lemma {:induction false} PausedFits(cfg: RateLimitConfig, x: nat, y: nat)
    requires UsableLimits(cfg) && PausesFitWindow(cfg) && WindowRoom(cfg) > 0
    requires x + cfg.eventRetentionSeconds + y <= cfg.slidingWindowSeconds - 1
    ensures Best(cfg, x) + Greedy(cfg, y).passes <= WindowRoom(cfg)
  {
    hide Best, BestPaused, Greedy, WindowRoom;
    BestAfterPause(cfg, cfg.slidingWindowSeconds - 1, x, y);
  }

  /** A call in the same stretch, after a refill of the bucket. */
  lemma {:induction false} StretchGoesOn(
    cfg: RateLimitConfig, first: Time, a: Time, x: int, last: Time, tokens: real, sinceFirst: nat, sinceA: nat, kept: nat,
    now: Time, passes: nat, tokens': real, kept': nat)
    requires UsableLimits(cfg) && PausesFitWindow(cfg)
    requires Stretch(cfg, first, a, x, last, tokens, sinceFirst, sinceA, kept)
    requires last <= now < first + cfg.slidingWindowSeconds && passes <= 1 && tokens' >= 0.0
    requires tokens' + passes as real == MinReal(cfg.burstCapacity, tokens + Gain(cfg, now - last))
    requires kept' == kept + 1 && (passes == 1 ==> kept' <= WindowRoom(cfg))
    ensures Stretch(cfg, first, a, x, now, tokens', sinceFirst + passes, sinceA + passes, kept')
  {
    hide Gain, WindowRoom, Greedy, Best, PausesFitWindow;
    GreedyStaysAhead(cfg, last - a, sinceA, tokens, now - last);
    if passes == 1 && x >= 0 {
      PausedFits(cfg, x, now - a);
    }
  }

  /** A call after a pause, or the first of all in the window length. */
  lemma {:induction false} StretchBegins(
    cfg: RateLimitConfig, first: Time, x: int, sinceFirst: nat, now: Time, passes: nat, tokens: real, kept: nat)
    requires UsableLimits(cfg) && PausesFitWindow(cfg)
    requires first <= now < first + cfg.slidingWindowSeconds && passes <= 1
    requires tokens >= 0.0 && tokens + passes as real <= cfg.burstCapacity
    requires sinceFirst <= Best(cfg, x) && sinceFirst <= WindowRoom(cfg)
    requires x >= -1 && (if x >= 0 then x + cfg.eventRetentionSeconds <= now - first else sinceFirst == 0)
    requires kept >= 1 && (passes == 1 ==> WindowRoom(cfg) >= 1)
    ensures Stretch(cfg, first, now, x, now, tokens, sinceFirst + passes, passes, kept)
  {
    assert Greedy(cfg, 0).passes as real + Greedy(cfg, 0).left == cfg.burstCapacity;
    hide Gain, WindowRoom, Greedy, Best, PausesFitWindow;
    if passes == 1 && x >= 0 {
      PausedFits(cfg, x, 0);
    }
  }

  /** The calls of a stretch and of what came before it are among the best for the time they took. */
  lemma {:induction false} StretchIsBest(
    cfg: RateLimitConfig, first: Time, a: Time, x: int, last: Time, tokens: real, sinceFirst: nat, sinceA: nat, kept: nat)
    requires UsableLimits(cfg) && Stretch(cfg, first, a, x, last, tokens, sinceFirst, sinceA, kept)
    ensures sinceFirst <= Best(cfg, last - first)
  {
    hide WindowRoom, Greedy, Best, BestPaused, Gain;
    GreedyKeepsAhead(cfg, last - a, sinceA, tokens);
    BestCovers(cfg, last - first, x, last - a);
  }

  predicate InWindowLength(r: Record, cfg: RateLimitConfig, past: seq<Time>, first: Time, a: Time, x: int)
    requires UsableLimits(cfg)
  {
    && r.burst.Held? && r.window.Held?
    && Stretch(cfg, first, a, x, r.burst.value.lastRefill, r.burst.value.tokens, Since(past, first), Since(past, a),
               |After(r.window.value, first - 1)|)
  }

  lemma {:induction false} CallInStretch(r: Record, c: Call, past: seq<Time>, first: Time, a: Time, x: int)
    requires UsableLimits(c.cfg) && PausesFitWindow(c.cfg) && InStep(r, c.cfg, past, c.now) && !Blocked(r, c.now)
    requires InWindowLength(r, c.cfg, past, first, a, x) && c.now < r.burst.expires
    requires c.now < first + c.cfg.slidingWindowSeconds
    ensures InWindowLength(FreshRecord(r, c), c.cfg, Extended(past, FreshDecision(r, c), c.now), first, a, x)
  {
    var cfg, last, d := c.cfg, r.burst.value.lastRefill, FreshDecision(r, c);
    assert first <= a <= last <= c.now;
    CallEffect(r, c, past);
    var next := FreshRecord(r, c);
    assert next.burst.value.tokens >= 0.0;
    hide FreshRecord, FreshDecision, Since, Gain, WindowRoom, After, InStep, Stretch, PausesFitWindow;
    CallKeeps(r, c, past, first - 1);
    SinceAppend(past, d, c.now, a);
    SinceAppend(past, d, c.now, first);
    StretchGoesOn(cfg, first, a, x, last, r.burst.value.tokens, Since(past, first), Since(past, a),
                  |After(r.window.value, first - 1)|, c.now, if d.action == Allow then 1 else 0,
                  next.burst.value.tokens, |After(next.window.value, first - 1)|);
  }

  lemma {:induction false} CallBeginsStretch(r: Record, c: Call, past: seq<Time>, first: Time, x: int)
    requires UsableLimits(c.cfg) && PausesFitWindow(c.cfg) && InStep(r, c.cfg, past, c.now) && !Blocked(r, c.now)
    requires first <= c.now < first + c.cfg.slidingWindowSeconds && Since(past, c.now) == 0
    requires Since(past, first) <= Best(c.cfg, x) && Since(past, first) <= WindowRoom(c.cfg)
    requires x >= -1 && (if x >= 0 then x + c.cfg.eventRetentionSeconds <= c.now - first else Since(past, first) == 0)
    ensures InWindowLength(FreshRecord(r, c), c.cfg, Extended(past, FreshDecision(r, c), c.now), first, c.now, x)
  {
    var cfg, d := c.cfg, FreshDecision(r, c);
    CallEffect(r, c, past);
    var next := FreshRecord(r, c);
    assert next.burst.value.tokens >= 0.0;
    hide FreshRecord, FreshDecision, Since, Gain, WindowRoom, After, InStep, Stretch, Best, PausesFitWindow;
    CallKeeps(r, c, past, first - 1);
    SinceAppend(past, d, c.now, c.now);
    SinceAppend(past, d, c.now, first);
    StretchBegins(cfg, first, x, Since(past, first), c.now, if d.action == Allow then 1 else 0,
                  next.burst.value.tokens, |After(next.window.value, first - 1)|);
  }

  /** Up to the end of the window length from first. */
  ghost predicate RoomKept(r: Record, cfg: RateLimitConfig, past: seq<Time>, first: Time)
    requires UsableLimits(cfg)
  {
    if r.burst.Held? && r.burst.value.lastRefill >= first then exists a, x :: InWindowLength(r, cfg, past, first, a, x)
    else Since(past, first) == 0
  }

  lemma {:induction false} CallKeepsRoom(r: Record, c: Call, past: seq<Time>, first: Time)
    requires UsableLimits(c.cfg) && PausesFitWindow(c.cfg) && InStep(r, c.cfg, past, c.now)
    requires RoomKept(r, c.cfg, past, first) && c.now < first + c.cfg.slidingWindowSeconds
    ensures var e := Evaluate(r, c); RoomKept(e.record, c.cfg, Extended(past, e.decision, c.now), first)
  {
    if !Blocked(r, c.now) {
      var cfg, now := c.cfg, c.now;
      assert r.burst.Absent? || r.burst.value.lastRefill < first ==> forall i :: 0 <= i < |past| ==> past[i] < now || now < first;
      hide FreshRecord, FreshDecision, Gain, After, PausesFitWindow, WindowRoom, Best, Greedy;
      CallEffect(r, c, past);
      if now < first {
        NoneSinceLater(past, FreshDecision(r, c), now, first);
      } else if r.burst.Held? && r.burst.value.lastRefill >= first {
        var a, x :| InWindowLength(r, cfg, past, first, a, x);
        if now < r.burst.expires {
          CallInStretch(r, c, past, first, a, x);
        } else {
          StretchIsBest(cfg, first, a, x, r.burst.value.lastRefill, r.burst.value.tokens,
                        Since(past, first), Since(past, a), |After(r.window.value, first - 1)|);
          NoneSince(past, now);
          CallBeginsStretch(r, c, past, first, r.burst.value.lastRefill - first);
        }
      } else {
        NoneSince(past, now);
        CallBeginsStretch(r, c, past, first, -1);
      }
    }
  }

  lemma {:induction false} RunKeepsRoom(
    cfg: RateLimitConfig, calls: seq<Call>, records: seq<Record>, decisions: seq<Decision>, n: nat, first: Time)
    requires UsableLimits(cfg) && PausesFitWindow(cfg) && KeyRun(cfg, calls, records, decisions) && InOrder(calls)
    requires n <= |calls| && forall m :: 0 <= m < n ==> calls[m].now < first + cfg.slidingWindowSeconds
    ensures RoomKept(records[n], cfg, AllowedTimes(calls, decisions, n), first)
  {
    hide PausesFitWindow, InWindowLength;
    if n > 0 {
      hide RoomKept, Evaluate;
      var c := calls[n - 1];
      RunKeepsRoom(cfg, calls, records, decisions, n - 1, first);
      RunInStep(cfg, calls, records, decisions, n - 1, c.now);
      assert KeyCallAt(cfg, calls, records, decisions, n - 1);
      CallKeepsRoom(records[n - 1], c, AllowedTimes(calls, decisions, n - 1), first);
    }
  }

  lemma {:induction false} WithinRoom(
    cfg: RateLimitConfig, calls: seq<Call>, records: seq<Record>, decisions: seq<Decision>, n: nat, lo: Time)
    requires UsableLimits(cfg) && PausesFitWindow(cfg) && KeyRun(cfg, calls, records, decisions) && InOrder(calls)
    requires n <= |calls|
    ensures InWindow(AllowedTimes(calls, decisions, n), cfg, lo) <= WindowRoom(cfg)
  {
    hide PausesFitWindow, KeyCallAt, After, WindowRoom, Best, Greedy;
    if n > 0 {
      var end := lo + cfg.slidingWindowSeconds;
      if calls[n - 1].now > end {
        WithinRoom(cfg, calls, records, decisions, n - 1, lo);
        CountAppend(AllowedTimes(calls, decisions, n - 1), calls[n - 1].now, lo, end);
      } else {
        RunInStep(cfg, calls, records, decisions, n, end);
        RunKeepsRoom(cfg, calls, records, decisions, n, lo + 1);
        CountIsSince(AllowedTimes(calls, decisions, n), lo + 1, end);
      }
    }
  }

  /** If pauses fit the window, at most base * window calls are allowed in any window length. */
  lemma {:induction false} WindowBound(cfg: RateLimitConfig)
    requires UsableLimits(cfg) && PausesFitWindow(cfg)
    ensures WindowBoundHolds(cfg)
  {
    hide PausesFitWindow, KeyCallAt;
    forall calls, records, decisions, lo | KeyRun(cfg, calls, records, decisions) && InOrder(calls)
      ensures InWindow(AllowedTimes(calls, decisions, |calls|), cfg, lo) as real <= Gain(cfg, cfg.slidingWindowSeconds)
    {
      WithinRoom(cfg, calls, records, decisions, |calls|, lo);
      RoomIsGain(cfg);
    }
  }

  /** Retention as long as the window leaves no room for a pause. */
  lemma {:induction false} LongRetentionFits(cfg: RateLimitConfig)
    requires UsableLimits(cfg) && cfg.eventRetentionSeconds >= cfg.slidingWindowSeconds
    ensures PausesFitWindow(cfg)
  {
  }

  /** Where a bucket refills within the retention, pausing serves no more than the line of one bucket. */
  lemma {:induction false} BestBelowLine(cfg: RateLimitConfig, t: nat)
    requires UsableLimits(cfg) && cfg.burstCapacity <= Gain(cfg, cfg.eventRetentionSeconds)
    ensures Best(cfg, t) as real <= cfg.burstCapacity + Gain(cfg, t)
    decreases t, 1, 0
  {
    hide Greedy, Gain, Best, BestPaused;
    GreedyBelowLine(cfg, t);
    PausedBelowLine(cfg, t, t - cfg.eventRetentionSeconds);
    BestSplits(cfg, t);
    GainAdds(cfg, t - cfg.eventRetentionSeconds, cfg.eventRetentionSeconds);
    GainGrows(cfg, 0, t);
  }

  lemma {:induction false} PausedBelowLine(cfg: RateLimitConfig, t: nat, e: int)
    requires UsableLimits(cfg) && cfg.burstCapacity <= Gain(cfg, cfg.eventRetentionSeconds) && e <= t - cfg.eventRetentionSeconds
    ensures BestPaused(cfg, t, e) as real <= MaxReal(0.0, 2.0 * cfg.burstCapacity + Gain(cfg, t - cfg.eventRetentionSeconds))
    decreases t, 0, e + 1
  {
    hide Greedy, Gain, Best, BestPaused;
    PausedSplits(cfg, t, e);
    if e >= 0 {
      PausedBelowLine(cfg, t, e - 1);
      var x := t - e - cfg.eventRetentionSeconds;
      BestBelowLine(cfg, x);
      GreedyBelowLine(cfg, e);
      GainAdds(cfg, x, e);
    }
  }

  /** A second bucket that a pause costs more than it gives fits too. */
  lemma {:induction false} CostlyPausesFit(cfg: RateLimitConfig)
    requires UsableLimits(cfg) && 2.0 * cfg.burstCapacity <= Gain(cfg, cfg.eventRetentionSeconds + 1)
    ensures PausesFitWindow(cfg)
  {
    var r, s := cfg.eventRetentionSeconds, cfg.slidingWindowSeconds;
    if r >= s {
      LongRetentionFits(cfg);
    } else {
      FewSeconds(cfg);
      GainAdds(cfg, r, 1);
      GainGrows(cfg, 1, r);
      PausedBelowLine(cfg, s - 1, s - 1 - r);
      GainAdds(cfg, s - 1 - r, r + 1);
      FitsInRoom(cfg, BestPaused(cfg, s - 1, s - 1 - r));
    }
  }
}

/**
 A plain account of the calls of one key: the times of the calls since its keys last expired, the tokens of the
 bucket and the smoothed rate, kept from the calls and their answers alone, without keys, pruning or expiry. Every
 uninterrupted run of a key answers as this account says.
 */
module RedisMeter {
  import opened Options
  import opened Histories
  import opened RateLimitTypes
  import opened RedisLimiter
  import opened RedisBounds

  datatype Meter = Meter(times: seq<Time>, tokens: real, average: real, last: Time)

  /** The account at a call, before it is answered. */
  function AtCall(cfg: RateLimitConfig, before: Option<Meter>, now: Time): Meter
    requires cfg.slidingWindowSeconds > 0
  {
    var size := cfg.slidingWindowSeconds;
    match before
    case Some(m) =>
      if now < m.last + cfg.eventRetentionSeconds then
        var times := m.times + [now];
        var refilled := m.tokens + cfg.baseRequestsPerSecond * (now - m.last) as real;
        Meter(times, if refilled > cfg.burstCapacity then cfg.burstCapacity else refilled,
              0.7 * m.average + 0.3 * (CountBetween(times, now - size, now) as real / size as real), now)
      else Meter([now], cfg.burstCapacity, 1.0 / size as real, now)
    case None => Meter([now], cfg.burstCapacity, 1.0 / size as real, now)
  }

  /** The account after the first n calls: calls in a cooldown leave it, an allowed call takes a token. */
  function MeterOf(cfg: RateLimitConfig, calls: seq<Call>, decisions: seq<Decision>, n: nat): Option<Meter>
    requires cfg.slidingWindowSeconds > 0 && n <= |calls| == |decisions|
  {
    if n == 0 then None
    else
      var before := MeterOf(cfg, calls, decisions, n - 1);
      if decisions[n - 1].reason == CooldownActive then before
      else
        var m := AtCall(cfg, before, calls[n - 1].now);
        Some(m.(tokens := if decisions[n - 1].action == Allow then m.tokens - 1.0 else m.tokens))
  }

  /** The three keys say what the account says, the window after pruning. */
  predicate Mirrors(r: Record, cfg: RateLimitConfig, m: Option<Meter>, clock: Time) {
    match m
    case None => r.window.Absent? && r.burst.Absent? && r.stats.Absent?
    case Some(m) =>
      && m.last <= clock && AllAtMost(m.times, m.last) && 0.0 <= m.tokens <= cfg.burstCapacity
      && r.window == Held(After(m.times, m.last - cfg.slidingWindowSeconds), m.last + cfg.eventRetentionSeconds)
      && r.burst == Held(Burst(m.tokens, m.last), m.last + cfg.eventRetentionSeconds)
      && r.stats == Held(m.average, m.last + cfg.eventRetentionSeconds)
  }

  lemma {:induction false} LaterMirrors(r: Record, cfg: RateLimitConfig, m: Option<Meter>, clock: Time, now: Time)
    requires Mirrors(r, cfg, m, clock) && clock <= now
    ensures Mirrors(r, cfg, m, now)
  {
  }

  /** Pruning twice is pruning once. */
  lemma {:induction false} PrunedWindow(times: seq<Time>, last: Time, now: Time, size: Time)
    requires last <= now && size > 0
    ensures After(After(times, last - size), now - size) + [now] == After(times + [now], now - size)
  {
    AfterTwice(times, last - size, now - size);
    AfterAppend(times, now, now - size);
  }

  /** What the call sees in its window is what the account counts. */
  lemma {:induction false} SeesCount(r: Record, cfg: RateLimitConfig, m: Option<Meter>, now: Time)
    requires UsableLimits(cfg) && Mirrors(r, cfg, m, now)
    ensures var a, size := AtCall(cfg, m, now), cfg.slidingWindowSeconds;
            && AllAtMost(a.times, now)
            && After(WindowAt(r, now), now - size) + [now] == After(a.times, now - size)
            && |After(a.times, now - size)| == CountBetween(a.times, now - size, now)
  {
    var size := cfg.slidingWindowSeconds;
    var a := AtCall(cfg, m, now);
    PrunedWindow([], now, now, size);
    assert After([], now - size) == [] && [] + [now] == [now];
    hide After;
    if m.Some? && now < m.value.last + cfg.eventRetentionSeconds {
      PrunedWindow(m.value.times, m.value.last, now, size);
    }
    CountedTimes(a.times, now, size);
  }

  lemma {:induction false} CountedTimes(times: seq<Time>, now: Time, size: Time)
    requires AllAtMost(times, now)
    ensures |After(times, now - size)| == CountBetween(times, now - size, now)
  {
    CountIsAfter(times, |times|, now - size, now);
  }

  lemma {:induction false} SeesAccount(r: Record, c: Call, m: Option<Meter>)
    requires UsableLimits(c.cfg) && Mirrors(r, c.cfg, m, c.now)
    ensures var a, size := AtCall(c.cfg, m, c.now), c.cfg.slidingWindowSeconds;
            && ViewAt(r, c).count == CountBetween(a.times, c.now - size, c.now) >= 1
            && Refilled(Live(r.burst, c.now), c.cfg, c.now) == a.tokens && 0.0 <= a.tokens <= c.cfg.burstCapacity
            && AverageRate(ViewAt(r, c), c.cfg) == a.average
            && ViewAt(r, c).burst == Live(r.burst, c.now)
  {
    var size := c.cfg.slidingWindowSeconds;
    SeesCount(r, c.cfg, m, c.now);
    var a := AtCall(c.cfg, m, c.now);
    hide After;
    assert ViewAt(r, c).count == CountBetween(a.times, c.now - size, c.now);
    if m.Some? && c.now < m.value.last + c.cfg.eventRetentionSeconds {
      assert c.cfg.baseRequestsPerSecond * (c.now - m.value.last) as real >= 0.0;
    } else {
      OneCall(c.now, size);
    }
  }

  lemma {:induction false} OneCall(now: Time, size: Time)
    requires size > 0
    ensures CountBetween([now], now - size, now) == 1
  {
    assert CountUpTo([now], 0, now - size, now) == 0;
  }

  /** One evaluation keeps the keys in line with the account. */
  lemma {:induction false} CallMirrors(r: Record, c: Call, m: Option<Meter>)
    requires UsableLimits(c.cfg) && Mirrors(r, c.cfg, m, c.now)
    ensures var a, d := AtCall(c.cfg, m, c.now), FreshDecision(r, c);
            Mirrors(FreshRecord(r, c), c.cfg, Some(a.(tokens := if d.action == Allow then a.tokens - 1.0 else a.tokens)), c.now)
  {
    SeesCount(r, c.cfg, m, c.now);
    SeesAccount(r, c, m);
    FreshEffect(r, c);
    StatsEffect(r, c);
    hide FreshRecord, FreshDecision, Refilled, AverageRate, After, CountBetween;
  }

  lemma {:induction false} RunMirrors(
    cfg: RateLimitConfig, calls: seq<Call>, records: seq<Record>, decisions: seq<Decision>, n: nat, clock: Time)
    requires UsableLimits(cfg) && KeyRun(cfg, calls, records, decisions) && InOrder(calls)
    requires n <= |calls| && forall m :: 0 <= m < n ==> calls[m].now <= clock
    ensures Mirrors(records[n], cfg, MeterOf(cfg, calls, decisions, n), clock)
  {
    if n > 0 {
      hide FreshRecord, FreshDecision, AtCall, Mirrors;
      var c := calls[n - 1];
      RunMirrors(cfg, calls, records, decisions, n - 1, c.now);
      assert KeyCallAt(cfg, calls, records, decisions, n - 1);
      NotCooldown(records[n - 1], c);
      CallMirrors(records[n - 1], c, MeterOf(cfg, calls, decisions, n - 1));
      LaterMirrors(records[n], cfg, MeterOf(cfg, calls, decisions, n), c.now, clock);
    } else {
      assert records[0] == NOTHING;
    }
  }

  lemma {:induction false} NotCooldown(r: Record, c: Call)
    requires UsableLimits(c.cfg)
    ensures FreshDecision(r, c).reason != CooldownActive
    ensures Blocked(r, c.now) ==> Cooldown(r, c).reason == CooldownActive
  {
  }

  /** Every branch of the answer, spiking calls included. */
  lemma {:induction false} VerdictByCase(v: View, c: Call, abuse: nat)
    requires UsableLimits(c.cfg)
    ensures var d, over, empty := Verdict(v, c, abuse), OverWindow(v, c.cfg), OverBurst(v, c.cfg, c.now);
            var spikes, soft := Spiking(v, c.cfg), c.cfg.softThrottleMilliseconds;
            && d.policyName == c.cfg.name && d.user == c.user && d.identifier == c.identifier
            && d.windowCount == v.count && d.averageRps == AverageRate(v, c.cfg) && d.observedRps == ObservedRate(v, c.cfg)
            && d.abuseCount == abuse
            && (!spikes && !over && !empty ==>
                  d.action == Allow && d.reason == NoReason && d.throttleDelay == 0 && d.retryAfter == 0)
            && (!spikes && over != empty ==>
                  && d.action == Throttle && d.reason == AdaptiveThrottle
                  && d.throttleDelay == soft && d.retryAfter == RetryAfterDelay(soft))
            && (spikes || (over && empty) ==>
                  if abuse >= c.cfg.repeatedAbuseThreshold then
                    d.action == Block && d.reason == RepeatedAbuse && d.throttleDelay == 0 && d.retryAfter == c.cfg.blockSeconds
                  else
                    && d.action == Throttle && d.reason == (if spikes then TrafficSpike else BurstExceeded)
                    && d.throttleDelay == soft * (abuse + 1) && d.retryAfter == RetryAfterDelay(d.throttleDelay))
  {
    hide Spiking, OverWindow, OverBurst, ObservedRate, AverageRate, RetryAfterDelay;
  }

  /**
   A call spikes exactly when there is a stored average, and its window holds more than twice what the rate gives it,
   more than 21 times what the average gives it, and at least one call more than the rate.
   */
  lemma {:induction false} SpikesExactly(v: View, cfg: RateLimitConfig)
    requires UsableLimits(cfg)
    ensures var n, s := v.count as real, cfg.slidingWindowSeconds as real;
            Spiking(v, cfg) <==>
            && v.average.Some?
            && n > 2.0 * (cfg.baseRequestsPerSecond * s) && n > 21.0 * (v.average.value * s)
            && n >= cfg.baseRequestsPerSecond + 1.0
  {
    var n, s, observed, base := v.count as real, cfg.slidingWindowSeconds as real, ObservedRate(v, cfg), cfg.baseRequestsPerSecond;
    assert observed * s == n && observed >= 0.0;
    OverBoth(observed, base * 2.0, s);
    assert (base * 2.0) * s == 2.0 * (base * s);
    if v.average.Some? {
      OverAverage(observed, v.average.value);
      OverBoth(observed, 21.0 * v.average.value, s);
      assert (21.0 * v.average.value) * s == 21.0 * (v.average.value * s);
    }
    hide ObservedRate;
  }

  lemma {:induction false} OverAverage(x: real, previous: real)
    ensures x > (previous * 0.7 + x * 0.3) * 3.0 <==> x > 21.0 * previous
  {
  }

  lemma {:induction false} OverWindowByCount(v: View, cfg: RateLimitConfig)
    requires UsableLimits(cfg)
    ensures ObservedRate(v, cfg) * cfg.slidingWindowSeconds as real == v.count as real
    ensures OverWindow(v, cfg) <==> v.count as real > cfg.baseRequestsPerSecond * cfg.slidingWindowSeconds as real
  {
    var s := cfg.slidingWindowSeconds as real;
    assert ObservedRate(v, cfg) * s == v.count as real;
    OverBoth(ObservedRate(v, cfg), cfg.baseRequestsPerSecond, s);
  }

  /** The answer of an evaluation, from its count, tokens and average. */
  lemma {:induction false} FreshAnswer(r: Record, c: Call, count: nat, tokens: real, average: real)
    requires UsableLimits(c.cfg) && !Spiking(ViewAt(r, c), c.cfg)
    requires ViewAt(r, c).count == count && Refilled(ViewAt(r, c).burst, c.cfg, c.now) == tokens
    requires AverageRate(ViewAt(r, c), c.cfg) == average
    ensures AnswersBy(c, FreshDecision(r, c), count, tokens, average)
  {
    hide Spiking, OverWindow, ObservedRate, AverageRate, RetryAfterDelay, Refilled, ViewAt, AfterEscalation, Verdict;
    var v, d := ViewAt(r, c), FreshDecision(r, c);
    var soft := c.cfg.softThrottleMilliseconds;
    VerdictByCase(v, c, AbuseCountOf(AfterEscalation(r, c), c.now));
    OverWindowByCount(v, c.cfg);
    WholeSeconds(soft);
    DelayIsPositive(soft, d.abuseCount);
    WholeSeconds(soft * (d.abuseCount + 1));
  }

  lemma {:induction false} DelayIsPositive(soft: int, count: int)
    requires soft > 0 && count >= 0
    ensures soft * (count + 1) > 0
  {
  }

  lemma {:induction false} OverBoth(x: real, y: real, s: real)
    requires s > 0.0
    ensures x > y <==> x * s > y * s
  {
  }

  lemma {:induction false} WholeSeconds(delay: int)
    requires delay >= 0
    ensures delay > 0 ==> RetryAfterDelay(delay) == (delay + 999) / 1000
  {
    var n := (delay + 999) / 1000;
    assert delay as real / 1000.0 <= n as real;
    assert delay > 0 ==> n as real < delay as real / 1000.0 + 1.0;
  }

  /**
   The answer to a call that no cooldown refuses: allowed with room in the window and a token, throttled for the
   soft delay when one of them is missing, and an escalating refusal when both are.
   */
  predicate AnswersBy(c: Call, d: Decision, count: nat, tokens: real, average: real) {
    var over := count as real > c.cfg.baseRequestsPerSecond * c.cfg.slidingWindowSeconds as real;
    var empty := tokens < 1.0;
    var soft := c.cfg.softThrottleMilliseconds;
    && d.policyName == c.cfg.name && d.user == c.user && d.identifier == c.identifier
    && d.windowCount == count && d.averageRps == average
    && d.observedRps * c.cfg.slidingWindowSeconds as real == count as real
    && (!over && !empty ==> d.action == Allow && d.reason == NoReason && d.throttleDelay == 0 && d.retryAfter == 0)
    && (over != empty ==>
          && d.action == Throttle && d.reason == AdaptiveThrottle
          && d.throttleDelay == soft && d.retryAfter == (soft + 999) / 1000)
    && (over && empty ==>
          || (d.action == Block && d.reason == RepeatedAbuse && d.throttleDelay == 0 && d.retryAfter == c.cfg.blockSeconds)
          || (d.action == Throttle && d.reason == BurstExceeded && d.throttleDelay == soft * (d.abuseCount + 1)
              && d.retryAfter == (d.throttleDelay + 999) / 1000))
  }

  /** Every call of an ordered run of a key that no cooldown refuses is answered as the plain account says. */
  lemma {:induction false} AnswersAreMetered(
    cfg: RateLimitConfig, calls: seq<Call>, records: seq<Record>, decisions: seq<Decision>, k: nat)
    requires UsableLimits(cfg) && KeyRun(cfg, calls, records, decisions) && InOrder(calls)
    requires k < |calls| && decisions[k].reason != CooldownActive
    ensures var a := AtCall(cfg, MeterOf(cfg, calls, decisions, k), calls[k].now);
            AnswersBy(calls[k], decisions[k],
                      CountBetween(a.times, calls[k].now - cfg.slidingWindowSeconds, calls[k].now), a.tokens, a.average)
  {
    hide FreshDecision, FreshRecord, AtCall, Mirrors, CountBetween;
    var c, m := calls[k], MeterOf(cfg, calls, decisions, k);
    RunMirrors(cfg, calls, records, decisions, k, c.now);
    assert KeyCallAt(cfg, calls, records, decisions, k);
    NotCooldown(records[k], c);
    RunKeepsUp(cfg, calls, records, decisions, k);
    OneCallKeepsUp(records[k], c);
    SeesAccount(records[k], c, m);
    hide AnswersBy, Spiking;
    var a := AtCall(cfg, m, c.now);
    FreshAnswer(records[k], c, CountBetween(a.times, c.now - cfg.slidingWindowSeconds, c.now), a.tokens, a.average);
  }
}

/**
 The limiter that keeps its state in Redis: a sliding window, a token bucket, an exponentially
 weighted average and an abuse counter per scope and user, each a key of its own with an expiry.
 Times are whole seconds, as Unix() and the TTL commands give them, and numbers are exact reals.
 */
module RedisLimiter {
  import opened Options
  import opened Histories
  import opened RateLimitTypes

  /** A key with an expiry. It is there as long as now < expires. */
  datatype Expiring<T> = Absent | Held(value: T, expires: Time)

  function Live<T>(e: Expiring<T>, now: Time): Option<T> {
    if e.Held? && now < e.expires then Some(e.value) else None
  }

  datatype Burst = Burst(tokens: real, lastRefill: Time)

  /** The five keys of one scope and user. The window holds the scores of its distinct members. */
  datatype Record = Record(
    block: Expiring<()>,
    window: Expiring<seq<Time>>,
    burst: Expiring<Burst>,
    stats: Expiring<real>,
    abuse: Expiring<nat>)

  const NOTHING := Record(Absent, Absent, Absent, Absent, Absent)

  datatype Call = Call(user: string, identifier: string, cfg: RateLimitConfig, now: Time)

  function KeyOf(c: Call): string {
    (if c.cfg.name == "" then "default" else c.cfg.name) + ":" + c.user
  }

  /** What every resolved configuration satisfies (see ConfigResolution). */
  predicate UsableLimits(cfg: RateLimitConfig) {
    && cfg.baseRequestsPerSecond > 0.0
    && cfg.burstCapacity >= 1.0
    && cfg.slidingWindowSeconds > 0
    && cfg.softThrottleMilliseconds > 0
    && cfg.blockSeconds > 0
    && cfg.repeatedAbuseThreshold > 0
    && cfg.eventRetentionSeconds > 0
  }

  // ---------------------------------------------------------------- the first transaction

  function WindowAt(r: Record, at: Time): seq<Time> {
    match Live(r.window, at)
    case Some(times) => times
    case None => []
  }

  /** Prune the window, add this request and refresh the expiry. */
  function Visited(r: Record, cfg: RateLimitConfig, at: Time, now: Time): Record {
    r.(window := Held(After(WindowAt(r, at), now - cfg.slidingWindowSeconds) + [now], at + cfg.eventRetentionSeconds))
  }

  /** What the first transaction returns. */
  datatype View = View(count: nat, burst: Option<Burst>, average: Option<real>, abuse: Option<nat>)

  /** The window count is that of the list just written, whatever its expiry. */
  function ViewOf(visited: Record, at: Time): View
    requires visited.window.Held?
  {
    View(|visited.window.value|, Live(visited.burst, at), Live(visited.stats, at), Live(visited.abuse, at))
  }

  // ---------------------------------------------------------------- the decision

  function ObservedRate(v: View, cfg: RateLimitConfig): real
    requires cfg.slidingWindowSeconds > 0
  {
    v.count as real / cfg.slidingWindowSeconds as real
  }

  /** The bucket at time now: what was left plus the refill, or a full one when the key is gone. */
  function Refilled(burst: Option<Burst>, cfg: RateLimitConfig, now: Time): real {
    var tokens := if burst.Some? then burst.value.tokens else cfg.burstCapacity;
    var lastRefill := if burst.Some? then burst.value.lastRefill else now;
    MinReal(cfg.burstCapacity, tokens + MaxReal(0.0, (now - lastRefill) as real) * cfg.baseRequestsPerSecond)
  }

  function AverageRate(v: View, cfg: RateLimitConfig): real
    requires cfg.slidingWindowSeconds > 0
  {
    var observed := ObservedRate(v, cfg);
    if v.average.Some? then v.average.value * 0.7 + observed * 0.3 else observed
  }

  predicate Spiking(v: View, cfg: RateLimitConfig)
    requires cfg.slidingWindowSeconds > 0
  {
    && ObservedRate(v, cfg) > MaxReal(cfg.baseRequestsPerSecond * 2.0, AverageRate(v, cfg) * 3.0)
    && v.count > Ceil(cfg.baseRequestsPerSecond)
  }

  predicate OverWindow(v: View, cfg: RateLimitConfig)
    requires cfg.slidingWindowSeconds > 0
  {
    ObservedRate(v, cfg) > cfg.baseRequestsPerSecond
  }

  predicate OverBurst(v: View, cfg: RateLimitConfig, now: Time) {
    Refilled(v.burst, cfg, now) < 1.0
  }

  predicate Abusive(v: View, cfg: RateLimitConfig, now: Time)
    requires cfg.slidingWindowSeconds > 0
  {
    Spiking(v, cfg) || (OverWindow(v, cfg) && OverBurst(v, cfg, now))
  }

  predicate Passes(v: View, cfg: RateLimitConfig, now: Time)
    requires cfg.slidingWindowSeconds > 0
  {
    !Spiking(v, cfg) && !OverWindow(v, cfg) && !OverBurst(v, cfg, now)
  }

  /** Tokens the second transaction writes back. */
  function TokensLeft(v: View, cfg: RateLimitConfig, now: Time): real
    requires cfg.slidingWindowSeconds > 0
  {
    if Passes(v, cfg, now) then Refilled(v.burst, cfg, now) - 1.0 else Refilled(v.burst, cfg, now)
  }

  /** incrementAbuse: INCR keeps the old expiry, EXPIRE then sets a new one. */
  function Escalated(r: Record, cfg: RateLimitConfig, at: Time): Record {
    var count := match Live(r.abuse, at) case Some(n) => n + 1 case None => 1;
    r.(abuse := Held(count, at + cfg.blockSeconds * 2))
  }

  function RetryAfterDelay(delay: int): int {
    MaxInt(1, Ceil(delay as real / 1000.0))
  }

  /** The answer, given the abuse counter that applies: incremented when the call is abusive, as read otherwise. */
  function Verdict(v: View, c: Call, abuseCount: nat): Decision
    requires c.cfg.slidingWindowSeconds > 0
  {
    var d := Allowing(c.cfg, c.user, c.identifier).(
      windowCount := v.count, observedRps := ObservedRate(v, c.cfg), averageRps := AverageRate(v, c.cfg),
      abuseCount := abuseCount);
    if Abusive(v, c.cfg, c.now) then
      if abuseCount >= c.cfg.repeatedAbuseThreshold then
        d.(action := Block, reason := RepeatedAbuse, retryAfter := c.cfg.blockSeconds)
      else
        var delay := c.cfg.softThrottleMilliseconds * (abuseCount + 1);
        d.(action := Throttle, reason := if Spiking(v, c.cfg) then TrafficSpike else BurstExceeded,
           throttleDelay := delay, retryAfter := RetryAfterDelay(delay))
    else if OverWindow(v, c.cfg) || OverBurst(v, c.cfg, c.now) then
      var delay := c.cfg.softThrottleMilliseconds;
      d.(action := Throttle, reason := AdaptiveThrottle, throttleDelay := delay, retryAfter := RetryAfterDelay(delay))
    else d
  }

  /** The second transaction. */
  function Stored(r: Record, cfg: RateLimitConfig, at: Time, now: Time, tokens: real, average: real): Record {
    r.(burst := Held(Burst(tokens, now), at + cfg.eventRetentionSeconds),
       stats := Held(average, at + cfg.eventRetentionSeconds))
  }

  // ---------------------------------------------------------------- one uninterrupted evaluation

  datatype Evaluation = Evaluation(record: Record, decision: Decision)

  predicate Blocked(r: Record, now: Time) {
    Live(r.block, now).Some?
  }

  function Cooldown(r: Record, c: Call): Decision
    requires Blocked(r, c.now)
  {
    Allowing(c.cfg, c.user, c.identifier).(action := Block, reason := CooldownActive, retryAfter := r.block.expires - c.now)
  }

  function ViewAt(r: Record, c: Call): View {
    ViewOf(Visited(r, c.cfg, c.now, c.now), c.now)
  }

  /** The record after the escalation step, if the call takes it. */
  function AfterEscalation(r: Record, c: Call): Record
    requires c.cfg.slidingWindowSeconds > 0
  {
    var visited := Visited(r, c.cfg, c.now, c.now);
    if Abusive(ViewAt(r, c), c.cfg, c.now) then Escalated(visited, c.cfg, c.now) else visited
  }

  function AbuseCountOf(escalated: Record, now: Time): nat {
    match Live(escalated.abuse, now)
    case Some(n) => n
    case None => 0
  }

  function FreshDecision(r: Record, c: Call): Decision
    requires c.cfg.slidingWindowSeconds > 0 && c.cfg.blockSeconds > 0
  {
    Verdict(ViewAt(r, c), c, AbuseCountOf(AfterEscalation(r, c), c.now))
  }

  function FreshRecord(r: Record, c: Call): Record
    requires c.cfg.slidingWindowSeconds > 0 && c.cfg.blockSeconds > 0
  {
    var v := ViewAt(r, c);
    var escalated := AfterEscalation(r, c);
    var blocked :=
      if FreshDecision(r, c).action == Block then escalated.(block := Held((), c.now + c.cfg.blockSeconds))
      else escalated;
    Stored(blocked, c.cfg, c.now, c.now, TokensLeft(v, c.cfg, c.now), AverageRate(v, c.cfg))
  }

  function Evaluate(r: Record, c: Call): Evaluation
    requires c.cfg.slidingWindowSeconds > 0 && c.cfg.blockSeconds > 0
  {
    if Blocked(r, c.now) then Evaluation(r, Cooldown(r, c))
    else Evaluation(FreshRecord(r, c), FreshDecision(r, c))
  }

  function RecordOf(store: map<string, Record>, key: string): Record {
    if key in store then store[key] else NOTHING
  }

  class RedisRateLimiter {
    var store: map<string, Record>

    constructor ()
      ensures store == map[]
    {
      store := map[];
    }

    /** The numbers of one decision, from what the first transaction returned. */
    method Estimate(v: View, cfg: RateLimitConfig, now: Time)
      returns (observed: real, tokens: real, average: real, spiking: bool, overWindow: bool, overBurst: bool)
      requires cfg.slidingWindowSeconds > 0
      ensures observed == ObservedRate(v, cfg) && tokens == Refilled(v.burst, cfg, now) && average == AverageRate(v, cfg)
      ensures spiking == Spiking(v, cfg) && overWindow == OverWindow(v, cfg) && overBurst == OverBurst(v, cfg, now)
    {
      observed := v.count as real / cfg.slidingWindowSeconds as real;
      tokens := cfg.burstCapacity;
      var lastRefill := now;
      if v.burst.Some? {
        tokens, lastRefill := v.burst.value.tokens, v.burst.value.lastRefill;
      }
      var elapsed := MaxReal(0.0, (now - lastRefill) as real);
      tokens := MinReal(cfg.burstCapacity, tokens + elapsed * cfg.baseRequestsPerSecond);
      average := observed;
      if v.average.Some? {
        average := v.average.value * 0.7 + observed * 0.3;
      }
      var threshold := MaxReal(cfg.baseRequestsPerSecond * 2.0, average * 3.0);
      spiking := observed > threshold && v.count > Ceil(cfg.baseRequestsPerSecond);
      overWindow := observed > cfg.baseRequestsPerSecond;
      overBurst := tokens < 1.0;
    }

    /** INCR then EXPIRE on the abuse key of a record. */
    method IncrementAbuse(r: Record, cfg: RateLimitConfig, now: Time) returns (next: Record, count: nat)
      requires cfg.blockSeconds > 0
      ensures next == Escalated(r, cfg, now) && count == AbuseCountOf(next, now) >= 1
    {
      var before := Live(r.abuse, now);
      count := if before.Some? then before.value + 1 else 1;
      next := r.(abuse := Held(count, now + cfg.blockSeconds * 2));
    }

    /** The switch over the estimates, with the abuse and block keys it writes. */
    method Judge(c: Call, v: View, visited: Record)
      returns (decision: Decision, next: Record, tokens: real, average: real)
      requires c.cfg.slidingWindowSeconds > 0 && c.cfg.blockSeconds > 0 && v.abuse == Live(visited.abuse, c.now)
      ensures var escalated := if Abusive(v, c.cfg, c.now) then Escalated(visited, c.cfg, c.now) else visited;
              && decision == Verdict(v, c, AbuseCountOf(escalated, c.now))
              && next == if decision.action == Block then escalated.(block := Held((), c.now + c.cfg.blockSeconds))
                         else escalated
      ensures tokens == TokensLeft(v, c.cfg, c.now) && average == AverageRate(v, c.cfg)
    {
      var cfg := c.cfg;
      next := visited;
      hide ObservedRate, Refilled, AverageRate, Spiking, OverWindow, OverBurst, Ceil, Escalated;
      var observed, spiking, overWindow, overBurst;
      observed, tokens, average, spiking, overWindow, overBurst := Estimate(v, cfg, c.now);
      decision := Allowing(cfg, c.user, c.identifier).(windowCount := v.count, observedRps := observed, averageRps := average);
      if v.abuse.Some? {
        decision := decision.(abuseCount := v.abuse.value);
      }
      if spiking || (overWindow && overBurst) {
        var count;
        next, count := IncrementAbuse(next, cfg, c.now);
        decision := decision.(abuseCount := count);
        if count >= cfg.repeatedAbuseThreshold {
          decision := decision.(action := Block, reason := RepeatedAbuse, retryAfter := cfg.blockSeconds);
          next := next.(block := Held((), c.now + cfg.blockSeconds));
        } else {
          var delay := cfg.softThrottleMilliseconds * (count + 1);
          decision := decision.(action := Throttle, reason := if spiking then TrafficSpike else BurstExceeded,
                                throttleDelay := delay, retryAfter := MaxInt(1, Ceil(delay as real / 1000.0)));
        }
      } else if overWindow || overBurst {
        var delay := cfg.softThrottleMilliseconds;
        decision := decision.(action := Throttle, reason := AdaptiveThrottle, throttleDelay := delay,
                              retryAfter := MaxInt(1, Ceil(delay as real / 1000.0)));
      } else {
        tokens := tokens - 1.0;
      }
    }

    /** Config.Validate and the defaults make the window and block lengths positive. */
    method EvaluateRedis(c: Call) returns (decision: Decision)
      requires c.cfg.slidingWindowSeconds > 0 && c.cfg.blockSeconds > 0
      modifies this
      ensures var e := Evaluate(RecordOf(old(store), KeyOf(c)), c);
              decision == e.decision && RecordOf(store, KeyOf(c)) == e.record
      ensures forall key :: key != KeyOf(c) ==> RecordOf(store, key) == RecordOf(old(store), key)
    {
      var cfg := c.cfg;
      decision := Allowing(cfg, c.user, c.identifier);
      var scope := cfg.name;
      if scope == "" {
        scope := "default";
      }
      var key := scope + ":" + c.user;
      assert key == KeyOf(c);
      var r := if key in store then store[key] else NOTHING;
      if r.block.Held? && c.now < r.block.expires {
        decision := decision.(action := Block, reason := CooldownActive, retryAfter := r.block.expires - c.now);
        return;
      }

      var kept := After(WindowAt(r, c.now), c.now - cfg.slidingWindowSeconds) + [c.now];
      r := r.(window := Held(kept, c.now + cfg.eventRetentionSeconds));
      var v := View(|kept|, Live(r.burst, c.now), Live(r.stats, c.now), Live(r.abuse, c.now));
      hide After, WindowAt, KeyOf, Verdict, Escalated, TokensLeft, AverageRate, Abusive;

      var tokens, average;
      decision, r, tokens, average := Judge(c, v, r);
      r := r.(burst := Held(Burst(tokens, c.now), c.now + cfg.eventRetentionSeconds),
              stats := Held(average, c.now + cfg.eventRetentionSeconds));
      store := store[key := r];
    }
  }
}

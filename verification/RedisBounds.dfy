/**
 Uninterrupted evaluations of one key, over every run: the traffic_spike branch is dead, the keys agree
 with the calls allowed so far, and the two bounds on admission are stated. A run has one configuration;
 calls may be anything.
 */
module RedisBounds {
  import opened Options
  import opened Histories
  import opened RateLimitTypes
  import opened RedisLimiter

  /** Call k takes records[k] to records[k + 1] and answers decisions[k]. */
  ghost predicate KeyCallAt(cfg: RateLimitConfig, calls: seq<Call>, records: seq<Record>, decisions: seq<Decision>, k: nat)
    requires UsableLimits(cfg)
    requires |decisions| == |calls| && |records| == |calls| + 1 && k < |calls|
  {
    && calls[k].cfg == cfg
    && records[k + 1] == Evaluate(records[k], calls[k]).record
    && decisions[k] == Evaluate(records[k], calls[k]).decision
  }

  /** The calls of one key from the start of its life in the store, one after the other. */
  ghost predicate KeyRun(cfg: RateLimitConfig, calls: seq<Call>, records: seq<Record>, decisions: seq<Decision>)
    requires UsableLimits(cfg)
  {
    && |decisions| == |calls| && |records| == |calls| + 1 && records[0] == NOTHING
    && forall k :: 0 <= k < |calls| ==> KeyCallAt(cfg, calls, records, decisions, k)
  }

  ghost predicate InOrder(calls: seq<Call>) {
    forall i, j :: 0 <= i < j < |calls| ==> calls[i].now <= calls[j].now
  }

  /** Times of the allowed calls among the first n. */
  function AllowedTimes(calls: seq<Call>, decisions: seq<Decision>, n: nat): seq<Time>
    requires n <= |calls| == |decisions|
  {
    if n == 0 then []
    else
      var before := AllowedTimes(calls, decisions, n - 1);
      if decisions[n - 1].action == Allow then before + [calls[n - 1].now] else before
  }

  /** How many calls are allowed at the instants first, ..., last. */
  function AllowedBetween(calls: seq<Call>, decisions: seq<Decision>, n: nat, first: Time, last: Time): nat
    requires n <= |calls| == |decisions|
  {
    CountBetween(AllowedTimes(calls, decisions, n), first - 1, last)
  }

  /** How many of the times fall in the window length after lo, lo itself excluded. */
  function InWindow(times: seq<Time>, cfg: RateLimitConfig, lo: Time): nat {
    CountBetween(times, lo, lo + cfg.slidingWindowSeconds)
  }

  /** What the bucket gains in some seconds, and also what the window allows in that time. */
  function Gain(cfg: RateLimitConfig, seconds: Time): real {
    cfg.baseRequestsPerSecond * seconds as real
  }

  lemma {:induction false} GainAdds(cfg: RateLimitConfig, x: Time, y: Time)
    ensures Gain(cfg, x + y) == Gain(cfg, x) + Gain(cfg, y)
  {
  }

  lemma {:induction false} GainGrows(cfg: RateLimitConfig, x: Time, y: Time)
    requires UsableLimits(cfg) && x <= y
    ensures Gain(cfg, x) <= Gain(cfg, y)
    ensures x >= 0 ==> Gain(cfg, x) >= 0.0
  {
  }

  // ---------------------------------------------------------------- one evaluation

  lemma {:induction false} AfterIsShorter(h: seq<Time>, n: nat, cut: Time)
    requires n <= |h|
    ensures |AfterUpTo(h, n, cut)| <= n
  {
    if n > 0 {
      AfterIsShorter(h, n - 1, cut);
    }
  }

  /** What an evaluation that is not cut short by a cooldown leaves in the window and the bucket. */
  lemma {:induction false} FreshEffect(r: Record, c: Call)
    requires UsableLimits(c.cfg)
    ensures var cfg := c.cfg;
            var next, d := FreshRecord(r, c), FreshDecision(r, c);
            var kept := After(WindowAt(r, c.now), c.now - cfg.slidingWindowSeconds) + [c.now];
            var tokens := Refilled(Live(r.burst, c.now), cfg, c.now);
            && next.window == Held(kept, c.now + cfg.eventRetentionSeconds)
            && next.burst == Held(Burst(if d.action == Allow then tokens - 1.0 else tokens, c.now),
                                  c.now + cfg.eventRetentionSeconds)
            && (d.action == Allow ==>
                  tokens >= 1.0 && |kept| as real <= Gain(cfg, cfg.slidingWindowSeconds))
  {
    var cfg, v := c.cfg, ViewAt(r, c);
    assert ObservedRate(v, cfg) * cfg.slidingWindowSeconds as real == v.count as real;
    if ObservedRate(v, cfg) <= cfg.baseRequestsPerSecond {
      assert v.count as real <= cfg.baseRequestsPerSecond * cfg.slidingWindowSeconds as real;
    }
  }

  // ---------------------------------------------------------------- traffic_spike is dead

  function WindowLength(r: Record): nat {
    if r.window.Held? then |r.window.value| else 0
  }

  /** The stored average is at least three tenths of the rate last observed. */
  predicate AverageKeepsUp(r: Record, cfg: RateLimitConfig) {
    r.stats.Held? ==>
      r.stats.value * cfg.slidingWindowSeconds as real >= 0.3 * MaxInt(1, WindowLength(r)) as real
  }

  lemma {:induction false} CancelSeconds(x: real, y: real, s: real)
    requires s > 0.0 && x * s >= y * s
    ensures x >= y
  {
  }

  /** n is the new window length, m the old one, previous the stored average over s seconds. */
  lemma {:induction false} AverageArithmetic(n: real, m: real, s: real, previous: real, observed: real)
    requires s > 0.0 && m >= 1.0 && 1.0 <= n <= m + 1.0 && previous * s >= 0.3 * m && observed * s == n
    ensures var average := previous * 0.7 + observed * 0.3;
            average * s >= 0.3 * n && average * 3.0 >= observed
  {
    var average := previous * 0.7 + observed * 0.3;
    assert average * s == 0.7 * (previous * s) + 0.3 * (observed * s);
    assert (average * 3.0) * s == 3.0 * (average * s);
    CancelSeconds(average * 3.0, observed, s);
  }

  lemma {:induction false} ViewKeepsUp(v: View, cfg: RateLimitConfig, m: nat)
    requires UsableLimits(cfg) && 1 <= v.count <= m + 1 && m >= 1
    requires v.average.Some? ==> v.average.value * cfg.slidingWindowSeconds as real >= 0.3 * m as real
    ensures AverageRate(v, cfg) * cfg.slidingWindowSeconds as real >= 0.3 * v.count as real
    ensures !Spiking(v, cfg)
  {
    var s := cfg.slidingWindowSeconds as real;
    var observed := ObservedRate(v, cfg);
    assert observed * s == v.count as real;
    if v.average.Some? {
      AverageArithmetic(v.count as real, m as real, s, v.average.value, observed);
    }
    assert AverageRate(v, cfg) * 3.0 >= observed;
  }

  /** What an evaluation leaves in the statistics key, and how long its window is. */
  lemma {:induction false} StatsEffect(r: Record, c: Call)
    requires UsableLimits(c.cfg)
    ensures var v, next := ViewAt(r, c), FreshRecord(r, c);
            && next.stats == Held(AverageRate(v, c.cfg), c.now + c.cfg.eventRetentionSeconds)
            && WindowLength(next) == v.count
            && 1 <= v.count <= WindowLength(r) + 1
            && v.average == Live(r.stats, c.now)
  {
    var before := WindowAt(r, c.now);
    AfterIsShorter(before, |before|, c.now - c.cfg.slidingWindowSeconds);
  }

  lemma {:induction false} OneCallKeepsUp(r: Record, c: Call)
    requires UsableLimits(c.cfg) && AverageKeepsUp(r, c.cfg)
    ensures !Spiking(ViewAt(r, c), c.cfg)
    ensures AverageKeepsUp(FreshRecord(r, c), c.cfg)
  {
    hide ViewAt, FreshRecord, AverageRate, Spiking;
    StatsEffect(r, c);
    ViewKeepsUp(ViewAt(r, c), c.cfg, MaxInt(1, WindowLength(r)));
  }

  lemma {:induction false} RunKeepsUp(
    cfg: RateLimitConfig, calls: seq<Call>, records: seq<Record>, decisions: seq<Decision>, n: nat)
    requires UsableLimits(cfg) && KeyRun(cfg, calls, records, decisions) && n <= |calls|
    ensures AverageKeepsUp(records[n], cfg)
  {
    if n > 0 {
      RunKeepsUp(cfg, calls, records, decisions, n - 1);
      assert KeyCallAt(cfg, calls, records, decisions, n - 1);
      OneCallKeepsUp(records[n - 1], calls[n - 1]);
    }
  }

  /**
   No uninterrupted evaluation is ever answered with traffic_spike, whatever the clock, the expiries
   and the cooldowns do: the window grows by at most one per evaluation, so the observed rate cannot
   outrun three times an average that already holds three tenths of it.
   */
  lemma {:induction false} TrafficSpikeIsDead(
    cfg: RateLimitConfig, calls: seq<Call>, records: seq<Record>, decisions: seq<Decision>, k: nat)
    requires UsableLimits(cfg) && KeyRun(cfg, calls, records, decisions) && k < |calls|
    ensures decisions[k].reason != TrafficSpike
  {
    RunKeepsUp(cfg, calls, records, decisions, k);
    assert KeyCallAt(cfg, calls, records, decisions, k);
    OneCallKeepsUp(records[k], calls[k]);
  }

  // ---------------------------------------------------------------- what the keys say about the past

  /**
   The window and the bucket are written together, so they live and expire together; the last write is
   not after the clock, no allowed call is later than it, and the tokens stay in range.
   */
  predicate InStep(r: Record, cfg: RateLimitConfig, past: seq<Time>, clock: Time) {
    if r.burst.Absent? then r.window.Absent? && past == []
    else
      var last := r.burst.value.lastRefill;
      && r.window.Held?
      && last <= clock && r.burst.expires == r.window.expires == last + cfg.eventRetentionSeconds
      && 0.0 <= r.burst.value.tokens <= cfg.burstCapacity
      && AllAtMost(past, last)
  }

  function Extended(past: seq<Time>, d: Decision, now: Time): seq<Time> {
    if d.action == Allow then past + [now] else past
  }

  lemma {:induction false} RefilledInRange(b: Option<Burst>, cfg: RateLimitConfig, now: Time)
    requires UsableLimits(cfg) && (b.Some? ==> 0.0 <= b.value.tokens <= cfg.burstCapacity)
    ensures 0.0 <= Refilled(b, cfg, now) <= cfg.burstCapacity
  {
    if b.Some? {
      assert MaxReal(0.0, (now - b.value.lastRefill) as real) * cfg.baseRequestsPerSecond >= 0.0;
    }
  }

  lemma {:induction false} OneCallInStep(r: Record, c: Call, past: seq<Time>)
    requires UsableLimits(c.cfg) && InStep(r, c.cfg, past, c.now)
    ensures var e := Evaluate(r, c); InStep(e.record, c.cfg, Extended(past, e.decision, c.now), c.now)
  {
    hide FreshRecord, FreshDecision, Refilled, After;
    FreshEffect(r, c);
    RefilledInRange(Live(r.burst, c.now), c.cfg, c.now);
  }

  lemma {:induction false} RunInStep(
    cfg: RateLimitConfig, calls: seq<Call>, records: seq<Record>, decisions: seq<Decision>, n: nat, clock: Time)
    requires UsableLimits(cfg) && KeyRun(cfg, calls, records, decisions) && InOrder(calls)
    requires n <= |calls| && forall m :: 0 <= m < n ==> calls[m].now <= clock
    ensures InStep(records[n], cfg, AllowedTimes(calls, decisions, n), clock)
  {
    if n > 0 {
      var c := calls[n - 1];
      RunInStep(cfg, calls, records, decisions, n - 1, c.now);
      assert KeyCallAt(cfg, calls, records, decisions, n - 1);
      OneCallInStep(records[n - 1], c, AllowedTimes(calls, decisions, n - 1));
    }
  }

  // ---------------------------------------------------------------- windows and lines

  /** The bound of a bucket that holds burst and gains base a second, over an interval of end - first seconds. */
  function TokenLine(cfg: RateLimitConfig, first: Time, end: Time): real {
    cfg.burstCapacity + Gain(cfg, end - first)
  }

  /** The whole number of calls that one window length can allow. */
  function WindowRoom(cfg: RateLimitConfig): (room: nat)
    requires UsableLimits(cfg)
    ensures room as real <= Gain(cfg, cfg.slidingWindowSeconds) < room as real + 1.0
  {
    GainGrows(cfg, 0, cfg.slidingWindowSeconds);
    Gain(cfg, cfg.slidingWindowSeconds).Floor
  }

  lemma {:induction false} FitsInRoom(cfg: RateLimitConfig, n: int)
    requires UsableLimits(cfg) && n as real <= Gain(cfg, cfg.slidingWindowSeconds)
    ensures n <= WindowRoom(cfg)
  {
  }

  lemma {:induction false} KeptIsShorter(window: seq<Time>, lo: Time)
    ensures |After(window, lo)| <= |window|
  {
    AfterIsShorter(window, |window|, lo);
  }

  lemma {:induction false} KeptAfterCall(window: seq<Time>, now: Time, size: Time, lo: Time)
    requires now - size <= lo
    ensures |After(After(window, now - size) + [now], lo)| == |After(window, lo)| + if now > lo then 1 else 0
  {
    AfterTwice(window, now - size, lo);
    AfterAppend(After(window, now - size), now, lo);
  }

  /** Every run of the configuration allows at most burst + base * T calls in any T seconds. */
  ghost predicate TokenBoundHolds(cfg: RateLimitConfig)
    requires UsableLimits(cfg)
  {
    forall calls, records, decisions, first, end ::
      KeyRun(cfg, calls, records, decisions) && InOrder(calls) && first <= end ==>
        AllowedBetween(calls, decisions, |calls|, first, end) as real <= TokenLine(cfg, first, end)
  }

  /** Every run of the configuration allows at most base * window calls in any window length, open at its start. */
  ghost predicate WindowBoundHolds(cfg: RateLimitConfig)
    requires UsableLimits(cfg)
  {
    forall calls, records, decisions, lo ::
      KeyRun(cfg, calls, records, decisions) && InOrder(calls) ==>
        InWindow(AllowedTimes(calls, decisions, |calls|), cfg, lo) as real <=
        Gain(cfg, cfg.slidingWindowSeconds)
  }
}

/**
 The limiter used when no Redis address is configured: a fixed window per key with a cooldown, and a
 bounded list of the decisions that were not Allow. Proved to admit exactly what the plain fixed
 window of benchmark_test.go admits.
 */
module LocalLimiter {
  import opened Options
  import opened BoundedLists
  import opened Histories
  import opened RateLimitTypes
  import opened BenchmarkLimiters

  const SECOND: Time := 1_000_000_000
  const MINUTE: Time := 60_000_000_000
  const MAX_EVENTS: nat := 1000

  /** A bucket; None is Go's zero time. */
  datatype Bucket = Bucket(windowStart: Option<Time>, count: nat, blockedTill: Option<Time>)

  const NO_BUCKET := Bucket(None, 0, None)

  datatype Event = Event(time: Time, decision: Decision)

  datatype LimiterState = LimiterState(local: map<string, Bucket>, events: seq<Event>)

  /** One call: what the caller passes, the time read on entry, and the later reading used for Retry-After. */
  datatype Call = Call(user: string, identifier: string, cfg: RateLimitConfig, now: Time, later: Time)

  function KeyOf(c: Call): string {
    c.cfg.name + ":" + c.user
  }

  function WindowOf(cfg: RateLimitConfig): (w: Time)
    ensures w > 0
  {
    var seconds := MaxInt(cfg.windowSeconds, cfg.slidingWindowSeconds);
    if seconds * SECOND <= 0 then MINUTE else seconds * SECOND
  }

  /** Duration.Seconds. */
  function Seconds(d: Time): real {
    d as real / SECOND as real
  }

  function LimitOf(cfg: RateLimitConfig): (limit: int)
    ensures limit >= 1
  {
    if cfg.requests > 0 then cfg.requests
    else MaxInt(1, Ceil(cfg.baseRequestsPerSecond * Seconds(WindowOf(cfg))))
  }

  function BucketOf(local: map<string, Bucket>, key: string): Bucket {
    if key in local then local[key] else NO_BUCKET
  }

  function RollBucket(b: Bucket, window: Time, now: Time): Bucket {
    if b.windowStart.None? || now - b.windowStart.value >= window then Bucket(Some(now), 0, None) else b
  }

  predicate InCooldown(b: Bucket, now: Time) {
    b.blockedTill.Some? && now < b.blockedTill.value
  }

  /** Whole seconds from the later clock reading to the deadline, at least one. */
  function SecondsUntil(deadline: Time, later: Time): int {
    MaxInt(1, Ceil(Seconds(deadline - later)))
  }

  function NextBucket(b: Bucket, c: Call): Bucket {
    var r := RollBucket(b, WindowOf(c.cfg), c.now);
    if InCooldown(r, c.now) then r
    else if r.count >= LimitOf(c.cfg) then r.(blockedTill := Some(c.now + MaxInt(1, c.cfg.blockSeconds) * SECOND))
    else r.(count := r.count + 1)
  }

  function Decide(b: Bucket, c: Call): Decision {
    var r := RollBucket(b, WindowOf(c.cfg), c.now);
    var d := Allowing(c.cfg, c.user, c.identifier).(windowCount := r.count);
    if InCooldown(r, c.now) then
      d.(action := Block, reason := CooldownActive, abuseCount := r.count,
         retryAfter := SecondsUntil(r.blockedTill.value, c.later))
    else if r.count >= LimitOf(c.cfg) then
      d.(action := Block, reason := WindowExceeded, abuseCount := r.count,
         retryAfter := SecondsUntil(r.windowStart.value + WindowOf(c.cfg), c.later))
    else d
  }

  function EventsOf(d: Decision, now: Time): seq<Event> {
    if d.action == Allow then [] else [Event(now, d)]
  }

  function Evaluated(s: LimiterState, c: Call): LimiterState {
    var b := BucketOf(s.local, KeyOf(c));
    LimiterState(s.local[KeyOf(c) := NextBucket(b, c)],
                 LastOf(s.events + EventsOf(Decide(b, c), c.now), MAX_EVENTS))
  }

  class RateLimiter {
    var local: map<string, Bucket>
    var events: seq<Event>

    ghost function Model(): LimiterState
      reads this
    {
      LimiterState(local, events)
    }

    constructor ()
      ensures Model() == LimiterState(map[], [])
    {
      local, events := map[], [];
    }

    /** The tail of evaluateLocal: append and trim. */
    method AppendEvent(e: Event)
      modifies this`events
      ensures events == LastOf(old(events) + [e], MAX_EVENTS)
    {
      events := events + [e];
      if |events| > MAX_EVENTS {
        events := events[|events| - MAX_EVENTS..];
      }
    }

    method EvaluateLocal(c: Call) returns (decision: Decision)
      requires |events| <= MAX_EVENTS
      modifies this
      ensures decision == Decide(BucketOf(old(local), KeyOf(c)), c)
      ensures Model() == Evaluated(old(Model()), c)
      ensures |events| <= MAX_EVENTS
    {
      decision := Allowing(c.cfg, c.user, c.identifier);
      var key := c.cfg.name + ":" + c.user;
      var window := MaxInt(c.cfg.windowSeconds, c.cfg.slidingWindowSeconds) * SECOND;
      if window <= 0 {
        window := MINUTE;
      }
      var limit := c.cfg.requests;
      if limit <= 0 {
        limit := MaxInt(1, Ceil(c.cfg.baseRequestsPerSecond * Seconds(window)));
      }
      assert window == WindowOf(c.cfg) && limit == LimitOf(c.cfg) && key == KeyOf(c);
      hide WindowOf, LimitOf, SecondsUntil, Seconds, KeyOf, LastOf;
      ghost var before := BucketOf(local, key);
      var bucket := if key in local then local[key] else NO_BUCKET;
      if bucket.windowStart.None? || c.now - bucket.windowStart.value >= window {
        bucket := Bucket(Some(c.now), 0, None);
      }
      assert bucket == RollBucket(before, window, c.now);
      hide RollBucket;
      decision := decision.(windowCount := bucket.count);
      if bucket.blockedTill.Some? && c.now < bucket.blockedTill.value {
        decision := decision.(action := Block, reason := CooldownActive,
                              retryAfter := SecondsUntil(bucket.blockedTill.value, c.later));
      } else if bucket.count >= limit {
        decision := decision.(action := Block, reason := WindowExceeded,
                              retryAfter := SecondsUntil(bucket.windowStart.value + window, c.later));
        bucket := bucket.(blockedTill := Some(c.now + MaxInt(1, c.cfg.blockSeconds) * SECOND));
      } else {
        bucket := bucket.(count := bucket.count + 1);
      }
      local := local[key := bucket];
      if decision.action != Allow {
        decision := decision.(abuseCount := bucket.count);
        AppendEvent(Event(c.now, decision));
      }
      assert bucket == NextBucket(before, c) && decision == Decide(before, c);
    }

    /** The newest events, at most limit of them. */
    method TrafficSpikes(limit: nat) returns (out: seq<Event>)
      ensures out == LastOf(events, limit)
    {
      if |events| > limit {
        out := events[|events| - limit..];
      } else {
        out := events;
      }
    }
  }

  // ---------------------------------------------------------------- runs

  /** Call k takes states[k] to states[k + 1] and answers decisions[k]. */
  ghost predicate LocalCallAt(calls: seq<Call>, states: seq<LimiterState>, decisions: seq<Decision>, k: nat)
    requires |decisions| == |calls| && |states| == |calls| + 1 && k < |calls|
  {
    && decisions[k] == Decide(BucketOf(states[k].local, KeyOf(calls[k])), calls[k])
    && states[k + 1] == Evaluated(states[k], calls[k])
  }

  /** A run of a fresh limiter. The clock may do anything. */
  ghost predicate LocalRun(calls: seq<Call>, states: seq<LimiterState>, decisions: seq<Decision>) {
    && |decisions| == |calls| && |states| == |calls| + 1 && states[0] == LimiterState(map[], [])
    && forall k :: 0 <= k < |calls| ==> LocalCallAt(calls, states, decisions, k)
  }

  /** Every call of the key uses the same limit and window. */
  predicate FixedLimits(calls: seq<Call>, key: string, limit: int, window: Time) {
    forall k :: 0 <= k < |calls| && KeyOf(calls[k]) == key ==>
      LimitOf(calls[k].cfg) == limit && WindowOf(calls[k].cfg) == window
  }

  /** The same calls as the plain fixed window sees them. */
  function HitsOf(calls: seq<Call>): (hits: seq<Hit>)
    ensures |hits| == |calls|
    ensures forall k :: 0 <= k < |hits| ==> hits[k] == Hit(KeyOf(calls[k]), calls[k].now)
  {
    seq(|calls|, k requires 0 <= k < |calls| => Hit(KeyOf(calls[k]), calls[k].now))
  }

  /** The bucket is the plain window plus a cooldown that can only be set once the window is full. */
  predicate Refines(b: Bucket, s: FixedState, limit: int) {
    && b.windowStart == s.start
    && b.count == s.count <= limit
    && (b.blockedTill.Some? ==> b.count == limit)
  }

  lemma {:induction false} OneCallRefines(b: Bucket, s: FixedState, c: Call)
    requires Refines(b, s, LimitOf(c.cfg))
    ensures Refines(NextBucket(b, c), NextFixed(s, LimitOf(c.cfg), WindowOf(c.cfg), c.now), LimitOf(c.cfg))
    ensures Decide(b, c).action == Allow <==> FixedAllows(s, LimitOf(c.cfg), WindowOf(c.cfg), c.now)
  {
  }

  lemma {:induction false} RunRefines(
    calls: seq<Call>, states: seq<LimiterState>, decisions: seq<Decision>,
    plain: seq<map<string, FixedState>>, oks: seq<bool>, key: string, limit: int, window: Time, n: nat)
    requires LocalRun(calls, states, decisions) && FixedLimits(calls, key, limit, window) && limit >= 1
    requires FixedRun(limit, window, HitsOf(calls), plain, oks) && n <= |calls|
    ensures Refines(BucketOf(states[n].local, key), LookUp(plain[n], key), limit)
  {
    if n > 0 {
      RunRefines(calls, states, decisions, plain, oks, key, limit, window, n - 1);
      assert LocalCallAt(calls, states, decisions, n - 1);
      assert FixedCallAt(limit, window, HitsOf(calls), plain, oks, n - 1);
      if KeyOf(calls[n - 1]) == key {
        OneCallRefines(BucketOf(states[n - 1].local, key), LookUp(plain[n - 1], key), calls[n - 1]);
      }
    }
  }

  /**
   The local limiter refines the plain fixed window: with one limit and window per key, and whatever
   the clock does, a call of the key is allowed exactly when the plain window allows it. The cooldown
   changes only the reason and the Retry-After of calls that are refused anyway.
   */
  lemma {:induction false} LocalRefinesFixedWindow(
    calls: seq<Call>, states: seq<LimiterState>, decisions: seq<Decision>,
    plain: seq<map<string, FixedState>>, oks: seq<bool>, key: string, limit: int, window: Time, k: nat)
    requires LocalRun(calls, states, decisions) && FixedLimits(calls, key, limit, window)
    requires FixedRun(limit, window, HitsOf(calls), plain, oks) && k < |calls| && KeyOf(calls[k]) == key
    ensures decisions[k].action == Allow <==> oks[k]
  {
    RunRefines(calls, states, decisions, plain, oks, key, limit, window, k);
    assert LocalCallAt(calls, states, decisions, k);
    assert FixedCallAt(limit, window, HitsOf(calls), plain, oks, k);
    OneCallRefines(BucketOf(states[k].local, key), LookUp(plain[k], key), calls[k]);
  }

  /** Every list of calls is a run of the plain fixed window. */
  lemma {:induction false} FixedRunExists(limit: int, window: Time, hits: seq<Hit>, n: nat)
    returns (states: seq<map<string, FixedState>>, oks: seq<bool>)
    requires n <= |hits|
    ensures FixedRun(limit, window, hits[..n], states, oks)
  {
    if n == 0 {
      states, oks := [map[]], [];
    } else {
      var before, answers := FixedRunExists(limit, window, hits, n - 1);
      var h := hits[n - 1];
      var s := LookUp(before[n - 1], h.key);
      states := before + [before[n - 1][h.key := NextFixed(s, limit, window, h.now)]];
      oks := answers + [FixedAllows(s, limit, window, h.now)];
      forall k | 0 <= k < n ensures FixedCallAt(limit, window, hits[..n], states, oks, k) {
        if k < n - 1 {
          assert FixedCallAt(limit, window, hits[..n - 1], before, answers, k);
        }
      }
    }
  }

  function Answers(decisions: seq<Decision>): (oks: seq<bool>)
    ensures |oks| == |decisions|
    ensures forall k :: 0 <= k < |oks| ==> oks[k] == (decisions[k].action == Allow)
  {
    seq(|decisions|, k requires 0 <= k < |decisions| => decisions[k].action == Allow)
  }

  lemma {:induction false} SameAnswersSameAdmissions(hits: seq<Hit>, oks: seq<bool>, oks': seq<bool>, n: nat, key: string)
    requires n <= |hits| == |oks| == |oks'|
    requires forall k :: 0 <= k < n && hits[k].key == key ==> oks[k] == oks'[k]
    ensures Admitted(hits, oks, n, key) == Admitted(hits, oks', n, key)
  {
    if n > 0 {
      SameAnswersSameAdmissions(hits, oks, oks', n - 1, key);
    }
  }

  /** With times in order, at most 2 * limit - 1 calls of a key are allowed in any half-open window length. */
  lemma {:induction false} LocalIntervalBound(
    calls: seq<Call>, states: seq<LimiterState>, decisions: seq<Decision>, key: string, limit: int, window: Time, a: Time)
    requires LocalRun(calls, states, decisions) && FixedLimits(calls, key, limit, window)
    requires limit >= 1 && window >= 1 && InOrder(HitsOf(calls))
    ensures CountBetween(Admitted(HitsOf(calls), Answers(decisions), |calls|, key), a - 1, a + window - 1) <=
            IntervalMax(limit, window)
  {
    var hits := HitsOf(calls);
    var plain, oks := FixedRunExists(limit, window, hits, |hits|);
    assert hits[..|hits|] == hits;
    forall k | 0 <= k < |calls| && hits[k].key == key ensures Answers(decisions)[k] == oks[k] {
      LocalRefinesFixedWindow(calls, states, decisions, plain, oks, key, limit, window, k);
    }
    SameAnswersSameAdmissions(hits, Answers(decisions), oks, |calls|, key);
    FixedWindowIntervalBound(limit, window, hits, plain, oks, key, a);
  }

  /** Every list of calls is a run of the local limiter. */
  lemma {:induction false} LocalRunExists(calls: seq<Call>, n: nat)
    returns (states: seq<LimiterState>, decisions: seq<Decision>)
    requires n <= |calls|
    ensures LocalRun(calls[..n], states, decisions)
  {
    hide Evaluated, Decide, KeyOf;
    if n == 0 {
      states, decisions := [LimiterState(map[], [])], [];
    } else {
      var before, answers := LocalRunExists(calls, n - 1);
      var c := calls[n - 1];
      states := before + [Evaluated(before[n - 1], c)];
      decisions := answers + [Decide(BucketOf(before[n - 1].local, KeyOf(c)), c)];
      forall k | 0 <= k < n ensures LocalCallAt(calls[..n], states, decisions, k) {
        if k < n - 1 {
          assert LocalCallAt(calls[..n - 1], before, answers, k);
        }
      }
    }
  }

  /** The calls of one user under one configuration at the times of the hits. */
  function CallsAt(cfg: RateLimitConfig, user: string, hits: seq<Hit>): (calls: seq<Call>)
    ensures |calls| == |hits|
    ensures forall k :: 0 <= k < |calls| ==> calls[k] == Call(user, "", cfg, hits[k].now, hits[k].now)
  {
    seq(|hits|, k requires 0 <= k < |hits| => Call(user, "", cfg, hits[k].now, hits[k].now))
  }

  /** For every configuration and user some ordered run of the local limiter reaches its interval bound. */
  lemma {:induction false} LocalIntervalBoundIsTight(cfg: RateLimitConfig, user: string)
    returns (calls: seq<Call>, states: seq<LimiterState>, decisions: seq<Decision>)
    ensures LocalRun(calls, states, decisions) && InOrder(HitsOf(calls))
    ensures forall k :: 0 <= k < |calls| ==> calls[k].cfg == cfg && calls[k].user == user
    ensures var limit, window, a := LimitOf(cfg), WindowOf(cfg), WindowOf(cfg) - 1;
            CountBetween(Admitted(HitsOf(calls), Answers(decisions), |calls|, cfg.name + ":" + user), a - 1, a + window - 1) ==
            IntervalMax(limit, window) == 2 * limit - 1
  {
    var limit, window, key := LimitOf(cfg), WindowOf(cfg), cfg.name + ":" + user;
    var hits, plain, oks := IntervalBoundIsTight(limit, window, key);
    calls := CallsAt(cfg, user, hits);
    assert HitsOf(calls) == hits;
    states, decisions := LocalRunExists(calls, |calls|);
    assert calls[..|calls|] == calls;
    assert window > 1;
    hide WindowOf, LimitOf, LocalRun, FixedRun;
    forall k | 0 <= k < |calls| ensures Answers(decisions)[k] == oks[k] {
      LocalRefinesFixedWindow(calls, states, decisions, plain, oks, key, limit, window, k);
    }
    SameAnswersSameAdmissions(hits, Answers(decisions), oks, |calls|, key);
  }

  // ---------------------------------------------------------------- the cooldown

  /**
   The end of the cooldown a key is in after the first n calls, from the answers alone: the last
   window_exceeded answer starts one, and the call that opens a new window, which is allowed and finds it
   empty, ends it.
   */
  function CooldownEnd(calls: seq<Call>, decisions: seq<Decision>, n: nat, key: string): Option<Time>
    requires n <= |calls| == |decisions|
  {
    if n == 0 then None
    else
      var before := CooldownEnd(calls, decisions, n - 1, key);
      var c, d := calls[n - 1], decisions[n - 1];
      if KeyOf(c) != key then before
      else if d.reason == WindowExceeded then Some(c.now + MaxInt(1, c.cfg.blockSeconds) * SECOND)
      else if d.action == Allow && d.windowCount == 0 then None
      else before
  }

  /** A key never seen has no cooldown; any other bucket holds between one and limit calls, and limit in a cooldown. */
  predicate CooldownKept(b: Bucket, end: Option<Time>, limit: int) {
    && b.blockedTill == end
    && (b.windowStart.None? ==> b.blockedTill.None?)
    && (b.blockedTill.Some? ==> b.count == limit)
    && (b.windowStart.Some? ==> 1 <= b.count <= limit)
  }

  lemma {:induction false} RunKeepsCooldown(
    calls: seq<Call>, states: seq<LimiterState>, decisions: seq<Decision>, key: string, limit: int, window: Time, n: nat)
    requires LocalRun(calls, states, decisions) && FixedLimits(calls, key, limit, window) && limit >= 1
    requires n <= |calls|
    ensures CooldownKept(BucketOf(states[n].local, key), CooldownEnd(calls, decisions, n, key), limit)
  {
    if n > 0 {
      hide WindowOf, LimitOf, SecondsUntil, KeyOf, LastOf;
      RunKeepsCooldown(calls, states, decisions, key, limit, window, n - 1);
      assert LocalCallAt(calls, states, decisions, n - 1);
    }
  }

  /**
   A call is answered cooldown_active exactly when it is refused before the end of the cooldown that the
   earlier answers left, and its Retry-After counts to that end.
   */
  lemma {:induction false} CooldownFollowsAnswers(
    calls: seq<Call>, states: seq<LimiterState>, decisions: seq<Decision>, key: string, limit: int, window: Time, k: nat)
    requires LocalRun(calls, states, decisions) && FixedLimits(calls, key, limit, window) && limit >= 1
    requires k < |calls| && KeyOf(calls[k]) == key
    ensures var end, c, d := CooldownEnd(calls, decisions, k, key), calls[k], decisions[k];
            && (d.reason == CooldownActive <==> d.action == Block && end.Some? && c.now < end.value)
            && (d.reason == CooldownActive ==> d.retryAfter == SecondsUntil(end.value, c.later))
  {
    hide WindowOf, LimitOf, SecondsUntil, KeyOf, LastOf;
    RunKeepsCooldown(calls, states, decisions, key, limit, window, k);
    assert LocalCallAt(calls, states, decisions, k);
  }

  // ---------------------------------------------------------------- Retry-After

  lemma {:induction false} SecondsUntilCovers(deadline: Time, later: Time)
    ensures later + SecondsUntil(deadline, later) * SECOND >= deadline
  {
    var gap := Seconds(deadline - later);
    assert Ceil(gap) as real >= gap;
    assert gap * SECOND as real == (deadline - later) as real;
    assert Ceil(gap) as real * SECOND as real >= (deadline - later) as real;
    assert (Ceil(gap) * SECOND) as real >= (deadline - later) as real;
  }

  /** No call of the key among calls k + 1, ..., m - 1 is allowed. */
  predicate NoneAllowedBetween(calls: seq<Call>, decisions: seq<Decision>, key: string, k: nat, m: nat)
    requires m <= |calls| == |decisions|
  {
    forall n :: k < n < m && KeyOf(calls[n]) == key ==> decisions[n].action != Allow
  }

  /** When the window ends that the key is in after call k. */
  function WindowEnd(states: seq<LimiterState>, key: string, window: Time, k: nat): Option<Time>
    requires k + 1 < |states|
  {
    match BucketOf(states[k + 1].local, key).windowStart
    case Some(start) => Some(start + window)
    case None => None
  }

  lemma {:induction false} RefusalKeepsWindow(b: Bucket, c: Call)
    requires Decide(b, c).action != Allow
    ensures b.windowStart.Some? && c.now < b.windowStart.value + WindowOf(c.cfg)
    ensures NextBucket(b, c).windowStart == b.windowStart && NextBucket(b, c).count == b.count
  {
  }

  lemma {:induction false} RefusalsKeepWindow(
    calls: seq<Call>, states: seq<LimiterState>, decisions: seq<Decision>, key: string, limit: int, window: Time,
    k: nat, m: nat)
    requires LocalRun(calls, states, decisions) && FixedLimits(calls, key, limit, window) && limit >= 1
    requires k < m <= |calls| && KeyOf(calls[k]) == key && decisions[k].action != Allow
    requires NoneAllowedBetween(calls, decisions, key, k, m)
    ensures WindowEnd(states, key, window, k).Some? && calls[k].now < WindowEnd(states, key, window, k).value
    ensures var b := BucketOf(states[m].local, key);
            b.windowStart == Some(WindowEnd(states, key, window, k).value - window) && b.count == limit
  {
    hide Decide, NextBucket, KeyOf, WindowOf, LimitOf;
    assert LocalCallAt(calls, states, decisions, m - 1);
    if m == k + 1 {
      RefusalKeepsWindow(BucketOf(states[k].local, key), calls[k]);
      RunKeepsCooldown(calls, states, decisions, key, limit, window, k);
      RefusedIsFull(BucketOf(states[k].local, key), calls[k], CooldownEnd(calls, decisions, k, key), limit);
    } else {
      RefusalsKeepWindow(calls, states, decisions, key, limit, window, k, m - 1);
      if KeyOf(calls[m - 1]) == key {
        RefusalKeepsWindow(BucketOf(states[m - 1].local, key), calls[m - 1]);
      }
    }
  }

  lemma {:induction false} RefusedIsFull(b: Bucket, c: Call, end: Option<Time>, limit: int)
    requires Decide(b, c).action != Allow && CooldownKept(b, end, limit) && LimitOf(c.cfg) == limit
    ensures b.count == limit
  {
  }

  /** After a refusal the key's calls are refused until the window ends, and the first one then is allowed. */
  lemma {:induction false} RefusedUntilWindowEnds(
    calls: seq<Call>, states: seq<LimiterState>, decisions: seq<Decision>, key: string, limit: int, window: Time,
    k: nat, m: nat)
    requires LocalRun(calls, states, decisions) && FixedLimits(calls, key, limit, window) && limit >= 1
    requires k < m < |calls| && KeyOf(calls[k]) == KeyOf(calls[m]) == key && decisions[k].action != Allow
    requires NoneAllowedBetween(calls, decisions, key, k, m)
    ensures WindowEnd(states, key, window, k).Some?
    ensures decisions[m].action == Allow <==> calls[m].now >= WindowEnd(states, key, window, k).value
  {
    hide KeyOf, WindowOf, LimitOf;
    RefusalsKeepWindow(calls, states, decisions, key, limit, window, k, m);
    assert LocalCallAt(calls, states, decisions, m);
  }

  /** The time a refusal promises: its clock reading and the Retry-After. */
  function Promised(c: Call, d: Decision): Time {
    c.later + d.retryAfter * SECOND
  }

  lemma {:induction false} WindowPromise(
    calls: seq<Call>, states: seq<LimiterState>, decisions: seq<Decision>, key: string, limit: int, window: Time, k: nat)
    requires LocalRun(calls, states, decisions) && FixedLimits(calls, key, limit, window) && limit >= 1
    requires k < |calls| && KeyOf(calls[k]) == key && decisions[k].reason == WindowExceeded
    ensures WindowEnd(states, key, window, k).Some?
    ensures Promised(calls[k], decisions[k]) >= WindowEnd(states, key, window, k).value
  {
    hide KeyOf, LimitOf, SecondsUntil, WindowOf;
    assert LocalCallAt(calls, states, decisions, k);
    RefusalsKeepWindow(calls, states, decisions, key, limit, window, k, k + 1);
    SecondsUntilCovers(WindowEnd(states, key, window, k).value, calls[k].later);
  }

  /**
   The Retry-After of a window_exceeded answer is honest: the first call of the key that waits it out is allowed,
   whatever refused calls it makes before.
   */
  lemma {:induction false} WindowRetryIsHonest(
    calls: seq<Call>, states: seq<LimiterState>, decisions: seq<Decision>, key: string, limit: int, window: Time,
    k: nat, m: nat)
    requires LocalRun(calls, states, decisions) && FixedLimits(calls, key, limit, window) && limit >= 1
    requires k < m < |calls| && KeyOf(calls[k]) == KeyOf(calls[m]) == key && decisions[k].reason == WindowExceeded
    requires NoneAllowedBetween(calls, decisions, key, k, m) && calls[m].now >= Promised(calls[k], decisions[k])
    ensures decisions[m].action == Allow
  {
    hide KeyOf, LimitOf, SecondsUntil, WindowOf;
    assert LocalCallAt(calls, states, decisions, k);
    WindowPromise(calls, states, decisions, key, limit, window, k);
    RefusedUntilWindowEnds(calls, states, decisions, key, limit, window, k, m);
  }

  /**
   The Retry-After of a cooldown_active answer is honest, that is, a next call of the key that waits it out is
   sure to be allowed, exactly when it reaches the end of the window: the cooldown does not keep the window from
   refusing again.
   */
  lemma {:induction false} CooldownRetryIsHonest(
    calls: seq<Call>, states: seq<LimiterState>, decisions: seq<Decision>, key: string, limit: int, window: Time, k: nat)
    requires LocalRun(calls, states, decisions) && FixedLimits(calls, key, limit, window) && limit >= 1
    requires k < |calls| && KeyOf(calls[k]) == key && decisions[k].reason == CooldownActive
    ensures WindowEnd(states, key, window, k).Some?
    ensures (forall next: Call :: next.cfg == calls[k].cfg && next.now >= Promised(calls[k], decisions[k]) ==>
               Decide(BucketOf(states[k + 1].local, key), next).action == Allow)
            <==> Promised(calls[k], decisions[k]) >= WindowEnd(states, key, window, k).value
  {
    hide KeyOf, LimitOf, SecondsUntil, WindowOf;
    assert LocalCallAt(calls, states, decisions, k);
    RefusalsKeepWindow(calls, states, decisions, key, limit, window, k, k + 1);
    var c, promised := calls[k], Promised(calls[k], decisions[k]);
    SecondsUntilCovers(BucketOf(states[k].local, key).blockedTill.value, c.later);
    var soonest := Call(c.user, c.identifier, c.cfg, promised, promised);
    assert Decide(BucketOf(states[k + 1].local, key), soonest).action == Allow <==>
           promised >= WindowEnd(states, key, window, k).value;
  }

  /** One request a minute, and a cooldown of one second. */
  const STRICT := RateLimitConfig("p", 1, 60, "", "", true, 0.0, 0.0, 0, 0, 1, 0, 0, 0, RedisConfig("", "", 0))

  function StrictCall(now: Time): Call {
    Call("u", "", STRICT, now, now)
  }

  lemma {:induction false} StrictBuckets()
    ensures KeyOf(StrictCall(0)) == KeyOf(StrictCall(SECOND)) == "p:u" && StrictCall(SECOND).now == SECOND
    ensures Promised(StrictCall(0), Decide(Bucket(Some(0), 1, Some(SECOND)), StrictCall(0))) == SECOND
    ensures var full, cooling := Bucket(Some(0), 1, None), Bucket(Some(0), 1, Some(SECOND));
            && NextBucket(NO_BUCKET, StrictCall(0)) == full
            && NextBucket(full, StrictCall(0)) == cooling
            && NextBucket(cooling, StrictCall(0)) == cooling
            && Decide(cooling, StrictCall(0)).reason == CooldownActive
            && Decide(cooling, StrictCall(SECOND)).action == Block
  {
    assert WindowOf(STRICT) == MINUTE && LimitOf(STRICT) == 1 && SecondsUntil(SECOND, 0) == 1;
  }

  lemma {:induction false} CallMovesBucket(
    calls: seq<Call>, states: seq<LimiterState>, decisions: seq<Decision>, k: nat)
    requires LocalRun(calls, states, decisions) && k < |calls|
    ensures var key := KeyOf(calls[k]);
            && BucketOf(states[k + 1].local, key) == NextBucket(BucketOf(states[k].local, key), calls[k])
            && decisions[k] == Decide(BucketOf(states[k].local, key), calls[k])
  {
    hide NextBucket, Decide, KeyOf;
    assert LocalCallAt(calls, states, decisions, k);
  }

  /** A run in which waiting out the Retry-After of cooldown_active is not enough. */
  lemma {:induction false} CooldownRetryFails()
    returns (calls: seq<Call>, states: seq<LimiterState>, decisions: seq<Decision>)
    ensures LocalRun(calls, states, decisions)
    ensures calls == [StrictCall(0), StrictCall(0), StrictCall(0), StrictCall(SECOND)]
    ensures decisions[2].reason == CooldownActive && calls[3].now >= Promised(calls[2], decisions[2])
    ensures decisions[3].action == Block
  {
    calls := [StrictCall(0), StrictCall(0), StrictCall(0), StrictCall(SECOND)];
    StrictBuckets();
    hide NextBucket, Decide, KeyOf, LocalCallAt, StrictCall, Promised;
    states, decisions := LocalRunExists(calls, 4);
    assert calls[..4] == calls;
    assert BucketOf(states[0].local, "p:u") == NO_BUCKET;
    hide BucketOf;
    CallMovesBucket(calls, states, decisions, 0);
    CallMovesBucket(calls, states, decisions, 1);
    CallMovesBucket(calls, states, decisions, 2);
    CallMovesBucket(calls, states, decisions, 3);
  }

  // ---------------------------------------------------------------- the event list

  /** Every refusal among the first n calls, oldest first. */
  function Refusals(calls: seq<Call>, decisions: seq<Decision>, n: nat): seq<Event>
    requires n <= |calls| == |decisions|
  {
    if n == 0 then []
    else if decisions[n - 1].action == Allow then Refusals(calls, decisions, n - 1)
    else Refusals(calls, decisions, n - 1) + [Event(calls[n - 1].now, decisions[n - 1])]
  }

  lemma {:induction false} EventsAreLast(
    calls: seq<Call>, states: seq<LimiterState>, decisions: seq<Decision>, n: nat)
    requires LocalRun(calls, states, decisions) && n <= |calls|
    ensures states[n].events == LastOf(Refusals(calls, decisions, n), MAX_EVENTS)
  {
    hide Decide, NextBucket, KeyOf, LastOf, EventsOf;
    if n > 0 {
      EventsAreLast(calls, states, decisions, n - 1);
      assert LocalCallAt(calls, states, decisions, n - 1);
      OneMoreRefusal(calls, decisions, n);
      LastOfAppend(Refusals(calls, decisions, n - 1), EventsOf(decisions[n - 1], calls[n - 1].now), MAX_EVENTS);
    }
    NothingRefusedYet(calls, decisions);
  }

  lemma {:induction false} OneMoreRefusal(calls: seq<Call>, decisions: seq<Decision>, n: nat)
    requires 0 < n <= |calls| == |decisions|
    ensures Refusals(calls, decisions, n) ==
            Refusals(calls, decisions, n - 1) + EventsOf(decisions[n - 1], calls[n - 1].now)
  {
  }

  /** The bounded list is exactly the newest thousand refusals of the run, so a reader sees the newest of those. */
  lemma {:induction false} EventsAreNewestRefusals(
    calls: seq<Call>, states: seq<LimiterState>, decisions: seq<Decision>, n: nat, limit: nat)
    requires LocalRun(calls, states, decisions) && n <= |calls|
    ensures var refusals := Refusals(calls, decisions, n);
            states[n].events == refusals[(if |refusals| > 1000 then |refusals| - 1000 else 0)..]
    ensures var refusals := Refusals(calls, decisions, n);
            var shown := if limit < 1000 then limit else 1000;
            LastOf(states[n].events, limit) == refusals[(if |refusals| > shown then |refusals| - shown else 0)..]
  {
    hide LocalCallAt, Refusals;
    EventsAreLast(calls, states, decisions, n);
    LastOfLast(Refusals(calls, decisions, n), MAX_EVENTS, limit);
  }

  lemma {:induction false} NothingRefusedYet(calls: seq<Call>, decisions: seq<Decision>)
    requires |calls| == |decisions|
    ensures LastOf(Refusals(calls, decisions, 0), MAX_EVENTS) == []
  {
  }
}

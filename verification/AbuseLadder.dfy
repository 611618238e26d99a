/**
 The escalation of abusive calls over whole runs of one key: the stored counter is the length of the
 current streak of abusive calls, the answer to each is fixed by that length, and a block lasts
 exactly its seconds and is renewed at once by abuse in the same length of time after it.
 */
module AbuseLadder {
  import opened Options
  import opened Histories
  import opened RateLimitTypes
  import opened RedisLimiter
  import opened RedisBounds

  /** Answers of the escalating branch. */
  predicate IsAbusive(d: Decision) {
    d.reason == RepeatedAbuse || d.reason == TrafficSpike || d.reason == BurstExceeded
  }

  /** Times of the abusive calls among the first n. */
  function AbusiveTimes(calls: seq<Call>, decisions: seq<Decision>, n: nat): seq<Time>
    requires n <= |calls| == |decisions|
  {
    if n == 0 then []
    else
      var before := AbusiveTimes(calls, decisions, n - 1);
      if IsAbusive(decisions[n - 1]) then before + [calls[n - 1].now] else before
  }

  /** How many of the first n events, up to the n-th, follow each other in less than gap. */
  function Streak(times: seq<Time>, n: nat, gap: Time): nat
    requires n <= |times|
  {
    if n == 0 then 0
    else if n >= 2 && times[n - 1] - times[n - 2] < gap then Streak(times, n - 1, gap) + 1
    else 1
  }

  /** The streak that an event at time now would continue. */
  function StreakAt(times: seq<Time>, now: Time, gap: Time): nat {
    if times != [] && now - times[|times| - 1] < gap then Streak(times, |times|, gap) else 0
  }

  lemma {:induction false} StreakOfPrefix(times: seq<Time>, now: Time, n: nat, gap: Time)
    requires n <= |times|
    ensures Streak(times + [now], n, gap) == Streak(times, n, gap)
  {
    if n > 0 {
      StreakOfPrefix(times, now, n - 1, gap);
    }
  }

  lemma {:induction false} StreakGrows(times: seq<Time>, now: Time, gap: Time)
    ensures Streak(times + [now], |times| + 1, gap) == StreakAt(times, now, gap) + 1
  {
    StreakOfPrefix(times, now, |times|, gap);
  }

  /** The counter key mirrors the streak of the abusive calls so far. */
  predicate CountsStreak(r: Record, times: seq<Time>, gap: Time) {
    if times == [] then r.abuse.Absent?
    else r.abuse == Held(Streak(times, |times|, gap), times[|times| - 1] + gap)
  }

  /** What one evaluation does to the abuse and block keys. */
  lemma {:induction false} AbuseEffect(r: Record, c: Call)
    requires UsableLimits(c.cfg)
    ensures var d, next := FreshDecision(r, c), FreshRecord(r, c);
            var count := (match Live(r.abuse, c.now) case Some(n) => n case None => 0) + 1;
            && d.reason != CooldownActive
            && (IsAbusive(d) ==>
                  && next.abuse == Held(count, c.now + 2 * c.cfg.blockSeconds)
                  && d.abuseCount == count
                  && (d.action == Block <==> count >= c.cfg.repeatedAbuseThreshold)
                  && (d.reason == RepeatedAbuse <==> d.action == Block)
                  && (d.action != Block ==>
                        d.action == Throttle && d.throttleDelay == c.cfg.softThrottleMilliseconds * (count + 1)))
            && (!IsAbusive(d) ==> next.abuse == r.abuse && d.action != Block)
            && next.block == if d.action == Block then Held((), c.now + c.cfg.blockSeconds) else r.block
  {
  }

  lemma {:induction false} RunCountsStreak(
    cfg: RateLimitConfig, calls: seq<Call>, records: seq<Record>, decisions: seq<Decision>, n: nat)
    requires UsableLimits(cfg) && KeyRun(cfg, calls, records, decisions) && n <= |calls|
    ensures CountsStreak(records[n], AbusiveTimes(calls, decisions, n), 2 * cfg.blockSeconds)
  {
    if n > 0 {
      hide FreshDecision, FreshRecord, Streak;
      RunCountsStreak(cfg, calls, records, decisions, n - 1);
      assert KeyCallAt(cfg, calls, records, decisions, n - 1);
      AbuseEffect(records[n - 1], calls[n - 1]);
      StreakGrows(AbusiveTimes(calls, decisions, n - 1), calls[n - 1].now, 2 * cfg.blockSeconds);
    }
  }

  /**
   Call k is abusive: its count is one more than the streak it continues. Below the threshold it is
   throttled for soft * (count + 1), never more than soft * threshold; from the threshold on it blocks.
   */
  lemma {:induction false} LadderFollowsStreak(
    cfg: RateLimitConfig, calls: seq<Call>, records: seq<Record>, decisions: seq<Decision>, k: nat)
    requires UsableLimits(cfg) && KeyRun(cfg, calls, records, decisions) && k < |calls| && IsAbusive(decisions[k])
    ensures var d := decisions[k];
            var count := StreakAt(AbusiveTimes(calls, decisions, k), calls[k].now, 2 * cfg.blockSeconds) + 1;
            && d.abuseCount == count
            && (count >= cfg.repeatedAbuseThreshold ==> d.action == Block && d.reason == RepeatedAbuse)
            && (count < cfg.repeatedAbuseThreshold ==>
                  && d.action == Throttle
                  && d.throttleDelay == cfg.softThrottleMilliseconds * (count + 1)
                  && d.throttleDelay <= cfg.softThrottleMilliseconds * cfg.repeatedAbuseThreshold)
  {
    hide FreshDecision, FreshRecord, Streak;
    RunCountsStreak(cfg, calls, records, decisions, k);
    assert KeyCallAt(cfg, calls, records, decisions, k);
    AbuseEffect(records[k], calls[k]);
    var count := StreakAt(AbusiveTimes(calls, decisions, k), calls[k].now, 2 * cfg.blockSeconds) + 1;
    if count < cfg.repeatedAbuseThreshold {
      assert cfg.softThrottleMilliseconds * (count + 1) <= cfg.softThrottleMilliseconds * cfg.repeatedAbuseThreshold;
    }
  }

  // ---------------------------------------------------------------- blocks

  lemma {:induction false} BlockPersists(
    cfg: RateLimitConfig, calls: seq<Call>, records: seq<Record>, decisions: seq<Decision>, i: nat, n: nat)
    requires UsableLimits(cfg) && KeyRun(cfg, calls, records, decisions)
    requires i < n <= |calls| && decisions[i].reason == RepeatedAbuse
    requires forall m :: i < m < n ==> calls[m].now < calls[i].now + cfg.blockSeconds
    ensures records[n].block == Held((), calls[i].now + cfg.blockSeconds)
  {
    hide FreshDecision, FreshRecord;
    assert KeyCallAt(cfg, calls, records, decisions, n - 1);
    if n == i + 1 {
      AbuseEffect(records[i], calls[i]);
    } else {
      BlockPersists(cfg, calls, records, decisions, i, n - 1);
    }
  }

  /**
   After call i blocks, every call up to the end of the block is refused with the seconds left, and the
   first call from then on is evaluated afresh.
   */
  lemma {:induction false} BlockLastsExactly(
    cfg: RateLimitConfig, calls: seq<Call>, records: seq<Record>, decisions: seq<Decision>, i: nat, j: nat)
    requires UsableLimits(cfg) && KeyRun(cfg, calls, records, decisions)
    requires i < j < |calls| && decisions[i].reason == RepeatedAbuse
    requires forall m :: i < m < j ==> calls[m].now < calls[i].now + cfg.blockSeconds
    ensures var left := calls[i].now + cfg.blockSeconds - calls[j].now;
            && (decisions[j].reason == CooldownActive <==> left > 0)
            && (left > 0 ==> decisions[j].action == Block && decisions[j].retryAfter == left)
  {
    hide FreshDecision, FreshRecord;
    BlockPersists(cfg, calls, records, decisions, i, j);
    assert KeyCallAt(cfg, calls, records, decisions, j);
    AbuseEffect(records[j], calls[j]);
  }

  lemma {:induction false} CounterSurvivesBlock(
    cfg: RateLimitConfig, calls: seq<Call>, records: seq<Record>, decisions: seq<Decision>, i: nat, n: nat)
    requires UsableLimits(cfg) && KeyRun(cfg, calls, records, decisions) && InOrder(calls)
    requires i < n <= |calls| && decisions[i].reason == RepeatedAbuse
    requires forall m :: i < m < n ==> calls[m].now < calls[i].now + 2 * cfg.blockSeconds
    ensures var abuse := records[n].abuse;
            && abuse.Held? && abuse.value >= cfg.repeatedAbuseThreshold
            && abuse.expires >= calls[i].now + 2 * cfg.blockSeconds
  {
    hide FreshDecision, FreshRecord;
    assert KeyCallAt(cfg, calls, records, decisions, n - 1);
    AbuseEffect(records[n - 1], calls[n - 1]);
    if n > i + 1 {
      CounterSurvivesBlock(cfg, calls, records, decisions, i, n - 1);
    }
  }

  /** Abuse within twice the block length of a block blocks again at once, whatever was allowed in between. */
  lemma {:induction false} AbuseAfterBlockReblocks(
    cfg: RateLimitConfig, calls: seq<Call>, records: seq<Record>, decisions: seq<Decision>, i: nat, j: nat)
    requires UsableLimits(cfg) && KeyRun(cfg, calls, records, decisions) && InOrder(calls)
    requires i < j < |calls| && decisions[i].reason == RepeatedAbuse && IsAbusive(decisions[j])
    requires calls[j].now < calls[i].now + 2 * cfg.blockSeconds
    ensures decisions[j].action == Block && decisions[j].reason == RepeatedAbuse
    ensures calls[j].now >= calls[i].now + cfg.blockSeconds
  {
    hide FreshDecision, FreshRecord;
    CounterSurvivesBlock(cfg, calls, records, decisions, i, j);
    assert KeyCallAt(cfg, calls, records, decisions, j);
    AbuseEffect(records[j], calls[j]);
    if calls[j].now < calls[i].now + cfg.blockSeconds {
      BlockLastsExactly(cfg, calls, records, decisions, i, j);
      assert false;
    }
  }
}

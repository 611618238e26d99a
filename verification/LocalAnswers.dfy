/**
 The local limiter from outside: what the answers of a run are, from the calls and earlier answers alone, and that
 nobody else's calls change one's answers.
 */
module LocalAnswers {
  import opened Options
  import opened Histories
  import opened RateLimitTypes
  import opened LocalLimiter

  // ---------------------------------------------------------------- what is configured

  /** The window is the longer of the two configured ones, or a minute; the limit is the configured number of requests. */
  lemma {:induction false} LimitIsConfigured(cfg: RateLimitConfig)
    ensures var seconds := if cfg.windowSeconds > cfg.slidingWindowSeconds then cfg.windowSeconds else cfg.slidingWindowSeconds;
            WindowOf(cfg) == (if seconds > 0 then seconds else 60) * 1_000_000_000
    ensures cfg.requests > 0 ==> LimitOf(cfg) == cfg.requests
    ensures var seconds := WindowOf(cfg) / 1_000_000_000;
            var limit := LimitOf(cfg);
            cfg.requests <= 0 ==>
              && limit as real >= cfg.baseRequestsPerSecond * seconds as real
              && (limit == 1 || (limit - 1) as real < cfg.baseRequestsPerSecond * seconds as real)
  {
    var seconds := WindowOf(cfg) / 1_000_000_000;
    assert WindowOf(cfg) == seconds * 1_000_000_000;
    assert Seconds(WindowOf(cfg)) == seconds as real;
  }

  /** Retry-After counts whole seconds, rounded up, and at least one. */
  lemma {:induction false} RetryInWholeSeconds(deadline: Time, later: Time)
    ensures SecondsUntil(deadline, later) ==
            if deadline - later <= 1_000_000_000 then 1 else (deadline - later + 999_999_999) / 1_000_000_000
  {
    var gap := deadline - later;
    var n := (gap + 999_999_999) / 1_000_000_000;
    assert gap as real / 1_000_000_000.0 <= n as real < gap as real / 1_000_000_000.0 + 1.0;
  }

  // ---------------------------------------------------------------- the answers of a run

  /** The window a key is in: when it started and how many calls it has allowed. */
  datatype Window = Window(start: Time, allowed: nat)

  /** The window at a call: the one the key is in, or a new one when that has run its length. */
  function AtCall(before: Option<Window>, window: Time, now: Time): Window {
    if before.Some? && now - before.value.start < window then before.value else Window(now, 0)
  }

  /** After the first n calls, from the times and answers of the key's calls. */
  function InWindow(calls: seq<Call>, decisions: seq<Decision>, key: string, window: Time, n: nat): Option<Window>
    requires n <= |calls| == |decisions|
  {
    if n == 0 then None
    else
      var before := InWindow(calls, decisions, key, window, n - 1);
      if KeyOf(calls[n - 1]) != key then before
      else
        var w := AtCall(before, window, calls[n - 1].now);
        Some(if decisions[n - 1].action == Allow then Window(w.start, w.allowed + 1) else w)
  }

  predicate Mirrors(b: Bucket, w: Option<Window>, limit: int) {
    match w
    case None => b == NO_BUCKET
    case Some(w) => b.windowStart == Some(w.start) && b.count == w.allowed <= limit && (b.blockedTill.Some? ==> b.count == limit)
  }

  lemma {:induction false} OneCallMirrors(b: Bucket, w: Option<Window>, c: Call)
    requires Mirrors(b, w, LimitOf(c.cfg))
    ensures var at, d := AtCall(w, WindowOf(c.cfg), c.now), Decide(b, c);
            && Mirrors(NextBucket(b, c), Some(if d.action == Allow then Window(at.start, at.allowed + 1) else at), LimitOf(c.cfg))
            && AnswersBy(c, d, at, LimitOf(c.cfg), WindowOf(c.cfg))
  {
    if Decide(b, c).reason == WindowExceeded {
      RetryInWholeSeconds(AtCall(w, WindowOf(c.cfg), c.now).start + WindowOf(c.cfg), c.later);
    }
    hide WindowOf, LimitOf, SecondsUntil;
  }

  /** Allowed while the window has room, and refused otherwise; outside a cooldown until the window ends. */
  predicate AnswersBy(c: Call, d: Decision, w: Window, limit: int, window: Time) {
    && d.policyName == c.cfg.name && d.user == c.user && d.identifier == c.identifier && d.windowCount == w.allowed
    && d.throttleDelay == 0
    && (w.allowed < limit ==> d.action == Allow && d.reason == NoReason && d.retryAfter == 0 && d.abuseCount == 0)
    && (w.allowed >= limit ==>
          && d.action == Block && d.abuseCount == w.allowed
          && (d.reason == WindowExceeded || d.reason == CooldownActive)
          && (d.reason == WindowExceeded ==>
                var gap := w.start + window - c.later;
                d.retryAfter == if gap <= 1_000_000_000 then 1 else (gap + 999_999_999) / 1_000_000_000))
  }

  lemma {:induction false} RunMirrors(
    calls: seq<Call>, states: seq<LimiterState>, decisions: seq<Decision>, key: string, limit: int, window: Time, n: nat)
    requires LocalRun(calls, states, decisions) && FixedLimits(calls, key, limit, window) && n <= |calls|
    ensures Mirrors(BucketOf(states[n].local, key), InWindow(calls, decisions, key, window, n), limit)
  {
    hide KeyOf, WindowOf, LimitOf, Decide, NextBucket, AtCall, Mirrors, AnswersBy;
    if n > 0 {
      RunMirrors(calls, states, decisions, key, limit, window, n - 1);
      assert LocalCallAt(calls, states, decisions, n - 1);
      if KeyOf(calls[n - 1]) == key {
        OneCallMirrors(BucketOf(states[n - 1].local, key), InWindow(calls, decisions, key, window, n - 1), calls[n - 1]);
      }
    } else {
      NothingYet(limit);
    }
  }

  lemma {:induction false} NothingYet(limit: int)
    ensures Mirrors(NO_BUCKET, None, limit)
  {
  }

  /** Every call of a run, whatever the clock does, is answered as the window it falls in has room. */
  lemma {:induction false} AnswersByWindow(
    calls: seq<Call>, states: seq<LimiterState>, decisions: seq<Decision>, key: string, limit: int, window: Time, k: nat)
    requires LocalRun(calls, states, decisions) && FixedLimits(calls, key, limit, window)
    requires k < |calls| && KeyOf(calls[k]) == key
    ensures AnswersBy(calls[k], decisions[k], AtCall(InWindow(calls, decisions, key, window, k), window, calls[k].now), limit, window)
  {
    hide KeyOf, WindowOf, LimitOf, Decide, NextBucket, AtCall, Mirrors, AnswersBy;
    RunMirrors(calls, states, decisions, key, limit, window, k);
    assert LocalCallAt(calls, states, decisions, k);
    OneCallMirrors(BucketOf(states[k].local, key), InWindow(calls, decisions, key, window, k), calls[k]);
  }

  // ---------------------------------------------------------------- other users

  /** Two calls of one policy share a bucket if and only if they are of the same user. */
  lemma {:induction false} SharesBucket(c: Call, d: Call)
    requires c.cfg.name == d.cfg.name
    ensures KeyOf(c) == KeyOf(d) <==> c.user == d.user
  {
    var prefix := c.cfg.name + ":";
    assert KeyOf(c)[|prefix|..] == c.user && KeyOf(d)[|prefix|..] == d.user;
  }

  /** The first n calls without those of other users of the policy. */
  function WithoutOthers(calls: seq<Call>, policy: string, user: string, n: nat): seq<Call>
    requires n <= |calls|
  {
    if n == 0 then []
    else
      var before := WithoutOthers(calls, policy, user, n - 1);
      if calls[n - 1].cfg.name == policy && calls[n - 1].user != user then before else before + [calls[n - 1]]
  }

  lemma {:induction false} WithoutOthersGrows(calls: seq<Call>, policy: string, user: string, n: nat, m: nat)
    requires n <= m <= |calls|
    ensures WithoutOthers(calls, policy, user, n) <= WithoutOthers(calls, policy, user, m)
    decreases m
  {
    if n < m {
      WithoutOthersGrows(calls, policy, user, n, m - 1);
    }
  }

  lemma {:induction false} SameBucket(
    calls: seq<Call>, states: seq<LimiterState>, decisions: seq<Decision>,
    states': seq<LimiterState>, decisions': seq<Decision>, policy: string, user: string, key: string, n: nat)
    requires LocalRun(calls, states, decisions)
    requires LocalRun(WithoutOthers(calls, policy, user, |calls|), states', decisions')
    requires n <= |calls| && key == policy + ":" + user
    ensures |WithoutOthers(calls, policy, user, n)| < |states'|
    ensures BucketOf(states[n].local, key) == BucketOf(states'[|WithoutOthers(calls, policy, user, n)|].local, key)
  {
    hide NextBucket, Decide, KeyOf;
    WithoutOthersGrows(calls, policy, user, n, |calls|);
    if n > 0 {
      SameBucket(calls, states, decisions, states', decisions', policy, user, key, n - 1);
      assert LocalCallAt(calls, states, decisions, n - 1);
      var c := calls[n - 1];
      if c.cfg.name == policy && c.user != user {
        SharesBucket(c, c.(user := user));
        assert KeyOf(c.(user := user)) == key by { OwnKey(c.(user := user)); }
      } else {
        var m := |WithoutOthers(calls, policy, user, n - 1)|;
        assert WithoutOthers(calls, policy, user, n)[m] == c;
        assert LocalCallAt(WithoutOthers(calls, policy, user, |calls|), states', decisions', m);
      }
    }
  }

  lemma {:induction false} OwnKey(c: Call)
    ensures KeyOf(c) == c.cfg.name + ":" + c.user
  {
  }

  /** In every run, dropping the calls of all other users of a policy changes no answer to the user. */
  lemma {:induction false} OthersDoNotMatter(
    calls: seq<Call>, states: seq<LimiterState>, decisions: seq<Decision>,
    states': seq<LimiterState>, decisions': seq<Decision>, policy: string, user: string, n: nat)
    requires LocalRun(calls, states, decisions)
    requires LocalRun(WithoutOthers(calls, policy, user, |calls|), states', decisions')
    requires n < |calls| && calls[n].cfg.name == policy && calls[n].user == user
    ensures var m := |WithoutOthers(calls, policy, user, n)|;
            && m < |decisions'| && WithoutOthers(calls, policy, user, |calls|)[m] == calls[n]
            && decisions'[m] == decisions[n]
  {
    OwnKey(calls[n]);
    hide NextBucket, Decide, KeyOf, Evaluated;
    SameBucket(calls, states, decisions, states', decisions', policy, user, KeyOf(calls[n]), n);
    WithoutOthersGrows(calls, policy, user, n + 1, |calls|);
    var m := |WithoutOthers(calls, policy, user, n)|;
    assert WithoutOthers(calls, policy, user, n + 1)[m] == calls[n];
    assert LocalCallAt(calls, states, decisions, n);
    assert LocalCallAt(WithoutOthers(calls, policy, user, |calls|), states', decisions', m);
  }
}

/**
 How interleaved and uninterrupted evaluations relate: an evaluation whose commands run back to back is
 exactly Evaluate, so every uninterrupted run is one interleaving; and what overlapping evaluations can
 do that uninterrupted ones cannot.
 */
module RedisOverlap {
  import opened Options
  import opened Histories
  import opened RateLimitTypes
  import opened RedisLimiter
  import opened RedisBounds
  import opened RedisInterleaving

  function Last(run: Run): State
    requires run.states != []
  {
    run.states[|run.states| - 1]
  }

  lemma {:induction false} Then(cfg: RateLimitConfig, run: Run, step: Step) returns (longer: Run)
    requires UsableLimits(cfg) && Runs(cfg, run) && Enabled(cfg, Last(run), step)
    ensures Runs(cfg, longer) && longer.steps == run.steps + [step] && Last(longer) == Next(cfg, Last(run), step)
  {
    hide Next;
    longer := Run(run.steps + [step], run.states + [Next(cfg, Last(run), step)]);
    forall k | 0 <= k < |longer.steps| ensures StepAt(cfg, longer, k) {
      if k < |run.steps| {
        assert StepAt(cfg, run, k);
      }
    }
  }

  /** Enter and pass the block check. */
  lemma {:induction false} Begin(cfg: RateLimitConfig, run: Run, c: Call, at: Time) returns (longer: Run)
    requires UsableLimits(cfg) && Runs(cfg, run) && c.cfg == cfg && Last(run).at <= at
    requires !Blocked(Last(run).record, at)
    ensures Runs(cfg, longer) && run.steps <= longer.steps
    ensures Last(longer) == Last(run).(evals := Last(run).evals + [InFlight(c, Unblocked)], at := at)
  {
    var i := |Last(run).evals|;
    var entered := Then(cfg, run, Enter(c));
    longer := Then(cfg, entered, Execute(i, at, CheckBlock));
  }

  /** The first transaction right after that. */
  lemma {:induction false} BeginAndRead(cfg: RateLimitConfig, run: Run, c: Call, at: Time) returns (longer: Run)
    requires UsableLimits(cfg) && Runs(cfg, run) && c.cfg == cfg && Last(run).at <= at
    requires !Blocked(Last(run).record, at)
    ensures Runs(cfg, longer) && run.steps <= longer.steps
    ensures var s := Last(run);
            var visited := Visited(s.record, cfg, at, c.now);
            var v := ViewOf(visited, at);
            Last(longer) == State(visited, s.evals + [InFlight(c, Viewed(v))], at, s.marks + [Mark(c.now, at)],
                                  if Passes(v, cfg, c.now) then s.passed + [c.now] else s.passed)
  {
    hide Passes, After;
    var i := |Last(run).evals|;
    var begun := Begin(cfg, run, c, at);
    longer := Then(cfg, begun, Execute(i, at, ReadFirst));
  }

  /** Commands run back to back at one instant are one uninterrupted evaluation. */
  lemma {:induction false} BackToBackIsEvaluate(cfg: RateLimitConfig, run: Run, c: Call) returns (longer: Run)
    requires UsableLimits(cfg) && Runs(cfg, run) && c.cfg == cfg && Last(run).at <= c.now
    ensures Runs(cfg, longer) && run.steps <= longer.steps
    ensures var e := Evaluate(Last(run).record, c);
            && Last(longer).record == e.record
            && Last(longer).evals == Last(run).evals + [InFlight(c, Answered(e.decision))]
            && Last(longer).at == c.now
  {
    var s := Last(run);
    var i := |s.evals|;
    if Blocked(s.record, c.now) {
      var entered := Then(cfg, run, Enter(c));
      longer := Then(cfg, entered, Execute(i, c.now, CheckBlock));
    } else {
      longer := BeginAndRead(cfg, run, c, c.now);
      longer := Finish(cfg, longer, s.record, c, s.evals);
    }
  }

  /** The rest of an evaluation after its first transaction. */
  lemma {:induction false} Finish(cfg: RateLimitConfig, run: Run, was: Record, c: Call, others: seq<InFlight>)
    returns (longer: Run)
    requires UsableLimits(cfg) && Runs(cfg, run) && c.cfg == cfg && Last(run).at == c.now
    requires Last(run).record == Visited(was, cfg, c.now, c.now)
    requires Last(run).evals == others + [InFlight(c, Viewed(ViewAt(was, c)))]
    ensures Runs(cfg, longer) && run.steps <= longer.steps
    ensures Last(longer).record == FreshRecord(was, c) && Last(longer).at == c.now
    ensures Last(longer).evals == others + [InFlight(c, Answered(FreshDecision(was, c)))]
  {
    hide After, TokensLeft, AverageRate, ObservedRate, OverWindow, OverBurst, Spiking;
    var i, v := |others|, ViewAt(was, c);
    longer := run;
    if Abusive(v, cfg, c.now) {
      longer := Then(cfg, longer, Execute(i, c.now, Raise));
      if AbuseCountOf(AfterEscalation(was, c), c.now) >= cfg.repeatedAbuseThreshold {
        longer := Then(cfg, longer, Execute(i, c.now, Bar));
      }
    }
    longer := Then(cfg, longer, Execute(i, c.now, WriteSecond));
  }

  // ---------------------------------------------------------------- what overlapping adds

  /** After k reads at one instant, for calls made at now, with no write since: the window holds them and nothing else. */
  predicate Crowded(s: State, cfg: RateLimitConfig, k: nat, now: Time, at: Time) {
    && s.record.block.Absent?
    && (if k == 0 then s.at <= at && After(WindowAt(s.record, at), now - cfg.slidingWindowSeconds) == []
        else && s.at == at && s.record.window.Held? && |s.record.window.value| == k
             && s.record.window.expires == at + cfg.eventRetentionSeconds
             && forall i :: 0 <= i < k ==> s.record.window.value[i] == now)
  }

  /** One more overlapping read sees every earlier one. */
  lemma {:induction false} Crowd(cfg: RateLimitConfig, run: Run, k: nat, now: Time, at: Time) returns (longer: Run, v: View)
    requires UsableLimits(cfg) && Runs(cfg, run) && Crowded(Last(run), cfg, k, now, at)
    ensures Runs(cfg, longer) && Crowded(Last(longer), cfg, k + 1, now, at)
    ensures var r := Last(run).record;
            && v.count == k + 1 && v.burst == Live(r.burst, at) && v.average == Live(r.stats, at)
            && Last(longer).record == r.(window := Last(longer).record.window)
    ensures Last(longer).evals == Last(run).evals + [InFlight(Call("", "", cfg, now), Viewed(v))]
    ensures Last(longer).passed == if Passes(v, cfg, now) then Last(run).passed + [now] else Last(run).passed
    ensures Last(longer).marks == Last(run).marks + [Mark(now, at)]
  {
    hide Passes;
    var window := WindowAt(Last(run).record, at);
    if k > 0 {
      NothingToPrune(window, k, now - cfg.slidingWindowSeconds);
      assert After(window, now - cfg.slidingWindowSeconds) == window == window[..k];
    }
    hide After;
    v := ViewOf(Visited(Last(run).record, cfg, at, now), at);
    longer := BeginAndRead(cfg, run, Call("", "", cfg, now), at);
  }

  /** While nothing is written, the window alone decides: a crowd of base * window calls passes. */
  lemma {:induction false} CrowdPasses(cfg: RateLimitConfig, run: Run, n: nat, now: Time, at: Time) returns (longer: Run)
    requires UsableLimits(cfg) && Runs(cfg, run) && n as real <= Gain(cfg, cfg.slidingWindowSeconds)
    requires Crowded(Last(run), cfg, 0, now, at) && Last(run).record.burst.Absent?
    ensures Runs(cfg, longer) && Crowded(Last(longer), cfg, n, now, at) && Last(longer).record.burst.Absent?
    ensures Last(longer).marks == Last(run).marks + seq(n, _ => Mark(now, at))
    ensures Last(longer).passed == Last(run).passed + seq(n, _ => now)
  {
    if n == 0 {
      longer := run;
    } else {
      hide Passes;
      var shorter := CrowdPasses(cfg, run, n - 1, now, at);
      var v;
      longer, v := Crowd(cfg, shorter, n - 1, now, at);
      FullViewPasses(v, cfg, now);
    }
  }

  /**
   Without mutual exclusion only the window bounds admission: for every n up to base * window some
   interleaving passes n calls in one second, whatever the burst capacity.
   */
  lemma {:induction false} OverlapIgnoresTokens(cfg: RateLimitConfig, n: nat) returns (run: Run)
    requires UsableLimits(cfg) && n as real <= Gain(cfg, cfg.slidingWindowSeconds)
    ensures Runs(cfg, run) && Last(run).marks == seq(n, _ => Mark(0, 0)) && Last(run).passed == seq(n, _ => 0)
    ensures Crowded(Last(run), cfg, n, 0, 0) && Last(run).record.burst.Absent?
  {
    run := CrowdPasses(cfg, Run([], [START]), n, 0, 0);
  }

  lemma {:induction false} FullViewPasses(v: View, cfg: RateLimitConfig, now: Time)
    requires UsableLimits(cfg) && v.burst.None? && v.count as real <= Gain(cfg, cfg.slidingWindowSeconds)
    ensures Passes(v, cfg, now)
  {
    var s := cfg.slidingWindowSeconds as real;
    assert ObservedRate(v, cfg) * s == v.count as real;
    CancelSeconds(cfg.baseRequestsPerSecond, ObservedRate(v, cfg), s);
  }

  /** Every interleaving that is in order and within the delay passes at most burst + base * T calls in T seconds. */
  ghost predicate OverlapTokenBoundHolds(cfg: RateLimitConfig, delay: Time)
    requires UsableLimits(cfg)
  {
    forall run, first, end ::
      Runs(cfg, run) && Prompt(run.states[|run.steps|].marks, delay) && first <= end ==>
        CountBetween(run.states[|run.steps|].passed, first - 1, end) as real <= TokenLine(cfg, first, end)
  }

  lemma {:induction false} AllInside(times: seq<Time>, n: nat, first: Time, end: Time)
    requires n <= |times| && forall i :: 0 <= i < n ==> first <= times[i] <= end
    ensures CountUpTo(times, n, first - 1, end) == n
  {
    if n > 0 {
      AllInside(times, n - 1, first, end);
    }
  }

  /** The first evaluation of a key is not abusive and stores its own rate as the average. */
  lemma {:induction false} FirstEvaluation(cfg: RateLimitConfig)
    requires UsableLimits(cfg)
    ensures var r := Evaluate(NOTHING, Call("", "", cfg, 0)).record;
            && r.block.Absent? && r.abuse.Absent?
            && r.window == Held([0], cfg.eventRetentionSeconds)
            && r.stats == Held(1.0 / cfg.slidingWindowSeconds as real, cfg.eventRetentionSeconds)
  {
    var c := Call("", "", cfg, 0);
    assert After(WindowAt(NOTHING, 0), 0 - cfg.slidingWindowSeconds) + [0] == [0];
    var v := ViewAt(NOTHING, c);
    OneCallKeepsUp(NOTHING, c);
    assert v == View(1, None, None, None) && Refilled(None, cfg, 0) == cfg.burstCapacity && !Abusive(v, cfg, 0);
    assert AverageRate(v, cfg) == 1.0 / cfg.slidingWindowSeconds as real;
    hide Abusive, Refilled, AverageRate, TokensLeft, OverWindow, ObservedRate;
  }

  /**
   Without overlap, too, a configuration that changes between two evaluations can lead to traffic_spike: here the
   window shrinks to one second, and the old average counts the first call over the old window.
   */
  lemma {:induction false} ShorterWindowSpikes(cfg: RateLimitConfig)
    requires UsableLimits(cfg) && cfg.slidingWindowSeconds > 10
    requires cfg.baseRequestsPerSecond < 1.0 && cfg.repeatedAbuseThreshold >= 2
    ensures var r := Evaluate(NOTHING, Call("", "", cfg, 0)).record;
            Evaluate(r, Call("", "", cfg.(slidingWindowSeconds := 1), 0)).decision.reason == TrafficSpike
  {
    FirstEvaluation(cfg);
    hide FreshRecord;
    var r, c := Evaluate(NOTHING, Call("", "", cfg, 0)).record, Call("", "", cfg.(slidingWindowSeconds := 1), 0);
    assert WindowAt(r, 0) == [0];
    NothingToPrune([0], 1, -1);
    var v := ViewAt(r, c);
    assert v.count == 2 && v.average == Some(1.0 / cfg.slidingWindowSeconds as real);
    assert v.average.value <= 1.0 / 11.0 by { OneShare(cfg.slidingWindowSeconds as real); }
    assert Ceil(cfg.baseRequestsPerSecond) < 2;
    assert Spiking(v, c.cfg);
    hide Spiking, OverWindow, OverBurst, Refilled, After;
  }

  lemma {:induction false} OneShare(s: real)
    requires s >= 11.0
    ensures 1.0 / s <= 1.0 / 11.0
  {
  }

  /** k more overlapping reads after one complete evaluation. */
  lemma {:induction false} CrowdAfterFirst(cfg: RateLimitConfig, k: nat) returns (run: Run, v: View)
    requires UsableLimits(cfg)
    ensures Runs(cfg, run) && Crowded(Last(run), cfg, k + 1, 0, 0)
    ensures Last(run).record.stats == Held(1.0 / cfg.slidingWindowSeconds as real, cfg.eventRetentionSeconds)
    ensures Last(run).record.abuse.Absent?
    ensures k > 0 ==>
              && v.count == k + 1 && v.average == Some(1.0 / cfg.slidingWindowSeconds as real)
              && Last(run).evals != [] && Last(run).evals[|Last(run).evals| - 1] == InFlight(Call("", "", cfg, 0), Viewed(v))
  {
    hide Evaluate, Passes;
    if k == 0 {
      run := BackToBackIsEvaluate(cfg, Run([], [START]), Call("", "", cfg, 0));
      FirstEvaluation(cfg);
      v := View(0, None, None, None);
    } else {
      var shorter, _ := CrowdAfterFirst(cfg, k - 1);
      run, v := Crowd(cfg, shorter, k, 0, 0);
    }
  }

  lemma {:induction false} StrictCancel(x: real, y: real, s: real)
    requires s > 0.0 && x * s > y * s
    ensures x > y
  {
  }

  /** n reads over s seconds against an average that still holds one of them. */
  lemma {:induction false} SpikeArithmetic(n: real, s: real, previous: real, observed: real)
    requires s > 0.0 && n > 21.0 && previous * s == 1.0 && observed * s == n
    ensures observed > (previous * 0.7 + observed * 0.3) * 3.0
  {
    var average := previous * 0.7 + observed * 0.3;
    assert average * s == 0.7 * (previous * s) + 0.3 * (observed * s);
    assert (average * 3.0) * s == 3.0 * (average * s);
    StrictCancel(observed, average * 3.0, s);
  }

  lemma {:induction false} CrowdSpikes(v: View, cfg: RateLimitConfig)
    requires UsableLimits(cfg) && v.average == Some(1.0 / cfg.slidingWindowSeconds as real) && v.count > 21
    requires v.count as real > 2.0 * Gain(cfg, cfg.slidingWindowSeconds) && v.count > Ceil(cfg.baseRequestsPerSecond)
    ensures Spiking(v, cfg)
  {
    var s, observed, base := cfg.slidingWindowSeconds as real, ObservedRate(v, cfg), cfg.baseRequestsPerSecond;
    assert observed * s == v.count as real && v.average.value * s == 1.0;
    assert (base * 2.0) * s == 2.0 * Gain(cfg, cfg.slidingWindowSeconds);
    hide Gain, ObservedRate, Ceil;
    SpikeArithmetic(v.count as real, s, v.average.value, observed);
    StrictCancel(observed, base * 2.0, s);
  }

  /** Reads that all precede the next write grow the window but not the average. */
  lemma {:induction false} OverlapSpikes(cfg: RateLimitConfig) returns (run: Run, v: View)
    requires UsableLimits(cfg)
    ensures Runs(cfg, run) && Spiking(v, cfg)
    ensures Last(run).at == 0 && Last(run).record.abuse.Absent?
    ensures Last(run).evals != [] && Last(run).evals[|Last(run).evals| - 1] == InFlight(Call("", "", cfg, 0), Viewed(v))
  {
    var k := MaxInt(21, MaxInt(Ceil(2.0 * Gain(cfg, cfg.slidingWindowSeconds)), Ceil(cfg.baseRequestsPerSecond)));
    run, v := CrowdAfterFirst(cfg, k);
    CrowdSpikes(v, cfg);
  }

  /** Some evaluation of the state has been answered traffic_spike. */
  predicate SpikeAnswered(s: State) {
    exists i :: 0 <= i < |s.evals| && AnsweredWith(s.evals[i], TrafficSpike)
  }

  predicate AnsweredWith(e: InFlight, reason: Reason) {
    e.stage.Answered? && e.stage.decision.reason == reason
  }

  /** What the stages say about the abuse counter, and when the answer may be traffic_spike. */
  predicate CountsRaised(e: InFlight, cfg: RateLimitConfig) {
    && (e.stage.Raised? ==> e.stage.count >= 1)
    && (e.stage.Barred? ==> e.stage.count >= cfg.repeatedAbuseThreshold)
    && (AnsweredWith(e, TrafficSpike) ==> cfg.repeatedAbuseThreshold >= 2)
  }

  lemma {:induction false} StageKeepsCounts(cfg: RateLimitConfig, r: Record, e: InFlight, at: Time, command: Command)
    requires UsableLimits(cfg) && e.call.cfg == cfg && Ready(cfg, e.stage, e.call.now, command)
    requires CountsRaised(e, cfg)
    ensures CountsRaised(e.(stage := StageAfter(cfg, r, e, at, command)), cfg)
  {
    hide ObservedRate, AverageRate, Spiking, OverWindow, OverBurst, Ceil;
  }

  lemma {:induction false} RunKeepsCounts(cfg: RateLimitConfig, run: Run, n: nat, i: nat)
    requires UsableLimits(cfg) && Runs(cfg, run) && n <= |run.steps| && i < |run.states[n].evals|
    ensures CountsRaised(run.states[n].evals[i], cfg)
  {
    if n > 0 {
      hide StageAfter, RecordAfter, Ready, CountsRaised, Passes;
      assert StepAt(cfg, run, n - 1);
      var s, step := run.states[n - 1], run.steps[n - 1];
      if i < |s.evals| {
        RunKeepsCounts(cfg, run, n - 1, i);
        if step.Execute? && step.i == i {
          StageKeepsCounts(cfg, s.record, s.evals[i], step.at, step.command);
        }
      } else {
        EnteredIsRaisedByNone(step.call, cfg);
      }
    }
  }

  lemma {:induction false} EnteredIsRaisedByNone(c: Call, cfg: RateLimitConfig)
    ensures CountsRaised(InFlight(c, Entered), cfg)
  {
  }

  /** The spiking evaluation of the crowd raises the counter to one and, below the threshold, is answered. */
  lemma {:induction false} SpikeIsAnswered(cfg: RateLimitConfig) returns (run: Run)
    requires UsableLimits(cfg) && cfg.repeatedAbuseThreshold >= 2
    ensures Runs(cfg, run) && SpikeAnswered(Last(run))
  {
    hide ObservedRate, AverageRate, Spiking, OverWindow, OverBurst, Ceil;
    var v;
    run, v := OverlapSpikes(cfg);
    var i := |Last(run).evals| - 1;
    assert Abusive(v, cfg, 0);
    run := Then(cfg, run, Execute(i, 0, Raise));
    assert Last(run).evals[i].stage == Raised(v, 1);
    run := Then(cfg, run, Execute(i, 0, WriteSecond));
    assert AnsweredWith(Last(run).evals[i], TrafficSpike);
  }

  /**
   Overlapping evaluations can be answered traffic_spike, which uninterrupted ones never are, exactly when
   the threshold leaves room for an abusive call that is not blocked.
   */
  lemma {:induction false} OverlapAnswersTrafficSpike(cfg: RateLimitConfig)
    requires UsableLimits(cfg)
    ensures (exists run :: Runs(cfg, run) && SpikeAnswered(run.states[|run.steps|])) <==> cfg.repeatedAbuseThreshold >= 2
  {
    hide CountsRaised;
    if cfg.repeatedAbuseThreshold >= 2 {
      var run := SpikeIsAnswered(cfg);
      assert Last(run) == run.states[|run.steps|];
    } else {
      forall run | Runs(cfg, run) ensures !SpikeAnswered(run.states[|run.steps|]) {
        NoSpikeAnswered(cfg, run);
      }
    }
  }

  lemma {:induction false} NoSpikeAnswered(cfg: RateLimitConfig, run: Run)
    requires UsableLimits(cfg) && cfg.repeatedAbuseThreshold < 2 && Runs(cfg, run)
    ensures !SpikeAnswered(run.states[|run.steps|])
  {
    forall i | 0 <= i < |run.states[|run.steps|].evals|
      ensures !AnsweredWith(run.states[|run.steps|].evals[i], TrafficSpike)
    {
      RunKeepsCounts(cfg, run, |run.steps|, i);
    }
  }
}

/**
 Crowds of overlapping evaluations, one after the other. Each passes all that the window has room for, whatever
 the bucket holds, because none of them writes the bucket. A crowd can follow the one before it when the keys have
 expired or when the window has slid past it, and calls that reach the store late let the two take turns.
 */
module RedisCrowds {
  import opened Options
  import opened Histories
  import opened RateLimitTypes
  import opened RedisLimiter
  import opened RedisBounds
  import opened RedisInterleaving
  import opened RedisOverlap
  import opened RedisAdmission
  import RedisExactness

  /** A state that only crowds have led to, the last of them of calls made at now. */
  predicate Reached(s: State, delay: Time, now: Time) {
    && s.record.burst.Absent?
    && Prompt(s.marks, delay)
    && (forall i :: 0 <= i < |s.marks| ==> s.marks[i].score <= now)
    && (forall i :: 0 <= i < |s.passed| ==> 0 <= s.passed[i] <= now)
  }

  /** One more crowd, of calls made at now that reach the store at at. */
  lemma {:induction false} NextCrowd(cfg: RateLimitConfig, run: Run, delay: Time, before: Time, now: Time, at: Time)
    returns (longer: Run)
    requires UsableLimits(cfg) && Runs(cfg, run) && Reached(Last(run), delay, before)
    requires 0 <= before <= now <= at <= now + delay && Crowded(Last(run), cfg, 0, now, at)
    ensures Runs(cfg, longer) && Reached(Last(longer), delay, now) && Crowded(Last(longer), cfg, WindowRoom(cfg), now, at)
    ensures |Last(longer).passed| == |Last(run).passed| + WindowRoom(cfg)
  {
    var n := WindowRoom(cfg);
    hide WindowRoom, Gain, Crowded, StepAt;
    RoomIsWhole(cfg);
    longer := CrowdPasses(cfg, run, n, now, at);
  }

  lemma {:induction false} NothingYet(cfg: RateLimitConfig, delay: Time)
    requires UsableLimits(cfg)
    ensures Runs(cfg, Run([], [START])) && Reached(START, delay, 0) && Crowded(START, cfg, 0, 0, 0)
  {
  }

  lemma {:induction false} Expires(cfg: RateLimitConfig, s: State, k: nat, now: Time, at: Time, now': Time, at': Time)
    requires UsableLimits(cfg) && k > 0 && Crowded(s, cfg, k, now, at) && at' >= at + cfg.eventRetentionSeconds
    ensures Crowded(s, cfg, 0, now', at')
  {
  }

  // ---------------------------------------------------------------- the window bound

  /** Every interleaving that is in order and within the delay passes at most base * window calls in any window length. */
  ghost predicate OverlapWindowBoundHolds(cfg: RateLimitConfig, delay: Time)
    requires UsableLimits(cfg)
  {
    forall run, lo ::
      Runs(cfg, run) && Prompt(run.states[|run.steps|].marks, delay) ==>
        InWindow(run.states[|run.steps|].passed, cfg, lo) as real <= Gain(cfg, cfg.slidingWindowSeconds)
  }

  /** A second crowd arrives when the keys of the first have expired, with calls made delay seconds before. */
  lemma {:induction false} TwoCrowdsPass(cfg: RateLimitConfig, delay: Time) returns (run: Run)
    requires UsableLimits(cfg) && 0 <= delay && cfg.eventRetentionSeconds < cfg.slidingWindowSeconds + delay
    requires WindowRoom(cfg) > 0
    ensures Runs(cfg, run) && Prompt(Last(run).marks, delay) && |Last(run).passed| == 2 * WindowRoom(cfg)
    ensures forall i :: 0 <= i < |Last(run).passed| ==> 0 <= Last(run).passed[i] < cfg.slidingWindowSeconds
  {
    hide WindowRoom, Gain, StepAt, Crowded;
    var later := cfg.eventRetentionSeconds;
    var now := MaxInt(0, later - delay);
    NothingYet(cfg, delay);
    var first := NextCrowd(cfg, Run([], [START]), delay, 0, 0, 0);
    Expires(cfg, Last(first), WindowRoom(cfg), 0, 0, now, later);
    run := NextCrowd(cfg, first, delay, 0, now, later);
  }

  lemma {:induction false} NothingPasses(cfg: RateLimitConfig, run: Run, n: nat)
    requires UsableLimits(cfg) && Runs(cfg, run) && n <= |run.steps| && WindowRoom(cfg) == 0
    ensures run.states[n].passed == []
  {
    if n > 0 {
      hide Passes, Gain, After;
      NothingPasses(cfg, run, n - 1);
      assert StepAt(cfg, run, n - 1);
      var s, step := run.states[n - 1], run.steps[n - 1];
      if step.Execute? && step.command.ReadFirst? {
        var e := s.evals[step.i];
        var v := StageAfter(cfg, s.record, e, step.at, step.command).v;
        assert v.count >= 1;
        if Passes(v, cfg, e.call.now) {
          PassesFits(v, cfg, e.call.now);
          FitsInRoom(cfg, v.count);
        }
      }
    }
  }

  /**
   The window bound survives overlapping evaluations exactly when the retention covers the window and the
   delay, or the window has no room for a call.
   */
  lemma {:induction false} OverlapWindowBoundExactly(cfg: RateLimitConfig, delay: Time)
    requires UsableLimits(cfg) && delay >= 0
    ensures OverlapWindowBoundHolds(cfg, delay) <==>
            cfg.eventRetentionSeconds >= cfg.slidingWindowSeconds + delay || WindowRoom(cfg) == 0
  {
    hide StepAt, Prompt, Gain, WindowRoom;
    if cfg.eventRetentionSeconds >= cfg.slidingWindowSeconds + delay {
      forall run, lo | Runs(cfg, run) && Prompt(run.states[|run.steps|].marks, delay)
        ensures InWindow(run.states[|run.steps|].passed, cfg, lo) as real <= Gain(cfg, cfg.slidingWindowSeconds)
      {
        WindowBoundSurvivesInterleaving(cfg, run, lo, delay);
      }
    } else if WindowRoom(cfg) == 0 {
      forall run, lo | Runs(cfg, run)
        ensures InWindow(run.states[|run.steps|].passed, cfg, lo) as real <= Gain(cfg, cfg.slidingWindowSeconds)
      {
        NothingPasses(cfg, run, |run.steps|);
        RoomIsWhole(cfg);
      }
    } else {
      var run := TwoCrowdsPass(cfg, delay);
      var passed := run.states[|run.steps|].passed;
      assert passed == Last(run).passed;
      AllInside(passed, |passed|, 0, cfg.slidingWindowSeconds - 1);
      RoomIsWhole(cfg);
      assert InWindow(passed, cfg, -1) as real > Gain(cfg, cfg.slidingWindowSeconds);
    }
  }

  lemma {:induction false} RoomIsWhole(cfg: RateLimitConfig)
    requires UsableLimits(cfg)
    ensures WindowRoom(cfg) as real <= Gain(cfg, cfg.slidingWindowSeconds) < WindowRoom(cfg) as real + 1.0
  {
  }

  // ---------------------------------------------------------------- schedules of crowds

  /** When the calls of a crowd were made, and when they reached the store, in seconds since the first crowd. */
  datatype Place = Place(now: Time, at: Time)

  /** What lets the next crowd pass: the keys have expired, or the window has slid past the crowd before. */
  datatype Turn = Expire | Slide

  /** The earliest place of the next crowd: its calls are at most delay seconds late. */
  function NextPlace(cfg: RateLimitConfig, delay: Time, p: Place, turn: Turn): Place {
    match turn
    case Expire => Place(MaxInt(p.now, p.at + cfg.eventRetentionSeconds - delay), p.at + cfg.eventRetentionSeconds)
    case Slide => Place(p.now + cfg.slidingWindowSeconds, MaxInt(p.at, p.now + cfg.slidingWindowSeconds))
  }

  function LastPlace(cfg: RateLimitConfig, delay: Time, turns: seq<Turn>): (p: Place)
    requires UsableLimits(cfg) && delay >= 0
    ensures 0 <= p.now <= p.at <= p.now + delay
  {
    if turns == [] then Place(0, 0)
    else NextPlace(cfg, delay, LastPlace(cfg, delay, turns[..|turns| - 1]), turns[|turns| - 1])
  }

  /** No schedule of full crowds outgrows the line of the bucket. */
  ghost predicate CrowdsFitLine(cfg: RateLimitConfig, delay: Time)
    requires UsableLimits(cfg) && delay >= 0
  {
    forall turns: seq<Turn> ::
      Calls(cfg, |turns| + 1) <= cfg.burstCapacity + Gain(cfg, LastPlace(cfg, delay, turns).now)
  }

  /** How many calls some crowds pass. */
  function Calls(cfg: RateLimitConfig, crowds: nat): real
    requires UsableLimits(cfg)
  {
    crowds as real * WindowRoom(cfg) as real
  }

  lemma {:induction false} OneMoreCrowd(cfg: RateLimitConfig, crowds: nat)
    requires UsableLimits(cfg)
    ensures Calls(cfg, 0) == 0.0
    ensures Calls(cfg, crowds + 1) == Calls(cfg, crowds) + WindowRoom(cfg) as real
  {
  }

  /** Some run carries out a schedule. */
  lemma {:induction false} ScheduledCrowds(cfg: RateLimitConfig, delay: Time, turns: seq<Turn>) returns (run: Run)
    requires UsableLimits(cfg) && WindowRoom(cfg) > 0 && delay >= 0
    ensures var p := LastPlace(cfg, delay, turns);
            && Runs(cfg, run) && Reached(Last(run), delay, p.now)
            && Crowded(Last(run), cfg, WindowRoom(cfg), p.now, p.at)
            && |Last(run).passed| as real == Calls(cfg, |turns| + 1)
  {
    hide WindowRoom, Gain, StepAt, Reached, Crowded, Calls;
    OneMoreCrowd(cfg, |turns|);
    if turns == [] {
      NothingYet(cfg, delay);
      run := NextCrowd(cfg, Run([], [START]), delay, 0, 0, 0);
    } else {
      var n := |turns| - 1;
      var shorter := ScheduledCrowds(cfg, delay, turns[..n]);
      var before, p := LastPlace(cfg, delay, turns[..n]), LastPlace(cfg, delay, turns);
      if turns[n] == Expire {
        Expires(cfg, Last(shorter), WindowRoom(cfg), before.now, before.at, p.now, p.at);
      } else {
        SlidesPast(cfg, Last(shorter), WindowRoom(cfg), before.now, before.at, p.now, p.at);
      }
      run := NextCrowd(cfg, shorter, delay, before.now, p.now, p.at);
    }
  }

  lemma {:induction false} SlidesPast(cfg: RateLimitConfig, s: State, k: nat, now: Time, at: Time, now': Time, at': Time)
    requires k > 0 && Crowded(s, cfg, k, now, at) && at <= at' && now + cfg.slidingWindowSeconds <= now'
    ensures Crowded(s, cfg, 0, now', at')
  {
    var window := WindowAt(s.record, at');
    AfterNothing(window, |window|, now' - cfg.slidingWindowSeconds);
  }

  lemma {:induction false} ScheduleBreaksLine(cfg: RateLimitConfig, delay: Time, turns: seq<Turn>)
    requires UsableLimits(cfg) && delay >= 0
    requires Calls(cfg, |turns| + 1) > cfg.burstCapacity + Gain(cfg, LastPlace(cfg, delay, turns).now)
    ensures !OverlapTokenBoundHolds(cfg, delay)
  {
    var now := LastPlace(cfg, delay, turns).now;
    GainGrows(cfg, 0, now);
    hide Gain, WindowRoom, StepAt, Crowded;
    var run := ScheduledCrowds(cfg, delay, turns);
    var passed := run.states[|run.steps|].passed;
    assert passed == Last(run).passed;
    AllInside(passed, |passed|, 0, now);
    assert CountBetween(passed, 0 - 1, now) as real > TokenLine(cfg, 0, now);
  }

  // ---------------------------------------------------------------- schedules are the worst runs

  /**
   The calls that have passed at or after first are at most those of a schedule that is nowhere later than
   the mark a, and the newest |passed| - m, which the window has seen since a.
   */
  predicate Scheduled(s: State, cfg: RateLimitConfig, delay: Time, first: Time, turns: seq<Turn>, a: Mark, m: nat)
    requires UsableLimits(cfg) && delay >= 0 && s.marks != []
  {
    var last, p := s.marks[|s.marks| - 1], LastPlace(cfg, delay, turns);
    && s.record.window.Held?
    && first <= a.score <= last.score < a.score + cfg.slidingWindowSeconds && a.at <= last.at
    && p.now <= a.score - first && p.at <= a.at - first
    && m <= |s.passed|
    && Since(s.passed, first) as real <= Calls(cfg, |turns|) + (|s.passed| - m) as real
    && |s.passed| - m <= |After(s.record.window.value, a.score - 1)|
    && |s.passed| - m <= WindowRoom(cfg)
  }

  /** The window key dates from the last mark, and no call has passed after it. */
  predicate Dated(s: State, cfg: RateLimitConfig) {
    if s.marks == [] then s.record.window.Absent? && s.passed == []
    else
      var last := s.marks[|s.marks| - 1];
      && s.record.window.Held? && s.record.window.expires == last.at + cfg.eventRetentionSeconds
      && AllAtMost(s.passed, last.score)
  }

  /** Either nothing has passed at or after first, or there is a schedule. */
  ghost predicate HasSchedule(s: State, cfg: RateLimitConfig, delay: Time, first: Time)
    requires UsableLimits(cfg) && delay >= 0
  {
    if s.marks != [] && s.marks[|s.marks| - 1].score >= first then
      exists turns, a, m :: Scheduled(s, cfg, delay, first, turns, a, m)
    else Since(s.passed, first) == 0
  }

  /** The first transaction of a call made at now, as far as the window is concerned. */
  predicate ReadLeads(s: State, next: State, cfg: RateLimitConfig, now: Time, at: Time)
    requires UsableLimits(cfg)
  {
    && next.marks == s.marks + [Mark(now, at)]
    && next.record.window.Held? && next.record.window.expires == at + cfg.eventRetentionSeconds
    && (forall lo :: now - cfg.slidingWindowSeconds <= lo < now ==>
          |After(WindowAt(s.record, at), lo)| + 1 == |After(next.record.window.value, lo)| <= |next.record.window.value|)
    && (next.passed == s.passed ||
        (next.passed == s.passed + [now] && |next.record.window.value| <= WindowRoom(cfg)))
  }

  lemma {:induction false} ReadEffect(cfg: RateLimitConfig, s: State, i: nat, at: Time)
    requires UsableLimits(cfg) && Enabled(cfg, s, Execute(i, at, ReadFirst))
    ensures ReadLeads(s, Next(cfg, s, Execute(i, at, ReadFirst)), cfg, s.evals[i].call.now, at)
  {
    hide Passes, After, Gain, WindowRoom;
    var next := Next(cfg, s, Execute(i, at, ReadFirst));
    var now, v := s.evals[i].call.now, next.evals[i].stage.v;
    forall lo | now - cfg.slidingWindowSeconds <= lo < now
      ensures |After(WindowAt(s.record, at), lo)| + 1 == |After(next.record.window.value, lo)| <= |next.record.window.value|
    {
      KeptAfterCall(WindowAt(s.record, at), now, cfg.slidingWindowSeconds, lo);
      KeptIsShorter(next.record.window.value, lo);
    }
    if Passes(v, cfg, now) {
      PassesFits(v, cfg, now);
      FitsInRoom(cfg, v.count);
    }
  }

  /** A read that is neither after the keys have expired nor a window past the mark a. */
  lemma {:induction false} ReadStays(
    cfg: RateLimitConfig, s: State, next: State, now: Time, at: Time, delay: Time,
    first: Time, turns: seq<Turn>, a: Mark, m: nat)
    requires UsableLimits(cfg) && delay >= 0 && ReadLeads(s, next, cfg, now, at) && s.marks != []
    requires Dated(s, cfg) && Scheduled(s, cfg, delay, first, turns, a, m)
    requires s.marks[|s.marks| - 1].score <= now < a.score + cfg.slidingWindowSeconds
    requires s.marks[|s.marks| - 1].at <= at < s.record.window.expires
    ensures next.marks != [] && Scheduled(next, cfg, delay, first, turns, a, m)
  {
    hide After, Since, WindowRoom, Calls, LastPlace;
    assert WindowAt(s.record, at) == s.record.window.value;
    OneMoreSince(s.passed, now, first);
  }

  lemma {:induction false} OneMoreSince(past: seq<Time>, now: Time, first: Time)
    requires first <= now
    ensures Since(past + [now], first) == Since(past, first) + 1
  {
    AfterAppend(past, now, first - 1);
  }

  /** A read that may be the first of a new crowd. */
  lemma {:induction false} ReadTurns(
    cfg: RateLimitConfig, s: State, next: State, now: Time, at: Time, delay: Time, first: Time, turns: seq<Turn>)
    requires UsableLimits(cfg) && delay >= 0 && ReadLeads(s, next, cfg, now, at) && first <= now
    requires var p := LastPlace(cfg, delay, turns); p.now <= now - first && p.at <= at - first
    requires Since(s.passed, first) as real <= Calls(cfg, |turns|)
    ensures next.marks != [] && Scheduled(next, cfg, delay, first, turns, Mark(now, at), |s.passed|)
  {
    hide After, Since, WindowRoom, Calls, LastPlace;
    OneMoreSince(s.passed, now, first);
  }

  /** The schedule goes on when the keys have expired, and when the window has slid past the mark a. */
  lemma {:induction false} ScheduleGoesOn(
    cfg: RateLimitConfig, s: State, delay: Time, first: Time, turns: seq<Turn>, a: Mark, m: nat, now: Time, at: Time)
    returns (longer: seq<Turn>)
    requires UsableLimits(cfg) && delay >= 0 && s.marks != [] && Dated(s, cfg)
    requires Scheduled(s, cfg, delay, first, turns, a, m)
    requires s.marks[|s.marks| - 1].score <= now <= at <= now + delay && s.marks[|s.marks| - 1].at <= at
    requires at >= s.record.window.expires || now >= a.score + cfg.slidingWindowSeconds
    ensures var p := LastPlace(cfg, delay, longer); p.now <= now - first && p.at <= at - first
    ensures Since(s.passed, first) as real <= Calls(cfg, |longer|)
  {
    var turn := if at >= s.record.window.expires then Expire else Slide;
    longer := turns + [turn];
    assert longer[..|longer| - 1] == turns;
    hide After, Since, WindowRoom, Calls;
    OneMoreCrowd(cfg, |turns|);
  }

  lemma {:induction false} ReadKeepsSchedule(
    cfg: RateLimitConfig, s: State, next: State, now: Time, at: Time, delay: Time, first: Time)
    requires UsableLimits(cfg) && delay >= 0 && ReadLeads(s, next, cfg, now, at)
    requires Dated(s, cfg) && HasSchedule(s, cfg, delay, first) && Prompt(next.marks, delay)
    requires s.marks != [] ==> s.marks[|s.marks| - 1].at <= at
    ensures Dated(next, cfg) && HasSchedule(next, cfg, delay, first)
  {
    hide Scheduled, Since, After, Calls, LastPlace, WindowRoom;
    PromptMarks(s.marks, Mark(now, at), delay);
    if now < first {
      NoneSince(next.passed, first);
    } else if s.marks != [] && s.marks[|s.marks| - 1].score >= first {
      var turns, a, m :| Scheduled(s, cfg, delay, first, turns, a, m);
      if at < s.record.window.expires && now < a.score + cfg.slidingWindowSeconds {
        ReadStays(cfg, s, next, now, at, delay, first, turns, a, m);
      } else {
        var longer := ScheduleGoesOn(cfg, s, delay, first, turns, a, m, now, at);
        ReadTurns(cfg, s, next, now, at, delay, first, longer);
      }
    } else {
      OneMoreCrowd(cfg, 0);
      NoTurns(cfg, delay);
      ReadTurns(cfg, s, next, now, at, delay, first, []);
    }
  }

  lemma {:induction false} NoTurns(cfg: RateLimitConfig, delay: Time)
    requires UsableLimits(cfg) && delay >= 0
    ensures LastPlace(cfg, delay, []) == Place(0, 0) && Lead(cfg, delay, []) == 0.0
  {
    OneMoreCrowd(cfg, 0);
    FewSeconds(cfg);
  }

  lemma {:induction false} PromptMarks(marks: seq<Mark>, mark: Mark, delay: Time)
    requires Prompt(marks + [mark], delay)
    ensures Prompt(marks, delay) && mark.score <= mark.at <= mark.score + delay
    ensures marks != [] ==> marks[|marks| - 1].score <= mark.score
  {
    var all := marks + [mark];
    assert forall i :: 0 <= i < |marks| ==> all[i] == marks[i];
    assert all[|marks|] == mark;
  }

  lemma {:induction false} RunHasSchedule(cfg: RateLimitConfig, run: Run, n: nat, delay: Time, first: Time)
    requires UsableLimits(cfg) && delay >= 0 && Runs(cfg, run) && n <= |run.steps|
    requires Prompt(run.states[n].marks, delay)
    ensures var s := run.states[n];
            && Dated(s, cfg) && HasSchedule(s, cfg, delay, first)
            && (s.marks != [] ==> s.marks[|s.marks| - 1].at <= s.at)
  {
    hide Scheduled, Since, After, Passes;
    if n == 0 {
      NoneSince(run.states[0].passed, first);
    } else {
      assert StepAt(cfg, run, n - 1);
      var s, step := run.states[n - 1], run.steps[n - 1];
      if step.Execute? && step.command.ReadFirst? {
        PromptMarks(s.marks, Mark(s.evals[step.i].call.now, step.at), delay);
        RunHasSchedule(cfg, run, n - 1, delay, first);
        ReadEffect(cfg, s, step.i, step.at);
        ReadKeepsSchedule(cfg, s, run.states[n], s.evals[step.i].call.now, step.at, delay, first);
      } else {
        RunHasSchedule(cfg, run, n - 1, delay, first);
        OtherStep(cfg, s, step, delay, first);
      }
    }
  }

  lemma {:induction false} OtherStep(cfg: RateLimitConfig, s: State, step: Step, delay: Time, first: Time)
    requires UsableLimits(cfg) && delay >= 0 && Enabled(cfg, s, step) && !(step.Execute? && step.command.ReadFirst?)
    requires Dated(s, cfg) && HasSchedule(s, cfg, delay, first)
    ensures var next := Next(cfg, s, step);
            && next.marks == s.marks && next.passed == s.passed && next.record.window == s.record.window
            && Dated(next, cfg) && HasSchedule(next, cfg, delay, first)
  {
    hide Passes, After, LastPlace, Calls, Since, WindowRoom, TokensLeft, AverageRate;
    var next := Next(cfg, s, step);
    if s.marks != [] && s.marks[|s.marks| - 1].score >= first {
      var turns, a, m :| Scheduled(s, cfg, delay, first, turns, a, m);
      assert Scheduled(next, cfg, delay, first, turns, a, m);
    }
  }

  /** The calls that have passed by step n at first, ..., end. */
  lemma {:induction false} ScheduledBelowLine(cfg: RateLimitConfig, run: Run, n: nat, delay: Time, first: Time, end: Time)
    requires UsableLimits(cfg) && delay >= 0 && CrowdsFitLine(cfg, delay) && Runs(cfg, run) && n <= |run.steps|
    requires Prompt(run.states[n].marks, delay) && first <= end
    ensures CountBetween(run.states[n].passed, first - 1, end) as real <= TokenLine(cfg, first, end)
  {
    hide CrowdsFitLine, Gain, Scheduled, After, Passes, Since;
    GainGrows(cfg, 0, end - first);
    if n > 0 {
      var s, step, next := run.states[n - 1], run.steps[n - 1], run.states[n];
      assert StepAt(cfg, run, n - 1);
      if step.Execute? && step.command.ReadFirst? && s.evals[step.i].call.now <= end {
        RunHasSchedule(cfg, run, n, delay, first);
        CountIsSince(next.passed, first, end);
        if s.evals[step.i].call.now >= first {
          var turns, a, m :| Scheduled(next, cfg, delay, first, turns, a, m);
          ScheduleBelowLine(cfg, next, delay, first, end, turns, a, m);
        }
      } else {
        MarksGrow(cfg, run, n - 1, n);
        ScheduledBelowLine(cfg, run, n - 1, delay, first, end);
        if step.Execute? && step.command.ReadFirst? {
          CountAppend(s.passed, s.evals[step.i].call.now, first - 1, end);
        }
      }
    }
  }

  lemma {:induction false} ScheduleBelowLine(
    cfg: RateLimitConfig, s: State, delay: Time, first: Time, end: Time, turns: seq<Turn>, a: Mark, m: nat)
    requires UsableLimits(cfg) && delay >= 0 && CrowdsFitLine(cfg, delay) && s.marks != []
    requires Scheduled(s, cfg, delay, first, turns, a, m) && s.marks[|s.marks| - 1].score <= end
    ensures Since(s.passed, first) as real <= TokenLine(cfg, first, end)
  {
    hide Since, After, Gain, Calls, WindowRoom;
    OneMoreCrowd(cfg, |turns|);
    var p := LastPlace(cfg, delay, turns);
    assert Calls(cfg, |turns| + 1) <= cfg.burstCapacity + Gain(cfg, p.now);
    GainGrows(cfg, p.now, end - first);
  }

  /** For every configuration and delay, the token bound survives overlap exactly when no schedule of crowds outgrows it. */
  lemma {:induction false} OverlapTokenBoundExactly(cfg: RateLimitConfig, delay: Time)
    requires UsableLimits(cfg) && delay >= 0
    ensures OverlapTokenBoundHolds(cfg, delay) <==> CrowdsFitLine(cfg, delay)
  {
    if CrowdsFitLine(cfg, delay) {
      forall run, first, end |
        Runs(cfg, run) && Prompt(run.states[|run.steps|].marks, delay) && first <= end
        ensures CountBetween(run.states[|run.steps|].passed, first - 1, end) as real <= TokenLine(cfg, first, end)
      {
        ScheduledBelowLine(cfg, run, |run.steps|, delay, first, end);
      }
    } else {
      var turns: seq<Turn> :| Calls(cfg, |turns| + 1) > cfg.burstCapacity + Gain(cfg, LastPlace(cfg, delay, turns).now);
      ScheduleBreaksLine(cfg, delay, turns);
    }
  }

  // ---------------------------------------------------------------- closed forms

  /** What an expiry gains over the line: a window's calls, for the seconds that the delay leaves of the retention. */
  function Surplus(cfg: RateLimitConfig, delay: Time): real
    requires UsableLimits(cfg)
  {
    WindowRoom(cfg) as real - Gain(cfg, MaxInt(0, cfg.eventRetentionSeconds - delay))
  }

  /** Where an expiry gains nothing, no schedule gains. */
  lemma {:induction false} NothingGained(cfg: RateLimitConfig, delay: Time, turns: seq<Turn>)
    requires UsableLimits(cfg) && delay >= 0 && Surplus(cfg, delay) <= 0.0
    ensures Calls(cfg, |turns|) <= Gain(cfg, LastPlace(cfg, delay, turns).now)
  {
    hide WindowRoom, Gain, Calls;
    OneMoreCrowd(cfg, 0);
    FewSeconds(cfg);
    if turns != [] {
      var n := |turns| - 1;
      NothingGained(cfg, delay, turns[..n]);
      OneMoreCrowd(cfg, n);
      var before, p := LastPlace(cfg, delay, turns[..n]), LastPlace(cfg, delay, turns);
      RoomIsWhole(cfg);
      var seconds := if turns[n] == Slide then cfg.slidingWindowSeconds else MaxInt(0, cfg.eventRetentionSeconds - delay);
      GainGrows(cfg, before.now + seconds, p.now);
      GainAdds(cfg, before.now, seconds);
    }
  }

  lemma {:induction false} NothingGainedFits(cfg: RateLimitConfig, delay: Time)
    requires UsableLimits(cfg) && delay >= 0 && Surplus(cfg, delay) <= 0.0 && WindowRoom(cfg) as real <= cfg.burstCapacity
    ensures CrowdsFitLine(cfg, delay)
  {
    hide WindowRoom, Gain, Calls, Surplus, LastPlace;
    forall turns: seq<Turn>
      ensures Calls(cfg, |turns| + 1) <= cfg.burstCapacity + Gain(cfg, LastPlace(cfg, delay, turns).now)
    {
      NothingGained(cfg, delay, turns);
      OneMoreCrowd(cfg, |turns|);
    }
  }

  lemma {:induction false} OneCrowdFits(cfg: RateLimitConfig, delay: Time)
    requires UsableLimits(cfg) && delay >= 0 && CrowdsFitLine(cfg, delay)
    ensures WindowRoom(cfg) as real <= cfg.burstCapacity
  {
    hide WindowRoom, Gain, Calls;
    var turns: seq<Turn> := [];
    OneMoreCrowd(cfg, 0);
    FewSeconds(cfg);
    assert Calls(cfg, |turns| + 1) <= cfg.burstCapacity + Gain(cfg, LastPlace(cfg, delay, turns).now);
  }

  predicate WholeRoom(cfg: RateLimitConfig)
    requires UsableLimits(cfg)
  {
    WindowRoom(cfg) as real == Gain(cfg, cfg.slidingWindowSeconds)
  }

  /** By how many calls a schedule is ahead of the base rate before its last crowd. */
  function Lead(cfg: RateLimitConfig, delay: Time, turns: seq<Turn>): real
    requires UsableLimits(cfg) && delay >= 0
  {
    Calls(cfg, |turns|) - Gain(cfg, LastPlace(cfg, delay, turns).now)
  }

  lemma {:induction false} SlideKeepsLead(cfg: RateLimitConfig, delay: Time, turns: seq<Turn>) returns (longer: seq<Turn>)
    requires UsableLimits(cfg) && delay >= 0 && WholeRoom(cfg)
    ensures var before, p := LastPlace(cfg, delay, turns), LastPlace(cfg, delay, longer);
            p == NextPlace(cfg, delay, before, Slide) && Lead(cfg, delay, longer) == Lead(cfg, delay, turns)
  {
    hide WindowRoom, Gain, Calls;
    longer := turns + [Slide];
    assert longer[..|longer| - 1] == turns;
    OneMoreCrowd(cfg, |turns|);
    GainAdds(cfg, LastPlace(cfg, delay, turns).now, cfg.slidingWindowSeconds);
  }

  /** With a whole room, crowds one window apart cost nothing, until the calls reach the store at once. */
  lemma {:induction false} CatchUp(cfg: RateLimitConfig, delay: Time, turns: seq<Turn>) returns (longer: seq<Turn>)
    requires UsableLimits(cfg) && delay >= 0
    requires WholeRoom(cfg) || LastPlace(cfg, delay, turns).at == LastPlace(cfg, delay, turns).now
    ensures LastPlace(cfg, delay, longer).at == LastPlace(cfg, delay, longer).now
    ensures Lead(cfg, delay, longer) == Lead(cfg, delay, turns)
    decreases LastPlace(cfg, delay, turns).at - LastPlace(cfg, delay, turns).now
  {
    hide WholeRoom, Lead, LastPlace;
    if LastPlace(cfg, delay, turns).at == LastPlace(cfg, delay, turns).now {
      longer := turns;
    } else {
      var next := SlideKeepsLead(cfg, delay, turns);
      longer := CatchUp(cfg, delay, next);
    }
  }

  lemma {:induction false} ExpireAddsSurplus(cfg: RateLimitConfig, delay: Time, turns: seq<Turn>)
    returns (longer: seq<Turn>)
    requires UsableLimits(cfg) && delay >= 0 && LastPlace(cfg, delay, turns).at == LastPlace(cfg, delay, turns).now
    ensures delay == 0 ==> LastPlace(cfg, delay, longer).at == LastPlace(cfg, delay, longer).now
    ensures Lead(cfg, delay, longer) == Lead(cfg, delay, turns) + Surplus(cfg, delay)
  {
    hide WindowRoom, Gain, Calls;
    longer := turns + [Expire];
    assert longer[..|longer| - 1] == turns;
    OneMoreCrowd(cfg, |turns|);
    GainAdds(cfg, LastPlace(cfg, delay, turns).now, MaxInt(0, cfg.eventRetentionSeconds - delay));
  }

  /** k expiries, each as late as the delay permits and caught up with. */
  lemma {:induction false} Cycles(cfg: RateLimitConfig, delay: Time, k: nat) returns (turns: seq<Turn>)
    requires UsableLimits(cfg) && delay >= 0 && (WholeRoom(cfg) || delay == 0)
    ensures LastPlace(cfg, delay, turns).at == LastPlace(cfg, delay, turns).now
    ensures Lead(cfg, delay, turns) == k as real * Surplus(cfg, delay)
  {
    hide WholeRoom, LastPlace, Surplus, Lead;
    if k == 0 {
      turns := [];
      NoTurns(cfg, delay);
    } else {
      var shorter := Cycles(cfg, delay, k - 1);
      var next := ExpireAddsSurplus(cfg, delay, shorter);
      turns := CatchUp(cfg, delay, next);
      OneMoreCycle(k, Surplus(cfg, delay));
    }
  }

  lemma {:induction false} OneMoreCycle(k: int, gain: real)
    ensures k as real * gain == (k - 1) as real * gain + gain
  {
  }

  lemma {:induction false} SurplusOutgrows(cfg: RateLimitConfig, delay: Time)
    requires UsableLimits(cfg) && delay >= 0 && (WholeRoom(cfg) || delay == 0) && Surplus(cfg, delay) > 0.0
    ensures !CrowdsFitLine(cfg, delay)
  {
    hide WindowRoom, Gain, Calls, WholeRoom, Surplus, LastPlace;
    var k := RedisExactness.EnoughCycles(Surplus(cfg, delay), cfg.burstCapacity);
    var turns := Cycles(cfg, delay, k);
    OneMoreCrowd(cfg, |turns|);
    assert Lead(cfg, delay, turns) > cfg.burstCapacity;
    assert Calls(cfg, |turns| + 1) > cfg.burstCapacity + Gain(cfg, LastPlace(cfg, delay, turns).now);
  }

  /** A whole room is gained by an expiry exactly when the retention falls short of window and delay. */
  lemma {:induction false} SurplusSign(cfg: RateLimitConfig, delay: Time)
    requires UsableLimits(cfg) && delay >= 0
    ensures cfg.eventRetentionSeconds >= cfg.slidingWindowSeconds + delay ==> Surplus(cfg, delay) <= 0.0
    ensures WholeRoom(cfg) && cfg.eventRetentionSeconds < cfg.slidingWindowSeconds + delay ==> Surplus(cfg, delay) > 0.0
  {
    var left, size := MaxInt(0, cfg.eventRetentionSeconds - delay), cfg.slidingWindowSeconds;
    RoomIsWhole(cfg);
    if left >= size {
      GainGrows(cfg, size, left);
    } else {
      GainAdds(cfg, left, size - left);
      assert Gain(cfg, size - left) > 0.0;
    }
  }

  /**
   The condition in closed form: where the window has a whole number of calls as its room, where the retention covers
   window and delay, and where requests reach the store in the second they carry.
   */
  lemma {:induction false} CrowdsFitInClosedForm(cfg: RateLimitConfig, delay: Time)
    requires UsableLimits(cfg) && delay >= 0
    ensures var fits := WindowRoom(cfg) as real <= cfg.burstCapacity;
            && (WindowRoom(cfg) as real == Gain(cfg, cfg.slidingWindowSeconds) ==>
                  (CrowdsFitLine(cfg, delay) <==> cfg.eventRetentionSeconds >= cfg.slidingWindowSeconds + delay && fits))
            && (cfg.eventRetentionSeconds >= cfg.slidingWindowSeconds + delay ==> (CrowdsFitLine(cfg, delay) <==> fits))
            && (delay == 0 ==>
                  (CrowdsFitLine(cfg, delay) <==> fits && WindowRoom(cfg) as real <= Gain(cfg, cfg.eventRetentionSeconds)))
  {
    SurplusSign(cfg, delay);
    hide WindowRoom, Gain, CrowdsFitLine;
    if CrowdsFitLine(cfg, delay) {
      OneCrowdFits(cfg, delay);
    }
    if Surplus(cfg, delay) > 0.0 {
      if WholeRoom(cfg) || delay == 0 {
        SurplusOutgrows(cfg, delay);
      }
    } else if WindowRoom(cfg) as real <= cfg.burstCapacity {
      NothingGainedFits(cfg, delay);
    }
  }
}

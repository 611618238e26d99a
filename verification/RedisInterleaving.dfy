/**
 Many evaluations of one key in flight at once. The store executes one command or transaction at a
 time: the TTL check, the first transaction, the abuse increment, the block and the second
 transaction of different evaluations interleave in any order. The store's clock never runs back;
 each evaluation also carries the time its own process read when it began.
 */
module RedisInterleaving {
  import opened Options
  import opened Histories
  import opened RateLimitTypes
  import opened RedisLimiter
  import opened RedisBounds

  /** How far an evaluation has come. */
  datatype Stage =
    | Entered
    | Unblocked
    | Viewed(v: View)
    | Raised(v: View, count: nat)
    | Barred(v: View, count: nat)
    | Answered(decision: Decision)

  datatype InFlight = InFlight(call: Call, stage: Stage)

  /** One execution of the first transaction: the score it adds and the store's time. */
  datatype Mark = Mark(score: Time, at: Time)

  datatype State = State(record: Record, evals: seq<InFlight>, at: Time, marks: seq<Mark>, passed: seq<Time>)

  const START := State(NOTHING, [], 0, [], [])

  /** What the store executes for one evaluation. */
  datatype Command = CheckBlock | ReadFirst | Raise | Bar | WriteSecond

  datatype Step =
    | Enter(call: Call)
    | Execute(i: nat, at: Time, command: Command)

  predicate Ready(cfg: RateLimitConfig, stage: Stage, now: Time, command: Command)
    requires UsableLimits(cfg)
  {
    match command
    case CheckBlock => stage.Entered?
    case ReadFirst => stage.Unblocked?
    case Raise => stage.Viewed? && Abusive(stage.v, cfg, now)
    case Bar => stage.Raised? && stage.count >= cfg.repeatedAbuseThreshold
    case WriteSecond =>
      || (stage.Viewed? && !Abusive(stage.v, cfg, now))
      || (stage.Raised? && stage.count < cfg.repeatedAbuseThreshold)
      || stage.Barred?
  }

  predicate Enabled(cfg: RateLimitConfig, s: State, step: Step)
    requires UsableLimits(cfg)
  {
    match step
    case Enter(call) => call.cfg == cfg
    case Execute(i, at, command) =>
      && s.at <= at
      && i < |s.evals|
      && s.evals[i].call.cfg == cfg
      && Ready(cfg, s.evals[i].stage, s.evals[i].call.now, command)
  }

  function RecordAfter(cfg: RateLimitConfig, r: Record, e: InFlight, at: Time, command: Command): Record
    requires UsableLimits(cfg) && Ready(cfg, e.stage, e.call.now, command)
  {
    match command
    case CheckBlock => r
    case ReadFirst => Visited(r, cfg, at, e.call.now)
    case Raise => Escalated(r, cfg, at)
    case Bar => r.(block := Held((), at + cfg.blockSeconds))
    case WriteSecond =>
      Stored(r, cfg, at, e.call.now, TokensLeft(e.stage.v, cfg, e.call.now), AverageRate(e.stage.v, cfg))
  }

  /** The abuse count an evaluation answers with. */
  function CountOf(stage: Stage): nat
    requires stage.Viewed? || stage.Raised? || stage.Barred?
  {
    match stage
    case Viewed(v) => (match v.abuse case Some(n) => n case None => 0)
    case Raised(_, count) => count
    case Barred(_, count) => count
  }

  function StageAfter(cfg: RateLimitConfig, r: Record, e: InFlight, at: Time, command: Command): Stage
    requires UsableLimits(cfg) && e.call.cfg == cfg && Ready(cfg, e.stage, e.call.now, command)
  {
    match command
    case CheckBlock =>
      if Live(r.block, at).Some? then
        Answered(Allowing(cfg, e.call.user, e.call.identifier).(
          action := Block, reason := CooldownActive, retryAfter := r.block.expires - at))
      else Unblocked
    case ReadFirst => Viewed(ViewOf(Visited(r, cfg, at, e.call.now), at))
    case Raise => Raised(e.stage.v, AbuseCountOf(Escalated(r, cfg, at), at))
    case Bar => Barred(e.stage.v, e.stage.count)
    case WriteSecond => Answered(Verdict(e.stage.v, e.call, CountOf(e.stage)))
  }

  function Next(cfg: RateLimitConfig, s: State, step: Step): State
    requires UsableLimits(cfg) && Enabled(cfg, s, step)
  {
    match step
    case Enter(call) => s.(evals := s.evals + [InFlight(call, Entered)])
    case Execute(i, at, command) =>
      var e := s.evals[i];
      var stage := StageAfter(cfg, s.record, e, at, command);
      State(RecordAfter(cfg, s.record, e, at, command),
            s.evals[i := e.(stage := stage)],
            at,
            if command.ReadFirst? then s.marks + [Mark(e.call.now, at)] else s.marks,
            if command.ReadFirst? && Passes(stage.v, cfg, e.call.now) then s.passed + [e.call.now] else s.passed)
  }

  datatype Run = Run(steps: seq<Step>, states: seq<State>)

  ghost predicate StepAt(cfg: RateLimitConfig, run: Run, k: nat)
    requires UsableLimits(cfg) && |run.states| == |run.steps| + 1 && k < |run.steps|
  {
    Enabled(cfg, run.states[k], run.steps[k]) && run.states[k + 1] == Next(cfg, run.states[k], run.steps[k])
  }

  ghost predicate Runs(cfg: RateLimitConfig, run: Run)
    requires UsableLimits(cfg)
  {
    && |run.states| == |run.steps| + 1 && run.states[0] == START
    && forall k :: 0 <= k < |run.steps| ==> StepAt(cfg, run, k)
  }

  // ---------------------------------------------------------------- ranges

  predicate ViewInRange(v: View, cfg: RateLimitConfig) {
    && (v.burst.Some? ==> 0.0 <= v.burst.value.tokens <= cfg.burstCapacity)
    && (v.average.Some? ==> v.average.value >= 0.0)
  }

  predicate StageInRange(stage: Stage, cfg: RateLimitConfig) {
    stage.Viewed? || stage.Raised? || stage.Barred? ==> ViewInRange(stage.v, cfg)
  }

  predicate RecordInRange(r: Record, cfg: RateLimitConfig) {
    && (r.burst.Held? ==> 0.0 <= r.burst.value.tokens <= cfg.burstCapacity)
    && (r.stats.Held? ==> r.stats.value >= 0.0)
  }

  predicate InRange(s: State, cfg: RateLimitConfig) {
    RecordInRange(s.record, cfg) && forall i :: 0 <= i < |s.evals| ==> StageInRange(s.evals[i].stage, cfg)
  }

  lemma {:induction false} WriteIsInRange(v: View, cfg: RateLimitConfig, now: Time)
    requires UsableLimits(cfg) && ViewInRange(v, cfg)
    ensures 0.0 <= TokensLeft(v, cfg, now) <= cfg.burstCapacity && AverageRate(v, cfg) >= 0.0
  {
    RefilledInRange(v.burst, cfg, now);
    assert ObservedRate(v, cfg) >= 0.0;
  }

  lemma {:induction false} StepKeepsRange(cfg: RateLimitConfig, s: State, step: Step)
    requires UsableLimits(cfg) && InRange(s, cfg) && Enabled(cfg, s, step)
    ensures InRange(Next(cfg, s, step), cfg)
  {
    hide Abusive, Passes, TokensLeft, AverageRate, Verdict, After;
    if step.Execute? && step.command.WriteSecond? {
      WriteIsInRange(s.evals[step.i].stage.v, cfg, s.evals[step.i].call.now);
    }
  }

  /**
   However evaluations interleave, and although their writes can overwrite each other, the stored tokens
   stay between 0 and the burst capacity and the stored average is never negative.
   */
  lemma {:induction false} RangesSurviveInterleaving(cfg: RateLimitConfig, run: Run, n: nat)
    requires UsableLimits(cfg) && Runs(cfg, run) && n <= |run.steps|
    ensures InRange(run.states[n], cfg)
  {
    if n > 0 {
      RangesSurviveInterleaving(cfg, run, n - 1);
      assert StepAt(cfg, run, n - 1);
      StepKeepsRange(cfg, run.states[n - 1], run.steps[n - 1]);
    }
  }

  // ---------------------------------------------------------------- the window bound

  /** Requests reach the store in the order of the times they carry, and at most delay seconds after them. */
  predicate Prompt(marks: seq<Mark>, delay: Time) {
    && (forall i :: 0 <= i < |marks| ==> marks[i].score <= marks[i].at <= marks[i].score + delay)
    && (forall i, j :: 0 <= i < j < |marks| ==> marks[i].score <= marks[j].score)
  }

  lemma {:induction false} MarksGrow(cfg: RateLimitConfig, run: Run, m: nat, n: nat)
    requires UsableLimits(cfg) && Runs(cfg, run) && m <= n <= |run.steps|
    ensures run.states[m].marks <= run.states[n].marks
  {
    if m < n {
      MarksGrow(cfg, run, m, n - 1);
      assert StepAt(cfg, run, n - 1);
    }
  }

  /** The window key says of the last mark when it was written, and still holds the span's passed calls. */
  predicate WindowAccounts(s: State, cfg: RateLimitConfig, lo: Time) {
    var passed := InWindow(s.passed, cfg, lo);
    && passed as real <= Gain(cfg, cfg.slidingWindowSeconds)
    && if s.marks == [] then s.record.window.Absent? && s.passed == []
       else
         var last := s.marks[|s.marks| - 1];
         && s.record.window.Held? && s.record.window.expires == last.at + cfg.eventRetentionSeconds
         && AllAtMost(s.passed, last.score)
         && (last.score <= lo + cfg.slidingWindowSeconds ==> passed <= |After(s.record.window.value, lo)|)
  }

  /** A passing call leaves a window that is not over its limit. */
  lemma {:induction false} PassesFits(v: View, cfg: RateLimitConfig, now: Time)
    requires UsableLimits(cfg) && Passes(v, cfg, now)
    ensures v.count as real <= Gain(cfg, cfg.slidingWindowSeconds)
  {
    assert ObservedRate(v, cfg) * cfg.slidingWindowSeconds as real == v.count as real;
  }

  lemma {:induction false} ReadAccounts(cfg: RateLimitConfig, s: State, i: nat, at: Time, lo: Time, delay: Time)
    requires UsableLimits(cfg) && WindowAccounts(s, cfg, lo) && Enabled(cfg, s, Execute(i, at, ReadFirst))
    requires var next := Next(cfg, s, Execute(i, at, ReadFirst)); Prompt(next.marks, delay)
    requires delay >= 0 && cfg.eventRetentionSeconds >= cfg.slidingWindowSeconds + delay
    ensures WindowAccounts(Next(cfg, s, Execute(i, at, ReadFirst)), cfg, lo)
  {
    hide Passes, After, Gain;
    var next := Next(cfg, s, Execute(i, at, ReadFirst));
    var now, size := s.evals[i].call.now, cfg.slidingWindowSeconds;
    var mark := next.marks[|next.marks| - 1];
    assert mark == Mark(now, at);
    var v := next.evals[i].stage.v;
    KeptIsShorter(next.record.window.value, lo);
    CountAppend(s.passed, now, lo, lo + size);
    if Passes(v, cfg, now) {
      PassesFits(v, cfg, now);
    }
    if s.marks != [] {
      var last := s.marks[|s.marks| - 1];
      assert next.marks[|s.marks| - 1] == last;
      if at >= s.record.window.expires && now <= lo + size {
        CountNothing(s.passed, |s.passed|, lo, lo + size);
      }
    }
    if now <= lo + size {
      KeptAfterCall(WindowAt(s.record, at), now, size, lo);
    }
  }

  lemma {:induction false} RunAccounts(cfg: RateLimitConfig, run: Run, n: nat, lo: Time, delay: Time)
    requires UsableLimits(cfg) && Runs(cfg, run) && n <= |run.steps| && Prompt(run.states[n].marks, delay)
    requires delay >= 0 && cfg.eventRetentionSeconds >= cfg.slidingWindowSeconds + delay
    ensures WindowAccounts(run.states[n], cfg, lo)
  {
    if n == 0 {
      GainGrows(cfg, 0, cfg.slidingWindowSeconds);
    } else {
      hide Passes, After, Gain;
      MarksGrow(cfg, run, n - 1, n);
      RunAccounts(cfg, run, n - 1, lo, delay);
      assert StepAt(cfg, run, n - 1);
      var step := run.steps[n - 1];
      if step.Execute? && step.command.ReadFirst? {
        ReadAccounts(cfg, run.states[n - 1], step.i, step.at, lo, delay);
      }
    }
  }

  /**
   The window bound needs no exclusion: adding a request and counting the window are one transaction.
   When requests reach the store in order and within a delay the retention covers, at most base * window
   of them pass in any window length, whatever else interleaves.
   */
  lemma {:induction false} WindowBoundSurvivesInterleaving(cfg: RateLimitConfig, run: Run, lo: Time, delay: Time)
    requires UsableLimits(cfg) && Runs(cfg, run) && Prompt(run.states[|run.steps|].marks, delay)
    requires delay >= 0 && cfg.eventRetentionSeconds >= cfg.slidingWindowSeconds + delay
    ensures InWindow(run.states[|run.steps|].passed, cfg, lo) as real <= Gain(cfg, cfg.slidingWindowSeconds)
  {
    RunAccounts(cfg, run, |run.steps|, lo, delay);
  }
}

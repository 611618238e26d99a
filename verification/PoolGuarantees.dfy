/** What every run of the pool guarantees, over all interleavings that PoolRuns allows. */
module PoolGuarantees {
  import opened Options
  import opened PoolModel
  import opened PoolRuns
  import PoolSelection

  // ---------------------------------------------------------------- the breaker

  /**
   In every reachable state the counters of an entry are the ones its finish calls determine, and a
   reader at any later time sees the breaker state that history alone calls for, although the stored
   state is advanced lazily in two different methods.
   */
  lemma {:induction false} BreakerRefinesHistory(states: seq<System>, steps: seq<Step>, k: nat, i: nat, now: Time)
    requires RunFromStart(states, steps) && k < |states|
    requires i < |states[k].pool.backends| && states[k].clock <= now
    ensures var e := states[k].pool.backends[i];
            && e.address in states[k].history
            && var h := states[k].history[e.address];
            && e.consecutiveErr == TrailingFailures(h)
            && e.openedUntil == Deadline(h)
            && ReportedState(e, now) == StateFromHistory(h, now)
  {
    RunSatisfiesInv(states, steps, k);
    var e := states[k].pool.backends[i];
    ReportedStateIsHistory(e, states[k].history[e.address], states[k].clock, now);
  }

  // ---------------------------------------------------------------- the half-open probe

  /** A held probe belongs to a half-open backend and to a request that will still report to it. */
  lemma {:induction false} ProbeIsNeverLost(states: seq<System>, steps: seq<Step>, k: nat, i: nat)
    requires RunFromStart(states, steps) && k < |states| && i < |states[k].pool.backends|
    requires states[k].pool.backends[i].halfOpenInFlight
    ensures states[k].pool.backends[i].breaker == HalfOpen
    ensures HasLiveTicket(states[k].tickets, states[k].pool.backends[i].address)
  {
    RunSatisfiesInv(states, steps, k);
  }

  /** Once all requests have reported, only an unexpired cooldown can keep a backend in service from traffic. */
  lemma {:induction false} QuietPoolIsAvailable(states: seq<System>, steps: seq<Step>, k: nat, i: nat, now: Time)
    requires RunFromStart(states, steps) && k < |states| && i < |states[k].pool.backends|
    requires states[k].clock <= now && forall t :: 0 <= t < |states[k].tickets| ==> !Live(states[k].tickets[t])
    ensures var e := states[k].pool.backends[i];
            && e.address in states[k].history
            && (Available(e, now) <==> InService(e) && !Before(now, Deadline(states[k].history[e.address])))
  {
    RunSatisfiesInv(states, steps, k);
    var e := states[k].pool.backends[i];
    var h := states[k].history[e.address];
    ReportedStateIsHistory(e, h, states[k].clock, now);
    assert !e.halfOpenInFlight;
  }

  predicate ProbeAt(p: Pool, i: nat, address: string) {
    && i < |p.backends|
    && p.backends[i].address == address
    && p.backends[i].breaker == HalfOpen
    && p.backends[i].halfOpenInFlight
  }

  /** The backend's probe is handed out. */
  ghost predicate ProbeOut(p: Pool, address: string) {
    exists i :: ProbeAt(p, i, address)
  }

  /** The steps that end a probe: a report, a failed health check, or removal by a reload. */
  predicate EndsProbe(s: System, step: Step, address: string) {
    match step
    case ReportFinish(t, _) => t < |s.tickets| && s.tickets[t].address == address
    case HealthCheck(a, ok) => a == address && !ok
    case Reload(addresses) => address !in addresses
    case _ => false
  }

  predicate PicksAddress(s: System, step: Step, address: string) {
    step.Pick? && WellFormed(s.pool) && PickedAddress(s.pool, step.allowed, step.now) == Some(address)
  }

  lemma {:induction false} ProbeBlocksPicks(p: Pool, allowed: Allowed, now: Time, i: nat, address: string)
    requires WellFormed(p) && UniqueAddresses(p.backends) && ProbeAt(p, i, address)
    ensures PickedAddress(p, allowed, now) != Some(address)
  {
    PoolSelection.NextForPicksNearMinimum(p, allowed, now);
    assert !Eligible(p.backends[i], allowed, now);
  }

  lemma {:induction false} PickKeepsProbe(p: Pool, allowed: Allowed, now: Time, i: nat, address: string)
    requires WellFormed(p) && ProbeAt(p, i, address)
    ensures ProbeAt(NextFor(p, allowed, now).pool, i, address)
  {
    hide NextFor;
    NextForEffect(p, allowed, now);
  }

  lemma {:induction false} ReloadKeepsProbe(p: Pool, addresses: seq<string>, i: nat, address: string, k: nat)
    requires WellFormed(p) && UniqueAddresses(p.backends) && ProbeAt(p, i, address)
    requires k < |addresses| && addresses[k] == address
    ensures ProbeAt(Reconfigure(p, addresses), k, address)
  {
  }

  /** Reports for other addresses, passed health checks, admin actions and readers leave a probe alone. */
  lemma {:induction false} OtherOpKeepsProbe(p: Pool, op: PoolOp, i: nat, address: string)
    requires WellFormed(p) && OpEnabled(p, op) && ProbeAt(p, i, address)
    requires !op.OpNext? && !op.OpReload?
    requires op.OpFinish? ==> op.address != address
    requires op.OpHealth? ==> op.address != address || op.ok
    ensures ProbeAt(Apply(p, op).0, i, address)
  {
  }

  lemma {:induction false} ProbeStaysOut(s: System, step: Step, address: string)
    requires Inv(s) && Enabled(s, step) && ProbeOut(s.pool, address) && !EndsProbe(s, step, address)
    ensures ProbeOut(Next(s, step).pool, address)
  {
    hide NextFor, Reconfigure, HistoryKept, ProbesHeld, BooksBalance;
    var i :| ProbeAt(s.pool, i, address);
    if step.Pick? {
      PickKeepsProbe(s.pool, step.allowed, step.now, i, address);
    } else if step.Reload? {
      var k :| 0 <= k < |step.addresses| && step.addresses[k] == address;
      ReloadKeepsProbe(s.pool, step.addresses, i, address, k);
    } else {
      OtherOpKeepsProbe(s.pool, OpOf(s, step), i, address);
    }
  }

  lemma {:induction false} ProbeOutUntil(states: seq<System>, steps: seq<Step>, i: nat, j: nat, address: string)
    requires RunFromStart(states, steps) && i <= j <= |steps| && ProbeOut(states[i].pool, address)
    requires forall m :: i <= m < j ==> !EndsProbe(states[m], steps[m], address)
    ensures ProbeOut(states[j].pool, address)
    decreases j
  {
    hide Next, EndsProbe, ProbeOut, UniqueAddresses, HistoryKept, ProbesHeld, BooksBalance;
    if i < j {
      ProbeOutUntil(states, steps, i, j - 1, address);
      RunSatisfiesInv(states, steps, j - 1);
      assert StepAt(states, steps, j - 1);
      ProbeStaysOut(states[j - 1], steps[j - 1], address);
    }
  }

  /**
   From the moment a half-open backend is handed out until a report for it, a failed health check
   of it or its removal, no request is sent to it.
   */
  lemma {:induction false} ProbesAreExclusive(states: seq<System>, steps: seq<Step>, i: nat, j: nat, address: string)
    requires RunFromStart(states, steps) && i < j < |steps|
    requires PicksAddress(states[i], steps[i], address) && ProbeOut(states[i + 1].pool, address)
    requires forall m :: i < m < j ==> !EndsProbe(states[m], steps[m], address)
    ensures !PicksAddress(states[j], steps[j], address)
  {
    hide NextFor;
    ProbeOutUntil(states, steps, i + 1, j, address);
    RunSatisfiesInv(states, steps, j);
    if steps[j].Pick? {
      var x :| ProbeAt(states[j].pool, x, address);
      ProbeBlocksPicks(states[j].pool, steps[j].allowed, steps[j].now, x, address);
    }
  }

  lemma {:induction false} PickTakesProbe(p: Pool, allowed: Allowed, now: Time, address: string)
    requires WellFormed(p) && UniqueAddresses(p.backends) && PickedAddress(p, allowed, now) == Some(address)
    requires forall i :: 0 <= i < |p.backends| && p.backends[i].halfOpenInFlight ==> p.backends[i].breaker == HalfOpen
    ensures var c := NextFor(p, allowed, now).chosen.value;
            p.backends[c].address == address
            && (ReportedState(p.backends[c], now) == HalfOpen <==> ProbeOut(NextFor(p, allowed, now).pool, address))
  {
    hide NextFor, ScoreAt;
    var c := NextFor(p, allowed, now).chosen.value;
    var q := NextFor(p, allowed, now).pool;
    PoolSelection.NextForPicksNearMinimum(p, allowed, now);
    NextForEffect(p, allowed, now);
    if ReportedState(p.backends[c], now) == HalfOpen {
      assert ProbeAt(q, c, address);
    }
  }

  /** A pick takes the probe exactly when the history puts the backend past its cooldown. */
  lemma {:induction false} HalfOpenPickTakesProbe(states: seq<System>, steps: seq<Step>, i: nat, address: string)
    requires RunFromStart(states, steps) && i < |steps| && PicksAddress(states[i], steps[i], address)
    ensures address in states[i].history
    ensures StateFromHistory(states[i].history[address], steps[i].now) == HalfOpen <==> ProbeOut(states[i + 1].pool, address)
  {
    RunSatisfiesInv(states, steps, i);
    assert StepAt(states, steps, i);
    var s, step := states[i], steps[i];
    PickTakesProbe(s.pool, step.allowed, step.now, address);
    var e := s.pool.backends[NextFor(s.pool, step.allowed, step.now).chosen.value];
    ReportedStateIsHistory(e, s.history[address], s.clock, step.now);
  }

  /** What the three failures behind a half-open state weigh in its score, after the half-open bonus. */
  lemma {:induction false} HalfOpenScore(e: Entry, s: Stats, now: Time)
    requires ReportedState(e, now) == HalfOpen && e.consecutiveErr >= BREAKER_FAILURE_THRESHOLD && s.active >= 0
    ensures AdjustedScore(e, s, now) >= AverageLatencyMs(s) + 350.0
  {
    assert s.active as real / EffectiveWeight(e) as real >= 0.0;
  }

  lemma {:induction false} ProbeCost(p: Pool, allowed: Allowed, now: Time, c: nat, j: nat)
    requires WellFormed(p) && NextFor(p, allowed, now).chosen == Some(c)
    requires ReportedState(p.backends[c], now) == HalfOpen
    requires p.backends[c].consecutiveErr >= BREAKER_FAILURE_THRESHOLD && p.store[p.backends[c].statsId].active >= 0
    requires j < |p.backends| && Eligible(p.backends[j], allowed, now)
    ensures ScoreAt(p, j, now) >= AverageLatencyMs(p.store[p.backends[c].statsId]) + 350.0 - SCORE_TOLERANCE
  {
    hide NextFor, AdjustedScore, AverageLatencyMs;
    PoolSelection.NextForPicksNearMinimum(p, allowed, now);
    HalfOpenScore(p.backends[c], p.store[p.backends[c].statsId], now);
  }

  /** In every reachable state a backend past its cooldown carries at least three failures and no negative load. */
  lemma {:induction false} HalfOpenCarriesFailures(states: seq<System>, steps: seq<Step>, k: nat, c: nat, now: Time)
    requires RunFromStart(states, steps) && k < |states| && WellFormed(states[k].pool)
    requires c < |states[k].pool.backends| && states[k].clock <= now
    requires ReportedState(states[k].pool.backends[c], now) == HalfOpen
    ensures states[k].pool.backends[c].consecutiveErr >= BREAKER_FAILURE_THRESHOLD
    ensures states[k].pool.store[states[k].pool.backends[c].statsId].active >= 0
  {
    RunSatisfiesInv(states, steps, k);
    var e := states[k].pool.backends[c];
    ReportedStateIsHistory(e, states[k].history[e.address], states[k].clock, now);
  }

  /**
   The bonus of 250 does not outweigh the three failures, 200 each, that every half-open backend of a run
   still carries: it gets its probe only when each eligible backend scores at least 350, less the tolerance of
   0.001, above its average latency, so not while one idle, faultless backend answers within that many
   milliseconds more.
   */
  lemma {:induction false} ProbeWaitsForLoad(states: seq<System>, steps: seq<Step>, i: nat, c: nat, j: nat)
    requires RunFromStart(states, steps) && i < |steps| && steps[i].Pick?
    requires WellFormed(states[i].pool)
    requires NextFor(states[i].pool, steps[i].allowed, steps[i].now).chosen == Some(c)
    requires ReportedState(states[i].pool.backends[c], steps[i].now) == HalfOpen
    requires j < |states[i].pool.backends| && Eligible(states[i].pool.backends[j], steps[i].allowed, steps[i].now)
    ensures var p, now := states[i].pool, steps[i].now;
            var e, f := p.backends[c], p.backends[j];
            var needed := AverageLatencyMs(p.store[e.statsId]) + 350.0 - SCORE_TOLERANCE;
            && ScoreAt(p, j, now) >= needed
            && (ReportedState(f, now) == Closed && f.consecutiveErr == 0 && p.store[f.statsId].active == 0 ==>
                  AverageLatencyMs(p.store[f.statsId]) >= needed)
  {
    hide NextFor, Next, Eligible, AverageLatencyMs;
    assert StepAt(states, steps, i);
    HalfOpenCarriesFailures(states, steps, i, c, steps[i].now);
    ProbeCost(states[i].pool, steps[i].allowed, steps[i].now, c, j);
  }

  /**
   When a half-open backend of a run is in the rotation: exactly when its load and latency, and 200 for each of the
   failures at the end of its history, less 250, come within the tolerance of the score of every eligible backend.
   */
  lemma {:induction false} HalfOpenRotation(
    states: seq<System>, steps: seq<Step>, k: nat, c: nat, allowed: Allowed, now: Time)
    requires RunFromStart(states, steps) && k < |states| && states[k].clock <= now
    requires c < |states[k].pool.backends| && ReportedState(states[k].pool.backends[c], now) == HalfOpen
    requires Eligible(states[k].pool.backends[c], allowed, now)
    ensures WellFormed(states[k].pool) && states[k].pool.backends[c].address in states[k].history
    ensures var p, e := states[k].pool, states[k].pool.backends[c];
            var failures := TrailingFailures(states[k].history[e.address]);
            var load := ActiveAt(p, c) as real / EffectiveWeight(e) as real * 1000.0;
            && failures >= BREAKER_FAILURE_THRESHOLD
            && (PoolSelection.InRotation(p, allowed, now, c) <==>
                forall j :: 0 <= j < |p.backends| && Eligible(p.backends[j], allowed, now) ==>
                  load + AverageLatencyMs(p.store[e.statsId]) + 200.0 * failures as real - 250.0 <=
                  ScoreAt(p, j, now) + SCORE_TOLERANCE)
  {
    RunSatisfiesInv(states, steps, k);
    var p, e := states[k].pool, states[k].pool.backends[c];
    ReportedStateIsHistory(e, states[k].history[e.address], states[k].clock, now);
    HalfOpenCarriesFailures(states, steps, k, c, now);
    PoolSelection.RotationMembers(p, allowed, now, c);
    hide Eligible, AverageLatencyMs, Inv;
    assert ScoreAt(p, c, now) ==
           ActiveAt(p, c) as real / EffectiveWeight(e) as real * 1000.0 + AverageLatencyMs(p.store[e.statsId])
           + 200.0 * e.consecutiveErr as real - 250.0;
  }
}

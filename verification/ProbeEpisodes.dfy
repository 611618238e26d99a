/**
 How many requests to a half-open backend are outstanding while its probe is. The flag keeps new ones away,
 but does not see those dispatched before the breaker opened.
 */
module ProbeEpisodes {
  import opened Options
  import opened PoolModel
  import opened PoolRuns
  import opened PoolGuarantees
  import PoolSelection

  /** How many of the first n requests are for the address and still owe a report. */
  function LiveFor(tickets: seq<Ticket>, n: nat, address: string): nat
    requires n <= |tickets|
  {
    if n == 0 then 0
    else LiveFor(tickets, n - 1, address) + if tickets[n - 1].address == address && Live(tickets[n - 1]) then 1 else 0
  }

  function Outstanding(s: System, address: string): nat {
    LiveFor(s.tickets, |s.tickets|, address)
  }

  lemma {:induction false} LiveForSame(before: seq<Ticket>, after: seq<Ticket>, n: nat, address: string)
    requires n <= |before| && n <= |after|
    requires forall k :: 0 <= k < n ==> after[k].address == before[k].address && Live(after[k]) == Live(before[k])
    ensures LiveFor(after, n, address) == LiveFor(before, n, address)
  {
    if n > 0 {
      LiveForSame(before, after, n - 1, address);
    }
  }

  /** Requests for other addresses do not count. */
  lemma {:induction false} LiveForOther(before: seq<Ticket>, after: seq<Ticket>, n: nat, t: nat, address: string)
    requires n <= |before| == |after| && t < |before|
    requires after[t].address == before[t].address != address
    requires forall k :: 0 <= k < |before| && k != t ==> after[k] == before[k]
    ensures LiveFor(after, n, address) == LiveFor(before, n, address)
  {
    if n > 0 {
      LiveForOther(before, after, n - 1, t, address);
    }
  }

  lemma {:induction false} AppendLive(tickets: seq<Ticket>, t: Ticket, address: string)
    ensures LiveFor(tickets + [t], |tickets| + 1, address) ==
            LiveFor(tickets, |tickets|, address) + if t.address == address && Live(t) then 1 else 0
  {
    LiveForSame(tickets, tickets + [t], |tickets|, address);
  }

  /** A present backend takes the start of a request, so the request stays outstanding. */
  lemma {:induction false} ProbeTakesStart(p: Pool, i: nat, address: string)
    requires ProbeAt(p, i, address)
    ensures StartTarget(p, address).Some?
  {
  }

  /** While the probe is out and no step ends it, the number of outstanding requests does not move. */
  lemma {:induction false} EpisodeStep(s: System, step: Step, address: string)
    requires Inv(s) && Enabled(s, step) && ProbeOut(s.pool, address) && !EndsProbe(s, step, address)
    ensures Outstanding(Next(s, step), address) == Outstanding(s, address)
  {
    hide NextFor, Apply, HistoryKept, ProbesHeld, BooksBalance;
    var i :| ProbeAt(s.pool, i, address);
    var s' := Next(s, step);
    match step
    case Pick(allowed, now) =>
      ProbeBlocksPicks(s.pool, allowed, now, i, address);
      var a := PickedAddress(s.pool, allowed, now);
      if a.Some? {
        AppendLive(s.tickets, Ticket(a.value, Chosen), address);
      }
    case Start(t) =>
      ProbeTakesStart(s.pool, i, address);
      if s.tickets[t].address == address {
        LiveForSame(s.tickets, s'.tickets, |s.tickets|, address);
      } else {
        LiveForOther(s.tickets, s'.tickets, |s.tickets|, t, address);
      }
    case CountFinish(t, _, _, _) => LiveForSame(s.tickets, s'.tickets, |s.tickets|, address);
    case ReportFinish(t, _) => LiveForOther(s.tickets, s'.tickets, |s.tickets|, t, address);
    case _ =>
  }

  lemma {:induction false} PickAddsOne(s: System, step: Step, address: string)
    requires Enabled(s, step) && PicksAddress(s, step, address)
    ensures Outstanding(Next(s, step), address) == Outstanding(s, address) + 1
  {
    hide NextFor, Apply;
    AppendLive(s.tickets, Ticket(address, Chosen), address);
  }

  /** Throughout the episode a half-open pick begins, exactly the requests outstanding before it and the probe are. */
  lemma {:induction false} EpisodeCount(states: seq<System>, steps: seq<Step>, i: nat, j: nat, address: string)
    requires RunFromStart(states, steps) && i < j <= |steps|
    requires PicksAddress(states[i], steps[i], address) && ProbeOut(states[i + 1].pool, address)
    requires forall m :: i < m < j ==> !EndsProbe(states[m], steps[m], address)
    ensures Outstanding(states[j], address) == Outstanding(states[i], address) + 1
    decreases j
  {
    hide Next, Enabled, EndsProbe, PicksAddress, Outstanding, ProbeOut, Inv;
    assert StepAt(states, steps, j - 1);
    if j == i + 1 {
      PickAddsOne(states[i], steps[i], address);
    } else {
      EpisodeCount(states, steps, i, j - 1, address);
      ProbeOutUntil(states, steps, i + 1, j - 1, address);
      RunSatisfiesInv(states, steps, j - 1);
      EpisodeStep(states[j - 1], steps[j - 1], address);
    }
  }

  /**
   At most one request to the backend is outstanding throughout the episode if and only if none was when the
   probe was handed out.
   */
  lemma {:induction false} AtMostOneOutstanding(states: seq<System>, steps: seq<Step>, i: nat, j: nat, address: string)
    requires RunFromStart(states, steps) && i < j <= |steps|
    requires PicksAddress(states[i], steps[i], address) && ProbeOut(states[i + 1].pool, address)
    requires forall m :: i < m < j ==> !EndsProbe(states[m], steps[m], address)
    ensures (forall m :: i < m <= j ==> Outstanding(states[m], address) <= 1) <==> Outstanding(states[i], address) == 0
  {
    hide Next, Enabled, EndsProbe, PicksAddress, Outstanding, ProbeOut, StepAt;
    forall m | i < m <= j ensures Outstanding(states[m], address) == Outstanding(states[i], address) + 1 {
      EpisodeCount(states, steps, i, m, address);
    }
  }

  // ---------------------------------------------------------------- a second outstanding request

  /**
   A pool with the one backend a, after some failures at time 0: request 0 has been picked and is still
   outstanding, the failed ones have reported, and one more may be under way in a given phase.
   */
  predicate Failing(s: System, failures: nat, underWay: Option<Phase>) {
    && |s.pool.backends| == 1
    && s.pool.backends[0] ==
       Entry("a", s.pool.backends[0].weight, true, 0, if failures < BREAKER_FAILURE_THRESHOLD then Closed else Open,
             if failures < BREAKER_FAILURE_THRESHOLD then None else Some(BREAKER_COOLDOWN), failures, false, false, false)
    && s.clock == 0 && |s.pool.store| == |s.ledger| == 1 && s.pool.store[0].totalLatencyNs == 0
    && |s.tickets| == failures + 1 + (if underWay.Some? then 1 else 0)
    && s.tickets[0] == Ticket("a", Chosen)
    && (forall t :: 1 <= t <= failures ==> s.tickets[t] == Ticket("a", Reported))
    && (underWay.Some? ==> s.tickets[failures + 1] == Ticket("a", underWay.value))
  }

  lemma {:induction false} FailingPick(s: System, failures: nat)
    requires Failing(s, failures, None) && failures < BREAKER_FAILURE_THRESHOLD
    ensures Enabled(s, Pick(None, 0)) && Failing(Next(s, Pick(None, 0)), failures, Some(Chosen))
  {
    PoolSelection.SoleBackendIsPicked(s.pool, 0);
    NextForEffect(s.pool, None, 0);
  }

  lemma {:induction false} FailingStart(s: System, failures: nat)
    requires Failing(s, failures, Some(Chosen))
    ensures var step := Start(failures + 1);
            Enabled(s, step) && Failing(Next(s, step), failures, Some(Running(0)))
  {
    assert StartTarget(s.pool, "a") == Some(0);
  }

  lemma {:induction false} FailingCount(s: System, failures: nat)
    requires Failing(s, failures, Some(Running(0)))
    ensures var step := CountFinish(failures + 1, 500, 0, false);
            Enabled(s, step) && Failing(Next(s, step), failures, Some(Counted(true)))
  {
  }

  lemma {:induction false} FailingReport(s: System, failures: nat)
    requires Failing(s, failures, Some(Counted(true))) && failures < BREAKER_FAILURE_THRESHOLD
    ensures var step := ReportFinish(failures + 1, 0);
            Enabled(s, step) && Failing(Next(s, step), failures + 1, None)
  {
    assert IndexOf(s.pool.backends, "a") == Some(0);
  }

  /** A run up to the given number of failures. */
  lemma {:induction false} RunOfFailures(failures: nat) returns (states: seq<System>, steps: seq<Step>)
    requires failures <= BREAKER_FAILURE_THRESHOLD
    ensures RunFromStart(states, steps) && Failing(states[|steps|], failures, None)
  {
    hide Next, Enabled, Failing;
    if failures == 0 {
      var s0 := Start0(["a"], map[], 0);
      FirstRequest(s0);
      ExtendRun([s0], [], Pick(None, 0), Next(s0, Pick(None, 0)));
      states, steps := [s0] + [Next(s0, Pick(None, 0))], [] + [Pick(None, 0)];
    } else {
      var n := failures - 1;
      states, steps := RunOfFailures(n);
      FailingPick(states[|steps|], n);
      states, steps := Extended(states, steps, Pick(None, 0));
      FailingStart(states[|steps|], n);
      states, steps := Extended(states, steps, Start(n + 1));
      FailingCount(states[|steps|], n);
      states, steps := Extended(states, steps, CountFinish(n + 1, 500, 0, false));
      FailingReport(states[|steps|], n);
      states, steps := Extended(states, steps, ReportFinish(n + 1, 0));
    }
  }

  lemma {:induction false} FirstRequest(s: System)
    requires s == Start0(["a"], map[], 0)
    ensures Enabled(s, Pick(None, 0)) && Failing(Next(s, Pick(None, 0)), 0, None)
    ensures RunFromStart([s], [])
  {
    PoolSelection.SoleBackendIsPicked(s.pool, 0);
    NextForEffect(s.pool, None, 0);
  }

  lemma {:induction false} LateProbe(s: System)
    requires Failing(s, BREAKER_FAILURE_THRESHOLD, None)
    ensures var step := Pick(None, BREAKER_COOLDOWN);
            && Enabled(s, step) && PicksAddress(s, step, "a")
            && ProbeOut(Next(s, step).pool, "a")
            && Outstanding(s, "a") == 1
  {
    PoolSelection.SoleBackendIsPicked(s.pool, BREAKER_COOLDOWN);
    NextForEffect(s.pool, None, BREAKER_COOLDOWN);
    assert ProbeAt(NextFor(s.pool, None, BREAKER_COOLDOWN).pool, 0, "a");
    NoneReported(s.tickets, |s.tickets|);
  }

  lemma {:induction false} NoneReported(tickets: seq<Ticket>, n: nat)
    requires 1 <= n <= |tickets| && tickets[0] == Ticket("a", Chosen)
    requires forall t :: 1 <= t < n ==> tickets[t] == Ticket("a", Reported)
    ensures LiveFor(tickets, n, "a") == 1
  {
    if n > 1 {
      NoneReported(tickets, n - 1);
    }
  }

  /** The probe of a backend can be out together with a request sent to it before its breaker opened. */
  lemma {:induction false} SecondRequestHappens() returns (states: seq<System>, steps: seq<Step>)
    ensures RunFromStart(states, steps) && steps != []
    ensures var n := |steps|;
            && PicksAddress(states[n - 1], steps[n - 1], "a") && ProbeOut(states[n].pool, "a")
            && Outstanding(states[n], "a") == 2
  {
    hide Next, Enabled, Failing, Outstanding, PicksAddress, ProbeOut;
    states, steps := RunOfFailures(BREAKER_FAILURE_THRESHOLD);
    var s := states[|steps|];
    LateProbe(s);
    PickAddsOne(s, Pick(None, BREAKER_COOLDOWN), "a");
    states, steps := Extended(states, steps, Pick(None, BREAKER_COOLDOWN));
  }

  // ---------------------------------------------------------------- a half-open backend passed over

  lemma {:induction false} FreshIsPreferred(s: System)
    requires Failing(s, BREAKER_FAILURE_THRESHOLD, None) && Inv(s)
    ensures Enabled(s, Reload(["a", "b"]))
    ensures var p := Next(s, Reload(["a", "b"])).pool;
            && WellFormed(p) && |p.backends| == 2 && p.backends[0].address == "a"
            && Available(p.backends[0], BREAKER_COOLDOWN) && ReportedState(p.backends[0], BREAKER_COOLDOWN) == HalfOpen
            && PickedAddress(p, None, BREAKER_COOLDOWN) == Some("b")
  {
    hide HistoryKept, ProbesHeld, NextFor, HistoryAfter, LedgerAfter;
    var p := Next(s, Reload(["a", "b"])).pool;
    assert p.backends[0] == ReloadedEntry(s.pool, "a", 1) && p.backends[1] == ReloadedEntry(s.pool, "b", 2);
    assert p.store[1] == ReloadedStats(s.pool, "a") && p.store[2] == ReloadedStats(s.pool, "b");
    assert LastIndexOf(s.pool.backends, "a") == Some(0) && LastIndexOf(s.pool.backends, "b") == None;
    FreshScoresLess(p);
  }

  lemma {:induction false} FreshScoresLess(p: Pool)
    requires WellFormed(p) && |p.backends| == 2 && p.backends[0].address == "a" && p.backends[1].address == "b"
    requires p.backends[0].consecutiveErr >= BREAKER_FAILURE_THRESHOLD
    requires ReportedState(p.backends[0], BREAKER_COOLDOWN) == HalfOpen
    requires p.backends[1] == FreshEntry("b", p.backends[1].statsId) && p.store[p.backends[1].statsId] == NO_STATS
    requires ActiveAt(p, 0) >= 0 && p.store[p.backends[0].statsId].totalLatencyNs == 0
    ensures PickedAddress(p, None, BREAKER_COOLDOWN) == Some("b")
  {
    hide NextFor;
    HalfOpenScore(p.backends[0], p.store[p.backends[0].statsId], BREAKER_COOLDOWN);
    assert ScoreAt(p, 1, BREAKER_COOLDOWN) == 0.0;
    assert Eligible(p.backends[1], None, BREAKER_COOLDOWN);
    PoolSelection.NextForPicksNearMinimum(p, None, BREAKER_COOLDOWN);
  }

  /** A half-open backend can be eligible and yet be passed over, for one that has never failed. */
  lemma {:induction false} HalfOpenIsPassedOver() returns (states: seq<System>, steps: seq<Step>)
    ensures RunFromStart(states, steps)
    ensures var p := states[|steps|].pool;
            && WellFormed(p) && |p.backends| == 2 && p.backends[0].address == "a"
            && Available(p.backends[0], BREAKER_COOLDOWN) && ReportedState(p.backends[0], BREAKER_COOLDOWN) == HalfOpen
            && PickedAddress(p, None, BREAKER_COOLDOWN) == Some("b")
  {
    hide Next, Enabled, Failing, Inv;
    states, steps := RunOfFailures(BREAKER_FAILURE_THRESHOLD);
    RunSatisfiesInv(states, steps, |steps|);
    FreshIsPreferred(states[|steps|]);
    states, steps := Extended(states, steps, Reload(["a", "b"]));
  }
}

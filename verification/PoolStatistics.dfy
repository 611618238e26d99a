/** Which finished requests the statistics of a backend add up, over every run and the reloads that keep it. */
module PoolStatistics {
  import opened Options
  import opened PoolModel
  import opened PoolRuns
  import opened PoolAccounting
  import BackendHistory
  import PoolSelection

  // ---------------------------------------------------------------- one stats object

  /** How many of the steps i, ..., k - 1 count a request down on stats object id; only failed ones when asked. */
  function FinishesOn(states: seq<System>, steps: seq<Step>, i: nat, k: nat, id: nat, failedOnly: bool): nat
    requires i <= k <= |steps| && |states| == |steps| + 1
  {
    if k == i then 0
    else
      FinishesOn(states, steps, i, k - 1, id, failedOnly)
      + if FinishOn(states[k - 1], steps[k - 1], id)
           && (failedOnly ==> steps[k - 1].err || steps[k - 1].status >= 500) then 1 else 0
  }

  predicate FinishOn(s: System, step: Step, id: nat) {
    step.CountFinish? && IsRunning(s, step.t) && s.tickets[step.t].phase == Running(id)
  }

  /** The latencies they report, summed. */
  function LatencyOn(states: seq<System>, steps: seq<Step>, i: nat, k: nat, id: nat): int
    requires i <= k <= |steps| && |states| == |steps| + 1
  {
    if k == i then 0
    else
      LatencyOn(states, steps, i, k - 1, id)
      + if FinishOn(states[k - 1], steps[k - 1], id) then steps[k - 1].latencyNs else 0
  }

  /** The status of the last of them. */
  function LastStatusOn(states: seq<System>, steps: seq<Step>, i: nat, k: nat, id: nat, before: int): int
    requires i <= k <= |steps| && |states| == |steps| + 1
  {
    if k == i then before
    else if FinishOn(states[k - 1], steps[k - 1], id) then steps[k - 1].status
    else LastStatusOn(states, steps, i, k - 1, id, before)
  }

  /** What one step does to a stats object. */
  lemma {:induction false} StepMovesStats(s: System, step: Step, id: nat)
    requires Inv(s) && Enabled(s, step) && id < |s.pool.store|
    ensures id < |Next(s, step).pool.store|
    ensures var a, b := s.pool.store[id], Next(s, step).pool.store[id];
            if FinishOn(s, step, id) then
              && b.requests == a.requests + 1
              && b.errors == a.errors + (if step.err || step.status >= 500 then 1 else 0)
              && b.totalLatencyNs == a.totalLatencyNs + step.latencyNs
              && b.lastStatus == step.status
            else
              b.requests == a.requests && b.errors == a.errors && b.totalLatencyNs == a.totalLatencyNs && b.lastStatus == a.lastStatus
  {
    hide NextFor, HistoryKept, ProbesHeld, BooksBalance, TicketsAfter, HistoryAfter, LedgerAfter, StartTarget;
  }

  /** A stats object adds up exactly the requests counted down on it, from whatever it held. */
  lemma {:induction false} StatsAddUp(states: seq<System>, steps: seq<Step>, i: nat, k: nat, id: nat)
    requires RunFromStart(states, steps) && i <= k <= |steps| && id < |states[i].pool.store|
    ensures id < |states[k].pool.store|
    ensures var a, b := states[i].pool.store[id], states[k].pool.store[id];
            && b.requests == a.requests + FinishesOn(states, steps, i, k, id, false)
            && b.errors == a.errors + FinishesOn(states, steps, i, k, id, true)
            && b.totalLatencyNs == a.totalLatencyNs + LatencyOn(states, steps, i, k, id)
            && b.lastStatus == LastStatusOn(states, steps, i, k, id, a.lastStatus)
    decreases k
  {
    hide Inv, Next, Enabled, FinishOn;
    if k > i {
      StatsAddUp(states, steps, i, k - 1, id);
      RunSatisfiesInv(states, steps, k - 1);
      assert StepAt(states, steps, k - 1);
      StepMovesStats(states[k - 1], steps[k - 1], id);
    }
  }

  // ---------------------------------------------------------------- one backend, over reloads

  datatype Tally = Tally(requests: nat, errors: nat, latencyNs: int, lastStatus: int)

  /** The requests that finished on the object the backend had at that moment, since state b. */
  function TallyOf(states: seq<System>, steps: seq<Step>, b: nat, k: nat, address: string): Tally
    requires b <= k <= |steps| && |states| == |steps| + 1
  {
    if k == b then Tally(0, 0, 0, 0)
    else
      var before := TallyOf(states, steps, b, k - 1, address);
      var s, step := states[k - 1], steps[k - 1];
      if Present(s, address) && FinishOn(s, step, StatsIdOf(s, address)) then
        Tally(before.requests + 1, before.errors + (if step.err || step.status >= 500 then 1 else 0),
              before.latencyNs + step.latencyNs, step.status)
      else before
  }

  /** The counters of the backend, active requests aside, are those of the tally. */
  predicate Shows(s: System, address: string, tally: Tally)
    requires WellFormed(s.pool) && Present(s, address)
  {
    var stats := s.pool.store[StatsIdOf(s, address)];
    && stats.requests == tally.requests && stats.errors == tally.errors
    && stats.totalLatencyNs == tally.latencyNs && stats.lastStatus == tally.lastStatus
  }

  lemma {:induction false} ReloadedCell(p: Pool, addresses: seq<string>, y: nat)
    requires WellFormed(p) && y < |addresses|
    ensures var q := Reconfigure(p, addresses);
            && y < |q.backends| && q.backends[y].address == addresses[y] && q.backends[y].statsId == |p.store| + y < |q.store|
            && q.store[|p.store| + y] == ReloadedStats(p, addresses[y])
  {
  }

  lemma {:induction false} ReloadedStatsOf(s: System, address: string)
    requires Inv(s)
    ensures ReloadedStats(s.pool, address) ==
            if Present(s, address) then s.pool.store[StatsIdOf(s, address)] else Stats(0, 0, 0, 0, 0)
  {
    hide HistoryKept, ProbesHeld, BooksBalance;
    if Present(s, address) {
      IndexOfUnique(s.pool.backends, IndexOf(s.pool.backends, address).value);
    }
  }

  /** A reload gives a kept backend a new object with all its counters, and a new one an empty object. */
  lemma {:induction false} ReloadCopiesStats(s: System, addresses: seq<string>, address: string)
    requires Inv(s) && Enabled(s, Reload(addresses)) && address in addresses
    ensures var s' := Next(s, Reload(addresses));
            && WellFormed(s'.pool) && Present(s', address)
            && s'.pool.store[StatsIdOf(s', address)] ==
               if Present(s, address) then s.pool.store[StatsIdOf(s, address)] else Stats(0, 0, 0, 0, 0)
  {
    hide HistoryKept, ProbesHeld, BooksBalance, HistoryAfter, LedgerAfter, Reconfigure;
    var s' := Next(s, Reload(addresses));
    ReloadKeepsInv(s, addresses);
    var y :| 0 <= y < |addresses| && addresses[y] == address;
    ReloadedCell(s.pool, addresses, y);
    assert IndexOf(s'.pool.backends, address) == Some(y) by { IndexOfUnique(s'.pool.backends, y); }
    ReloadedStatsOf(s, address);
  }

  lemma {:induction false} StepKeepsId(s: System, step: Step, address: string)
    requires Inv(s) && Enabled(s, step) && Present(s, address) && !step.Reload?
    ensures Inv(Next(s, step)) && Present(Next(s, step), address)
    ensures StatsIdOf(Next(s, step), address) == StatsIdOf(s, address) < |s.pool.store|
  {
    StepKeepsInv(s, step);
    hide HistoryKept, ProbesHeld, BooksBalance, Apply, HistoryAfter, LedgerAfter, TicketsAfter;
    var x := IndexOf(s.pool.backends, address).value;
    OpKeepsStatsObject(s.pool, OpOf(s, step), x);
    IndexOfUnique(Next(s, step).pool.backends, x);
  }

  lemma {:induction false} StepShows(s: System, step: Step, address: string, tally: Tally)
    requires Inv(s) && Enabled(s, step) && Present(s, address) && Shows(s, address, tally)
    requires step.Reload? ==> address in step.addresses
    ensures var s' := Next(s, step);
            Inv(s') && Present(s', address)
            && Shows(s', address,
                     if FinishOn(s, step, StatsIdOf(s, address)) then
                       Tally(tally.requests + 1, tally.errors + (if step.err || step.status >= 500 then 1 else 0),
                             tally.latencyNs + step.latencyNs, step.status)
                     else tally)
  {
    hide Next, Enabled, Present, StatsIdOf;
    if step.Reload? {
      ReloadCopiesStats(s, step.addresses, address);
      StepKeepsInv(s, step);
    } else {
      hide HistoryKept, ProbesHeld, BooksBalance;
      StepKeepsId(s, step, address);
      StepMovesStats(s, step, StatsIdOf(s, address));
    }
  }

  lemma {:induction false} StartsEmpty(addresses: seq<string>, weights: map<string, int>, clock: Time, address: string)
    requires Present(Start0(addresses, weights, clock), address)
    ensures Shows(Start0(addresses, weights, clock), address, Tally(0, 0, 0, 0))
  {
  }

  lemma {:induction false} EntersEmpty(states: seq<System>, steps: seq<Step>, b: nat, address: string)
    requires RunFromStart(states, steps) && b <= |steps| && Enters(states, steps, b, address)
    ensures Inv(states[b]) && Shows(states[b], address, Tally(0, 0, 0, 0))
  {
    hide Inv, Next, Enabled, Present, StatsIdOf, Start0, WellFormed, Shows;
    RunSatisfiesInv(states, steps, b);
    InvIsWellFormed(states[b]);
    if b == 0 {
      var addresses, weights, clock :| Distinct(addresses) && states[0] == Start0(addresses, weights, clock);
      StartsEmpty(addresses, weights, clock, address);
    } else {
      RunSatisfiesInv(states, steps, b - 1);
      assert StepAt(states, steps, b - 1);
      ReloadLists(states[b - 1], steps[b - 1].addresses, address);
      AddedEmpty(states[b - 1], steps[b - 1].addresses, address);
    }
  }

  lemma {:induction false} AddedEmpty(s: System, addresses: seq<string>, address: string)
    requires Inv(s) && Enabled(s, Reload(addresses)) && address in addresses && !Present(s, address)
    ensures var s' := Next(s, Reload(addresses));
            WellFormed(s'.pool) && Present(s', address) && Shows(s', address, Tally(0, 0, 0, 0))
  {
    hide Inv, Next, Enabled, Present, StatsIdOf;
    ReloadCopiesStats(s, addresses, address);
  }

  lemma {:induction false} InvIsWellFormed(s: System)
    requires Inv(s)
    ensures WellFormed(s.pool)
  {
  }

  /**
   From where a backend enters, over any number of reloads that keep it, its counters add up exactly the requests
   that finished on the object it had at that moment: how many, how many of them failed or were answered 500 or
   above, their latencies, and the status of the last.
   */
  lemma {:induction false} CountersFollowFinishes(states: seq<System>, steps: seq<Step>, b: nat, k: nat, address: string)
    requires RunFromStart(states, steps) && b <= k <= |steps|
    requires Enters(states, steps, b, address) && Kept(steps, b, k, address)
    ensures Inv(states[k]) && Present(states[k], address)
    ensures Shows(states[k], address, TallyOf(states, steps, b, k, address))
    decreases k
  {
    hide Inv, Shows, Present, Next, Enabled, FinishOn, StatsIdOf;
    if k == b {
      EntersEmpty(states, steps, b, address);
    } else {
      CountersFollowFinishes(states, steps, b, k - 1, address);
      assert StepAt(states, steps, k - 1);
      StepShows(states[k - 1], steps[k - 1], address, TallyOf(states, steps, b, k - 1, address));
    }
  }

  // ---------------------------------------------------------------- what is shown, and what is weighed

  /** The row that status shows for a backend of a run. */
  lemma {:induction false} StatusByPast(states: seq<System>, steps: seq<Step>, b: nat, k: nat, address: string, now: Time)
    requires RunFromStart(states, steps) && b <= k <= |steps| && states[k].clock <= now
    requires Enters(states, steps, b, address) && Kept(steps, b, k, address)
    ensures Inv(states[k]) && Present(states[k], address)
    ensures var x := IndexOf(states[k].pool.backends, address).value;
            var row, past := Status(states[k].pool, now)[x], BackendHistory.PastOf(states, steps, b, k, address);
            var tally := TallyOf(states, steps, b, k, address);
            && row.address == address && row.weight == states[k].pool.backends[x].weight
            && row.healthy == (past.lastCheck != Some(false))
            && row.disabled == (past.lastAction == Some("disable"))
            && row.draining == (past.lastAction == Some("drain"))
            && row.consecutiveErr == past.failures
            && row.breaker == (if past.failures < 3 then Closed
                               else if past.lastFinish.Some? && now < past.lastFinish.value + 15_000_000_000 then Open
                               else HalfOpen)
            && row.available == (row.healthy && !row.disabled && !row.draining && row.breaker != Open && !past.probing)
            && row.stats == Stats(tally.requests, tally.errors, ActiveOf(states[k], address), tally.latencyNs, tally.lastStatus)
            && row.avgLatencyMs ==
               if tally.requests > 0 then tally.latencyNs as real / (tally.requests as real * 1_000_000.0) else 0.0
  {
    hide PoolRuns.Next, Enabled, Enters, Kept, TallyOf, BackendHistory.PastOf;
    BackendHistory.EntryFollowsPast(states, steps, b, k, address);
    CountersFollowFinishes(states, steps, b, k, address);
    RowByPast(states[k], address, now, BackendHistory.PastOf(states, steps, b, k, address), TallyOf(states, steps, b, k, address));
  }

  lemma {:induction false} RowByPast(s: System, address: string, now: Time, past: BackendHistory.Past, tally: Tally)
    requires Inv(s) && Present(s, address) && s.clock <= now
    requires BackendHistory.Follows(BackendHistory.EntryOf(s, address), past, s.clock) && Shows(s, address, tally)
    ensures var x := IndexOf(s.pool.backends, address).value;
            var row := Status(s.pool, now)[x];
            && row.address == address && row.weight == s.pool.backends[x].weight
            && row.healthy == (past.lastCheck != Some(false))
            && row.disabled == (past.lastAction == Some("disable"))
            && row.draining == (past.lastAction == Some("drain"))
            && row.consecutiveErr == past.failures
            && row.breaker == (if past.failures < 3 then Closed
                               else if past.lastFinish.Some? && now < past.lastFinish.value + 15_000_000_000 then Open
                               else HalfOpen)
            && row.available == (row.healthy && !row.disabled && !row.draining && row.breaker != Open && !past.probing)
            && row.stats == Stats(tally.requests, tally.errors, ActiveOf(s, address), tally.latencyNs, tally.lastStatus)
            && row.avgLatencyMs ==
               if tally.requests > 0 then tally.latencyNs as real / (tally.requests as real * 1_000_000.0) else 0.0
  {
    hide HistoryKept, BooksBalance;
    if tally.requests > 0 {
      PoolSelection.PerMillion(tally.latencyNs as real, tally.requests as real);
    }
  }

  /** The cost of a backend from what happened to it: its load, the latencies it has reported and its failures in a row. */
  function Cost(active: int, weight: int, tally: Tally, failures: nat): real {
    active as real * 1000.0 / (if weight > 1 then weight else 1) as real
    + (if tally.requests > 0 then tally.latencyNs as real / (tally.requests as real * 1_000_000.0) else 0.0)
    + 200.0 * failures as real - (if failures < 3 then 0.0 else 250.0)
  }

  /** The pick of a run, from the past of two backends alone: the picked one costs no more than one that could be picked too. */
  lemma {:induction false} PickByPast(
    states: seq<System>, steps: seq<Step>, k: nat, address: string, b: nat, other: string, c: nat)
    requires RunFromStart(states, steps) && k < |steps| && steps[k].Pick?
    requires b <= k && Enters(states, steps, b, address) && Kept(steps, b, k, address)
    requires c <= k && Enters(states, steps, c, other) && Kept(steps, c, k, other)
    requires WellFormed(states[k].pool) && PickedAddress(states[k].pool, steps[k].allowed, steps[k].now) == Some(address)
    requires steps[k].allowed.Some? ==> other in steps[k].allowed.value
    requires PickedAddress(states[k].pool, Some({other}), steps[k].now) == Some(other)
    ensures Present(states[k], address) && Present(states[k], other)
    ensures var s := states[k];
            var past, tally := BackendHistory.PastOf(states, steps, b, k, address), TallyOf(states, steps, b, k, address);
            var past', tally' := BackendHistory.PastOf(states, steps, c, k, other), TallyOf(states, steps, c, k, other);
            Cost(ActiveOf(s, address), BackendHistory.EntryOf(s, address).weight, tally, past.failures) <=
            Cost(ActiveOf(s, other), BackendHistory.EntryOf(s, other).weight, tally', past'.failures) + 0.001
  {
    hide PoolRuns.Next, Enters, Kept, TallyOf, BackendHistory.PastOf, PickedAddress, Cost, Inv;
    assert StepAt(states, steps, k);
    BackendHistory.EntryFollowsPast(states, steps, b, k, address);
    CountersFollowFinishes(states, steps, b, k, address);
    BackendHistory.EntryFollowsPast(states, steps, c, k, other);
    CountersFollowFinishes(states, steps, c, k, other);
    CheapestByPast(states[k], steps[k].allowed, steps[k].now, address, other,
                   BackendHistory.PastOf(states, steps, b, k, address), TallyOf(states, steps, b, k, address),
                   BackendHistory.PastOf(states, steps, c, k, other), TallyOf(states, steps, c, k, other));
  }

  lemma {:induction false} CheapestByPast(
    s: System, allowed: Allowed, now: Time, address: string, other: string,
    past: BackendHistory.Past, tally: Tally, past': BackendHistory.Past, tally': Tally)
    requires Inv(s) && s.clock <= now && Present(s, address) && Present(s, other)
    requires PickedAddress(s.pool, allowed, now) == Some(address) && (allowed.Some? ==> other in allowed.value)
    requires PickedAddress(s.pool, Some({other}), now) == Some(other)
    requires BackendHistory.Follows(BackendHistory.EntryOf(s, address), past, s.clock) && Shows(s, address, tally)
    requires BackendHistory.Follows(BackendHistory.EntryOf(s, other), past', s.clock) && Shows(s, other, tally')
    ensures Cost(ActiveOf(s, address), BackendHistory.EntryOf(s, address).weight, tally, past.failures) <=
            Cost(ActiveOf(s, other), BackendHistory.EntryOf(s, other).weight, tally', past'.failures) + 0.001
  {
    hide HistoryKept, ProbesHeld, BooksBalance, BackendHistory.Follows, Shows, Cost, NextFor, ScoreAt, Eligible;
    var x, y := IndexOf(s.pool.backends, address).value, IndexOf(s.pool.backends, other).value;
    PoolSelection.NextForPicksNearMinimum(s.pool, allowed, now);
    BackendHistory.SoleChoice(s.pool, y, now);
    assert NextFor(s.pool, allowed, now).chosen == Some(x);
    PoolSelection.EligibleIsAvailable(s.pool.backends[x], allowed, now);
    PoolSelection.EligibleIsAvailable(s.pool.backends[y], allowed, now);
    CostIsScore(s, address, now, past, tally);
    CostIsScore(s, other, now, past', tally');
  }

  lemma {:induction false} CostIsScore(s: System, address: string, now: Time, past: BackendHistory.Past, tally: Tally)
    requires Inv(s) && s.clock <= now && Present(s, address) && Available(BackendHistory.EntryOf(s, address), now)
    requires BackendHistory.Follows(BackendHistory.EntryOf(s, address), past, s.clock) && Shows(s, address, tally)
    ensures Cost(ActiveOf(s, address), BackendHistory.EntryOf(s, address).weight, tally, past.failures) ==
            ScoreAt(s.pool, IndexOf(s.pool.backends, address).value, now)
  {
    hide HistoryKept, ProbesHeld, BooksBalance, ScoreAt;
    PoolSelection.ScoreFromFields(s.pool, IndexOf(s.pool.backends, address).value, now);
  }
}

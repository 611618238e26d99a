/** Whom the request counters of a pool count, over every run and any number of reloads. */
module PoolAccounting {
  import opened Options
  import opened PoolModel
  import opened PoolRuns
  import PoolSelection

  /** For every stats object, at every moment: nothing started on it is ever lost or counted twice. */
  lemma {:induction false} RequestsAreConserved(states: seq<System>, steps: seq<Step>, k: nat, id: nat)
    requires RunFromStart(states, steps) && k < |states| && id < |states[k].pool.store|
    ensures id < |states[k].ledger|
    ensures var s := states[k].pool.store[id];
            var opening := states[k].ledger[id].opening;
            && s.active + s.requests == opening.active + opening.requests + states[k].ledger[id].starts
            && s.active == opening.active + RunningOn(states[k].tickets, |states[k].tickets|, id)
            && 0 <= s.active && s.errors <= s.requests
  {
    RunSatisfiesInv(states, steps, k);
  }

  // ---------------------------------------------------------------- the counter of an address

  predicate Present(s: System, address: string) {
    IndexOf(s.pool.backends, address).Some?
  }

  /** The active counter that scores the address. */
  function ActiveOf(s: System, address: string): int
    requires WellFormed(s.pool)
  {
    match IndexOf(s.pool.backends, address)
    case Some(i) => ActiveAt(s.pool, i)
    case None => 0
  }

  /** The requests in flight that will count down on that counter: those started since the last reload. */
  function OnCurrent(s: System, address: string): nat {
    match IndexOf(s.pool.backends, address)
    case Some(i) => RunningOn(s.tickets, |s.tickets|, s.pool.backends[i].statsId)
    case None => 0
  }

  /** The rest of the counter. */
  function CopiedLoad(s: System, address: string): int
    requires WellFormed(s.pool)
  {
    ActiveOf(s, address) - OnCurrent(s, address)
  }

  /** It is what the counter held when its stats object was created. */
  lemma {:induction false} CopiedIsOpening(s: System, x: nat)
    requires Inv(s) && x < |s.pool.backends|
    ensures Present(s, s.pool.backends[x].address) && s.pool.backends[x].statsId < |s.ledger|
    ensures CopiedLoad(s, s.pool.backends[x].address) == s.ledger[s.pool.backends[x].statsId].opening.active
  {
    hide HistoryKept, ProbesHeld;
    IndexOfUnique(s.pool.backends, x);
  }

  lemma {:induction false} OpKeepsStatsObject(p: Pool, op: PoolOp, x: nat)
    requires WellFormed(p) && OpEnabled(p, op) && !op.OpReload? && x < |p.backends|
    ensures var q := Apply(p, op).0;
            && |q.backends| == |p.backends|
            && q.backends[x].address == p.backends[x].address
            && q.backends[x].statsId == p.backends[x].statsId
  {
    hide NextFor;
    if op.OpNext? {
      NextForEffect(p, op.allowed, op.now);
    }
  }

  /** A step that is no reload leaves every stats object with its entry and its opening. */
  lemma {:induction false} StepKeepsOpening(s: System, step: Step, x: nat)
    requires Inv(s) && Enabled(s, step) && !step.Reload? && x < |s.pool.backends|
    ensures var s' := Next(s, step);
            && |s'.pool.backends| == |s.pool.backends|
            && s'.pool.backends[x].address == s.pool.backends[x].address
            && s'.pool.backends[x].statsId == s.pool.backends[x].statsId < |s.ledger| == |s'.ledger|
            && s'.ledger[s.pool.backends[x].statsId].opening == s.ledger[s.pool.backends[x].statsId].opening
  {
    hide Apply, HistoryKept, ProbesHeld;
    OpKeepsStatsObject(s.pool, OpOf(s, step), x);
  }

  /** A reload gives a listed address a stats object that opens with its counters, or with none when it is new. */
  lemma {:induction false} ReloadOpens(s: System, addresses: seq<string>, y: nat)
    requires Inv(s) && Enabled(s, Reload(addresses)) && y < |addresses|
    ensures var s' := Next(s, Reload(addresses));
            && y < |s'.pool.backends|
            && s'.pool.backends[y].address == addresses[y]
            && s'.pool.backends[y].statsId == |s.pool.store| + y < |s'.ledger|
            && s'.ledger[|s.pool.store| + y].opening == ReloadedStats(s.pool, addresses[y])
  {
    hide HistoryKept, ProbesHeld, Balances;
    assert Next(s, Reload(addresses)).pool.backends[y] == ReloadedEntry(s.pool, addresses[y], |s.pool.store| + y);
  }

  lemma {:induction false} ReloadCopiesActive(s: System, address: string)
    requires Inv(s)
    ensures ReloadedStats(s.pool, address).active == ActiveOf(s, address)
  {
    hide HistoryKept, ProbesHeld, BooksBalance;
    match IndexOf(s.pool.backends, address) {
      case Some(x) => IndexOfUnique(s.pool.backends, x);
      case None =>
    }
  }

  /** One step: only a reload moves the copied load, by the requests then in flight on the counter. */
  lemma {:induction false} StepMovesCopied(s: System, step: Step, address: string)
    requires Inv(s) && Enabled(s, step)
    requires if step.Reload? then address in step.addresses else Present(s, address)
    ensures Inv(Next(s, step)) && Present(Next(s, step), address)
    ensures CopiedLoad(Next(s, step), address) ==
            CopiedLoad(s, address) + if step.Reload? then OnCurrent(s, address) else 0
  {
    hide HistoryKept, ProbesHeld, BooksBalance, Apply, Reconfigure;
    StepKeepsInv(s, step);
    var s' := Next(s, step);
    if step.Reload? {
      var y :| 0 <= y < |step.addresses| && step.addresses[y] == address;
      ReloadOpens(s, step.addresses, y);
      CopiedIsOpening(s', y);
      ReloadCopiesActive(s, address);
    } else {
      var x := IndexOf(s.pool.backends, address).value;
      StepKeepsOpening(s, step, x);
      CopiedIsOpening(s, x);
      CopiedIsOpening(s', x);
    }
  }

  // ---------------------------------------------------------------- over runs

  /** No reload among steps i, ..., k - 1 drops the address. */
  ghost predicate Kept(steps: seq<Step>, i: nat, k: nat, address: string)
    requires k <= |steps|
  {
    forall m :: i <= m < k && steps[m].Reload? ==> address in steps[m].addresses
  }

  /** The requests in flight on the counter at each reload among steps i, ..., k - 1, summed. */
  function CurrentAtReloads(states: seq<System>, steps: seq<Step>, i: nat, k: nat, address: string): nat
    requires i <= k <= |steps| && |states| == |steps| + 1
  {
    if k == i then 0
    else
      CurrentAtReloads(states, steps, i, k - 1, address)
      + if steps[k - 1].Reload? then OnCurrent(states[k - 1], address) else 0
  }

  /** From any moment on, for as long as the address is kept, its copied load grows by exactly that sum and never falls. */
  lemma {:induction false} CopiedLoadGrows(states: seq<System>, steps: seq<Step>, i: nat, k: nat, address: string)
    requires RunFromStart(states, steps) && i <= k <= |steps|
    requires Present(states[i], address) && Kept(steps, i, k, address)
    ensures Inv(states[i]) && Inv(states[k]) && Present(states[k], address)
    ensures CopiedLoad(states[k], address) ==
            CopiedLoad(states[i], address) + CurrentAtReloads(states, steps, i, k, address)
    ensures CopiedLoad(states[k], address) >= CopiedLoad(states[i], address)
    decreases k
  {
    hide Inv, CopiedLoad, Present, OnCurrent, Next, Enabled;
    RunSatisfiesInv(states, steps, i);
    RunSatisfiesInv(states, steps, k);
    if i < k {
      CopiedLoadGrows(states, steps, i, k - 1, address);
      assert StepAt(states, steps, k - 1);
      StepMovesCopied(states[k - 1], steps[k - 1], address);
    }
  }

  /** State b is where the address enters: the first pool, or a reload that adds it. */
  predicate Enters(states: seq<System>, steps: seq<Step>, b: nat, address: string)
    requires b < |states| && |states| == |steps| + 1
  {
    && Present(states[b], address)
    && (b > 0 ==> steps[b - 1].Reload? && !Present(states[b - 1], address))
  }

  lemma {:induction false} EntersWithoutLoad(states: seq<System>, steps: seq<Step>, b: nat, address: string)
    requires RunFromStart(states, steps) && b <= |steps| && Enters(states, steps, b, address)
    ensures Inv(states[b]) && CopiedLoad(states[b], address) == 0
  {
    hide HistoryKept, ProbesHeld, Apply;
    RunSatisfiesInv(states, steps, b);
    if b == 0 {
      var x := IndexOf(states[0].pool.backends, address).value;
      CopiedIsOpening(states[0], x);
    } else {
      assert StepAt(states, steps, b - 1);
      RunSatisfiesInv(states, steps, b - 1);
      ReloadLists(states[b - 1], steps[b - 1].addresses, address);
      StepMovesCopied(states[b - 1], steps[b - 1], address);
    }
  }

  lemma {:induction false} ReloadLists(s: System, addresses: seq<string>, address: string)
    requires Enabled(s, Reload(addresses)) && Present(Next(s, Reload(addresses)), address)
    ensures address in addresses
  {
    var y := IndexOf(Next(s, Reload(addresses)).pool.backends, address).value;
    assert Reconfigure(s.pool, addresses).backends[y] == ReloadedEntry(s.pool, addresses[y], |s.pool.store| + y);
  }

  /**
   A reload copies the active counter of a kept address into a new stats object. So at every later moment, over
   any number of reloads that keep the address, its counter is the requests started since the last of them and
   still in flight, plus those that were so at each reload.
   */
  lemma {:induction false} CopiedLoadAddsUp(states: seq<System>, steps: seq<Step>, b: nat, k: nat, address: string)
    requires RunFromStart(states, steps) && b <= k <= |steps|
    requires Enters(states, steps, b, address) && Kept(steps, b, k, address)
    ensures Inv(states[k]) && Present(states[k], address)
    ensures ActiveOf(states[k], address) ==
            OnCurrent(states[k], address) + CurrentAtReloads(states, steps, b, k, address)
    ensures ActiveOf(states[k], address) == OnCurrent(states[k], address) <==>
            forall m :: b <= m < k && steps[m].Reload? ==> OnCurrent(states[m], address) == 0
  {
    hide Inv, Present, OnCurrent, ActiveOf, StepAt;
    EntersWithoutLoad(states, steps, b, address);
    CopiedLoadGrows(states, steps, b, k, address);
    SumIsZero(states, steps, b, k, address);
  }

  lemma {:induction false} SumIsZero(states: seq<System>, steps: seq<Step>, i: nat, k: nat, address: string)
    requires i <= k <= |steps| && |states| == |steps| + 1
    ensures CurrentAtReloads(states, steps, i, k, address) == 0 <==>
            forall m :: i <= m < k && steps[m].Reload? ==> OnCurrent(states[m], address) == 0
    decreases k
  {
    hide OnCurrent;
    if i < k {
      SumIsZero(states, steps, i, k - 1, address);
    }
  }

  // ---------------------------------------------------------------- the requests in flight

  predicate RunsFor(t: Ticket, address: string, lo: nat) {
    t.address == address && t.phase.Running? && t.phase.id >= lo
  }

  /** How many of the first n requests are for the address and in flight on stats object lo or a later one. */
  function RunningFor(tickets: seq<Ticket>, n: nat, address: string, lo: nat): nat
    requires n <= |tickets|
  {
    if n == 0 then 0 else RunningFor(tickets, n - 1, address, lo) + if RunsFor(tickets[n - 1], address, lo) then 1 else 0
  }

  /** The requests in flight for the address that were started on stats object lo or a later one. */
  function InFlightFrom(s: System, address: string, lo: nat): nat {
    RunningFor(s.tickets, |s.tickets|, address, lo)
  }

  /** All the requests in flight for the address. */
  function InFlight(s: System, address: string): nat {
    InFlightFrom(s, address, 0)
  }

  lemma {:induction false} RunningForPrefix(before: seq<Ticket>, after: seq<Ticket>, n: nat, address: string, lo: nat)
    requires n <= |before| && n <= |after| && before[..n] == after[..n]
    ensures RunningFor(after, n, address, lo) == RunningFor(before, n, address, lo)
  {
    if n > 0 {
      assert before[..n][n - 1] == after[..n][n - 1];
      assert before[..n - 1] == before[..n][..n - 1] == after[..n - 1];
      RunningForPrefix(before, after, n - 1, address, lo);
    }
  }

  lemma {:induction false} RunningForUpdate(tickets: seq<Ticket>, t: nat, phase: Phase, n: nat, address: string, lo: nat)
    requires t < n <= |tickets|
    ensures RunningFor(SetPhase(tickets, t, phase), n, address, lo) ==
            RunningFor(tickets, n, address, lo)
            + (if RunsFor(Ticket(tickets[t].address, phase), address, lo) then 1 else 0)
            - (if RunsFor(tickets[t], address, lo) then 1 else 0)
  {
    if t == n - 1 {
      RunningForPrefix(tickets, SetPhase(tickets, t, phase), t, address, lo);
    } else {
      RunningForUpdate(tickets, t, phase, n - 1, address, lo);
    }
  }

  /** The stats object that a request for the address would be started on. */
  function StatsIdOf(s: System, address: string): nat
    requires Present(s, address)
  {
    s.pool.backends[IndexOf(s.pool.backends, address).value].statsId
  }

  /** No two backends share a stats object, and requests run only on those of their own backend. */
  predicate OwnStats(s: System) {
    && (forall x, y :: 0 <= x < y < |s.pool.backends| ==> s.pool.backends[x].statsId != s.pool.backends[y].statsId)
    && (forall t, x ::
          0 <= t < |s.tickets| && 0 <= x < |s.pool.backends| && s.tickets[t].phase == Running(s.pool.backends[x].statsId) ==>
            s.tickets[t].address == s.pool.backends[x].address)
  }

  /** The step counts a request down on an object that is no longer the one of its backend, but not older than lo. */
  predicate CountsOnOld(s: System, step: Step, address: string, lo: nat) {
    && Present(s, address)
    && step.CountFinish? && IsRunning(s, step.t)
    && RunsFor(s.tickets[step.t], address, lo) && s.tickets[step.t].phase.id != StatsIdOf(s, address)
  }

  lemma {:induction false} StepKeepsOwnStats(s: System, step: Step)
    requires Inv(s) && Enabled(s, step) && OwnStats(s)
    ensures OwnStats(Next(s, step))
  {
    hide HistoryKept, ProbesHeld, Balances, NextFor;
    var s' := Next(s, step);
    if step.Reload? {
      forall y | 0 <= y < |s'.pool.backends| ensures s'.pool.backends[y].statsId == |s.pool.store| + y {
        ReloadOpens(s, step.addresses, y);
      }
    } else {
      forall x | 0 <= x < |s.pool.backends|
        ensures s'.pool.backends[x].address == s.pool.backends[x].address
        ensures s'.pool.backends[x].statsId == s.pool.backends[x].statsId
      {
        OpKeepsStatsObject(s.pool, OpOf(s, step), x);
      }
    }
  }

  lemma {:induction false} RunKeepsOwnStats(states: seq<System>, steps: seq<Step>, k: nat)
    requires RunFromStart(states, steps) && k < |states|
    ensures OwnStats(states[k])
  {
    hide Next, Enabled, Inv;
    if k > 0 {
      RunKeepsOwnStats(states, steps, k - 1);
      RunSatisfiesInv(states, steps, k - 1);
      assert StepAt(states, steps, k - 1);
      StepKeepsOwnStats(states[k - 1], steps[k - 1]);
    }
  }

  /** What an operation that is no reload does to one stats object. */
  lemma {:induction false} OpMovesActive(p: Pool, op: PoolOp, id: nat)
    requires WellFormed(p) && OpEnabled(p, op) && !op.OpReload? && id < |p.store|
    ensures |Apply(p, op).0.store| == |p.store|
    ensures Apply(p, op).0.store[id].active ==
            p.store[id].active
            + (if op.OpStart? && StartTarget(p, op.address) == Some(id) then 1 else 0)
            - (if op.OpFinishStats? && op.id == id then 1 else 0)
  {
    hide NextFor, StartTarget;
  }

  lemma {:induction false} StartsAtHome(s: System, address: string, other: string)
    requires Inv(s) && OwnStats(s) && Present(s, address)
    ensures StartTarget(s.pool, other) == Some(StatsIdOf(s, address)) <==> other == address
  {
    hide HistoryKept, ProbesHeld, BooksBalance;
  }

  /** The counter of a kept address goes on from its old value. */
  lemma {:induction false} ReloadMovesActive(s: System, addresses: seq<string>, address: string)
    requires Inv(s) && Enabled(s, Reload(addresses)) && Present(s, address) && address in addresses
    ensures var s' := Next(s, Reload(addresses));
            && Inv(s') && Present(s', address) && ActiveOf(s', address) == ActiveOf(s, address)
            && StatsIdOf(s', address) >= |s.pool.store| > StatsIdOf(s, address)
  {
    hide HistoryKept, ProbesHeld, BooksBalance;
    var s' := Next(s, Reload(addresses));
    ReloadKeepsInv(s, addresses);
    var y :| 0 <= y < |addresses| && addresses[y] == address;
    assert s'.pool.backends[y] == ReloadedEntry(s.pool, address, |s.pool.store| + y);
    assert IndexOf(s'.pool.backends, address) == Some(y) by { IndexOfUnique(s'.pool.backends, y); }
    ReloadCopiesActive(s, address);
    assert s'.pool.store[|s.pool.store| + y] == ReloadedStats(s.pool, address);
  }

  lemma {:induction false} OpMovesActiveOf(s: System, step: Step, address: string)
    requires Inv(s) && Enabled(s, step) && !step.Reload? && Present(s, address)
    ensures var p := Apply(s.pool, OpOf(s, step)).0;
            var x := IndexOf(s.pool.backends, address).value;
            && UniqueAddresses(p.backends) && IndexOf(p.backends, address) == Some(x)
            && p.backends[x].statsId == StatsIdOf(s, address) < |p.store|
  {
    StepKeepsInv(s, step);
    hide HistoryKept, ProbesHeld, BooksBalance, HistoryAfter, LedgerAfter, TicketsAfter;
    var x := IndexOf(s.pool.backends, address).value;
    OpKeepsStatsObject(s.pool, OpOf(s, step), x);
    hide Apply;
    IndexOfUnique(Next(s, step).pool.backends, x);
  }

  /** What one step does to the counter of an address. */
  lemma {:induction false} StepMovesActive(s: System, step: Step, address: string)
    requires Inv(s) && OwnStats(s) && Enabled(s, step) && Present(s, address)
    requires step.Reload? ==> address in step.addresses
    ensures Inv(Next(s, step)) && Present(Next(s, step), address)
    ensures StatsIdOf(Next(s, step), address) >= StatsIdOf(s, address)
    ensures ActiveOf(Next(s, step), address) ==
            ActiveOf(s, address)
            + (if step.Start? && s.tickets[step.t].address == address then 1 else 0)
            - (if step.CountFinish? && s.tickets[step.t].phase == Running(StatsIdOf(s, address)) then 1 else 0)
  {
    StepKeepsInv(s, step);
    if step.Reload? {
      hide Next, Enabled;
      ReloadMovesActive(s, step.addresses, address);
    } else {
      hide HistoryKept, ProbesHeld, BooksBalance, Apply, OwnStats, UniqueAddresses, HistoryAfter, LedgerAfter, TicketsAfter;
      OpMovesActiveOf(s, step, address);
      OpMovesActive(s.pool, OpOf(s, step), StatsIdOf(s, address));
      if step.Start? {
        StartsAtHome(s, address, s.tickets[step.t].address);
      }
      hide StartTarget;
    }
  }

  /** What one step does to the requests in flight for an address. */
  lemma {:induction false} StepMovesInFlight(s: System, step: Step, address: string, lo: nat)
    requires Inv(s) && Enabled(s, step) && Present(s, address) && lo <= StatsIdOf(s, address)
    ensures InFlightFrom(Next(s, step), address, lo) ==
            InFlightFrom(s, address, lo)
            + (if step.Start? && s.tickets[step.t].address == address then 1 else 0)
            - (if step.CountFinish? && RunsFor(s.tickets[step.t], address, lo) then 1 else 0)
  {
    hide Apply, NextFor, HistoryKept, ProbesHeld, BooksBalance, HistoryAfter, LedgerAfter;
    var s' := Next(s, step);
    var n := |s.tickets|;
    match step
    case Pick(_, _) => RunningForPrefix(s.tickets, s'.tickets, n, address, lo);
    case Start(t) => RunningForUpdate(s.tickets, t, s'.tickets[t].phase, n, address, lo);
    case CountFinish(t, _, _, _) => RunningForUpdate(s.tickets, t, s'.tickets[t].phase, n, address, lo);
    case ReportFinish(t, _) => RunningForUpdate(s.tickets, t, s'.tickets[t].phase, n, address, lo);
    case _ =>
  }

  /** Counter less requests in flight: load that no request in flight accounts for. */
  function PhantomLoad(s: System, address: string, lo: nat): int
    requires WellFormed(s.pool)
  {
    ActiveOf(s, address) - InFlightFrom(s, address, lo)
  }

  /** A step adds to it exactly when a request that outlived a reload is counted down on its old object. */
  lemma {:induction false} StepMovesPhantom(s: System, step: Step, address: string, lo: nat)
    requires Inv(s) && OwnStats(s) && Enabled(s, step) && Present(s, address) && lo <= StatsIdOf(s, address)
    requires step.Reload? ==> address in step.addresses
    ensures Inv(Next(s, step)) && Present(Next(s, step), address) && lo <= StatsIdOf(Next(s, step), address)
    ensures PhantomLoad(Next(s, step), address, lo) ==
            PhantomLoad(s, address, lo) + if CountsOnOld(s, step, address, lo) then 1 else 0
  {
    hide Next, HistoryKept, ProbesHeld, BooksBalance, ActiveOf, InFlightFrom;
    StepMovesActive(s, step, address);
    StepMovesInFlight(s, step, address, lo);
  }

  /** How many of the steps i, ..., k - 1 count a request down on an old object. */
  function CountedOnOld(states: seq<System>, steps: seq<Step>, i: nat, k: nat, address: string, lo: nat): nat
    requires i <= k <= |steps| && |states| == |steps| + 1
  {
    if k == i then 0
    else
      CountedOnOld(states, steps, i, k - 1, address, lo)
      + if CountsOnOld(states[k - 1], steps[k - 1], address, lo) then 1 else 0
  }

  lemma {:induction false} NoneCountedOnOld(states: seq<System>, steps: seq<Step>, i: nat, k: nat, address: string, lo: nat)
    requires i <= k <= |steps| && |states| == |steps| + 1
    ensures CountedOnOld(states, steps, i, k, address, lo) == 0 <==>
            forall m :: i <= m < k ==> !CountsOnOld(states[m], steps[m], address, lo)
    decreases k
  {
    hide CountsOnOld;
    if i < k {
      NoneCountedOnOld(states, steps, i, k - 1, address, lo);
    }
  }

  /** From any moment on, while the address is kept, its phantom load grows by exactly those steps and never falls. */
  lemma {:induction false} PhantomLoadGrows(
    states: seq<System>, steps: seq<Step>, i: nat, k: nat, address: string, lo: nat)
    requires RunFromStart(states, steps) && i <= k <= |steps|
    requires Present(states[i], address) && lo <= StatsIdOf(states[i], address) && Kept(steps, i, k, address)
    ensures Inv(states[i]) && Inv(states[k]) && Present(states[k], address) && lo <= StatsIdOf(states[k], address)
    ensures PhantomLoad(states[k], address, lo) ==
            PhantomLoad(states[i], address, lo) + CountedOnOld(states, steps, i, k, address, lo)
    decreases k
  {
    hide Inv, PhantomLoad, Present, StatsIdOf, CountsOnOld, Next, Enabled, OwnStats;
    RunSatisfiesInv(states, steps, i);
    if i < k {
      PhantomLoadGrows(states, steps, i, k - 1, address, lo);
      RunKeepsOwnStats(states, steps, k - 1);
      assert StepAt(states, steps, k - 1);
      StepMovesPhantom(states[k - 1], steps[k - 1], address, lo);
    }
  }

  lemma {:induction false} NoneRunsFor(tickets: seq<Ticket>, n: nat, address: string, lo: nat)
    requires n <= |tickets| && forall t :: 0 <= t < n && tickets[t].phase.Running? ==> tickets[t].phase.id < lo
    ensures RunningFor(tickets, n, address, lo) == 0
  {
    if n > 0 {
      NoneRunsFor(tickets, n - 1, address, lo);
    }
  }

  lemma {:induction false} AddedUnused(s: System, addresses: seq<string>, address: string)
    requires Inv(s) && Enabled(s, Reload(addresses)) && Present(Next(s, Reload(addresses)), address)
    ensures var s' := Next(s, Reload(addresses));
            InFlightFrom(s', address, StatsIdOf(s', address)) == 0
  {
    hide HistoryKept, ProbesHeld, Balances, UniqueAddresses;
    var s' := Next(s, Reload(addresses));
    var y := IndexOf(s'.pool.backends, address).value;
    assert s'.pool.backends[y] == ReloadedEntry(s.pool, addresses[y], |s.pool.store| + y);
    NoneRunsFor(s.tickets, |s.tickets|, address, |s.pool.store| + y);
  }

  /** No request runs on the stats object with which an address enters. */
  lemma {:induction false} EntersUnused(states: seq<System>, steps: seq<Step>, b: nat, address: string)
    requires RunFromStart(states, steps) && b <= |steps| && Enters(states, steps, b, address)
    ensures InFlightFrom(states[b], address, StatsIdOf(states[b], address)) == 0
    ensures b == 0 ==> InFlight(states[0], address) == 0
  {
    hide Inv, Next, Enabled, Present, StatsIdOf, Start0;
    if b == 0 {
      NothingAtStart(states, steps);
    } else {
      hide InFlightFrom;
      RunSatisfiesInv(states, steps, b - 1);
      assert StepAt(states, steps, b - 1);
      AddedUnused(states[b - 1], steps[b - 1].addresses, address);
    }
  }

  lemma {:induction false} NothingAtStart(states: seq<System>, steps: seq<Step>)
    requires RunFromStart(states, steps)
    ensures states[0].tickets == []
  {
  }

  /** The requests in flight for the address that were started before stats object lo was. */
  function Older(s: System, address: string, lo: nat): int {
    InFlight(s, address) - InFlightFrom(s, address, lo)
  }

  lemma {:induction false} OlderIsFewer(tickets: seq<Ticket>, n: nat, address: string, lo: nat)
    requires n <= |tickets|
    ensures RunningFor(tickets, n, address, lo) <= RunningFor(tickets, n, address, 0)
  {
    if n > 0 {
      OlderIsFewer(tickets, n - 1, address, lo);
    }
  }

  /** They only ever finish. */
  lemma {:induction false} OlderOnlyFinish(
    states: seq<System>, steps: seq<Step>, i: nat, k: nat, address: string, lo: nat)
    requires RunFromStart(states, steps) && i <= k <= |steps|
    requires Present(states[i], address) && lo <= StatsIdOf(states[i], address) && Kept(steps, i, k, address)
    ensures 0 <= Older(states[k], address, lo) <= Older(states[i], address, lo)
    decreases k
  {
    hide Inv, Present, StatsIdOf, Next, Enabled;
    if i == k {
      OlderIsFewer(states[k].tickets, |states[k].tickets|, address, lo);
    } else {
      OlderOnlyFinish(states, steps, i, k - 1, address, lo);
      OlderIsFewer(states[k].tickets, |states[k].tickets|, address, lo);
      PhantomLoadGrows(states, steps, i, k - 1, address, lo);
      assert StepAt(states, steps, k - 1);
      StepMovesInFlight(states[k - 1], steps[k - 1], address, lo);
      StepMovesInFlight(states[k - 1], steps[k - 1], address, 0);
    }
  }

  /**
   A request that a reload overtakes still counts down on the old stats object, while the copy of its load stays
   on the new one. So from where an address enters, over any number of reloads that keep it, its counter is the
   requests started since and in flight plus all that have finished after a reload overtook them, and it is
   exact if and only if there are none of the latter. A backend that a reload adds again may besides have requests
   in flight from before, which its counter never shows.
   */
  lemma {:induction false} ReloadsLeavePhantomLoad(states: seq<System>, steps: seq<Step>, b: nat, k: nat, address: string)
    requires RunFromStart(states, steps) && b <= k <= |steps|
    requires Enters(states, steps, b, address) && Kept(steps, b, k, address)
    ensures Inv(states[k]) && Present(states[k], address)
    ensures var lo := StatsIdOf(states[b], address);
            var since := InFlightFrom(states[k], address, lo);
            && ActiveOf(states[k], address) == since + CountedOnOld(states, steps, b, k, address, lo)
            && (ActiveOf(states[k], address) == since <==>
                forall m :: b <= m < k ==> !CountsOnOld(states[m], steps[m], address, lo))
            && since <= InFlight(states[k], address) <= since + InFlight(states[b], address)
            && (b == 0 ==> InFlight(states[k], address) == since)
  {
    hide Inv, Present, ActiveOf, StepAt, Kept, CountsOnOld, Next, StatsIdOf;
    var lo := StatsIdOf(states[b], address);
    EntersWithoutLoad(states, steps, b, address);
    EntersUnused(states, steps, b, address);
    RunKeepsOwnStats(states, steps, b);
    CurrentIsInFlight(states[b], address, lo);
    PhantomLoadGrows(states, steps, b, k, address, lo);
    OlderOnlyFinish(states, steps, b, k, address, lo);
    NoneCountedOnOld(states, steps, b, k, address, lo);
  }

  /** Until the first reload after it enters, the counter of an address is exactly its requests since then in flight. */
  lemma {:induction false} ActiveIsInFlight(states: seq<System>, steps: seq<Step>, b: nat, k: nat, address: string)
    requires RunFromStart(states, steps) && b <= k <= |steps| && Enters(states, steps, b, address)
    requires forall m :: b <= m < k ==> !steps[m].Reload?
    ensures Inv(states[k]) && Present(states[k], address) && Present(states[b], address)
    ensures var lo := StatsIdOf(states[b], address);
            && ActiveOf(states[k], address) == InFlightFrom(states[k], address, lo)
            && (b == 0 ==> ActiveOf(states[k], address) == InFlight(states[k], address))
  {
    hide Inv, Present, ActiveOf, StepAt, CountsOnOld, Next, StatsIdOf, OnCurrent;
    ReloadsLeavePhantomLoad(states, steps, b, k, address);
    CopiedLoadAddsUp(states, steps, b, k, address);
    PhantomLoadGrows(states, steps, b, k, address, StatsIdOf(states[b], address));
    RunKeepsOwnStats(states, steps, k);
    CurrentIsInFlight(states[k], address, StatsIdOf(states[b], address));
    SumIsZero(states, steps, b, k, address);
  }

  /** The requests on the counter of an address are among its requests in flight. */
  lemma {:induction false} CurrentIsInFlight(s: System, address: string, lo: nat)
    requires OwnStats(s) && Present(s, address) && lo <= StatsIdOf(s, address)
    ensures OnCurrent(s, address) <= InFlightFrom(s, address, lo)
  {
    CurrentUpTo(s, address, lo, |s.tickets|);
  }

  lemma {:induction false} CurrentUpTo(s: System, address: string, lo: nat, n: nat)
    requires OwnStats(s) && Present(s, address) && lo <= StatsIdOf(s, address) && n <= |s.tickets|
    ensures RunningOn(s.tickets, n, StatsIdOf(s, address)) <= RunningFor(s.tickets, n, address, lo)
  {
    if n > 0 {
      CurrentUpTo(s, address, lo, n - 1);
    }
  }

  // ---------------------------------------------------------------- a run with phantom load

  /** A pool with the one backend a, one request and the given counts of stats objects. */
  predicate OneBackend(s: System, cells: nat, phase: Phase) {
    && |s.pool.backends| == 1 && s.pool.backends[0].address == "a"
    && s.pool.backends[0].statsId + 1 == cells == |s.pool.store| == |s.ledger|
    && s.tickets == [Ticket("a", phase)]
  }

  lemma {:induction false} FirstPick()
    ensures Enabled(Start0(["a"], map[], 0), Pick(None, 0))
    ensures PickedAddress(Start0(["a"], map[], 0).pool, None, 0) == Some("a")
    ensures OneBackend(Next(Start0(["a"], map[], 0), Pick(None, 0)), 1, Chosen)
    ensures Next(Start0(["a"], map[], 0), Pick(None, 0)).pool.store == [NO_STATS]
  {
    var s0 := Start0(["a"], map[], 0);
    PoolSelection.SoleBackendIsPicked(s0.pool, 0);
    NextForEffect(s0.pool, None, 0);
  }

  lemma {:induction false} FirstStart(s: System)
    requires OneBackend(s, 1, Chosen) && s.pool.store == [NO_STATS]
    ensures Enabled(s, Start(0)) && OneBackend(Next(s, Start(0)), 1, Running(0))
    ensures Next(s, Start(0)).pool.store[0].active == 1
  {
  }

  lemma {:induction false} ReloadInFlight(s: System)
    requires OneBackend(s, 1, Running(0)) && s.pool.store[0].active == 1
    ensures Enabled(s, Reload(["a"])) && OneBackend(Next(s, Reload(["a"])), 2, Running(0))
    ensures Next(s, Reload(["a"])).pool.store[1].active == 1
  {
    assert LastIndexOf(s.pool.backends, "a") == Some(0);
  }

  lemma {:induction false} FinishOnOldStats(s: System)
    requires OneBackend(s, 2, Running(0)) && s.pool.store[1].active == 1
    ensures var count := CountFinish(0, 200, 1, false);
            && Enabled(s, count)
            && var counted := Next(s, count);
            && OneBackend(counted, 2, Counted(false)) && counted.pool.store[1].active == 1
            && LeavesLoad(counted, ReportFinish(0, counted.clock))
  {
    ReportOnOldStats(Next(s, CountFinish(0, 200, 1, false)));
  }

  /** The step reports the request and leaves the new counter at one. */
  predicate LeavesLoad(s: System, report: Step) {
    && Enabled(s, report)
    && var done := Next(s, report);
    && OneBackend(done, 2, Reported) && WellFormed(done.pool) && ActiveAt(done.pool, 0) == 1
  }

  lemma {:induction false} ReportOnOldStats(s: System)
    requires OneBackend(s, 2, Counted(false)) && s.pool.store[1].active == 1 && WellFormed(s.pool)
    ensures LeavesLoad(s, ReportFinish(0, s.clock))
  {
    assert IndexOf(s.pool.backends, "a") == Some(0);
  }

  lemma {:induction false} OneRequestInFlight() returns (states: seq<System>, steps: seq<Step>)
    ensures RunFromStart(states, steps) && steps == [Pick(None, 0), Start(0)]
    ensures states[0].tickets == [] && states[1].tickets == [Ticket("a", Chosen)]
    ensures WellFormed(states[0].pool) && PickedAddress(states[0].pool, None, 0) == Some("a")
    ensures OneBackend(states[2], 1, Running(0)) && states[2].pool.store[0].active == 1
  {
    var s0 := Start0(["a"], map[], 0);
    FirstPick();
    FirstStart(Next(s0, Pick(None, 0)));
    states, steps := [s0], [];
    hide Next, Enabled, PickedAddress, WellFormed, StepAt, Start0;
    states, steps := Extended(states, steps, Pick(None, 0));
    states, steps := Extended(states, steps, Start(0));
  }

  /**
   The phantom load is real: one request, in flight across one reload, and every request reported,
   yet the only backend counts one active request.
   */
  lemma {:induction false} PhantomLoadHappens() returns (states: seq<System>, steps: seq<Step>)
    ensures RunFromStart(states, steps)
    ensures var s := states[|steps|];
            OneBackend(s, 2, Reported) && WellFormed(s.pool) && ActiveAt(s.pool, 0) == 1
  {
    hide Next, Enabled, OneBackend, StepAt;
    states, steps := OneRequestInFlight();
    ReloadInFlight(states[2]);
    states, steps := Extended(states, steps, Reload(["a"]));
    FinishOnOldStats(states[3]);
    states, steps := Extended(states, steps, CountFinish(0, 200, 1, false));
    states, steps := Extended(states, steps, ReportFinish(0, states[4].clock));
  }

  /** Removing the backend and adding it again loses the request in flight: the new counter reads zero. */
  lemma {:induction false} OlderRequestsAreMissed() returns (states: seq<System>, steps: seq<Step>)
    ensures RunFromStart(states, steps)
    ensures var s := states[|steps|];
            WellFormed(s.pool) && Present(s, "a") && InFlight(s, "a") == 1 && ActiveOf(s, "a") == 0
  {
    hide Next, Enabled, OneBackend, StepAt;
    states, steps := OneRequestInFlight();
    RemovedAndAdded(states[2]);
    states, steps := Extended(states, steps, Reload([]));
    states, steps := Extended(states, steps, Reload(["a"]));
  }

  lemma {:induction false} RemovedAndAdded(s: System)
    requires OneBackend(s, 1, Running(0))
    ensures Enabled(s, Reload([])) && Enabled(Next(s, Reload([])), Reload(["a"]))
    ensures var after := Next(Next(s, Reload([])), Reload(["a"]));
            WellFormed(after.pool) && Present(after, "a") && InFlight(after, "a") == 1 && ActiveOf(after, "a") == 0
  {
    var s' := Next(s, Reload([]));
    var after := Next(s', Reload(["a"]));
    assert after.pool.backends[0] == ReloadedEntry(s'.pool, "a", 1);
    assert RunningFor(s.tickets, 0, "a", 0) == 0;
  }
}

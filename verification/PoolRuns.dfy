/**
 Runs of the whole pool: requests with their finish closures, health checks, admin actions, readers
 and reloads, interleaved in any order. Each locked method of health.go is one step, and a finish
 closure is two: its counter updates, then its call of finishRequest. Times never decrease along a
 run because every method reads the clock while it holds the lock.
 */
module PoolRuns {
  import opened Options
  import opened PoolModel

  /** Life of one request handed to a backend: picked, bound to a stats object, counted, reported. */
  datatype Phase =
    | Chosen
    | Running(id: nat)
    | Detached
    | Counted(failed: bool)
    | Reported

  datatype Ticket = Ticket(address: string, phase: Phase)

  datatype FinishRecord = FinishRecord(failed: bool, at: Time)

  /** What a stats object held when it was created, and how many requests were started on it since. */
  datatype Ledger = Ledger(opening: Stats, starts: nat)

  datatype System = System(
    pool: Pool,
    clock: Time,
    tickets: seq<Ticket>,
    history: map<string, seq<FinishRecord>>,
    ledger: seq<Ledger>)

  datatype Step =
    | Pick(allowed: Allowed, now: Time)
    | Start(t: nat)
    | CountFinish(t: nat, status: int, latencyNs: int, err: bool)
    | ReportFinish(t: nat, now: Time)
    | HealthCheck(address: string, ok: bool)
    | AdminAction(address: string, action: string)
    | ReadAvailable(now: Time)
    | ReadStatus(now: Time)
    | Reload(addresses: seq<string>)

  predicate IsChosen(s: System, t: nat) {
    t < |s.tickets| && s.tickets[t].phase.Chosen?
  }

  predicate IsRunning(s: System, t: nat) {
    t < |s.tickets| && s.tickets[t].phase.Running? && s.tickets[t].phase.id < |s.pool.store|
  }

  predicate IsCounted(s: System, t: nat) {
    t < |s.tickets| && s.tickets[t].phase.Counted?
  }

  predicate Enabled(s: System, step: Step) {
    && WellFormed(s.pool)
    && |s.ledger| == |s.pool.store|
    && match step
       case Pick(_, now) => s.clock <= now
       case Start(t) => IsChosen(s, t)
       case CountFinish(t, _, _, _) => IsRunning(s, t)
       case ReportFinish(t, now) => IsCounted(s, t) && s.clock <= now
       case ReadAvailable(now) => s.clock <= now
       case ReadStatus(now) => s.clock <= now
       case Reload(addresses) => Distinct(addresses)
       case _ => true
  }

  /** The pool operation a step performs. */
  function OpOf(s: System, step: Step): PoolOp
    requires Enabled(s, step)
  {
    match step
    case Pick(allowed, now) => OpNext(allowed, now)
    case Start(t) => OpStart(s.tickets[t].address)
    case CountFinish(t, status, latencyNs, err) => OpFinishStats(s.tickets[t].phase.id, status, latencyNs, err)
    case ReportFinish(t, now) => OpFinish(s.tickets[t].address, s.tickets[t].phase.failed, now)
    case HealthCheck(address, ok) => OpHealth(address, ok)
    case AdminAction(address, action) => OpSetState(address, action)
    case ReadAvailable(now) => OpAvailable(now)
    case ReadStatus(now) => OpStatus(now)
    case Reload(addresses) => OpReload(addresses)
  }

  function SetPhase(tickets: seq<Ticket>, t: nat, phase: Phase): seq<Ticket>
    requires t < |tickets|
  {
    tickets[t := tickets[t].(phase := phase)]
  }

  function TicketsAfter(s: System, step: Step): seq<Ticket>
    requires Enabled(s, step)
  {
    match step
    case Pick(allowed, now) =>
      var a := PickedAddress(s.pool, allowed, now);
      if a.None? then s.tickets else s.tickets + [Ticket(a.value, Chosen)]
    case Start(t) =>
      var target := StartTarget(s.pool, s.tickets[t].address);
      SetPhase(s.tickets, t, if target.None? then Detached else Running(target.value))
    case CountFinish(t, status, _, err) => SetPhase(s.tickets, t, Counted(Failed(status, err)))
    case ReportFinish(t, _) => SetPhase(s.tickets, t, Reported)
    case _ => s.tickets
  }

  function HistoryAfter(s: System, step: Step): map<string, seq<FinishRecord>>
    requires Enabled(s, step)
  {
    match step
    case ReportFinish(t, now) =>
      var a := s.tickets[t].address;
      if IndexOf(s.pool.backends, a).Some? && a in s.history then
        s.history[a := s.history[a] + [FinishRecord(s.tickets[t].phase.failed, now)]]
      else s.history
    case Reload(addresses) =>
      map a | a in addresses :: if LastIndexOf(s.pool.backends, a).Some? && a in s.history then s.history[a] else []
    case _ => s.history
  }

  function LedgerAfter(s: System, step: Step): seq<Ledger>
    requires Enabled(s, step)
  {
    match step
    case Start(t) =>
      var target := StartTarget(s.pool, s.tickets[t].address);
      if target.None? then s.ledger
      else s.ledger[target.value := s.ledger[target.value].(starts := s.ledger[target.value].starts + 1)]
    case Reload(addresses) =>
      var cells := ReloadedStore(s.pool, addresses);
      s.ledger + seq(|cells|, k requires 0 <= k < |cells| => Ledger(cells[k], 0))
    case _ => s.ledger
  }

  function ClockAfter(s: System, step: Step): Time {
    match step
    case Pick(_, now) => now
    case ReportFinish(_, now) => now
    case ReadAvailable(now) => now
    case ReadStatus(now) => now
    case _ => s.clock
  }

  function Next(s: System, step: Step): System
    requires Enabled(s, step)
  {
    System(Apply(s.pool, OpOf(s, step)).0, ClockAfter(s, step), TicketsAfter(s, step),
           HistoryAfter(s, step), LedgerAfter(s, step))
  }

  function Start0(addresses: seq<string>, weights: map<string, int>, clock: Time): System {
    System(InitialPool(addresses, weights), clock, [], map a | a in addresses :: [],
           seq(|addresses|, i => Ledger(NO_STATS, 0)))
  }

  /** states[k + 1] follows states[k] by steps[k]. */
  ghost predicate StepAt(states: seq<System>, steps: seq<Step>, k: nat)
    requires |states| == |steps| + 1 && k < |steps|
  {
    Enabled(states[k], steps[k]) && states[k + 1] == Next(states[k], steps[k])
  }

  ghost predicate Execution(states: seq<System>, steps: seq<Step>) {
    |states| == |steps| + 1 && forall k :: 0 <= k < |steps| ==> StepAt(states, steps, k)
  }

  /** Every run starts with a pool whose addresses are all different. */
  ghost predicate RunFromStart(states: seq<System>, steps: seq<Step>) {
    && Execution(states, steps)
    && exists addresses, weights, clock :: Distinct(addresses) && states[0] == Start0(addresses, weights, clock)
  }

  // ---------------------------------------------------------------- the invariants

  /** Length of the run of failures at the end of a history. */
  function TrailingFailures(h: seq<FinishRecord>): nat {
    if h == [] || !h[|h| - 1].failed then 0 else TrailingFailures(h[..|h| - 1]) + 1
  }

  /** Until when the history keeps the breaker open: fifteen seconds after the last of three or more failures. */
  function Deadline(h: seq<FinishRecord>): Option<Time> {
    if h != [] && TrailingFailures(h) >= BREAKER_FAILURE_THRESHOLD then Some(h[|h| - 1].at + BREAKER_COOLDOWN) else None
  }

  /** The breaker state a history calls for at time now. */
  function StateFromHistory(h: seq<FinishRecord>, now: Time): Breaker {
    if TrailingFailures(h) < BREAKER_FAILURE_THRESHOLD then Closed
    else if Before(now, Deadline(h)) then Open
    else HalfOpen
  }

  predicate BreakerFollows(e: Entry, h: seq<FinishRecord>, clock: Time) {
    && e.consecutiveErr == TrailingFailures(h)
    && e.openedUntil == Deadline(h)
    && (e.breaker == Closed <==> TrailingFailures(h) < BREAKER_FAILURE_THRESHOLD)
    && (e.breaker == HalfOpen ==> !Before(clock, e.openedUntil))
  }

  predicate HistoryKept(s: System) {
    forall i :: 0 <= i < |s.pool.backends| ==>
      && s.pool.backends[i].address in s.history
      && BreakerFollows(s.pool.backends[i], s.history[s.pool.backends[i].address], s.clock)
  }

  /** The ticket still owes the pool a finishRequest call. */
  predicate Live(t: Ticket) {
    t.phase.Chosen? || t.phase.Running? || t.phase.Counted?
  }

  predicate HasLiveTicket(tickets: seq<Ticket>, address: string) {
    exists t :: 0 <= t < |tickets| && tickets[t].address == address && Live(tickets[t])
  }

  predicate ProbesHeld(s: System) {
    forall i :: 0 <= i < |s.pool.backends| && s.pool.backends[i].halfOpenInFlight ==>
      s.pool.backends[i].breaker == HalfOpen && HasLiveTicket(s.tickets, s.pool.backends[i].address)
  }

  /** How many of the first n tickets are started on stats object id and not yet counted. */
  function RunningOn(tickets: seq<Ticket>, n: nat, id: nat): nat
    requires n <= |tickets|
  {
    if n == 0 then 0 else RunningOn(tickets, n - 1, id) + (if tickets[n - 1].phase == Running(id) then 1 else 0)
  }

  predicate Balances(s: Stats, l: Ledger, running: nat) {
    && s.active + s.requests == l.opening.active + l.opening.requests + l.starts
    && s.active == l.opening.active + running
    && l.opening.active >= 0
    && s.errors <= s.requests
  }

  predicate BooksBalance(s: System) {
    && |s.ledger| == |s.pool.store|
    && (forall id :: 0 <= id < |s.ledger| ==>
          Balances(s.pool.store[id], s.ledger[id], RunningOn(s.tickets, |s.tickets|, id)))
    && (forall t :: 0 <= t < |s.tickets| && s.tickets[t].phase.Running? ==> s.tickets[t].phase.id < |s.ledger|)
  }

  predicate Inv(s: System) {
    && WellFormed(s.pool)
    && UniqueAddresses(s.pool.backends)
    && HistoryKept(s)
    && ProbesHeld(s)
    && BooksBalance(s)
  }

  lemma {:induction false} StartSatisfiesInv(addresses: seq<string>, weights: map<string, int>, clock: Time)
    requires Distinct(addresses)
    ensures Inv(Start0(addresses, weights, clock))
  {
  }

  // ---------------------------------------------------------------- address and history lemmas

  lemma {:induction false} IndexOfUnique(backends: seq<Entry>, i: nat)
    requires UniqueAddresses(backends) && i < |backends|
    ensures IndexOf(backends, backends[i].address) == Some(i)
    ensures LastIndexOf(backends, backends[i].address) == Some(i)
  {
  }

  lemma {:induction false} FinishFollowsHistory(e: Entry, h: seq<FinishRecord>, clock: Time, failed: bool, now: Time)
    requires BreakerFollows(e, h, clock) && clock <= now
    ensures BreakerFollows(FinishEntry(e, failed, now), h + [FinishRecord(failed, now)], now)
  {
  }

  lemma {:induction false} VisitFollowsHistory(e: Entry, h: seq<FinishRecord>, clock: Time, allowed: Allowed, now: Time)
    requires BreakerFollows(e, h, clock) && clock <= now
    ensures BreakerFollows(Visit(e, allowed, now), h, now)
    ensures BreakerFollows(TakeProbe(Visit(e, allowed, now)), h, now)
  {
  }

  /** Whatever the time of the reader, the state it sees is the one the finish calls alone determine. */
  lemma {:induction false} ReportedStateIsHistory(e: Entry, h: seq<FinishRecord>, clock: Time, now: Time)
    requires BreakerFollows(e, h, clock) && clock <= now
    ensures ReportedState(e, now) == StateFromHistory(h, now)
  {
  }

  // ---------------------------------------------------------------- preservation, step by step

  /** A new ticket list is as good as the old one when every live obligation survives. */
  ghost predicate KeepsLive(before: seq<Ticket>, after: seq<Ticket>, address: string) {
    HasLiveTicket(before, address) ==> HasLiveTicket(after, address)
  }

  lemma {:induction false} AppendKeepsLive(tickets: seq<Ticket>, t: Ticket, address: string)
    ensures KeepsLive(tickets, tickets + [t], address)
    ensures t.address == address && Live(t) ==> HasLiveTicket(tickets + [t], address)
  {
    if HasLiveTicket(tickets, address) {
      var k :| 0 <= k < |tickets| && tickets[k].address == address && Live(tickets[k]);
      assert (tickets + [t])[k] == tickets[k];
    }
    assert (tickets + [t])[|tickets|] == t;
  }

  lemma {:induction false} UpdateKeepsLive(tickets: seq<Ticket>, t: nat, phase: Phase, address: string)
    requires t < |tickets|
    requires tickets[t].address != address || Live(Ticket(address, phase))
    ensures KeepsLive(tickets, SetPhase(tickets, t, phase), address)
  {
    if HasLiveTicket(tickets, address) {
      var k :| 0 <= k < |tickets| && tickets[k].address == address && Live(tickets[k]);
      assert Live(SetPhase(tickets, t, phase)[k]);
    }
  }

  lemma {:induction false} RunningOnPrefix(before: seq<Ticket>, after: seq<Ticket>, n: nat, id: nat)
    requires n <= |before| && n <= |after|
    requires forall k :: 0 <= k < n ==> after[k].phase == before[k].phase
    ensures RunningOn(after, n, id) == RunningOn(before, n, id)
  {
    if n > 0 {
      RunningOnPrefix(before, after, n - 1, id);
    }
  }

  lemma {:induction false} RunningOnUpdate(tickets: seq<Ticket>, t: nat, phase: Phase, n: nat, id: nat)
    requires t < n <= |tickets|
    ensures RunningOn(SetPhase(tickets, t, phase), n, id) ==
            RunningOn(tickets, n, id)
            + (if phase == Running(id) then 1 else 0) - (if tickets[t].phase == Running(id) then 1 else 0)
  {
    if t == n - 1 {
      RunningOnPrefix(tickets, SetPhase(tickets, t, phase), t, id);
    } else {
      RunningOnUpdate(tickets, t, phase, n - 1, id);
    }
  }

  lemma {:induction false} NoneRunningOnNew(tickets: seq<Ticket>, n: nat, id: nat)
    requires n <= |tickets|
    requires forall t :: 0 <= t < n && tickets[t].phase.Running? ==> tickets[t].phase.id < id
    ensures RunningOn(tickets, n, id) == 0
  {
    if n > 0 {
      NoneRunningOnNew(tickets, n - 1, id);
    }
  }

  /** nextFor, entry by entry. */
  lemma {:induction false} NextForEffect(p: Pool, allowed: Allowed, now: Time)
    requires WellFormed(p)
    ensures var r := NextFor(p, allowed, now);
            forall i :: 0 <= i < |p.backends| ==>
              r.pool.backends[i] ==
              if r.chosen == Some(i) then TakeProbe(Visit(p.backends[i], allowed, now)) else Visit(p.backends[i], allowed, now)
  {
  }

  /** The parts of the invariant that concern the entries, after a step that moves each entry on its own. */
  lemma {:induction false} EntrywiseKeepsInv(s: System, s': System)
    requires Inv(s) && BooksBalance(s') && WellFormed(s'.pool)
    requires |s'.pool.backends| == |s.pool.backends| && s'.history == s.history
    requires forall i :: 0 <= i < |s.pool.backends| ==>
               var e, e' := s.pool.backends[i], s'.pool.backends[i];
               && e'.address == e.address
               && BreakerFollows(e', s.history[e.address], s'.clock)
               && (e'.halfOpenInFlight ==> e'.breaker == HalfOpen && HasLiveTicket(s'.tickets, e.address))
    ensures Inv(s')
  {
  }

  lemma {:induction false} PickKeepsBooks(s: System, allowed: Allowed, now: Time)
    requires Inv(s) && Enabled(s, Pick(allowed, now))
    ensures BooksBalance(Next(s, Pick(allowed, now)))
  {
    hide HistoryKept, ProbesHeld, UniqueAddresses, NextFor;
    var s' := Next(s, Pick(allowed, now));
    assert s'.pool.store == s.pool.store && s'.ledger == s.ledger;
    forall id | 0 <= id < |s.ledger|
      ensures Balances(s'.pool.store[id], s'.ledger[id], RunningOn(s'.tickets, |s'.tickets|, id))
    {
      RunningOnPrefix(s.tickets, s'.tickets, |s.tickets|, id);
    }
  }

  lemma {:induction false} PickMovesEntry(s: System, allowed: Allowed, now: Time, i: nat)
    requires Inv(s) && Enabled(s, Pick(allowed, now)) && i < |s.pool.backends|
    ensures var s' := Next(s, Pick(allowed, now));
            var e, e' := s.pool.backends[i], s'.pool.backends[i];
            && e'.address == e.address
            && BreakerFollows(e', s.history[e.address], now)
            && (e'.halfOpenInFlight ==> e'.breaker == HalfOpen && HasLiveTicket(s'.tickets, e.address))
  {
    var e := s.pool.backends[i];
    NextForEffect(s.pool, allowed, now);
    VisitFollowsHistory(e, s.history[e.address], s.clock, allowed, now);
    var a := PickedAddress(s.pool, allowed, now);
    if a.Some? {
      AppendKeepsLive(s.tickets, Ticket(a.value, Chosen), e.address);
    }
  }

  lemma {:induction false} PickKeepsInv(s: System, allowed: Allowed, now: Time)
    requires Inv(s) && Enabled(s, Pick(allowed, now))
    ensures Inv(Next(s, Pick(allowed, now)))
  {
    var s' := Next(s, Pick(allowed, now));
    PickKeepsBooks(s, allowed, now);
    forall i | 0 <= i < |s.pool.backends|
      ensures var e, e' := s.pool.backends[i], s'.pool.backends[i];
              && e'.address == e.address
              && BreakerFollows(e', s.history[e.address], now)
              && (e'.halfOpenInFlight ==> e'.breaker == HalfOpen && HasLiveTicket(s'.tickets, e.address))
    {
      PickMovesEntry(s, allowed, now, i);
    }
    EntrywiseKeepsInv(s, s');
  }

  lemma {:induction false} ReadAvailableKeepsInv(s: System, now: Time)
    requires Inv(s) && Enabled(s, ReadAvailable(now))
    ensures Inv(Next(s, ReadAvailable(now)))
  {
    var s' := Next(s, ReadAvailable(now));
    forall i | 0 <= i < |s.pool.backends|
      ensures BreakerFollows(s'.pool.backends[i], s.history[s.pool.backends[i].address], s'.clock)
    {
      VisitFollowsHistory(s.pool.backends[i], s.history[s.pool.backends[i].address], s.clock, None, now);
    }
    EntrywiseKeepsInv(s, s');
  }

  lemma {:induction false} StartKeepsInv(s: System, t: nat)
    requires Inv(s) && Enabled(s, Start(t))
    ensures Inv(Next(s, Start(t)))
  {
    var s' := Next(s, Start(t));
    var address := s.tickets[t].address;
    var target := StartTarget(s.pool, address);
    var phase := if target.None? then Detached else Running(target.value);
    forall id | 0 <= id < |s.ledger|
      ensures Balances(s'.pool.store[id], s'.ledger[id], RunningOn(s'.tickets, |s'.tickets|, id))
    {
      RunningOnUpdate(s.tickets, t, phase, |s.tickets|, id);
    }
    forall i | 0 <= i < |s.pool.backends| && s.pool.backends[i].halfOpenInFlight
      ensures HasLiveTicket(s'.tickets, s.pool.backends[i].address)
    {
      IndexOfUnique(s.pool.backends, i);
      UpdateKeepsLive(s.tickets, t, phase, s.pool.backends[i].address);
    }
    EntrywiseKeepsInv(s, s');
  }

  lemma {:induction false} CountFinishKeepsInv(s: System, t: nat, status: int, latencyNs: int, err: bool)
    requires Inv(s) && Enabled(s, CountFinish(t, status, latencyNs, err))
    ensures Inv(Next(s, CountFinish(t, status, latencyNs, err)))
  {
    var s' := Next(s, CountFinish(t, status, latencyNs, err));
    var phase := Counted(Failed(status, err));
    forall id | 0 <= id < |s.ledger|
      ensures Balances(s'.pool.store[id], s'.ledger[id], RunningOn(s'.tickets, |s'.tickets|, id))
    {
      RunningOnUpdate(s.tickets, t, phase, |s.tickets|, id);
    }
    forall i | 0 <= i < |s.pool.backends| && s.pool.backends[i].halfOpenInFlight
      ensures HasLiveTicket(s'.tickets, s.pool.backends[i].address)
    {
      UpdateKeepsLive(s.tickets, t, phase, s.pool.backends[i].address);
    }
    EntrywiseKeepsInv(s, s');
  }

  lemma {:induction false} ReportFinishKeepsInv(s: System, t: nat, now: Time)
    requires Inv(s) && Enabled(s, ReportFinish(t, now))
    ensures Inv(Next(s, ReportFinish(t, now)))
  {
    var s' := Next(s, ReportFinish(t, now));
    var address, failed := s.tickets[t].address, s.tickets[t].phase.failed;
    forall id | 0 <= id < |s.ledger|
      ensures RunningOn(s'.tickets, |s'.tickets|, id) == RunningOn(s.tickets, |s.tickets|, id)
    {
      RunningOnUpdate(s.tickets, t, Reported, |s.tickets|, id);
    }
    forall i | 0 <= i < |s.pool.backends|
      ensures var e, e' := s.pool.backends[i], s'.pool.backends[i];
              && e'.address == e.address && e.address in s'.history
              && BreakerFollows(e', s'.history[e.address], s'.clock)
              && (e'.halfOpenInFlight ==> e'.breaker == HalfOpen && HasLiveTicket(s'.tickets, e.address))
    {
      var e := s.pool.backends[i];
      IndexOfUnique(s.pool.backends, i);
      if e.address == address {
        FinishFollowsHistory(e, s.history[e.address], s.clock, failed, now);
      } else {
        UpdateKeepsLive(s.tickets, t, Reported, e.address);
      }
    }
  }

  lemma {:induction false} HealthCheckKeepsInv(s: System, address: string, ok: bool)
    requires Inv(s) && Enabled(s, HealthCheck(address, ok))
    ensures Inv(Next(s, HealthCheck(address, ok)))
  {
    EntrywiseKeepsInv(s, Next(s, HealthCheck(address, ok)));
  }

  lemma {:induction false} AdminActionKeepsInv(s: System, address: string, action: string)
    requires Inv(s) && Enabled(s, AdminAction(address, action))
    ensures Inv(Next(s, AdminAction(address, action)))
  {
    EntrywiseKeepsInv(s, Next(s, AdminAction(address, action)));
  }

  lemma {:induction false} ReloadMovesEntry(s: System, addresses: seq<string>, k: nat)
    requires Inv(s) && Enabled(s, Reload(addresses)) && k < |addresses|
    ensures var s' := Next(s, Reload(addresses));
            var e' := s'.pool.backends[k];
            && e'.address == addresses[k] && addresses[k] in s'.history
            && BreakerFollows(e', s'.history[addresses[k]], s'.clock)
            && (e'.halfOpenInFlight ==> e'.breaker == HalfOpen && HasLiveTicket(s'.tickets, addresses[k]))
  {
    assert addresses[k] in addresses;
    var e' := ReloadedEntry(s.pool, addresses[k], |s.pool.store| + k);
    assert Next(s, Reload(addresses)).pool.backends[k] == e';
  }

  lemma {:induction false} ReloadKeepsBooks(s: System, addresses: seq<string>)
    requires Inv(s) && Enabled(s, Reload(addresses))
    ensures BooksBalance(Next(s, Reload(addresses)))
  {
    var s' := Next(s, Reload(addresses));
    forall id | 0 <= id < |s'.ledger|
      ensures Balances(s'.pool.store[id], s'.ledger[id], RunningOn(s'.tickets, |s'.tickets|, id))
    {
      if id >= |s.ledger| {
        NoneRunningOnNew(s.tickets, |s.tickets|, id);
        ReloadedStatsSound(s, addresses[id - |s.ledger|]);
      }
    }
  }

  lemma {:induction false} ReloadKeepsInv(s: System, addresses: seq<string>)
    requires Inv(s) && Enabled(s, Reload(addresses))
    ensures Inv(Next(s, Reload(addresses)))
  {
    var s' := Next(s, Reload(addresses));
    ReloadKeepsBooks(s, addresses);
    forall k | 0 <= k < |s'.pool.backends|
      ensures var e' := s'.pool.backends[k];
              && e'.address == addresses[k] && e'.address in s'.history
              && BreakerFollows(e', s'.history[e'.address], s'.clock)
              && (e'.halfOpenInFlight ==> e'.breaker == HalfOpen && HasLiveTicket(s'.tickets, e'.address))
    {
      ReloadMovesEntry(s, addresses, k);
    }
  }

  /** The counters a reload copies satisfy the same bound as the ones it copies from. */
  lemma {:induction false} ReloadedStatsSound(s: System, address: string)
    requires Inv(s)
    ensures ReloadedStats(s.pool, address).errors <= ReloadedStats(s.pool, address).requests
  {
  }

  lemma {:induction false} StepKeepsInv(s: System, step: Step)
    requires Inv(s) && Enabled(s, step)
    ensures Inv(Next(s, step))
  {
    match step
    case Pick(allowed, now) => PickKeepsInv(s, allowed, now);
    case Start(t) => StartKeepsInv(s, t);
    case CountFinish(t, status, latencyNs, err) => CountFinishKeepsInv(s, t, status, latencyNs, err);
    case ReportFinish(t, now) => ReportFinishKeepsInv(s, t, now);
    case HealthCheck(address, ok) => HealthCheckKeepsInv(s, address, ok);
    case AdminAction(address, action) => AdminActionKeepsInv(s, address, action);
    case ReadAvailable(now) => ReadAvailableKeepsInv(s, now);
    case ReadStatus(now) => EntrywiseKeepsInv(s, Next(s, step));
    case Reload(addresses) => ReloadKeepsInv(s, addresses);
  }

  lemma {:induction false} ExecutionKeepsInv(states: seq<System>, steps: seq<Step>, i: nat, k: nat)
    requires Execution(states, steps) && i <= k < |states| && Inv(states[i])
    ensures Inv(states[k])
    decreases k - i
  {
    if i < k {
      ExecutionKeepsInv(states, steps, i, k - 1);
      assert StepAt(states, steps, k - 1);
      StepKeepsInv(states[k - 1], steps[k - 1]);
    }
  }

  lemma {:induction false} RunSatisfiesInv(states: seq<System>, steps: seq<Step>, k: nat)
    requires RunFromStart(states, steps) && k < |states|
    ensures Inv(states[k])
  {
    var addresses, weights, clock :| Distinct(addresses) && states[0] == Start0(addresses, weights, clock);
    StartSatisfiesInv(addresses, weights, clock);
    ExecutionKeepsInv(states, steps, 0, k);
  }

  /** A run goes on with any enabled step. */
  lemma {:induction false} ExtendRun(states: seq<System>, steps: seq<Step>, step: Step, s: System)
    requires RunFromStart(states, steps) && Enabled(states[|steps|], step) && s == Next(states[|steps|], step)
    ensures RunFromStart(states + [s], steps + [step])
  {
    hide Next, Enabled, Start0;
    var states', steps' := states + [s], steps + [step];
    forall k | 0 <= k < |steps'| ensures StepAt(states', steps', k) {
      if k < |steps| {
        assert StepAt(states, steps, k);
      }
    }
    assert states'[0] == states[0];
  }

  lemma {:induction false} Extended(states: seq<System>, steps: seq<Step>, step: Step)
    returns (states': seq<System>, steps': seq<Step>)
    requires RunFromStart(states, steps) && Enabled(states[|steps|], step)
    ensures RunFromStart(states', steps') && steps' == steps + [step] && states' == states + [states'[|steps'|]]
    ensures states'[|steps'|] == Next(states[|steps|], step)
  {
    hide Next, Enabled;
    ExtendRun(states, steps, step, Next(states[|steps|], step));
    states', steps' := states + [Next(states[|steps|], step)], steps + [step];
  }
}

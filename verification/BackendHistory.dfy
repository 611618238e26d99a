/**
 What the steps of a run say about one backend: the last admin action and the last health check that reached
 it, its failures in a row and when the last request reported, and whether its probe is out. From these alone,
 over any number of reloads that keep the backend, follow every field that decides whether it can be picked.
 */
module BackendHistory {
  import opened Options
  import opened PoolModel
  import opened PoolRuns
  import opened PoolAccounting
  import PoolGuarantees
  import PoolSelection

  datatype Past = Past(
    lastAction: Option<string>,
    lastCheck: Option<bool>,
    failures: nat,
    lastFinish: Option<Time>,
    probing: bool)

  const NO_PAST := Past(None, None, 0, None, false)

  /** The past of the backend after one more step. */
  function PastAfter(past: Past, s: System, step: Step, address: string): Past {
    match step
    case AdminAction(a, action) =>
      if a == address && (action == "disable" || action == "enable" || action == "drain") then
        past.(lastAction := Some(action))
      else past
    case HealthCheck(a, ok) =>
      if a == address then past.(lastCheck := Some(ok), probing := past.probing && ok) else past
    case ReportFinish(t, now) =>
      if IsCounted(s, t) && s.tickets[t].address == address then
        past.(failures := if s.tickets[t].phase.failed then past.failures + 1 else 0,
              lastFinish := Some(now), probing := false)
      else past
    case Pick(allowed, now) =>
      if WellFormed(s.pool) && PickedAddress(s.pool, allowed, now) == Some(address) && past.failures >= 3 then
        past.(probing := true)
      else past
    case _ => past
  }

  /** From state b, where the backend enters, to state k. */
  function PastOf(states: seq<System>, steps: seq<Step>, b: nat, k: nat, address: string): Past
    requires b <= k <= |steps| && |states| == |steps| + 1
  {
    if k == b then NO_PAST
    else PastAfter(PastOf(states, steps, b, k - 1, address), states[k - 1], steps[k - 1], address)
  }

  /** The entry is what its past makes it. The breaker may be stored as open or already as half-open. */
  predicate Follows(e: Entry, past: Past, clock: Time) {
    && (past.lastAction.Some? ==> past.lastAction.value in ["disable", "enable", "drain"])
    && e.healthy == (past.lastCheck != Some(false))
    && e.disabled == (past.lastAction == Some("disable"))
    && e.draining == (past.lastAction == Some("drain"))
    && e.consecutiveErr == past.failures
    && e.halfOpenInFlight == past.probing
    && (past.failures < 3 ==> e.breaker == Closed && e.openedUntil == None)
    && (past.failures >= 3 ==>
          && e.breaker != Closed && past.lastFinish.Some?
          && e.openedUntil == Some(past.lastFinish.value + 15_000_000_000)
          && (e.breaker == HalfOpen ==> clock >= past.lastFinish.value + 15_000_000_000))
  }

  /** The entry of a backend that is present. */
  function EntryOf(s: System, address: string): Entry
    requires Present(s, address)
  {
    s.pool.backends[IndexOf(s.pool.backends, address).value]
  }

  lemma {:induction false} EntryIsAt(s: System, x: nat)
    requires Inv(s) && x < |s.pool.backends|
    ensures Present(s, s.pool.backends[x].address)
    ensures EntryOf(s, s.pool.backends[x].address) == s.pool.backends[x]
  {
    hide HistoryKept, ProbesHeld, BooksBalance;
    IndexOfUnique(s.pool.backends, x);
  }

  // ---------------------------------------------------------------- one entry

  lemma {:induction false} VisitFollows(e: Entry, past: Past, clock: Time, allowed: Allowed, now: Time)
    requires Follows(e, past, clock) && clock <= now && (past.probing ==> e.breaker == HalfOpen)
    ensures Follows(Visit(e, allowed, now), past, now)
  {
  }

  lemma {:induction false} ProbeFollows(e: Entry, past: Past, clock: Time, allowed: Allowed, now: Time)
    requires Follows(e, past, clock) && clock <= now && Eligible(e, allowed, now)
    ensures Follows(TakeProbe(Visit(e, allowed, now)), if past.failures >= 3 then past.(probing := true) else past, now)
  {
  }

  lemma {:induction false} FinishFollows(e: Entry, past: Past, clock: Time, failed: bool, now: Time)
    requires Follows(e, past, clock) && clock <= now && (past.probing ==> e.breaker == HalfOpen)
    ensures Follows(FinishEntry(e, failed, now),
                    past.(failures := if failed then past.failures + 1 else 0, lastFinish := Some(now), probing := false), now)
  {
  }

  // ---------------------------------------------------------------- one step

  /** The entry of an address after an operation that is no reload. */
  function EntryAfter(e: Entry, p: Pool, op: PoolOp): Entry
    requires WellFormed(p)
  {
    match op
    case OpNext(allowed, now) =>
      if PickedAddress(p, allowed, now) == Some(e.address) then TakeProbe(Visit(e, allowed, now)) else Visit(e, allowed, now)
    case OpAvailable(now) => Visit(e, None, now)
    case OpFinish(address, failed, now) => if e.address == address then FinishEntry(e, failed, now) else e
    case OpSetState(address, action) =>
      if e.address == address && AdminEntry(e, action).Some? then AdminEntry(e, action).value else e
    case OpHealth(address, ok) => HealthEntry(e, address, ok)
    case _ => e
  }

  lemma {:induction false} PickMovesEntryAt(p: Pool, allowed: Allowed, now: Time, x: nat)
    requires WellFormed(p) && UniqueAddresses(p.backends) && x < |p.backends|
    ensures NextFor(p, allowed, now).pool.backends[x] == EntryAfter(p.backends[x], p, OpNext(allowed, now))
    ensures PickedAddress(p, allowed, now) == Some(p.backends[x].address) ==> Eligible(p.backends[x], allowed, now)
  {
    NextForEffect(p, allowed, now);
    PoolSelection.NextForPicksNearMinimum(p, allowed, now);
    hide NextFor, Visit, TakeProbe, Eligible, ScoreAt;
    var c := NextFor(p, allowed, now).chosen;
    assert c.Some? && c.value != x ==> p.backends[c.value].address != p.backends[x].address;
  }

  lemma {:induction false} OpMovesEntryAt(p: Pool, op: PoolOp, x: nat)
    requires WellFormed(p) && OpEnabled(p, op) && !op.OpReload? && UniqueAddresses(p.backends) && x < |p.backends|
    ensures |Apply(p, op).0.backends| == |p.backends|
    ensures Apply(p, op).0.backends[x] == EntryAfter(p.backends[x], p, op)
  {
    if op.OpNext? {
      PickMovesEntryAt(p, op.allowed, op.now, x);
    }
    IndexOfUnique(p.backends, x);
    hide NextFor, Visit, TakeProbe, FinishEntry, AdminEntry, PickedAddress, UniqueAddresses;
  }

  lemma {:induction false} AdminFollows(e: Entry, past: Past, clock: Time, action: string)
    requires Follows(e, past, clock)
    ensures var known := action == "disable" || action == "enable" || action == "drain";
            && AdminEntry(e, action).Some? == known
            && (known ==> Follows(AdminEntry(e, action).value, past.(lastAction := Some(action)), clock))
  {
  }

  lemma {:induction false} HealthFollows(e: Entry, past: Past, clock: Time, address: string, ok: bool)
    requires Follows(e, past, clock)
    ensures Follows(HealthEntry(e, address, ok),
                    if e.address == address then past.(lastCheck := Some(ok), probing := past.probing && ok) else past, clock)
  {
  }

  lemma {:induction false} EntryFollows(s: System, step: Step, e: Entry, past: Past)
    requires WellFormed(s.pool) && Enabled(s, step) && !step.Reload?
    requires Follows(e, past, s.clock) && (past.probing ==> e.breaker == HalfOpen)
    requires step.Pick? && PickedAddress(s.pool, step.allowed, step.now) == Some(e.address) ==>
               Eligible(e, step.allowed, step.now)
    ensures Follows(EntryAfter(e, s.pool, OpOf(s, step)), PastAfter(past, s, step, e.address), ClockAfter(s, step))
  {
    hide Follows, Visit, TakeProbe, FinishEntry, AdminEntry, HealthEntry, PickedAddress, Eligible;
    match step
    case Pick(allowed, now) =>
      VisitFollows(e, past, s.clock, allowed, now);
      if PickedAddress(s.pool, allowed, now) == Some(e.address) {
        ProbeFollows(e, past, s.clock, allowed, now);
      }
    case ReportFinish(t, now) =>
      if s.tickets[t].address == e.address {
        FinishFollows(e, past, s.clock, s.tickets[t].phase.failed, now);
      } else {
        LaterFollows(e, past, s.clock, now);
      }
    case HealthCheck(address, ok) => HealthFollows(e, past, s.clock, address, ok);
    case AdminAction(address, action) => AdminFollows(e, past, s.clock, action);
    case ReadAvailable(now) => VisitFollows(e, past, s.clock, None, now);
    case ReadStatus(now) => LaterFollows(e, past, s.clock, now);
    case _ =>
  }

  lemma {:induction false} LaterFollows(e: Entry, past: Past, clock: Time, now: Time)
    requires Follows(e, past, clock) && clock <= now
    ensures Follows(e, past, now)
  {
  }

  lemma {:induction false} OtherFollows(s: System, step: Step, address: string, past: Past)
    requires Inv(s) && Enabled(s, step) && Present(s, address) && !step.Reload?
    requires Follows(EntryOf(s, address), past, s.clock)
    ensures var s' := Next(s, step);
            Present(s', address) && Follows(EntryOf(s', address), PastAfter(past, s, step, address), s'.clock)
  {
    var s' := Next(s, step);
    var x := IndexOf(s.pool.backends, address).value;
    var e := s.pool.backends[x];
    assert past.probing ==> e.breaker == HalfOpen;
    StepKeepsInv(s, step);
    hide HistoryKept, ProbesHeld, BooksBalance, HistoryAfter, LedgerAfter, TicketsAfter, Apply, Follows, EntryAfter;
    OpMovesEntryAt(s.pool, OpOf(s, step), x);
    if step.Pick? {
      PickMovesEntryAt(s.pool, step.allowed, step.now, x);
    }
    EntryFollows(s, step, e, past);
    SameAddress(e, s.pool, OpOf(s, step));
    EntryIsAt(s', x);
  }

  lemma {:induction false} SameAddress(e: Entry, p: Pool, op: PoolOp)
    requires WellFormed(p)
    ensures EntryAfter(e, p, op).address == e.address
  {
    hide PickedAddress;
  }

  lemma {:induction false} ReloadFollows(s: System, addresses: seq<string>, address: string, past: Past)
    requires Inv(s) && Enabled(s, Reload(addresses)) && Present(s, address) && address in addresses
    requires Follows(EntryOf(s, address), past, s.clock)
    ensures var s' := Next(s, Reload(addresses));
            Present(s', address) && Follows(EntryOf(s', address), past, s'.clock)
  {
    hide HistoryKept, ProbesHeld, BooksBalance, HistoryAfter, LedgerAfter;
    var s' := Next(s, Reload(addresses));
    ReloadKeepsInv(s, addresses);
    var y :| 0 <= y < |addresses| && addresses[y] == address;
    assert s'.pool.backends[y] == ReloadedEntry(s.pool, address, |s.pool.store| + y);
    IndexOfUnique(s.pool.backends, IndexOf(s.pool.backends, address).value);
    EntryIsAt(s', y);
  }

  lemma {:induction false} StepFollows(s: System, step: Step, address: string, past: Past)
    requires Inv(s) && Enabled(s, step) && Present(s, address)
    requires step.Reload? ==> address in step.addresses
    requires Follows(EntryOf(s, address), past, s.clock)
    ensures var s' := Next(s, step);
            Present(s', address) && Follows(EntryOf(s', address), PastAfter(past, s, step, address), s'.clock)
  {
    if step.Reload? {
      hide Inv, Follows, EntryOf;
      ReloadFollows(s, step.addresses, address, past);
    } else {
      hide Inv, Follows, EntryOf, PastAfter;
      OtherFollows(s, step, address, past);
    }
  }

  // ---------------------------------------------------------------- over runs

  lemma {:induction false} EntersFollows(states: seq<System>, steps: seq<Step>, b: nat, address: string)
    requires RunFromStart(states, steps) && b <= |steps| && Enters(states, steps, b, address)
    ensures Follows(EntryOf(states[b], address), NO_PAST, states[b].clock)
  {
    hide HistoryKept, ProbesHeld, BooksBalance, Apply, HistoryAfter, LedgerAfter;
    if b > 0 {
      RunSatisfiesInv(states, steps, b - 1);
      assert StepAt(states, steps, b - 1);
      var s, step := states[b - 1], steps[b - 1];
      ReloadLists(s, step.addresses, address);
      AddedFollows(s, step.addresses, address);
    }
  }

  lemma {:induction false} AddedFollows(s: System, addresses: seq<string>, address: string)
    requires Inv(s) && Enabled(s, Reload(addresses)) && !Present(s, address) && address in addresses
    ensures var s' := Next(s, Reload(addresses));
            Present(s', address) && Follows(EntryOf(s', address), NO_PAST, s'.clock)
  {
    hide HistoryKept, ProbesHeld, BooksBalance, HistoryAfter, LedgerAfter;
    var s' := Next(s, Reload(addresses));
    ReloadKeepsInv(s, addresses);
    var y :| 0 <= y < |addresses| && addresses[y] == address;
    assert s'.pool.backends[y] == ReloadedEntry(s.pool, address, |s.pool.store| + y);
    EntryIsAt(s', y);
  }

  /** Every field of the entry that decides about picks is the one its past makes, whatever reloads have kept it. */
  lemma {:induction false} EntryFollowsPast(states: seq<System>, steps: seq<Step>, b: nat, k: nat, address: string)
    requires RunFromStart(states, steps) && b <= k <= |steps|
    requires Enters(states, steps, b, address) && Kept(steps, b, k, address)
    ensures Inv(states[k]) && Present(states[k], address)
    ensures Follows(EntryOf(states[k], address), PastOf(states, steps, b, k, address), states[k].clock)
    decreases k
  {
    hide Inv, Follows, EntryOf, PastAfter, Next, Enabled;
    RunSatisfiesInv(states, steps, k);
    if k == b {
      EntersFollows(states, steps, b, address);
    } else {
      EntryFollowsPast(states, steps, b, k - 1, address);
      assert StepAt(states, steps, k - 1);
      StepFollows(states[k - 1], steps[k - 1], address, PastOf(states, steps, b, k - 1, address));
    }
  }

  // ---------------------------------------------------------------- who can be picked

  lemma {:induction false} SoleChoice(p: Pool, x: nat, now: Time)
    requires WellFormed(p) && UniqueAddresses(p.backends) && x < |p.backends|
    ensures PickedAddress(p, Some({p.backends[x].address}), now) == Some(p.backends[x].address) <==>
            Available(p.backends[x], now)
  {
    var allowed: Allowed := Some({p.backends[x].address});
    PoolSelection.NextForPicksNearMinimum(p, allowed, now);
    hide NextFor, ScoreAt, Available;
    if Available(p.backends[x], now) {
      assert Eligible(p.backends[x], allowed, now);
    }
  }

  lemma {:induction false} FollowsAvailable(e: Entry, past: Past, clock: Time, now: Time)
    requires Follows(e, past, clock) && clock <= now && (e.halfOpenInFlight ==> e.breaker == HalfOpen)
    ensures Available(e, now) <==>
            && past.lastCheck != Some(false)
            && (past.lastAction == None || past.lastAction == Some("enable"))
            && (past.failures < 3 || (past.lastFinish.Some? && now >= past.lastFinish.value + 15_000_000_000))
            && !past.probing
  {
  }

  /**
   A backend can be picked exactly when its last health check, if any, passed, its last effective admin action, if
   any, was enable, it is not within fifteen seconds of the last of three or more failures in a row, and its probe
   is not out; since it entered the pool, and over all reloads that kept it.
   */
  lemma {:induction false} PickableByPast(states: seq<System>, steps: seq<Step>, b: nat, k: nat, address: string, now: Time)
    requires RunFromStart(states, steps) && b <= k <= |steps| && states[k].clock <= now
    requires Enters(states, steps, b, address) && Kept(steps, b, k, address)
    ensures WellFormed(states[k].pool)
    ensures var past := PastOf(states, steps, b, k, address);
            PickedAddress(states[k].pool, Some({address}), now) == Some(address) <==>
            && past.lastCheck != Some(false)
            && (past.lastAction == None || past.lastAction == Some("enable"))
            && (past.failures < 3 || (past.lastFinish.Some? && now >= past.lastFinish.value + 15_000_000_000))
            && !past.probing
  {
    hide Follows, Available, PastOf, Enters, Kept;
    EntryFollowsPast(states, steps, b, k, address);
    SoleChoiceOf(states[k], address, now);
    FollowsAvailable(EntryOf(states[k], address), PastOf(states, steps, b, k, address), states[k].clock, now);
  }

  lemma {:induction false} SoleChoiceOf(s: System, address: string, now: Time)
    requires Inv(s) && Present(s, address)
    ensures PickedAddress(s.pool, Some({address}), now) == Some(address) <==> Available(EntryOf(s, address), now)
    ensures EntryOf(s, address).halfOpenInFlight ==> EntryOf(s, address).breaker == HalfOpen
  {
    hide HistoryKept, BooksBalance, Available, PickedAddress;
    SoleChoice(s.pool, IndexOf(s.pool.backends, address).value, now);
  }

  /** A backend that is there has entered, and has been kept since. */
  lemma {:induction false} HasEntered(states: seq<System>, steps: seq<Step>, k: nat, address: string) returns (b: nat)
    requires RunFromStart(states, steps) && k <= |steps| && Present(states[k], address)
    ensures b <= k && Enters(states, steps, b, address) && Kept(steps, b, k, address)
  {
    hide Present;
    if k == 0 || (steps[k - 1].Reload? && !Present(states[k - 1], address)) {
      b := k;
    } else {
      RunSatisfiesInv(states, steps, k - 1);
      assert StepAt(states, steps, k - 1);
      if steps[k - 1].Reload? {
        ReloadLists(states[k - 1], steps[k - 1].addresses, address);
      } else {
        WasPresent(states[k - 1], steps[k - 1], address);
      }
      b := HasEntered(states, steps, k - 1, address);
    }
  }

  lemma {:induction false} WasPresent(s: System, step: Step, address: string)
    requires Inv(s) && Enabled(s, step) && !step.Reload? && Present(Next(s, step), address)
    ensures Present(s, address)
  {
    hide HistoryKept, ProbesHeld, BooksBalance, HistoryAfter, LedgerAfter, TicketsAfter, Apply;
    var x := IndexOf(Next(s, step).pool.backends, address).value;
    OpKeepsLength(s.pool, OpOf(s, step));
    OpKeepsStatsObject(s.pool, OpOf(s, step), x);
    IndexOfUnique(s.pool.backends, x);
  }

  lemma {:induction false} OpKeepsLength(p: Pool, op: PoolOp)
    requires WellFormed(p) && OpEnabled(p, op) && !op.OpReload?
    ensures |Apply(p, op).0.backends| == |p.backends|
  {
    hide NextFor;
  }

  /** The past says that the backend is out of service. */
  predicate OutOfService(past: Past) {
    past.lastCheck == Some(false) || past.lastAction == Some("disable") || past.lastAction == Some("drain")
  }

  lemma {:induction false} NotPicked(states: seq<System>, steps: seq<Step>, b: nat, k: nat, address: string)
    requires RunFromStart(states, steps) && b <= k < |steps|
    requires Enters(states, steps, b, address) && Kept(steps, b, k, address)
    requires OutOfService(PastOf(states, steps, b, k, address))
    ensures !PoolGuarantees.PicksAddress(states[k], steps[k], address)
  {
    hide Follows, PastOf, Enters, Kept, Inv;
    EntryFollowsPast(states, steps, b, k, address);
    UnavailableIsNotPicked(states[k], steps[k], address, PastOf(states, steps, b, k, address));
  }

  lemma {:induction false} UnavailableIsNotPicked(s: System, step: Step, address: string, past: Past)
    requires Inv(s) && Present(s, address) && Follows(EntryOf(s, address), past, s.clock) && OutOfService(past)
    ensures !PoolGuarantees.PicksAddress(s, step, address)
  {
    hide HistoryKept, ProbesHeld, BooksBalance;
    if step.Pick? {
      PickMovesEntryAt(s.pool, step.allowed, step.now, IndexOf(s.pool.backends, address).value);
      hide NextFor;
    }
  }

  lemma {:induction false} ActionStands(
    states: seq<System>, steps: seq<Step>, b: nat, i: nat, j: nat, address: string, action: string)
    requires b <= i < j <= |steps| && |states| == |steps| + 1 && steps[i] == AdminAction(address, action)
    requires action == "disable" || action == "drain"
    requires forall m :: i < m < j ==> steps[m] != AdminAction(address, "enable")
    ensures OutOfService(PastOf(states, steps, b, j, address))
    ensures var last := PastOf(states, steps, b, j, address).lastAction; last == Some("disable") || last == Some("drain")
    decreases j
  {
    hide PickedAddress, WellFormed;
    if j > i + 1 {
      ActionStands(states, steps, b, i, j - 1, address, action);
    }
  }

  /** After disable or drain no pick returns the backend, until enable or its removal. */
  lemma {:induction false} DrainKeepsOut(
    states: seq<System>, steps: seq<Step>, i: nat, j: nat, address: string, action: string)
    requires RunFromStart(states, steps) && i < j < |steps| && Present(states[i], address)
    requires steps[i] == AdminAction(address, action) && (action == "disable" || action == "drain")
    requires Kept(steps, i, j, address) && forall m :: i < m < j ==> steps[m] != AdminAction(address, "enable")
    ensures !PoolGuarantees.PicksAddress(states[j], steps[j], address)
  {
    hide StepAt, Enters, OutOfService, PastOf;
    var b := HasEntered(states, steps, i, address);
    ActionStands(states, steps, b, i, j, address, action);
    NotPicked(states, steps, b, j, address);
  }

  lemma {:induction false} CheckStands(states: seq<System>, steps: seq<Step>, b: nat, i: nat, j: nat, address: string)
    requires b <= i < j <= |steps| && |states| == |steps| + 1 && steps[i] == HealthCheck(address, false)
    requires forall m :: i < m < j ==> steps[m] != HealthCheck(address, true)
    ensures PastOf(states, steps, b, j, address).lastCheck == Some(false)
    decreases j
  {
    hide PickedAddress, WellFormed;
    if j > i + 1 {
      CheckStands(states, steps, b, i, j - 1, address);
    }
  }

  /** After a failed health check no pick returns the backend, until a check passes or its removal. */
  lemma {:induction false} FailedCheckKeepsOut(states: seq<System>, steps: seq<Step>, i: nat, j: nat, address: string)
    requires RunFromStart(states, steps) && i < j < |steps| && Present(states[i], address)
    requires steps[i] == HealthCheck(address, false)
    requires Kept(steps, i, j, address) && forall m :: i < m < j ==> steps[m] != HealthCheck(address, true)
    ensures !PoolGuarantees.PicksAddress(states[j], steps[j], address)
  {
    hide StepAt, Enters, PastOf;
    var b := HasEntered(states, steps, i, address);
    CheckStands(states, steps, b, i, j, address);
    NotPicked(states, steps, b, j, address);
  }
}

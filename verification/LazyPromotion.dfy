/**
 The lazy step from open to half-open is unobservable. nextFor and availableCount both store it when
 they happen to pass an expired entry, and the readers only report it. Two pools that differ by
 when that step was stored answer every later operation alike, so dropping any set of availableCount
 and status calls from a run changes nothing in the rest of it.
 */
module LazyPromotion {
  import opened Options
  import opened PoolModel
  import PoolRuns
  import PoolSelection

  /** Same entry, but for an expired open breaker that may or may not be stored as half-open yet. */
  predicate AlikeEntries(e: Entry, f: Entry, now: Time) {
    Promote(e, now) == Promote(f, now)
  }

  predicate Alike(p: Pool, q: Pool, now: Time) {
    && p.store == q.store && p.current == q.current
    && |p.backends| == |q.backends|
    && forall i :: 0 <= i < |p.backends| ==> AlikeEntries(p.backends[i], q.backends[i], now)
  }

  /** A probe flag is only ever set on a half-open entry. */
  predicate ProbesSane(p: Pool) {
    forall i :: 0 <= i < |p.backends| && p.backends[i].halfOpenInFlight ==> p.backends[i].breaker == HalfOpen
  }

  /** The relation is the intended one: equal, or one side expired and open, the other half-open without probe. */
  lemma {:induction false} AlikeMeansPromotedOrNot(e: Entry, f: Entry, now: Time)
    ensures AlikeEntries(e, f, now) && !(CooldownOver(e, now) && CooldownOver(f, now)) <==>
            || (e == f && !CooldownOver(e, now))
            || (CooldownOver(e, now) && f == e.(breaker := HalfOpen, halfOpenInFlight := false))
            || (CooldownOver(f, now) && e == f.(breaker := HalfOpen, halfOpenInFlight := false))
  {
  }

  lemma {:induction false} AlikeLater(p: Pool, q: Pool, now: Time, later: Time)
    requires Alike(p, q, now) && now <= later
    ensures Alike(p, q, later)
  {
  }

  // ---------------------------------------------------------------- the same answers

  lemma {:induction false} AlikeEntriesAnswerAlike(e: Entry, f: Entry, s: Stats, now: Time)
    requires AlikeEntries(e, f, now)
    ensures Available(e, now) == Available(f, now)
    ensures ReportedState(e, now) == ReportedState(f, now)
    ensures e.address == f.address && EffectiveWeight(e) == EffectiveWeight(f) && e.statsId == f.statsId
    ensures InService(e) == InService(f)
    ensures AdjustedScore(e, s, now) == AdjustedScore(f, s, now)
    ensures RowOf(e, s, now) == RowOf(f, s, now)
  {
  }

  lemma {:induction false} AlikeCandidates(p: Pool, q: Pool, allowed: Allowed, now: Time, n: nat)
    requires WellFormed(p) && WellFormed(q) && Alike(p, q, now) && n <= |p.backends|
    ensures Candidates(p, allowed, now, n) == Candidates(q, allowed, now, n)
  {
    if n > 0 {
      AlikeCandidates(p, q, allowed, now, n - 1);
      AlikeEntriesAnswerAlike(p.backends[n - 1], q.backends[n - 1], p.store[p.backends[n - 1].statsId], now);
    }
  }

  lemma {:induction false} AlikeRotation(p: Pool, q: Pool, allowed: Allowed, now: Time)
    requires WellFormed(p) && WellFormed(q) && Alike(p, q, now)
    ensures RotationSlots(p, allowed, now) == RotationSlots(q, allowed, now)
  {
    AlikeCandidates(p, q, allowed, now, |p.backends|);
    var cs := NearMinimum(p, allowed, now);
    assert cs == NearMinimum(q, allowed, now);
    forall k | 0 <= k < |cs|
      ensures EffectiveWeight(p.backends[cs[k].idx]) == EffectiveWeight(q.backends[cs[k].idx])
    {
      AlikeEntriesAnswerAlike(p.backends[cs[k].idx], q.backends[cs[k].idx], NO_STATS, now);
    }
    assert SlotsOf(p.backends, cs) == SlotsOf(q.backends, cs);
  }

  lemma {:induction false} AlikeChoice(p: Pool, q: Pool, allowed: Allowed, now: Time)
    requires WellFormed(p) && WellFormed(q) && Alike(p, q, now)
    ensures NextFor(p, allowed, now).chosen == NextFor(q, allowed, now).chosen
    ensures NextFor(p, allowed, now).pool.current == NextFor(q, allowed, now).pool.current
    ensures PickedAddress(p, allowed, now) == PickedAddress(q, allowed, now)
  {
    AlikeRotation(p, q, allowed, now);
    var c := NextFor(p, allowed, now).chosen;
    if c.Some? {
      AlikeEntriesAnswerAlike(p.backends[c.value], q.backends[c.value], NO_STATS, now);
    }
  }

  lemma {:induction false} AlikeVisit(e: Entry, f: Entry, allowed: Allowed, now: Time)
    requires AlikeEntries(e, f, now)
    ensures AlikeEntries(Visit(e, allowed, now), Visit(f, allowed, now), now)
    ensures IsAllowed(e, allowed) && InService(e) ==> Visit(e, allowed, now) == Visit(f, allowed, now)
  {
  }

  lemma {:induction false} NextForKeepsAlike(p: Pool, q: Pool, allowed: Allowed, now: Time)
    requires WellFormed(p) && WellFormed(q) && Alike(p, q, now)
    ensures Alike(NextFor(p, allowed, now).pool, NextFor(q, allowed, now).pool, now)
  {
    AlikeChoice(p, q, allowed, now);
    PoolRuns.NextForEffect(p, allowed, now);
    PoolRuns.NextForEffect(q, allowed, now);
    var p', q' := NextFor(p, allowed, now).pool, NextFor(q, allowed, now).pool;
    ChosenIsServed(p, allowed, now);
    forall i | 0 <= i < |p.backends| ensures AlikeEntries(p'.backends[i], q'.backends[i], now) {
      AlikeVisit(p.backends[i], q.backends[i], allowed, now);
    }
  }

  lemma {:induction false} ChosenIsServed(p: Pool, allowed: Allowed, now: Time)
    requires WellFormed(p)
    ensures var c := NextFor(p, allowed, now).chosen;
            c.Some? ==> IsAllowed(p.backends[c.value], allowed) && InService(p.backends[c.value])
  {
    PoolSelection.NextForPicksNearMinimum(p, allowed, now);
  }

  lemma {:induction false} AlikeCount(p: Pool, q: Pool, now: Time, n: nat)
    requires Alike(p, q, now) && n <= |p.backends|
    ensures CountAvailable(p.backends, now, n) == CountAvailable(q.backends, now, n)
  {
    if n > 0 {
      AlikeCount(p, q, now, n - 1);
      AlikeEntriesAnswerAlike(p.backends[n - 1], q.backends[n - 1], NO_STATS, now);
    }
  }

  lemma {:induction false} AlikeIndex(p: Pool, q: Pool, address: string, now: Time)
    requires Alike(p, q, now)
    ensures IndexOf(p.backends, address) == IndexOf(q.backends, address)
    ensures LastIndexOf(p.backends, address) == LastIndexOf(q.backends, address)
  {
    forall i | 0 <= i < |p.backends| ensures p.backends[i].address == q.backends[i].address {
      AlikeEntriesAnswerAlike(p.backends[i], q.backends[i], NO_STATS, now);
    }
  }

  lemma {:induction false} AlikeStatus(p: Pool, q: Pool, now: Time)
    requires WellFormed(p) && WellFormed(q) && Alike(p, q, now)
    ensures Status(p, now) == Status(q, now)
  {
  }

  // ---------------------------------------------------------------- one operation

  function OpTime(op: PoolOp): Option<Time> {
    match op
    case OpNext(_, now) => Some(now)
    case OpAvailable(now) => Some(now)
    case OpStatus(now) => Some(now)
    case OpFinish(_, _, now) => Some(now)
    case _ => None
  }

  predicate IsReader(op: PoolOp) {
    op.OpAvailable? || op.OpStatus?
  }

  /** Finishing does not see whether an expired breaker was stored as half-open. */
  lemma {:induction false} FinishOfPromoted(e: Entry, failed: bool, now: Time)
    requires e.halfOpenInFlight ==> e.breaker == HalfOpen
    ensures Promote(FinishEntry(Promote(e, now), failed, now), now) == Promote(FinishEntry(e, failed, now), now)
  {
  }

  lemma {:induction false} FinishKeepsAlike(e: Entry, f: Entry, failed: bool, now: Time)
    requires AlikeEntries(e, f, now)
    requires e.halfOpenInFlight ==> e.breaker == HalfOpen
    requires f.halfOpenInFlight ==> f.breaker == HalfOpen
    ensures AlikeEntries(FinishEntry(e, failed, now), FinishEntry(f, failed, now), now)
  {
    FinishOfPromoted(e, failed, now);
    FinishOfPromoted(f, failed, now);
    hide FinishEntry, Promote;
  }

  lemma {:induction false} ReloadedEntriesAlike(p: Pool, q: Pool, address: string, id: nat, now: Time)
    requires WellFormed(p) && WellFormed(q) && Alike(p, q, now)
    ensures AlikeEntries(ReloadedEntry(p, address, id), ReloadedEntry(q, address, id), now)
    ensures ReloadedStats(p, address) == ReloadedStats(q, address)
  {
    AlikeIndex(p, q, address, now);
    var i := LastIndexOf(p.backends, address);
    if i.Some? {
      AlikeEntriesAnswerAlike(p.backends[i.value], q.backends[i.value], NO_STATS, now);
    }
  }

  lemma {:induction false} ReloadedListsAlike(p: Pool, q: Pool, addresses: seq<string>, now: Time)
    requires WellFormed(p) && WellFormed(q) && Alike(p, q, now)
    ensures forall k :: 0 <= k < |addresses| ==>
              AlikeEntries(ReloadedBackends(p, addresses)[k], ReloadedBackends(q, addresses)[k], now)
    ensures ReloadedStore(p, addresses) == ReloadedStore(q, addresses)
  {
    forall k | 0 <= k < |addresses|
      ensures AlikeEntries(ReloadedBackends(p, addresses)[k], ReloadedBackends(q, addresses)[k], now)
      ensures ReloadedStore(p, addresses)[k] == ReloadedStore(q, addresses)[k]
    {
      ReloadedEntriesAlike(p, q, addresses[k], |p.store| + k, now);
    }
  }

  lemma {:induction false} ReloadKeepsAlike(p: Pool, q: Pool, addresses: seq<string>, now: Time)
    requires WellFormed(p) && WellFormed(q) && Alike(p, q, now)
    ensures Alike(Reconfigure(p, addresses), Reconfigure(q, addresses), now)
  {
    ReloadedListsAlike(p, q, addresses, now);
  }

  lemma {:induction false} FinishRequestKeepsAlike(p: Pool, q: Pool, address: string, failed: bool, now: Time)
    requires Alike(p, q, now) && ProbesSane(p) && ProbesSane(q)
    ensures Alike(FinishRequest(p, address, failed, now), FinishRequest(q, address, failed, now), now)
  {
    AlikeIndex(p, q, address, now);
    var i := IndexOf(p.backends, address);
    if i.Some? {
      FinishKeepsAlike(p.backends[i.value], q.backends[i.value], failed, now);
    }
  }

  lemma {:induction false} AdminKeepsAlike(e: Entry, f: Entry, action: string, now: Time)
    requires AlikeEntries(e, f, now)
    ensures AdminEntry(e, action).Some? == AdminEntry(f, action).Some?
    ensures AdminEntry(e, action).Some? ==>
              AlikeEntries(AdminEntry(e, action).value, AdminEntry(f, action).value, now)
  {
  }

  lemma {:induction false} SetStateKeepsAlike(p: Pool, q: Pool, address: string, action: string, now: Time)
    requires Alike(p, q, now)
    ensures Alike(SetBackendState(p, address, action).0, SetBackendState(q, address, action).0, now)
    ensures SetBackendState(p, address, action).1 == SetBackendState(q, address, action).1
  {
    AlikeIndex(p, q, address, now);
    var i := IndexOf(p.backends, address);
    if i.Some? {
      AdminKeepsAlike(p.backends[i.value], q.backends[i.value], action, now);
    }
  }

  lemma {:induction false} HealthKeepsAlike(p: Pool, q: Pool, address: string, ok: bool, now: Time)
    requires Alike(p, q, now)
    ensures Alike(UpdateHealth(p, address, ok), UpdateHealth(q, address, ok), now)
  {
    forall i | 0 <= i < |p.backends|
      ensures AlikeEntries(HealthEntry(p.backends[i], address, ok), HealthEntry(q.backends[i], address, ok), now)
    {
      assert AlikeEntries(p.backends[i], q.backends[i], now);
    }
  }

  lemma {:induction false} StartKeepsAlike(p: Pool, q: Pool, address: string, now: Time)
    requires WellFormed(p) && WellFormed(q) && Alike(p, q, now)
    ensures StartTarget(p, address) == StartTarget(q, address)
    ensures Alike(StartRequest(p, address), StartRequest(q, address), now)
  {
    AlikeIndex(p, q, address, now);
    var i := IndexOf(p.backends, address);
    if i.Some? {
      AlikeEntriesAnswerAlike(p.backends[i.value], q.backends[i.value], NO_STATS, now);
    }
  }

  /** Alike pools stay alike under every operation, and answer it alike. */
  lemma {:induction false} OpKeepsAlike(p: Pool, q: Pool, op: PoolOp, now: Time)
    requires WellFormed(p) && WellFormed(q) && Alike(p, q, now) && ProbesSane(p) && ProbesSane(q)
    requires OpEnabled(p, op) && OpEnabled(q, op) && (OpTime(op).Some? ==> OpTime(op).value == now)
    ensures Alike(Apply(p, op).0, Apply(q, op).0, now) && Apply(p, op).1 == Apply(q, op).1
  {
    match op
    case OpNext(allowed, _) =>
      AlikeChoice(p, q, allowed, now);
      NextForKeepsAlike(p, q, allowed, now);
    case OpAvailable(_) =>
      AlikeCount(p, q, now, |p.backends|);
      forall i | 0 <= i < |p.backends|
        ensures AlikeEntries(Visit(p.backends[i], None, now), Visit(q.backends[i], None, now), now)
      {
        AlikeVisit(p.backends[i], q.backends[i], None, now);
      }
    case OpStatus(_) => AlikeStatus(p, q, now);
    case OpReload(addresses) => ReloadKeepsAlike(p, q, addresses, now);
    case OpStart(address) => StartKeepsAlike(p, q, address, now);
    case OpFinishStats(_, _, _, _) =>
    case OpFinish(address, failed, _) => FinishRequestKeepsAlike(p, q, address, failed, now);
    case OpSetState(address, action) => SetStateKeepsAlike(p, q, address, action, now);
    case OpHealth(address, ok) => HealthKeepsAlike(p, q, address, ok, now);
  }

  /** A reader's own effect on the pool is only the lazy step. */
  lemma {:induction false} ReaderOnlyPromotes(p: Pool, op: PoolOp)
    requires WellFormed(p) && IsReader(op)
    ensures Alike(Apply(p, op).0, p, op.now)
  {
  }

  lemma {:induction false} OpKeepsProbesSane(p: Pool, op: PoolOp)
    requires WellFormed(p) && OpEnabled(p, op) && ProbesSane(p)
    ensures ProbesSane(Apply(p, op).0)
  {
    if op.OpNext? {
      PoolRuns.NextForEffect(p, op.allowed, op.now);
    }
  }

  // ---------------------------------------------------------------- whole runs

  /** Operation k is carried out, unless it is skipped. */
  ghost predicate OpAt(pools: seq<Pool>, ops: seq<PoolOp>, skipped: set<nat>, k: nat)
    requires |pools| == |ops| + 1 && k < |ops|
  {
    if k in skipped then pools[k + 1] == pools[k]
    else WellFormed(pools[k]) && OpEnabled(pools[k], ops[k]) && pools[k + 1] == Apply(pools[k], ops[k]).0
  }

  /** A run of the operations in which those at the skipped positions never happen. */
  ghost predicate OpRun(pools: seq<Pool>, ops: seq<PoolOp>, skipped: set<nat>) {
    |pools| == |ops| + 1 && forall k :: 0 <= k < |ops| ==> OpAt(pools, ops, skipped, k)
  }

  /** clock[k] is the time of operation k, and never decreases. */
  ghost predicate Timed(ops: seq<PoolOp>, clock: seq<Time>) {
    && |clock| == |ops|
    && (forall k :: 0 <= k < |ops| && OpTime(ops[k]).Some? ==> OpTime(ops[k]).value == clock[k])
    && (forall i, j :: 0 <= i <= j < |clock| ==> clock[i] <= clock[j])
  }

  /** The two runs are alike just before operation k. */
  ghost predicate AlikeAt(pools: seq<Pool>, others: seq<Pool>, k: nat, now: Time)
    requires k < |pools| && k < |others|
  {
    && WellFormed(pools[k]) && WellFormed(others[k])
    && ProbesSane(pools[k]) && ProbesSane(others[k])
    && Alike(pools[k], others[k], now)
  }

  lemma {:induction false} OneOpOfBothRuns(
    pools: seq<Pool>, others: seq<Pool>, ops: seq<PoolOp>, skipped: set<nat>, now: Time, k: nat)
    requires k < |ops| && |pools| == |others| == |ops| + 1
    requires OpAt(pools, ops, {}, k) && OpAt(others, ops, skipped, k) && AlikeAt(pools, others, k, now)
    requires (k in skipped ==> IsReader(ops[k])) && (OpTime(ops[k]).Some? ==> OpTime(ops[k]).value == now)
    ensures AlikeAt(pools, others, k + 1, now)
  {
    var p, q, op := pools[k], others[k], ops[k];
    OpKeepsProbesSane(p, op);
    if k in skipped {
      ReaderOnlyPromotes(p, op);
      forall i | 0 <= i < |p.backends| ensures AlikeEntries(pools[k + 1].backends[i], q.backends[i], now) {
        assert AlikeEntries(pools[k + 1].backends[i], p.backends[i], now);
        assert AlikeEntries(p.backends[i], q.backends[i], now);
      }
    } else {
      OpKeepsProbesSane(q, op);
      OpKeepsAlike(p, q, op, now);
    }
  }

  lemma {:induction false} RunsStayAlike(
    pools: seq<Pool>, others: seq<Pool>, ops: seq<PoolOp>, skipped: set<nat>, clock: seq<Time>, k: nat)
    requires OpRun(pools, ops, {}) && OpRun(others, ops, skipped) && Timed(ops, clock) && k < |ops|
    requires forall m :: m in skipped && m < |ops| ==> IsReader(ops[m])
    requires pools[0] == others[0] && WellFormed(pools[0]) && ProbesSane(pools[0])
    ensures AlikeAt(pools, others, k, clock[k])
  {
    if k > 0 {
      RunsStayAlike(pools, others, ops, skipped, clock, k - 1);
      OneOpOfBothRuns(pools, others, ops, skipped, clock[k - 1], k - 1);
      AlikeLater(pools[k], others[k], clock[k - 1], clock[k]);
    }
  }

  /**
   Take any run, and drop any set of its availableCount and status calls: every operation that
   remains returns what it returned before.
   */
  lemma {:induction false} LazyPromotionIsUnobservable(
    pools: seq<Pool>, others: seq<Pool>, ops: seq<PoolOp>, skipped: set<nat>, clock: seq<Time>, k: nat)
    requires OpRun(pools, ops, {}) && OpRun(others, ops, skipped) && Timed(ops, clock)
    requires forall m :: m in skipped && m < |ops| ==> IsReader(ops[m])
    requires pools[0] == others[0] && WellFormed(pools[0]) && ProbesSane(pools[0])
    requires k < |ops| && k !in skipped
    ensures WellFormed(pools[k]) && OpEnabled(pools[k], ops[k]) && WellFormed(others[k]) && OpEnabled(others[k], ops[k])
    ensures Apply(pools[k], ops[k]).1 == Apply(others[k], ops[k]).1
  {
    RunsStayAlike(pools, others, ops, skipped, clock, k);
    assert OpAt(pools, ops, {}, k) && OpAt(others, ops, skipped, k);
    OpKeepsAlike(pools[k], others[k], ops[k], clock[k]);
  }

  /** The hypothesis on the first pool holds of every pool fresh from a configuration. */
  lemma {:induction false} InitialPoolIsSane(addresses: seq<string>, weights: map<string, int>)
    ensures WellFormed(InitialPool(addresses, weights)) && ProbesSane(InitialPool(addresses, weights))
  {
  }
}

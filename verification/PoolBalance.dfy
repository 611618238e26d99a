/** Weighted least-connections: how a run of arrivals spreads over the backends of a fresh pool. */
module PoolBalance {
  import opened Options
  import opened PoolModel
  import PoolRuns
  import PoolSelection

  /** One arrival: nextFor and the startRequest that follows it, with nothing in between. */
  function Arrive(p: Pool, allowed: Allowed, now: Time): (q: Pool)
    requires WellFormed(p)
    ensures WellFormed(q)
  {
    var r := NextFor(p, allowed, now);
    if r.chosen.None? then r.pool else StartRequest(r.pool, r.pool.backends[r.chosen.value].address)
  }

  ghost predicate ArrivalAt(pools: seq<Pool>, allowed: Allowed, times: seq<Time>, k: nat)
    requires |pools| == |times| + 1 && k < |times|
  {
    WellFormed(pools[k]) && pools[k + 1] == Arrive(pools[k], allowed, times[k])
  }

  /** A run of arrivals at the given times, with no request finishing meanwhile. */
  ghost predicate ArrivalRun(pools: seq<Pool>, allowed: Allowed, times: seq<Time>) {
    |pools| == |times| + 1 && forall k :: 0 <= k < |times| ==> ArrivalAt(pools, allowed, times, k)
  }

  function WeightAt(p: Pool, i: nat): real
    requires i < |p.backends|
  {
    EffectiveWeight(p.backends[i]) as real
  }

  /** Nothing has finished yet: all breakers closed, no errors, no completed requests. */
  predicate NothingFinished(p: Pool) {
    && WellFormed(p)
    && UniqueAddresses(p.backends)
    && (forall i, j :: 0 <= i < j < |p.backends| ==> p.backends[i].statsId != p.backends[j].statsId)
    && (forall i :: 0 <= i < |p.backends| ==>
          && p.backends[i].breaker == Closed && p.backends[i].consecutiveErr == 0
          && p.store[p.backends[i].statsId].requests == 0 && ActiveAt(p, i) >= 0)
  }

  const LOAD_TOLERANCE: real := 0.000001

  /** Without its latest request, backend i is no more loaded per unit of weight than the eligible j. */
  predicate Balanced(p: Pool, allowed: Allowed, i: nat, j: nat)
    requires WellFormed(p) && i < |p.backends| && j < |p.backends|
  {
    IsAllowed(p.backends[j], allowed) && InService(p.backends[j]) && ActiveAt(p, i) > 0 ==>
      (ActiveAt(p, i) - 1) as real / WeightAt(p, i) <= ActiveAt(p, j) as real / WeightAt(p, j) + LOAD_TOLERANCE
  }

  ghost predicate AllBalanced(p: Pool, allowed: Allowed)
    requires WellFormed(p)
  {
    forall i, j :: 0 <= i < |p.backends| && 0 <= j < |p.backends| ==> Balanced(p, allowed, i, j)
  }

  lemma {:induction false} LoadGrows(a: int, w: real)
    requires w > 0.0
    ensures a as real / w <= (a + 1) as real / w
  {
  }

  /** With nothing finished, the score is the load per weight, scaled. */
  lemma {:induction false} ScoreIsLoad(p: Pool, i: nat, now: Time)
    requires NothingFinished(p) && i < |p.backends|
    ensures ScoreAt(p, i, now) == ActiveAt(p, i) as real / WeightAt(p, i) * 1000.0
  {
  }

  /** The store with one more request started on the stats object of entry c. */
  function WithOneMore(p: Pool, c: nat): seq<Stats>
    requires WellFormed(p) && c < |p.backends|
  {
    var id := p.backends[c].statsId;
    p.store[id := p.store[id].(active := p.store[id].active + 1)]
  }

  /** While every breaker is closed, nextFor changes no entry. */
  lemma {:induction false} NextForKeepsClosedEntries(p: Pool, allowed: Allowed, now: Time)
    requires NothingFinished(p)
    ensures NextFor(p, allowed, now).pool.backends == p.backends
  {
  }

  lemma {:induction false} StartEffect(p: Pool, c: nat)
    requires WellFormed(p) && UniqueAddresses(p.backends) && c < |p.backends|
    ensures StartRequest(p, p.backends[c].address) == p.(store := WithOneMore(p, c))
  {
  }

  /** An arrival starts one request on the chosen backend, and changes no entry. */
  lemma {:induction false} ArriveEffect(p: Pool, allowed: Allowed, now: Time)
    requires NothingFinished(p)
    ensures var c := NextFor(p, allowed, now).chosen;
            && Arrive(p, allowed, now).backends == p.backends
            && Arrive(p, allowed, now).store == if c.None? then p.store else WithOneMore(p, c.value)
  {
    hide NextFor, StartRequest;
    var r := NextFor(p, allowed, now);
    NextForKeepsClosedEntries(p, allowed, now);
    if r.chosen.Some? {
      StartEffect(r.pool, r.chosen.value);
    }
  }

  /** The chosen backend carries no more load per weight than any eligible one. */
  lemma {:induction false} ChosenIsLeastLoaded(p: Pool, allowed: Allowed, now: Time, j: nat)
    requires NothingFinished(p) && NextFor(p, allowed, now).chosen.Some?
    requires j < |p.backends| && IsAllowed(p.backends[j], allowed) && InService(p.backends[j])
    ensures var c := NextFor(p, allowed, now).chosen.value;
            ActiveAt(p, c) as real / WeightAt(p, c) <= ActiveAt(p, j) as real / WeightAt(p, j) + LOAD_TOLERANCE
  {
    PoolSelection.NextForPicksNearMinimum(p, allowed, now);
    assert Eligible(p.backends[j], allowed, now);
    ScoreIsLoad(p, NextFor(p, allowed, now).chosen.value, now);
    ScoreIsLoad(p, j, now);
  }

  lemma {:induction false} OneMoreKeepsBalance(p: Pool, q: Pool, c: nat, allowed: Allowed, i: nat, j: nat)
    requires NothingFinished(p) && c < |p.backends| && q.backends == p.backends && q.store == WithOneMore(p, c)
    requires i < |p.backends| && j < |p.backends| && Balanced(p, allowed, i, j)
    requires IsAllowed(p.backends[j], allowed) && InService(p.backends[j]) ==>
               ActiveAt(p, c) as real / WeightAt(p, c) <= ActiveAt(p, j) as real / WeightAt(p, j) + LOAD_TOLERANCE
    ensures NothingFinished(q) && Balanced(q, allowed, i, j)
  {
    LoadGrows(ActiveAt(p, j), WeightAt(p, j));
    assert ActiveAt(q, i) == ActiveAt(p, i) + if i == c then 1 else 0;
    assert ActiveAt(q, j) == ActiveAt(p, j) + if j == c then 1 else 0;
  }

  lemma {:induction false} ArriveKeepsBalance(p: Pool, allowed: Allowed, now: Time, i: nat, j: nat)
    requires NothingFinished(p) && i < |p.backends| && j < |p.backends| && Balanced(p, allowed, i, j)
    ensures var q := Arrive(p, allowed, now);
            NothingFinished(q) && |q.backends| == |p.backends| && Balanced(q, allowed, i, j)
  {
    ArriveEffect(p, allowed, now);
    var c := NextFor(p, allowed, now).chosen;
    if c.Some? {
      if IsAllowed(p.backends[j], allowed) && InService(p.backends[j]) {
        ChosenIsLeastLoaded(p, allowed, now, j);
      }
      OneMoreKeepsBalance(p, Arrive(p, allowed, now), c.value, allowed, i, j);
    }
  }

  lemma {:induction false} ArriveKeepsAllBalanced(p: Pool, allowed: Allowed, now: Time)
    requires NothingFinished(p) && AllBalanced(p, allowed)
    ensures NothingFinished(Arrive(p, allowed, now)) && AllBalanced(Arrive(p, allowed, now), allowed)
  {
    hide Balanced, NextFor;
    var q := Arrive(p, allowed, now);
    ArriveEffect(p, allowed, now);
    if p.backends != [] {
      ArriveKeepsBalance(p, allowed, now, 0, 0);
    }
    forall i, j {:trigger Balanced(q, allowed, i, j)} | 0 <= i < |q.backends| && 0 <= j < |q.backends|
      ensures Balanced(q, allowed, i, j)
    {
      assert Balanced(p, allowed, i, j);
      ArriveKeepsBalance(p, allowed, now, i, j);
    }
  }

  /**
   From a pool with nothing finished and no imbalance, any run of arrivals without completions
   keeps every backend within one request per weight of every eligible backend.
   */
  lemma {:induction false} ArrivalsStayBalanced(pools: seq<Pool>, allowed: Allowed, times: seq<Time>, n: nat)
    requires ArrivalRun(pools, allowed, times) && n < |pools|
    requires NothingFinished(pools[0]) && AllBalanced(pools[0], allowed)
    ensures NothingFinished(pools[n]) && AllBalanced(pools[n], allowed)
  {
    hide AllBalanced, Arrive, NextFor, UniqueAddresses, StatsInStore, ActiveAt;
    if n > 0 {
      ArrivalsStayBalanced(pools, allowed, times, n - 1);
      assert ArrivalAt(pools, allowed, times, n - 1);
      ArriveKeepsAllBalanced(pools[n - 1], allowed, times[n - 1]);
    }
  }

  /** A pool fresh from the configuration is such a pool, whichever backends the requests allow. */
  lemma {:induction false} FreshPoolIsBalanced(addresses: seq<string>, weights: map<string, int>, allowed: Allowed)
    requires Distinct(addresses)
    ensures NothingFinished(InitialPool(addresses, weights))
    ensures AllBalanced(InitialPool(addresses, weights), allowed)
  {
  }

  // ---------------------------------------------------------------- picks with no traffic

  predicate AllClosed(p: Pool) {
    forall i :: 0 <= i < |p.backends| ==> p.backends[i].breaker == Closed
  }

  lemma {:induction false} ClosedCandidates(p: Pool, q: Pool, allowed: Allowed, now: Time, later: Time, n: nat)
    requires WellFormed(p) && WellFormed(q) && AllClosed(p) && p.backends == q.backends && p.store == q.store
    requires n <= |p.backends|
    ensures Candidates(p, allowed, now, n) == Candidates(q, allowed, later, n)
  {
    if n > 0 {
      ClosedCandidates(p, q, allowed, now, later, n - 1);
    }
  }

  predicate SameBackends(p: Pool, q: Pool) {
    p.backends == q.backends && p.store == q.store
  }

  /** With closed breakers the rotation depends on the entries and counters alone, not on time or cursor. */
  lemma {:induction false} ClosedRotation(p: Pool, q: Pool, allowed: Allowed, now: Time, later: Time)
    requires WellFormed(p) && WellFormed(q) && AllClosed(p) && SameBackends(p, q)
    ensures RotationSlots(p, allowed, now) == RotationSlots(q, allowed, later)
  {
    ClosedCandidates(p, q, allowed, now, later, |p.backends|);
    assert NearMinimum(p, allowed, now) == NearMinimum(q, allowed, later);
  }

  lemma {:induction false} ClosedPickKeepsBackends(p: Pool, allowed: Allowed, now: Time)
    requires WellFormed(p) && AllClosed(p)
    ensures SameBackends(NextFor(p, allowed, now).pool, p)
  {
    PoolRuns.NextForEffect(p, allowed, now);
    var q := NextFor(p, allowed, now).pool;
    assert forall i :: 0 <= i < |p.backends| ==> q.backends[i] == p.backends[i];
  }

  /** Call k + 1 finds the pool as call k left it. */
  ghost predicate NothingBetween(calls: seq<PoolSelection.Call>, k: nat)
    requires k + 1 < |calls|
  {
    && WellFormed(calls[k].pool)
    && calls[k + 1].pool == NextFor(calls[k].pool, calls[k].allowed, calls[k].now).pool
    && calls[k + 1].allowed == calls[k].allowed
  }

  ghost predicate QuietCalls(calls: seq<PoolSelection.Call>) {
    && calls != [] && WellFormed(calls[0].pool) && AllClosed(calls[0].pool)
    && forall m :: 0 <= m && m + 1 < |calls| ==> NothingBetween(calls, m)
  }

  lemma {:induction false} QuietCallsKeepBackends(calls: seq<PoolSelection.Call>, k: nat)
    requires QuietCalls(calls) && k < |calls|
    ensures SameBackends(calls[k].pool, calls[0].pool) && calls[k].allowed == calls[0].allowed
  {
    if k > 0 {
      QuietCallsKeepBackends(calls, k - 1);
      assert NothingBetween(calls, k - 1);
      ClosedPickKeepsBackends(calls[k - 1].pool, calls[k - 1].allowed, calls[k - 1].now);
    }
  }

  lemma {:induction false} QuietCallsKeepRotation(calls: seq<PoolSelection.Call>)
    requires QuietCalls(calls)
    ensures PoolSelection.WellFormedCalls(calls)
    ensures PoolSelection.SameRotation(calls, RotationSlots(calls[0].pool, calls[0].allowed, calls[0].now))
  {
    forall k | 0 <= k < |calls| ensures SameBackends(calls[k].pool, calls[0].pool) {
      QuietCallsKeepBackends(calls, k);
    }
    var slots := RotationSlots(calls[0].pool, calls[0].allowed, calls[0].now);
    forall k | 0 <= k < |calls| ensures RotationSlots(calls[k].pool, calls[k].allowed, calls[k].now) == slots {
      QuietCallsKeepBackends(calls, k);
      ClosedRotation(calls[0].pool, calls[k].pool, calls[0].allowed, calls[0].now, calls[k].now);
    }
  }

  lemma {:induction false} QuietCallsHandOnCursor(calls: seq<PoolSelection.Call>)
    requires QuietCalls(calls) && PoolSelection.WellFormedCalls(calls)
    ensures PoolSelection.CursorHandedOn(calls)
  {
    forall k, m | 0 <= k < m < |calls| && m == k + 1
      ensures calls[m].pool.current == NextFor(calls[k].pool, calls[k].allowed, calls[k].now).pool.current
    {
      assert NothingBetween(calls, k);
    }
  }

  /**
   Calls of nextFor with no traffic in between, on a pool whose breakers are all closed, follow the
   configured weights exactly over every total weight many calls.
   */
  lemma {:induction false} QuietPicksFollowWeights(calls: seq<PoolSelection.Call>, slots: seq<Slot>, j: nat)
    requires QuietCalls(calls) && slots == RotationSlots(calls[0].pool, calls[0].allowed, calls[0].now)
    requires j < |slots| && |calls| == TotalWeight(slots)
    ensures PoolSelection.WellFormedCalls(calls)
    ensures slots[j].idx < |calls[0].pool.backends|
    ensures var e := calls[0].pool.backends[slots[j].idx];
            PoolSelection.TimesChosen(PoolSelection.Picks(calls), |calls|, slots[j].idx) == if e.weight > 1 then e.weight else 1
    ensures PoolSelection.InRotation(calls[0].pool, calls[0].allowed, calls[0].now, slots[j].idx)
  {
    QuietCallsKeepRotation(calls);
    QuietCallsHandOnCursor(calls);
    PoolSelection.RotationIsExact(calls, slots, j);
  }
}

/** health.go's backendPool: the fields the locked methods update, and the loops that update them. */
module BackendPoolClass {
  import opened Options
  import opened PoolModel

  function AddressOrEmpty(a: Option<string>): string {
    if a.None? then "" else a.value
  }

  class BackendPool {
    var backends: seq<Entry>
    var current: nat
    var store: seq<Stats>

    ghost function Model(): Pool
      reads this
    {
      Pool(backends, current, store)
    }

    constructor (addresses: seq<string>, weights: map<string, int>)
      ensures Model() == InitialPool(addresses, weights)
    {
      var entries: seq<Entry> := [];
      var cells: seq<Stats> := [];
      for i := 0 to |addresses|
        invariant |entries| == |cells| == i
        invariant entries == InitialPool(addresses, weights).backends[..i]
        invariant cells == InitialPool(addresses, weights).store[..i]
      {
        var weight := if addresses[i] in weights then weights[addresses[i]] else 0;
        entries := entries + [Entry(addresses[i], MaxInt(1, weight), true, i, Closed, None, 0, false, false, false)];
        cells := cells + [NO_STATS];
      }
      backends, current, store := entries, 0, cells;
    }

    /** Returns "" when no backend can take the request. */
    method NextFor(allowed: Allowed, now: Time) returns (address: string)
      requires WellFormed(Model())
      modifies this
      ensures Model() == PoolModel.NextFor(old(Model()), allowed, now).pool
      ensures address == AddressOrEmpty(PickedAddress(old(Model()), allowed, now))
    {
      ghost var p := Model();
      var candidates := CollectCandidates(allowed, now);
      if |candidates| == 0 {
        EmptySelectionFacts(p, allowed, now);
        return "";
      }
      address := HandOut(candidates, p, allowed, now);
    }

    /** The part of nextFor after the candidate loop: pick, advance the cursor, take the probe. */
    method HandOut(candidates: seq<Candidate>, ghost p: Pool, ghost allowed: Allowed, ghost now: Time)
      returns (address: string)
      requires WellFormed(p) && Model() == p.(backends := VisitAll(p.backends, allowed, now))
      requires candidates == Candidates(p, allowed, now, |p.backends|) && candidates != []
      modifies this`backends, this`current
      ensures Model() == PoolModel.NextFor(p, allowed, now).pool
      ensures PickedAddress(p, allowed, now) == Some(address)
    {
      ghost var visited := backends;
      SortKeepsIndices(candidates, |backends|);
      var chosenIndex, totalWeight := PickByRotation(SortCandidates(candidates));
      current := NextCursor(current, totalWeight);
      if backends[chosenIndex].breaker == HalfOpen {
        backends := backends[chosenIndex := backends[chosenIndex].(halfOpenInFlight := true)];
      }
      address := backends[chosenIndex].address;
      SelectionFacts(p, allowed, now, visited, totalWeight, chosenIndex, Model());
    }

    /** The cursor chooses among the ranked candidates near the minimum. */
    method PickByRotation(sorted: seq<Candidate>) returns (chosenIndex: nat, totalWeight: nat)
      requires sorted != [] && forall k :: 0 <= k < |sorted| ==> sorted[k].idx < |backends|
      ensures totalWeight == TotalWeight(SlotsOf(backends, NearestOf(sorted)))
      ensures chosenIndex ==
              NearestOf(sorted)[SlotAt(SlotsOf(backends, NearestOf(sorted)), CursorPosition(current, totalWeight))].idx
    {
      var weighted: seq<Candidate>;
      weighted, totalWeight := CollectWeighted(sorted, sorted[0].score + SCORE_TOLERANCE);
      chosenIndex := SearchRotation(weighted, CursorPosition(current, totalWeight));
    }

    /** The candidate loop of nextFor, promoting expired breakers on the way. */
    method CollectCandidates(allowed: Allowed, now: Time) returns (candidates: seq<Candidate>)
      requires WellFormed(Model())
      modifies this`backends
      ensures backends == VisitAll(old(backends), allowed, now)
      ensures candidates == Candidates(old(Model()), allowed, now, |old(backends)|)
    {
      ghost var p := Model();
      candidates := [];
      for i := 0 to |backends|
        invariant |backends| == |p.backends|
        invariant forall k :: 0 <= k < i ==> backends[k] == Visit(p.backends[k], allowed, now)
        invariant forall k :: i <= k < |backends| ==> backends[k] == p.backends[k]
        invariant candidates == Candidates(p, allowed, now, i)
      {
        var entry := backends[i];
        if allowed.Some? && entry.address !in allowed.value {
          continue;
        }
        if !entry.healthy {
          continue;
        }
        if entry.disabled || entry.draining {
          continue;
        }
        if entry.breaker == Open {
          if Before(now, entry.openedUntil) {
            continue;
          }
          entry := entry.(breaker := HalfOpen, halfOpenInFlight := false);
          backends := backends[i := entry];
        }
        if entry.breaker == HalfOpen && entry.halfOpenInFlight {
          continue;
        }
        var score := BackendScore(entry, store[entry.statsId]);
        if entry.breaker == HalfOpen {
          score := score - HALF_OPEN_BONUS;
        }
        candidates := candidates + [Candidate(i, score)];
      }
      assert backends == VisitAll(p.backends, allowed, now);
    }

    /** The near-minimum prefix of the sorted candidates and its total weight. */
    method CollectWeighted(sorted: seq<Candidate>, bound: real) returns (weighted: seq<Candidate>, total: nat)
      requires forall k :: 0 <= k < |sorted| ==> sorted[k].idx < |backends|
      ensures weighted == sorted[..FirstAbove(sorted, bound, 0)]
      ensures total == TotalWeight(SlotsOf(backends, weighted))
    {
      weighted, total := [], 0;
      ghost var slots := SlotsOf(backends, sorted);
      var k := 0;
      while k < |sorted|
        invariant 0 <= k <= |sorted| && weighted == sorted[..k]
        invariant FirstAbove(sorted, bound, 0) == FirstAbove(sorted, bound, k)
        invariant total == WeightBefore(slots, k)
      {
        if sorted[k].score > bound {
          break;
        }
        weighted := weighted + [sorted[k]];
        total := total + EffectiveWeight(backends[sorted[k].idx]);
        k := k + 1;
      }
      assert SlotsOf(backends, weighted) == slots[..k];
      WeightOfPrefix(slots, k, k);
    }

    /** The prefix-subtraction search over the near-minimum candidates. */
    method SearchRotation(weighted: seq<Candidate>, start: nat) returns (chosenIndex: nat)
      requires weighted != []
      requires forall k :: 0 <= k < |weighted| ==> weighted[k].idx < |backends|
      ensures chosenIndex == weighted[SlotAt(SlotsOf(backends, weighted), start)].idx
    {
      ghost var slots := SlotsOf(backends, weighted);
      var position := start;
      chosenIndex := weighted[0].idx;
      var k := 0;
      while k < |weighted|
        invariant 0 <= k <= |weighted| && position >= 0
        invariant Search(slots, 0, start) == Search(slots, k, position)
      {
        var weight := EffectiveWeight(backends[weighted[k].idx]);
        if position < weight {
          chosenIndex := weighted[k].idx;
          return;
        }
        position := position - weight;
        k := k + 1;
      }
    }

    method AvailableCount(now: Time) returns (count: nat)
      requires WellFormed(Model())
      modifies this`backends
      ensures Model() == PromoteAll(old(Model()), now)
      ensures count == CountAvailable(old(backends), now, |old(backends)|)
    {
      ghost var before := backends;
      count := 0;
      for i := 0 to |backends|
        invariant |backends| == |before|
        invariant forall k :: 0 <= k < i ==> backends[k] == Visit(before[k], None, now)
        invariant forall k :: i <= k < |backends| ==> backends[k] == before[k]
        invariant count == CountAvailable(before, now, i)
      {
        var entry := backends[i];
        if !entry.healthy {
          continue;
        }
        if entry.disabled || entry.draining {
          continue;
        }
        if entry.breaker == Open && Before(now, entry.openedUntil) {
          continue;
        }
        if entry.breaker == Open && !Before(now, entry.openedUntil) {
          entry := entry.(breaker := HalfOpen, halfOpenInFlight := false);
          backends := backends[i := entry];
        }
        if entry.breaker == HalfOpen && entry.halfOpenInFlight {
          continue;
        }
        count := count + 1;
      }
      assert backends == VisitAll(before, None, now);
    }

    method ReadStatus(now: Time) returns (rows: seq<Row>)
      requires WellFormed(Model())
      ensures rows == Status(Model(), now)
    {
      rows := [];
      for i := 0 to |backends|
        invariant rows == Status(Model(), now)[..i]
      {
        var b := backends[i];
        rows := rows + [RowOf(b, store[b.statsId], now)];
      }
    }

    /** The result names the stats object the finish closure captures; None is the empty closure. */
    method StartRequest(address: string) returns (handle: Option<nat>)
      requires WellFormed(Model())
      modifies this`store
      ensures Model() == PoolModel.StartRequest(old(Model()), address)
      ensures handle == StartTarget(Model(), address)
    {
      for i := 0 to |backends|
        invariant Model() == old(Model())
        invariant IndexOf(backends, address) == IndexFrom(backends, address, i)
      {
        if backends[i].address != address {
          continue;
        }
        var id := backends[i].statsId;
        store := store[id := store[id].(active := store[id].active + 1)];
        return Some(id);
      }
      return None;
    }

    /** The counter updates of a finish closure that captured stats object id. */
    method FinishStats(id: nat, status: int, latencyNs: int, err: bool)
      requires id < |store|
      modifies this`store
      ensures Model() == PoolModel.FinishStats(old(Model()), id, status, latencyNs, err)
    {
      store := store[id := store[id].(active := store[id].active - 1)];
      store := store[id := store[id].(requests := store[id].requests + 1)];
      store := store[id := store[id].(totalLatencyNs := store[id].totalLatencyNs + latencyNs)];
      store := store[id := store[id].(lastStatus := status)];
      if err || status >= 500 {
        store := store[id := store[id].(errors := store[id].errors + 1)];
      }
    }

    method FinishRequest(address: string, failed: bool, now: Time)
      modifies this`backends
      ensures Model() == PoolModel.FinishRequest(old(Model()), address, failed, now)
    {
      for i := 0 to |backends|
        invariant Model() == old(Model())
        invariant IndexOf(backends, address) == IndexFrom(backends, address, i)
      {
        if backends[i].address != address {
          continue;
        }
        var entry := backends[i];
        if entry.breaker == HalfOpen {
          entry := entry.(halfOpenInFlight := false);
        }
        if !failed {
          entry := entry.(consecutiveErr := 0, breaker := Closed, openedUntil := None);
          backends := backends[i := entry];
          return;
        }
        entry := entry.(consecutiveErr := entry.consecutiveErr + 1);
        if entry.consecutiveErr >= BREAKER_FAILURE_THRESHOLD {
          entry := entry.(breaker := Open, openedUntil := Some(now + BREAKER_COOLDOWN));
        }
        backends := backends[i := entry];
        return;
      }
    }

    method SetBackendState(address: string, action: string) returns (error: Option<AdminError>)
      modifies this`backends
      ensures (Model(), error) == PoolModel.SetBackendState(old(Model()), address, action)
    {
      for i := 0 to |backends|
        invariant Model() == old(Model())
        invariant IndexOf(backends, address) == IndexFrom(backends, address, i)
      {
        if backends[i].address != address {
          continue;
        }
        if action == "disable" {
          backends := backends[i := backends[i].(disabled := true, draining := false)];
        } else if action == "enable" {
          backends := backends[i := backends[i].(disabled := false, draining := false)];
        } else if action == "drain" {
          backends := backends[i := backends[i].(disabled := false, draining := true)];
        } else {
          return Some(UnknownAction);
        }
        return None;
      }
      return Some(BackendNotFound);
    }

    /** The update the health checker makes after probing one address. */
    method UpdateHealth(address: string, ok: bool)
      modifies this`backends
      ensures Model() == PoolModel.UpdateHealth(old(Model()), address, ok)
    {
      ghost var before := backends;
      for i := 0 to |backends|
        invariant |backends| == |before|
        invariant forall k :: 0 <= k < i ==> backends[k] == HealthEntry(before[k], address, ok)
        invariant forall k :: i <= k < |backends| ==> backends[k] == before[k]
      {
        if backends[i].address != address {
          continue;
        }
        backends := backends[i := backends[i].(healthy := ok)];
        if !ok {
          backends := backends[i := backends[i].(halfOpenInFlight := false)];
        }
      }
      assert backends == PoolModel.UpdateHealth(old(Model()), address, ok).backends;
    }

    /** The map from address to entry that a reload looks kept backends up in. */
    method IndexBackends() returns (existing: map<string, nat>)
      ensures forall a :: a in existing <==> LastIndexOf(backends, a).Some?
      ensures forall a :: a in existing ==> existing[a] == LastIndexOf(backends, a).value
    {
      existing := map[];
      for i := 0 to |backends|
        invariant forall a :: a in existing <==> LastIndexOf(backends[..i], a).Some?
        invariant forall a :: a in existing ==> existing[a] == LastIndexOf(backends[..i], a).value
      {
        assert backends[..i + 1][..i] == backends[..i];
        existing := existing[backends[i].address := i];
      }
      assert backends[..|backends|] == backends;
    }

    method Reconfigure(addresses: seq<string>)
      requires WellFormed(Model())
      modifies this
      ensures Model() == PoolModel.Reconfigure(old(Model()), addresses)
    {
      ghost var p := Model();
      var existing := IndexBackends();
      var next: seq<Entry> := [];
      var cells: seq<Stats> := [];
      for k := 0 to |addresses|
        invariant Model() == p
        invariant next == ReloadedBackends(p, addresses)[..k]
        invariant cells == ReloadedStore(p, addresses)[..k]
      {
        var address := addresses[k];
        if address in existing {
          var source := backends[existing[address]];
          next := next + [source.(statsId := |store| + k)];
          cells := cells + [store[source.statsId]];
        } else {
          next := next + [FreshEntry(address, |store| + k)];
          cells := cells + [NO_STATS];
        }
      }
      backends, store := next, store + cells;
      if |backends| == 0 {
        current := 0;
        return;
      }
      current := current % |backends|;
    }
  }

  lemma {:induction false} EmptySelectionFacts(p: Pool, allowed: Allowed, now: Time)
    requires WellFormed(p) && Candidates(p, allowed, now, |p.backends|) == []
    ensures NextFor(p, allowed, now).pool == p.(backends := VisitAll(p.backends, allowed, now))
    ensures PickedAddress(p, allowed, now) == None
  {
  }

  /** The in-place form of the selection is the functional one. */
  lemma {:induction false} SelectionFacts(p: Pool, allowed: Allowed, now: Time, visited: seq<Entry>, total: nat, chosen: nat, q: Pool)
    requires WellFormed(p)
    requires visited == VisitAll(p.backends, allowed, now)
    requires Candidates(p, allowed, now, |p.backends|) != []
    requires var near := NearestOf(SortCandidates(Candidates(p, allowed, now, |p.backends|)));
             && (forall k :: 0 <= k < |near| ==> near[k].idx < |visited|)
             && total == TotalWeight(SlotsOf(visited, near))
             && chosen == near[SlotAt(SlotsOf(visited, near), CursorPosition(p.current, total))].idx
    requires chosen < |visited|
    requires q.backends == visited[chosen := TakeProbe(visited[chosen])]
    requires q.current == NextCursor(p.current, total) && q.store == p.store
    ensures NextFor(p, allowed, now).pool == q
    ensures PickedAddress(p, allowed, now) == Some(visited[chosen].address)
  {
    hide SortCandidates, Candidates, SlotAt, TotalWeight;
    var near := NearMinimum(p, allowed, now);
    assert RotationSlots(p, allowed, now) == SlotsOf(visited, near);
    assert chosen == ChosenIndex(p, allowed, now);
  }

  lemma {:induction false} WeightOfPrefix(slots: seq<Slot>, k: nat, n: nat)
    requires n <= k <= |slots|
    ensures WeightBefore(slots[..k], n) == WeightBefore(slots, n)
  {
    if n > 0 {
      WeightOfPrefix(slots, k, n - 1);
    }
  }
}

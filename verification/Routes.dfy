/** Route matching and the backend address lists of main.go, and the weights of the first pool (health.go). */
module Routes {
  import opened Options
  import opened PoolModel

  datatype BackendConfig = BackendConfig(address: string, weight: int)

  datatype RouteConfig = RouteConfig(path: string, backends: seq<BackendConfig>, timeoutMs: int, retries: int)

  // ---------------------------------------------------------------- longest prefix match

  predicate Matches(path: string, route: RouteConfig) {
    route.path <= path
  }

  /** Position i is the route for the path: longest among the matching ones, earliest among the longest. */
  predicate IsBestRoute(path: string, routes: seq<RouteConfig>, i: nat) {
    && i < |routes|
    && Matches(path, routes[i])
    && (forall j :: 0 <= j < |routes| && Matches(path, routes[j]) ==> |routes[j].path| <= |routes[i].path|)
    && (forall j :: 0 <= j < i && Matches(path, routes[j]) ==> |routes[j].path| < |routes[i].path|)
  }

  method MatchRoute(path: string, routes: seq<RouteConfig>) returns (matched: Option<nat>)
    ensures matched.None? <==> forall j :: 0 <= j < |routes| ==> !Matches(path, routes[j])
    ensures matched.Some? ==> IsBestRoute(path, routes, matched.value)
  {
    matched := None;
    for i := 0 to |routes|
      invariant matched.None? <==> forall j :: 0 <= j < i ==> !Matches(path, routes[j])
      invariant matched.Some? ==> matched.value < i && IsBestRoute(path, routes[..i], matched.value)
    {
      if routes[i].path <= path && (matched.None? || |routes[i].path| > |routes[matched.value].path|) {
        matched := Some(i);
      }
      assert routes[..i + 1][..i] == routes[..i];
    }
    assert routes[..|routes|] == routes;
  }

  /** At most one position is the best route, so the method's result is determined. */
  lemma {:induction false} BestRouteIsUnique(path: string, routes: seq<RouteConfig>, i: nat, j: nat)
    requires IsBestRoute(path, routes, i) && IsBestRoute(path, routes, j)
    ensures i == j
  {
  }

  function RouteBackendSet(route: Option<RouteConfig>): Option<set<string>> {
    if route.None? then None else Some(set b | b in route.value.backends :: b.address)
  }

  // ---------------------------------------------------------------- address lists

  /** The backends of the first n routes, in configuration order. */
  function RouteBackends(routes: seq<RouteConfig>, n: nat): seq<BackendConfig>
    requires n <= |routes|
  {
    if n == 0 then [] else RouteBackends(routes, n - 1) + routes[n - 1].backends
  }

  function AddressesOf(backends: seq<BackendConfig>): (r: seq<string>)
    ensures |r| == |backends|
    ensures forall k :: 0 <= k < |r| ==> r[k] == backends[k].address
  {
    seq(|backends|, k requires 0 <= k < |backends| => backends[k].address)
  }

  /** Every configured address in configuration order, with repetitions. */
  function Mentioned(backends: seq<string>, routes: seq<RouteConfig>): seq<string> {
    backends + AddressesOf(RouteBackends(routes, |routes|))
  }

  /** The first n addresses without those already listed, in order. */
  function FirstOccurrences(addresses: seq<string>, n: nat): seq<string>
    requires n <= |addresses|
  {
    if n == 0 then []
    else
      var before := FirstOccurrences(addresses, n - 1);
      if addresses[n - 1] in before then before else before + [addresses[n - 1]]
  }

  lemma {:induction false} AppendDistinct(addresses: seq<string>, last: string)
    ensures Distinct(addresses + [last]) <==> Distinct(addresses) && last !in addresses
  {
    if Distinct(addresses + [last]) {
      forall i, j | 0 <= i < j < |addresses| ensures addresses[i] != addresses[j] {
        assert (addresses + [last])[i] != (addresses + [last])[j];
      }
      forall i | 0 <= i < |addresses| ensures addresses[i] != last {
        assert (addresses + [last])[i] != (addresses + [last])[|addresses|];
      }
    }
  }

  lemma {:induction false} FirstOccurrencesAreDistinct(addresses: seq<string>, n: nat)
    requires n <= |addresses|
    ensures Distinct(FirstOccurrences(addresses, n))
    ensures forall a :: a in FirstOccurrences(addresses, n) <==> a in addresses[..n]
  {
    if n > 0 {
      FirstOccurrencesAreDistinct(addresses, n - 1);
      AppendDistinct(FirstOccurrences(addresses, n - 1), addresses[n - 1]);
      assert addresses[..n] == addresses[..n - 1] + [addresses[n - 1]];
    }
  }

  /** Where the listed addresses stand in the full list: in the same order, each at its first occurrence. */
  lemma {:induction false} FirstOccurrencesInOrder(addresses: seq<string>, n: nat) returns (at: seq<nat>)
    requires n <= |addresses|
    ensures var out := FirstOccurrences(addresses, n);
            && |at| == |out|
            && (forall i, j :: 0 <= i < j < |at| ==> at[i] < at[j])
            && (forall i :: 0 <= i < |at| ==> at[i] < n && addresses[at[i]] == out[i] && out[i] !in addresses[..at[i]])
  {
    at := [];
    if n > 0 {
      at := FirstOccurrencesInOrder(addresses, n - 1);
      FirstOccurrencesAreDistinct(addresses, n - 1);
      var before := FirstOccurrences(addresses, n - 1);
      assert FirstOccurrences(addresses, n) ==
             if addresses[n - 1] in before then before else before + [addresses[n - 1]];
      hide FirstOccurrences, Distinct;
      if addresses[n - 1] !in before {
        assert addresses[n - 1] !in addresses[..n - 1];
        at := at + [n - 1];
      }
    }
  }

  lemma {:induction false} DistinctIsKept(addresses: seq<string>, n: nat)
    requires n <= |addresses| && Distinct(addresses)
    ensures FirstOccurrences(addresses, n) == addresses[..n]
  {
    if n > 0 {
      DistinctIsKept(addresses, n - 1);
    }
  }

  /** The first k addresses of the list are collected. */
  ghost predicate Collected(out: seq<string>, seen: set<string>, all: seq<string>, k: nat) {
    && k <= |all|
    && out == FirstOccurrences(all, k)
    && forall a :: a in seen <==> a in out
  }

  lemma {:induction false} CollectNone(all: seq<string>)
    ensures Collected([], {}, all, 0)
  {
  }

  lemma {:induction false} CollectOne(out: seq<string>, seen: set<string>, all: seq<string>, k: nat)
    requires Collected(out, seen, all, k)
    requires k < |all|
    ensures all[k] in seen ==> Collected(out, seen, all, k + 1)
    ensures all[k] !in seen ==> Collected(out + [all[k]], seen + {all[k]}, all, k + 1)
  {
  }

  /** Where a route backend stands among all mentioned addresses. */
  lemma {:induction false} RouteBackendsGrow(routes: seq<RouteConfig>, m: nat, n: nat)
    requires m <= n <= |routes|
    ensures RouteBackends(routes, m) <= RouteBackends(routes, n)
  {
    if m < n {
      RouteBackendsGrow(routes, m, n - 1);
    }
  }

  lemma {:induction false} RouteBackendAt(routes: seq<RouteConfig>, r: nat, b: nat)
    requires r < |routes| && b < |routes[r].backends|
    ensures var all := RouteBackends(routes, |routes|);
            var k := |RouteBackends(routes, r)| + b;
            k < |all| && all[k] == routes[r].backends[b]
  {
    RouteBackendsGrow(routes, r + 1, |routes|);
    assert RouteBackends(routes, r + 1)[|RouteBackends(routes, r)| + b] == routes[r].backends[b];
  }

  lemma {:induction false} MentionedAt(backends: seq<string>, routes: seq<RouteConfig>, r: nat, b: nat)
    requires r < |routes| && b < |routes[r].backends|
    ensures var all := Mentioned(backends, routes);
            var k := |backends| + |RouteBackends(routes, r)| + b;
            k < |all| && all[k] == routes[r].backends[b].address
  {
    RouteBackendAt(routes, r, b);
  }

  lemma {:induction false} CollectedAll(out: seq<string>, seen: set<string>, all: seq<string>)
    requires Collected(out, seen, all, |all|)
    ensures out == FirstOccurrences(all, |all|) && Distinct(out) && forall a :: a in out <==> a in all
  {
    FirstOccurrencesAreDistinct(all, |all|);
    assert all[..|all|] == all;
  }

  /** backendAddresses: what a reload hands to the pool. */
  method BackendAddresses(backends: seq<string>, routes: seq<RouteConfig>) returns (out: seq<string>)
    ensures var all := Mentioned(backends, routes);
            && out == FirstOccurrences(all, |all|)
            && Distinct(out)
            && forall a :: a in out <==> a in all
  {
    hide Collected;
    ghost var all := Mentioned(backends, routes);
    var seen: set<string> := {};
    out := [];
    CollectNone(all);
    for i := 0 to |backends|
      invariant Collected(out, seen, all, i)
    {
      CollectOne(out, seen, all, i);
      if backends[i] !in seen {
        seen := seen + {backends[i]};
        out := out + [backends[i]];
      }
    }
    for r := 0 to |routes|
      invariant Collected(out, seen, all, |backends| + |RouteBackends(routes, r)|)
    {
      ghost var base := |backends| + |RouteBackends(routes, r)|;
      for b := 0 to |routes[r].backends|
        invariant Collected(out, seen, all, base + b)
      {
        MentionedAt(backends, routes, r, b);
        CollectOne(out, seen, all, base + b);
        var address := routes[r].backends[b].address;
        if address !in seen {
          seen := seen + {address};
          out := out + [address];
        }
      }
    }
    CollectedAll(out, seen, all);
  }

  // ---------------------------------------------------------------- the first pool

  /** The weight table after the first n route backends; 0 is a missing key. */
  function WeightOf(backends: seq<string>, configured: seq<BackendConfig>, n: nat, address: string): nat
    requires n <= |configured|
  {
    if n == 0 then (if address in backends then 1 else 0)
    else
      var before := WeightOf(backends, configured, n - 1, address);
      var b := configured[n - 1];
      if b.address == address && b.weight > before then b.weight else before
  }

  /** The address list of the first pool after the first n route backends. */
  function FirstAddresses(backends: seq<string>, configured: seq<BackendConfig>, n: nat): seq<string>
    requires n <= |configured|
  {
    if n == 0 then backends
    else
      var before := FirstAddresses(backends, configured, n - 1);
      if WeightOf(backends, configured, n - 1, configured[n - 1].address) > 0 then before
      else before + [configured[n - 1].address]
  }

  /** What Config.Validate asks of every route backend. */
  predicate PositiveWeights(configured: seq<BackendConfig>) {
    forall k :: 0 <= k < |configured| ==> configured[k].weight > 0
  }

  /** The tables agree with the first n route backends. */
  ghost predicate Tabled(
    addresses: seq<string>, weights: map<string, int>, backends: seq<string>, configured: seq<BackendConfig>, n: nat)
  {
    && n <= |configured|
    && addresses == FirstAddresses(backends, configured, n)
    && (forall a :: a in weights ==> weights[a] > 0)
    && forall a :: (if a in weights then weights[a] else 0) == WeightOf(backends, configured, n, a)
  }

  lemma {:induction false} TableStart(weights: map<string, int>, backends: seq<string>, configured: seq<BackendConfig>)
    requires forall a :: a in weights <==> a in backends[..|backends|]
    requires forall a :: a in weights ==> weights[a] == 1
    ensures Tabled(backends, weights, backends, configured, 0)
  {
    assert backends[..|backends|] == backends;
  }

  lemma {:induction false} TableEnd(
    addresses: seq<string>, weights: map<string, int>, backends: seq<string>, configured: seq<BackendConfig>)
    requires Tabled(addresses, weights, backends, configured, |configured|)
    ensures addresses == FirstAddresses(backends, configured, |configured|)
    ensures forall a :: (if a in weights then weights[a] else 0) == WeightOf(backends, configured, |configured|, a)
  {
  }

  lemma {:induction false} TableOne(
    addresses: seq<string>, weights: map<string, int>, backends: seq<string>, configured: seq<BackendConfig>, n: nat)
    requires Tabled(addresses, weights, backends, configured, n) && n < |configured|
    ensures var b := configured[n];
            var known := if b.address in weights then weights[b.address] else 0;
            Tabled(if b.address in weights then addresses else addresses + [b.address],
                   if b.weight > known then weights[b.address := b.weight] else weights,
                   backends, configured, n + 1)
  {
  }

  /** The address list and weights that newBackendPoolFromConfig builds the first pool from. */
  method InitialAddresses(backends: seq<string>, routes: seq<RouteConfig>)
    returns (addresses: seq<string>, weights: map<string, int>)
    ensures var configured := RouteBackends(routes, |routes|);
            && addresses == FirstAddresses(backends, configured, |configured|)
            && forall a :: (if a in weights then weights[a] else 0) == WeightOf(backends, configured, |configured|, a)
  {
    addresses, weights := backends, map[];
    for i := 0 to |backends|
      invariant forall a :: a in weights <==> a in backends[..i]
      invariant forall a :: a in weights ==> weights[a] == 1
    {
      weights := weights[backends[i] := 1];
    }
    ghost var all := RouteBackends(routes, |routes|);
    TableStart(weights, backends, all);
    hide Tabled;
    for r := 0 to |routes|
      invariant Tabled(addresses, weights, backends, all, |RouteBackends(routes, r)|)
    {
      ghost var base := |RouteBackends(routes, r)|;
      for b := 0 to |routes[r].backends|
        invariant Tabled(addresses, weights, backends, all, base + b)
      {
        RouteBackendAt(routes, r, b);
        TableOne(addresses, weights, backends, all, base + b);
        var backend := routes[r].backends[b];
        var known := if backend.address in weights then weights[backend.address] else 0;
        if backend.address !in weights {
          addresses := addresses + [backend.address];
        }
        if backend.weight > known {
          weights := weights[backend.address := backend.weight];
        }
      }
    }
    TableEnd(addresses, weights, backends, all);
  }

  /** An address's weight is the largest one configured for it, counting a top-level mention as 1. */
  lemma {:induction false} WeightIsLargest(backends: seq<string>, configured: seq<BackendConfig>, n: nat, address: string)
    requires n <= |configured|
    ensures var w := WeightOf(backends, configured, n, address);
            && (address in backends ==> w >= 1)
            && (forall k :: 0 <= k < n && configured[k].address == address ==> configured[k].weight <= w)
            && (w == 0 || (w == 1 && address in backends) || BackendConfig(address, w) in configured[..n])
  {
    if n > 0 {
      WeightIsLargest(backends, configured, n - 1, address);
      assert configured[..n] == configured[..n - 1] + [configured[n - 1]];
    }
  }

  /** Only the listed addresses get a pool entry, and each route backend gets one. */
  lemma {:induction false} FirstAddressesCover(backends: seq<string>, configured: seq<BackendConfig>, n: nat)
    requires n <= |configured| && PositiveWeights(configured)
    ensures forall a :: a in FirstAddresses(backends, configured, n) <==> WeightOf(backends, configured, n, a) > 0
  {
    if n > 0 {
      FirstAddressesCover(backends, configured, n - 1);
    }
  }

  /**
   The first pool, unlike a reload, keeps repeated top-level backends: its addresses are distinct
   exactly when the configured top-level list is.
   */
  lemma {:induction false} FirstPoolIsDistinct(backends: seq<string>, configured: seq<BackendConfig>, n: nat)
    requires n <= |configured| && PositiveWeights(configured)
    ensures Distinct(FirstAddresses(backends, configured, n)) <==> Distinct(backends)
    ensures backends <= FirstAddresses(backends, configured, n)
  {
    if n > 0 {
      FirstPoolIsDistinct(backends, configured, n - 1);
      FirstAddressesCover(backends, configured, n - 1);
      AppendDistinct(FirstAddresses(backends, configured, n - 1), configured[n - 1].address);
    }
  }

  /** So the by-address lookups of the first pool are unambiguous exactly when no top-level backend repeats. */
  lemma {:induction false} FirstPoolIsUnambiguous(backends: seq<string>, routes: seq<RouteConfig>, weights: map<string, int>)
    requires PositiveWeights(RouteBackends(routes, |routes|))
    ensures var configured := RouteBackends(routes, |routes|);
            var pool := InitialPool(FirstAddresses(backends, configured, |configured|), weights);
            UniqueAddresses(pool.backends) <==> Distinct(backends)
  {
    var configured := RouteBackends(routes, |routes|);
    var addresses := FirstAddresses(backends, configured, |configured|);
    var pool := InitialPool(addresses, weights);
    FirstPoolIsDistinct(backends, configured, |configured|);
    assert forall i :: 0 <= i < |addresses| ==> pool.backends[i].address == addresses[i];
    if UniqueAddresses(pool.backends) {
      forall i, j | 0 <= i < j < |addresses| ensures addresses[i] != addresses[j] {
        assert pool.backends[i].address != pool.backends[j].address;
      }
    }
  }

  /** Each entry of the first pool has the weight configured for its address. */
  lemma {:induction false} FirstPoolWeighs(backends: seq<string>, routes: seq<RouteConfig>, weights: map<string, int>, k: nat)
    requires PositiveWeights(RouteBackends(routes, |routes|))
    requires var configured := RouteBackends(routes, |routes|);
             && k < |FirstAddresses(backends, configured, |configured|)|
             && forall a :: (if a in weights then weights[a] else 0) == WeightOf(backends, configured, |configured|, a)
    ensures var configured := RouteBackends(routes, |routes|);
            var addresses := FirstAddresses(backends, configured, |configured|);
            var e := InitialPool(addresses, weights).backends[k];
            && e.address == addresses[k] && e.weight > 0
            && e.weight == WeightOf(backends, configured, |configured|, e.address)
  {
    var configured := RouteBackends(routes, |routes|);
    var addresses := FirstAddresses(backends, configured, |configured|);
    FirstAddressesCover(backends, configured, |configured|);
    assert addresses[k] in addresses;
  }

  /** With a duplicate-free top-level list the first pool and a reload use the same address list. */
  lemma {:induction false} FirstPoolAgreesWithReload(backends: seq<string>, configured: seq<BackendConfig>, n: nat)
    requires n <= |configured| && PositiveWeights(configured) && Distinct(backends)
    ensures FirstAddresses(backends, configured, n) ==
            FirstOccurrences(backends + AddressesOf(configured), |backends| + n)
  {
    var all := backends + AddressesOf(configured);
    if n == 0 {
      FirstOccurrencesOfPrefix(backends, AddressesOf(configured), |backends|);
      DistinctIsKept(backends, |backends|);
    } else {
      FirstPoolAgreesWithReload(backends, configured, n - 1);
      FirstAddressesCover(backends, configured, n - 1);
      FirstOccurrencesAreDistinct(all, |backends| + n - 1);
    }
  }

  lemma {:induction false} FirstOccurrencesOfPrefix(addresses: seq<string>, more: seq<string>, n: nat)
    requires n <= |addresses|
    ensures FirstOccurrences(addresses + more, n) == FirstOccurrences(addresses, n)
  {
    if n > 0 {
      FirstOccurrencesOfPrefix(addresses, more, n - 1);
      assert (addresses + more)[..n - 1] == addresses[..n - 1];
    }
  }

  // ---------------------------------------------------------------- weights after a reload

  lemma {:induction false} MentionedWeighs(backends: seq<string>, configured: seq<BackendConfig>, address: string)
    requires PositiveWeights(configured) && address in backends + AddressesOf(configured)
    ensures WeightOf(backends, configured, |configured|, address) >= 1
  {
    WeightIsLargest(backends, configured, |configured|, address);
    if address !in backends {
      var k :| 0 <= k < |configured| && AddressesOf(configured)[k] == address;
      assert configured[k].weight > 0;
    }
  }

  /**
   A reload does not apply the configured weights: an address counts with its configured weight exactly when
   it was in the pool with that weight already, or is new and configured with weight 1.
   */
  lemma {:induction false} ReloadIgnoresWeights(p: Pool, backends: seq<string>, routes: seq<RouteConfig>, k: nat)
    requires WellFormed(p) && PositiveWeights(RouteBackends(routes, |routes|))
    requires k < |FirstOccurrences(Mentioned(backends, routes), |Mentioned(backends, routes)|)|
    ensures var all := Mentioned(backends, routes);
            var addresses := FirstOccurrences(all, |all|);
            var configured := RouteBackends(routes, |routes|);
            var weight := WeightOf(backends, configured, |configured|, addresses[k]);
            var before := LastIndexOf(p.backends, addresses[k]);
            EffectiveWeight(Reconfigure(p, addresses).backends[k]) == weight <==>
            if before.Some? then EffectiveWeight(p.backends[before.value]) == weight else weight == 1
  {
    var all := Mentioned(backends, routes);
    var addresses := FirstOccurrences(all, |all|);
    FirstOccurrencesAreDistinct(all, |all|);
    assert addresses[k] in all[..|all|] && all[..|all|] == all;
    MentionedWeighs(backends, RouteBackends(routes, |routes|), addresses[k]);
    assert Reconfigure(p, addresses).backends[k] == ReloadedEntry(p, addresses[k], |p.store| + k);
  }

  /** A configured weight of 5 counts as 1 after the reload that adds it, for a new address and for a kept one alike. */
  lemma {:induction false} ReloadLosesWeights(kept: bool) returns (p: Pool, routes: seq<RouteConfig>)
    ensures WellFormed(p) && routes == [RouteConfig("/", [BackendConfig("a", 5)], 0, 0)]
    ensures p == InitialPool(if kept then ["a"] else [], map[])
    ensures var configured := RouteBackends(routes, |routes|);
            WeightOf([], configured, |configured|, "a") == 5
    ensures var all := Mentioned([], routes);
            var after := Reconfigure(p, FirstOccurrences(all, |all|));
            |after.backends| == 1 && after.backends[0].address == "a" && EffectiveWeight(after.backends[0]) == 1
  {
    hide InitialPool, Reconfigure, EffectiveWeight, WeightOf, Mentioned, FirstOccurrences;
    p := InitialPool(if kept then ["a"] else [], map[]);
    routes := [RouteConfig("/", [BackendConfig("a", 5)], 0, 0)];
    OneRouteBackend(routes);
    ReloadedWeight(p, kept);
  }

  lemma {:induction false} OneRouteBackend(routes: seq<RouteConfig>)
    requires routes == [RouteConfig("/", [BackendConfig("a", 5)], 0, 0)]
    ensures var configured := RouteBackends(routes, |routes|); WeightOf([], configured, |configured|, "a") == 5
    ensures var all := Mentioned([], routes); FirstOccurrences(all, |all|) == ["a"]
  {
    assert RouteBackends(routes, 0) == [] && RouteBackends(routes, 1) == [BackendConfig("a", 5)];
    var all := Mentioned([], routes);
    assert all == ["a"] && FirstOccurrences(all, 0) == [] && FirstOccurrences(all, 1) == ["a"];
  }

  lemma {:induction false} ReloadedWeight(p: Pool, kept: bool)
    requires p == InitialPool(if kept then ["a"] else [], map[])
    ensures var after := Reconfigure(p, ["a"]);
            |after.backends| == 1 && after.backends[0].address == "a" && EffectiveWeight(after.backends[0]) == 1
  {
    assert Reconfigure(p, ["a"]).backends[0] == ReloadedEntry(p, "a", |p.store|);
    if kept {
      assert LastIndexOf(p.backends, "a") == Some(0);
    } else {
      assert LastIndexOf(p.backends, "a").None?;
    }
  }
}

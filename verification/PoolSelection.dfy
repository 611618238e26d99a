/**
 What nextFor guarantees: the chosen backend against the eligible ones, agreement with the two
 readers of availability, the exact share each backend gets from the rotation, and the balance a
 run of arrivals keeps.
 */
module PoolSelection {
  import opened Options
  import opened PoolModel
  import Routes

  // ---------------------------------------------------------------- the choice

  lemma {:induction false} FirstAboveBounds(cs: seq<Candidate>, bound: real, k: nat)
    requires k <= |cs|
    ensures forall j :: k <= j < FirstAbove(cs, bound, k) ==> cs[j].score <= bound
    ensures FirstAbove(cs, bound, k) < |cs| ==> cs[FirstAbove(cs, bound, k)].score > bound
    decreases |cs| - k
  {
    if k < |cs| && cs[k].score <= bound {
      FirstAboveBounds(cs, bound, k + 1);
    }
  }

  /** A sorted list's near-minimum prefix is within the tolerance of each of its elements. */
  lemma {:induction false} PrefixIsNearMinimum(all: seq<Candidate>, k: nat, d: Candidate)
    requires d in all
    requires var sorted := SortCandidates(all);
             sorted != [] && k < FirstAbove(sorted, sorted[0].score + SCORE_TOLERANCE, 0)
    ensures SortCandidates(all)[k] in all
    ensures SortCandidates(all)[k].score <= d.score + SCORE_TOLERANCE
  {
    var sorted := SortCandidates(all);
    SortIsCorrect(all);
    FirstAboveBounds(sorted, sorted[0].score + SCORE_TOLERANCE, 0);
    assert sorted[k] in sorted;
    var m :| 0 <= m < |sorted| && sorted[m] == d;
    assert m == 0 || Precedes(sorted[0], sorted[m]);
  }

  /** Every candidate near the minimum is eligible and within the tolerance of every eligible entry. */
  lemma {:induction false} NearMinimumIsNearest(p: Pool, allowed: Allowed, now: Time, k: nat, j: nat)
    requires WellFormed(p) && k < |NearMinimum(p, allowed, now)|
    requires j < |p.backends| && Eligible(p.backends[j], allowed, now)
    ensures var c := NearMinimum(p, allowed, now)[k];
            && Eligible(p.backends[c.idx], allowed, now)
            && ScoreAt(p, c.idx, now) <= ScoreAt(p, j, now) + SCORE_TOLERANCE
  {
    var all := Candidates(p, allowed, now, |p.backends|);
    var d := Candidate(j, ScoreAt(p, j, now));
    CandidatesAreEligible(p, allowed, now, |p.backends|);
    PrefixIsNearMinimum(all, k, d);
    var c := SortCandidates(all)[k];
    assert NearMinimum(p, allowed, now)[k] == c;
  }

  lemma {:induction false} RotationIsEmptyWhenNoneEligible(p: Pool, allowed: Allowed, now: Time)
    requires WellFormed(p)
    ensures RotationSlots(p, allowed, now) == [] <==>
            forall i :: 0 <= i < |p.backends| ==> !Eligible(p.backends[i], allowed, now)
  {
    var all := Candidates(p, allowed, now, |p.backends|);
    CandidatesAreEligible(p, allowed, now, |p.backends|);
    if all != [] {
      assert all[0] in all;
      assert NearMinimum(p, allowed, now) != [];
    } else {
      forall i | 0 <= i < |p.backends| ensures !Eligible(p.backends[i], allowed, now) {
        assert Candidate(i, ScoreAt(p, i, now)) !in all;
      }
    }
  }

  /** nextFor returns nothing exactly when nothing is eligible, and otherwise a near-minimal eligible entry. */
  lemma {:induction false} NextForPicksNearMinimum(p: Pool, allowed: Allowed, now: Time)
    requires WellFormed(p)
    ensures NextFor(p, allowed, now).chosen.None? <==>
            forall i :: 0 <= i < |p.backends| ==> !Eligible(p.backends[i], allowed, now)
    ensures NextFor(p, allowed, now).chosen.Some? ==>
              var c := NextFor(p, allowed, now).chosen.value;
              && Eligible(p.backends[c], allowed, now)
              && forall j :: 0 <= j < |p.backends| && Eligible(p.backends[j], allowed, now) ==>
                   ScoreAt(p, c, now) <= ScoreAt(p, j, now) + SCORE_TOLERANCE
  {
    RotationIsEmptyWhenNoneEligible(p, allowed, now);
    var slots := RotationSlots(p, allowed, now);
    if slots != [] {
      var k := SlotAt(slots, CursorPosition(p.current, TotalWeight(slots)));
      var c := NearMinimum(p, allowed, now)[k].idx;
      assert NextFor(p, allowed, now).chosen == Some(c);
      forall j | 0 <= j < |p.backends| && Eligible(p.backends[j], allowed, now)
        ensures Eligible(p.backends[c], allowed, now)
        ensures ScoreAt(p, c, now) <= ScoreAt(p, j, now) + SCORE_TOLERANCE
      {
        NearMinimumIsNearest(p, allowed, now, k, j);
      }
    }
  }

  /** The entry is one of those that this call and, while nothing changes, the following ones rotate over. */
  ghost predicate InRotation(p: Pool, allowed: Allowed, now: Time, i: nat)
    requires WellFormed(p)
  {
    exists k :: 0 <= k < |NearMinimum(p, allowed, now)| && NearMinimum(p, allowed, now)[k].idx == i
  }

  lemma {:induction false} NearestAreInPrefix(all: seq<Candidate>, c: Candidate) returns (m: nat)
    requires c in all && forall d :: d in all ==> c.score <= d.score + SCORE_TOLERANCE
    ensures var sorted := SortCandidates(all);
            sorted != [] && m < |NearestOf(sorted)| && NearestOf(sorted)[m] == c
  {
    var sorted := SortCandidates(all);
    SortIsCorrect(all);
    m :| 0 <= m < |sorted| && sorted[m] == c;
    var bound := sorted[0].score + SCORE_TOLERANCE;
    FirstAboveBounds(sorted, bound, 0);
    assert sorted[0] in all;
    assert forall q :: 0 <= q < m ==> Precedes(sorted[q], sorted[m]);
  }

  lemma {:induction false} NearestIsInRotation(p: Pool, allowed: Allowed, now: Time, i: nat)
    requires WellFormed(p) && i < |p.backends| && Eligible(p.backends[i], allowed, now)
    requires forall j :: 0 <= j < |p.backends| && Eligible(p.backends[j], allowed, now) ==>
               ScoreAt(p, i, now) <= ScoreAt(p, j, now) + SCORE_TOLERANCE
    ensures InRotation(p, allowed, now, i)
  {
    var all := Candidates(p, allowed, now, |p.backends|);
    CandidatesAreEligible(p, allowed, now, |p.backends|);
    hide Eligible, ScoreAt, Candidates;
    var c := Candidate(i, ScoreAt(p, i, now));
    assert c in all;
    var m := NearestAreInPrefix(all, c);
    assert NearMinimum(p, allowed, now)[m] == c;
  }

  lemma {:induction false} RotationIsEligible(p: Pool, allowed: Allowed, now: Time, k: nat)
    requires WellFormed(p) && k < |NearMinimum(p, allowed, now)|
    ensures var i := NearMinimum(p, allowed, now)[k].idx; i < |p.backends| && Eligible(p.backends[i], allowed, now)
  {
    var all := Candidates(p, allowed, now, |p.backends|);
    CandidatesAreEligible(p, allowed, now, |p.backends|);
    SortIsCorrect(all);
    hide Eligible, ScoreAt, Candidates;
    assert NearMinimum(p, allowed, now)[k] == SortCandidates(all)[k];
    assert SortCandidates(all)[k] in all;
  }

  /** The rotation holds exactly the eligible entries that score within the tolerance of every eligible one. */
  lemma {:induction false} RotationMembers(p: Pool, allowed: Allowed, now: Time, i: nat)
    requires WellFormed(p) && i < |p.backends|
    ensures InRotation(p, allowed, now, i) <==>
            && Eligible(p.backends[i], allowed, now)
            && forall j :: 0 <= j < |p.backends| && Eligible(p.backends[j], allowed, now) ==>
                 ScoreAt(p, i, now) <= ScoreAt(p, j, now) + 0.001
  {
    hide Eligible, ScoreAt, NearMinimum;
    if InRotation(p, allowed, now, i) {
      var k :| 0 <= k < |NearMinimum(p, allowed, now)| && NearMinimum(p, allowed, now)[k].idx == i;
      RotationIsEligible(p, allowed, now, k);
      forall j | 0 <= j < |p.backends| && Eligible(p.backends[j], allowed, now)
        ensures ScoreAt(p, i, now) <= ScoreAt(p, j, now) + SCORE_TOLERANCE
      {
        NearMinimumIsNearest(p, allowed, now, k, j);
      }
    }
    if && Eligible(p.backends[i], allowed, now)
       && forall j :: 0 <= j < |p.backends| && Eligible(p.backends[j], allowed, now) ==>
            ScoreAt(p, i, now) <= ScoreAt(p, j, now) + SCORE_TOLERANCE
    {
      NearestIsInRotation(p, allowed, now, i);
    }
  }

  /** The score of an eligible entry, from its fields. */
  lemma {:induction false} ScoreFromFields(p: Pool, x: nat, now: Time)
    requires WellFormed(p) && x < |p.backends| && Available(p.backends[x], now)
    ensures var e, s := p.backends[x], p.store[p.backends[x].statsId];
            ScoreAt(p, x, now) ==
            s.active as real * 1000.0 / (if e.weight > 1 then e.weight else 1) as real
            + (if s.requests > 0 then s.totalLatencyNs as real / (s.requests as real * 1_000_000.0) else 0.0)
            + 200.0 * e.consecutiveErr as real - (if e.breaker == Closed then 0.0 else 250.0)
  {
    var e, s := p.backends[x], p.store[p.backends[x].statsId];
    ThousandTimes(s.active as real, EffectiveWeight(e) as real);
    if s.requests > 0 {
      PerMillion(s.totalLatencyNs as real, s.requests as real);
    }
  }

  lemma {:induction false} ThousandTimes(a: real, w: real)
    requires w > 0.0
    ensures a / w * 1000.0 == a * 1000.0 / w
  {
    assert (a / w * 1000.0) * w == a * 1000.0;
  }

  lemma {:induction false} PerMillion(t: real, r: real)
    requires r > 0.0
    ensures t / r / 1_000_000.0 == t / (r * 1_000_000.0)
  {
    assert t == (t / r / 1_000_000.0) * (r * 1_000_000.0);
  }

  /**
   What the choice weighs, in the fields themselves: a thousand for each active request per weight, the average
   latency in milliseconds, 200 for each failure in a row and 250 off for a breaker that is not closed. No backend
   that is allowed, in service, not open and without a probe out costs less than the chosen one by more than 0.001.
   */
  lemma {:induction false} ChosenIsCheapest(p: Pool, allowed: Allowed, now: Time, c: nat, j: nat)
    requires WellFormed(p) && NextFor(p, allowed, now).chosen == Some(c) && j < |p.backends|
    requires allowed.Some? ==> p.backends[j].address in allowed.value
    requires p.backends[j].healthy && !p.backends[j].disabled && !p.backends[j].draining
    requires p.backends[j].breaker == Open ==> p.backends[j].openedUntil.None? || now >= p.backends[j].openedUntil.value
    requires p.backends[j].breaker == HalfOpen ==> !p.backends[j].halfOpenInFlight
    ensures var e, s := p.backends[c], p.store[p.backends[c].statsId];
            var f, t := p.backends[j], p.store[p.backends[j].statsId];
            s.active as real * 1000.0 / (if e.weight > 1 then e.weight else 1) as real
            + (if s.requests > 0 then s.totalLatencyNs as real / (s.requests as real * 1_000_000.0) else 0.0)
            + 200.0 * e.consecutiveErr as real - (if e.breaker == Closed then 0.0 else 250.0)
            <=
            t.active as real * 1000.0 / (if f.weight > 1 then f.weight else 1) as real
            + (if t.requests > 0 then t.totalLatencyNs as real / (t.requests as real * 1_000_000.0) else 0.0)
            + 200.0 * f.consecutiveErr as real - (if f.breaker == Closed then 0.0 else 250.0) + 0.001
    ensures p.backends[c].healthy && !p.backends[c].disabled && !p.backends[c].draining
    ensures allowed.Some? ==> p.backends[c].address in allowed.value
    ensures p.backends[c].breaker == Open ==> p.backends[c].openedUntil.None? || now >= p.backends[c].openedUntil.value
    ensures p.backends[c].breaker == HalfOpen ==> !p.backends[c].halfOpenInFlight
  {
    NextForPicksNearMinimum(p, allowed, now);
    assert Eligible(p.backends[j], allowed, now) && Eligible(p.backends[c], allowed, now);
    hide NextFor, ScoreAt;
    ScoreFromFields(p, c, now);
    ScoreFromFields(p, j, now);
  }

  /** Nothing is chosen exactly when every backend is off the route, out of service, open or has its probe out. */
  lemma {:induction false} NothingToChoose(p: Pool, allowed: Allowed, now: Time)
    requires WellFormed(p)
    ensures NextFor(p, allowed, now).chosen.None? <==>
            forall j :: 0 <= j < |p.backends| ==>
              || (allowed.Some? && p.backends[j].address !in allowed.value)
              || !p.backends[j].healthy || p.backends[j].disabled || p.backends[j].draining
              || (p.backends[j].breaker == Open && p.backends[j].openedUntil.Some? && now < p.backends[j].openedUntil.value)
              || (p.backends[j].breaker == HalfOpen && p.backends[j].halfOpenInFlight)
  {
    NextForPicksNearMinimum(p, allowed, now);
    hide NextFor, ScoreAt;
  }

  lemma {:induction false} CrossMultiplied(a: int, r: int, b: int, q: int)
    requires r > 0 && q > 0
    requires a as real / (r as real * 1_000_000.0) <= b as real / (q as real * 1_000_000.0) + 0.001
    ensures a * q <= b * r + 1000 * r * q
  {
    var x, y := r as real * 1_000_000.0, q as real * 1_000_000.0;
    var left, right := a as real / x, b as real / y;
    assert left * x == a as real && right * y == b as real;
    Scaled(left, right + 0.001, x * y);
    assert left * (x * y) == a as real * y;
    assert (right + 0.001) * (x * y) == b as real * x + 0.001 * (x * y);
    assert a as real * y == (a * q) as real * 1_000_000.0;
    assert b as real * x == (b * r) as real * 1_000_000.0;
    assert x * y == (r * q) as real * 1_000_000.0 * 1_000_000.0;
    assert (a * q) as real <= (b * r + 1000 * r * q) as real;
  }

  lemma {:induction false} Scaled(a: real, b: real, s: real)
    requires a <= b && s > 0.0
    ensures a * s <= b * s
  {
  }

  /** Between closed, idle backends without failures the one with the lower average latency is chosen, within 1000 ns. */
  lemma {:induction false} FasterIsChosen(p: Pool, allowed: Allowed, now: Time, c: nat, j: nat)
    requires WellFormed(p) && NextFor(p, allowed, now).chosen == Some(c) && j < |p.backends|
    requires allowed.Some? ==> p.backends[j].address in allowed.value
    requires p.backends[j].healthy && !p.backends[j].disabled && !p.backends[j].draining
    requires forall i :: i == c || i == j ==>
               var e, s := p.backends[i], p.store[p.backends[i].statsId];
               e.breaker == Closed && e.consecutiveErr == 0 && s.active == 0 && s.requests > 0
    ensures var s, t := p.store[p.backends[c].statsId], p.store[p.backends[j].statsId];
            s.totalLatencyNs * t.requests <= t.totalLatencyNs * s.requests + 1000 * s.requests * t.requests
  {
    hide NextFor, ScoreAt, Eligible, Available;
    NextForPicksNearMinimum(p, allowed, now);
    ClosedIsEligible(p.backends[j], allowed, now);
    EligibleIsAvailable(p.backends[c], allowed, now);
    IdleScore(p, c, now);
    IdleScore(p, j, now);
    var s, t := p.store[p.backends[c].statsId], p.store[p.backends[j].statsId];
    CrossMultiplied(s.totalLatencyNs, s.requests, t.totalLatencyNs, t.requests);
  }

  lemma {:induction false} IdleScore(p: Pool, x: nat, now: Time)
    requires WellFormed(p) && x < |p.backends| && Available(p.backends[x], now)
    requires var e, s := p.backends[x], p.store[p.backends[x].statsId];
             e.breaker == Closed && e.consecutiveErr == 0 && s.active == 0 && s.requests > 0
    ensures var s := p.store[p.backends[x].statsId];
            ScoreAt(p, x, now) == s.totalLatencyNs as real / (s.requests as real * 1_000_000.0)
  {
    var e, s := p.backends[x], p.store[p.backends[x].statsId];
    ScoreFromFields(p, x, now);
    NoLoad((if e.weight > 1 then e.weight else 1) as real);
    hide ScoreAt;
  }

  lemma {:induction false} ClosedIsEligible(e: Entry, allowed: Allowed, now: Time)
    requires e.breaker == Closed && e.healthy && !e.disabled && !e.draining && (allowed.Some? ==> e.address in allowed.value)
    ensures Eligible(e, allowed, now) && Available(e, now)
  {
  }

  lemma {:induction false} EligibleIsAvailable(e: Entry, allowed: Allowed, now: Time)
    ensures Eligible(e, allowed, now) <==> (allowed.Some? ==> e.address in allowed.value) && Available(e, now)
  {
  }

  lemma {:induction false} NoLoad(w: real)
    requires w > 0.0
    ensures 0.0 * 1000.0 / w == 0.0
  {
  }

  lemma {:induction false} SoleBackendIsPicked(p: Pool, now: Time)
    requires |p.backends| == 1 && WellFormed(p) && Available(p.backends[0], now)
    ensures NextFor(p, None, now).chosen == Some(0)
    ensures PickedAddress(p, None, now) == Some(p.backends[0].address)
  {
    hide NextFor;
    NextForPicksNearMinimum(p, None, now);
  }

  /** Which breakers nextFor and availableCount store as half-open: the expired ones in service that they pass. */
  lemma {:induction false} StoredBreakers(p: Pool, allowed: Allowed, now: Time, x: nat)
    requires WellFormed(p) && x < |p.backends|
    ensures var e := p.backends[x];
            var expired := e.breaker == Open && (e.openedUntil.None? || now >= e.openedUntil.value);
            var serves := e.healthy && !e.disabled && !e.draining;
            && NextFor(p, allowed, now).pool.backends[x].breaker ==
               (if expired && serves && (allowed.Some? ==> e.address in allowed.value) then HalfOpen else e.breaker)
            && PromoteAll(p, now).backends[x].breaker == (if expired && serves then HalfOpen else e.breaker)
  {
    hide RotationSlots, ChosenIndex;
  }

  /** When an admin action is refused, and that it then changes nothing. */
  lemma {:induction false} AdminErrors(p: Pool, address: string, action: string)
    ensures var r := SetBackendState(p, address, action);
            var known := exists i :: 0 <= i < |p.backends| && p.backends[i].address == address;
            && (r.1 == Some(BackendNotFound) <==> !known)
            && (r.1 == Some(UnknownAction) <==> known && action != "disable" && action != "enable" && action != "drain")
            && (r.1.Some? ==> r.0 == p)
  {
    assert IndexOf(p.backends, address).Some? ==> p.backends[IndexOf(p.backends, address).value].address == address;
  }

  /** A reload keeps the place in the rotation, reduced to the new number of backends. */
  lemma {:induction false} ReloadKeepsCursor(p: Pool, addresses: seq<string>)
    requires WellFormed(p)
    ensures var q := Reconfigure(p, addresses);
            && |q.backends| == |addresses|
            && (addresses == [] ==> q.current == 0)
            && (addresses != [] ==> q.current < |addresses| && exists turns: nat :: p.current == turns * |addresses| + q.current)
  {
    if addresses != [] {
      var turns := p.current / |addresses|;
      assert p.current == turns * |addresses| + Reconfigure(p, addresses).current;
    }
  }

  // ---------------------------------------------------------------- three readers of availability

  /** How many of the first n rows are marked available. */
  function AvailableRows(rows: seq<Row>, n: nat): nat
    requires n <= |rows|
  {
    if n == 0 then 0 else AvailableRows(rows, n - 1) + (if rows[n - 1].available then 1 else 0)
  }

  lemma {:induction false} RowsCountAvailable(p: Pool, now: Time, n: nat)
    requires WellFormed(p) && n <= |p.backends|
    ensures AvailableRows(Status(p, now), n) == CountAvailable(p.backends, now, n)
    ensures CountAvailable(p.backends, now, n) > 0 <==>
            exists i :: 0 <= i < n && Available(p.backends[i], now)
  {
    if n > 0 {
      RowsCountAvailable(p, now, n - 1);
    }
  }

  /** availableCount, the rows of status and nextFor(nil) agree at any one instant. */
  lemma {:induction false} AvailabilityReadersAgree(p: Pool, now: Time)
    requires WellFormed(p)
    ensures CountAvailable(p.backends, now, |p.backends|) == AvailableRows(Status(p, now), |p.backends|)
    ensures CountAvailable(p.backends, now, |p.backends|) > 0 <==> NextFor(p, None, now).chosen.Some?
  {
    RowsCountAvailable(p, now, |p.backends|);
    NextForPicksNearMinimum(p, None, now);
  }

  /** A request whose path matches reaches only backends of its best route. */
  lemma {:induction false} MatchedRequestStaysOnItsRoute(p: Pool, path: string, routes: seq<Routes.RouteConfig>, i: nat, now: Time)
    requires WellFormed(p) && Routes.IsBestRoute(path, routes, i)
    ensures var a := PickedAddress(p, Routes.RouteBackendSet(Some(routes[i])), now);
            a.Some? ==> exists b :: b in routes[i].backends && b.address == a.value
  {
    NextForPicksNearMinimum(p, Routes.RouteBackendSet(Some(routes[i])), now);
  }

  /**
   A matched request finds nothing only when no backend that its route lists is in service, not open and without a
   probe out; a request that matches no route may use any backend.
   */
  lemma {:induction false} RouteBackendsAreOffered(p: Pool, route: Option<Routes.RouteConfig>, now: Time)
    requires WellFormed(p)
    ensures PickedAddress(p, Routes.RouteBackendSet(route), now).None? <==>
            forall j :: 0 <= j < |p.backends| ==>
              || (route.Some? && forall b :: b in route.value.backends ==> b.address != p.backends[j].address)
              || !p.backends[j].healthy || p.backends[j].disabled || p.backends[j].draining
              || (p.backends[j].breaker == Open && p.backends[j].openedUntil.Some? && now < p.backends[j].openedUntil.value)
              || (p.backends[j].breaker == HalfOpen && p.backends[j].halfOpenInFlight)
  {
    NothingToChoose(p, Routes.RouteBackendSet(route), now);
    hide NextFor;
    if route.Some? {
      forall j | 0 <= j < |p.backends|
        ensures p.backends[j].address !in Routes.RouteBackendSet(route).value <==>
                forall b :: b in route.value.backends ==> b.address != p.backends[j].address
      {
      }
    }
  }

  // ---------------------------------------------------------------- exact rotation

  lemma {:induction false} WeightIsMonotone(slots: seq<Slot>, i: nat, j: nat)
    requires i <= j <= |slots|
    ensures WeightBefore(slots, i) <= WeightBefore(slots, j)
    decreases j - i
  {
    if i < j {
      WeightIsMonotone(slots, i, j - 1);
    }
  }

  lemma {:induction false} SearchLandsInInterval(slots: seq<Slot>, k: nat, position: nat)
    requires k <= |slots| && position + WeightBefore(slots, k) < TotalWeight(slots)
    ensures var r := Search(slots, k, position);
            && r < |slots|
            && WeightBefore(slots, r) <= position + WeightBefore(slots, k) < WeightBefore(slots, r + 1)
    decreases |slots| - k
  {
    if k < |slots| && position >= slots[k].weight {
      SearchLandsInInterval(slots, k + 1, position - slots[k].weight);
    }
  }

  /** Within the total weight the search finds slot j exactly on j's interval, and never falls through. */
  lemma {:induction false} SearchNeverFallsThrough(slots: seq<Slot>, position: nat, j: nat)
    requires position < TotalWeight(slots) && j < |slots|
    ensures Search(slots, 0, position) < |slots|
    ensures SlotAt(slots, position) == j <==> WeightBefore(slots, j) <= position < WeightBefore(slots, j + 1)
  {
    SearchLandsInInterval(slots, 0, position);
    var r := Search(slots, 0, position);
    if r < j {
      WeightIsMonotone(slots, r + 1, j);
    } else if r > j {
      WeightIsMonotone(slots, j + 1, r);
    }
  }

  /** Number of cursor positions below n that land on slot j. */
  function Landings(slots: seq<Slot>, n: nat, j: nat): nat
    requires slots != []
  {
    if n == 0 then 0 else Landings(slots, n - 1, j) + (if SlotAt(slots, n - 1) == j then 1 else 0)
  }

  lemma {:induction false} LandingsAreWeights(slots: seq<Slot>, n: nat, j: nat)
    requires j < |slots| && n <= TotalWeight(slots)
    ensures Landings(slots, n, j) ==
            if n <= WeightBefore(slots, j) then 0
            else if n <= WeightBefore(slots, j + 1) then n - WeightBefore(slots, j)
            else slots[j].weight
  {
    if n > 0 {
      LandingsAreWeights(slots, n - 1, j);
      SearchNeverFallsThrough(slots, n - 1, j);
    }
  }

  /** One call of nextFor: the pool it finds, and its arguments. */
  datatype Call = Call(pool: Pool, allowed: Allowed, now: Time)

  predicate WellFormedCalls(calls: seq<Call>) {
    forall k :: 0 <= k < |calls| ==> WellFormed(calls[k].pool)
  }

  /** Between calls anything may happen to the pool except to the cursor. */
  ghost predicate CursorHandedOn(calls: seq<Call>)
    requires WellFormedCalls(calls)
  {
    forall k, m :: 0 <= k < m < |calls| && m == k + 1 ==>
      calls[m].pool.current == NextFor(calls[k].pool, calls[k].allowed, calls[k].now).pool.current
  }

  predicate SameRotation(calls: seq<Call>, slots: seq<Slot>)
    requires WellFormedCalls(calls)
  {
    forall k :: 0 <= k < |calls| ==> RotationSlots(calls[k].pool, calls[k].allowed, calls[k].now) == slots
  }

  /** The index each call returns. */
  function Picks(calls: seq<Call>): (r: seq<Option<nat>>)
    requires WellFormedCalls(calls)
    ensures |r| == |calls|
    ensures forall k :: 0 <= k < |r| ==> r[k] == NextFor(calls[k].pool, calls[k].allowed, calls[k].now).chosen
  {
    seq(|calls|, k requires 0 <= k < |calls| => NextFor(calls[k].pool, calls[k].allowed, calls[k].now).chosen)
  }

  /** How many of the first n picks are the backend at index i. */
  function TimesChosen(picks: seq<Option<nat>>, n: nat, i: nat): nat
    requires n <= |picks|
  {
    if n == 0 then 0 else TimesChosen(picks, n - 1, i) + (if picks[n - 1] == Some(i) then 1 else 0)
  }

  predicate DistinctIndices(cs: seq<Candidate>) {
    forall i, j :: 0 <= i < j < |cs| ==> cs[i].idx != cs[j].idx
  }

  lemma {:induction false} InsertKeepsDistinct(c: Candidate, cs: seq<Candidate>)
    requires DistinctIndices(cs) && forall k :: 0 <= k < |cs| ==> cs[k].idx != c.idx
    ensures DistinctIndices(InsertCandidate(c, cs))
  {
    if cs != [] && !Precedes(c, cs[0]) {
      InsertKeepsDistinct(c, cs[1..]);
      InsertKeepsContents(c, cs[1..]);
      var t := InsertCandidate(c, cs[1..]);
      forall k | 0 <= k < |t| ensures t[k].idx != cs[0].idx {
        assert t[k] in multiset(t);
        assert t[k] in [c] + cs[1..];
      }
    }
  }

  lemma {:induction false} SortKeepsDistinct(cs: seq<Candidate>)
    requires DistinctIndices(cs)
    ensures DistinctIndices(SortCandidates(cs))
  {
    if cs != [] {
      SortKeepsDistinct(cs[1..]);
      SortIsCorrect(cs[1..]);
      var t := SortCandidates(cs[1..]);
      forall k | 0 <= k < |t| ensures t[k].idx != cs[0].idx {
        assert t[k] in cs[1..];
      }
      InsertKeepsDistinct(cs[0], t);
    }
  }

  lemma {:induction false} CandidatesAreDistinct(p: Pool, allowed: Allowed, now: Time, n: nat)
    requires WellFormed(p) && n <= |p.backends|
    ensures DistinctIndices(Candidates(p, allowed, now, n))
  {
    if n > 0 {
      CandidatesAreDistinct(p, allowed, now, n - 1);
    }
  }

  predicate DistinctSlots(slots: seq<Slot>) {
    forall i, j :: 0 <= i < j < |slots| ==> slots[i].idx != slots[j].idx
  }

  /** Successive positions of the cursor in a rotation of the given total weight. */
  ghost predicate Cyclic(positions: seq<nat>, total: nat) {
    && (forall t :: 0 <= t < |positions| ==> positions[t] < total)
    && (forall t, u :: 0 <= t < u < |positions| && u == t + 1 ==>
          positions[u] == if positions[t] + 1 == total then 0 else positions[t] + 1)
  }

  lemma {:induction false} RemainderOf(a: nat, q: nat, r: nat, m: nat)
    requires r < m && a == q * m + r
    ensures a % m == r
  {
    var d := q - a / m;
    assert d * m == a % m - r;
    assert d >= 1 ==> d * m >= m;
    assert d <= -1 ==> d * m <= 0 - m;
  }

  lemma {:induction false} NextPosition(c: nat, m: nat)
    requires m > 0
    ensures (c + 1) % m == if c % m + 1 == m then 0 else c % m + 1
    ensures (c + 1) % m % m == (c + 1) % m
  {
    var q, r := c / m, c % m;
    if r + 1 == m {
      assert (q + 1) * m == q * m + m;
      RemainderOf(c + 1, q + 1, 0, m);
    } else {
      RemainderOf(c + 1, q, r + 1, m);
    }
    RemainderOf((c + 1) % m, 0, (c + 1) % m, m);
  }

  lemma {:induction false} PositionAt(positions: seq<nat>, total: nat, t: nat)
    requires Cyclic(positions, total) && t < |positions| && t < total
    ensures positions[t] == if positions[0] + t < total then positions[0] + t else positions[0] + t - total
  {
    if t > 0 {
      PositionAt(positions, total, t - 1);
    }
  }

  /** The first t picks of a fixed rotation cover a cyclic stretch of t cursor positions. */
  lemma {:induction false} PicksAreLandings(slots: seq<Slot>, positions: seq<nat>, picks: seq<Option<nat>>, j: nat, t: nat)
    requires j < |slots| && DistinctSlots(slots) && Cyclic(positions, TotalWeight(slots))
    requires |picks| == |positions| > 0 && t <= |positions| && t <= TotalWeight(slots)
    requires forall k :: 0 <= k < |picks| ==> picks[k] == Some(slots[SlotAt(slots, positions[k])].idx)
    ensures var total := TotalWeight(slots);
            TimesChosen(picks, t, slots[j].idx) + Landings(slots, positions[0], j) ==
            if positions[0] + t <= total then Landings(slots, positions[0] + t, j)
            else Landings(slots, total, j) + Landings(slots, positions[0] + t - total, j)
  {
    if t > 0 {
      PicksAreLandings(slots, positions, picks, j, t - 1);
      PositionAt(positions, TotalWeight(slots), t - 1);
      var k := SlotAt(slots, positions[t - 1]);
      assert picks[t - 1] == Some(slots[k].idx);
      assert slots[k].idx == slots[j].idx <==> k == j;
    }
  }

  /** What one call does, in terms of its rotation slots. */
  lemma {:induction false} CallFollowsRotation(p: Pool, allowed: Allowed, now: Time)
    requires WellFormed(p) && RotationSlots(p, allowed, now) != []
    ensures var slots := RotationSlots(p, allowed, now);
            && DistinctSlots(slots)
            && TotalWeight(slots) > 0
            && NextFor(p, allowed, now).chosen == Some(slots[SlotAt(slots, p.current % TotalWeight(slots))].idx)
            && NextFor(p, allowed, now).pool.current == (p.current + 1) % TotalWeight(slots)
  {
    var slots := RotationSlots(p, allowed, now);
    SlotsAreDistinct(p, allowed, now);
    hide NearMinimum, VisitAll, SlotAt;
    WeightIsMonotone(slots, 1, |slots|);
    assert WeightBefore(slots, 1) == WeightBefore(slots, 0) + slots[0].weight;
  }

  lemma {:induction false} SlotsAreDistinct(p: Pool, allowed: Allowed, now: Time)
    requires WellFormed(p)
    ensures DistinctSlots(RotationSlots(p, allowed, now))
  {
    CandidatesAreDistinct(p, allowed, now, |p.backends|);
    SortKeepsDistinct(Candidates(p, allowed, now, |p.backends|));
    hide Candidates, SortCandidates;
  }

  function Positions(calls: seq<Call>, total: nat): (r: seq<nat>)
    requires total > 0
    ensures |r| == |calls|
    ensures forall k :: 0 <= k < |r| ==> r[k] == calls[k].pool.current % total
  {
    seq(|calls|, k requires 0 <= k < |calls| => calls[k].pool.current % total)
  }

  /** Call k of a run over one rotation, and the position it leaves the next call. */
  lemma {:induction false} OneCallOfMany(calls: seq<Call>, slots: seq<Slot>, k: nat)
    requires WellFormedCalls(calls) && CursorHandedOn(calls) && SameRotation(calls, slots)
    requires k < |calls| && slots != []
    ensures DistinctSlots(slots) && TotalWeight(slots) > 0
    ensures var total := TotalWeight(slots);
            var positions := Positions(calls, total);
            && NextFor(calls[k].pool, calls[k].allowed, calls[k].now).chosen == Some(slots[SlotAt(slots, positions[k])].idx)
            && (k + 1 < |calls| ==> positions[k + 1] == if positions[k] + 1 == total then 0 else positions[k] + 1)
  {
    hide NextFor, RotationSlots, SlotAt;
    CallFollowsRotation(calls[k].pool, calls[k].allowed, calls[k].now);
    NextPosition(calls[k].pool.current, TotalWeight(slots));
  }

  /** The cursor positions of a run of calls over one rotation follow one another cyclically. */
  lemma {:induction false} PositionsAreCyclic(calls: seq<Call>, slots: seq<Slot>)
    requires WellFormedCalls(calls) && CursorHandedOn(calls) && SameRotation(calls, slots)
    requires calls != [] && slots != []
    ensures DistinctSlots(slots) && TotalWeight(slots) > 0
    ensures Cyclic(Positions(calls, TotalWeight(slots)), TotalWeight(slots))
  {
    hide NextFor, RotationSlots, SlotAt;
    OneCallOfMany(calls, slots, 0);
    var total := TotalWeight(slots);
    var r := Positions(calls, total);
    forall t, u | 0 <= t < u < |r| && u == t + 1
      ensures r[u] == if r[t] + 1 == total then 0 else r[t] + 1
    {
      OneCallOfMany(calls, slots, t);
    }
  }

  lemma {:induction false} PicksFollowPositions(calls: seq<Call>, slots: seq<Slot>)
    requires WellFormedCalls(calls) && CursorHandedOn(calls) && SameRotation(calls, slots)
    requires slots != [] && TotalWeight(slots) > 0
    ensures forall k :: 0 <= k < |calls| ==>
              Picks(calls)[k] == Some(slots[SlotAt(slots, Positions(calls, TotalWeight(slots))[k])].idx)
  {
  }

  /**
   While the near-minimum set, its order and its weights stay the same, any total-weight many
   consecutive calls give each backend of the set exactly its weight, whatever the cursor was.
   */
  lemma {:induction false} RotationIsExact(calls: seq<Call>, slots: seq<Slot>, j: nat)
    requires WellFormedCalls(calls) && CursorHandedOn(calls) && SameRotation(calls, slots)
    requires j < |slots| && |calls| == TotalWeight(slots) && calls != []
    ensures slots[j].idx < |calls[0].pool.backends|
    ensures var e := calls[0].pool.backends[slots[j].idx];
            TimesChosen(Picks(calls), |calls|, slots[j].idx) == slots[j].weight == if e.weight > 1 then e.weight else 1
    ensures InRotation(calls[0].pool, calls[0].allowed, calls[0].now, slots[j].idx)
  {
    SlotsAreRotation(calls[0].pool, calls[0].allowed, calls[0].now, j);
    assert slots == RotationSlots(calls[0].pool, calls[0].allowed, calls[0].now);
    hide NearMinimum, RotationSlots;
    PositionsAreCyclic(calls, slots);
    PicksFollowPositions(calls, slots);
    FullTurnIsExact(slots, Positions(calls, TotalWeight(slots)), Picks(calls), j);
  }

  /** The slots are the rotation, each with the configured weight, or 1 when that is not positive. */
  lemma {:induction false} SlotsAreRotation(p: Pool, allowed: Allowed, now: Time, j: nat)
    requires WellFormed(p) && j < |RotationSlots(p, allowed, now)|
    ensures var slot := RotationSlots(p, allowed, now)[j];
            && slot.idx < |p.backends| && InRotation(p, allowed, now, slot.idx)
            && slot.weight == if p.backends[slot.idx].weight > 1 then p.backends[slot.idx].weight else 1
  {
    assert NearMinimum(p, allowed, now)[j].idx == RotationSlots(p, allowed, now)[j].idx;
  }

  /** The rotation goes from lower to higher scores, and among equal ones in the order of the pool. */
  lemma {:induction false} RotationIsRanked(p: Pool, allowed: Allowed, now: Time, i: nat, j: nat)
    requires WellFormed(p) && i < j < |RotationSlots(p, allowed, now)|
    ensures var x, y := RotationSlots(p, allowed, now)[i].idx, RotationSlots(p, allowed, now)[j].idx;
            && x < |p.backends| && y < |p.backends|
            && (ScoreAt(p, x, now) < ScoreAt(p, y, now) || (ScoreAt(p, x, now) == ScoreAt(p, y, now) && x < y))
  {
    var all := Candidates(p, allowed, now, |p.backends|);
    var near := NearMinimum(p, allowed, now);
    CandidatesAreEligible(p, allowed, now, |p.backends|);
    SortIsCorrect(all);
    SlotsAreDistinct(p, allowed, now);
    hide Candidates, ScoreAt, SortCandidates, Eligible;
    assert near[i] == SortCandidates(all)[i] && near[j] == SortCandidates(all)[j];
    assert SortCandidates(all)[i] in all && SortCandidates(all)[j] in all;
    assert Precedes(near[i], near[j]);
    assert RotationSlots(p, allowed, now)[i].idx == near[i].idx && RotationSlots(p, allowed, now)[j].idx == near[j].idx;
  }

  /** With the cursor at its start the pick is the eligible backend with the lowest score, the earliest among equals. */
  lemma {:induction false} FirstPickIsBest(p: Pool, allowed: Allowed, now: Time, c: nat, j: nat)
    requires WellFormed(p) && p.current == 0 && NextFor(p, allowed, now).chosen == Some(c)
    requires j < |p.backends| && Eligible(p.backends[j], allowed, now)
    ensures ScoreAt(p, c, now) < ScoreAt(p, j, now) || (ScoreAt(p, c, now) == ScoreAt(p, j, now) && c <= j)
  {
    var slots := RotationSlots(p, allowed, now);
    assert slots != [];
    CallFollowsRotation(p, allowed, now);
    SearchNeverFallsThrough(slots, 0, 0);
    assert WeightBefore(slots, 1) == WeightBefore(slots, 0) + slots[0].weight;
    assert c == slots[0].idx;
    BestIsFirst(p, allowed, now, j);
  }

  lemma {:induction false} BestIsFirst(p: Pool, allowed: Allowed, now: Time, j: nat)
    requires WellFormed(p) && RotationSlots(p, allowed, now) != []
    requires j < |p.backends| && Eligible(p.backends[j], allowed, now)
    ensures var c := RotationSlots(p, allowed, now)[0].idx;
            && c < |p.backends|
            && (ScoreAt(p, c, now) < ScoreAt(p, j, now) || (ScoreAt(p, c, now) == ScoreAt(p, j, now) && c <= j))
  {
    var all := Candidates(p, allowed, now, |p.backends|);
    CandidatesAreEligible(p, allowed, now, |p.backends|);
    SortIsCorrect(all);
    var d := Candidate(j, ScoreAt(p, j, now));
    hide Candidates, ScoreAt, SortCandidates, Eligible;
    assert d in all;
    var m :| 0 <= m < |SortCandidates(all)| && SortCandidates(all)[m] == d;
    var first := SortCandidates(all)[0];
    assert NearMinimum(p, allowed, now)[0] == first && first in all;
    assert m > 0 ==> Precedes(first, d);
  }

  lemma {:induction false} FullTurnIsExact(slots: seq<Slot>, positions: seq<nat>, picks: seq<Option<nat>>, j: nat)
    requires j < |slots| && DistinctSlots(slots) && Cyclic(positions, TotalWeight(slots))
    requires |picks| == |positions| == TotalWeight(slots) > 0
    requires forall k :: 0 <= k < |picks| ==> picks[k] == Some(slots[SlotAt(slots, positions[k])].idx)
    ensures TimesChosen(picks, |picks|, slots[j].idx) == slots[j].weight
  {
    PicksAreLandings(slots, positions, picks, j, |picks|);
    LandingsAreWeights(slots, |picks|, j);
    WeightIsMonotone(slots, j + 1, |slots|);
  }
}

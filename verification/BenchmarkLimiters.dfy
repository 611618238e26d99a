/** The two small limiters of benchmark_test.go: a plain fixed window and an exact sliding window. */
module BenchmarkLimiters {
  import opened Options
  import opened Histories

  /** One call of Allow. */
  datatype Hit = Hit(key: string, now: Time)

  ghost predicate InOrder(hits: seq<Hit>) {
    forall i, j :: 0 <= i < j < |hits| ==> hits[i].now <= hits[j].now
  }

  /** The admission times of one key among the first n calls, given each call's answer. */
  function Admitted(hits: seq<Hit>, oks: seq<bool>, n: nat, key: string): seq<Time>
    requires n <= |hits| == |oks|
  {
    if n == 0 then []
    else
      var rest := Admitted(hits, oks, n - 1, key);
      if oks[n - 1] && hits[n - 1].key == key then rest + [hits[n - 1].now] else rest
  }

  lemma {:induction false} AdmittedAreCalls(hits: seq<Hit>, oks: seq<bool>, n: nat, key: string, hi: Time)
    requires n <= |hits| == |oks|
    requires forall i :: 0 <= i < n ==> hits[i].now <= hi
    ensures AllAtMost(Admitted(hits, oks, n, key), hi)
  {
    if n > 0 {
      AdmittedAreCalls(hits, oks, n - 1, key, hi);
    }
  }

  // ---------------------------------------------------------------- fixed window

  /** The zero value, with no start, is also what a missing map key reads as. */
  datatype FixedState = FixedState(start: Option<Time>, count: nat)

  const NO_WINDOW := FixedState(None, 0)

  function RollFixed(s: FixedState, window: Time, now: Time): FixedState {
    if s.start.None? || now - s.start.value >= window then FixedState(Some(now), 0) else s
  }

  predicate FixedAllows(s: FixedState, limit: int, window: Time, now: Time) {
    RollFixed(s, window, now).count < limit
  }

  function NextFixed(s: FixedState, limit: int, window: Time, now: Time): FixedState {
    var r := RollFixed(s, window, now);
    if r.count >= limit then r else r.(count := r.count + 1)
  }

  function LookUp(requests: map<string, FixedState>, key: string): FixedState {
    if key in requests then requests[key] else NO_WINDOW
  }

  class FixedWindowLimiter {
    const limit: int
    const window: Time
    var requests: map<string, FixedState>

    constructor (limit: int, window: Time)
      ensures this.limit == limit && this.window == window && requests == map[]
    {
      this.limit, this.window, requests := limit, window, map[];
    }

    method Allow(key: string, now: Time) returns (ok: bool)
      modifies this
      ensures ok == FixedAllows(LookUp(old(requests), key), limit, window, now)
      ensures requests == old(requests)[key := NextFixed(LookUp(old(requests), key), limit, window, now)]
    {
      var state := if key in requests then requests[key] else NO_WINDOW;
      if state.start.None? || now - state.start.value >= window {
        state := FixedState(Some(now), 0);
      }
      if state.count >= limit {
        requests := requests[key := state];
        return false;
      }
      state := state.(count := state.count + 1);
      requests := requests[key := state];
      return true;
    }
  }

  /** Call k takes states[k] to states[k + 1] and answers oks[k]. */
  ghost predicate FixedCallAt(
    limit: int, window: Time, hits: seq<Hit>, states: seq<map<string, FixedState>>, oks: seq<bool>, k: nat)
    requires |oks| == |hits| && |states| == |hits| + 1 && k < |hits|
  {
    var s, now := LookUp(states[k], hits[k].key), hits[k].now;
    && oks[k] == FixedAllows(s, limit, window, now)
    && states[k + 1] == states[k][hits[k].key := NextFixed(s, limit, window, now)]
  }

  /** A run of a fresh limiter over the calls. */
  ghost predicate FixedRun(
    limit: int, window: Time, hits: seq<Hit>, states: seq<map<string, FixedState>>, oks: seq<bool>)
  {
    && |oks| == |hits| && |states| == |hits| + 1 && states[0] == map[]
    && forall k :: 0 <= k < |hits| ==> FixedCallAt(limit, window, hits, states, oks, k)
  }

  /** What a window that began before the interval can still admit inside it: all but its opening admission. */
  function Carried(limit: int, window: Time): int {
    if window == 1 then 0 else limit - 1
  }

  /** The most that one interval of a window's length can admit; an interval of one instant meets one window only. */
  function IntervalMax(limit: int, window: Time): int {
    limit + Carried(limit, window)
  }

  /** What the state of a key says about the admissions of [a, a + window) so far. */
  predicate WindowAccounts(s: FixedState, limit: int, window: Time, a: Time, admitted: nat) {
    match s.start
    case None => admitted == 0
    case Some(start) =>
      if start < a then 1 <= s.count <= limit && admitted <= s.count - 1 && admitted <= Carried(limit, window)
      else if start < a + window then 1 <= s.count <= limit && admitted <= Carried(limit, window) + s.count
      else admitted <= IntervalMax(limit, window)
  }

  lemma {:induction false} OneCallAccounts(s: FixedState, limit: int, window: Time, now: Time, a: Time, admitted: nat)
    requires limit >= 1 && window >= 1 && WindowAccounts(s, limit, window, a, admitted)
    requires (s.start.Some? ==> s.start.value <= now) && (now < a ==> admitted == 0)
    ensures var ok := FixedAllows(s, limit, window, now);
            WindowAccounts(NextFixed(s, limit, window, now), limit, window, a,
                           admitted + (if ok && a <= now < a + window then 1 else 0))
  {
  }

  lemma {:induction false} RunAccounts(
    limit: int, window: Time, hits: seq<Hit>, states: seq<map<string, FixedState>>, oks: seq<bool>,
    n: nat, key: string, a: Time, now: Time)
    requires limit >= 1 && window >= 1 && FixedRun(limit, window, hits, states, oks) && InOrder(hits)
    requires n <= |hits| && forall m :: 0 <= m < n ==> hits[m].now <= now
    ensures var s := LookUp(states[n], key);
            && (s.start.Some? ==> s.start.value <= now)
            && WindowAccounts(s, limit, window, a, CountBetween(Admitted(hits, oks, n, key), a - 1, a + window - 1))
  {
    if n > 0 {
      var h := hits[n - 1];
      RunAccounts(limit, window, hits, states, oks, n - 1, key, a, h.now);
      assert FixedCallAt(limit, window, hits, states, oks, n - 1);
      if h.key == key {
        var past := Admitted(hits, oks, n - 1, key);
        AdmittedAreCalls(hits, oks, n - 1, key, h.now);
        if h.now < a {
          CountNothing(past, |past|, a - 1, a + window - 1);
        }
        OneCallAccounts(LookUp(states[n - 1], key), limit, window, h.now, a, CountBetween(past, a - 1, a + window - 1));
        CountAppend(past, h.now, a - 1, a + window - 1);
      }
    }
  }

  /**
   With times that never decrease, a fixed window admits at most 2 * limit - 1 calls of one key in
   any half-open interval as long as the window, and limit when that is a single instant: the window
   that began before the interval spent at least its opening admission outside it.
   */
  lemma {:induction false} FixedWindowIntervalBound(
    limit: int, window: Time, hits: seq<Hit>, states: seq<map<string, FixedState>>, oks: seq<bool>, key: string, a: Time)
    requires limit >= 1 && window >= 1 && FixedRun(limit, window, hits, states, oks) && InOrder(hits)
    ensures CountBetween(Admitted(hits, oks, |hits|, key), a - 1, a + window - 1) <= IntervalMax(limit, window)
  {
    var now := if hits == [] then 0 else hits[|hits| - 1].now;
    RunAccounts(limit, window, hits, states, oks, |hits|, key, a, now);
  }

  // ---------------------------------------------------------------- the bound is tight

  /** One call at time 0, the rest of a window's limit at its last instant, and a full limit right after it. */
  function TightHits(limit: nat, window: Time, key: string): (hits: seq<Hit>)
    ensures |hits| == 2 * limit
    ensures forall k :: 0 <= k < |hits| ==>
              hits[k] == Hit(key, if k == 0 then 0 else if k < limit then window - 1 else window)
  {
    seq(2 * limit, k => Hit(key, if k == 0 then 0 else if k < limit then window - 1 else window))
  }

  /** The state before call n of that run. */
  function TightState(limit: nat, window: Time, n: nat): FixedState {
    if n == 0 then NO_WINDOW
    else if n <= limit then FixedState(Some(0), n)
    else FixedState(Some(window), n - limit)
  }

  function TightMap(limit: nat, window: Time, key: string, n: nat): map<string, FixedState> {
    if n == 0 then map[] else map[key := TightState(limit, window, n)]
  }

  lemma {:induction false} TightHitsCount(limit: nat, window: Time, key: string, oks: seq<bool>, n: nat)
    requires limit >= 1 && window >= 1 && n <= 2 * limit == |oks| && forall k :: 0 <= k < |oks| ==> oks[k]
    ensures CountBetween(Admitted(TightHits(limit, window, key), oks, n, key), window - 2, 2 * window - 2) ==
            if n == 0 then 0 else if window > 1 then n - 1 else if n <= limit then n else limit
  {
    if n > 0 {
      TightHitsCount(limit, window, key, oks, n - 1);
      var hits := TightHits(limit, window, key);
      CountAppend(Admitted(hits, oks, n - 1, key), hits[n - 1].now, window - 2, 2 * window - 2);
    }
  }

  /** For every limit and window some ordered run reaches the bound. */
  lemma {:induction false} IntervalBoundIsTight(limit: nat, window: Time, key: string)
    returns (hits: seq<Hit>, states: seq<map<string, FixedState>>, oks: seq<bool>)
    requires limit >= 1 && window >= 1
    ensures FixedRun(limit, window, hits, states, oks) && InOrder(hits)
    ensures forall k :: 0 <= k < |hits| ==> hits[k].key == key
    ensures var a := window - 1;
            CountBetween(Admitted(hits, oks, |hits|, key), a - 1, a + window - 1) == IntervalMax(limit, window)
  {
    hits := TightHits(limit, window, key);
    oks := seq(2 * limit, k => true);
    states := seq(2 * limit + 1, n requires 0 <= n => TightMap(limit, window, key, n));
    forall k | 0 <= k < |hits| ensures FixedCallAt(limit, window, hits, states, oks, k) {
    }
    TightHitsCount(limit, window, key, oks, 2 * limit);
  }

  // ---------------------------------------------------------------- sliding window

  /** Number of leading times that are not after the cutoff. */
  function Stale(times: seq<Time>, cutoff: Time, first: nat): (r: nat)
    requires first <= |times|
    ensures first <= r <= |times|
    decreases |times| - first
  {
    if first < |times| && times[first] <= cutoff then Stale(times, cutoff, first + 1) else first
  }

  function Prune(times: seq<Time>, cutoff: Time): seq<Time> {
    times[Stale(times, cutoff, 0)..]
  }

  predicate SlidingAllows(times: seq<Time>, limit: int, window: Time, now: Time) {
    |Prune(times, now - window)| < limit
  }

  function NextSliding(times: seq<Time>, limit: int, window: Time, now: Time): seq<Time> {
    var kept := Prune(times, now - window);
    if |kept| >= limit then kept else kept + [now]
  }

  function TimesOf(requests: map<string, seq<Time>>, key: string): seq<Time> {
    if key in requests then requests[key] else []
  }

  class SlidingWindowLimiter {
    const limit: int
    const window: Time
    var requests: map<string, seq<Time>>

    constructor (limit: int, window: Time)
      ensures this.limit == limit && this.window == window && requests == map[]
    {
      this.limit, this.window, requests := limit, window, map[];
    }

    method Allow(key: string, now: Time) returns (ok: bool)
      modifies this
      ensures ok == SlidingAllows(TimesOf(old(requests), key), limit, window, now)
      ensures requests == old(requests)[key := NextSliding(TimesOf(old(requests), key), limit, window, now)]
    {
      var cutoff := now - window;
      var kept := if key in requests then requests[key] else [];
      var first := 0;
      while first < |kept| && kept[first] <= cutoff
        invariant first <= |kept|
        invariant Stale(kept, cutoff, 0) == Stale(kept, cutoff, first)
      {
        first := first + 1;
      }
      kept := kept[first..];
      if |kept| >= limit {
        requests := requests[key := kept];
        return false;
      }
      requests := requests[key := kept + [now]];
      return true;
    }
  }

  ghost predicate SlidingCallAt(
    limit: int, window: Time, hits: seq<Hit>, states: seq<map<string, seq<Time>>>, oks: seq<bool>, k: nat)
    requires |oks| == |hits| && |states| == |hits| + 1 && k < |hits|
  {
    var kept, now := TimesOf(states[k], hits[k].key), hits[k].now;
    && oks[k] == SlidingAllows(kept, limit, window, now)
    && states[k + 1] == states[k][hits[k].key := NextSliding(kept, limit, window, now)]
  }

  /** A run of a fresh limiter over the calls. */
  ghost predicate SlidingRun(
    limit: int, window: Time, hits: seq<Hit>, states: seq<map<string, seq<Time>>>, oks: seq<bool>)
  {
    && |oks| == |hits| && |states| == |hits| + 1 && states[0] == map[]
    && forall k :: 0 <= k < |hits| ==> SlidingCallAt(limit, window, hits, states, oks, k)
  }

  lemma {:induction false} StaleSplits(times: seq<Time>, cutoff: Time, first: nat)
    requires first <= |times| && Nondecreasing(times)
    ensures var k := Stale(times, cutoff, first);
            && (forall i :: first <= i < k ==> times[i] <= cutoff)
            && (forall i :: k <= i < |times| ==> times[i] > cutoff)
    decreases |times| - first
  {
    if first < |times| && times[first] <= cutoff {
      StaleSplits(times, cutoff, first + 1);
    }
  }

  lemma {:induction false} AfterOfSplit(times: seq<Time>, cutoff: Time, k: nat, n: nat)
    requires k <= n <= |times|
    requires forall i :: 0 <= i < k ==> times[i] <= cutoff
    requires forall i :: k <= i < |times| ==> times[i] > cutoff
    ensures AfterUpTo(times, n, cutoff) == times[k..n]
  {
    if n == k {
      AfterNothing(times, n, cutoff);
    } else {
      AfterOfSplit(times, cutoff, k, n - 1);
    }
  }

  /** On an ordered list dropping the stale prefix is filtering. */
  lemma {:induction false} PruneIsAfter(times: seq<Time>, cutoff: Time)
    requires Nondecreasing(times)
    ensures Prune(times, cutoff) == After(times, cutoff)
  {
    StaleSplits(times, cutoff, 0);
    AfterOfSplit(times, cutoff, Stale(times, cutoff, 0), |times|);
  }

  lemma {:induction false} FilterKeeps(kept: seq<Time>, past: seq<Time>, from: Time, now: Time, cut: Time)
    requires Nondecreasing(kept) && AllAtMost(kept, now) && After(kept, cut) == After(past, cut) && from <= cut
    ensures var f := After(kept, from);
            && Nondecreasing(f) && Nondecreasing(f + [now]) && AllAtMost(f, now) && AllAtMost(f + [now], now)
            && After(f, cut) == After(past, cut) && After(f + [now], cut) == After(past + [now], cut)
  {
    AfterKeepsOrder(kept, |kept|, from, now);
    AfterTwice(kept, from, cut);
    AfterAppend(After(kept, from), now, cut);
    AfterAppend(past, now, cut);
  }

  /** One call, seen from any later cut: pruning hides nothing that is still inside. */
  lemma {:induction false} OneCallKeeps(kept: seq<Time>, past: seq<Time>, limit: int, window: Time, now: Time, cut: Time)
    requires Nondecreasing(kept) && After(kept, cut) == After(past, cut) && now - window <= cut
    requires AllAtMost(kept, now)
    ensures var next := NextSliding(kept, limit, window, now);
            && Nondecreasing(next) && AllAtMost(next, now)
            && (SlidingAllows(kept, limit, window, now) ==> After(next, cut) == After(past + [now], cut))
            && (!SlidingAllows(kept, limit, window, now) ==> After(next, cut) == After(past, cut))
  {
    var from := now - window;
    var f := After(kept, from);
    assert Prune(kept, from) == f by {
      PruneIsAfter(kept, from);
    }
    assert NextSliding(kept, limit, window, now) == if |f| >= limit then f else f + [now];
    FilterKeeps(kept, past, from, now, cut);
  }

  /** For any cut the coming calls may use, the kept list holds the same late admissions as the full history. */
  lemma {:induction false} KeptAgreesWithHistory(
    limit: int, window: Time, hits: seq<Hit>, states: seq<map<string, seq<Time>>>, oks: seq<bool>,
    n: nat, key: string, cut: Time, now: Time)
    requires SlidingRun(limit, window, hits, states, oks) && InOrder(hits)
    requires n <= |hits| && now - window <= cut && forall m :: 0 <= m < n ==> hits[m].now <= now
    ensures var kept := TimesOf(states[n], key);
            && Nondecreasing(kept) && AllAtMost(kept, now)
            && After(kept, cut) == After(Admitted(hits, oks, n, key), cut)
  {
    if n > 0 {
      var h := hits[n - 1];
      KeptAgreesWithHistory(limit, window, hits, states, oks, n - 1, key, cut, h.now);
      assert SlidingCallAt(limit, window, hits, states, oks, n - 1);
      if h.key == key {
        OneCallKeeps(TimesOf(states[n - 1], key), Admitted(hits, oks, n - 1, key), limit, window, h.now, cut);
      }
    }
  }

  /**
   Call n of its key, with times that never decrease: the list kept after pruning is exactly the
   key's full admission history after now - window, and the call is admitted exactly when fewer than
   limit of those admissions lie in the window that ends now.
   */
  lemma {:induction false} SlidingWindowIsExact(
    limit: int, window: Time, hits: seq<Hit>, states: seq<map<string, seq<Time>>>, oks: seq<bool>, n: nat)
    requires SlidingRun(limit, window, hits, states, oks) && InOrder(hits) && n < |hits|
    ensures var now := hits[n].now;
            var past := Admitted(hits, oks, n, hits[n].key);
            && Prune(TimesOf(states[n], hits[n].key), now - window) == After(past, now - window)
            && (oks[n] <==> CountBetween(past, now - window, now) < limit)
  {
    var now, key := hits[n].now, hits[n].key;
    var past := Admitted(hits, oks, n, key);
    var kept := TimesOf(states[n], key);
    KeptAgreesWithHistory(limit, window, hits, states, oks, n, key, now - window, now);
    AdmittedAreCalls(hits, oks, n, key, now);
    DecisionIsCount(kept, past, limit, window, now);
    assert SlidingCallAt(limit, window, hits, states, oks, n);
  }

  lemma {:induction false} DecisionIsCount(kept: seq<Time>, past: seq<Time>, limit: int, window: Time, now: Time)
    requires Nondecreasing(kept) && After(kept, now - window) == After(past, now - window) && AllAtMost(past, now)
    ensures Prune(kept, now - window) == After(past, now - window)
    ensures SlidingAllows(kept, limit, window, now) <==> CountBetween(past, now - window, now) < limit
  {
    PruneIsAfter(kept, now - window);
    CountIsAfter(past, |past|, now - window, now);
  }

  /** Every interval of the window's length, open at its start, admits at most limit calls of a key. */
  lemma {:induction false} SlidingWindowBound(
    limit: int, window: Time, hits: seq<Hit>, states: seq<map<string, seq<Time>>>, oks: seq<bool>,
    n: nat, key: string, a: Time)
    requires SlidingRun(limit, window, hits, states, oks) && InOrder(hits) && n <= |hits| && limit >= 0
    ensures CountBetween(Admitted(hits, oks, n, key), a, a + window) <= limit
  {
    if n > 0 {
      SlidingWindowBound(limit, window, hits, states, oks, n - 1, key, a);
      var h := hits[n - 1];
      if oks[n - 1] && h.key == key {
        var past := Admitted(hits, oks, n - 1, key);
        CountAppend(past, h.now, a, a + window);
        if a < h.now <= a + window {
          SlidingWindowIsExact(limit, window, hits, states, oks, n - 1);
          AdmittedAreCalls(hits, oks, n - 1, key, h.now);
          CountIsAfter(past, |past|, a, h.now);
          CountIsAfter(past, |past|, a, a + window);
          CountShrinks(past, |past|, h.now - window, h.now, a, h.now);
        }
      }
    }
  }
}

/**
 The backend pool of health.go as a value, and every locked operation of it as a function from
 one pool value to the next. Class BackendPool carries out the same operations with loops over
 mutable fields and is proved against these functions; the other pool modules prove what runs of
 them guarantee.

 Statistics objects are cells of an append-only store and an entry holds the index of its cell, so
 that a finish closure that outlives a reload still names the cell it was created with.
 */
module PoolModel {
  import opened Options

  /** Nanoseconds. Go's zero time.Time is None. */
  type Time = int

  const BREAKER_FAILURE_THRESHOLD: nat := 3
  const BREAKER_COOLDOWN: Time := 15_000_000_000
  const HALF_OPEN_BONUS: real := 250.0
  const SCORE_TOLERANCE: real := 0.001

  datatype Breaker = Closed | Open | HalfOpen

  datatype Stats = Stats(requests: int, errors: int, active: int, totalLatencyNs: int, lastStatus: int)

  const NO_STATS := Stats(0, 0, 0, 0, 0)

  datatype Entry = Entry(
    address: string,
    weight: int,
    healthy: bool,
    statsId: nat,
    breaker: Breaker,
    openedUntil: Option<Time>,
    consecutiveErr: nat,
    halfOpenInFlight: bool,
    disabled: bool,
    draining: bool)

  datatype Pool = Pool(backends: seq<Entry>, current: nat, store: seq<Stats>)

  /** The allowed map of nextFor: None is Go's nil map, which allows every backend. */
  type Allowed = Option<set<string>>

  predicate StatsInStore(backends: seq<Entry>, store: seq<Stats>) {
    forall i :: 0 <= i < |backends| ==> backends[i].statsId < |store|
  }

  predicate WellFormed(p: Pool) {
    StatsInStore(p.backends, p.store)
  }

  predicate UniqueAddresses(backends: seq<Entry>) {
    forall i, j :: 0 <= i < j < |backends| ==> backends[i].address != backends[j].address
  }

  predicate Distinct(addresses: seq<string>) {
    forall i, j :: 0 <= i < j < |addresses| ==> addresses[i] != addresses[j]
  }

  // ---------------------------------------------------------------- availability

  /** now.Before(until), where the zero time is before everything. */
  predicate Before(now: Time, until: Option<Time>) {
    until.Some? && now < until.value
  }

  predicate CooldownOver(e: Entry, now: Time) {
    e.breaker == Open && !Before(now, e.openedUntil)
  }

  /** The lazy step from open to half-open that nextFor and availableCount both take. */
  function Promote(e: Entry, now: Time): Entry {
    if CooldownOver(e, now) then e.(breaker := HalfOpen, halfOpenInFlight := false) else e
  }

  predicate InService(e: Entry) {
    e.healthy && !e.disabled && !e.draining
  }

  predicate IsAllowed(e: Entry, allowed: Allowed) {
    allowed.None? || e.address in allowed.value
  }

  /** Breaker state shown to a reader at time now (currentBreakerStateLocked). */
  function ReportedState(e: Entry, now: Time): Breaker {
    if CooldownOver(e, now) then HalfOpen else e.breaker
  }

  /** backendAvailableLocked. */
  predicate Available(e: Entry, now: Time) {
    && InService(e)
    && !(e.breaker == Open && Before(now, e.openedUntil))
    && !(e.breaker == HalfOpen && e.halfOpenInFlight)
  }

  predicate Eligible(e: Entry, allowed: Allowed, now: Time) {
    IsAllowed(e, allowed) && Available(e, now)
  }

  // ---------------------------------------------------------------- scores and candidates

  function AverageLatencyMs(s: Stats): real {
    if s.requests > 0 then s.totalLatencyNs as real / s.requests as real / 1_000_000.0 else 0.0
  }

  function EffectiveWeight(e: Entry): (w: nat)
    ensures w >= 1
  {
    MaxInt(1, e.weight)
  }

  function BackendScore(e: Entry, s: Stats): real {
    s.active as real / EffectiveWeight(e) as real * 1000.0 + AverageLatencyMs(s) + e.consecutiveErr as real * 200.0
  }

  /** The score nextFor ranks by: less a bonus for a backend that is, or is about to become, half-open. */
  function AdjustedScore(e: Entry, s: Stats, now: Time): real {
    if ReportedState(e, now) == HalfOpen then BackendScore(e, s) - HALF_OPEN_BONUS else BackendScore(e, s)
  }

  /** The active counter of the entry at position i. */
  function ActiveAt(p: Pool, i: nat): int
    requires WellFormed(p) && i < |p.backends|
  {
    p.store[p.backends[i].statsId].active
  }

  function ScoreAt(p: Pool, i: nat, now: Time): real
    requires WellFormed(p) && i < |p.backends|
  {
    AdjustedScore(p.backends[i], p.store[p.backends[i].statsId], now)
  }

  datatype Candidate = Candidate(idx: nat, score: real)

  /** The eligible entries among the first n, in index order. */
  function Candidates(p: Pool, allowed: Allowed, now: Time, n: nat): (cs: seq<Candidate>)
    requires WellFormed(p) && n <= |p.backends|
    ensures forall k :: 0 <= k < |cs| ==> cs[k].idx < n
  {
    if n == 0 then []
    else
      Candidates(p, allowed, now, n - 1)
      + (if Eligible(p.backends[n - 1], allowed, now) then [Candidate(n - 1, ScoreAt(p, n - 1, now))] else [])
  }

  /** The candidates are exactly the eligible entries, each with its adjusted score. */
  lemma {:induction false} CandidatesAreEligible(p: Pool, allowed: Allowed, now: Time, n: nat)
    requires WellFormed(p) && n <= |p.backends|
    ensures forall c :: c in Candidates(p, allowed, now, n) <==>
              c.idx < n && Eligible(p.backends[c.idx], allowed, now) && c.score == ScoreAt(p, c.idx, now)
  {
    if n > 0 {
      CandidatesAreEligible(p, allowed, now, n - 1);
    }
  }

  /** Order of sort.SliceStable's comparison: by score, then by index. */
  predicate Precedes(a: Candidate, b: Candidate) {
    a.score < b.score || (a.score == b.score && a.idx <= b.idx)
  }

  predicate SortedCandidates(cs: seq<Candidate>) {
    forall i, j :: 0 <= i < j < |cs| ==> Precedes(cs[i], cs[j])
  }

  function InsertCandidate(c: Candidate, cs: seq<Candidate>): (r: seq<Candidate>)
    ensures |r| == |cs| + 1
    ensures r[0] == c || (cs != [] && r[0] == cs[0])
  {
    if cs == [] || Precedes(c, cs[0]) then [c] + cs
    else [cs[0]] + InsertCandidate(c, cs[1..])
  }

  function SortCandidates(cs: seq<Candidate>): (r: seq<Candidate>)
    ensures |r| == |cs|
  {
    if cs == [] then [] else InsertCandidate(cs[0], SortCandidates(cs[1..]))
  }

  lemma {:induction false} InsertKeepsContents(c: Candidate, cs: seq<Candidate>)
    ensures multiset(InsertCandidate(c, cs)) == multiset([c] + cs)
  {
    if cs != [] && !Precedes(c, cs[0]) {
      InsertKeepsContents(c, cs[1..]);
      assert cs == [cs[0]] + cs[1..];
      assert multiset([c] + cs) == multiset{c} + multiset{cs[0]} + multiset(cs[1..]);
    }
  }

  lemma {:induction false} InsertKeepsOrder(c: Candidate, cs: seq<Candidate>)
    requires SortedCandidates(cs)
    ensures SortedCandidates(InsertCandidate(c, cs))
  {
    var r := InsertCandidate(c, cs);
    if cs == [] || Precedes(c, cs[0]) {
      assert forall j :: 0 < j < |r| ==> r[j] == cs[j - 1];
    } else {
      InsertKeepsOrder(c, cs[1..]);
      InsertKeepsContents(c, cs[1..]);
      var t := InsertCandidate(c, cs[1..]);
      forall j | 0 <= j < |t| ensures Precedes(cs[0], t[j]) {
        assert t[j] in multiset(t);
        assert t[j] in multiset([c] + cs[1..]);
        assert t[j] in [c] + cs[1..];
      }
    }
  }

  /** The sort is a permutation in the order of Precedes. */
  lemma {:induction false} SortIsCorrect(cs: seq<Candidate>)
    ensures SortedCandidates(SortCandidates(cs))
    ensures multiset(SortCandidates(cs)) == multiset(cs)
    ensures forall c :: c in SortCandidates(cs) <==> c in cs
  {
    if cs != [] {
      SortIsCorrect(cs[1..]);
      InsertKeepsOrder(cs[0], SortCandidates(cs[1..]));
      InsertKeepsContents(cs[0], SortCandidates(cs[1..]));
      assert cs == [cs[0]] + cs[1..];
      assert multiset(SortCandidates(cs)) == multiset{cs[0]} + multiset(cs[1..]);
    }
    forall c ensures c in SortCandidates(cs) <==> c in cs {
      assert c in SortCandidates(cs) <==> c in multiset(SortCandidates(cs));
      assert c in cs <==> c in multiset(cs);
    }
  }

  /** Where the cursor stands in a rotation of the given total weight, and where it moves to. */
  function CursorPosition(current: nat, total: nat): nat {
    current % MaxInt(total, 1)
  }

  function NextCursor(current: nat, total: nat): nat {
    (current + 1) % MaxInt(total, 1)
  }

  /** First position from k on whose score exceeds the bound. */
  function FirstAbove(cs: seq<Candidate>, bound: real, k: nat): (r: nat)
    requires k <= |cs|
    ensures k <= r <= |cs|
    decreases |cs| - k
  {
    if k == |cs| || cs[k].score > bound then k else FirstAbove(cs, bound, k + 1)
  }

  /** The candidates within the tolerance of the best. */
  function NearestOf(sorted: seq<Candidate>): (near: seq<Candidate>)
    requires sorted != []
    ensures near <= sorted && near != []
  {
    sorted[..FirstAbove(sorted, sorted[0].score + SCORE_TOLERANCE, 0)]
  }

  // ---------------------------------------------------------------- rotation

  datatype Slot = Slot(idx: nat, weight: nat)

  function SlotsOf(backends: seq<Entry>, cs: seq<Candidate>): (slots: seq<Slot>)
    requires forall k :: 0 <= k < |cs| ==> cs[k].idx < |backends|
    ensures |slots| == |cs|
    ensures forall k :: 0 <= k < |slots| ==> slots[k] == Slot(cs[k].idx, EffectiveWeight(backends[cs[k].idx]))
  {
    seq(|cs|, k requires 0 <= k < |cs| => Slot(cs[k].idx, EffectiveWeight(backends[cs[k].idx])))
  }

  /** Sum of the first n weights. */
  function WeightBefore(slots: seq<Slot>, n: nat): nat
    requires n <= |slots|
  {
    if n == 0 then 0 else WeightBefore(slots, n - 1) + slots[n - 1].weight
  }

  function TotalWeight(slots: seq<Slot>): nat {
    WeightBefore(slots, |slots|)
  }

  /** The prefix-subtraction search of nextFor from slot k on; |slots| when it falls through. */
  function Search(slots: seq<Slot>, k: nat, position: nat): (r: nat)
    requires k <= |slots|
    ensures k <= r <= |slots|
    decreases |slots| - k
  {
    if k == |slots| || position < slots[k].weight then k
    else Search(slots, k + 1, position - slots[k].weight)
  }

  /** The slot a cursor value lands on, with the first slot as the default of the search. */
  function SlotAt(slots: seq<Slot>, position: nat): (r: nat)
    requires slots != []
    ensures r < |slots|
  {
    var k := Search(slots, 0, position);
    if k == |slots| then 0 else k
  }

  // ---------------------------------------------------------------- nextFor

  /** What the candidate loop leaves behind in one entry. */
  function Visit(e: Entry, allowed: Allowed, now: Time): Entry {
    if IsAllowed(e, allowed) && InService(e) then Promote(e, now) else e
  }

  function VisitAll(backends: seq<Entry>, allowed: Allowed, now: Time): (r: seq<Entry>)
    ensures |r| == |backends|
    ensures forall i :: 0 <= i < |r| ==> r[i] == Visit(backends[i], allowed, now)
  {
    seq(|backends|, i requires 0 <= i < |backends| => Visit(backends[i], allowed, now))
  }

  /** A backend handed out while half-open carries the single probe. */
  function TakeProbe(e: Entry): Entry {
    if e.breaker == HalfOpen then e.(halfOpenInFlight := true) else e
  }

  /** The near-minimum set of this call, in rotation order. */
  function NearMinimum(p: Pool, allowed: Allowed, now: Time): (cs: seq<Candidate>)
    requires WellFormed(p)
    ensures forall k :: 0 <= k < |cs| ==> cs[k].idx < |p.backends|
  {
    var sorted := SortCandidates(Candidates(p, allowed, now, |p.backends|));
    SortKeepsIndices(Candidates(p, allowed, now, |p.backends|), |p.backends|);
    if sorted == [] then [] else NearestOf(sorted)
  }

  lemma {:induction false} SortKeepsIndices(cs: seq<Candidate>, n: nat)
    requires forall k :: 0 <= k < |cs| ==> cs[k].idx < n
    ensures forall k :: 0 <= k < |SortCandidates(cs)| ==> SortCandidates(cs)[k].idx < n
  {
    SortIsCorrect(cs);
    forall k | 0 <= k < |SortCandidates(cs)| ensures SortCandidates(cs)[k].idx < n {
      assert SortCandidates(cs)[k] in cs;
    }
  }

  function RotationSlots(p: Pool, allowed: Allowed, now: Time): (slots: seq<Slot>)
    requires WellFormed(p)
    ensures forall k :: 0 <= k < |slots| ==> slots[k].idx < |p.backends| && slots[k].weight >= 1
  {
    var cs := NearMinimum(p, allowed, now);
    SlotsOf(p.backends, cs)
  }

  datatype Selection = Selection(pool: Pool, chosen: Option<nat>)

  function ChosenIndex(p: Pool, allowed: Allowed, now: Time): (i: nat)
    requires WellFormed(p) && RotationSlots(p, allowed, now) != []
    ensures i < |p.backends|
  {
    var slots := RotationSlots(p, allowed, now);
    slots[SlotAt(slots, CursorPosition(p.current, TotalWeight(slots)))].idx
  }

  function NextFor(p: Pool, allowed: Allowed, now: Time): (r: Selection)
    requires WellFormed(p)
    ensures r.chosen.Some? ==> r.chosen.value < |p.backends|
    ensures r.pool.store == p.store
    ensures |r.pool.backends| == |p.backends|
    ensures forall i :: 0 <= i < |p.backends| ==> r.pool.backends[i].statsId == p.backends[i].statsId
    ensures WellFormed(r.pool)
  {
    var visited := VisitAll(p.backends, allowed, now);
    var slots := RotationSlots(p, allowed, now);
    if slots == [] then
      Selection(p.(backends := visited), None)
    else
      var i := ChosenIndex(p, allowed, now);
      Selection(
        p.(backends := visited[i := TakeProbe(visited[i])],
           current := NextCursor(p.current, TotalWeight(slots))),
        Some(i))
  }

  // ---------------------------------------------------------------- the other operations

  /** availableCount promotes every entry in service, whatever route it belongs to. */
  function PromoteAll(p: Pool, now: Time): Pool {
    p.(backends := VisitAll(p.backends, None, now))
  }

  /** How many of the first n entries are available. */
  function CountAvailable(backends: seq<Entry>, now: Time, n: nat): nat
    requires n <= |backends|
  {
    if n == 0 then 0 else CountAvailable(backends, now, n - 1) + (if Available(backends[n - 1], now) then 1 else 0)
  }

  datatype Row = Row(
    address: string,
    weight: int,
    healthy: bool,
    available: bool,
    disabled: bool,
    draining: bool,
    breaker: Breaker,
    consecutiveErr: nat,
    stats: Stats,
    avgLatencyMs: real)

  function RowOf(e: Entry, s: Stats, now: Time): Row {
    Row(e.address, e.weight, e.healthy, Available(e, now), e.disabled, e.draining,
        ReportedState(e, now), e.consecutiveErr, s, AverageLatencyMs(s))
  }

  function Status(p: Pool, now: Time): (rows: seq<Row>)
    requires WellFormed(p)
    ensures |rows| == |p.backends|
    ensures forall i :: 0 <= i < |rows| ==> rows[i] == RowOf(p.backends[i], p.store[p.backends[i].statsId], now)
  {
    seq(|p.backends|, i requires 0 <= i < |p.backends| =>
      RowOf(p.backends[i], p.store[p.backends[i].statsId], now))
  }

  /** Index of the first entry with the address, from position k on. */
  function IndexFrom(backends: seq<Entry>, address: string, k: nat): (r: Option<nat>)
    requires k <= |backends|
    ensures r.Some? ==> k <= r.value < |backends| && backends[r.value].address == address
                        && forall j :: k <= j < r.value ==> backends[j].address != address
    ensures r.None? ==> forall j :: k <= j < |backends| ==> backends[j].address != address
    decreases |backends| - k
  {
    if k == |backends| then None
    else if backends[k].address == address then Some(k)
    else IndexFrom(backends, address, k + 1)
  }

  function IndexOf(backends: seq<Entry>, address: string): (r: Option<nat>)
    ensures r.Some? ==> r.value < |backends| && backends[r.value].address == address
                        && forall j :: 0 <= j < r.value ==> backends[j].address != address
    ensures r.None? ==> forall j :: 0 <= j < |backends| ==> backends[j].address != address
  {
    IndexFrom(backends, address, 0)
  }

  /** The stats object a new finish closure is bound to; None is the closure that does nothing. */
  function StartTarget(p: Pool, address: string): Option<nat> {
    var i := IndexOf(p.backends, address);
    if i.None? then None else Some(p.backends[i.value].statsId)
  }

  function StartRequest(p: Pool, address: string): (r: Pool)
    requires WellFormed(p)
    ensures r.backends == p.backends && r.current == p.current && |r.store| == |p.store|
  {
    var target := StartTarget(p, address);
    if target.None? then p
    else p.(store := p.store[target.value := p.store[target.value].(active := p.store[target.value].active + 1)])
  }

  predicate Failed(status: int, err: bool) {
    err || status >= 500
  }

  function FinishedStats(s: Stats, status: int, latencyNs: int, err: bool): Stats {
    Stats(s.requests + 1, if Failed(status, err) then s.errors + 1 else s.errors,
          s.active - 1, s.totalLatencyNs + latencyNs, status)
  }

  function FinishStats(p: Pool, id: nat, status: int, latencyNs: int, err: bool): Pool
    requires id < |p.store|
  {
    p.(store := p.store[id := FinishedStats(p.store[id], status, latencyNs, err)])
  }

  function FinishEntry(e: Entry, failed: bool, now: Time): Entry {
    var e1 := if e.breaker == HalfOpen then e.(halfOpenInFlight := false) else e;
    if !failed then
      e1.(consecutiveErr := 0, breaker := Closed, openedUntil := None)
    else
      var e2 := e1.(consecutiveErr := e1.consecutiveErr + 1);
      if e2.consecutiveErr >= BREAKER_FAILURE_THRESHOLD then
        e2.(breaker := Open, openedUntil := Some(now + BREAKER_COOLDOWN))
      else e2
  }

  function FinishRequest(p: Pool, address: string, failed: bool, now: Time): Pool {
    var i := IndexOf(p.backends, address);
    if i.None? then p
    else p.(backends := p.backends[i.value := FinishEntry(p.backends[i.value], failed, now)])
  }

  datatype AdminError = UnknownAction | BackendNotFound

  /** None when the action is not one of disable, enable and drain. */
  function AdminEntry(e: Entry, action: string): Option<Entry> {
    if action == "disable" then Some(e.(disabled := true, draining := false))
    else if action == "enable" then Some(e.(disabled := false, draining := false))
    else if action == "drain" then Some(e.(disabled := false, draining := true))
    else None
  }

  function SetBackendState(p: Pool, address: string, action: string): (Pool, Option<AdminError>) {
    var i := IndexOf(p.backends, address);
    if i.None? then (p, Some(BackendNotFound))
    else
      var e := AdminEntry(p.backends[i.value], action);
      if e.None? then (p, Some(UnknownAction))
      else (p.(backends := p.backends[i.value := e.value]), None)
  }

  function HealthEntry(e: Entry, address: string, ok: bool): Entry {
    if e.address != address then e
    else if ok then e.(healthy := true)
    else e.(healthy := false, halfOpenInFlight := false)
  }

  function UpdateHealth(p: Pool, address: string, ok: bool): (r: Pool)
    ensures |r.backends| == |p.backends| && r.current == p.current && r.store == p.store
    ensures forall i :: 0 <= i < |p.backends| ==> r.backends[i] == HealthEntry(p.backends[i], address, ok)
  {
    p.(backends := seq(|p.backends|, i requires 0 <= i < |p.backends| => HealthEntry(p.backends[i], address, ok)))
  }

  /** The entry the reload map keeps for an address: the last one, since later writes overwrite. */
  function LastIndexOf(backends: seq<Entry>, address: string): (r: Option<nat>)
    ensures r.Some? ==> r.value < |backends| && backends[r.value].address == address
                        && forall j :: r.value < j < |backends| ==> backends[j].address != address
    ensures r.None? ==> forall j :: 0 <= j < |backends| ==> backends[j].address != address
  {
    if backends == [] then None
    else if backends[|backends| - 1].address == address then Some(|backends| - 1)
    else LastIndexOf(backends[..|backends| - 1], address)
  }

  function FreshEntry(address: string, statsId: nat): Entry {
    Entry(address, 0, true, statsId, Closed, None, 0, false, false, false)
  }

  function ReloadedEntry(p: Pool, address: string, statsId: nat): (e: Entry)
    ensures e.address == address && e.statsId == statsId
  {
    var i := LastIndexOf(p.backends, address);
    if i.Some? then p.backends[i.value].(statsId := statsId) else FreshEntry(address, statsId)
  }

  /** Initial contents of the stats object a reload creates for an address. */
  function ReloadedStats(p: Pool, address: string): Stats
    requires WellFormed(p)
  {
    var i := LastIndexOf(p.backends, address);
    if i.Some? then p.store[p.backends[i.value].statsId] else NO_STATS
  }

  function ReloadedBackends(p: Pool, addresses: seq<string>): (r: seq<Entry>)
    ensures |r| == |addresses|
    ensures forall k :: 0 <= k < |r| ==> r[k] == ReloadedEntry(p, addresses[k], |p.store| + k)
  {
    seq(|addresses|, k requires 0 <= k < |addresses| => ReloadedEntry(p, addresses[k], |p.store| + k))
  }

  function ReloadedStore(p: Pool, addresses: seq<string>): (r: seq<Stats>)
    requires WellFormed(p)
    ensures |r| == |addresses|
    ensures forall k :: 0 <= k < |r| ==> r[k] == ReloadedStats(p, addresses[k])
  {
    seq(|addresses|, k requires 0 <= k < |addresses| => ReloadedStats(p, addresses[k]))
  }

  function Reconfigure(p: Pool, addresses: seq<string>): (r: Pool)
    requires WellFormed(p)
    ensures WellFormed(r)
  {
    Pool(ReloadedBackends(p, addresses),
         if |addresses| == 0 then 0 else p.current % |addresses|,
         p.store + ReloadedStore(p, addresses))
  }

  /** A first pool: one entry and one stats object per configured address. */
  function InitialPool(addresses: seq<string>, weights: map<string, int>): (p: Pool)
    ensures WellFormed(p)
    ensures |p.backends| == |addresses| == |p.store| && p.current == 0
    ensures forall i :: 0 <= i < |addresses| ==>
              p.backends[i] == Entry(addresses[i], MaxInt(1, if addresses[i] in weights then weights[addresses[i]] else 0),
                                     true, i, Closed, None, 0, false, false, false)
    ensures forall i :: 0 <= i < |addresses| ==> p.store[i] == NO_STATS
  {
    Pool(seq(|addresses|, i requires 0 <= i < |addresses| =>
           Entry(addresses[i], MaxInt(1, if addresses[i] in weights then weights[addresses[i]] else 0),
                 true, i, Closed, None, 0, false, false, false)),
         0,
         seq(|addresses|, i => NO_STATS))
  }

  // ---------------------------------------------------------------- one step of the pool

  /** One critical section, or one group of atomic counter updates, of health.go. */
  datatype PoolOp =
    | OpNext(allowed: Allowed, now: Time)
    | OpAvailable(now: Time)
    | OpStatus(now: Time)
    | OpStart(address: string)
    | OpFinishStats(id: nat, status: int, latencyNs: int, err: bool)
    | OpFinish(address: string, failed: bool, now: Time)
    | OpSetState(address: string, action: string)
    | OpHealth(address: string, ok: bool)
    | OpReload(addresses: seq<string>)

  datatype Output =
    | Picked(address: Option<string>)
    | Count(n: nat)
    | Rows(rows: seq<Row>)
    | Bound(id: Option<nat>)
    | AdminResult(error: Option<AdminError>)
    | Done

  function PickedAddress(p: Pool, allowed: Allowed, now: Time): (a: Option<string>)
    requires WellFormed(p)
  {
    var c := NextFor(p, allowed, now).chosen;
    if c.None? then None else Some(p.backends[c.value].address)
  }

  predicate OpEnabled(p: Pool, op: PoolOp) {
    op.OpFinishStats? ==> op.id < |p.store|
  }

  function Apply(p: Pool, op: PoolOp): (r: (Pool, Output))
    requires WellFormed(p) && OpEnabled(p, op)
    ensures WellFormed(r.0)
  {
    match op
    case OpNext(allowed, now) => (NextFor(p, allowed, now).pool, Picked(PickedAddress(p, allowed, now)))
    case OpAvailable(now) => (PromoteAll(p, now), Count(CountAvailable(p.backends, now, |p.backends|)))
    case OpStatus(now) => (p, Rows(Status(p, now)))
    case OpStart(address) => (StartRequest(p, address), Bound(StartTarget(p, address)))
    case OpFinishStats(id, status, latencyNs, err) => (FinishStats(p, id, status, latencyNs, err), Done)
    case OpFinish(address, failed, now) => (FinishRequest(p, address, failed, now), Done)
    case OpSetState(address, action) =>
      var r := SetBackendState(p, address, action);
      (r.0, AdminResult(r.1))
    case OpHealth(address, ok) => (UpdateHealth(p, address, ok), Done)
    case OpReload(addresses) => (Reconfigure(p, addresses), Done)
  }
}

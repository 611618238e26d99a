/** The whole store: calls of many users and scopes, and why each key can be studied alone. */
module RedisStore {
  import opened Options
  import opened Histories
  import opened RateLimitTypes
  import opened RedisLimiter
  import opened RedisBounds
  import opened RedisAdmission

  /** What EvaluateRedis does with call k. */
  ghost predicate StoreCallAt(calls: seq<Call>, stores: seq<map<string, Record>>, decisions: seq<Decision>, k: nat)
    requires |decisions| == |calls| && |stores| == |calls| + 1 && k < |calls| && UsableLimits(calls[k].cfg)
  {
    var e := Evaluate(RecordOf(stores[k], KeyOf(calls[k])), calls[k]);
    && decisions[k] == e.decision
    && RecordOf(stores[k + 1], KeyOf(calls[k])) == e.record
    && forall key :: key != KeyOf(calls[k]) ==> RecordOf(stores[k + 1], key) == RecordOf(stores[k], key)
  }

  ghost predicate StoreRun(calls: seq<Call>, stores: seq<map<string, Record>>, decisions: seq<Decision>)
    requires forall k :: 0 <= k < |calls| ==> UsableLimits(calls[k].cfg)
  {
    && |decisions| == |calls| && |stores| == |calls| + 1 && stores[0] == map[]
    && forall k :: 0 <= k < |calls| ==> StoreCallAt(calls, stores, decisions, k)
  }

  /** The calls of one key among the first n. */
  function CallsOf(calls: seq<Call>, key: string, n: nat): seq<Call>
    requires n <= |calls|
  {
    if n == 0 then []
    else if KeyOf(calls[n - 1]) == key then CallsOf(calls, key, n - 1) + [calls[n - 1]]
    else CallsOf(calls, key, n - 1)
  }

  /** The answers those calls get. */
  function AnswersOf(calls: seq<Call>, decisions: seq<Decision>, key: string, n: nat): seq<Decision>
    requires n <= |calls| == |decisions|
  {
    if n == 0 then []
    else if KeyOf(calls[n - 1]) == key then AnswersOf(calls, decisions, key, n - 1) + [decisions[n - 1]]
    else AnswersOf(calls, decisions, key, n - 1)
  }

  lemma {:induction false} OwnCallsInOrder(calls: seq<Call>, key: string, n: nat, clock: Time)
    requires n <= |calls| && InOrder(calls) && forall m :: 0 <= m < n ==> calls[m].now <= clock
    ensures InOrder(CallsOf(calls, key, n))
    ensures forall m :: 0 <= m < |CallsOf(calls, key, n)| ==> CallsOf(calls, key, n)[m].now <= clock
  {
    if n > 0 {
      OwnCallsInOrder(calls, key, n - 1, calls[n - 1].now);
    }
  }

  /**
   Keys do not disturb each other: out of any run of the whole store, the calls and answers of one key
   whose configuration does not change are a run of that key alone, ending in its stored record.
   */
  lemma {:induction false} KeysAreIndependent(
    cfg: RateLimitConfig, calls: seq<Call>, stores: seq<map<string, Record>>, decisions: seq<Decision>,
    key: string, n: nat)
    returns (records: seq<Record>)
    requires UsableLimits(cfg) && forall k :: 0 <= k < |calls| ==> UsableLimits(calls[k].cfg)
    requires StoreRun(calls, stores, decisions) && n <= |calls|
    requires forall k :: 0 <= k < |calls| && KeyOf(calls[k]) == key ==> calls[k].cfg == cfg
    ensures KeyRun(cfg, CallsOf(calls, key, n), records, AnswersOf(calls, decisions, key, n))
    ensures records[|records| - 1] == RecordOf(stores[n], key)
  {
    if n == 0 {
      records := [NOTHING];
    } else {
      hide Evaluate, KeyOf;
      var before := KeysAreIndependent(cfg, calls, stores, decisions, key, n - 1);
      records := before;
      assert StoreCallAt(calls, stores, decisions, n - 1);
      if KeyOf(calls[n - 1]) == key {
        records := before + [RecordOf(stores[n], key)];
        var own, answers := CallsOf(calls, key, n - 1), AnswersOf(calls, decisions, key, n - 1);
        forall k | 0 <= k < |own| + 1
          ensures KeyCallAt(cfg, CallsOf(calls, key, n), records, AnswersOf(calls, decisions, key, n), k)
        {
          if k < |own| {
            assert KeyCallAt(cfg, own, before, answers, k);
          }
        }
      }
    }
  }

  // ---------------------------------------------------------------- the results about one key, in the whole store

  /** A run of the store in which the configuration of the key does not change. */
  ghost predicate SteadyRun(
    cfg: RateLimitConfig, calls: seq<Call>, stores: seq<map<string, Record>>, decisions: seq<Decision>, key: string)
  {
    && UsableLimits(cfg) && (forall k :: 0 <= k < |calls| ==> UsableLimits(calls[k].cfg))
    && StoreRun(calls, stores, decisions)
    && (forall k :: 0 <= k < |calls| && KeyOf(calls[k]) == key ==> calls[k].cfg == cfg)
  }

  /** No call of the key is answered traffic_spike, whatever the other keys do. */
  lemma {:induction false} StoreNeverSpikes(
    cfg: RateLimitConfig, calls: seq<Call>, stores: seq<map<string, Record>>, decisions: seq<Decision>, k: nat)
    requires k < |calls| && SteadyRun(cfg, calls, stores, decisions, KeyOf(calls[k]))
    ensures decisions[k].reason != TrafficSpike
  {
    hide KeyOf, StoreCallAt, KeyRun;
    var key := KeyOf(calls[k]);
    var records := KeysAreIndependent(cfg, calls, stores, decisions, key, k + 1);
    var own, answers := CallsOf(calls, key, k + 1), AnswersOf(calls, decisions, key, k + 1);
    SameLength(calls, decisions, key, k + 1);
    assert answers[|answers| - 1] == decisions[k];
    TrafficSpikeIsDead(cfg, own, records, answers, |own| - 1);
  }

  lemma {:induction false} SameLength(calls: seq<Call>, decisions: seq<Decision>, key: string, n: nat)
    requires n <= |calls| == |decisions|
    ensures |CallsOf(calls, key, n)| == |AnswersOf(calls, decisions, key, n)|
  {
    if n > 0 {
      SameLength(calls, decisions, key, n - 1);
    }
  }

  /** Times of the calls of the key that are allowed. */
  function AllowedFor(calls: seq<Call>, decisions: seq<Decision>, key: string): seq<Time>
    requires |calls| == |decisions|
  {
    SameLength(calls, decisions, key, |calls|);
    AllowedTimes(CallsOf(calls, key, |calls|), AnswersOf(calls, decisions, key, |calls|), |CallsOf(calls, key, |calls|)|)
  }

  /** The token bound of each key in the whole store. */
  lemma {:induction false} StoreTokenBound(
    cfg: RateLimitConfig, calls: seq<Call>, stores: seq<map<string, Record>>, decisions: seq<Decision>,
    key: string, first: Time, end: Time)
    requires SteadyRun(cfg, calls, stores, decisions, key) && InOrder(calls) && first <= end && PausesDoNotPay(cfg)
    ensures CountBetween(AllowedFor(calls, decisions, key), first - 1, end) as real <= TokenLine(cfg, first, end)
  {
    hide KeyOf, StoreCallAt, PausesDoNotPay, KeyCallAt;
    var records := KeysAreIndependent(cfg, calls, stores, decisions, key, |calls|);
    var own, answers := CallsOf(calls, key, |calls|), AnswersOf(calls, decisions, key, |calls|);
    OwnCallsInOrder(calls, key, |calls|, if calls == [] then 0 else calls[|calls| - 1].now);
    BelowLine(cfg, own, records, answers, |own|, first, end);
  }

  /** The window bound of each key in the whole store. */
  lemma {:induction false} StoreWindowBound(
    cfg: RateLimitConfig, calls: seq<Call>, stores: seq<map<string, Record>>, decisions: seq<Decision>,
    key: string, lo: Time)
    requires SteadyRun(cfg, calls, stores, decisions, key) && InOrder(calls) && PausesFitWindow(cfg)
    ensures InWindow(AllowedFor(calls, decisions, key), cfg, lo) <= WindowRoom(cfg)
  {
    hide KeyOf, StoreCallAt, PausesFitWindow, KeyCallAt, WindowRoom;
    var records := KeysAreIndependent(cfg, calls, stores, decisions, key, |calls|);
    var own, answers := CallsOf(calls, key, |calls|), AnswersOf(calls, decisions, key, |calls|);
    OwnCallsInOrder(calls, key, |calls|, if calls == [] then 0 else calls[|calls| - 1].now);
    WithinRoom(cfg, own, records, answers, |own|, lo);
  }
}

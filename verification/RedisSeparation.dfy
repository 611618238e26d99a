/** Who shares a record of the Redis limiter with whom, and that nobody else's calls change one's answers. */
module RedisSeparation {
  import opened Options
  import opened RateLimitTypes
  import opened RedisLimiter
  import opened RedisStore

  /** The scope a call is counted in: the name of its policy. */
  function ScopeOf(c: Call): string {
    if c.cfg.name == "" then "default" else c.cfg.name
  }

  lemma {:induction false} SameTail(a: string, b: string, x: string, y: string)
    requires a + x == b + y && |a| == |b|
    ensures a == b && x == y
  {
    assert (a + x)[..|a|] == a && (b + y)[..|b|] == b;
    assert (a + x)[|a|..] == x && (b + y)[|b|..] == y;
  }

  /** Within one scope two calls share a record if and only if they are of the same user. */
  lemma {:induction false} SharesRecord(c: Call, d: Call)
    requires ScopeOf(c) == ScopeOf(d)
    ensures KeyOf(c) == KeyOf(d) <==> c.user == d.user
  {
    if KeyOf(c) == KeyOf(d) {
      SameTail(ScopeOf(c) + ":", ScopeOf(d) + ":", c.user, d.user);
    }
  }

  lemma {:induction false} FirstColon(scope: string, user: string)
    requires ':' !in scope
    ensures var key := scope + ":" + user;
            key[|scope|] == ':' && forall i :: 0 <= i < |scope| ==> key[i] != ':'
  {
    assert forall i :: 0 <= i < |scope| ==> (scope + ":" + user)[i] == scope[i];
  }

  /** Across scopes without a colon in their names, if and only if scope and user are both the same. */
  lemma {:induction false} SharesAcrossScopes(c: Call, d: Call)
    requires ':' !in ScopeOf(c) && ':' !in ScopeOf(d)
    ensures KeyOf(c) == KeyOf(d) <==> ScopeOf(c) == ScopeOf(d) && c.user == d.user
  {
    if KeyOf(c) == KeyOf(d) {
      FirstColon(ScopeOf(c), c.user);
      FirstColon(ScopeOf(d), d.user);
      SameTail(ScopeOf(c) + ":", ScopeOf(d) + ":", c.user, d.user);
      SameTail(ScopeOf(c), ScopeOf(d), ":", ":");
    }
  }

  /** With a colon in the name of a scope, two scopes can share a record. */
  lemma {:induction false} ColonSharesRecord(cfg: RateLimitConfig)
    ensures var c, d := Call("b:u", "", cfg.(name := "a"), 0), Call("u", "", cfg.(name := "a:b"), 0);
            ScopeOf(c) != ScopeOf(d) && c.user != d.user && KeyOf(c) == KeyOf(d)
  {
    assert "a" + ":" + "b:u" == "a:b" + ":" + "u";
    assert |"a"| != |"a:b"| && |"b:u"| != |"u"|;
  }

  /** The first n calls without those of other users of the scope. */
  function WithoutOthers(calls: seq<Call>, scope: string, user: string, n: nat): seq<Call>
    requires n <= |calls|
  {
    if n == 0 then []
    else
      var before := WithoutOthers(calls, scope, user, n - 1);
      if ScopeOf(calls[n - 1]) == scope && calls[n - 1].user != user then before else before + [calls[n - 1]]
  }

  lemma {:induction false} WithoutOthersGrows(calls: seq<Call>, scope: string, user: string, n: nat, m: nat)
    requires n <= m <= |calls|
    ensures WithoutOthers(calls, scope, user, n) <= WithoutOthers(calls, scope, user, m)
    decreases m
  {
    if n < m {
      WithoutOthersGrows(calls, scope, user, n, m - 1);
    }
  }

  ghost predicate AllUsable(calls: seq<Call>) {
    forall k :: 0 <= k < |calls| ==> UsableLimits(calls[k].cfg)
  }

  lemma {:induction false} WithoutOthersUsable(calls: seq<Call>, scope: string, user: string, n: nat)
    requires n <= |calls| && AllUsable(calls)
    ensures AllUsable(WithoutOthers(calls, scope, user, n))
  {
    if n > 0 {
      WithoutOthersUsable(calls, scope, user, n - 1);
    }
  }

  /** A kept call has its place among the kept calls. */
  lemma {:induction false} KeptCall(calls: seq<Call>, scope: string, user: string, n: nat)
    requires n < |calls| && !(ScopeOf(calls[n]) == scope && calls[n].user != user)
    ensures var m := |WithoutOthers(calls, scope, user, n)|;
            var kept := WithoutOthers(calls, scope, user, |calls|);
            && m < |kept| && kept[m] == calls[n]
            && WithoutOthers(calls, scope, user, n + 1) == WithoutOthers(calls, scope, user, n) + [calls[n]]
  {
    WithoutOthersGrows(calls, scope, user, n + 1, |calls|);
  }

  /** A run of the store under configurations that meet the limiter's demands. */
  ghost predicate UsableRun(calls: seq<Call>, stores: seq<map<string, Record>>, decisions: seq<Decision>) {
    AllUsable(calls) && StoreRun(calls, stores, decisions)
  }

  /** Both runs hold the same record for the user. */
  lemma {:induction false} SameRecord(
    calls: seq<Call>, stores: seq<map<string, Record>>, decisions: seq<Decision>,
    stores': seq<map<string, Record>>, decisions': seq<Decision>, scope: string, user: string, key: string, n: nat)
    requires UsableRun(calls, stores, decisions)
    requires UsableRun(WithoutOthers(calls, scope, user, |calls|), stores', decisions')
    requires n <= |calls| && key == scope + ":" + user
    ensures |WithoutOthers(calls, scope, user, n)| < |stores'|
    ensures RecordOf(stores[n], key) == RecordOf(stores'[|WithoutOthers(calls, scope, user, n)|], key)
  {
    hide Evaluate, RecordOf, KeyOf;
    WithoutOthersGrows(calls, scope, user, n, |calls|);
    if n > 0 {
      SameRecord(calls, stores, decisions, stores', decisions', scope, user, key, n - 1);
      assert StoreCallAt(calls, stores, decisions, n - 1);
      var c := calls[n - 1];
      if ScopeOf(c) == scope && c.user != user {
        OthersKey(c, scope, user);
      } else {
        KeptCall(calls, scope, user, n - 1);
        assert StoreCallAt(WithoutOthers(calls, scope, user, |calls|), stores', decisions', |WithoutOthers(calls, scope, user, n - 1)|);
      }
    } else {
      assert stores[0] == map[] && stores'[0] == map[];
    }
  }

  lemma {:induction false} OthersKey(c: Call, scope: string, user: string)
    requires ScopeOf(c) == scope && c.user != user
    ensures KeyOf(c) != scope + ":" + user
  {
    if KeyOf(c) == scope + ":" + user {
      SameTail(scope + ":", scope + ":", c.user, user);
    }
  }

  /** In every run of the store, dropping the calls of all other users of a scope changes no answer to the user. */
  lemma {:induction false} OthersDoNotMatter(
    calls: seq<Call>, stores: seq<map<string, Record>>, decisions: seq<Decision>,
    stores': seq<map<string, Record>>, decisions': seq<Decision>, scope: string, user: string, n: nat)
    requires UsableRun(calls, stores, decisions)
    requires UsableRun(WithoutOthers(calls, scope, user, |calls|), stores', decisions')
    requires n < |calls| && ScopeOf(calls[n]) == scope && calls[n].user == user
    ensures var m := |WithoutOthers(calls, scope, user, n)|;
            && m < |decisions'| && WithoutOthers(calls, scope, user, |calls|)[m] == calls[n]
            && decisions'[m] == decisions[n]
  {
    assert KeyOf(calls[n]) == scope + ":" + user;
    SameRecord(calls, stores, decisions, stores', decisions', scope, user, KeyOf(calls[n]), n);
    KeptCall(calls, scope, user, n);
    hide Evaluate, RecordOf, KeyOf;
    assert StoreCallAt(calls, stores, decisions, n);
    assert StoreCallAt(WithoutOthers(calls, scope, user, |calls|), stores', decisions', |WithoutOthers(calls, scope, user, n)|);
  }

  /** Every list of calls is a run of the store, so the shorter list has one. */
  lemma {:induction false} StoreRunExists(calls: seq<Call>, n: nat)
    returns (stores: seq<map<string, Record>>, decisions: seq<Decision>)
    requires n <= |calls| && AllUsable(calls)
    ensures StoreRun(calls[..n], stores, decisions)
  {
    hide Evaluate, KeyOf;
    if n == 0 {
      stores, decisions := [map[]], [];
    } else {
      var before, answers := StoreRunExists(calls, n - 1);
      var c := calls[n - 1];
      var e := Evaluate(RecordOf(before[n - 1], KeyOf(c)), c);
      stores := before + [before[n - 1][KeyOf(c) := e.record]];
      decisions := answers + [e.decision];
      forall k | 0 <= k < n ensures StoreCallAt(calls[..n], stores, decisions, k) {
        if k < n - 1 {
          assert StoreCallAt(calls[..n - 1], before, answers, k);
        }
      }
    }
  }

  /** There is such a shorter run. */
  lemma {:induction false} ShorterRunExists(calls: seq<Call>, scope: string, user: string)
    returns (stores: seq<map<string, Record>>, decisions: seq<Decision>)
    requires AllUsable(calls)
    ensures UsableRun(WithoutOthers(calls, scope, user, |calls|), stores, decisions)
  {
    var kept := WithoutOthers(calls, scope, user, |calls|);
    WithoutOthersUsable(calls, scope, user, |calls|);
    stores, decisions := StoreRunExists(kept, |kept|);
    assert kept[..|kept|] == kept;
  }
}

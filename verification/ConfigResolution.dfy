/**
 Rate-limit defaults and policies: what applyRateLimitDefaults stores, which it does twice when a file is
 loaded, and what resolveRateLimitConfig hands to the limiters for one request.
 */
module ConfigResolution {
  import opened Options
  import opened RateLimitTypes
  import RedisLimiter

  datatype PolicyConfig = PolicyConfig(
    name: string,
    routePrefix: string,
    methods: seq<string>,
    apiKeys: seq<string>,
    requests: int,
    windowSeconds: int,
    baseRequestsPerSecond: real,
    burstCapacity: real,
    slidingWindowSeconds: int,
    softThrottleMilliseconds: int,
    blockSeconds: int,
    repeatedAbuseThreshold: int,
    eventRetentionSeconds: int,
    topN: int)

  // ---------------------------------------------------------------- defaults

  function OrDefault(value: int, default: int): int {
    if value > 0 then value else default
  }

  /** A configuration with every gap filled. */
  function Defaulted(c: RateLimitConfig): RateLimitConfig {
    var base :=
      if c.baseRequestsPerSecond > 0.0 then c.baseRequestsPerSecond
      else if c.requests > 0 && c.windowSeconds > 0 then c.requests as real / c.windowSeconds as real
      else 1.0;
    c.(name := if c.name == "" then "default" else c.name,
       identifierHeader := if c.identifierHeader == "" then "X-API-Key" else c.identifierHeader,
       baseRequestsPerSecond := base,
       slidingWindowSeconds := OrDefault(c.slidingWindowSeconds, OrDefault(c.windowSeconds, 10)),
       burstCapacity := MaxReal(1.0, if c.burstCapacity > 0.0 then c.burstCapacity else base * 2.0),
       softThrottleMilliseconds := OrDefault(c.softThrottleMilliseconds, 250),
       blockSeconds := OrDefault(c.blockSeconds, 30),
       repeatedAbuseThreshold := OrDefault(c.repeatedAbuseThreshold, 3),
       eventRetentionSeconds := OrDefault(c.eventRetentionSeconds, 3600),
       topN := OrDefault(c.topN, 10))
  }

  /** applyRateLimitDefaultsToConfig, rule by rule on the fields, which are written back at the end. */
  method ApplyDefaults(c: RateLimitConfig) returns (r: RateLimitConfig)
    ensures r == Defaulted(c)
  {
    ghost var d := Defaulted(c);
    var name, identifierHeader := c.name, c.identifierHeader;
    if name == "" {
      name := "default";
    }
    if identifierHeader == "" {
      identifierHeader := "X-API-Key";
    }
    var base := c.baseRequestsPerSecond;
    if base <= 0.0 && c.requests > 0 && c.windowSeconds > 0 {
      base := c.requests as real / c.windowSeconds as real;
      RatioIsPositive(c.requests, c.windowSeconds);
    }
    if base <= 0.0 {
      base := 1.0;
    }
    var sliding := c.slidingWindowSeconds;
    if sliding <= 0 {
      if c.windowSeconds > 0 {
        sliding := c.windowSeconds;
      } else {
        sliding := 10;
      }
    }
    var burst := c.burstCapacity;
    if burst <= 0.0 {
      burst := base * 2.0;
    }
    if burst < 1.0 {
      burst := 1.0;
    }
    assert name == d.name && identifierHeader == d.identifierHeader && base == d.baseRequestsPerSecond;
    assert sliding == d.slidingWindowSeconds && burst == d.burstCapacity;
    var soft := c.softThrottleMilliseconds;
    if soft <= 0 {
      soft := 250;
    }
    assert soft == OrDefault(c.softThrottleMilliseconds, 250);
    var block := c.blockSeconds;
    if block <= 0 {
      block := 30;
    }
    assert block == OrDefault(c.blockSeconds, 30);
    var threshold := c.repeatedAbuseThreshold;
    if threshold <= 0 {
      threshold := 3;
    }
    assert threshold == OrDefault(c.repeatedAbuseThreshold, 3);
    var retention := c.eventRetentionSeconds;
    if retention <= 0 {
      retention := 3600;
    }
    assert retention == OrDefault(c.eventRetentionSeconds, 3600);
    var topN := c.topN;
    if topN <= 0 {
      topN := 10;
    }
    assert topN == OrDefault(c.topN, 10);
    hide OrDefault;
    r := c.(name := name, identifierHeader := identifierHeader, baseRequestsPerSecond := base,
            slidingWindowSeconds := sliding, burstCapacity := burst, softThrottleMilliseconds := soft,
            blockSeconds := block, repeatedAbuseThreshold := threshold, eventRetentionSeconds := retention, topN := topN);
  }

  lemma {:induction false} RatioIsPositive(a: int, b: int)
    requires a > 0 && b > 0
    ensures a as real / b as real > 0.0
  {
  }

  /** Whatever was configured, a defaulted configuration meets all the limiter asks. */
  lemma {:induction false} DefaultedIsUsable(c: RateLimitConfig)
    ensures RedisLimiter.UsableLimits(Defaulted(c))
  {
  }

  lemma {:induction false} DefaultsAreIdempotent(c: RateLimitConfig)
    ensures Defaulted(Defaulted(c)) == Defaulted(c)
  {
  }

  // ---------------------------------------------------------------- policies

  function OrReal(value: real, default: real): real {
    if value > 0.0 then value else default
  }

  /** applyPolicyOverrides: the policy's positive limits win. */
  function Overridden(c: RateLimitConfig, p: PolicyConfig): RateLimitConfig {
    c.(requests := OrDefault(p.requests, c.requests),
       windowSeconds := OrDefault(p.windowSeconds, c.windowSeconds),
       baseRequestsPerSecond := OrReal(p.baseRequestsPerSecond, c.baseRequestsPerSecond),
       burstCapacity := OrReal(p.burstCapacity, c.burstCapacity),
       slidingWindowSeconds := OrDefault(p.slidingWindowSeconds, c.slidingWindowSeconds),
       softThrottleMilliseconds := OrDefault(p.softThrottleMilliseconds, c.softThrottleMilliseconds),
       blockSeconds := OrDefault(p.blockSeconds, c.blockSeconds),
       repeatedAbuseThreshold := OrDefault(p.repeatedAbuseThreshold, c.repeatedAbuseThreshold),
       eventRetentionSeconds := OrDefault(p.eventRetentionSeconds, c.eventRetentionSeconds),
       topN := OrDefault(p.topN, c.topN))
  }

  method ApplyOverrides(c: RateLimitConfig, p: PolicyConfig) returns (r: RateLimitConfig)
    ensures r == Overridden(c, p)
  {
    var requests := c.requests;
    if p.requests > 0 {
      requests := p.requests;
    }
    assert requests == OrDefault(p.requests, c.requests);
    var windowSeconds := c.windowSeconds;
    if p.windowSeconds > 0 {
      windowSeconds := p.windowSeconds;
    }
    assert windowSeconds == OrDefault(p.windowSeconds, c.windowSeconds);
    var baseRequestsPerSecond := c.baseRequestsPerSecond;
    if p.baseRequestsPerSecond > 0.0 {
      baseRequestsPerSecond := p.baseRequestsPerSecond;
    }
    assert baseRequestsPerSecond == OrReal(p.baseRequestsPerSecond, c.baseRequestsPerSecond);
    var burstCapacity := c.burstCapacity;
    if p.burstCapacity > 0.0 {
      burstCapacity := p.burstCapacity;
    }
    assert burstCapacity == OrReal(p.burstCapacity, c.burstCapacity);
    var slidingWindowSeconds := c.slidingWindowSeconds;
    if p.slidingWindowSeconds > 0 {
      slidingWindowSeconds := p.slidingWindowSeconds;
    }
    assert slidingWindowSeconds == OrDefault(p.slidingWindowSeconds, c.slidingWindowSeconds);
    var softThrottleMilliseconds := c.softThrottleMilliseconds;
    if p.softThrottleMilliseconds > 0 {
      softThrottleMilliseconds := p.softThrottleMilliseconds;
    }
    assert softThrottleMilliseconds == OrDefault(p.softThrottleMilliseconds, c.softThrottleMilliseconds);
    var blockSeconds := c.blockSeconds;
    if p.blockSeconds > 0 {
      blockSeconds := p.blockSeconds;
    }
    assert blockSeconds == OrDefault(p.blockSeconds, c.blockSeconds);
    var repeatedAbuseThreshold := c.repeatedAbuseThreshold;
    if p.repeatedAbuseThreshold > 0 {
      repeatedAbuseThreshold := p.repeatedAbuseThreshold;
    }
    assert repeatedAbuseThreshold == OrDefault(p.repeatedAbuseThreshold, c.repeatedAbuseThreshold);
    var eventRetentionSeconds := c.eventRetentionSeconds;
    if p.eventRetentionSeconds > 0 {
      eventRetentionSeconds := p.eventRetentionSeconds;
    }
    assert eventRetentionSeconds == OrDefault(p.eventRetentionSeconds, c.eventRetentionSeconds);
    var topN := c.topN;
    if p.topN > 0 {
      topN := p.topN;
    }
    assert topN == OrDefault(p.topN, c.topN);
    hide OrDefault, OrReal;
    r := c.(requests := requests, windowSeconds := windowSeconds, baseRequestsPerSecond := baseRequestsPerSecond,
            burstCapacity := burstCapacity, slidingWindowSeconds := slidingWindowSeconds,
            softThrottleMilliseconds := softThrottleMilliseconds, blockSeconds := blockSeconds,
            repeatedAbuseThreshold := repeatedAbuseThreshold, eventRetentionSeconds := eventRetentionSeconds, topN := topN);
  }

  /** policyFromRateLimitConfig: the policy with its limits replaced. */
  function WithLimits(p: PolicyConfig, c: RateLimitConfig): PolicyConfig {
    PolicyConfig(p.name, p.routePrefix, p.methods, p.apiKeys, c.requests, c.windowSeconds, c.baseRequestsPerSecond,
                 c.burstCapacity, c.slidingWindowSeconds, c.softThrottleMilliseconds, c.blockSeconds,
                 c.repeatedAbuseThreshold, c.eventRetentionSeconds, c.topN)
  }

  /** A base configuration with exactly the stored limits of a policy, positive or not, and its name. */
  function StoredLimits(base: RateLimitConfig, p: PolicyConfig): RateLimitConfig {
    base.(name := if p.name == "" then "default" else p.name,
          requests := p.requests, windowSeconds := p.windowSeconds, baseRequestsPerSecond := p.baseRequestsPerSecond,
          burstCapacity := p.burstCapacity, slidingWindowSeconds := p.slidingWindowSeconds,
          softThrottleMilliseconds := p.softThrottleMilliseconds, blockSeconds := p.blockSeconds,
          repeatedAbuseThreshold := p.repeatedAbuseThreshold, eventRetentionSeconds := p.eventRetentionSeconds,
          topN := p.topN)
  }

  /** The limits of a policy over a base: its overrides, with gaps filled. */
  function Merged(base: RateLimitConfig, p: PolicyConfig): RateLimitConfig {
    Defaulted(Overridden(base.(name := p.name), p))
  }

  function DefaultedBase(c: RateLimitConfig): RateLimitConfig {
    Defaulted(c.(name := "default"))
  }

  function DefaultedPolicies(base: RateLimitConfig, policies: seq<PolicyConfig>): (r: seq<PolicyConfig>)
    ensures |r| == |policies|
    ensures forall i :: 0 <= i < |r| ==> r[i] == WithLimits(policies[i], Merged(base, policies[i]))
  {
    seq(|policies|, i requires 0 <= i < |policies| => WithLimits(policies[i], Merged(base, policies[i])))
  }

  // ---------------------------------------------------------------- the same, limit by limit

  /** Every limit is the configured one when that is positive, and its default otherwise. */
  predicate HasDefaults(b: RateLimitConfig, c: RateLimitConfig) {
    && b.name == "default"
    && b.identifierHeader == (if c.identifierHeader == "" then "X-API-Key" else c.identifierHeader)
    && b.baseRequestsPerSecond == (if c.baseRequestsPerSecond > 0.0 then c.baseRequestsPerSecond
                                   else if c.requests > 0 && c.windowSeconds > 0 then
                                     c.requests as real / c.windowSeconds as real
                                   else 1.0)
    && b.burstCapacity == (if c.burstCapacity >= 1.0 then c.burstCapacity
                           else if c.burstCapacity > 0.0 || b.baseRequestsPerSecond < 0.5 then 1.0
                           else 2.0 * b.baseRequestsPerSecond)
    && b.slidingWindowSeconds == (if c.slidingWindowSeconds > 0 then c.slidingWindowSeconds
                                  else if c.windowSeconds > 0 then c.windowSeconds
                                  else 10)
    && b.softThrottleMilliseconds == (if c.softThrottleMilliseconds > 0 then c.softThrottleMilliseconds else 250)
    && b.blockSeconds == (if c.blockSeconds > 0 then c.blockSeconds else 30)
    && b.repeatedAbuseThreshold == (if c.repeatedAbuseThreshold > 0 then c.repeatedAbuseThreshold else 3)
    && b.eventRetentionSeconds == (if c.eventRetentionSeconds > 0 then c.eventRetentionSeconds else 3600)
    && b.topN == (if c.topN > 0 then c.topN else 10)
    && b.requests == c.requests && b.windowSeconds == c.windowSeconds
    && b.key == c.key && b.enabled == c.enabled && b.redis == c.redis
  }

  /** Every limit of r is the policy's own when that is positive, at least 1 for the burst, and the base's otherwise. */
  predicate HasLimits(r: RateLimitConfig, p: PolicyConfig, b: RateLimitConfig) {
    && r.requests == (if p.requests > 0 then p.requests else b.requests)
    && r.windowSeconds == (if p.windowSeconds > 0 then p.windowSeconds else b.windowSeconds)
    && r.baseRequestsPerSecond == (if p.baseRequestsPerSecond > 0.0 then p.baseRequestsPerSecond else b.baseRequestsPerSecond)
    && r.burstCapacity == (if p.burstCapacity >= 1.0 then p.burstCapacity
                           else if p.burstCapacity > 0.0 then 1.0
                           else b.burstCapacity)
    && r.slidingWindowSeconds == (if p.slidingWindowSeconds > 0 then p.slidingWindowSeconds else b.slidingWindowSeconds)
    && r.softThrottleMilliseconds ==
       (if p.softThrottleMilliseconds > 0 then p.softThrottleMilliseconds else b.softThrottleMilliseconds)
    && r.blockSeconds == (if p.blockSeconds > 0 then p.blockSeconds else b.blockSeconds)
    && r.repeatedAbuseThreshold == (if p.repeatedAbuseThreshold > 0 then p.repeatedAbuseThreshold else b.repeatedAbuseThreshold)
    && r.eventRetentionSeconds == (if p.eventRetentionSeconds > 0 then p.eventRetentionSeconds else b.eventRetentionSeconds)
    && r.topN == (if p.topN > 0 then p.topN else b.topN)
    && r.name == (if p.name == "" then "default" else p.name)
    && r.identifierHeader == b.identifierHeader && r.key == b.key && r.enabled == b.enabled && r.redis == b.redis
  }

  /** The stored policy applies to the same requests, with the limits of r. */
  predicate StoresLimits(stored: PolicyConfig, p: PolicyConfig, r: RateLimitConfig) {
    && stored.name == p.name && stored.routePrefix == p.routePrefix
    && stored.methods == p.methods && stored.apiKeys == p.apiKeys
    && stored.requests == r.requests && stored.windowSeconds == r.windowSeconds
    && stored.baseRequestsPerSecond == r.baseRequestsPerSecond && stored.burstCapacity == r.burstCapacity
    && stored.slidingWindowSeconds == r.slidingWindowSeconds
    && stored.softThrottleMilliseconds == r.softThrottleMilliseconds && stored.blockSeconds == r.blockSeconds
    && stored.repeatedAbuseThreshold == r.repeatedAbuseThreshold
    && stored.eventRetentionSeconds == r.eventRetentionSeconds && stored.topN == r.topN
  }

  /** The limits a configuration must have for nothing in it to be replaced by a default. */
  predicate NoGaps(b: RateLimitConfig) {
    RedisLimiter.UsableLimits(b) && b.topN > 0 && b.identifierHeader != ""
  }

  lemma {:induction false} DefaultsLimitByLimit(c: RateLimitConfig)
    ensures HasDefaults(DefaultedBase(c), c) && NoGaps(DefaultedBase(c))
  {
  }

  /** The policy as loading stores it: with each of its own positive limits, and the base's in the gaps. */
  ghost predicate IsStored(stored: PolicyConfig, p: PolicyConfig, b: RateLimitConfig) {
    exists r :: HasLimits(r, p, b) && StoresLimits(stored, p, r)
  }

  lemma {:induction false} NothingDefaulted(c: RateLimitConfig)
    requires c.baseRequestsPerSecond > 0.0 && c.burstCapacity > 0.0 && c.slidingWindowSeconds > 0
    requires c.softThrottleMilliseconds > 0 && c.blockSeconds > 0 && c.repeatedAbuseThreshold > 0
    requires c.eventRetentionSeconds > 0 && c.topN > 0 && c.identifierHeader != ""
    ensures Defaulted(c) == c.(name := if c.name == "" then "default" else c.name,
                               burstCapacity := if c.burstCapacity < 1.0 then 1.0 else c.burstCapacity)
  {
  }

  lemma {:induction false} LimitsLimitByLimit(b: RateLimitConfig, p: PolicyConfig)
    requires NoGaps(b)
    ensures HasLimits(Merged(b, p), p, b) && IsStored(WithLimits(p, Merged(b, p)), p, b)
  {
    NothingDefaulted(Overridden(b.(name := p.name), p));
    hide Defaulted;
    assert StoresLimits(WithLimits(p, Merged(b, p)), p, Merged(b, p));
  }

  lemma {:induction false} AnswerHasLimits(b: RateLimitConfig, p: PolicyConfig)
    requires NoGaps(b)
    ensures HasLimits(Merged(b.(name := "default"), p), p, b)
  {
    LimitsLimitByLimit(b.(name := "default"), p);
  }

  class Config {
    var rateLimit: RateLimitConfig
    var policies: seq<PolicyConfig>

    constructor (rateLimit: RateLimitConfig, policies: seq<PolicyConfig>)
      ensures this.rateLimit == rateLimit && this.policies == policies
    {
      this.rateLimit, this.policies := rateLimit, policies;
    }

    method ApplyRateLimitDefaults()
      modifies this
      ensures rateLimit == DefaultedBase(old(rateLimit))
      ensures policies == DefaultedPolicies(rateLimit, old(policies))
      ensures HasDefaults(rateLimit, old(rateLimit)) && NoGaps(rateLimit)
      ensures |policies| == |old(policies)|
      ensures forall i :: 0 <= i < |policies| ==> IsStored(policies[i], old(policies)[i], rateLimit)
    {
      rateLimit := rateLimit.(name := "default");
      rateLimit := ApplyDefaults(rateLimit);
      hide Defaulted, Overridden, HasLimits, NoGaps, HasDefaults, IsStored;
      for i := 0 to |policies|
        invariant rateLimit == DefaultedBase(old(rateLimit)) && |policies| == |old(policies)|
        invariant forall k :: 0 <= k < i ==> policies[k] == WithLimits(old(policies)[k], Merged(rateLimit, old(policies)[k]))
        invariant forall k :: i <= k < |policies| ==> policies[k] == old(policies)[k]
      {
        var merged := rateLimit;
        merged := merged.(name := policies[i].name);
        merged := ApplyOverrides(merged, policies[i]);
        merged := ApplyDefaults(merged);
        policies := policies[i := WithLimits(policies[i], merged)];
      }
      DefaultsLimitByLimit(old(rateLimit));
      forall i | 0 <= i < |policies|
        ensures IsStored(policies[i], old(policies)[i], rateLimit)
      {
        LimitsLimitByLimit(rateLimit, old(policies)[i]);
      }
    }

    /** resolveRateLimitConfig for one request. */
    method ResolveRateLimitConfig(path: string, verb: string, identifier: string) returns (resolved: RateLimitConfig)
      ensures (forall i :: 0 <= i < |policies| ==> !Applies(policies[i], path, verb, identifier)) ==>
                resolved == rateLimit.(name := "default")
      ensures forall i :: 0 <= i < |policies| && IsFirstMatch(policies, i, path, verb, identifier) ==>
                resolved == Merged(rateLimit.(name := "default"), policies[i])
      ensures forall i :: 0 <= i < |policies| && IsFirstMatch(policies, i, path, verb, identifier) && NoGaps(rateLimit) ==>
                HasLimits(resolved, policies[i], rateLimit)
    {
      var base := rateLimit.(name := "default");
      hide Overridden, Defaulted, ListsFold, ListsExact, HasLimits, NoGaps;
      for i := 0 to |policies|
        invariant forall k :: 0 <= k < i ==> !Applies(policies[k], path, verb, identifier)
      {
        var policy := policies[i];
        if policy.routePrefix != "" && !(policy.routePrefix <= path) {
          continue;
        }
        if |policy.methods| > 0 {
          var found := ContainsFold(policy.methods, verb);
          if !found {
            continue;
          }
        }
        if |policy.apiKeys| > 0 {
          var found := ContainsExact(policy.apiKeys, identifier);
          if !found {
            continue;
          }
        }
        resolved := base.(name := policy.name);
        resolved := ApplyOverrides(resolved, policy);
        resolved := ApplyDefaults(resolved);
        if NoGaps(rateLimit) {
          AnswerHasLimits(rateLimit, policy);
        }
        return;
      }
      return base;
    }
  }

  // ---------------------------------------------------------------- which policy applies

  /** unicode.IsSpace. */
  predicate IsSpace(c: char) {
    var n := c as int;
    || 9 <= n <= 13 || n == 0x20 || n == 0x85 || n == 0xA0 || n == 0x1680 || 0x2000 <= n <= 0x200A
    || n == 0x2028 || n == 0x2029 || n == 0x202F || n == 0x205F || n == 0x3000
  }

  function TrimLeft(s: string): string {
    if s != "" && IsSpace(s[0]) then TrimLeft(s[1..]) else s
  }

  function TrimRight(s: string): string {
    if s != "" && IsSpace(s[|s| - 1]) then TrimRight(s[..|s| - 1]) else s
  }

  function Trim(s: string): string {
    TrimRight(TrimLeft(s))
  }

  /** The lower-case ASCII letter a character folds to, if any: besides A to Z, the Kelvin sign and the long s. */
  function Lower(c: char): char {
    if 'A' <= c <= 'Z' then (c as int + 32) as char
    else if c as int == 0x212A then 'k'
    else if c as int == 0x17F then 's'
    else c
  }

  /** strings.EqualFold, for a target in ASCII, as request methods are (section 5.6.2 of RFC 9110). */
  predicate EqualFold(a: string, b: string) {
    |a| == |b| && forall i :: 0 <= i < |a| ==> Lower(a[i]) == Lower(b[i])
  }

  predicate ListsFold(values: seq<string>, target: string) {
    exists i :: 0 <= i < |values| && EqualFold(Trim(values[i]), target)
  }

  predicate ListsExact(values: seq<string>, target: string) {
    exists i :: 0 <= i < |values| && Trim(values[i]) == target
  }

  /** An empty prefix, method list or key list does not restrict. */
  predicate Applies(p: PolicyConfig, path: string, verb: string, identifier: string) {
    && p.routePrefix <= path
    && (p.methods != [] ==> ListsFold(p.methods, verb))
    && (p.apiKeys != [] ==> ListsExact(p.apiKeys, identifier))
  }

  predicate IsFirstMatch(policies: seq<PolicyConfig>, i: nat, path: string, verb: string, identifier: string)
    requires i < |policies|
  {
    && Applies(policies[i], path, verb, identifier)
    && forall k :: 0 <= k < i ==> !Applies(policies[k], path, verb, identifier)
  }

  method ContainsFold(values: seq<string>, target: string) returns (found: bool)
    ensures found <==> ListsFold(values, target)
  {
    for i := 0 to |values|
      invariant forall k :: 0 <= k < i ==> !EqualFold(Trim(values[k]), target)
    {
      if EqualFold(Trim(values[i]), target) {
        return true;
      }
    }
    return false;
  }

  method ContainsExact(values: seq<string>, target: string) returns (found: bool)
    ensures found <==> ListsExact(values, target)
  {
    for i := 0 to |values|
      invariant forall k :: 0 <= k < i ==> Trim(values[k]) != target
    {
      if Trim(values[i]) == target {
        return true;
      }
    }
    return false;
  }

  // ---------------------------------------------------------------- main results

  /** Merging a policy that already stores its merged limits changes nothing. */
  lemma {:induction false} MergeIsStable(base: RateLimitConfig, p: PolicyConfig)
    ensures var stored := WithLimits(p, Merged(base, p));
            Merged(base, stored) == Merged(base, p)
  {
  }

  /** A stored policy resolves to exactly its stored limits. */
  lemma {:induction false} StoredPolicyResolvesToItself(base: RateLimitConfig, p: PolicyConfig)
    requires base == DefaultedBase(base)
    ensures var stored := WithLimits(p, Merged(base, p));
            Merged(base, stored) == StoredLimits(base, stored)
  {
  }

  /** Applying the defaults a second time, as loading a file does, changes neither the base nor any policy. */
  lemma {:induction false} DefaultingIsIdempotent(base: RateLimitConfig, policies: seq<PolicyConfig>)
    ensures var b := DefaultedBase(base);
            var ps := DefaultedPolicies(b, policies);
            DefaultedBase(b) == b && DefaultedPolicies(b, ps) == ps
  {
    DefaultsAreIdempotent(base.(name := "default"));
    var b := DefaultedBase(base);
    var ps := DefaultedPolicies(b, policies);
    forall i | 0 <= i < |ps| ensures WithLimits(ps[i], Merged(b, ps[i])) == ps[i] {
      MergeIsStable(b, policies[i]);
    }
  }

  /**
   On a defaulted configuration a request resolves to the stored limits of the first policy that
   applies, or to the base when none does, and what it resolves to always meets the limiter's demands.
   */
  lemma {:induction false} ResolutionReturnsStoredLimits(base: RateLimitConfig, policies: seq<PolicyConfig>, i: nat)
    requires i < |policies|
    ensures var b := DefaultedBase(base);
            var p := DefaultedPolicies(b, policies)[i];
            && Merged(b.(name := "default"), p) == StoredLimits(b, p)
            && RedisLimiter.UsableLimits(Merged(b, p))
            && b.(name := "default") == b
            && RedisLimiter.UsableLimits(b)
  {
    DefaultsAreIdempotent(base.(name := "default"));
    var b := DefaultedBase(base);
    assert b.name == "default" && b.(name := "default") == b;
    StoredPolicyResolvesToItself(b, policies[i]);
    DefaultedIsUsable(base.(name := "default"));
    var p := DefaultedPolicies(b, policies)[i];
    DefaultedIsUsable(Overridden(b.(name := p.name), p));
  }

  /**
   From the file to the answer: after loading, a request that policy i is the first to match gets each limit from
   that policy as configured when it is positive, and otherwise from the configured base or its defaults.
   */
  lemma {:induction false} AnswerLimitByLimit(base: RateLimitConfig, policies: seq<PolicyConfig>, i: nat)
    requires i < |policies|
    ensures var b := DefaultedBase(base);
            && HasDefaults(b, base)
            && HasLimits(Merged(b.(name := "default"), DefaultedPolicies(b, policies)[i]), policies[i], b)
  {
    var b := DefaultedBase(base);
    DefaultsLimitByLimit(base);
    LimitsLimitByLimit(b, policies[i]);
    MergeIsStable(b, policies[i]);
  }

  // ---------------------------------------------------------------- which requests a policy is for

  predicate AllSpace(s: string) {
    forall i :: 0 <= i < |s| ==> IsSpace(s[i])
  }

  lemma {:induction false} TrimLeftIsRest(s: string) returns (before: string)
    ensures s == before + TrimLeft(s) && AllSpace(before)
    ensures TrimLeft(s) != "" ==> !IsSpace(TrimLeft(s)[0])
  {
    if s != "" && IsSpace(s[0]) {
      var rest := TrimLeftIsRest(s[1..]);
      before := [s[0]] + rest;
      assert s == [s[0]] + s[1..];
    } else {
      before := "";
    }
  }

  lemma {:induction false} TrimRightIsRest(s: string) returns (after: string)
    ensures s == TrimRight(s) + after && AllSpace(after)
    ensures var r := TrimRight(s); r != "" ==> !IsSpace(r[|r| - 1]) && r[0] == s[0]
  {
    if s != "" && IsSpace(s[|s| - 1]) {
      var rest := TrimRightIsRest(s[..|s| - 1]);
      after := rest + [s[|s| - 1]];
      assert s == s[..|s| - 1] + [s[|s| - 1]];
    } else {
      after := "";
    }
  }

  /** Trimming takes white space, and no visible ASCII character, off both ends and nothing else. */
  lemma {:induction false} TrimIsInner(s: string) returns (before: string, after: string)
    ensures s == before + Trim(s) + after && AllSpace(before) && AllSpace(after)
    ensures var r := Trim(s); r != "" ==> !IsSpace(r[0]) && !IsSpace(r[|r| - 1])
    ensures IsSpace(' ') && IsSpace('\t') && forall c :: '!' <= c <= '~' ==> !IsSpace(c)
  {
    before := TrimLeftIsRest(s);
    after := TrimRightIsRest(TrimLeft(s));
  }

  /** Two printable ASCII strings are equal up to case: position by position the same, or a letter and its capital. */
  lemma {:induction false} FoldIsCase(a: string, b: string)
    requires forall i :: 0 <= i < |a| ==> '!' <= a[i] <= '~'
    requires forall i :: 0 <= i < |b| ==> '!' <= b[i] <= '~'
    ensures EqualFold(a, b) <==>
            && |a| == |b|
            && forall i :: 0 <= i < |a| ==>
                 || a[i] == b[i]
                 || ('A' <= a[i] <= 'Z' && b[i] as int == a[i] as int + 32)
                 || ('A' <= b[i] <= 'Z' && a[i] as int == b[i] as int + 32)
  {
  }

  /** A policy is for the paths below its prefix, the methods it lists and the keys it lists, if it lists any. */
  lemma {:induction false} AppliesExactly(p: PolicyConfig, path: string, verb: string, identifier: string)
    ensures Applies(p, path, verb, identifier) <==>
            && |p.routePrefix| <= |path| && p.routePrefix == path[..|p.routePrefix|]
            && (|p.methods| == 0 || exists m :: 0 <= m < |p.methods| && EqualFold(Trim(p.methods[m]), verb))
            && (|p.apiKeys| == 0 || exists m :: 0 <= m < |p.apiKeys| && Trim(p.apiKeys[m]) == identifier)
  {
  }
}

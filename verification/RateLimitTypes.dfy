/** The configuration and decision records shared by both rate limiters and by config resolution. */
module RateLimitTypes {
  datatype RedisConfig = RedisConfig(addr: string, password: string, db: int)

  datatype RateLimitConfig = RateLimitConfig(
    name: string,
    requests: int,
    windowSeconds: int,
    identifierHeader: string,
    key: string,
    enabled: bool,
    baseRequestsPerSecond: real,
    burstCapacity: real,
    slidingWindowSeconds: int,
    softThrottleMilliseconds: int,
    blockSeconds: int,
    repeatedAbuseThreshold: int,
    eventRetentionSeconds: int,
    topN: int,
    redis: RedisConfig)

  datatype Action = Allow | Throttle | Block

  datatype Reason = NoReason | CooldownActive | WindowExceeded | RepeatedAbuse | TrafficSpike | BurstExceeded | AdaptiveThrottle

  datatype Decision = Decision(
    action: Action,
    policyName: string,
    user: string,
    identifier: string,
    reason: Reason,
    retryAfter: int,
    throttleDelay: int,
    observedRps: real,
    averageRps: real,
    windowCount: int,
    abuseCount: int)

  function Allowing(cfg: RateLimitConfig, user: string, identifier: string): Decision {
    Decision(Allow, cfg.name, user, identifier, NoReason, 0, 0, 0.0, 0.0, 0, 0)
  }

  /** math.Ceil followed by int. */
  function Ceil(x: real): (n: int)
    ensures x <= n as real < x + 1.0
  {
    -((-x).Floor)
  }
}

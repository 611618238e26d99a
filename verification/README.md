# EdgeProxy: a verified model

EdgeProxy is an HTTP reverse proxy with a weighted, circuit-breaking backend pool and two rate limiters.
This project models its stateful parts in Dafny and proves what they guarantee over whole runs.
`dafny verify dfyconfig.toml` checks all of it.

## What is modelled

- **Backend pool** (`health.go`). `PoolModel` describes every locked operation as a function from one pool value to
  the next; the class in `BackendPool` carries the operations out with loops over mutable fields and is proved equal to
  those functions. `PoolRuns` is the state machine of a whole pool: requests with their finish closures, health checks,
  admin actions, readers and reloads in any interleaving, each locked method one step and each finish closure two.
  `PoolSelection`, `PoolGuarantees`, `PoolAccounting`, `BackendHistory`, `PoolStatistics`, `ProbeEpisodes`, `PoolBalance`
  and `LazyPromotion` prove the results about it; the two in the middle say what a run's steps alone determine: who can be
  picked, what the counters and the status rows show, and what a pick weighs.
- **Local limiter** (`rate_limiter.go`, `benchmark_test.go`). `LocalLimiter` is the in-memory limiter,
  `LocalAnswers` its answers seen from outside, `BenchmarkLimiters` the two small limiters it is measured against: a plain fixed window, which it refines, and an exact
  sliding window.
- **Redis limiter** (`rate_limiter.go`). `RedisLimiter` is one evaluation over keys with expiries; `RedisStore` and `RedisSeparation` separate
  the keys and the users; `RedisMeter` is a plain account, without keys and expiry, that every run answers by; `RedisBounds`, `RedisAdmission`, `RedisExactness` and `AbuseLadder` are about uninterrupted evaluations;
  `RedisInterleaving`, `RedisOverlap` and `RedisCrowds` are about many evaluations whose store commands interleave.
- **Request loop** (`main.go`). `RequestLoop` is the retry loop with the response body that finishes its request once,
  and `HandlerTickets` places it inside the runs of the pool; `Routes` is route matching and the address lists; `AccessLog` the counters kept per request.
- **Configuration** (`config.go`, `main.go`). `ConfigResolution` is defaulting, policy merging and resolution.

Times are integers: nanoseconds in the pool and the local limiter, whole seconds in the Redis limiter. Rates, scores and
tokens are exact reals and counters are unbounded. Statistics objects are cells of a store that only grows, so that a
finish closure which outlives a reload still names the cell it was bound to.

## Where the code does not do what one might expect

- A reload copies the active-request counter of a kept backend, while a request in flight still counts down on the old
  object. So the counter shows the requests in flight plus those that finished after a reload had overtaken them, for as
  long as the backend is kept, and is exact if and only if there are none of the latter (`ReloadsLeavePhantomLoad`;
  `PhantomLoadHappens` is a run with one). The counter of a backend that was removed and added again misses the
  requests in flight from before (`OlderRequestsAreMissed`).
- The first pool keeps repeated entries of `backends`, a reload drops them; the by-address finish is unambiguous only
  without repetitions (`FirstPoolIsUnambiguous`). All runs below start from distinct addresses.
- A reload does not apply the configured weights: a backend it adds counts 1, a kept one keeps its old weight.
  `ReloadIgnoresWeights` says exactly when that is the configured weight, `ReloadLosesWeights` gives a configuration
  where it is not.
- Policies and users are told apart by a key that joins them with a colon, so a colon in a policy's name can make two
  users of two policies share their limits (`ColonSharesRecord`).
- A half-open backend may see a second request finish: one sent before the breaker opened (`SecondRequestHappens`). At
  most one request is outstanding during a probe if and only if none was when it was handed out
  (`AtMostOneOutstanding`); that no second one is sent holds always (`ProbesAreExclusive`).
- The half-open bonus of 250 does not outweigh the three or more failures, 200 each, that a half-open backend still
  carries (`ProbeWaitsForLoad`). `HalfOpenRotation` says exactly when it is in the rotation, `HalfOpenIsPassedOver` is a
  run in which it is not.
- While the configuration of a key stays the same, its calls are answered `traffic_spike` only if evaluations overlap
  (`TrafficSpikeIsDead`), and then possibly, exactly when the repeated-abuse threshold is at least 2
  (`OverlapAnswersTrafficSpike`). A configuration whose window becomes shorter can spike without overlap
  (`ShorterWindowSpikes`).
- Overlapping evaluations may all spend the same token (`OverlapIgnoresTokens`). The window bound survives that exactly
  when the retention covers the window and the delay of the requests, or the window has no room for a call
  (`OverlapWindowBoundExactly`); the token bound exactly when no schedule of full windows outgrows it
  (`OverlapTokenBoundExactly`). When base * window is a whole number that means a retention that covers window and delay
  and a window with no more room than one burst (`CrowdsFitInClosedForm`, which also has the forms for requests without
  delay and for a long retention).
- With `event_retention_seconds` shorter than the sliding window both admission bounds of the Redis limiter can fail even
  without overlap. `TokenBoundExactly` and `WindowBoundExactly` say exactly when, for all rates and bursts, in terms of
  what a full bucket serves and what a pause costs; `WholeBurstPauses` and `WholeLimitsPauses` are the closed forms.
- The local limiter's cooldown never refuses a call that its window would admit; rolling the window over clears it
  (`LocalRefinesFixedWindow`). The Retry-After of `cooldown_active` is therefore too short exactly when it does not
  reach the end of the window (`CooldownRetryIsHonest`), as in the run of `CooldownRetryFails`.
- A 502, 503 or 504 that was closed for a retry is still sent, with no backend in the log, when the next pick finds none
  (`Proxy`, through `KeptStatus` and `BackendLogged`).

## Model

| member | source | states |
|---|---|---|
| `PoolModel.CandidatesAreEligible` | health.go:134-160 | the candidate loop collects exactly the eligible entries, each with its adjusted score |
| `PoolModel.SortIsCorrect` | health.go:164-169 | the candidates are ranked by score, then index, and none is lost or repeated |
| `BackendPoolClass.BackendPool.constructor` | health.go:70-83 | a new pool has one healthy, closed entry and one empty stats object per address |
| `BackendPoolClass.BackendPool.CollectCandidates` | health.go:134-160 | the loop promotes expired breakers of the entries it passes and returns the eligible candidates in order |
| `BackendPoolClass.BackendPool.CollectWeighted` | health.go:170-179 | the weighted list is the prefix within 0.001 of the minimum, and the total its weight |
| `BackendPoolClass.BackendPool.SearchRotation` | health.go:181-189 | the subtraction loop finds the slot whose interval holds the cursor position |
| `BackendPoolClass.BackendPool.PickByRotation` | health.go:164-189 | ranking, near-minimum prefix and search compose to the rotation pick |
| `BackendPoolClass.BackendPool.HandOut` | health.go:190-196 | the cursor advances modulo the total weight and a half-open pick takes the probe |
| `BackendPoolClass.BackendPool.NextFor` | health.go:125-197 | the new pool and the address returned are those of the selection specification; no candidate gives the empty address |
| `BackendPoolClass.BackendPool.AvailableCount` | health.go:211-237 | returns the number of available entries and stores the lazy step of every expired entry in service |
| `BackendPoolClass.BackendPool.ReadStatus` | health.go:251-281 | one row per entry with its reported breaker state and availability, changing nothing |
| `BackendPoolClass.BackendPool.StartRequest` | health.go:317-339 | counts one active request on the first entry with the address and binds the finish closure to its stats object |
| `BackendPoolClass.BackendPool.FinishStats` | health.go:326-335 | the counter updates of a finish closure, on the object it captured |
| `BackendPoolClass.BackendPool.FinishRequest` | health.go:341-365 | success closes the breaker, the third failure in a row opens it for fifteen seconds, and a half-open probe is released |
| `BackendPoolClass.BackendPool.SetBackendState` | health.go:445-469 | disable, enable and drain set the two flags of the first entry with the address; other actions and addresses are errors |
| `BackendPoolClass.BackendPool.UpdateHealth` | health.go:532-549 | every entry with the address gets the result, and a failed check clears the probe flag |
| `BackendPoolClass.BackendPool.IndexBackends` | health.go:384-387 | the reload map keeps the last entry of each address |
| `BackendPoolClass.BackendPool.Reconfigure` | health.go:380-443 | kept entries are copied with fresh stats objects holding the old counters, new ones start closed, the cursor is reduced |
| `PoolSelection.NextForPicksNearMinimum` | health.go:134-196 | nothing is returned exactly when nothing is eligible; otherwise an eligible entry whose score is within 0.001 of every eligible score |
| `PoolSelection.RotationMembers` | health.go:162-179 | the rotation holds exactly the eligible entries whose score is within 0.001 of every eligible score |
| `PoolSelection.ChosenIsCheapest` | health.go:134-209 | in the fields themselves: the choice is allowed, in service, not open and without a probe out, and no such backend costs less by more than 0.001, at 1000 per active request and weight, the average latency in ms, 200 per failure in a row and 250 off when not closed |
| `PoolSelection.FasterIsChosen` | health.go:199-209 | between closed, idle, faultless backends the lower average latency wins, in total nanoseconds and counts, within 1000 ns |
| `PoolSelection.NothingToChoose` | health.go:134-160 | nothing is chosen exactly when every backend is off the route, out of service, open before its deadline or has its probe out |
| `PoolSelection.StoredBreakers` | health.go:146-151 | nextFor and availableCount store exactly the expired breakers in service that they pass as half-open |
| `PoolSelection.AdminErrors` | health.go:445-469 | an admin action fails exactly for an address that is not there or an action that is not one of the three, and then changes nothing |
| `PoolSelection.ReloadKeepsCursor` | health.go:414-419 | a reload leaves the cursor at its value modulo the new number of backends |
| `PoolSelection.AvailabilityReadersAgree` | health.go:211-304 | at one instant availableCount equals the number of available status rows, and is positive exactly when nextFor(nil) finds a backend |
| `PoolSelection.MatchedRequestStaysOnItsRoute` | main.go:443-475 | a matched request reaches only backends of its best route |
| `PoolSelection.RouteBackendsAreOffered` | main.go:443-475 | a request finds no backend exactly when none that its route lists, or none at all when no route matches, can be picked |
| `PoolSelection.SearchNeverFallsThrough` | health.go:181-189 | within the total weight the search never takes its default and finds each slot exactly on its interval |
| `PoolSelection.LandingsAreWeights` | health.go:180-189 | each slot owns as many cursor positions as its weight |
| `PoolSelection.CallFollowsRotation` | health.go:180-191 | one call picks the slot under the cursor and moves the cursor on by one |
| `PoolSelection.RotationIsRanked` | health.go:164-189 | the rotation goes from lower to higher scores, and in pool order among equal ones |
| `PoolSelection.FirstPickIsBest` | health.go:164-191 | with the cursor at its start the pick is the eligible backend with the lowest score, the earliest among equals |
| `PoolSelection.RotationIsExact` | health.go:165-192 | while the near-minimum set stays the same, any total-weight many calls give each backend of the rotation exactly its configured weight, or 1 when that is not positive, from any cursor |
| `PoolBalance.QuietPicksFollowWeights` | production_test.go:78-89 | with closed breakers and no traffic between calls the picks follow the configured weights exactly |
| `PoolBalance.ChosenIsLeastLoaded` | health.go:165-209 | with nothing finished the pick has the least load per weight, within 1e-6 |
| `PoolBalance.ArrivalsStayBalanced` | health.go:165-209 | in any run of arrivals without completions, (active_i - 1) / w_i <= active_j / w_j + 1e-6 for every eligible j |
| `PoolBalance.FreshPoolIsBalanced` | health.go:70-83 | a fresh pool meets that run's hypotheses |
| `PoolRuns.NextForEffect` | health.go:134-196 | nextFor changes each entry only by the lazy step, and the chosen one by taking the probe |
| `PoolRuns.ReportedStateIsHistory` | health.go:283-288 | an entry that follows its finish history is reported as that history demands at any later time |
| `PoolRuns.StepKeepsInv` | health.go:125-469 | every step keeps the history, probe and accounting invariants |
| `PoolRuns.RunSatisfiesInv` | health.go:125-469 | so does every run from a first pool with distinct addresses |
| `BackendHistory.EntryFollowsPast` | health.go:125-469 | over any number of reloads that keep a backend, its health, flags, failures, deadline and probe are what the health checks, admin actions, picks and reports since it entered make them: open for 15 s after the last of three or more failures in a row |
| `BackendHistory.PickableByPast` | health.go:134-160 | a backend can be picked if and only if its last check, if any, passed, its last effective admin action, if any, was enable, those 15 s are over, and its probe is not out |
| `BackendHistory.DrainKeepsOut` | health.go:445-469 | from disable or drain until enable or removal no pick returns the backend, whatever reloads keep it |
| `BackendHistory.FailedCheckKeepsOut` | health.go:532-549 | from a failed check until a passed one or removal no pick returns it |
| `PoolStatistics.StatsAddUp` | health.go:326-335 | a stats object adds up exactly the requests counted down on it: how many, how many failed or were answered 500 or above, their latencies, and the last status |
| `PoolStatistics.CountersFollowFinishes` | health.go:317-443 | the same of a backend over the reloads that keep it, for the requests that finished on the object it had at that moment |
| `PoolStatistics.ReloadCopiesStats` | health.go:422-443 | a reload gives a kept backend an object with all its counters, and a new one an empty object |
| `PoolStatistics.StatusByPast` | health.go:251-309 | every field of a status row, from the steps of the run: service, breaker and availability at that time, counters and average latency |
| `PoolStatistics.PickByPast` | health.go:134-209 | a picked backend costs, by its past and its finished requests, no more than 0.001 above any other that could be picked |
| `PoolGuarantees.BreakerRefinesHistory` | health.go:341-365 | consecutiveErr is the trailing run of failures, the deadline is the last finish plus 15 s once it reaches 3, and the state reported is closed, open or half-open exactly as these say |
| `PoolGuarantees.ProbeIsNeverLost` | health.go:153-155 | a held probe flag belongs to a half-open entry and to a request that will still report to that address |
| `PoolGuarantees.QuietPoolIsAvailable` | health.go:290-304 | once all requests have reported, an entry in service is available exactly when its history's cooldown is over |
| `PoolGuarantees.ProbesAreExclusive` | health.go:153-196 | from the pick of a half-open backend to a report for it, a failed check or its removal, no pick returns it |
| `PoolGuarantees.HalfOpenPickTakesProbe` | health.go:193-195 | a pick takes the probe exactly when the finish history puts the backend past its cooldown |
| `PoolGuarantees.ProbeWaitsForLoad` | health.go:157-160 | a half-open backend is picked only when every eligible one scores at least 350 - 0.001 above its average latency, so never while an idle, faultless backend has an average latency less than that much above its own |
| `PoolGuarantees.HalfOpenRotation` | health.go:157-179 | an eligible half-open backend is in the rotation exactly when its load and latency plus 200 for each failure at the end of its history, less 250, is within 0.001 of every eligible score |
| `PoolAccounting.RequestsAreConserved` | health.go:317-339 | for every stats object active + requests is its opening sum plus the starts charged to it, active is its opening value plus the requests in flight on it, and errors <= requests |
| `PoolAccounting.CopiedLoadAddsUp` | health.go:422-443 | the counter of a backend is the requests started since the last reload and in flight, plus those that were so at each reload that kept it |
| `PoolAccounting.StepMovesPhantom` | health.go:317-443 | the difference between the counter and the requests in flight moves only when a request that a reload overtook is counted down on its old object, and then by one |
| `PoolAccounting.PhantomLoadGrows` | health.go:317-443 | from any moment on, while reloads keep the address, that difference grows by the number of those steps and never falls |
| `PoolAccounting.EntersWithoutLoad` | health.go:388-420 | a backend of the first pool or one that a reload adds starts with a counter that shows exactly the requests on it |
| `PoolAccounting.ActiveIsInFlight` | health.go:317-339 | until the first reload after a backend enters, its counter is exactly its requests in flight that were started since, which for the first pool are all of them |
| `PoolAccounting.ReloadsLeavePhantomLoad` | health.go:317-443 | over any number of reloads that keep a backend its counter is its requests since it entered that are in flight, plus those that finished after a reload overtook them, and exact if and only if there are none of these; the requests in flight from before it entered, which the first pool has none of, are not in it |
| `PoolAccounting.PhantomLoadHappens` | health.go:422-443 | a run in which every request has reported and the counter still reads one |
| `PoolAccounting.OlderRequestsAreMissed` | health.go:388-420 | a run in which a backend was removed and added again, has a request in flight and counts none |
| `ProbeEpisodes.EpisodeCount` | health.go:153-196 | throughout a probe the requests outstanding at its backend are the probe and those outstanding when it was handed out |
| `ProbeEpisodes.AtMostOneOutstanding` | health.go:153-196 | at most one request is outstanding throughout a probe if and only if none was when it was handed out |
| `ProbeEpisodes.SecondRequestHappens` | health.go:153-196 | a run in which a probe is handed out while a request sent before the breaker opened is still outstanding |
| `ProbeEpisodes.HalfOpenIsPassedOver` | health.go:157-179 | a run in which an available half-open backend is passed over for one that has never failed |
| `LazyPromotion.AlikeMeansPromotedOrNot` | health.go:142-145 | two entries that do not both have an expired breaker are alike exactly when they are equal or one is the other with its expired breaker promoted |
| `LazyPromotion.OpKeepsAlike` | health.go:125-443 | pools that differ only in whether an expired breaker is stored as half-open answer every operation alike and stay alike |
| `LazyPromotion.LazyPromotionIsUnobservable` | health.go:211-304 | dropping any availableCount and status calls from a run changes no other answer |
| `LazyPromotion.InitialPoolIsSane` | health.go:70-83 | a first pool meets that theorem's hypotheses |
| `Routes.MatchRoute` | main.go:510-518 | returns the longest matching route, the earliest of equal ones, and nothing exactly when none matches |
| `Routes.BestRouteIsUnique` | main.go:510-518 | at most one route is the best |
| `Routes.BackendAddresses` | main.go:1348-1366 | a reload uses the first occurrences of all configured addresses, in order and without repetition |
| `Routes.FirstOccurrencesInOrder` | main.go:1348-1366 | the addresses listed stand in configuration order, each at its first occurrence |
| `Routes.InitialAddresses` | health.go:85-107 | the first pool's address list and weight table |
| `Routes.WeightIsLargest` | health.go:89-103 | an address's weight is the largest configured for it, a top-level mention counting as 1 |
| `Routes.FirstAddressesCover` | health.go:92-97 | with positive weights exactly the mentioned addresses get entries |
| `Routes.FirstPoolIsDistinct` | health.go:88-96 | the first pool's addresses are distinct if and only if the top-level list is |
| `Routes.FirstPoolIsUnambiguous` | health.go:85-117 | the same of the entries built from them |
| `Routes.FirstPoolWeighs` | health.go:70-107 | each entry of the first pool has the largest weight configured for its address |
| `Routes.FirstPoolAgreesWithReload` | health.go:85-107 | with a duplicate-free top-level list the first pool and a reload use the same list |
| `Routes.ReloadIgnoresWeights` | health.go:388-443 | a reloaded backend counts with its configured weight if and only if it was in the pool with that weight, or is new and configured with weight 1 |
| `Routes.ReloadLosesWeights` | health.go:388-443 | a configuration with weight 5 that counts 1 after the reload, for a new address and for a kept one |
| `BenchmarkLimiters.FixedWindowLimiter.Allow` | benchmark_test.go:31-45 | the answer and the new map are those of the plain fixed window |
| `BenchmarkLimiters.FixedWindowIntervalBound` | benchmark_test.go:31-45 | with times in order at most 2 * limit - 1 calls of a key are admitted in any half-open window length, and at most limit when that is one instant |
| `BenchmarkLimiters.IntervalBoundIsTight` | benchmark_test.go:31-45 | for every limit, window and key some ordered run reaches that bound |
| `BenchmarkLimiters.SlidingWindowLimiter.Allow` | benchmark_test.go:58-74 | the answer and the new map are those of pruning and counting |
| `BenchmarkLimiters.KeptAgreesWithHistory` | benchmark_test.go:58-74 | from any later cut the kept list and the full admission history look the same |
| `BenchmarkLimiters.SlidingWindowIsExact` | benchmark_test.go:58-74 | the pruned list is the admission history after now - window, and a call is refused exactly when limit of them lie in the window ending now |
| `BenchmarkLimiters.SlidingWindowBound` | benchmark_test.go:58-74 | every window length, open at its start, admits at most limit calls of a key |
| `LocalLimiter.RateLimiter.EvaluateLocal` | rate_limiter.go:215-255 | the decision, the new bucket and the trimmed event list, for every configuration and clock |
| `LocalLimiter.RateLimiter.TrafficSpikes` | rate_limiter.go:337-345 | returns the newest events, at most limit of them |
| `LocalLimiter.LocalRefinesFixedWindow` | rate_limiter.go:227-245 | a call is allowed exactly when the plain fixed window allows it, whatever the clock and the cooldowns do |
| `LocalLimiter.LocalIntervalBound` | rate_limiter.go:219-245 | with times in processing order at most 2 * limit - 1 calls of a key are allowed in any half-open window length |
| `LocalLimiter.CooldownFollowsAnswers` | rate_limiter.go:229-242 | a refusal is cooldown_active exactly before the end of the cooldown that the key's earlier answers left, and its Retry-After counts to that end |
| `LocalLimiter.LocalIntervalBoundIsTight` | rate_limiter.go:219-245 | for every configuration and user some ordered run of calls reaches that bound |
| `LocalLimiter.RefusedUntilWindowEnds` | rate_limiter.go:227-245 | after a refusal the key's calls of a run are refused until its window ends, and the first one then is allowed |
| `LocalLimiter.WindowRetryIsHonest` | rate_limiter.go:238-242 | in any run the first call of the key that waits out the Retry-After of window_exceeded is allowed, whatever refused calls come before it |
| `LocalLimiter.CooldownRetryIsHonest` | rate_limiter.go:229-236 | after a cooldown_active answer of a run, every possible next call of the key that waits out the Retry-After is allowed if and only if the Retry-After reaches the end of the window |
| `LocalLimiter.CooldownRetryFails` | rate_limiter.go:229-236 | a run in which waiting it out is not enough |
| `LocalLimiter.EventsAreNewestRefusals` | rate_limiter.go:247-252 | the bounded list is the newest thousand refusals of the run, in order |
| `LocalAnswers.LimitIsConfigured` | rate_limiter.go:216-226 | the window is the longer configured one or a minute, the limit the configured requests or else the base rate over the window, rounded up, at least 1 |
| `LocalAnswers.AnswersByWindow` | rate_limiter.go:215-255 | whatever the clock does, each call is answered from the start and the allowed calls of the window it falls in: every field of the answer, the Retry-After of window_exceeded to the second |
| `LocalAnswers.SharesBucket` | rate_limiter.go:215-218 | under one policy two calls share a bucket if and only if they are of the same user |
| `LocalAnswers.OthersDoNotMatter` | rate_limiter.go:215-255 | in every run, dropping the calls of all other users of a policy changes no answer to a user |
| `RedisLimiter.RedisRateLimiter.Estimate` | rate_limiter.go:133-168 | observed rate, refilled tokens, average and the three conditions from what the first transaction returned |
| `RedisLimiter.RedisRateLimiter.IncrementAbuse` | rate_limiter.go:257-264 | the counter goes up by one, or restarts at one after its expiry, and lives twice the block length |
| `RedisLimiter.RedisRateLimiter.Judge` | rate_limiter.go:170-197 | the answer, the abuse and block keys and the tokens left, branch by branch |
| `RedisLimiter.RedisRateLimiter.EvaluateRedis` | rate_limiter.go:89-213 | an evaluation answers and updates the five keys as specified and touches no other key |
| `RedisMeter.AnswersAreMetered` | rate_limiter.go:100-204 | every answer of an ordered run that no cooldown gives: allowed with room in the window and a token, adaptive_throttle for the soft delay when one is missing, escalation when both are, with the count, rates and Retry-After, by an account of times, tokens and average kept from the calls and answers alone |
| `RedisMeter.VerdictByCase` | rate_limiter.go:170-197 | every branch of the answer and each of its fields, spiking calls included |
| `RedisMeter.SpikesExactly` | rate_limiter.go:161-166 | a call spikes exactly when its window holds over twice what the rate gives it, over 21 times what the stored average gives it, and at least one call more than the rate |
| `RedisSeparation.SharesRecord` | rate_limiter.go:100-117 | within one scope two calls share their keys if and only if they are of the same user |
| `RedisSeparation.SharesAcrossScopes` | rate_limiter.go:100-117 | across scopes without a colon in their names, if and only if scope and user are both the same |
| `RedisSeparation.ColonSharesRecord` | rate_limiter.go:100-117 | with a colon in a name, two users of two scopes can share their keys |
| `RedisSeparation.OthersDoNotMatter` | rate_limiter.go:89-213 | in every run of the store, dropping the calls of all other users of a scope changes no answer to a user |
| `RedisSeparation.ShorterRunExists` | rate_limiter.go:89-213 | there always is such a shorter run |
| `RedisStore.KeysAreIndependent` | rate_limiter.go:100-117 | the calls of one key in a run of the whole store are a run of that key alone |
| `RedisStore.StoreNeverSpikes` | rate_limiter.go:154-166 | no call of a run of the whole store is answered traffic_spike while the configuration of its key stays the same |
| `RedisStore.StoreTokenBound` | rate_limiter.go:139-152 | the token bound of each key in a run of the whole store |
| `RedisStore.StoreWindowBound` | rate_limiter.go:118-137 | the window bound of each key in a run of the whole store |
| `RedisBounds.FreshEffect` | rate_limiter.go:123-206 | what an evaluation leaves in the window and the bucket, and that an allowed one met both limits |
| `RedisBounds.TrafficSpikeIsDead` | rate_limiter.go:154-166 | no uninterrupted evaluation is answered traffic_spike, under any clock, expiry or cooldown |
| `RedisAdmission.GreedyBelowLine` | rate_limiter.go:139-152 | a full bucket never serves more than burst + base * d calls in d seconds |
| `RedisAdmission.GreedyStaysAhead` | rate_limiter.go:139-152 | spending every whole token at once is the best service: one that has passed no more calls stays behind however the bucket is capped |
| `RedisAdmission.LongRetentionDoesNotPay` | rate_limiter.go:118-152 | the condition of the token bound holds whenever the retention covers the window or the refill of the bucket |
| `RedisAdmission.CostlyPausesFit` | rate_limiter.go:118-152 | the condition of the window bound holds whenever two bursts are at most base * (retention + 1) |
| `RedisAdmission.TokenBound` | rate_limiter.go:118-206 | at most burst + base * T calls are allowed in any T seconds of any run, if no serving and pause hands out calls faster than the base rate |
| `RedisAdmission.WindowBound` | rate_limiter.go:118-206 | at most base * window calls are allowed in any window length of any run, if no servings with pauses in between exceed the window's room |
| `RedisExactness.TokenBoundExactly` | rate_limiter.go:118-206 | for all rates and bursts the token bound holds of every run if and only if that condition holds |
| `RedisExactness.WindowBoundExactly` | rate_limiter.go:118-206 | for all rates and bursts the window bound holds of every run if and only if its condition holds |
| `RedisExactness.WholeBurstPauses` | rate_limiter.go:118-206 | with a whole burst the first condition is that the retention gains the burst or the window's room |
| `RedisExactness.WholeLimitsPauses` | rate_limiter.go:118-206 | with whole limits the second is that the retention covers the window or two bursts are at most base * (retention + 1) |
| `AbuseLadder.LadderFollowsStreak` | rate_limiter.go:170-189 | an abusive call's count is one more than the streak it continues; below the threshold it is throttled for soft * (count + 1) <= soft * threshold, from it on it blocks |
| `AbuseLadder.BlockLastsExactly` | rate_limiter.go:105-112 | after a block every call is refused with the seconds left, until exactly the block length has passed |
| `AbuseLadder.AbuseAfterBlockReblocks` | rate_limiter.go:170-178 | abuse in the block length after a block blocks again at once |
| `RedisInterleaving.RangesSurviveInterleaving` | rate_limiter.go:122-204 | under any interleaving stored tokens stay in [0, burst] and the stored average is never negative |
| `RedisInterleaving.WindowBoundSurvivesInterleaving` | rate_limiter.go:122-134 | under any interleaving at most base * window requests pass in any window length, if they reach the store in order and within a delay the retention covers |
| `RedisOverlap.BackToBackIsEvaluate` | rate_limiter.go:100-212 | commands executed back to back are one uninterrupted evaluation |
| `RedisOverlap.OverlapIgnoresTokens` | rate_limiter.go:129-204 | for every n up to base * window some interleaving passes n calls in one second, whatever the burst |
| `RedisOverlap.ShorterWindowSpikes` | rate_limiter.go:161-166 | a second call, made under a window that became shorter, is answered traffic_spike without overlap |
| `RedisOverlap.OverlapAnswersTrafficSpike` | rate_limiter.go:161-189 | some interleaving answers traffic_spike if and only if the repeated-abuse threshold is at least 2 |
| `RedisCrowds.OverlapWindowBoundExactly` | rate_limiter.go:122-134 | the window bound holds of every ordered and prompt interleaving if and only if the retention covers window and delay, or the window has no room for a call |
| `RedisCrowds.ScheduledCrowds` | rate_limiter.go:122-206 | every schedule of full windows, each after an expiry or a window length, is carried out by some interleaving |
| `RedisCrowds.ScheduledBelowLine` | rate_limiter.go:122-206 | what passes in any interleaving is bounded by some schedule, so when no schedule outgrows the line of the bucket no interleaving does |
| `RedisCrowds.OverlapTokenBoundExactly` | rate_limiter.go:122-206 | for every configuration and delay the token bound holds of every ordered and prompt interleaving if and only if no schedule outgrows it |
| `RedisCrowds.CrowdsFitInClosedForm` | rate_limiter.go:122-206 | when base * window is whole that is: the retention covers window and delay, and the window's room is at most the burst; with such a retention, or without delay, it has closed forms for every rate |
| `RequestLoop.TrackedBody.FinishOnce` | main.go:563-566 | the finish closure is called on the first use and never again |
| `RequestLoop.TrackedBody.Read` | main.go:568-574 | a read that fails or ends the body finishes the request, once |
| `RequestLoop.TrackedBody.Close` | main.go:576-580 | closing finishes the request, once |
| `RequestLoop.RoundTrip` | main.go:531-561 | a start is reported, and at once a finish when the round trip fails; otherwise the body owes it |
| `RequestLoop.CopyResponse` | main.go:588-605 | relaying a response finishes it once, however its body ends |
| `RequestLoop.TryBackends` | main.go:461-484 | where and why the loop stops, the response in hand, and the pool calls made |
| `RequestLoop.Proxy` | main.go:443-500 | the answer case by case: the first response that is not 502, 503 or 504, or any on the last attempt, with its backend; 502 when the last attempt fails or the body cannot be sent again; 503 when no backend is picked; the status of a response closed before that; 504 after the deadline; and every call on the pool |
| `RequestLoop.StopsByCase` | main.go:452-484 | where the loop stops in each of these cases, GET and HEAD going on after an error, 502, 503 or 504 and other methods never |
| `RequestLoop.SomeCaseHolds` | main.go:452-484 | one of the cases always holds |
| `RequestLoop.TraceByAttempt` | main.go:531-561 | what each attempt tells the pool: its pick, its start, and a finish that failed on an error or from status 500 on |
| `RequestLoop.EndingIsUnique` | main.go:464-484 | outcomes and retry count determine where and why the loop stops |
| `RequestLoop.ContactsAreBounded` | main.go:452-484 | at most retries + 1 backends are contacted, and at most one for methods other than GET and HEAD (section 9.2.2 of RFC 9110) |
| `RequestLoop.EveryStartIsFinishedOnce` | main.go:531-580 | when the handler returns every contacted attempt has started once and finished once |
| `HandlerTickets.HandlerDischargesItsTickets` | main.go:461-580 | once a handler has returned, every ticket that its picks created in a run of the pool has been reported or was detached |
| `HandlerTickets.ReturnedHandlersFreeThePool` | main.go:461-580 | when all handlers have returned no probe is out, and a backend in service is available exactly when its history's cooldown is over |
| `HandlerTickets.HandlerIsCarriedOut` | main.go:461-580 | a handler with one attempt answered 200 is carried out by a run of the pool |
| `AccessLog.RequestStats.RecordRequest` | main.go:1067-1081 | the new counters and log after one request |
| `AccessLog.RequestStats.AppendLog` | main.go:1083-1088 | the log keeps its newest hundred entries |
| `AccessLog.TotalsAccountForEveryRequest` | main.go:1067-1076 | totals, limited and per-status counts account for every request of a run |
| `AccessLog.LogIsNewestRequests` | main.go:1083-1088 | the log is the newest hundred requests of the run, in order |
| `ConfigResolution.ApplyDefaults` | config.go:455-496 | every gap is filled as the rules say, in closed form |
| `ConfigResolution.DefaultedIsUsable` | config.go:455-496 | whatever was configured, rate, window, block and threshold are positive and the burst is at least 1 |
| `ConfigResolution.ApplyOverrides` | config.go:498-529 | the policy's positive limits win |
| `ConfigResolution.Config.ApplyRateLimitDefaults` | config.go:443-453 | limit by limit: the base keeps its positive limits and gets the defaults 1, 10, 250, 30, 3, 3600, 10 and twice the rate in the gaps; every policy stores its own positive limits and the base's in the gaps |
| `ConfigResolution.Config.ResolveRateLimitConfig` | main.go:1261-1281 | the first applicable policy merged over the base, limit by limit, or the base when none applies |
| `ConfigResolution.AnswerLimitByLimit` | config.go:498-529 | from file to answer: each of the ten limits is the first matching policy's configured value when positive, at least 1 for the burst, and otherwise the base's or its default |
| `ConfigResolution.AppliesExactly` | main.go:1261-1281 | a policy is for the paths with its prefix, and for the methods and keys it lists, if it lists any |
| `ConfigResolution.TrimIsInner` | main.go:1283-1299 | trimming takes white space off both ends and nothing else |
| `ConfigResolution.FoldIsCase` | main.go:1283-1290 | visible ASCII strings fold together exactly when they agree up to the case of letters |
| `ConfigResolution.ContainsFold` | main.go:1283-1290 | true exactly when a listed method, trimmed of Unicode white space, equals the ASCII target up to case |
| `ConfigResolution.ContainsExact` | main.go:1292-1299 | true exactly when a listed key, trimmed of Unicode white space, equals the identifier |
| `ConfigResolution.DefaultingIsIdempotent` | config.go:320-321 | defaulting a second time, as loading a file does, changes neither the base nor any policy |
| `ConfigResolution.ResolutionReturnsStoredLimits` | main.go:1261-1281 | on a defaulted configuration resolution returns exactly the stored limits of the policy, and the result always meets the limiter's demands |

## Left out

- LocalIntervalBound: assumes times in processing order, because evaluateLocal reads the clock before it takes the lock.
- EvaluateRedis: an error from Redis, which the handler answers with 503, is not modelled; window members are distinct and Redis and the proxy share one clock; the event sets that recordEvent writes are not kept.
- RangesSurviveInterleaving: INCR and the EXPIRE that follows it are one step, and each transaction pipeline is one step.
- FinishStats: the counter updates of a finish closure are one step, as are the loads of cloneBackendEntry, so torn reads of these atomics are not modelled.
- NextFor: scores are exact reals, and sort.SliceStable is an insertion sort specified as a permutation in order; floating-point rounding is not modelled.
- Proxy: the deadline is a fact known at the end, and copyResponse's replacement of an oversized response by a 502 is not modelled; headers, bodies and tracing are not either.
- ContainsFold: exact for targets in ASCII, which request methods are; the folding of other letters is not modelled.
- Health paths, transports, dialing, TLS and the TCP proxy: I/O around the pool that its decisions do not depend on.
- Config.Validate and the environment overrides: single checks; positive route weights appear as a hypothesis where the first pool needs them.
- TopAbusers, the dashboard, metrics, JSON output and the admin HTTP layer: formatting of state modelled here.
- healthyCount, transportFor and close: a count over one flag, and calls into transports.

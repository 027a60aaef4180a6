# Throttling engine: a verified model

This project models the throttling engine of a rate limiter that exists twice, as a Go service
(`go-throttle/`) and as a NestJS service (`backend/`), and proves what the engine promises over whole
runs. Check everything with `dafny verify dfyconfig.toml`.

Three layers are modelled.

* **Stores.** The in-memory token buckets, the token bucket kept in Redis by a Lua script, and the
  sorted-set sliding window. Each is a class whose methods follow the source step by step and are tied
  to a step function; the in-memory stores, the Redis server and the shared MySQL table carry a ghost log of
  everything done to them, and the window carries, for every entity, the ghost list of all arrivals.
* **Mode control.** The circuit breaker and the REDIS / PEER / LOCAL manager, once as the Go service
  runs it (one atomic step per event) and once as the TypeScript service runs it (any number of Redis
  calls and probes in flight, each synchronous block between two `await`s one event). Both are classes
  with a ghost list of their events, and the invariants of all runs are invariants of their fields.
* **The cluster.** N nodes, each with its manager and bucket, one shared Redis key, gossip, sweeps,
  expiry, warm-ups, calls that resolve late and other entities' traffic, seen from one entity.

Conventions: tokens and times are exact reals, times in milliseconds, except in the sliding window,
whose scores are whole milliseconds. The clock is an argument of every operation that reads it. A remote
call is an argument that says whether it succeeded, and for a failed Redis call whether its script ran.
`Params` selects the dialect of a bucket: Go (`clamped == false`, `IdleOver`), TypeScript (`clamped`,
`IdleAtLeast`), the Lua script (`clamped`), and the reference bucket that never evicts (`Never`).

| file | content |
|---|---|
| Numbers.dfy, Sequences.dfy | reals, rounding, refill arithmetic; runs that grow at the end |
| TokenBucket.dfy, BucketRuns.dfy | one entity's bucket, exact characterisation and whole-run theorems |
| BucketStore.dfy, StoreRuns.dfy | a store of many entities, non-interference, the theorems lifted to stores |
| LocalBucket.dfy, LocalBucketFallback.dfy | the Go and the TypeScript in-memory store |
| RedisBucket.dfy | the Redis server with its log and key deadlines, the token bucket, its two clients, arbitrary and skewed clocks |
| SlidingWindow.dfy | the sliding window, refinement of the full log, optimality |
| CircuitBreaker.dfy | both breakers and the breaker as a function of its history |
| ManagerModel.dfy, Manager.dfy | the Go manager: state machine, theorems, class, peer sync |
| AsyncManager.dfy | the TypeScript manager split at its awaits |
| Gossip.dfy | interleaved sync rounds, their convergence, the peer-sync round as a part of them |
| MySQLFlush.dfy | flush, crash, seed, on the table that all nodes share |
| Cluster.dfy, ClusterNodes.dfy | the cluster, and the managers as its nodes |
| ClusterBounds.dfy, LocalMode.dfy | bounds on what the cluster admits, and what it admits in LOCAL mode exactly |
| GossipRounds.dfy, GossipOverTime.dfy | nodes that gossip: their exact overshoot at one instant, and its bound over time |
| GossipBounds.dfy | the same on runs of the cluster, from its start |
| RetryAfter.dfy | how long a denied client is told to wait |

## What turned out false, and the exact conditions

* The comment at go-throttle/throttle/peer_sync.go:21 promises an overshoot of at most 100 ms worth of
  requests. That bounds one round between exchanges, not a run, and it forgets that a merge neither makes
  an entry nor dates one anew. From any state with all nodes in PEER mode, and full exchanges in between:
  * At one instant, the nodes admit what their common level drops by plus, for each round, what they admit
    beyond that round's drop (`ClusterOvershootsExactly`). They stay within the level they start from if and
    only if in every round at most one node admits anything, and none that does not store the entity after
    another has admitted (`GossipSharesTheLimitExactly`).
  * Over time, with an exchange after every single request, N nodes admit at most their common level, N times
    the refill, and the limit once more for each node that makes its entry after another
    (`GossipOverTimeIsBounded`). They stay within the level and one refill, whatever they are asked, if and
    only if there is at most one node, both where all store the entity (`GossipSharesTheRefillExactly`) and
    where none does (`GossipAfterOutageExactly`).
  * The latter is the ordinary outage: Redis fails other entities' requests until every circuit trips
    (`OutageIsReachable`). If every node then serves once between exchanges, each admits the whole limit
    (`GossipDoesNotShareTheLimit`); after one such round all nodes store the entity
    (`EverywhereIsReachable`).
* Gossip never lets a bucket admit more than it would alone exactly when the permitted costs include at
  most one positive cost (`MergingIsHarmlessExactly`).
* Evicting idle entries after an hour is invisible if and only if an hour refills the limit, 3600 * rate or less
  (`EvictionIsInvisibleExactly`).
* The Go `Retry-After` in PEER and LOCAL mode, with the limit of that mode, is long enough for every level
  and delay if and only if `limit - cost >= rate` or `cost <= rate` (`GoRetryAfterExactly`). In REDIS mode it
  is if and only if, from each number of whole tokens below the cost, the whole seconds to full, at least
  one, earn the rest (`GoRetryAfterInRedisExactly`); that is the weaker condition
  (`InMemoryConditionSufficesInRedis`). For unit costs the first fails for a limit of one and a rate below
  one, the second only if the refill moreover takes a fractional number of seconds
  (`GoRetryAfterForUnitCost`, `GoRetryAfterInRedisForUnitCost`). The TypeScript wait is long enough in every
  mode (`TsRetryAfterSuffices`).
* The comment at go-throttle/throttle/mysql_flush.go:15 says limits survive server bounces. The table's key
  is the entity and the minute, with no node in it, so that a restart restores whatever some node has
  flushed last in its minute (`RestartRestoresTheLastWrite`). An entity survives if and only if some node
  has flushed it in the minute of the restart (`SurvivesOnlyWithinTheMinute`), and the restart grants
  nothing if and only if what it restores is at most what the crashed node had
  (`RestartGrantsNothingExactly`); another node's flush can make it grant (`AnotherFlushMayGrant`).
* The Go manager's invariant holds throughout a run if and only if, after every failure that trips the
  circuit, the circuit is read again before its reset timeout is over (`InvariantHoldsExactly`), and so
  does the TypeScript manager's (`InterleavingsAreSafeExactly`).
* With calls in flight the TypeScript manager keeps "REDIS implies closed" but not the converse
  (`LateAnswerClosesTheCircuitInLocal`), which holds at every boundary of an interleaving if and only if no
  call is answered outside REDIS mode (`ClosedImpliesRedisExactly`). It leaves LOCAL mode though neither a
  peer nor Redis has come back (`LateFailureLeavesLocal`) exactly where a call fails in LOCAL mode with the
  failures at the threshold (`LeavingLocalExactly`).
* The cap of LOCAL mode leaves out calls begun in REDIS mode that resolve late: a failed one is served under
  the global limit, an answered one counts as Redis decided. By what these are granted, and by no more,
  `LocalModeCap` is exceeded.
* The README of the system lists Redis' own clock as its answer to clock skew; the script takes the
  caller's clock. Two servers sharing a key stay within the limit and the refill of the true duration if
  and only if their clocks agree (`SkewIsHarmlessExactly`; unit calls at one instant exceed it for any other
  offset, `SkewAdmitsMore`). `AdmittedUnderAnyClock` and `TwoSkewedServers` bound what skew costs.

## Model

| member | source | states |
|---|---|---|
| TokenBucket.TokensAreTheEnvelope | go-throttle/throttle/local_bucket.go:51-82 | after any run of calls and merges, under any clock, with changing limits and costs, the tokens are the minimum over all earlier calls and merges of their level, plus what the time counted since has earned, minus what was admitted since; a clamped bucket counts forward clock steps only |
| TokenBucket.AdmittedIffEverySuffixFits | go-throttle/throttle/local_bucket.go:58-74 | under any clock, a request is admitted if and only if it fits its own limit and every suffix of the run, the request included, stays within the line its first event drew |
| TokenBucket.SuffixIsAWindow | go-throttle/throttle/local_bucket.go:58-60 | for the unclamped bucket, and for a clamped one on a monotone clock, such a suffix is a window: what was admitted since an event against its level and the elapsed time |
| TokenBucket.StaleAfterAnHour | go-throttle/throttle/local_bucket.go:33-33 | a sweep drops what has been idle for more than 3600000 ms in the Go store, for that long or longer in the TypeScript store |
| BucketRuns.AdmittedCostIsRegulated | go-throttle/throttle/local_bucket.go:58-74 | from any call on, the admitted cost never exceeds that call's limit plus rate times the time counted since, which on a monotone clock is the elapsed time |
| BucketRuns.TokensStayNonnegative | go-throttle/throttle/local_bucket.go:51-82 | on a monotone clock, and in a clamped bucket on any clock, no run takes a bucket below zero |
| BucketRuns.BucketAdmitsMost | go-throttle/throttle/local_bucket.go:58-74 | for unit costs, no selection of the same calls that respects every window admits more than the bucket |
| BucketRuns.BucketLeadsAtEveryPrefix | go-throttle/throttle/local_bucket.go:58-74 | nor is any such selection ahead at any prefix |
| BucketRuns.BucketIsFeasible | go-throttle/throttle/local_bucket.go:58-74 | the bucket's own decisions are such a selection |
| BucketRuns.MergingNeverAdmitsMore | go-throttle/throttle/local_bucket.go:102-114 | when all calls that cost anything cost the same, a bucket that merges arbitrary peer levels has admitted, at every prefix, under any clock, limits and eviction, no more than the same bucket without merges, and neither is its sum of admissions and level higher |
| BucketRuns.KeepingNeverAdmitsMore | go-throttle/throttle/local_bucket.go:86-100 | without merges, a bucket that never evicts has admitted no more than one that does, under any clock and limits |
| BucketRuns.MergingMayKeepMoreTokens | go-throttle/throttle/local_bucket.go:102-114 | its level may nevertheless end up the higher one |
| BucketRuns.MergingMayAdmitMoreForUnequalCosts | go-throttle/throttle/local_bucket.go:102-114 | for any two different positive costs, a run under one constant limit in which the merging bucket admits more |
| BucketRuns.MergingIsHarmlessExactly | go-throttle/throttle/local_bucket.go:102-114 | merging never lets a bucket admit more, on all runs with costs in a given set of costs, if and only if the set holds at most one positive cost |
| BucketRuns.EvictionIsInvisible | go-throttle/throttle/local_bucket.go:86-100 | with limits that an idle hour refills, every call sees the level it would see in a store that never evicts, merges and sweeps included |
| BucketRuns.EvictionIsInvisibleExactly | go-throttle/throttle/local_bucket.go:33-33 | that holds for all runs under a limit if and only if the limit is at most 3600 times the rate |
| BucketRuns.EvictionNeverChangesTheTotal | go-throttle/throttle/local_bucket.go:86-100 | nor does eviction change the total cost admitted |
| BucketRuns.StoresAgree | backend/src/throttle/fallback/local-bucket.fallback.ts:45-60 | the Go, TypeScript and Redis buckets offer the next call the same level after the same calls, each with its own sweeps, expiry and clamping |
| BucketStore.EntitiesDoNotInterfere | go-throttle/throttle/local_bucket.go:47-114 | in any interleaved run of a store, an entity's bucket is the bucket of its own operations alone |
| BucketStore.OnlyOwnOperationsMatter | k6/throttle-load-test.js:4-10 | two runs that agree on an entity's operations leave it the same bucket and the same entry in the next snapshot, whatever other entities did |
| BucketStore.MergedAllIsLowest | go-throttle/throttle/local_bucket.go:104-114 | any number of merges keep the entities and their dates and leave each the lowest of its own level and all levels heard for it |
| StoreRuns.StoreDecidesExactly | go-throttle/throttle/local_bucket.go:47-114 | a store that interleaves entities, merges and evicts admits a request if and only if every suffix of the entity's own operations fits |
| StoreRuns.StoreIsRegulated | go-throttle/throttle/local_bucket.go:47-114 | the cost such a store admits for an entity from any of its calls on stays within that call's limit plus the refill |
| StoreRuns.GossipNeverAdmitsMore | go-throttle/throttle/local_bucket.go:47-114 | a store that interleaves entities, merges and evicts admits, for an entity whose calls share a cost, no more than the same store that hears no peer, under any clock and limits |
| StoreRuns.StoreAdmitsMost | go-throttle/throttle/local_bucket.go:47-100 | without gossip, no selection of the entity's unit calls that respects every window admits more than such a store, whatever it evicts |
| StoreRuns.RedisAgreesWithTheStore | go-throttle/throttle/token_bucket_redis.go:15-40 | a Redis server whose callers read its clock and an in-memory store that saw the same calls offer an entity's next call the same level, each with its own evictions |
| GoLocalBucket.LocalBucket.Consume | go-throttle/throttle/local_bucket.go:47-82 | the in-place update is one step of the logged run; a stored entity is admitted if and only if the cost is within the limit and within its tokens plus rate times the seconds since its refill, a new one within the limit; remaining tokens and reset time belong to what is left |
| GoLocalBucket.FullAgainExactly | go-throttle/throttle/local_bucket.go:62-82 | the reset time is whole seconds ahead, the latest at which the bucket is not yet more than full |
| GoLocalBucket.LocalBucket.Snapshot | go-throttle/throttle/local_bucket.go:86-100 | the deleting loop keeps and reports exactly the entries last refilled at most 3600000 ms ago, as they are |
| GoLocalBucket.LocalBucket.MergePeer | go-throttle/throttle/local_bucket.go:104-114 | the loop lowers exactly the entries both sides know to the lower level, and leaves every date |
| TsLocalBucket.LocalBucketFallback.Consume | backend/src/throttle/fallback/local-bucket.fallback.ts:32-60 | the same for the TypeScript bucket, which never refills backwards; a denied call is told the first whole second at which it would be admitted, an admitted one the first at which the bucket is full again |
| TsLocalBucket.ResetIsExact | backend/src/throttle/fallback/local-bucket.fallback.ts:50-58 | at the reset time, and not one second earlier, the denied call is admitted or the bucket is full, if nothing else happens |
| TsLocalBucket.EarnedExactly | backend/src/throttle/fallback/local-bucket.fallback.ts:51-52 | the wait is the least whole number of seconds that earns what is needed |
| TsLocalBucket.LocalBucketFallback.GetSnapshot | backend/src/throttle/fallback/local-bucket.fallback.ts:64-75 | the same as the Go snapshot, but entries idle for exactly 3600000 ms are dropped |
| TsLocalBucket.LocalBucketFallback.MergePeerSnapshot | backend/src/throttle/fallback/local-bucket.fallback.ts:77-86 | the same as the Go merge |
| RedisBucket.RedisServer.RunScript | go-throttle/throttle/token_bucket_redis.go:15-40 | the Lua script is one logged step of the key, sets its deadline to 3600000 ms ahead on the server's clock, and leaves every other key alone |
| RedisBucket.RedisServer.Drop | go-throttle/throttle/token_bucket_redis.go:37-37 | from its deadline on the server may drop a key, which is logged, and nothing else |
| RedisBucket.RedisTokenBucket.Consume | go-throttle/throttle/token_bucket_redis.go:61-82 | one script run, and the truncated reset time computed from the whole tokens remaining |
| RedisBucket.RedisTokenBucket.SeedFromSnapshot | go-throttle/throttle/token_bucket_redis.go:91-101 | overwrites exactly the entities of the snapshot with their whole tokens, and renews exactly their deadlines |
| RedisBucket.TokenBucketStrategy.Consume | backend/src/throttle/strategies/token-bucket.strategy.ts:64-84 | one script run, and the rounded-up reset time |
| RedisBucket.TokenBucketStrategy.SeedFromSnapshot | backend/src/throttle/strategies/token-bucket.strategy.ts:91-104 | overwrites exactly the entities of the snapshot with their levels as they are, and renews exactly their deadlines |
| RedisBucket.AdmittedUnderAnyClock | go-throttle/throttle/token_bucket_redis.go:21-38 | whatever the callers' clocks do, any stretch of calls admits at most the limit, once more per seeding or expiry, plus rate times the sum of the forward clock steps |
| RedisBucket.ServerIsBounded | go-throttle/throttle/token_bucket_redis.go:21-38 | read on the log of a server that serves all entities: what it admits for one of them has that bound |
| RedisBucket.JumpsAreHalfTheSwitches | go-throttle/throttle/token_bucket_redis.go:63-63 | of the switches between two clocks, at most half, rounded up, jump forward |
| RedisBucket.TwoSkewedServers | go-throttle/throttle/token_bucket_redis.go:21-38 | two servers at a constant offset, with s switches over time T, admit at most limit + rate * (T + ceil(s/2) * offset) |
| RedisBucket.SkewIsHarmlessExactly | go-throttle/throttle/token_bucket_redis.go:21-38 | all runs of two servers at a constant offset stay within limit + rate * T if and only if the offset is zero |
| RedisBucket.SkewAdmitsMore | go-throttle/throttle/token_bucket_redis.go:21-38 | for any other offset a run of unit calls at one instant that exceeds it |
| SlidingWindow.ScriptIsExact | backend/src/throttle/strategies/sliding-window.strategy.ts:33-44 | on the pruned and expiring set the script decides exactly as the full log of admissions does, with the exact remainder, and the set keeps representing the log, though the server's clock may run ahead by the key's extra seconds |
| SlidingWindow.EarlyDropsAreHarmlessExactly | backend/src/throttle/strategies/sliding-window.strategy.ts:40-40 | dropping keys early never changes a decision if and only if it is by at most the time the key outlives the window |
| SlidingWindow.SlidingWindowStrategy.Consume | backend/src/throttle/strategies/sliding-window.strategy.ts:54-69 | the class keeps that up for every entity over every run, whether or not the server has dropped expired keys; other entities' keys stay as they are, and the reset time is one window ahead |
| SlidingWindow.NoWindowIsOverfull | backend/src/throttle/strategies/sliding-window.strategy.ts:8-9 | no window of the configured length, wherever it is placed, holds more than the limit |
| SlidingWindow.GreedyAdmitsMost | backend/src/throttle/strategies/sliding-window.strategy.ts:38-44 | no other selection that respects every window admits more, except where both window and limit are zero |
| SlidingWindow.GreedyLeadsAtEveryPrefix | backend/src/throttle/strategies/sliding-window.strategy.ts:38-44 | nor is any ahead at any prefix: the j-th admission comes no later |
| CircuitBreaker.CircuitIsItsHistory | go-throttle/throttle/circuit_breaker.go:52-90 | under any clock the breaker is closed exactly while fewer failures trail than the threshold, and half-open exactly when a read since the latest failure saw the timeout over |
| CircuitBreaker.ClosedBelowTheThreshold | go-throttle/throttle/circuit_breaker.go:74-83 | with a threshold of at least one it is closed exactly while fewer failures trail than the threshold |
| CircuitBreaker.ReadIsAFunctionOfTheClock | go-throttle/throttle/circuit_breaker.go:52-62 | on a monotone clock the value read depends only on the trailing failures, the latest failure time and now |
| CircuitBreaker.ForgettingIsInvisible | backend/src/throttle/circuit-breaker.service.ts:47-71 | the TypeScript breaker, which also clears its failure time, cannot be told apart |
| CircuitBreaker.CircuitBreaker.State | go-throttle/throttle/circuit_breaker.go:52-62 | the getter is one logged step of the history |
| CircuitBreaker.CircuitBreaker.RecordFailure | go-throttle/throttle/circuit_breaker.go:74-83 | so is a failure |
| CircuitBreaker.CircuitBreakerService.RecordFailure | backend/src/throttle/circuit-breaker.service.ts:56-65 | so is a failure in the TypeScript breaker, whose value is that of its logged history |
| CircuitBreaker.CircuitBreakerService.IsTheGoBreaker | backend/src/throttle/circuit-breaker.service.ts:29-71 | its fields hold the state and count that the Go breaker has after the same history |
| ManagerModel.InvariantOfEveryRun | go-throttle/throttle/manager.go:151-259 | on every run whose trips are prompt, REDIS mode, a closed circuit and fewer trailing Redis failures than the threshold coincide, HALF_OPEN is never reached, LOCAL needs five peer failures, and the flusher runs exactly in LOCAL |
| ManagerModel.InvariantHoldsExactly | go-throttle/throttle/manager.go:157-165 | the invariant holds at every point of a run if and only if every failure that trips the circuit is followed by a read within the reset timeout |
| ManagerModel.OneEvent | go-throttle/throttle/manager.go:157-165 | one event keeps the invariant unless it is such a slow trip, which leaves REDIS mode over a half-open circuit |
| ManagerModel.CounterIsItsHistory | go-throttle/throttle/manager.go:193-202 | the peer counter is the number of misses since a peer or Redis was last heard |
| ManagerModel.ModeChangesExactly | go-throttle/throttle/manager.go:151-234 | a run enters LOCAL exactly at a miss in PEER mode that is the fifth in a row or later, leaves it exactly where a peer answers or a probe goes through, leaves REDIS exactly where a failure trips the circuit, and enters it exactly where a probe goes through |
| ManagerModel.RouteOfEveryRun | go-throttle/throttle/manager.go:137-166 | at any point of a run Redis answers a check exactly where it answers and fewer failures trail than trip the circuit; any other check is served locally, under globalLimit / nodeCount in LOCAL mode and the global limit elsewhere |
| ManagerModel.SharesFillTheLimit | go-throttle/throttle/manager.go:261-263 | the shares of as many nodes as configured add up to at most the global limit, and one more token each would exceed it |
| ManagerModel.ProbeRecovers | go-throttle/throttle/manager.go:209-222 | a probe that goes through takes any node back to REDIS mode over a closed circuit without failures; one that does not changes nothing |
| ManagerModel.PeerReachesLocal | go-throttle/throttle/manager.go:193-198 | a node in PEER mode without recoveries is in LOCAL mode exactly from the point where its failures add up to five |
| ManagerModel.FewMissesNeverLocal | go-throttle/throttle/manager.go:193-205 | without five misses in a row a node never enters LOCAL, whatever else happens |
| ManagerModel.MissesAcrossRounds | go-throttle/throttle/peer_sync.go:68-77 | rounds that each reach someone leave at most 2 * (peers - 1) misses in a row |
| ManagerModel.ThreePeersNeverLocal | go-throttle/throttle/peer_sync.go:68-77 | with at most three peers, reaching one per round keeps a node out of LOCAL |
| ManagerModel.FourPeersMayGoLocal | go-throttle/throttle/peer_sync.go:68-77 | with four or more it does not |
| Manager.ThrottleManager.InvariantHolds | go-throttle/throttle/manager.go:151-259 | after any sequence of operations whose trips are prompt the fields of a manager satisfy that invariant |
| Manager.ThrottleManager.Check | go-throttle/throttle/manager.go:137-176 | one request moves the state machine by one step; in PEER mode and after Redis fails it is one consumption of the local bucket under globalLimit, in LOCAL mode under globalLimit / nodeCount, and otherwise Redis's answer; the script touches no other key |
| Manager.LocalAnswerIsTrue | go-throttle/throttle/manager.go:180-189 | a local answer is the decision on what the bucket holds, the whole tokens left in it, and the last whole second at which it is not more than full |
| Manager.RedisAnswerIsTrue | go-throttle/throttle/token_bucket_redis.go:61-82 | so is an answer from Redis, on the shared key and counted from its whole tokens |
| Manager.ThrottleManager.ProbeRedis | go-throttle/throttle/manager.go:209-234 | a probe outside REDIS mode whose ping succeeds writes, for every entry last refilled at most an hour ago, its whole tokens at the time after the jitter, and no other key; where the pipeline fails, exactly those of them that have landed; it recovers only if both calls succeed |
| Manager.RecoveryGrantsNothing | go-throttle/throttle/token_bucket_redis.go:91-101 | a recovered Redis never offers an entity more than the seeding node would, and less than one token less than that node held |
| Manager.ThrottleManager.RecordPeerFailure | go-throttle/throttle/manager.go:193-198 | a missed peer call is one recorded step of the run, to LOCAL on the fifth in PEER mode |
| Manager.ThrottleManager.TransitionTo | go-throttle/throttle/manager.go:238-259 | sets the mode and the flusher together |
| Manager.PeerSync.SyncOnce | go-throttle/throttle/peer_sync.go:64-78 | a round keeps exactly the entries last refilled at most an hour ago, with their dates, each at the lowest of its own level and of what the peers that answer say; it sends the levels from before, and reports each peer to the manager in order |
| Manager.InternalSync | go-throttle/handler/throttle_handler.go:48-64 | an authorized push is merged before the answer is snapshotted, an unauthorized one changes nothing |
| AsyncManager.SafeUpTo | backend/src/throttle/throttle-manager.service.ts:81-138 | at every await boundary of every interleaving whose trips are prompt, REDIS mode implies a closed circuit, HALF_OPEN is never reached, and the flusher runs exactly in LOCAL mode |
| AsyncManager.InterleavingsAreSafeExactly | backend/src/throttle/throttle-manager.service.ts:92-97 | an interleaving is safe at every boundary if and only if every failure that trips the circuit is read within the reset timeout |
| AsyncManager.CircuitCountsFailures | backend/src/throttle/throttle-manager.service.ts:81-138 | in every interleaving the circuit is closed exactly while fewer calls than the threshold have failed since the latest answer or recovery, in the order of resolution |
| AsyncManager.ClosedImpliesRedisExactly | backend/src/throttle/throttle-manager.service.ts:87-90 | a closed circuit implies REDIS mode at every boundary if and only if no call is answered in another mode |
| AsyncManager.LeavingLocalExactly | backend/src/throttle/throttle-manager.service.ts:92-97 | an event takes the node out of LOCAL with neither a peer nor Redis back if and only if it is a call failing in LOCAL with the failures at the threshold |
| AsyncManager.LateAnswerClosesTheCircuitInLocal | backend/src/throttle/throttle-manager.service.ts:87-90 | an interleaving that ends in LOCAL mode with a closed circuit and no peer failures |
| AsyncManager.LateFailureLeavesLocal | backend/src/throttle/throttle-manager.service.ts:92-97 | an interleaving in which a late Redis failure takes a node from LOCAL to PEER |
| AsyncManager.CounterIsItsHistory | backend/src/throttle/throttle-manager.service.ts:112-121 | in every interleaving the peer counter is the number of misses since a peer or Redis was last heard |
| AsyncManager.ModeChangesExactly | backend/src/throttle/throttle-manager.service.ts:81-138 | an interleaving enters LOCAL exactly at a miss in PEER mode that is the fifth in a row or later, leaves it exactly where a peer answers, a warm-up goes through or a late failure trips, and enters REDIS exactly where a warm-up goes through |
| AsyncManager.ProbeRecovers | backend/src/throttle/throttle-manager.service.ts:127-140 | from any other mode a probe leads back to REDIS over a closed circuit, through its ping and its seeding, and not before |
| AsyncManager.LocalAnswerIsTrue | backend/src/throttle/throttle-manager.service.ts:69-98 | a local answer is the decision on what the bucket holds, the whole tokens left in it, and the first whole second that changes the answer |
| AsyncManager.ThrottleManagerService.InvariantHolds | backend/src/throttle/throttle-manager.service.ts:81-138 | the fields of the service satisfy that at every await boundary, whatever has resolved in whatever order |
| AsyncManager.ThrottleManagerService.BeginCheck | backend/src/throttle/throttle-manager.service.ts:69-88 | the block up to the first await is one step; a request not waiting for Redis has the decision, remainder and reset time of the local bucket under the mode's limit |
| AsyncManager.ThrottleManagerService.CallFailed | backend/src/throttle/throttle-manager.service.ts:92-98 | so is the block after a failed call, which serves the request under the global limit in whatever mode, with the bucket's own clock reading |
| AsyncManager.ThrottleManagerService.SeedAnswered | backend/src/throttle/throttle-manager.service.ts:132-134 | so is the block after the warm-up |
| Gossip.GossipKeeps | go-throttle/throttle/peer_sync.go:64-78 | in every interleaving of rounds, messages lost, repeated and delayed across rounds included, gossip neither creates nor loses entities, never takes a level below the initial minimum, and brings it down to every level heard of |
| Gossip.GossipConverges | go-throttle/throttle/peer_sync.go:64-78 | once all nodes but perhaps one have completed a round, all hold the initial minimum |
| Gossip.RoundInTheNet | go-throttle/throttle/peer_sync.go:64-78 | in any interleaving, a snapshot followed by the merges of the answers takes a node exactly to the store that the peer-sync round leaves, and changes no other node |
| MySQLFlush.RestartRestoresTheLastWrite | go-throttle/throttle/mysql_flush.go:89-122 | after any flushes of any nodes into the shared table, a restart restores each entity to the whole tokens of its latest successful flush of that minute, at most the node limit, or else to an older live row, or not at all |
| MySQLFlush.RestartGrantsNothingExactly | go-throttle/throttle/mysql_flush.go:101-126 | at no later time does the restarted node offer an entity more than the crashed one would have if and only if what it restores is at most what the crashed node had |
| MySQLFlush.AnotherFlushMayGrant | go-throttle/throttle/mysql_flush.go:89-93 | a drained node restarts with the level that another node flushed a second later |
| MySQLFlush.FlushCrashSeed | go-throttle/throttle/mysql_flush.go:74-126 | a node's own flush, a crash and a restart in its minute with no flush in between restore every flushed entity to its whole tokens, at most the node limit: nothing is granted, less than one token lost |
| MySQLFlush.SurvivesOnlyWithinTheMinute | go-throttle/throttle/mysql_flush.go:101-106 | after any flushes of any nodes, and where no older row of the minute is live, an entity survives a restart if and only if some node has flushed it in the minute of the restart |
| MySQLFlush.MySQLFlusher.Flush | go-throttle/throttle/mysql_flush.go:74-98 | the loop is one logged flush of the shared table: it upserts exactly the snapshot, except the rows the database refuses |
| MySQLFlush.MySQLFlusher.Seed | go-throttle/throttle/mysql_flush.go:101-126 | the loop seeds exactly the live rows, each as one empty consumption |
| MySQLFlush.SeedingOnlyLowers | go-throttle/throttle/mysql_flush.go:113-122 | on a store that is not empty, seeding keeps what it has no row for, and leaves the rest the lower of its own refilled level and what its row leaves of the node limit |
| MySQLFlush.MinuteTurns | go-throttle/throttle/mysql_flush.go:128-132 | a row belongs to the minute from one multiple of 60 seconds to the next |
| MySQLFlush.LiveForTwoMinutes | go-throttle/throttle/mysql_flush.go:101-106 | only rows of the current minute that are less than two minutes old are read |
| ClusterBounds.ClusterConservation | go-throttle/throttle/manager.go:137-234 | over any stretch of any run of N nodes with k warm-ups, late calls and other entities' traffic included, at most (N + k + 1) * G + (N + 1) * rate * T is admitted for an entity |
| ClusterBounds.LocalModeCap | go-throttle/throttle/manager.go:143-144 | while all nodes are in LOCAL mode, at most N * floor(G / count) + N * rate * T is admitted beside what calls in flight from REDIS mode are granted, though the buckets may enter it holding up to G |
| ClusterBounds.LocalModeStaysGlobal | go-throttle/throttle/manager.go:261-263 | with as many nodes as configured, at most G + N * rate * T beside the same |
| ClusterBounds.LateLeavesLocalBudget | backend/src/throttle/throttle-manager.service.ts:92-98 | a call that fails late in LOCAL mode, served under the global limit, costs the cap no more than what it is itself granted |
| LocalMode.LocalIsReachable | go-throttle/throttle/manager.go:193-198 | from an outage, five missed calls at each node lead to LOCAL mode everywhere with no node storing the entity |
| LocalMode.LocalModeIsExact | go-throttle/throttle/manager.go:143-144 | of any unit requests at one instant each such node admits as many as it is asked, up to globalLimit / nodeCount |
| LocalMode.LocalModeCapIsAttained | go-throttle/throttle/manager.go:143-144 | asked at least so often, n nodes admit exactly n * (globalLimit / nodeCount) |
| ClusterNodes.Check | go-throttle/throttle/manager.go:137-176 | a manager's check moves any cluster it is a node of by the cluster's request, which counts the cost as admitted exactly where the client is told so; to another entity it is traffic elsewhere |
| ClusterNodes.ProbeRedis | go-throttle/throttle/manager.go:209-234 | its warm-up is the cluster's, from the snapshot to the seeding |
| ClusterNodes.HandleReply | go-throttle/throttle/peer_sync.go:68-77 | its handling of a peer's answer is one merge and one peer call of the cluster |
| ClusterNodes.Snapshot | go-throttle/throttle/peer_sync.go:64-66 | its snapshot is the cluster's sweep of that node, and reports the node's level |
| ClusterNodes.DropKey | go-throttle/throttle/token_bucket_redis.go:37-37 | where the key was written with the server's own time, the server's removal of it is the cluster's expiry |
| GossipBounds.OutageIsReachable | go-throttle/throttle/manager.go:157-166 | from the start, Redis failing other entities' requests until every circuit trips leads to PEER mode everywhere with no node storing the entity |
| GossipBounds.ClusterOvershootsExactly | go-throttle/throttle/peer_sync.go:20-21 | rounds of unit requests at one instant with full exchanges between them admit exactly what the common level drops by, plus the sum over rounds of what is admitted beyond the drop; nodes that do not store the entity included |
| GossipBounds.GossipSharesTheLimitExactly | go-throttle/throttle/peer_sync.go:20-21 | at one instant the nodes stay within the level they start from, one of them using up what is left, if and only if in every round at most one node admits anything, and none without an entry after another has admitted |
| GossipBounds.GossipOverTimeIsBounded | go-throttle/throttle/peer_sync.go:64-78 | over time, with an exchange after every request, N nodes admit at most their common level, N times the refill, and the limit once more for each node that makes its entry after another |
| GossipBounds.GossipSharesTheRefillExactly | go-throttle/throttle/peer_sync.go:64-78 | N nodes that all store the entity stay within their level and one refill on all such runs if and only if there is at most one of them |
| GossipBounds.GossipAfterOutageExactly | go-throttle/throttle/peer_sync.go:64-78 | and so do N nodes after an outage, within the global limit and one refill |
| GossipBounds.EverywhereIsReachable | go-throttle/throttle/peer_sync.go:64-78 | after an outage and one round in which every node serves once, all nodes store the entity at one level |
| GossipBounds.GossipDoesNotShareTheLimit | go-throttle/throttle/peer_sync.go:20-21 | after an outage, when each of n nodes serves once between exchanges, they admit n times the limit at one instant |
| RetryAfter.TsRetryAfterSuffices | backend/src/throttle/guards/entity-throttle.guard.ts:58-59 | a client denied in any mode that waits the seconds it is told is admitted |
| RetryAfter.TsRetryAfterIsLeast | backend/src/throttle/guards/entity-throttle.guard.ts:58-59 | it is told the least number of seconds that reaches the reset time |
| RetryAfter.GoRetryAfterIsNext | go-throttle/handler/throttle_handler.go:29-29 | the Go client is told the least number of seconds that passes the reset time |
| RetryAfter.GoRetryAfterExactly | go-throttle/handler/throttle_handler.go:29-29 | in PEER and LOCAL mode the Go wait is long enough for every level and delay if and only if limit - cost >= rate or cost <= rate |
| RetryAfter.GoRetryAfterForUnitCost | go-throttle/handler/throttle_handler.go:24-29 | for the unit cost the middleware charges, it fails there only for a limit of one with a rate below one |
| RetryAfter.GoRetryAfterInRedisExactly | go-throttle/throttle/token_bucket_redis.go:78-79 | in REDIS mode it is long enough for every level and delay if and only if, from each number of whole tokens below the cost, the whole seconds to full, at least one, earn the rest |
| RetryAfter.InMemoryConditionSufficesInRedis | go-throttle/throttle/token_bucket_redis.go:78-79 | where it suffices in memory, it suffices in REDIS mode |
| RetryAfter.GoRetryAfterInRedisForUnitCost | go-throttle/throttle/token_bucket_redis.go:78-79 | for unit costs it fails there only for a limit of one that takes more than a second, and no whole number of seconds, to refill |
| RetryAfter.GoRetryAfterSufficesInRedis | go-throttle/throttle/token_bucket_redis.go:78-79 | under that condition a client that the script denies and that waits as told is admitted by the script |

## Left out

- HTTP, JSON, authentication and entity-id extraction, configuration, logging, metrics and the wiring of the services: input and output around the engine.
- Floating-point rounding, and the string form in which Redis stores numbers: tokens and refill are exact reals.
- Integer widths: `peerFailures` and the failure count are unbounded, while the Go peer counter is 32 bits wide.
- Locks and goroutine interleavings inside one Go operation: each public Go operation is one atomic event; a mode read that is acted on later without a lock is modelled in the cluster only, as a call that resolves late.
- Bucket entries as shared heap objects: the store maps ids to entry values that are reassigned. No entry is shared outside its map in the source.
- MySQL's own clock: the minute of a row and the time of its update are read off one clock per flush.
- Redis LRU eviction and failover; key expiry by deadline is modelled.
- The background tickers and channels of the probe, the peer-sync loop and the flusher: their bodies are operations that may happen at any time.
- `flush` and `seedFromMySQL` of the TypeScript flusher: the same arithmetic as the Go flusher; only its timer is modelled.
- The TypeScript `syncWithPeers` loop and `sync` handler: the same snapshot and merges as the Go ones, without callbacks; `recordPeerFailure` and `recordPeerSuccess` are free events there because nothing calls them.
- The Bull queue, job priorities and MySQL backpressure that the system's README mentions: their code is not part of this model.
- SlidingWindow.GreedyAdmitsMost: excludes a window and a limit both of zero, where an empty window forbids nothing.
- Gossip.GossipConverges: nobody consumes meanwhile, and no entry goes stale.
- GossipBounds.GossipOverTimeIsBounded: an exchange after every request; ClusterBounds.ClusterConservation bounds runs with any gossip.
- SlidingWindow.ScriptIsExact: assumes a nondecreasing clock and unique request ids, as the script's callers provide them.

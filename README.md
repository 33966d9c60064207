# Ribbon load balancer: subset filter and response-time weighted rule

A Dafny model of two stateful algorithms from the Ribbon client-side load balancer.

- **`ServerListSubsetFilter`** narrows the zone-affinity filter's output to a bounded,
  sticky subset. Each pass starts from the previous subset.
  - It drops members that left the pool, and members whose active-request or failure
    count exceeds its threshold.
  - It force-evicts a quota of the least healthy survivors, ordered by `compare`.
  - It refills to the target size with `randomChoose` from the healthy candidates. When
    those are too few, it refills from the whole zone-filtered pool.
  - It stores the result as `currentSubset`.
- **`ResponseTimeWeightedRule`** keeps a cumulative weight table.
  - Entry `i` is the sum, over servers `j <= i`, of the total average response time
    less server `j`'s average.
  - `maintainWeights` recomputes the table under a single-flight guard.
  - `choose` draws a point below the table's total and picks the first server whose
    cumulative weight reaches it. While the total is below 0.001 it uses round robin
    instead. It retries until it finds an alive server.

Modules:

- `Servers` (`servers.dfy`): servers, the statistics map (a server without an entry
  reads as all-zero statistics, as `getSingleServerStat` creates one), and facts about
  duplicate-free lists.
- `SubsetFilter` (`subset_filter.dfy`): the filter. The prune loop over the previous
  subset, forced eviction and the in-place partial shuffle on an `array` are methods;
  `compare`, the sort and the quota arithmetic are functions. The class
  `ServerListSubsetFilter` holds `currentSubset`.
- `WeightedRule` (`weighted_rule.dfy`): the rule.
  - The two loops of `maintainWeights` are methods proved against the functions `Sum`,
    `Contributions` and `PrefixSums`.
  - The selection scan is a method proved against `FirstIndexAtLeast`.
  - The class `ResponseTimeWeightedRule` holds `accumulatedWeights` and the guard
    `serverWeightAssignmentInProgress`.

Parameters stand in for what the core receives from collaborators:

- Live statistics are a `map<Server, ServerStats>`.
- The zone-affinity super filter is a function `seq<Server> -> seq<Server>`.
- Random draws are oracles.
  - `nextInt(size)` is `NextInt(rnd(i), size)`.
  - The `k`-th `nextDouble()` is `draws[k]`.
- `RoundRobinRule.choose` is `roundRobin(k)`, its pick at attempt `k`.
- `Server.isAlive` is a predicate.

## Model

| member | source | states |
|---|---|---|
| Servers.ListOf | ribbon-loadbalancer/src/main/java/com/netflix/loadbalancer/ServerListSubsetFilter.java:164 | The list built from a set holds each member exactly once and nothing else. |
| SubsetFilter.Unhealthy | ribbon-loadbalancer/src/main/java/com/netflix/loadbalancer/ServerListSubsetFilter.java:113-114 | The pruning test: the active-request count exceeds the connection threshold, or the failure count exceeds the failure threshold. `Prune` and `IsPassOutcome` are stated through it. |
| SubsetFilter.Compare | ribbon-loadbalancer/src/main/java/com/netflix/loadbalancer/ServerListSubsetFilter.java:194-205 | Negative exactly when the first server is in worse health (more failures, or equal failures and more active requests). Positive exactly when the second is. |
| SubsetFilter.CompareIsAntisymmetricAndTransitive | ribbon-loadbalancer/src/main/java/com/netflix/loadbalancer/ServerListSubsetFilter.java:195-205 | `compare(a, b) == -compare(b, a)`, and the order is transitive. |
| SubsetFilter.SortByHealth | ribbon-loadbalancer/src/main/java/com/netflix/loadbalancer/ServerListSubsetFilter.java:140-141 | The sorted list is a permutation of its input and is in `compare` order, worst health first. |
| SubsetFilter.Prune | ribbon-loadbalancer/src/main/java/com/netflix/loadbalancer/ServerListSubsetFilter.java:105-120 | After the loop the subset holds exactly the previous members still in the pool and healthy. The candidates are the pool less the previous members that are unhealthy. |
| SubsetFilter.TruncateToInt | ribbon-loadbalancer/src/main/java/com/netflix/loadbalancer/ServerListSubsetFilter.java:126 | The `(int)` cast truncates toward zero: within one of its argument, on the zero side. |
| SubsetFilter.MinElimination | ribbon-loadbalancer/src/main/java/com/netflix/loadbalancer/ServerListSubsetFilter.java:126 | `minElimination`: the target times the percentage, cast to `int` as `TruncateToInt` states. |
| SubsetFilter.ForceEliminationCount | ribbon-loadbalancer/src/main/java/com/netflix/loadbalancer/ServerListSubsetFilter.java:122-136 | Over target, the quota is the surplus. Otherwise it is `max(0, trunc(target * percent) - numEliminated)`. It never exceeds the subset size. |
| SubsetFilter.DefaultQuotaIsTwo | ribbon-loadbalancer/src/main/java/com/netflix/loadbalancer/ServerListSubsetFilter.java:45-46 | With the defaults (size 20, 10%), nothing pruned and 2 to 20 members, the quota is exactly 2. |
| SubsetFilter.ForcedEvictionReachesTarget | ribbon-loadbalancer/src/main/java/com/netflix/loadbalancer/ServerListSubsetFilter.java:128-136 | After forced eviction the subset is at most the target, exactly the target when it was over. A negative target evicts everything. |
| SubsetFilter.ForceEliminate | ribbon-loadbalancer/src/main/java/com/netflix/loadbalancer/ServerListSubsetFilter.java:139-145 | The evicted servers are exactly the quota's number of members of the subset, and each is no healthier than any member that stays. |
| SubsetFilter.PruneAndEvict | ribbon-loadbalancer/src/main/java/com/netflix/loadbalancer/ServerListSubsetFilter.java:102-145 | After pruning and forced eviction, the subset is the survivors less the evicted servers. The evicted servers are the quota's number of survivors, worst health first. The candidates are the pool less the unhealthy and evicted members. The candidates outside the subset are exactly the pool servers that were not in the previous subset. The subset is within the target, and empty for a negative one. |
| SubsetFilter.NextInt | ribbon-loadbalancer/src/main/java/com/netflix/loadbalancer/ServerListSubsetFilter.java:181 | The swap index drawn is below the list size. |
| SubsetFilter.PartialShuffle | ribbon-loadbalancer/src/main/java/com/netflix/loadbalancer/ServerListSubsetFilter.java:180-185 | The list after the first `k` swaps of the loop, swap `i` exchanging entry `i` with the `i`-th drawn index. It keeps the length. `RandomChoose` is proved against it, and `PartialShuffleIsPermutation` proves it is a permutation. |
| SubsetFilter.PartialShuffleIsPermutation | ribbon-loadbalancer/src/main/java/com/netflix/loadbalancer/ServerListSubsetFilter.java:180-185 | Any number of the swaps leaves the list a permutation of the input. |
| SubsetFilter.RandomChoose | ribbon-loadbalancer/src/main/java/com/netflix/loadbalancer/ServerListSubsetFilter.java:175-187 | When `toChoose < 0` or `toChoose >= size`, the whole list is returned and the array is untouched. Otherwise the array ends as the partial shuffle of its old contents, and the prefix of length `toChoose` is returned. |
| SubsetFilter.RandomChooseChoosesDistinctInputs | ribbon-loadbalancer/src/main/java/com/netflix/loadbalancer/ServerListSubsetFilter.java:175-187 | From a duplicate-free list, the chosen prefix has length `toChoose`, has no duplicates and holds only input elements. |
| SubsetFilter.Replenish | ribbon-loadbalancer/src/main/java/com/netflix/loadbalancer/ServerListSubsetFilter.java:147-161 | The fallback is taken exactly when the healthy candidates outside the subset are fewer than needed. Without it, exactly the shortfall is chosen from those candidates. With it, the shortfall or the whole rest of the pool is chosen, whichever is smaller. All chosen servers are new to the subset. |
| SubsetFilter.CandidatesOutsideSubset | ribbon-loadbalancer/src/main/java/com/netflix/loadbalancer/ServerListSubsetFilter.java:150 | Once the subset is removed, the remaining candidates are exactly the pool servers outside the previous subset; this is what decides the fallback. |
| SubsetFilter.RefillSize | ribbon-loadbalancer/src/main/java/com/netflix/loadbalancer/ServerListSubsetFilter.java:148-161 | After the refill the subset has `min(target, pool size)` members for a non-negative target, and none for a negative one. |
| SubsetFilter.FilterPass | ribbon-loadbalancer/src/main/java/com/netflix/loadbalancer/ServerListSubsetFilter.java:96-164 | One pass satisfies `IsPassOutcome` (see the next row). |
| SubsetFilter.NoFallbackDropsEvicted | ribbon-loadbalancer/src/main/java/com/netflix/loadbalancer/ServerListSubsetFilter.java:147-156 | Take any pass outcome whose shortfall fits the servers outside the previous subset. It does not fall back, and no unhealthy or force-evicted member is in the result. |
| SubsetFilter.HealthyPassChurns | ribbon-loadbalancer/src/main/java/com/netflix/loadbalancer/ServerListSubsetFilter.java:122-161 | Take a previous subset that is healthy, in the pool and within the target, with `trunc(size * percent) >= 1`, and enough servers outside it to make up the shortfall. Then at least `trunc(size * percent)` of its members are replaced, so the result differs from it. |
| SubsetFilter.HealthyPassChurnsExample | ribbon-loadbalancer/src/main/java/com/netflix/loadbalancer/ServerListSubsetFilter.java:122-161 | A concrete pass meeting those conditions: target 1, percentage 1, a healthy member `a` and another server `b`. `a` is evicted and `b` takes its place. |
| SubsetFilter.DefaultPassChurns | ribbon-loadbalancer/src/main/java/com/netflix/loadbalancer/ServerListSubsetFilter.java:45-48 | With the defaults, a full healthy subset of 20 and at least two other servers in the pool, at least two members are replaced. |
| SubsetFilter.ServerListSubsetFilter.constructor | ribbon-loadbalancer/src/main/java/com/netflix/loadbalancer/ServerListSubsetFilter.java:39 | The filter starts with an empty current subset. |
| SubsetFilter.ServerListSubsetFilter.GetFilteredListOfServers | ribbon-loadbalancer/src/main/java/com/netflix/loadbalancer/ServerListSubsetFilter.java:96-165 | The returned list has no duplicates and equals the new `currentSubset`, which is a pass outcome of the old one over the distinct zone-filtered list. Its laws are listed below the table. |
| WeightedRule.TotalResponseTime | ribbon-loadbalancer/src/main/java/com/netflix/loadbalancer/ResponseTimeWeightedRule.java:232-237 | The first loop computes the sum of the servers' average response times. |
| WeightedRule.AccumulateWeights | ribbon-loadbalancer/src/main/java/com/netflix/loadbalancer/ResponseTimeWeightedRule.java:240-249 | The second loop yields one entry per server. Entry `i` is the sum of `total - avg_j` over `j <= i`. |
| WeightedRule.ContributionPrefixSum | ribbon-loadbalancer/src/main/java/com/netflix/loadbalancer/ResponseTimeWeightedRule.java:244-248 | The first `m` contributions sum to `m * total` less the first `m` averages. |
| WeightedRule.WeightTableEntry | ribbon-loadbalancer/src/main/java/com/netflix/loadbalancer/ResponseTimeWeightedRule.java:232-249 | Entry `m - 1` of the table is `m * total` less the sum of the first `m` averages. |
| WeightedRule.WeightTableLast | ribbon-loadbalancer/src/main/java/com/netflix/loadbalancer/ResponseTimeWeightedRule.java:240-249 | The last entry, the total weight, is `(n - 1) * total`, written as `n * total - total`. |
| WeightedRule.WeightTableNonDecreasing | ribbon-loadbalancer/src/main/java/com/netflix/loadbalancer/ResponseTimeWeightedRule.java:244-249 | With non-negative averages every contribution is non-negative and the table is non-decreasing. |
| WeightedRule.WeightTableExample | ribbon-loadbalancer/src/main/java/com/netflix/loadbalancer/ResponseTimeWeightedRule.java:232-249 | Averages 10, 30 and 40 give the table 70, 120, 160. |
| WeightedRule.EqualAveragesTotalWeight | ribbon-loadbalancer/src/main/java/com/netflix/loadbalancer/ResponseTimeWeightedRule.java:246 | Equal averages `a` over `n` servers give total weight `n*n*a - n*a`. That is zero exactly when `n == 1` or `a == 0`. |
| WeightedRule.MaxTotalWeight | ribbon-loadbalancer/src/main/java/com/netflix/loadbalancer/ResponseTimeWeightedRule.java:162 | The total weight: the last entry, or zero for an empty table. For a non-decreasing table it bounds every entry. |
| WeightedRule.MaxTotalWeightOfTable | ribbon-loadbalancer/src/main/java/com/netflix/loadbalancer/ResponseTimeWeightedRule.java:162 | The total of a published table is zero for no servers and `(n - 1) * total` otherwise. With non-negative averages it bounds every entry. |
| WeightedRule.ScanFrom | ribbon-loadbalancer/src/main/java/com/netflix/loadbalancer/ResponseTimeWeightedRule.java:159-178 | The scan settles on an index inside the table at or after its start, or on the default 0. |
| WeightedRule.FirstIndexAtLeastIsFirst | ribbon-loadbalancer/src/main/java/com/netflix/loadbalancer/ResponseTimeWeightedRule.java:159-178 | When some entry reaches the point, the scan picks the first such index. When none does, it picks 0. |
| WeightedRule.SelectServerIndex | ribbon-loadbalancer/src/main/java/com/netflix/loadbalancer/ResponseTimeWeightedRule.java:169-178 | The loop with its `break` computes `FirstIndexAtLeast`. |
| WeightedRule.AttemptPick | ribbon-loadbalancer/src/main/java/com/netflix/loadbalancer/ResponseTimeWeightedRule.java:159-180 | One pass of the retry loop. An index fault happens only above the threshold, with a table longer than the list. A weighted pick is always a member of the server list. |
| WeightedRule.NoFaultWhenTableFits | ribbon-loadbalancer/src/main/java/com/netflix/loadbalancer/ResponseTimeWeightedRule.java:159-180 | A table no longer than the server list never makes `allList.get` fail. |
| WeightedRule.ScaledDrawInRange | ribbon-loadbalancer/src/main/java/com/netflix/loadbalancer/ResponseTimeWeightedRule.java:168 | A draw in `[0, 1)` scaled by a positive total lies in `[0, total)`. |
| WeightedRule.ScanHitsInterval | ribbon-loadbalancer/src/main/java/com/netflix/loadbalancer/ResponseTimeWeightedRule.java:168-178 | A point not above the last entry falls in `(weights[i-1], weights[i]]` for the index `i` the scan picks. |
| WeightedRule.WeightedPickHitsInterval | ribbon-loadbalancer/src/main/java/com/netflix/loadbalancer/ResponseTimeWeightedRule.java:162-180 | Take a total of at least 0.001, a draw in `[0, 1)` and a table that fits the list. The attempt yields the server whose interval holds the scaled draw, and that index is inside the table. |
| WeightedRule.ResponseTimeWeightedRule.constructor | ribbon-loadbalancer/src/main/java/com/netflix/loadbalancer/ResponseTimeWeightedRule.java:82-95 | The no-argument constructor leaves the field initializers in place: an empty table and a free guard. |
| WeightedRule.ResponseTimeWeightedRule.SetLoadBalancer | ribbon-loadbalancer/src/main/java/com/netflix/loadbalancer/ResponseTimeWeightedRule.java:101-120 | Handing the rule a balancer runs the initial recomputation, with exactly the outcome `maintainWeights` has. |
| WeightedRule.ResponseTimeWeightedRule.SetWeights | ribbon-loadbalancer/src/main/java/com/netflix/loadbalancer/ResponseTimeWeightedRule.java:262-264 | Publishes the given table and changes nothing else. |
| WeightedRule.ResponseTimeWeightedRule.MaintainWeights | ribbon-loadbalancer/src/main/java/com/netflix/loadbalancer/ResponseTimeWeightedRule.java:212-259 | See the `maintainWeights` laws below the table. |
| WeightedRule.ResponseTimeWeightedRule.Choose | ribbon-loadbalancer/src/main/java/com/netflix/loadbalancer/ResponseTimeWeightedRule.java:139-194 | See the `choose` laws below the table. |

`IsPassOutcome`, the state a pass of `getFilteredListOfServers` must reach:

- The result lies within the distinct zone-filtered pool, so members that left the pool are gone.
- The forced evictions are the quota's number of survivors, worst health first.
- The refill falls back to the whole pool exactly when the pool servers outside the previous subset are fewer than the shortfall.
- Survivors that were not force-evicted stay (stickiness).
- Unless the refill fell back to the whole pool, no unhealthy or force-evicted member is in the result.
- The size is `min(target, pool size)` for a non-negative target, and zero for a negative one.

`maintainWeights`:

- Without a balancer, or while the guard is held, neither the table nor the guard changes.
- Once it takes the guard, it releases it on every path.
- The table becomes `WeightTable` of the servers' averages when the balancer supplies statistics. It is left as it was when the cast to `AbstractLoadBalancer` fails or the statistics are null.

`choose`:

- It returns no server without a balancer or with an empty server list.
- A returned server is alive.
- A returned server, or the index fault, is what the first attempt that did not retry yielded.
- Every earlier attempt gave no candidate or a dead one.
- No server after the draws run out means every attempt retried.
- The fault happens only when the table is longer than the server list.
- Below a total weight of 0.001, a returned server is one of round robin's picks.
- At or above it, a returned server is a member of the server list.

## Left out

- Timer scheduling of `DynamicServerWeightTask`, the shutdown hook and `shutdown` (ResponseTimeWeightedRule.java:110-135, 196-205): background-thread lifecycle with no effect on the table beyond calling `maintainWeights`, which is modelled.
- `setLoadBalancer` storing the balancer and its name: `MaintainWeights` and `Choose` take the current balancer snapshot as a parameter instead of reading a field, because the balancer's server list changes independently of the rule.
- The `ResponseTimeWeightedRule(ILoadBalancer)` constructor (ResponseTimeWeightedRule.java:97-99): what it does depends on `RoundRobinRule(ILoadBalancer)`, which is not part of this model. The field initializers at lines 82 and 89 run only after `super(lb)` returns. If that superclass constructor calls the overridden `setLoadBalancer`, the recomputation reaches the guard at line 219 while the guard is still null, and the table is reset to empty afterwards. The model offers the no-argument constructor followed by `SetLoadBalancer` instead.
- The no-argument constructor of the subset filter and `initWithNiwsConfig`: configuration plumbing. The filter's four dynamic properties are the `SubsetConfig` parameter of each pass, and `DefaultConfig` holds their defaults.
- Cross-thread interleaving: the volatile `accumulatedWeights` and `currentSubset` and the `AtomicBoolean` guard are a sequential sequence, set and boolean. The guard's compare-and-set is a test followed by a write.
- `Thread.interrupted`, `Thread.yield` and liveness of the retry loop in `choose`: attempts are bounded by the finite list of draws, and running out of draws stands for the interrupt that ends the loop with no server.
- `Choose`: draw `k` is consumed at attempt `k` even when that attempt uses round robin. In the source, round-robin attempts consume no `nextDouble()`. Since the draws are arbitrary, this only renumbers them.
- Floating point: `double` weights, `nextDouble()` and the `float` percentage are `real`, with no rounding, NaN or infinities. The float-to-int cast at ServerListSubsetFilter.java:126 is truncation toward zero, without the saturation at the `int` bounds.
- `SubsetFilter.Compare`: counts are unbounded integers, so the narrowing of the long failure-count difference to `int` (ServerListSubsetFilter.java:199) and the overflow of the request-count difference are not modelled.
- `Collections.sort` is modelled by a functional insertion sort (`SortByHealth`) with the same ordering guarantee. Its stability and the JDK algorithm are not modelled.
- HashSet iteration order is an arbitrary choice in each loop step, and `Lists.newArrayList(set)` is an arbitrary duplicate-free listing.
- A null `getLoadBalancerStats()` in the subset filter, which would throw when a previous member is still in the pool: statistics are always supplied as a map.
- The zone-affinity super filter, `RoundRobinRule.choose`, `LoadBalancerStats`, `ServerStats`, `Server.isAlive` and the random generators are parameters. Their own code is not part of this model.
- `IRule`, `IPing`, `IPingStrategy`, `ServerListFilter`, `AbstractServerListFilter`, `ServerStatusChangeListener`, `AbstractLoadBalancer`, `IClientConfig`, `IClientConfigAware` and `IResponse`: interfaces, configuration and transport with no logic of the core. `AbstractLoadBalancer` appears only as the `isAbstractLoadBalancer` flag, which decides whether statistics can be read.
- Two properties one might expect do not hold of the code, and the model follows the code.
  - The filter is not idempotent. When `trunc(size * percent) >= 1` and the pool has enough servers outside the previous subset, a pass over a healthy subset replaces that many members (`HealthyPassChurns`, `DefaultPassChurns`). When the pool holds no other servers, the fallback can redraw the evicted members and return the previous subset.
  - Equal averages do not give zero total weight unless there is one server or the averages are zero (`EqualAveragesTotalWeight`).

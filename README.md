# LoadBalancer core in Dafny

A model of the core of the LoadBalancer service. This is an ASP.NET system in which one process
acts as the load balancer and other processes act as workers that evaluate
H(n) = Σ sqrt(i)·sin(i)/ln(i+1) for 1 <= i < (long)(n·10⁶).

The model has four modules, one per file:

- `Models` (`models.dfy`) holds the shared records: `WorkerNode`, `CalculationRequest` and
  `CalculationResponse`. It also holds `Option`/`Result` wrappers, which stand in for exceptions,
  and `TryGetValue`, the dictionary lookup the services use.
- `HealthCheck` (`health_check.dfy`) is the health registry. It is a dictionary from node id to the
  node's record. A node is demoted when the dispatcher sees a failed call. A periodic cycle
  refreshes every node from a `GET /health` probe. The map-level functions `MarkedUnhealthy`,
  `Probed` and `Cycle` say what each operation does to the dictionary. The class
  `HealthCheckService` owns the dictionary, and its methods are proved against those functions.
- `LoadBalancing` (`load_balancer.dfy`) is the dispatcher. It works in four steps:
  1. It keeps the healthy nodes, in list order.
  2. It builds the weighted list, in which each node appears as often as its weight.
  3. It increments a shared `int` counter, with 32-bit wrap-around.
  4. It picks `weighted[counter % count]` using C#'s truncating `%`.

  It then forwards the request and demotes the chosen node if the call fails.
  `LoadBalancerService.SelectNode` builds the weighted list with the source's nested loops and is
  proved equal to `Pick(Expand(available), counter)`. The properties of `Expand` and `Pick` are
  proved as lemmas: length, membership, multiplicity, contiguous blocks, rotation, and fairness over
  a full round.
- `Calculation` (`calculation.dfy`) is the worker's engine. It first looks in the process-wide local
  cache. On a miss it reads the distributed cache, where the stored text must parse. On a second
  miss it computes under a semaphore permit, then writes the result to both tiers. The computation
  splits the index range into one chunk per processor, and the last chunk takes the remainder.
  `CalculateHOptimized` is proved to return exactly the plain sum over [0, iterations), so splitting
  the work cannot change the result. The pure function `Calculate` states what one request does to
  both cache tiers and what it returns. `OptimizedCalculationService.CalculateAsync` is proved equal
  to `Calculate`, with every semaphore permit handed back on every path. Lemmas about `Calculate`
  cover:
  - the three answer paths;
  - that local entries are never overwritten;
  - the cache round trip;
  - that caching is transparent: while every cached value is the computed value for its key, every
    answer is the computed value.

The environment is made explicit:

- The clock is an integer parameter `now`.
- The outcome of each HTTP call is an oracle parameter: `probe` for health checks and `reply` for
  dispatched requests.
- The summed term is the parameter `term`, because the source computes it in floating point.
- The number of processors is a constructor argument.
- Exceptions raised by the distributed cache or the computation are a `Faults` value passed in.

`Int32` overflow is modelled where the source can reach it. After 2^31 − 1 selections the dispatcher's
counter holds the largest `int`, and the next `Interlocked.Increment` wraps it to the smallest `int`.
Requests that find no healthy node never increment the counter. C#'s `%` then gives a negative index. So, with
the three configured nodes healthy, the next selection throws instead of choosing a node. The model
keeps this behaviour as written. `CounterWrapFailsSelection` exhibits it, and `ProcessRequest`
reports it as `ArgumentOutOfRange`, the exception `List<T>`'s indexer throws for a negative index.

Three behaviours of the code are kept as written:

- Exceptions from reading or writing the distributed cache are not caught in `CalculateAsync`. They
  propagate to the caller (`DistributedCacheError`) rather than degrading to a computation. A failed
  write still leaves the freshly computed value in the local cache.
- Both local-cache writes are `TryAdd`, so the first value stored for a key wins.
- `CalculateAsync` itself accepts every `n`. Only the HTTP controller rejects `n <= 0`. For such `n`
  the truncating cast gives a count of zero or less, every chunk is empty, and the result is 0. The
  model covers that path: `NegativeIterationsEmptyChunks` and `EmptyPartition`.

## Model

| member | source | states |
|---|---|---|
| `Models.TryGetValue` | LoadBalancer/Services/HealthCheckService.cs:34 | the lookup finds an entry exactly when the key is present, and then gives the stored value |
| `HealthCheck.ProbeVerdict` | LoadBalancer/Services/HealthCheckService.cs:57 | a probe leaves a node healthy exactly when it got a response with a success status code; an exception (the catch at :80) or a failure status leaves it unhealthy |
| `HealthCheck.HealthCheckWorkers` | LoadBalancer/Services/HealthCheckService.cs:12-17 | the registry's three hard-coded nodes, with the defaults of a new record: weight 1, healthy, checked at creation, no active requests |
| `HealthCheck.MarkedUnhealthy` | LoadBalancer/Services/HealthCheckService.cs:37-44 | demoting a registered node clears only its flag, keeps every key and every other entry, and an unknown id changes nothing |
| `HealthCheck.Probed` | LoadBalancer/Services/HealthCheckService.cs:52-84 | after a probe a registered node's flag is the probe's verdict (success status, false after an exception) and its check time is the current clock; no other entry or key changes |
| `HealthCheck.Cycle` | LoadBalancer/Services/HealthCheckService.cs:46-50 | the dictionary after probing the listed nodes one by one; a cycle never adds or removes a key |
| `HealthCheck.CycleEffect` | LoadBalancer/Services/HealthCheckService.cs:46-50 | one cycle over nodes with distinct ids gives each listed registered node its own probe's verdict and the cycle's clock reading, leaves unlisted nodes untouched and keeps the key set |
| `HealthCheck.ProbeOverridesDemotion` | LoadBalancer/Services/HealthCheckService.cs:52-84 | a demotion leaves no trace after the next probe of that node; a successful probe puts the node back in rotation |
| `HealthCheck.MarkedUnhealthyIdempotent` | LoadBalancer/Services/HealthCheckService.cs:37-44 | demoting a node twice has the effect of demoting it once |
| `HealthCheck.ProbesCommute` | LoadBalancer/Services/HealthCheckService.cs:46-50 | probes of two different nodes commute, so the concurrent probes of one cycle cannot change its outcome |
| `HealthCheck.DemotionAndProbeCommute` | LoadBalancer/Services/HealthCheckService.cs:37-84 | a demotion of one node and a probe of another give the same dictionary in either order |
| `HealthCheck.ConfiguredNodes` | LoadBalancer/Services/HealthCheckService.cs:12-17 | the hard-coded nodes have the distinct ids worker1, worker2 and worker3 and all start healthy |
| `HealthCheck.HealthCheckService.constructor` | LoadBalancer/Services/HealthCheckService.cs:10-30 | registers worker1..worker3 with their addresses, each under its own id, all healthy, and nothing else |
| `HealthCheck.HealthCheckService.IsNodeHealthy` | LoadBalancer/Services/HealthCheckService.cs:32-35 | true exactly when the id is registered and its record's flag is set; false for an unknown id |
| `HealthCheck.HealthCheckService.MarkNodeUnhealthy` | LoadBalancer/Services/HealthCheckService.cs:37-44 | the dictionary becomes `MarkedUnhealthy` of the old one, and the node then reads as unhealthy |
| `HealthCheck.HealthCheckService.CheckNodeHealth` | LoadBalancer/Services/HealthCheckService.cs:52-84 | the dictionary becomes `Probed` of the old one with the outcome of probing the node's base address |
| `HealthCheck.HealthCheckService.PerformHealthChecks` | LoadBalancer/Services/HealthCheckService.cs:46-50 | after a cycle every configured node's flag equals its own probe's verdict and every check time is the cycle's clock reading |
| `LoadBalancing.Increment32` | LoadBalancer/Services/LoadBalancerService.cs:79 | the incremented counter is again a 32-bit int and is congruent to the old value plus one modulo 2^32 |
| `LoadBalancing.Remainder` | LoadBalancer/Services/LoadBalancerService.cs:79 | C#'s `%`: congruent to the dividend, in [0, b) for a non-negative dividend and in (-b, 0] for a negative one |
| `LoadBalancing.LoadBalancerWorkers` | LoadBalancer/Services/LoadBalancerService.cs:14-19 | the dispatcher's hard-coded list is the same nodes, addresses and weights as the registry's |
| `LoadBalancing.AvailableNodes` | LoadBalancer/Services/LoadBalancerService.cs:33 | a node is a candidate exactly when it is configured and the registry reports its id healthy; never more candidates than configured nodes |
| `LoadBalancing.AvailableNodesAppend` | LoadBalancer/Services/LoadBalancerService.cs:33 | the filter keeps list order: filtering a concatenation concatenates the filtered parts |
| `LoadBalancing.TotalWeight` | LoadBalancer/Services/LoadBalancerService.cs:68 | the LINQ `Sum` of the weights; it never exceeds the sum of the clamped weights, because a negative weight lowers it without adding entries |
| `LoadBalancing.Expand` | LoadBalancer/Services/LoadBalancerService.cs:69-77 | the weighted list the nested loops build, each node as often as its weight; its length is the sum of the clamped weights |
| `LoadBalancing.Repeat` | LoadBalancer/Services/LoadBalancerService.cs:73-76 | the inner loop adds exactly `count` copies of the node and nothing else |
| `LoadBalancing.ExpandAppend` | LoadBalancer/Services/LoadBalancerService.cs:71-77 | the weighted list of a concatenation is the concatenation of the weighted lists |
| `LoadBalancing.ExpandLength` | LoadBalancer/Services/LoadBalancerService.cs:68-77 | the weighted list is as long as the clamped weights add up to, and as long as the source's `totalWeight` when no weight is negative |
| `LoadBalancing.ExpandMembers` | LoadBalancer/Services/LoadBalancerService.cs:71-77 | exactly the candidates with positive weight appear in the weighted list |
| `LoadBalancing.ExpandMultiplicity` | LoadBalancer/Services/LoadBalancerService.cs:71-77 | each node appears in the weighted list (times listed) × (weight) times |
| `LoadBalancing.ExpandBlock` | LoadBalancer/Services/LoadBalancerService.cs:71-77 | each node's copies form one contiguous block starting after the weights of the nodes before it |
| `LoadBalancing.Pick` | LoadBalancer/Services/LoadBalancerService.cs:79-80 | an empty weighted list divides by zero; a non-negative counter picks position counter mod length; a negative counter fails with an out-of-range index exactly when it is not a multiple of the length, and picks the first entry when it is; a picked node is in the list |
| `LoadBalancing.SelectionSucceeds` | LoadBalancer/Services/LoadBalancerService.cs:65-80 | with weights at least 1 and a non-negative counter the selection succeeds and picks one of the healthy candidates |
| `LoadBalancing.CounterWrapFailsSelection` | LoadBalancer/Services/LoadBalancerService.cs:79-80 | the counter after the largest int is the smallest int, and with three nodes of weight 1 the selection then fails with an out-of-range index |
| `LoadBalancing.SelectionsAt` | LoadBalancer/Services/LoadBalancerService.cs:79-80 | the k-th of consecutive selections is the weighted list at (first counter + k) mod length, as `Pick` gives it |
| `LoadBalancing.SelectionsRotate` | LoadBalancer/Services/LoadBalancerService.cs:65-80 | one full round of consecutive selections is the weighted list rotated to the counter's position |
| `LoadBalancing.WeightedRoundRobinFairness` | LoadBalancer/Services/LoadBalancerService.cs:65-81 | over a round as long as the weights add up to, every node is chosen exactly (times listed) × (weight) times |
| `LoadBalancing.Advance32NoWrap` | LoadBalancer/Services/LoadBalancerService.cs:79 | until it reaches the largest int, k increments of the shared counter add exactly k |
| `LoadBalancing.Int32RoundSelections` | LoadBalancer/Services/LoadBalancerService.cs:79-80 | when a round does not reach past the largest int, the selection after k increments of the program's 32-bit counter is the k-th of the consecutive selections |
| `LoadBalancing.Int32RoundIsFair` | LoadBalancer/Services/LoadBalancerService.cs:65-81 | fairness for the program's own counter: a full round that stays below the largest int picks `Pick` at each incremented counter and chooses every node (times listed) × (weight) times |
| `LoadBalancing.LoadBalancerService.constructor` | LoadBalancer/Services/LoadBalancerService.cs:12-29 | the counter starts at 0, the three configured nodes have weight 1 and the registry is the one given |
| `LoadBalancing.LoadBalancerService.SelectNode` | LoadBalancer/Services/LoadBalancerService.cs:65-81 | the counter advances by one with 32-bit wrap-around and the result is `Pick` of the weighted list at the new counter |
| `LoadBalancing.LoadBalancerService.ProcessRequest` | LoadBalancer/Services/LoadBalancerService.cs:31-63 | no healthy node fails with nothing changed; a failed selection calls no one; otherwise a node healthy at the time is called once, its response returned unchanged, and a failed call demotes exactly that node and fails |
| `Calculation.Truncate` | LoadBalancer/Services/OptimizedCalculationService.cs:99 | the cast truncates toward zero: within one below a non-negative value, within one above a negative value |
| `Calculation.Iterations` | LoadBalancer/Services/OptimizedCalculationService.cs:99 | the term count for `n`: n·10⁶ truncated toward zero, so non-negative with at most one unit of slack for `n >= 0`, and zero or less for a negative `n` |
| `Calculation.Quotient` | LoadBalancer/Services/OptimizedCalculationService.cs:101 | C#'s integer `/` by a positive divisor: the remainder `a - q·b` lies in [0, b) for a non-negative dividend and in (-b, 0] for a negative one |
| `Calculation.ChunkStart` | LoadBalancer/Services/OptimizedCalculationService.cs:107 | defines chunk t's first index as t·chunkSize, so the first chunk starts at index 0 |
| `Calculation.ChunkEnd` | LoadBalancer/Services/OptimizedCalculationService.cs:108 | defines chunk t's end as (t+1)·chunkSize, except that the last chunk runs to the count |
| `Calculation.ChunkBounds` | LoadBalancer/Services/OptimizedCalculationService.cs:101-108 | the chunks start at 0, are contiguous and end at the count; each but the last holds count / threads indices and the last also the remainder |
| `Calculation.ChunksDisjoint` | LoadBalancer/Services/OptimizedCalculationService.cs:105-108 | an earlier chunk ends before a later one starts |
| `Calculation.NegativeIterationsEmptyChunks` | LoadBalancer/Services/OptimizedCalculationService.cs:99-108 | a negative count makes every chunk empty |
| `Calculation.ChunkSum` | LoadBalancer/Services/OptimizedCalculationService.cs:117-126 | the sum of the terms over [start, end) with index 0 skipped; non-negative terms give a non-negative sum |
| `Calculation.ChunkSumSplit` | LoadBalancer/Services/OptimizedCalculationService.cs:117-126 | a range sum splits into the sums of its two parts at any point in between |
| `Calculation.ZeroTermSkipped` | LoadBalancer/Services/OptimizedCalculationService.cs:120-123 | the term at index 0 is never evaluated: terms that agree elsewhere give the same sum |
| `Calculation.PartitionSum` | LoadBalancer/Services/OptimizedCalculationService.cs:103-114 | the chunk results of every prefix add up to the sum over what that prefix covers, and all of them to the sum over [0, count) |
| `Calculation.EmptyPartition` | LoadBalancer/Services/OptimizedCalculationService.cs:99-114 | for a negative count the chunk results add up to 0 |
| `Calculation.CalculateChunk` | LoadBalancer/Services/OptimizedCalculationService.cs:117-126 | the loop returns the sum of the terms over [start, end) without index 0 |
| `Calculation.CalculateHOptimized` | LoadBalancer/Services/OptimizedCalculationService.cs:97-115 | the parallel chunked computation returns the plain sum over [0, count) for any number of processors, and 0 for a count of zero or less |
| `Calculation.TryAdd` | LoadBalancer/Services/OptimizedCalculationService.cs:72 | adds the key, never changes an existing entry, and stores the value only when the key was absent |
| `Calculation.Calculate` | LoadBalancer/Services/OptimizedCalculationService.cs:26-95 | the caches and the answer of one request; an answer carries the request's id and this node's id, only the request's own key can be added to or changed in either cache, and an answer not from a cache is the sum for `n` |
| `Calculation.LocalHitShortCircuits` | LoadBalancer/Services/OptimizedCalculationService.cs:34-46 | a local hit answers from the local cache with FromCache set, changes no cache, and the other collaborators play no part |
| `Calculation.DistributedHitAnswers` | LoadBalancer/Services/OptimizedCalculationService.cs:48-63 | on a local miss a readable distributed entry is the answer, copied into the local cache, with the distributed cache unchanged |
| `Calculation.ComputedOnlyOnDoubleMiss` | LoadBalancer/Services/OptimizedCalculationService.cs:65-89 | a computed answer happens only after both caches miss and nothing throws; it is the sum for `n` and is then stored in both caches |
| `Calculation.LocalMissPaths` | LoadBalancer/Services/OptimizedCalculationService.cs:48-94 | after a local miss: a throwing distributed read fails and changes nothing; otherwise, on a double miss, the sum goes into the local cache, a throwing write fails with the distributed cache unchanged, and a successful write puts the sum in the distributed cache and answers it with FromCache false; an answer has FromCache false exactly on that last path |
| `Calculation.FailedComputationWritesNothing` | LoadBalancer/Services/OptimizedCalculationService.cs:66-94 | a computation that throws leaves both caches as they were |
| `Calculation.LocalEntriesPersist` | LoadBalancer/Services/OptimizedCalculationService.cs:14 | no request removes or overwrites a local cache entry |
| `Calculation.CacheRoundTrip` | LoadBalancer/Services/OptimizedCalculationService.cs:26-95 | after an answered request, asking again for the same `n` is answered from the local cache with the same result, whatever fails the second time |
| `Calculation.CachingIsTransparent` | LoadBalancer/Services/OptimizedCalculationService.cs:26-95 | while every cached value is the computed value for its key, every answer is the computed value for `n` and the caches stay so |
| `Calculation.SemaphoreSlim.constructor` | LoadBalancer/Services/OptimizedCalculationService.cs:23 | the semaphore starts with the given free permits under the given maximum |
| `Calculation.SemaphoreSlim.Wait` | LoadBalancer/Services/OptimizedCalculationService.cs:66 | taking a permit lowers the free count by one |
| `Calculation.SemaphoreSlim.Release` | LoadBalancer/Services/OptimizedCalculationService.cs:91-94 | releasing raises the free count by one, never above the maximum |
| `Calculation.OptimizedCalculationService.constructor` | LoadBalancer/Services/OptimizedCalculationService.cs:16-24 | one permit per processor, all free, and an empty local cache |
| `Calculation.OptimizedCalculationService.CalculateAsync` | LoadBalancer/Services/OptimizedCalculationService.cs:26-95 | the caches and the answer are those of `Calculate`, and every path hands back the permit it took, so all permits are free again between requests |

## Left out

- Logging, stopwatch timings (`ProcessingTime`, `CompletedAt`), request timestamps and the metrics services are not modelled. They do not affect any result.
- The health probes go through the default HTTP client, whose only setting is the 5-second timeout
  (LoadBalancer/Services/HealthCheckService.cs:21-22). A timeout is one of the exceptions the outcome
  oracle `probe` can report. The retry and circuit-breaker policies (LoadBalancer/Program.cs:18-45)
  are attached only to the typed client registered at LoadBalancer/Program.cs:55-57.
  LoadBalancer/Program.cs:58 registers the dispatcher again as a plain singleton, so it is not
  modelled whether those policies wrap the dispatcher's client. `reply` is unconstrained and covers
  either case.
- Concurrency is not modelled: probes, requests and chunks run one after another. `ProbesCommute` and `DemotionAndProbeCommute` show that the registry's updates to different nodes do not depend on their order. The same-node races of the source are not captured.
- `Calculation.SemaphoreSlim.Wait`: a caller that finds no free permit would wait in the source. The model requires a free permit instead, since blocking has no sequential counterpart.
- Floating point is not modelled. The term sqrt(i)·sin(i)/ln(i+1) is the parameter `term`, sums are exact real sums, and the order in which chunk results are added is not captured. `n` is a real, so NaN, infinities and the out-of-range cast of `n·10⁶` to `long` are not covered.
- The cache key `calc_{n}` is modelled as `n` itself. The number's text form is not modelled, and neither is the 30-minute expiry of distributed entries: entries never expire here.
- `LoadBalancing.ProcessRequest`: a JSON body that deserializes to null is returned as-is by the source. The model only sees a response or a failure.
- `LoadBalancing.TotalWeight`: it is computed by the source and then unused. The model does not capture the `int` overflow of that LINQ `Sum`.
- The `WorkerNode` objects that the registry shares between its list and its dictionary are modelled as values. Only the dictionary's copies are ever read for health, so no behaviour depends on the sharing.
- `ActiveRequests` is never updated by the core, and stays 0.
- `PerformHealthChecks` reads the clock once per cycle rather than once per probe.
- The worker's controllers and the background services only call the core, so they are not part of this model.

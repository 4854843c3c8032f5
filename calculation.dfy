/** The computation engine of the worker role (LoadBalancer/Services/OptimizedCalculationService.cs):
    a process-wide local cache, then the distributed cache, then a computation split into one chunk
    per processor, bounded by a semaphore with one permit per processor.

    The summed term sqrt(i)·sin(i)/ln(i+1) is the engine's parameter `term`, and sums are taken over
    the reals. The cache key "calc_{n}" is the request's `n` itself: the key text is the round-trip
    form of `n`, so distinct keys are distinct `n`. */
module Calculation {
  import opened Models

  /** The cast `(long)x`: truncation toward zero. */
  function Truncate(x: real): (r: int)
    ensures 0.0 <= x ==> r as real <= x < r as real + 1.0
    ensures x < 0.0 ==> r as real - 1.0 < x <= r as real
  {
    if x >= 0.0 then x.Floor else -((-x).Floor)
  }

  /** The number of terms summed for `n`: `(long)(n * 1_000_000)`. */
  function Iterations(n: real): (iterations: int)
    ensures 0.0 <= n ==> 0 <= iterations && iterations as real <= n * 1000000.0 < iterations as real + 1.0
    ensures n < 0.0 ==> iterations <= 0 && n * 1000000.0 <= iterations as real
  {
    Truncate(n * 1000000.0)
  }

  /** C#'s integer `/` by a positive divisor: truncates toward zero, where Dafny's `/` floors. */
  function Quotient(a: int, b: int): (q: int)
    requires b > 0
    ensures 0 <= a ==> 0 <= q && 0 <= a - q * b < b
    ensures a < 0 ==> q <= 0 && -b < a - q * b <= 0
  {
    if a >= 0 then a / b
    else
      assert -a == b * ((-a) / b) + (-a) % b;
      -((-a) / b)
  }

  // ---------------------------------------------------------------------------------------------
  // Chunk arithmetic of CalculateHOptimizedAsync

  /** First index of chunk `t`: `t * chunkSize`. */
  function ChunkStart(t: nat, iterations: int, numThreads: nat): (start: int)
    requires numThreads > 0
    ensures t == 0 ==> start == 0
  {
    t * Quotient(iterations, numThreads)
  }

  /** One past the last index of chunk `t`; the last chunk runs to `iterations`. */
  function ChunkEnd(t: nat, iterations: int, numThreads: nat): (end: int)
    requires numThreads > 0
    ensures t == numThreads - 1 ==> end == iterations
  {
    if t == numThreads - 1 then iterations else (t + 1) * Quotient(iterations, numThreads)
  }

  lemma MulMonotone(a: nat, b: nat, c: nat)
    requires a <= b
    ensures a * c <= b * c
  {
  }

  /** For a non-negative count the chunks are contiguous and in order, start at 0 and end at
      `iterations`; every chunk but the last holds `iterations / numThreads` indices and the last also
      takes the remainder. */
  lemma ChunkBounds(t: nat, iterations: int, numThreads: nat)
    requires 0 <= iterations && t < numThreads
    ensures ChunkStart(0, iterations, numThreads) == 0
    ensures 0 <= ChunkStart(t, iterations, numThreads) <= ChunkEnd(t, iterations, numThreads) <= iterations
    ensures t + 1 < numThreads ==> ChunkEnd(t, iterations, numThreads) == ChunkStart(t + 1, iterations, numThreads)
    ensures t + 1 < numThreads ==>
      ChunkEnd(t, iterations, numThreads) - ChunkStart(t, iterations, numThreads) == iterations / numThreads
    ensures t + 1 == numThreads ==>
      ChunkEnd(t, iterations, numThreads) - ChunkStart(t, iterations, numThreads)
        == iterations / numThreads + iterations % numThreads
  {
    var size := iterations / numThreads;
    assert Quotient(iterations, numThreads) == size;
    assert iterations == numThreads * size + iterations % numThreads;
    MulMonotone(t + 1, numThreads, size);
    assert (t + 1) * size == t * size + size;
    assert (numThreads - 1) * size + size == numThreads * size;
  }

  /** For a non-negative count different chunks never overlap: an earlier chunk ends before a later
      one starts. */
  lemma ChunksDisjoint(t: nat, u: nat, iterations: int, numThreads: nat)
    requires 0 <= iterations && t < u < numThreads
    ensures ChunkEnd(t, iterations, numThreads) <= ChunkStart(u, iterations, numThreads)
  {
  }

  /** A negative count (a non-positive `n`) makes every chunk empty. */
  lemma NegativeIterationsEmptyChunks(t: nat, iterations: int, numThreads: nat)
    requires iterations < 0 && t < numThreads
    ensures ChunkEnd(t, iterations, numThreads) <= ChunkStart(t, iterations, numThreads)
  {
  }

  // ---------------------------------------------------------------------------------------------
  // Sums

  /** What `CalculateChunk(start, end)` adds up: `term(i)` for start <= i < end, with i = 0 skipped. */
  function ChunkSum(term: int -> real, start: int, end: int): (sum: real)
    decreases end - start
    ensures (forall i :: start <= i < end && i != 0 ==> 0.0 <= term(i)) ==> 0.0 <= sum
  {
    if end <= start then 0.0
    else ChunkSum(term, start, end - 1) + (if end - 1 == 0 then 0.0 else term(end - 1))
  }

  /** A range sum splits at any point in between. */
  lemma {:induction false} ChunkSumSplit(term: int -> real, a: int, b: int, c: int)
    requires a <= b <= c
    ensures ChunkSum(term, a, c) == ChunkSum(term, a, b) + ChunkSum(term, b, c)
    decreases c - b
  {
    if c > b {
      ChunkSumSplit(term, a, b, c - 1);
    }
  }

  /** The term at i = 0 is never evaluated: two terms that agree on the range except at 0 give the
      same sum. */
  lemma {:induction false} ZeroTermSkipped(f: int -> real, g: int -> real, start: int, end: int)
    requires forall i :: start <= i < end && i != 0 ==> f(i) == g(i)
    ensures ChunkSum(f, start, end) == ChunkSum(g, start, end)
    decreases end - start
  {
    if end > start {
      ZeroTermSkipped(f, g, start, end - 1);
    }
  }

  /** The results of the first `t` chunks added up. */
  function PartialSums(term: int -> real, iterations: int, numThreads: nat, t: nat): real
    requires 0 < numThreads && t <= numThreads
  {
    if t == 0 then 0.0
    else PartialSums(term, iterations, numThreads, t - 1)
         + ChunkSum(term, ChunkStart(t - 1, iterations, numThreads), ChunkEnd(t - 1, iterations, numThreads))
  }

  /** Where the first `t` chunks end. */
  function Boundary(t: nat, iterations: int, numThreads: nat): int
    requires 0 < numThreads && t <= numThreads
  {
    if t == numThreads then iterations else ChunkStart(t, iterations, numThreads)
  }

  /** For a non-negative count the chunk results of any prefix add up to the sum over the indices that
      prefix covers; all of them add up to the sum over [0, iterations). */
  lemma {:induction false} PartitionSum(term: int -> real, iterations: int, numThreads: nat, t: nat)
    requires 0 <= iterations && 0 < numThreads && t <= numThreads
    ensures PartialSums(term, iterations, numThreads, t) == ChunkSum(term, 0, Boundary(t, iterations, numThreads))
    ensures t == numThreads ==> PartialSums(term, iterations, numThreads, t) == ChunkSum(term, 0, iterations)
  {
    if t > 0 {
      PartitionSum(term, iterations, numThreads, t - 1);
      BoundaryStep(t, iterations, numThreads);
      ChunkSumSplit(term, 0, Boundary(t - 1, iterations, numThreads), Boundary(t, iterations, numThreads));
    }
  }

  /** Chunk `t - 1` runs from where the first `t - 1` chunks end to where the first `t` end. */
  lemma BoundaryStep(t: nat, iterations: int, numThreads: nat)
    requires 0 <= iterations && 0 < t <= numThreads
    ensures ChunkStart(t - 1, iterations, numThreads) == Boundary(t - 1, iterations, numThreads)
    ensures ChunkEnd(t - 1, iterations, numThreads) == Boundary(t, iterations, numThreads)
    ensures 0 <= Boundary(t - 1, iterations, numThreads) <= Boundary(t, iterations, numThreads)
  {
  }

  /** For a negative count no chunk contributes anything. */
  lemma {:induction false} EmptyPartition(term: int -> real, iterations: int, numThreads: nat, t: nat)
    requires iterations < 0 && 0 < numThreads && t <= numThreads
    ensures PartialSums(term, iterations, numThreads, t) == 0.0
  {
    if t > 0 {
      EmptyPartition(term, iterations, numThreads, t - 1);
      NegativeIterationsEmptyChunks(t - 1, iterations, numThreads);
    }
  }

  /** `CalculateChunk`: adds up the chunk's terms from left to right, skipping i = 0. */
  method CalculateChunk(term: int -> real, start: int, end: int) returns (sum: real)
    ensures sum == ChunkSum(term, start, end)
  {
    sum := 0.0;
    var i := start;
    while i < end
      invariant start <= i
      invariant i <= end || i == start
      invariant sum == ChunkSum(term, start, i)
    {
      if i != 0 {
        sum := sum + term(i);
      }
      i := i + 1;
    }
  }

  /** `CalculateHOptimizedAsync` once `n` is turned into `iterations`: one chunk per processor, each
      summed on its own, then the chunk results added up. The total is the plain sum over
      [0, iterations), so splitting the work changes nothing, and a count of zero or less gives 0. */
  method CalculateHOptimized(term: int -> real, iterations: int, numThreads: nat) returns (total: real)
    requires numThreads > 0
    ensures total == ChunkSum(term, 0, iterations)
    ensures iterations <= 0 ==> total == 0.0
  {
    var chunkSize := Quotient(iterations, numThreads);
    var results := new real[numThreads];
    for t := 0 to numThreads
      invariant forall u :: 0 <= u < t ==>
        results[u] == ChunkSum(term, ChunkStart(u, iterations, numThreads), ChunkEnd(u, iterations, numThreads))
    {
      var start := t * chunkSize;
      var end := if t == numThreads - 1 then iterations else (t + 1) * chunkSize;
      results[t] := CalculateChunk(term, start, end);
    }
    total := 0.0;
    for k := 0 to numThreads
      invariant total == PartialSums(term, iterations, numThreads, k)
    {
      total := total + results[k];
    }
    if iterations >= 0 {
      PartitionSum(term, iterations, numThreads, numThreads);
    } else {
      EmptyPartition(term, iterations, numThreads, numThreads);
    }
  }


  // ---------------------------------------------------------------------------------------------
  // The two cache tiers

  /** `ConcurrentDictionary.TryAdd`: the entry goes in only when the key is absent, so the first
      write for a key wins and no entry is ever removed or overwritten. */
  function TryAdd(m: map<real, real>, key: real, value: real): (r: map<real, real>)
    ensures r.Keys == m.Keys + {key}
    ensures forall k :: k in m ==> r[k] == m[k]
    ensures key !in m ==> r[key] == value
  {
    if key in m then m else m[key := value]
  }

  /** The local tier, and the distributed tier as the worker reads it back: the parsed number, or
      None where the stored text is empty or does not parse as a number. */
  datatype Caches = Caches(local: map<real, real>, distributed: map<real, Option<real>>)

  /** The collaborators that can throw during one request: reading the distributed cache, the
      computation itself, and writing the distributed cache. None of them is caught. */
  datatype Faults = Faults(cacheReadThrows: bool, computationThrows: bool, cacheWriteThrows: bool)

  datatype CalculationError = DistributedCacheError | ComputationError

  /** The caches after a request, and its response or the exception it ends with. */
  datatype Outcome = Outcome(caches: Caches, response: Result<CalculationResponse, CalculationError>)

  /** What `CalculateAsync` does to the caches and returns, for a worker named `nodeId` whose
      summed term is `term`; how many processors share the work does not matter. */
  function Calculate(caches: Caches, term: int -> real, nodeId: string,
                     request: CalculationRequest, faults: Faults): (out: Outcome)
    ensures out.response.Ok? ==>
      out.response.value.requestId == request.requestId && out.response.value.workerNodeId == nodeId
    ensures out.caches.local.Keys <= caches.local.Keys + {request.n}
    ensures out.caches.distributed.Keys <= caches.distributed.Keys + {request.n}
    ensures out.response.Ok? && !out.response.value.fromCache ==>
      out.response.value.result == ChunkSum(term, 0, Iterations(request.n))
    ensures forall k :: k in caches.distributed && k != request.n ==>
      k in out.caches.distributed && out.caches.distributed[k] == caches.distributed[k]
  {
    var key := request.n;
    match TryGetValue(caches.local, key)
    case Some(cached) =>
      Outcome(caches, Ok(CalculationResponse(cached, request.requestId, nodeId, true)))
    case None =>
      if faults.cacheReadThrows then Outcome(caches, Err(DistributedCacheError))
      else
        var cacheValue: Option<Option<real>> := TryGetValue(caches.distributed, key);
        if cacheValue.Some? && cacheValue.value.Some? then
          var stored := cacheValue.value.value;
          Outcome(caches.(local := TryAdd(caches.local, key, stored)),
                  Ok(CalculationResponse(stored, request.requestId, nodeId, true)))
        else if faults.computationThrows then Outcome(caches, Err(ComputationError))
          else
            var result := ChunkSum(term, 0, Iterations(key));
            var local := TryAdd(caches.local, key, result);
            if faults.cacheWriteThrows then Outcome(caches.(local := local), Err(DistributedCacheError))
            else Outcome(Caches(local, caches.distributed[key := Some(result)]),
                         Ok(CalculationResponse(result, request.requestId, nodeId, false)))
  }

  /** A parseable distributed entry for the key. */
  predicate DistributedHit(caches: Caches, key: real)
  {
    key in caches.distributed && caches.distributed[key].Some?
  }

  /** A local hit answers from the local tier, whatever the other collaborators would do, and changes
      no cache. */
  lemma LocalHitShortCircuits(caches: Caches, term: int -> real, nodeId: string,
                              request: CalculationRequest, faults: Faults, other: Faults)
    requires request.n in caches.local
    ensures Calculate(caches, term, nodeId, request, faults)
         == Outcome(caches, Ok(CalculationResponse(caches.local[request.n], request.requestId, nodeId, true)))
    ensures Calculate(caches, term, nodeId, request, faults)
         == Calculate(caches, term, nodeId, request, other)
  {
  }

  /** On a local miss, a readable distributed entry is the answer; it is copied into the local tier,
      the distributed tier is left alone, and the computation's faults play no part. */
  lemma DistributedHitAnswers(caches: Caches, term: int -> real, nodeId: string,
                              request: CalculationRequest, faults: Faults)
    requires request.n !in caches.local && !faults.cacheReadThrows
    requires DistributedHit(caches, request.n)
    ensures var out := Calculate(caches, term, nodeId, request, faults);
      && out.response == Ok(CalculationResponse(caches.distributed[request.n].value, request.requestId, nodeId, true))
      && out.caches.distributed == caches.distributed
      && out.caches.local == caches.local[request.n := caches.distributed[request.n].value]
  {
  }

  /** The computation runs only when both tiers miss; a computed answer is the sum over
      [0, Iterations(n)), comes with FromCache false and is in both tiers afterwards. */
  lemma ComputedOnlyOnDoubleMiss(caches: Caches, term: int -> real, nodeId: string,
                                 request: CalculationRequest, faults: Faults)
    requires Calculate(caches, term, nodeId, request, faults).response.Ok?
    requires !Calculate(caches, term, nodeId, request, faults).response.value.fromCache
    ensures request.n !in caches.local && !DistributedHit(caches, request.n)
    ensures !faults.cacheReadThrows && !faults.computationThrows && !faults.cacheWriteThrows
    ensures var out := Calculate(caches, term, nodeId, request, faults);
      && out.response.value.result == ChunkSum(term, 0, Iterations(request.n))
      && out.caches.local == caches.local[request.n := out.response.value.result]
      && out.caches.distributed == caches.distributed[request.n := Some(out.response.value.result)]
  {
  }

  /** Every path after a local miss: a throwing read of the distributed tier propagates and changes
      nothing; after a readable miss the sum is computed and put in the local tier, then written to
      the distributed tier, and the answer is that sum with FromCache false; a throwing write
      propagates but leaves the sum in the local tier. The computation runs exactly on a double miss
      whose read does not throw. */
  lemma LocalMissPaths(caches: Caches, term: int -> real, nodeId: string,
                       request: CalculationRequest, faults: Faults)
    requires request.n !in caches.local
    ensures faults.cacheReadThrows ==>
      Calculate(caches, term, nodeId, request, faults) == Outcome(caches, Err(DistributedCacheError))
    ensures !faults.cacheReadThrows && !DistributedHit(caches, request.n) && !faults.computationThrows ==>
      var result := ChunkSum(term, 0, Iterations(request.n));
      var out := Calculate(caches, term, nodeId, request, faults);
      && out.caches.local == caches.local[request.n := result]
      && (faults.cacheWriteThrows ==>
            out.response == Err(DistributedCacheError) && out.caches.distributed == caches.distributed)
      && (!faults.cacheWriteThrows ==>
            && out.response == Ok(CalculationResponse(result, request.requestId, nodeId, false))
            && out.caches.distributed == caches.distributed[request.n := Some(result)])
    ensures var out := Calculate(caches, term, nodeId, request, faults);
      (out.response.Ok? && !out.response.value.fromCache)
        <==> (!faults.cacheReadThrows && !DistributedHit(caches, request.n)
              && !faults.computationThrows && !faults.cacheWriteThrows)
  {
  }

  /** A computation that throws leaves both tiers as they were. */
  lemma FailedComputationWritesNothing(caches: Caches, term: int -> real, nodeId: string,
                                       request: CalculationRequest, faults: Faults)
    requires request.n !in caches.local && !faults.cacheReadThrows
    requires !DistributedHit(caches, request.n) && faults.computationThrows
    ensures Calculate(caches, term, nodeId, request, faults) == Outcome(caches, Err(ComputationError))
  {
  }

  /** Local entries are never removed or overwritten, on any path. */
  lemma LocalEntriesPersist(caches: Caches, term: int -> real, nodeId: string,
                            request: CalculationRequest, faults: Faults)
    ensures var local' := Calculate(caches, term, nodeId, request, faults).caches.local;
      forall k :: k in caches.local ==> k in local' && local'[k] == caches.local[k]
  {
  }

  /** Cache round trip: once a request has been answered, asking again for the same `n` is answered
      from the local tier with the same result, whatever the collaborators do the second time. */
  lemma CacheRoundTrip(caches: Caches, term: int -> real, nodeId: string,
                       first: CalculationRequest, faults: Faults, again: CalculationRequest, faultsAgain: Faults)
    requires again.n == first.n
    requires Calculate(caches, term, nodeId, first, faults).response.Ok?
    ensures var out := Calculate(caches, term, nodeId, first, faults);
      var second := Calculate(out.caches, term, nodeId, again, faultsAgain);
      && second.response.Ok?
      && second.response.value.fromCache
      && second.response.value.result == out.response.value.result
      && second.caches == out.caches
  {
  }

  /** Every cached value is the result of the computation for its own key. */
  ghost predicate CachesSound(caches: Caches, term: int -> real)
  {
    && (forall k :: k in caches.local ==> caches.local[k] == ChunkSum(term, 0, Iterations(k)))
    && (forall k :: k in caches.distributed && caches.distributed[k].Some? ==>
          caches.distributed[k].value == ChunkSum(term, 0, Iterations(k)))
  }

  /** Caching is transparent: while every cached value is the result of the computation for its key,
      each answer is the computed sum for the request's `n`, and the caches stay that way. */
  lemma CachingIsTransparent(caches: Caches, term: int -> real, nodeId: string,
                             request: CalculationRequest, faults: Faults)
    requires CachesSound(caches, term)
    ensures CachesSound(Calculate(caches, term, nodeId, request, faults).caches, term)
    ensures Calculate(caches, term, nodeId, request, faults).response.Ok? ==>
      Calculate(caches, term, nodeId, request, faults).response.value.result
        == ChunkSum(term, 0, Iterations(request.n))
  {
  }

  // ---------------------------------------------------------------------------------------------
  // The semaphore and the service

  /** `SemaphoreSlim` seen sequentially: a count of free permits below a fixed maximum. */
  class SemaphoreSlim {
    const maxCount: nat
    var currentCount: nat

    constructor (initialCount: nat, maxCount: nat)
      requires initialCount <= maxCount
      ensures this.maxCount == maxCount && currentCount == initialCount
    {
      this.maxCount := maxCount;
      currentCount := initialCount;
    }

    /** Takes a permit. */
    method Wait()
      requires 0 < currentCount
      modifies this
      ensures currentCount == old(currentCount) - 1
    {
      currentCount := currentCount - 1;
    }

    /** Gives a permit back; releasing beyond the maximum would throw SemaphoreFullException. */
    method Release()
      requires currentCount < maxCount
      modifies this
      ensures currentCount == old(currentCount) + 1
    {
      currentCount := currentCount + 1;
    }
  }

  class OptimizedCalculationService {
    const nodeId: string
    const processorCount: nat
    const term: int -> real
    const semaphore: SemaphoreSlim
    /** The static local cache: one per process, empty at start, never evicted. */
    var localCache: map<real, real>
    /** The distributed cache as this worker sees it. */
    var distributedCache: map<real, Option<real>>

    ghost predicate Valid()
      reads this, semaphore
    {
      && 0 < processorCount
      && semaphore.maxCount == processorCount
      // between requests every permit is free: each request hands back the permit it took
      && semaphore.currentCount == processorCount
    }

    /** A worker named `nodeId` with `processorCount` processors, all permits free and an empty local cache. */
    constructor (nodeId: string, processorCount: nat, term: int -> real, distributedCache: map<real, Option<real>>)
      requires 0 < processorCount
      ensures Valid() && fresh(semaphore)
      ensures this.nodeId == nodeId && this.processorCount == processorCount && this.term == term
      ensures semaphore.currentCount == processorCount
      ensures localCache == map[] && this.distributedCache == distributedCache
    {
      this.nodeId := nodeId;
      this.processorCount := processorCount;
      this.term := term;
      semaphore := new SemaphoreSlim(processorCount, processorCount);
      localCache := map[];
      this.distributedCache := distributedCache;
    }

    /** Answers from the local tier, else from the distributed tier, else computes under a permit and
        writes the result back. The caches and the answer are those of `Calculate`, and every path
        hands back the permits it took. */
    method CalculateAsync(request: CalculationRequest, faults: Faults)
      returns (r: Result<CalculationResponse, CalculationError>)
      requires Valid()
      modifies this, semaphore
      ensures Valid()
      ensures var out := Calculate(old(Caches(localCache, distributedCache)), term, nodeId, request, faults);
        Caches(localCache, distributedCache) == out.caches && r == out.response
    {
      var cacheKey := request.n;
      var cachedResult := TryGetValue(localCache, cacheKey);
      if cachedResult.Some? {
        return Ok(CalculationResponse(cachedResult.value, request.requestId, nodeId, true));
      }
      if faults.cacheReadThrows {
        return Err(DistributedCacheError);
      }
      var cacheValue := TryGetValue(distributedCache, cacheKey);
      if cacheValue.Some? && cacheValue.value.Some? {
        var distributedCachedResult := cacheValue.value.value;
        localCache := TryAdd(localCache, cacheKey, distributedCachedResult);
        return Ok(CalculationResponse(distributedCachedResult, request.requestId, nodeId, true));
      }
      semaphore.Wait();
      if faults.computationThrows {
        semaphore.Release();
        return Err(ComputationError);
      }
      var result := CalculateHOptimized(term, Iterations(request.n), processorCount);
      localCache := TryAdd(localCache, cacheKey, result);
      if faults.cacheWriteThrows {
        semaphore.Release();
        return Err(DistributedCacheError);
      }
      distributedCache := distributedCache[cacheKey := Some(result)];
      semaphore.Release();
      r := Ok(CalculationResponse(result, request.requestId, nodeId, false));
    }
  }
}

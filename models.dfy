/** Records shared by the load-balancer and worker roles (LoadBalancer/Models)
    and the failure-carrying wrappers the services use in place of exceptions. */
module Models {

  datatype Option<+T> = None | Some(value: T)

  /** A call that either returns a value or throws; the error names the exception. */
  datatype Result<+T, +E> = Ok(value: T) | Err(error: E)

  /** `ConcurrentDictionary.TryGetValue`: the entry stored under `key`, if any. */
  function TryGetValue<K, V>(m: map<K, V>, key: K): (r: Option<V>)
    ensures r.Some? <==> key in m
    ensures r.Some? ==> r.value == m[key]
  {
    if key in m then Some(m[key]) else None
  }

  /** A worker node descriptor. `lastHealthCheck` is a clock reading, kept as an integer. */
  datatype WorkerNode = WorkerNode(
    id: string,
    baseUrl: string,
    weight: int,
    isHealthy: bool,
    lastHealthCheck: int,
    activeRequests: int)

  /** `new WorkerNode { Id = id, BaseUrl = baseUrl, Weight = weight }` created when the clock reads `now`:
      healthy, no active requests, last checked at creation. */
  function NewWorkerNode(id: string, baseUrl: string, weight: int, now: int): WorkerNode
  {
    WorkerNode(id, baseUrl, weight, true, now, 0)
  }

  /** A request for the computation with parameter `n`; the creation timestamp is not modelled. */
  datatype CalculationRequest = CalculationRequest(n: real, requestId: string)

  /** A worker's answer; processing time and completion timestamp are clock readings and are not modelled. */
  datatype CalculationResponse = CalculationResponse(
    result: real,
    requestId: string,
    workerNodeId: string,
    fromCache: bool)
}

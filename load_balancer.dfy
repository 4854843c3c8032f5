/** The dispatcher of the load-balancer role (LoadBalancer/Services/LoadBalancerService.cs):
    filter the configured nodes to the healthy ones, pick one by weighted round-robin with a shared
    counter, forward the request, and demote the node when the call fails.

    The filter, the weighted expansion and the index arithmetic are pure functions with their
    counting properties proved as lemmas; LoadBalancerService holds the counter and is proved
    against them. */
module LoadBalancing {
  import opened Models
  import opened HealthCheck

  const Int32Min: int := -0x8000_0000
  const Int32Max: int := 0x7fff_ffff

  predicate IsInt32(x: int)
  {
    Int32Min <= x <= Int32Max
  }

  /** `Interlocked.Increment` on an `int`: the next value modulo 2^32, read back as a signed int,
      so the largest int is followed by the smallest. */
  function Increment32(x: int): (r: int)
    requires IsInt32(x)
    ensures IsInt32(r)
    ensures (r - (x + 1)) % 0x1_0000_0000 == 0
  {
    if x == Int32Max then Int32Min else x + 1
  }

  lemma MulBound(n: int, d: int)
    requires n > 0
    ensures d >= 1 ==> n * d >= n
    ensures d <= -1 ==> n * d <= -n
  {
  }

  /** Euclidean division has a unique quotient and remainder. */
  lemma DivModUnique(x: int, n: int, q: int, r: int)
    requires n > 0 && x == n * q + r && 0 <= r < n
    ensures x % n == r && x / n == q
  {
    var d := q - x / n;
    assert n * d == x % n - r;
    MulBound(n, d);
  }

  /** C's and C#'s `%` on ints: division truncates toward zero, so the remainder is congruent to the
      dividend and carries the dividend's sign. */
  function Remainder(a: int, b: int): (r: int)
    requires b > 0
    ensures (a - r) % b == 0
    ensures a >= 0 ==> 0 <= r < b
    ensures a < 0 ==> -b < r <= 0
  {
    if a >= 0 then
      DivModUnique(a - a % b, b, a / b, 0);
      a % b
    else
      var m := -a;
      DivModUnique(a + m % b, b, -(m / b), 0);
      -(m % b)
  }

  /** `_workerNodes.Where(n => IsNodeHealthy(n.Id))`: the listed nodes the registry reports healthy,
      joined by id, in list order. A node whose flag is down is never a candidate. */
  function AvailableNodes(nodes: seq<WorkerNode>, registry: HealthCheckService): (r: seq<WorkerNode>)
    reads registry
    ensures |r| <= |nodes|
    ensures forall n :: n in r <==> n in nodes && registry.IsNodeHealthy(n.id)
  {
    if nodes == [] then []
    else if registry.IsNodeHealthy(nodes[0].id) then [nodes[0]] + AvailableNodes(nodes[1..], registry)
    else AvailableNodes(nodes[1..], registry)
  }

  /** The filter keeps list order: filtering a concatenation concatenates the filtered parts. */
  lemma {:induction false} AvailableNodesAppend(a: seq<WorkerNode>, b: seq<WorkerNode>, registry: HealthCheckService)
    ensures AvailableNodes(a + b, registry) == AvailableNodes(a, registry) + AvailableNodes(b, registry)
  {
    if a != [] {
      assert (a + b)[0] == a[0];
      assert (a + b)[1..] == a[1..] + b;
      AvailableNodesAppend(a[1..], b, registry);
    } else {
      assert a + b == b;
    }
  }

  /** How many times the loop `for (int i = 0; i < node.Weight; i++)` runs. */
  function Clamp(weight: int): nat
  {
    if weight > 0 then weight else 0
  }

  /** A node repeated `count` times. */
  function Repeat(node: WorkerNode, count: nat): (r: seq<WorkerNode>)
    ensures |r| == count
    ensures forall i :: 0 <= i < count ==> r[i] == node
  {
    if count == 0 then [] else Repeat(node, count - 1) + [node]
  }

  /** The list `weightedNodes` that SelectNode builds: each node as often as its weight, in order. */
  function Expand(nodes: seq<WorkerNode>): (weighted: seq<WorkerNode>)
    ensures |weighted| == ClampedWeight(nodes)
  {
    if nodes == [] then [] else Repeat(nodes[0], Clamp(nodes[0].weight)) + Expand(nodes[1..])
  }

  /** `availableNodes.Sum(n => n.Weight)`. A negative weight lowers the sum but adds no entries to
      the weighted list, so the sum never exceeds the clamped weights. */
  function TotalWeight(nodes: seq<WorkerNode>): (total: int)
    ensures total <= ClampedWeight(nodes)
  {
    if nodes == [] then 0 else nodes[0].weight + TotalWeight(nodes[1..])
  }

  /** The weights with non-positive ones counted as zero. */
  function ClampedWeight(nodes: seq<WorkerNode>): nat
  {
    if nodes == [] then 0 else Clamp(nodes[0].weight) + ClampedWeight(nodes[1..])
  }

  predicate NonNegativeWeights(nodes: seq<WorkerNode>)
  {
    forall i :: 0 <= i < |nodes| ==> nodes[i].weight >= 0
  }

  lemma {:induction false} ExpandAppend(a: seq<WorkerNode>, b: seq<WorkerNode>)
    ensures Expand(a + b) == Expand(a) + Expand(b)
  {
    if a != [] {
      assert (a + b)[0] == a[0];
      assert (a + b)[1..] == a[1..] + b;
      ExpandAppend(a[1..], b);
    } else {
      assert a + b == b;
    }
  }

  /** The expanded list is as long as the sum of the weights (non-positive weights add nothing). */
  lemma {:induction false} ExpandLength(nodes: seq<WorkerNode>)
    ensures |Expand(nodes)| == ClampedWeight(nodes)
    ensures NonNegativeWeights(nodes) ==> |Expand(nodes)| == TotalWeight(nodes)
  {
    if nodes != [] {
      ExpandLength(nodes[1..]);
      if NonNegativeWeights(nodes) {
        assert forall i :: 0 <= i < |nodes[1..]| ==> nodes[1..][i] == nodes[i + 1];
      }
    }
  }

  /** Exactly the nodes with a positive weight appear in the expanded list. */
  lemma {:induction false} ExpandMembers(nodes: seq<WorkerNode>)
    ensures forall x :: x in Expand(nodes) <==> x in nodes && x.weight > 0
  {
    if nodes != [] {
      ExpandMembers(nodes[1..]);
      forall x ensures x in Expand(nodes) <==> x in nodes && x.weight > 0 {
        assert x in nodes <==> x == nodes[0] || x in nodes[1..];
      }
    }
  }

  /** A node's repetitions hold that node and nothing else. */
  lemma {:induction false} RepeatMultiplicity(node: WorkerNode, k: nat, x: WorkerNode)
    ensures multiset(Repeat(node, k))[x] == if node == x then k else 0
  {
    if k > 0 {
      RepeatMultiplicity(node, k - 1, x);
    }
  }

  /** Counting in a list splits into its first element and the rest. */
  lemma ConsMultiplicity(nodes: seq<WorkerNode>, x: WorkerNode)
    requires nodes != []
    ensures multiset(nodes)[x] == (if nodes[0] == x then 1 else 0) + multiset(nodes[1..])[x]
    ensures multiset(Expand(nodes))[x]
         == multiset(Repeat(nodes[0], Clamp(nodes[0].weight)))[x] + multiset(Expand(nodes[1..]))[x]
  {
    assert nodes == [nodes[0]] + nodes[1..];
  }

  /** Each node appears in the expanded list as often as it is listed times its weight; a node listed
      once therefore appears exactly `weight` times. */
  lemma {:induction false} ExpandMultiplicity(nodes: seq<WorkerNode>, x: WorkerNode)
    ensures multiset(Expand(nodes))[x] == multiset(nodes)[x] * Clamp(x.weight)
  {
    if nodes != [] {
      var w := Clamp(x.weight);
      var m := multiset(nodes[1..])[x];
      ExpandMultiplicity(nodes[1..], x);
      RepeatMultiplicity(nodes[0], Clamp(nodes[0].weight), x);
      ConsMultiplicity(nodes, x);
      if nodes[0] == x {
        SuccTimes(m, w);
      }
    }
  }

  lemma SuccTimes(m: int, w: int)
    ensures w + m * w == (1 + m) * w
  {
  }

  /** Where node i's block starts in the expanded list: the weights of the nodes before it. */
  function Offset(nodes: seq<WorkerNode>, i: nat): nat
    requires i <= |nodes|
  {
    ClampedWeight(nodes[..i])
  }

  /** Each node's copies form one contiguous block, the blocks in list order. */
  lemma ExpandBlock(nodes: seq<WorkerNode>, i: nat)
    requires i < |nodes|
    ensures Offset(nodes, i) + Clamp(nodes[i].weight) <= |Expand(nodes)|
    ensures Expand(nodes)[Offset(nodes, i) .. Offset(nodes, i) + Clamp(nodes[i].weight)]
         == Repeat(nodes[i], Clamp(nodes[i].weight))
  {
    var before, rest := nodes[..i], nodes[i + 1..];
    var block := Repeat(nodes[i], Clamp(nodes[i].weight));
    assert nodes == before + ([nodes[i]] + rest);
    ExpandAppend(before, [nodes[i]] + rest);
    ExpandAppend([nodes[i]], rest);
    assert Expand([nodes[i]]) == block + Expand([]);
    ExpandLength(before);
    assert Expand(nodes) == Expand(before) + block + Expand(rest);
  }

  datatype DispatchError =
    | NoHealthyNodes      // InvalidOperationException: no configured node is healthy
    | DivideByZero        // the healthy nodes' weights add up to an empty weighted list
    | ArgumentOutOfRange  // the counter wrapped to a negative int; List<T>'s indexer rejects the negative index
    | DispatchFailure     // the outbound call threw; rethrown after the demotion

  /** `weightedNodes[counter % weightedNodes.Count]`, with C#'s `%` and its exceptions. For a
      non-negative counter it is the usual cyclic position; a negative counter fails unless it is a
      multiple of the list's length. */
  function Pick(weighted: seq<WorkerNode>, counter: int): (r: Result<WorkerNode, DispatchError>)
    ensures weighted == [] ==> r == Err(DivideByZero)
    ensures weighted != [] && counter >= 0 ==> r == Ok(weighted[counter % |weighted|])
    ensures weighted != [] && counter < 0 ==> (r.Err? <==> counter % |weighted| != 0)
    ensures weighted != [] && counter < 0 ==>
      r == (if counter % |weighted| == 0 then Ok(weighted[0]) else Err(ArgumentOutOfRange))
    ensures r.Err? ==> r.error == DivideByZero || r.error == ArgumentOutOfRange
    ensures r.Ok? ==> r.value in weighted
  {
    if |weighted| == 0 then Err(DivideByZero)
    else
      var index := Remainder(counter, |weighted|);
      DivModUnique(counter, |weighted|, (counter - index) / |weighted| - (if index < 0 then 1 else 0),
                   if index < 0 then index + |weighted| else index);
      if index < 0 then Err(ArgumentOutOfRange) else Ok(weighted[index])
  }

  /** With every weight at least 1 and a non-negative counter the selection succeeds, and the chosen
      node is one of the candidates. */
  lemma SelectionSucceeds(available: seq<WorkerNode>, counter: int)
    requires available != []
    requires forall i :: 0 <= i < |available| ==> available[i].weight >= 1
    requires counter >= 0
    ensures |Expand(available)| == TotalWeight(available) > 0
    ensures Pick(Expand(available), counter) == Ok(Expand(available)[counter % TotalWeight(available)])
    ensures Pick(Expand(available), counter).value in available
  {
    ExpandLength(available);
    ExpandMembers(available);
    assert available[0] in Expand(available);
  }

  /** After 2^31 - 1 increments the counter holds the largest int, and the next increment wraps it
      to the smallest; with the three configured nodes all healthy, that selection then fails
      instead of picking a node. */
  lemma CounterWrapFailsSelection(available: seq<WorkerNode>)
    requires |available| == 3
    requires forall i :: 0 <= i < 3 ==> available[i].weight == 1
    ensures Increment32(Int32Max) == Int32Min
    ensures Pick(Expand(available), Increment32(Int32Max)) == Err(ArgumentOutOfRange)
  {
    ExpandLength(available);
    assert TotalWeight(available) == 3 by {
      assert TotalWeight(available[2..]) == 1;
      assert TotalWeight(available[1..]) == 2 by { assert available[1..][1..] == available[2..]; }
    }
  }

  /** The nodes chosen by `count` consecutive selections from an unchanging weighted list, the first
      made with counter value `from`. */
  function Selections(weighted: seq<WorkerNode>, from: nat, count: nat): (chosen: seq<WorkerNode>)
    requires weighted != []
    ensures |chosen| == count
    decreases count
  {
    if count == 0 then [] else [weighted[from % |weighted|]] + Selections(weighted, from + 1, count - 1)
  }

  /** The k-th of consecutive selections is what Pick gives for counter value `from + k`. */
  lemma {:induction false} SelectionsAt(weighted: seq<WorkerNode>, from: nat, count: nat, k: nat)
    requires weighted != [] && k < count
    decreases count
    ensures |Selections(weighted, from, count)| == count
    ensures Selections(weighted, from, count)[k] == weighted[(from + k) % |weighted|]
    ensures Pick(weighted, from + k) == Ok(Selections(weighted, from, count)[k])
  {
    if k > 0 {
      SelectionsAt(weighted, from + 1, count - 1, k - 1);
    } else if count > 1 {
      SelectionsAt(weighted, from + 1, count - 1, 0);
    }
  }

  /** One full round of selections visits the weighted list rotated to the counter's position. */
  lemma SelectionsRotate(weighted: seq<WorkerNode>, from: nat)
    requires weighted != []
    ensures Selections(weighted, from, |weighted|)
         == weighted[from % |weighted|..] + weighted[..from % |weighted|]
  {
    var n := |weighted|;
    var s := from % n;
    var rot := weighted[s..] + weighted[..s];
    var sel := Selections(weighted, from, n);
    SelectionsAt(weighted, from, n, 0);
    forall k | 0 <= k < n ensures sel[k] == rot[k] {
      SelectionsAt(weighted, from, n, k);
      RotatedPosition(n, from, k);
    }
  }

  /** Position k of the list rotated to `from % n` is position `(from + k) % n` of the list. */
  lemma RotatedPosition(n: nat, from: nat, k: nat)
    requires 0 <= k < n
    ensures k < n - from % n ==> (from + k) % n == from % n + k
    ensures k >= n - from % n ==> (from + k) % n == from % n + k - n
  {
    var s := from % n;
    DivModUnique(from, n, from / n, s);
    if k < n - s {
      DivModUnique(from + k, n, from / n, s + k);
    } else {
      DivModUnique(from + k, n, from / n + 1, s + k - n);
    }
  }

  /** Weighted fairness: over as many consecutive selections as the weights add up to, against an
      unchanging healthy list, every node is chosen exactly (times listed) x (weight) times. */
  lemma WeightedRoundRobinFairness(available: seq<WorkerNode>, from: nat)
    requires Expand(available) != []
    ensures multiset(Selections(Expand(available), from, |Expand(available)|)) == multiset(Expand(available))
    ensures forall x :: multiset(Selections(Expand(available), from, |Expand(available)|))[x]
                        == multiset(available)[x] * Clamp(x.weight)
  {
    var weighted := Expand(available);
    var s := from % |weighted|;
    SelectionsRotate(weighted, from);
    assert weighted == weighted[..s] + weighted[s..];
    forall x ensures multiset(weighted)[x] == multiset(available)[x] * Clamp(x.weight) {
      ExpandMultiplicity(available, x);
    }
  }

  /** The counter after `k` calls of `Interlocked.Increment`, starting from `x`. */
  function Advance32(x: int, k: nat): (r: int)
    requires IsInt32(x)
    ensures IsInt32(r)
  {
    if k == 0 then x else Increment32(Advance32(x, k - 1))
  }

  /** Until it reaches the largest int, the shared counter counts up one by one, like the idealised
      counter of `Selections`. */
  lemma {:induction false} Advance32NoWrap(x: int, k: nat)
    requires IsInt32(x) && x + k <= Int32Max
    ensures Advance32(x, k) == x + k
  {
    if k > 0 {
      Advance32NoWrap(x, k - 1);
    }
  }

  /** With the stored counter at `counter` and no wrap within the round, the selection made after
      k increments of the shared counter is the (k - 1)-th of `Selections` from `counter + 1`. */
  lemma Int32RoundSelections(weighted: seq<WorkerNode>, counter: int)
    requires weighted != []
    requires -1 <= counter && counter + |weighted| <= Int32Max
    ensures forall k :: 1 <= k <= |weighted| ==>
      Pick(weighted, Advance32(counter, k)) == Ok(Selections(weighted, counter + 1, |weighted|)[k - 1])
  {
    forall k | 1 <= k <= |weighted|
      ensures Pick(weighted, Advance32(counter, k)) == Ok(Selections(weighted, counter + 1, |weighted|)[k - 1])
    {
      Advance32NoWrap(counter, k);
      SelectionsAt(weighted, counter + 1, |weighted|, k - 1);
    }
  }

  /** Fairness for the program's own 32-bit counter: when a full round of selections starting from
      the stored value `counter` stays below the largest int, the round is the one `Selections`
      describes, so it chooses every node (times listed) x (weight) times. A round that crosses the
      largest int is not fair; see `CounterWrapFailsSelection`. */
  lemma Int32RoundIsFair(available: seq<WorkerNode>, counter: int)
    requires Expand(available) != []
    requires -1 <= counter && counter + |Expand(available)| <= Int32Max
    ensures forall k :: 1 <= k <= |Expand(available)| ==>
      Pick(Expand(available), Advance32(counter, k))
        == Ok(Selections(Expand(available), counter + 1, |Expand(available)|)[k - 1])
    ensures forall x :: multiset(Selections(Expand(available), counter + 1, |Expand(available)|))[x]
                        == multiset(available)[x] * Clamp(x.weight)
  {
    Int32RoundSelections(Expand(available), counter);
    WeightedRoundRobinFairness(available, counter + 1);
  }

  /** The node list hard-coded in LoadBalancerService, created when the clock reads `now`; the same
      nodes, addresses and weights as the registry's list. */
  function LoadBalancerWorkers(now: int): (nodes: seq<WorkerNode>)
    ensures nodes == HealthCheckWorkers(now)
  {
    [ NewWorkerNode("worker1", "http://worker1:5002", 1, now),
      NewWorkerNode("worker2", "http://worker2:5003", 1, now),
      NewWorkerNode("worker3", "http://worker3:5004", 1, now) ]
  }

  /** What the outbound `GET {BaseUrl}/api/calculation/cal?n=…` produced: the worker's response, or
      an exception. Whether retry and circuit-breaker handlers wrap the dispatcher's client is not
      modelled; an unconstrained outcome covers either case. */
  datatype CallOutcome = Replied(response: CalculationResponse) | Failed

  class LoadBalancerService {
    const healthCheckService: HealthCheckService
    const workerNodes: seq<WorkerNode>
    var currentIndex: int
    /** The base addresses the dispatcher has sent requests to, oldest first. */
    ghost var outboundCalls: seq<string>

    ghost predicate Valid()
      reads this
    {
      IsInt32(currentIndex)
    }

    constructor (registry: HealthCheckService, now: int)
      ensures Valid()
      ensures healthCheckService == registry
      ensures workerNodes == LoadBalancerWorkers(now)
      ensures currentIndex == 0 && outboundCalls == []
    {
      healthCheckService := registry;
      workerNodes := LoadBalancerWorkers(now);
      currentIndex := 0;
      outboundCalls := [];
    }

    /** Builds the weighted list, bumps the shared counter by one and picks the node at the new
        counter value; the first call after construction thus uses position 1. */
    method SelectNode(availableNodes: seq<WorkerNode>) returns (selected: Result<WorkerNode, DispatchError>)
      requires Valid()
      modifies this`currentIndex
      ensures Valid()
      ensures currentIndex == Increment32(old(currentIndex))
      ensures selected == Pick(Expand(availableNodes), currentIndex)
    {
      var weightedNodes: seq<WorkerNode> := [];
      for k := 0 to |availableNodes|
        invariant currentIndex == old(currentIndex)
        invariant weightedNodes == Expand(availableNodes[..k])
      {
        var node := availableNodes[k];
        var i := 0;
        while i < node.weight
          invariant currentIndex == old(currentIndex)
          invariant 0 <= i <= Clamp(node.weight)
          invariant weightedNodes == Expand(availableNodes[..k]) + Repeat(node, i)
        {
          weightedNodes := weightedNodes + [node];
          i := i + 1;
        }
        assert availableNodes[..k + 1] == availableNodes[..k] + [node];
        ExpandAppend(availableNodes[..k], [node]);
        assert Expand([node]) == Repeat(node, Clamp(node.weight)) + Expand([]);
      }
      assert availableNodes[..|availableNodes|] == availableNodes;
      currentIndex := Increment32(currentIndex);
      if |weightedNodes| == 0 {
        return Err(DivideByZero);
      }
      var index := Remainder(currentIndex, |weightedNodes|);
      if index < 0 {
        return Err(ArgumentOutOfRange);
      }
      selected := Ok(weightedNodes[index]);
    }

    /** Routes one request. With no healthy node it fails before selecting or calling anyone. Otherwise
        it selects a healthy node and forwards the request; the worker's response is returned
        unchanged, and a failed call demotes exactly the selected node and is rethrown. */
    method ProcessRequest(request: CalculationRequest, reply: (string, real) -> CallOutcome)
      returns (r: Result<CalculationResponse, DispatchError>)
      requires Valid() && healthCheckService.Valid()
      modifies this, healthCheckService
      ensures Valid() && healthCheckService.Valid()
      ensures old(AvailableNodes(workerNodes, healthCheckService)) == [] ==>
        && r == Err(NoHealthyNodes)
        && currentIndex == old(currentIndex)
        && outboundCalls == old(outboundCalls)
        && healthCheckService.nodeStatuses == old(healthCheckService.nodeStatuses)
      ensures old(AvailableNodes(workerNodes, healthCheckService)) != [] ==>
        currentIndex == Increment32(old(currentIndex))
      ensures
        var available := old(AvailableNodes(workerNodes, healthCheckService));
        var pick := Pick(Expand(available), currentIndex);
        available != [] && pick.Err? ==>
          && r == Err(pick.error)
          && outboundCalls == old(outboundCalls)
          && healthCheckService.nodeStatuses == old(healthCheckService.nodeStatuses)
      ensures
        var available := old(AvailableNodes(workerNodes, healthCheckService));
        var pick := Pick(Expand(available), currentIndex);
        available != [] && pick.Ok? ==>
          && pick.value in available
          && old(healthCheckService.IsNodeHealthy(pick.value.id))
          && outboundCalls == old(outboundCalls) + [pick.value.baseUrl]
          && match reply(pick.value.baseUrl, request.n)
             case Replied(response) =>
               r == Ok(response) && healthCheckService.nodeStatuses == old(healthCheckService.nodeStatuses)
             case Failed =>
               && r == Err(DispatchFailure)
               && healthCheckService.nodeStatuses == MarkedUnhealthy(old(healthCheckService.nodeStatuses), pick.value.id)
    {
      var availableNodes := AvailableNodes(workerNodes, healthCheckService);
      if availableNodes == [] {
        return Err(NoHealthyNodes);
      }
      var selected := SelectNode(availableNodes);
      if selected.Err? {
        return Err(selected.error);
      }
      ExpandMembers(availableNodes);
      var selectedNode := selected.value;
      outboundCalls := outboundCalls + [selectedNode.baseUrl];
      match reply(selectedNode.baseUrl, request.n) {
        case Replied(response) =>
          r := Ok(response);
        case Failed =>
          healthCheckService.MarkNodeUnhealthy(selectedNode.id);
          r := Err(DispatchFailure);
      }
    }
  }
}

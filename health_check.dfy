/** The node health registry of the load-balancer role (LoadBalancer/Services/HealthCheckService.cs):
    a dictionary from node id to the node's record, demoted by the dispatcher and refreshed by probes.

    The map-level functions below say what each operation does to the dictionary; the class
    HealthCheckService owns the dictionary and its methods are proved against them. */
module HealthCheck {
  import opened Models

  /** What `GET {BaseUrl}/health` produced: a response, with or without a success status code,
      or an exception (transport failure, or the 5-second client timeout). */
  datatype ProbeOutcome = Responded(isSuccessStatusCode: bool) | Threw

  /** The health flag a probe leaves behind: the response's status class, false after an exception. */
  predicate ProbeVerdict(outcome: ProbeOutcome)
    ensures ProbeVerdict(outcome) <==> outcome == Responded(true)
  {
    match outcome
    case Responded(isSuccessStatusCode) => isSuccessStatusCode
    case Threw => false
  }

  /** The node list hard-coded in HealthCheckService, created when the clock reads `now`. */
  function HealthCheckWorkers(now: int): (nodes: seq<WorkerNode>)
    ensures |nodes| == 3
    ensures forall i :: 0 <= i < |nodes| ==>
      && nodes[i].weight == 1 && nodes[i].isHealthy
      && nodes[i].lastHealthCheck == now && nodes[i].activeRequests == 0
  {
    [ NewWorkerNode("worker1", "http://worker1:5002", 1, now),
      NewWorkerNode("worker2", "http://worker2:5003", 1, now),
      NewWorkerNode("worker3", "http://worker3:5004", 1, now) ]
  }

  /** The ids of a node list. */
  function Ids(nodes: seq<WorkerNode>): set<string>
  {
    set i | 0 <= i < |nodes| :: nodes[i].id
  }

  /** No two nodes of the list share an id. */
  predicate DistinctIds(nodes: seq<WorkerNode>)
  {
    forall i, j :: 0 <= i < j < |nodes| ==> nodes[i].id != nodes[j].id
  }

  /** The dictionary after `MarkNodeUnhealthy(nodeId)`: a registered node loses its health flag,
      nothing else changes, and an unknown id leaves the dictionary as it was. */
  function MarkedUnhealthy(statuses: map<string, WorkerNode>, nodeId: string): (r: map<string, WorkerNode>)
    ensures r.Keys == statuses.Keys
    ensures nodeId in statuses ==> r[nodeId] == statuses[nodeId].(isHealthy := false)
    ensures nodeId !in statuses ==> r == statuses
    ensures forall id :: id in statuses && id != nodeId ==> r[id] == statuses[id]
  {
    match TryGetValue(statuses, nodeId)
    case Some(node) => statuses[nodeId := node.(isHealthy := false)]
    case None => statuses
  }

  /** The dictionary after CheckNodeHealthAsync for `nodeId` saw `outcome` while the clock read `now`:
      a registered node's flag becomes the probe's verdict and its check time is refreshed, whatever
      the outcome; no other entry changes and no key is added or removed. */
  function Probed(statuses: map<string, WorkerNode>, nodeId: string, outcome: ProbeOutcome, now: int)
    : (r: map<string, WorkerNode>)
    ensures r.Keys == statuses.Keys
    ensures nodeId in statuses ==>
      r[nodeId] == statuses[nodeId].(isHealthy := ProbeVerdict(outcome), lastHealthCheck := now)
    ensures forall id :: id in statuses && id != nodeId ==> r[id] == statuses[id]
  {
    match outcome
    case Responded(isSuccessStatusCode) =>
      (match TryGetValue(statuses, nodeId)
       case Some(status) => statuses[nodeId := status.(isHealthy := isSuccessStatusCode, lastHealthCheck := now)]
       case None => statuses)
    case Threw =>
      (match TryGetValue(statuses, nodeId)
       case Some(status) => statuses[nodeId := status.(isHealthy := false, lastHealthCheck := now)]
       case None => statuses)
  }

  /** The dictionary after one PerformHealthChecksAsync cycle probing `nodes` in list order;
      `probe` gives the outcome of the health request sent to a base address. */
  function Cycle(statuses: map<string, WorkerNode>, nodes: seq<WorkerNode>, probe: string -> ProbeOutcome, now: int)
    : (r: map<string, WorkerNode>)
    decreases |nodes|
    ensures r.Keys == statuses.Keys
  {
    if nodes == [] then statuses
    else Cycle(Probed(statuses, nodes[0].id, probe(nodes[0].baseUrl), now), nodes[1..], probe, now)
  }

  lemma IdsOfTail(nodes: seq<WorkerNode>)
    requires nodes != [] && DistinctIds(nodes)
    ensures Ids(nodes) == {nodes[0].id} + Ids(nodes[1..])
    ensures nodes[0].id !in Ids(nodes[1..])
    ensures DistinctIds(nodes[1..])
  {
  }

  /** One cycle probes every listed node exactly once: each registered listed node ends with its own
      probe's verdict and a fresh check time, unlisted nodes are untouched, and the key set is kept. */
  lemma {:induction false} CycleEffect(statuses: map<string, WorkerNode>, nodes: seq<WorkerNode>,
                                       probe: string -> ProbeOutcome, now: int)
    requires DistinctIds(nodes)
    ensures Cycle(statuses, nodes, probe, now).Keys == statuses.Keys
    ensures forall i :: 0 <= i < |nodes| && nodes[i].id in statuses ==>
      Cycle(statuses, nodes, probe, now)[nodes[i].id]
        == statuses[nodes[i].id].(isHealthy := ProbeVerdict(probe(nodes[i].baseUrl)), lastHealthCheck := now)
    ensures forall id :: id in statuses && id !in Ids(nodes) ==> Cycle(statuses, nodes, probe, now)[id] == statuses[id]
  {
    if nodes != [] {
      var first := nodes[0];
      var next := Probed(statuses, first.id, probe(first.baseUrl), now);
      IdsOfTail(nodes);
      CycleEffect(next, nodes[1..], probe, now);
      var r := Cycle(statuses, nodes, probe, now);
      assert r == Cycle(next, nodes[1..], probe, now);
      forall i | 0 <= i < |nodes| && nodes[i].id in statuses
        ensures r[nodes[i].id]
          == statuses[nodes[i].id].(isHealthy := ProbeVerdict(probe(nodes[i].baseUrl)), lastHealthCheck := now)
      {
        if i == 0 {
          assert first.id !in Ids(nodes[1..]);
        } else {
          assert nodes[1..][i - 1] == nodes[i];
          assert nodes[i].id != first.id;
        }
      }
    }
  }

  /** A demotion leaves no trace once the node is probed again: the probe's verdict alone decides the
      flag, so a demoted node that answers its next probe successfully is back in rotation. */
  lemma ProbeOverridesDemotion(statuses: map<string, WorkerNode>, nodeId: string, outcome: ProbeOutcome, now: int)
    ensures Probed(MarkedUnhealthy(statuses, nodeId), nodeId, outcome, now) == Probed(statuses, nodeId, outcome, now)
    ensures nodeId in statuses && outcome == Responded(true) ==>
      Probed(MarkedUnhealthy(statuses, nodeId), nodeId, outcome, now)[nodeId].isHealthy
  {
  }

  /** Demoting twice is demoting once. */
  lemma MarkedUnhealthyIdempotent(statuses: map<string, WorkerNode>, nodeId: string)
    ensures MarkedUnhealthy(MarkedUnhealthy(statuses, nodeId), nodeId) == MarkedUnhealthy(statuses, nodeId)
  {
  }

  /** Probes of two different nodes give the same dictionary in either order, so running a cycle's
      probes concurrently cannot change its outcome. */
  lemma ProbesCommute(statuses: map<string, WorkerNode>, a: string, outcomeA: ProbeOutcome,
                      b: string, outcomeB: ProbeOutcome, now: int)
    requires a != b
    ensures Probed(Probed(statuses, a, outcomeA, now), b, outcomeB, now)
         == Probed(Probed(statuses, b, outcomeB, now), a, outcomeA, now)
  {
  }

  /** A demotion of one node and a probe of another commute as well: the dispatcher's failure path
      and the background cycle do not interfere across nodes. */
  lemma DemotionAndProbeCommute(statuses: map<string, WorkerNode>, demoted: string,
                                probed: string, outcome: ProbeOutcome, now: int)
    requires demoted != probed
    ensures MarkedUnhealthy(Probed(statuses, probed, outcome, now), demoted)
         == Probed(MarkedUnhealthy(statuses, demoted), probed, outcome, now)
  {
  }

  /** The hard-coded nodes have distinct ids worker1..worker3 and all start healthy. */
  lemma ConfiguredNodes(now: int)
    ensures DistinctIds(HealthCheckWorkers(now))
    ensures Ids(HealthCheckWorkers(now)) == {"worker1", "worker2", "worker3"}
    ensures forall i :: 0 <= i < |HealthCheckWorkers(now)| ==> HealthCheckWorkers(now)[i].isHealthy
  {
    var nodes := HealthCheckWorkers(now);
    assert nodes[0].id in Ids(nodes) && nodes[1].id in Ids(nodes) && nodes[2].id in Ids(nodes);
  }

  /** Extending a prefix by one node adds that node's id. */
  lemma IdsOfPrefix(nodes: seq<WorkerNode>, i: nat)
    requires i < |nodes|
    ensures Ids(nodes[..i + 1]) == Ids(nodes[..i]) + {nodes[i].id}
  {
  }

  /** The registry. The C# class keeps the same WorkerNode objects in its list and in the dictionary;
      only the dictionary's copies are ever read for health, so the list here is a constant. */
  class HealthCheckService {
    const workerNodes: seq<WorkerNode>
    var nodeStatuses: map<string, WorkerNode>

    /** Every listed node is registered under its own id and nothing else is. */
    ghost predicate Valid()
      reads this
    {
      && DistinctIds(workerNodes)
      && nodeStatuses.Keys == Ids(workerNodes)
      && (forall id :: id in nodeStatuses ==> nodeStatuses[id].id == id)
    }

    /** Registers every hard-coded node under its id; all start healthy. */
    constructor (now: int)
      ensures Valid()
      ensures workerNodes == HealthCheckWorkers(now)
      ensures nodeStatuses.Keys == {"worker1", "worker2", "worker3"}
      ensures forall id :: id in nodeStatuses ==> nodeStatuses[id].isHealthy
      ensures forall i :: 0 <= i < |workerNodes| ==> nodeStatuses[workerNodes[i].id] == workerNodes[i]
    {
      var nodes := HealthCheckWorkers(now);
      ConfiguredNodes(now);
      var statuses: map<string, WorkerNode> := map[];
      for i := 0 to |nodes|
        invariant statuses.Keys == Ids(nodes[..i])
        invariant forall j :: 0 <= j < i ==> nodes[j].id in statuses && statuses[nodes[j].id] == nodes[j]
      {
        IdsOfPrefix(nodes, i);
        statuses := statuses[nodes[i].id := nodes[i]];
      }
      assert nodes[..|nodes|] == nodes;
      workerNodes := nodes;
      nodeStatuses := statuses;
    }

    /** True exactly for a registered node whose flag is set; an unknown id is simply unhealthy. */
    function IsNodeHealthy(nodeId: string): (healthy: bool)
      reads this
      ensures healthy <==> nodeId in nodeStatuses && nodeStatuses[nodeId].isHealthy
      ensures nodeId !in nodeStatuses ==> !healthy
    {
      match TryGetValue(nodeStatuses, nodeId)
      case Some(node) => node.isHealthy
      case None => false
    }

    /** Demotes a registered node; an unknown id is ignored. */
    method MarkNodeUnhealthy(nodeId: string)
      requires Valid()
      modifies this
      ensures Valid()
      ensures nodeStatuses == MarkedUnhealthy(old(nodeStatuses), nodeId)
      ensures !IsNodeHealthy(nodeId)
    {
      var found := TryGetValue(nodeStatuses, nodeId);
      if found.Some? {
        nodeStatuses := nodeStatuses[nodeId := found.value.(isHealthy := false)];
      }
    }

    /** Sends the health request for `node` and records the outcome. */
    method CheckNodeHealth(node: WorkerNode, probe: string -> ProbeOutcome, now: int)
      requires Valid()
      modifies this
      ensures Valid()
      ensures nodeStatuses == Probed(old(nodeStatuses), node.id, probe(node.baseUrl), now)
    {
      var outcome := probe(node.baseUrl);
      var found := TryGetValue(nodeStatuses, node.id);
      match outcome {
        case Responded(isSuccessStatusCode) =>
          var isHealthy := isSuccessStatusCode;
          if found.Some? {
            nodeStatuses := nodeStatuses[node.id := found.value.(isHealthy := isHealthy, lastHealthCheck := now)];
          }
        case Threw =>
          if found.Some? {
            nodeStatuses := nodeStatuses[node.id := found.value.(isHealthy := false, lastHealthCheck := now)];
          }
      }
    }

    /** One health cycle: every listed node is probed once. Afterwards each node's flag is its own
        probe's verdict and every entry carries the cycle's check time. */
    method PerformHealthChecks(probe: string -> ProbeOutcome, now: int)
      requires Valid()
      modifies this
      ensures Valid()
      ensures nodeStatuses == Cycle(old(nodeStatuses), workerNodes, probe, now)
      ensures forall i :: 0 <= i < |workerNodes| ==>
        nodeStatuses[workerNodes[i].id].isHealthy == ProbeVerdict(probe(workerNodes[i].baseUrl))
      ensures forall id :: id in nodeStatuses ==> nodeStatuses[id].lastHealthCheck == now
    {
      for i := 0 to |workerNodes|
        invariant Valid()
        invariant Cycle(nodeStatuses, workerNodes[i..], probe, now) == Cycle(old(nodeStatuses), workerNodes, probe, now)
      {
        assert workerNodes[i..][1..] == workerNodes[i + 1..];
        CheckNodeHealth(workerNodes[i], probe, now);
      }
      assert workerNodes[|workerNodes|..] == [];
      CycleEffect(old(nodeStatuses), workerNodes, probe, now);
      forall id | id in nodeStatuses
        ensures nodeStatuses[id].lastHealthCheck == now
      {
        var i :| 0 <= i < |workerNodes| && workerNodes[i].id == id;
      }
    }
  }
}

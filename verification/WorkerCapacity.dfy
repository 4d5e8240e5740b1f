/** What the worker nodes still have room for, as the quota loop and the node-scaling loop each compute it. */
module WorkerCapacity {
  import opened Quantities
  import opened ResourceQuotas
  import opened Sequences
  import opened Pods
  import opened ClusterNodes

  function Allocatable(node: Node): Amounts { Just(Milli(node.cpu), Mega(node.memory)) }

  function EligibleCpu(node: Node): int { if Eligible(node) then Milli(node.cpu) else 0 }

  function EligibleMemory(node: Node): int { if Eligible(node) then Mega(node.memory) else 0 }

  predicate RunsOn(pod: Pod, names: set<string>) { pod.nodeName in names && !IsTerminal(pod) }

  function CpuOn(names: set<string>): Pod -> int {
    (pod: Pod) => if RunsOn(pod, names) then PodRequests(pod.spec).cpu else 0
  }

  function MemoryOn(names: set<string>): Pod -> int {
    (pod: Pod) => if RunsOn(pod, names) then PodRequests(pod.spec).memory else 0
  }

  function EligibleNames(nodes: seq<Node>): set<string> { set n | n in nodes && Eligible(n) :: n.name }

  function Capacity(nodes: seq<Node>): Amounts { Just(Sum(nodes, EligibleCpu), Sum(nodes, EligibleMemory)) }

  function Requested(pods: seq<Pod>, names: set<string>): Amounts {
    Just(Sum(pods, CpuOn(names)), Sum(pods, MemoryOn(names)))
  }

  function Minus(a: Amounts, b: Amounts): Amounts { Just(a.cpu - b.cpu, a.memory - b.memory) }

  function Clamped(a: Amounts): Amounts { Just(Max(0, a.cpu), Max(0, a.memory)) }

  /** Allocatable of the eligible nodes less the requests of the live pods on them; negative when overcommitted. */
  function Balance(nodes: seq<Node>, pods: seq<Pod>): Amounts {
    Minus(Capacity(nodes), Requested(pods, EligibleNames(nodes)))
  }

  function Available(nodes: seq<Node>, pods: seq<Pod>): Amounts { Clamped(Balance(nodes, pods)) }

  function CapacityByNode(nodes: seq<Node>): map<string, Amounts> {
    if |nodes| == 0 then map[]
    else
      var front, last := CapacityByNode(nodes[..|nodes| - 1]), nodes[|nodes| - 1];
      if Eligible(last) then front[last.name := Allocatable(last)] else front
  }

  // ----- The two computations -----

  /** The quota loop: a set of worker names. */
  method WorkerNodeAvailableResources(nodes: seq<Node>, pods: seq<Pod>) returns (available: Amounts)
    ensures available == Available(nodes, pods)
  {
    var workers: map<string, bool> := map[];
    var cpu, memory := 0, 0;
    for i := 0 to |nodes|
      invariant workers.Keys == EligibleNames(nodes[..i]) && forall n :: n in workers ==> workers[n]
      invariant Just(cpu, memory) == Capacity(nodes[..i])
    {
      EligibleNamesGrow(nodes, i);
      assert nodes[..i + 1][..i] == nodes[..i];
      var node := nodes[i];
      if IsControlPlane(node) || node.unschedulable || HasScalingTaint(node) { continue; }
      workers := workers[node.name := true];
      cpu := cpu + Milli(node.cpu);
      memory := memory + Mega(node.memory);
    }
    assert nodes[..|nodes|] == nodes;
    ghost var names := EligibleNames(nodes);
    for i := 0 to |pods|
      invariant Just(cpu, memory) == Minus(Capacity(nodes), Requested(pods[..i], names))
    {
      assert pods[..i + 1][..i] == pods[..i];
      if !(pods[i].nodeName in workers && workers[pods[i].nodeName]) || IsTerminal(pods[i]) { continue; }
      var requested := PodRequestedResources(pods[i].spec);
      cpu := cpu - requested.cpu;
      memory := memory - requested.memory;
    }
    assert pods[..|pods|] == pods;
    if cpu < 0 { cpu := 0; }
    if memory < 0 { memory := 0; }
    available := Just(cpu, memory);
  }

  method SchedulableWorkerNodeCapacity(nodes: seq<Node>) returns (total: Amounts, perNode: map<string, Amounts>)
    ensures total == Capacity(nodes) && perNode == CapacityByNode(nodes)
  {
    var cpu, memory := 0, 0;
    perNode := map[];
    for i := 0 to |nodes|
      invariant Just(cpu, memory) == Capacity(nodes[..i]) && perNode == CapacityByNode(nodes[..i])
    {
      assert nodes[..i + 1][..i] == nodes[..i];
      var node := nodes[i];
      if IsControlPlane(node) || node.unschedulable || HasScalingTaint(node) { continue; }
      var capacity := Allocatable(node);
      cpu := cpu + capacity.cpu;
      memory := memory + capacity.memory;
      perNode := perNode[node.name := capacity];
    }
    assert nodes[..|nodes|] == nodes;
    total := Just(cpu, memory);
  }

  /** The node-scaling loop: a map of capacities by node name. */
  method SchedulableWorkerNodeAvailableResources(nodes: seq<Node>, pods: seq<Pod>)
    returns (available: Amounts, capacityByNode: map<string, Amounts>)
    ensures available == Available(nodes, pods) && capacityByNode == CapacityByNode(nodes)
  {
    var total;
    total, capacityByNode := SchedulableWorkerNodeCapacity(nodes);
    CapacityByNodeHas(nodes);
    var cpu, memory := total.cpu, total.memory;
    ghost var names := EligibleNames(nodes);
    for i := 0 to |pods|
      invariant Just(cpu, memory) == Minus(Capacity(nodes), Requested(pods[..i], names))
    {
      assert pods[..i + 1][..i] == pods[..i];
      if pods[i].nodeName !in capacityByNode || IsTerminal(pods[i]) { continue; }
      var requested := PodRequestedResources(pods[i].spec);
      cpu := cpu - requested.cpu;
      memory := memory - requested.memory;
    }
    assert pods[..|pods|] == pods;
    if cpu < 0 { cpu := 0; }
    if memory < 0 { memory := 0; }
    available := Just(cpu, memory);
  }

  /** Pending demand fits when both dimensions do; nothing pending always fits. */
  method EnsurePodDemandFitsCluster(nodes: seq<Node>, pods: seq<Pod>, demand: Amounts) returns (fits: bool)
    ensures fits <==>
              || demand.IsEmpty()
              || (demand.cpu <= Available(nodes, pods).cpu && demand.memory <= Available(nodes, pods).memory)
  {
    if demand.IsEmpty() { return true; }
    var available := WorkerNodeAvailableResources(nodes, pods);
    fits := !(demand.cpu > available.cpu || demand.memory > available.memory);
  }

  lemma EligibleNamesGrow(nodes: seq<Node>, i: nat)
    requires i < |nodes|
    ensures EligibleNames(nodes[..i + 1])
            == EligibleNames(nodes[..i]) + (if Eligible(nodes[i]) then {nodes[i].name} else {})
  {
    assert nodes[..i + 1] == nodes[..i] + [nodes[i]];
  }

  lemma {:induction false} CapacityByNodeHas(nodes: seq<Node>)
    ensures CapacityByNode(nodes).Keys == EligibleNames(nodes)
  {
    if |nodes| > 0 {
      CapacityByNodeHas(nodes[..|nodes| - 1]);
      assert nodes[..|nodes|] == nodes;
      EligibleNamesGrow(nodes, |nodes| - 1);
    }
  }

  // ----- What the amount depends on -----

  /** Listing nodes or pods in another order changes nothing. */
  lemma AvailableIgnoresOrder(nodes: seq<Node>, others: seq<Node>, pods: seq<Pod>, otherPods: seq<Pod>)
    requires multiset(nodes) == multiset(others) && multiset(pods) == multiset(otherPods)
    ensures Available(nodes, pods) == Available(others, otherPods)
    ensures Balance(nodes, pods) == Balance(others, otherPods) && EligibleNames(nodes) == EligibleNames(others)
  {
    assert forall n :: n in nodes <==> n in multiset(nodes);
    assert forall n :: n in others <==> n in multiset(others);
    var names := EligibleNames(nodes);
    assert names == EligibleNames(others);
    SumIgnoresOrder(nodes, others, EligibleCpu);
    SumIgnoresOrder(nodes, others, EligibleMemory);
    SumIgnoresOrder(pods, otherPods, CpuOn(names));
    SumIgnoresOrder(pods, otherPods, MemoryOn(names));
  }

  /** Node names are unique in a cluster. */
  ghost predicate DistinctNames(nodes: seq<Node>) {
    forall i, j :: 0 <= i < j < |nodes| ==> nodes[i].name != nodes[j].name
  }

  lemma RequestedSplits(pods: seq<Pod>, names: set<string>, more: set<string>)
    requires names !! more
    ensures Requested(pods, names + more) == Plus(Requested(pods, names), Requested(pods, more))
  {
    SumOfSums(pods, CpuOn(names), CpuOn(more), CpuOn(names + more));
    SumOfSums(pods, MemoryOn(names), MemoryOn(more), MemoryOn(names + more));
  }

  lemma EligibleNamesUpdated(nodes: seq<Node>, i: nat, node: Node)
    requires i < |nodes| && DistinctNames(nodes) && node.name == nodes[i].name
    ensures EligibleNames(nodes[i := node])
            == EligibleNames(nodes) - {node.name} + (if Eligible(node) then {node.name} else {})
    ensures node.name in EligibleNames(nodes) <==> Eligible(nodes[i])
  {
    var updated := nodes[i := node];
    assert updated[i] in updated && nodes[i] in nodes;
    forall name | name != node.name ensures name in EligibleNames(updated) <==> name in EligibleNames(nodes) {
      if name in EligibleNames(updated) {
        var n :| n in updated && Eligible(n) && n.name == name;
        assert n in nodes;
      }
      if name in EligibleNames(nodes) {
        var n :| n in nodes && Eligible(n) && n.name == name;
        var k :| 0 <= k < |nodes| && nodes[k] == n;
        assert updated[k] == n;
      }
    }
    forall n | n in updated && n.name == node.name ensures n == node {
      var k :| 0 <= k < |updated| && updated[k] == n;
      assert k == i;
    }
    forall n | n in nodes && n.name == node.name ensures n == nodes[i] {
      var k :| 0 <= k < |nodes| && nodes[k] == n;
      assert k == i;
    }
  }

  lemma CapacityUpdated(nodes: seq<Node>, i: nat, node: Node)
    requires i < |nodes|
    ensures Capacity(nodes[i := node]).cpu == Capacity(nodes).cpu - EligibleCpu(nodes[i]) + EligibleCpu(node)
    ensures Capacity(nodes[i := node]).memory
            == Capacity(nodes).memory - EligibleMemory(nodes[i]) + EligibleMemory(node)
  {
    SumUpdated(nodes, i, node, EligibleCpu);
    SumUpdated(nodes, i, node, EligibleMemory);
  }

  lemma RequestedWithOne(pods: seq<Pod>, names: set<string>, name: string)
    requires name !in names
    ensures Requested(pods, names + {name}) == Plus(Requested(pods, names), Requested(pods, {name}))
  {
    RequestedSplits(pods, names, {name});
  }

  lemma EligibleNamesCases(nodes: seq<Node>, i: nat, node: Node)
    requires i < |nodes| && DistinctNames(nodes) && node.name == nodes[i].name
    ensures var before, after := EligibleNames(nodes), EligibleNames(nodes[i := node]);
            && (Eligible(node) && !Eligible(nodes[i]) ==> node.name !in before && after == before + {node.name})
            && (!Eligible(node) && Eligible(nodes[i]) ==> node.name !in after && before == after + {node.name})
            && (Eligible(node) == Eligible(nodes[i]) ==> after == before)
  {
    EligibleNamesUpdated(nodes, i, node);
  }

  lemma RequestedGains(nodes: seq<Node>, i: nat, node: Node, pods: seq<Pod>)
    requires i < |nodes| && DistinctNames(nodes) && Eligible(node) && !Eligible(nodes[i]) && node.name == nodes[i].name
    ensures Requested(pods, EligibleNames(nodes[i := node]))
            == Plus(Requested(pods, EligibleNames(nodes)), Requested(pods, {node.name}))
  {
    EligibleNamesCases(nodes, i, node);
    RequestedWithOne(pods, EligibleNames(nodes), node.name);
  }

  lemma RoomAdds(capacity: Amounts, more: Amounts, added: Amounts, requested: Amounts, also: Amounts, own: Amounts)
    requires more.cpu == capacity.cpu + added.cpu && more.memory == capacity.memory + added.memory
    requires also.cpu == requested.cpu + own.cpu && also.memory == requested.memory + own.memory
    ensures Minus(more, also) == Plus(Minus(capacity, requested), Minus(added, own))
  {}

  lemma RoomSubtracts(capacity: Amounts, more: Amounts, added: Amounts, requested: Amounts, also: Amounts, own: Amounts)
    requires more.cpu == capacity.cpu + added.cpu && more.memory == capacity.memory + added.memory
    requires also.cpu == requested.cpu + own.cpu && also.memory == requested.memory + own.memory
    ensures Minus(capacity, requested) == Minus(Minus(more, also), Minus(added, own))
  {}

  lemma BalanceGains(nodes: seq<Node>, i: nat, node: Node, pods: seq<Pod>)
    requires i < |nodes| && DistinctNames(nodes) && Eligible(node) && !Eligible(nodes[i]) && node.name == nodes[i].name
    ensures Balance(nodes[i := node], pods)
            == Plus(Balance(nodes, pods), Minus(Allocatable(node), Requested(pods, {node.name})))
  {
    CapacityUpdated(nodes, i, node);
    RequestedGains(nodes, i, node, pods);
    RoomAdds(Capacity(nodes), Capacity(nodes[i := node]), Allocatable(node), Requested(pods, EligibleNames(nodes)),
             Requested(pods, EligibleNames(nodes[i := node])), Requested(pods, {node.name}));
  }

  lemma RequestedLoses(nodes: seq<Node>, i: nat, node: Node, pods: seq<Pod>)
    requires i < |nodes| && DistinctNames(nodes) && !Eligible(node) && Eligible(nodes[i]) && node.name == nodes[i].name
    ensures Requested(pods, EligibleNames(nodes))
            == Plus(Requested(pods, EligibleNames(nodes[i := node])), Requested(pods, {node.name}))
  {
    EligibleNamesCases(nodes, i, node);
    RequestedWithOne(pods, EligibleNames(nodes[i := node]), node.name);
  }

  lemma BalanceLoses(nodes: seq<Node>, i: nat, node: Node, pods: seq<Pod>)
    requires i < |nodes| && DistinctNames(nodes) && !Eligible(node) && Eligible(nodes[i]) && node.name == nodes[i].name
    ensures Balance(nodes[i := node], pods)
            == Minus(Balance(nodes, pods), Minus(Allocatable(nodes[i]), Requested(pods, {node.name})))
  {
    CapacityUpdated(nodes, i, node);
    RequestedLoses(nodes, i, node, pods);
    RoomSubtracts(Capacity(nodes[i := node]), Capacity(nodes), Allocatable(nodes[i]),
                  Requested(pods, EligibleNames(nodes[i := node])), Requested(pods, EligibleNames(nodes)),
                  Requested(pods, {node.name}));
  }

  lemma BalanceStays(nodes: seq<Node>, i: nat, node: Node, pods: seq<Pod>)
    requires i < |nodes| && DistinctNames(nodes) && Eligible(node) == Eligible(nodes[i]) && node.name == nodes[i].name
    requires node.cpu == nodes[i].cpu && node.memory == nodes[i].memory
    ensures Balance(nodes[i := node], pods) == Balance(nodes, pods)
  {
    CapacityUpdated(nodes, i, node);
    EligibleNamesCases(nodes, i, node);
  }

  /** What changing one node does to the balance: its own room comes or goes with its eligibility. */
  lemma BalanceUpdated(nodes: seq<Node>, i: nat, node: Node, pods: seq<Pod>)
    requires i < |nodes| && DistinctNames(nodes)
    requires node.name == nodes[i].name && node.cpu == nodes[i].cpu && node.memory == nodes[i].memory
    ensures var room := Minus(Allocatable(node), Requested(pods, {node.name}));
            Balance(nodes[i := node], pods) ==
              if Eligible(node) && !Eligible(nodes[i]) then Plus(Balance(nodes, pods), room)
              else if !Eligible(node) && Eligible(nodes[i]) then Minus(Balance(nodes, pods), room)
              else Balance(nodes, pods)
  {
    if Eligible(node) && !Eligible(nodes[i]) {
      BalanceGains(nodes, i, node, pods);
    } else if !Eligible(node) && Eligible(nodes[i]) {
      BalanceLoses(nodes, i, node, pods);
    } else {
      BalanceStays(nodes, i, node, pods);
    }
  }

  /** Activating a node whose pods fit its allocatable never takes room away. */
  lemma ActivationNeverLowersAvailable(nodes: seq<Node>, i: nat, pods: seq<Pod>)
    requires i < |nodes| && DistinctNames(nodes)
    requires Requested(pods, {nodes[i].name}).cpu <= Allocatable(nodes[i]).cpu
    requires Requested(pods, {nodes[i].name}).memory <= Allocatable(nodes[i]).memory
    ensures var after := Available(nodes[i := Activated(nodes[i])], pods);
            after.cpu >= Available(nodes, pods).cpu && after.memory >= Available(nodes, pods).memory
  {
    ActivatedIsUnmarked(nodes[i]);
    BalanceUpdated(nodes, i, Activated(nodes[i]), pods);
    assert Eligible(nodes[i]) ==> Eligible(Activated(nodes[i]));
  }

  // ----- The room, spelled out -----

  /** The room is the allocatable of the nodes that take pods less the requests of the pending and running pods on them,
      and never negative. */
  lemma AvailableIs(nodes: seq<Node>, pods: seq<Pod>, takes: Node -> bool, uses: Pod -> bool)
    requires forall n :: n in nodes ==>
               (takes(n) <==>
                  && "node-role.kubernetes.io/control-plane" !in n.labels
                  && "node-role.kubernetes.io/master" !in n.labels
                  && !n.unschedulable && forall t :: t in n.taints ==> !IsMark(t))
    requires forall p :: p in pods ==>
               (uses(p) <==>
                  && p.phase in {Pending, Running}
                  && exists n :: n in nodes && takes(n) && n.name == p.nodeName)
    ensures Available(nodes, pods).cpu
            == Max(0, Sum(nodes, (n: Node) => if takes(n) then n.cpu else 0)
                      - Sum(pods, (p: Pod) => if uses(p) then PodRequests(p.spec).cpu else 0))
    ensures Available(nodes, pods).memory
            == Max(0, Sum(nodes, (n: Node) => if takes(n) then Mega(n.memory) else 0)
                      - Sum(pods, (p: Pod) => if uses(p) then PodRequests(p.spec).memory else 0))
  {
    forall n | n in nodes ensures Eligible(n) <==> takes(n) {
      EligibleExactly(n);
    }
    var names := EligibleNames(nodes);
    forall p | p in pods ensures RunsOn(p, names) <==> uses(p) {
      TerminalExactly(p);
    }
    SumSame(nodes, EligibleCpu, (n: Node) => if takes(n) then n.cpu else 0);
    SumSame(nodes, EligibleMemory, (n: Node) => if takes(n) then Mega(n.memory) else 0);
    SumSame(pods, CpuOn(names), (p: Pod) => if uses(p) then PodRequests(p.spec).cpu else 0);
    SumSame(pods, MemoryOn(names), (p: Pod) => if uses(p) then PodRequests(p.spec).memory else 0);
  }

  lemma SumSame<T>(xs: seq<T>, f: T -> int, g: T -> int)
    requires forall x :: x in xs ==> f(x) == g(x)
    ensures Sum(xs, f) == Sum(xs, g)
  {
    SumBounds(xs, f, g);
    SumBounds(xs, g, f);
  }
}

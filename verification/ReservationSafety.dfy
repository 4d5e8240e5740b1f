/** Reserving as many used nodes as the evaluation can spare never removes more room than the evaluation promised. */
module ReservationSafety {
  import opened Common
  import opened Quantities
  import opened ResourceQuotas
  import opened Sequences
  import opened Ordering
  import opened Inventory
  import opened InventorySelection
  import opened InventoryStore
  import opened Pods
  import opened ClusterNodes
  import opened WorkerCapacity
  import opened ScaleInCapacity

  /** What the reserve step does to each chosen node it finds. */
  function Reserving(node: Node): Node { if HasReservation(node) then node else Reserved(node) }

  function Tainted(nodes: seq<Node>, chosen: set<string>): seq<Node> {
    seq(|nodes|, i requires 0 <= i < |nodes| => if nodes[i].name in chosen then Reserving(nodes[i]) else nodes[i])
  }

  /** The names the reserve step selects again, by count. */
  function Chosen(inventory: seq<InventoryNode>, limit: nat): set<string> {
    set n | n in Take(HighestUsed(inventory), limit) :: n.name
  }

  // ----- The chosen nodes among the removable ones -----

  lemma NamesHas(nodes: seq<InventoryNode>, node: InventoryNode)
    ensures node in nodes ==> node.name in Names(nodes)
  {
    if node in nodes {
      var i :| 0 <= i < |nodes| && nodes[i] == node;
      assert Names(nodes)[i] == node.name;
    }
  }

  /** Skipped candidates only make the selection by count reach less far. */
  lemma ChosenAreRemovable(inventory: seq<InventoryNode>, capacities: map<string, Amounts>, available: Amounts,
                           name: string)
    requires IsPair(available)
    requires var r := Removable(HighestUsed(inventory), capacities, available).names;
             name in Chosen(inventory, |r|) && name in capacities
    ensures name in Removable(HighestUsed(inventory), capacities, available).names
  {
    var candidates := HighestUsed(inventory);
    var r, tracked := Removable(candidates, capacities, available).names, Tracked(candidates, capacities);
    var first := Take(candidates, |r|);
    RemovableIsLongestFit(candidates, capacities, available);
    var n :| n in first && n.name == name;
    var p := TrackedIn(capacities);
    assert first == candidates[..|first|];
    FilterExtends(candidates, p, |first|);
    FilterHas(first, p);
    FilterIsShorter(first, p);
    assert n in Filter(first, p);
    var i :| 0 <= i < |Filter(first, p)| && Filter(first, p)[i] == n;
    assert tracked[i] == n && i < |r|;
    assert r[i] == name;
  }

  lemma {:induction false} FilterIsShorter<T>(xs: seq<T>, p: T -> bool)
    ensures |Filter(xs, p)| <= |xs|
  {
    if |xs| > 0 {
      FilterIsShorter(xs[..|xs| - 1], p);
    }
  }

  // ----- Sums over eligible nodes -----

  function CpuPart(a: Amounts): int { a.cpu }

  function MemoryPart(a: Amounts): int { a.memory }

  function Over(names: set<string>, part: Amounts -> int): Node -> int {
    (n: Node) => if Eligible(n) && n.name in names then part(Allocatable(n)) else 0
  }

  function Outside(names: set<string>, part: Amounts -> int): Node -> int {
    (n: Node) => if Eligible(n) && n.name !in names then part(Allocatable(n)) else 0
  }

  function Anywhere(part: Amounts -> int): Node -> int {
    (n: Node) => if Eligible(n) then part(Allocatable(n)) else 0
  }

  lemma PartsAre(a: Amounts)
    ensures CpuPart(a) == a.cpu && MemoryPart(a) == a.memory
  {}

  lemma {:induction false} CapacityIsSum(nodes: seq<Node>)
    ensures Capacity(nodes).cpu == Sum(nodes, Anywhere(CpuPart))
    ensures Capacity(nodes).memory == Sum(nodes, Anywhere(MemoryPart))
  {
    if |nodes| > 0 {
      CapacityIsSum(nodes[..|nodes| - 1]);
      PartsAre(Allocatable(nodes[|nodes| - 1]));
    }
  }

  lemma ReservingIsIneligible(node: Node)
    ensures !Eligible(Reserving(node)) && Reserving(node).name == node.name
  {
    ReservedIsMarked(node);
  }

  lemma {:induction false} CapacityAfterTainting(nodes: seq<Node>, chosen: set<string>, part: Amounts -> int)
    ensures Sum(Tainted(nodes, chosen), Anywhere(part)) == Sum(nodes, Outside(chosen, part))
  {
    if |nodes| > 0 {
      var front, last := nodes[..|nodes| - 1], nodes[|nodes| - 1];
      CapacityAfterTainting(front, chosen, part);
      assert Tainted(nodes, chosen)[..|nodes| - 1] == Tainted(front, chosen);
      ReservingIsIneligible(last);
    }
  }

  lemma CapacitySplits(nodes: seq<Node>, chosen: set<string>, part: Amounts -> int)
    ensures Sum(nodes, Anywhere(part)) == Sum(nodes, Outside(chosen, part)) + Sum(nodes, Over(chosen, part))
  {
    SumOfSums(nodes, Outside(chosen, part), Over(chosen, part), Anywhere(part));
  }

  lemma {:induction false} SumOverNone(nodes: seq<Node>, part: Amounts -> int)
    ensures Sum(nodes, Over({}, part)) == 0
  {
    if |nodes| > 0 {
      SumOverNone(nodes[..|nodes| - 1], part);
    }
  }

  lemma {:induction false} SumOverAbsent(nodes: seq<Node>, name: string, part: Amounts -> int)
    requires forall n :: n in nodes ==> n.name != name
    ensures Sum(nodes, Over({name}, part)) == 0
  {
    if |nodes| > 0 {
      SumOverAbsent(nodes[..|nodes| - 1], name, part);
    }
  }

  lemma {:induction false} SumOverOne(nodes: seq<Node>, name: string, part: Amounts -> int)
    requires DistinctNames(nodes) && name in CapacityByNode(nodes)
    ensures Sum(nodes, Over({name}, part)) == part(CapacityByNode(nodes)[name])
  {
    var front, last := nodes[..|nodes| - 1], nodes[|nodes| - 1];
    if last.name == name {
      SumOverAbsent(front, name, part);
      CapacityByNodeHas(front);
    } else {
      SumOverOne(front, name, part);
    }
  }

  function NameSet(nodes: seq<InventoryNode>): set<string> { set n | n in nodes :: n.name }

  ghost predicate DistinctNodes(nodes: seq<InventoryNode>) {
    forall i, j :: 0 <= i < j < |nodes| ==> nodes[i].name != nodes[j].name
  }

  lemma SumOverSplits(nodes: seq<Node>, names: set<string>, more: set<string>, part: Amounts -> int)
    requires names !! more
    ensures Sum(nodes, Over(names + more, part)) == Sum(nodes, Over(names, part)) + Sum(nodes, Over(more, part))
  {
    SumOfSums(nodes, Over(names, part), Over(more, part), Over(names + more, part));
  }

  /** The weight of inventory nodes is the allocatable of the nodes they name. */
  lemma {:induction false} WeightIsSum(nodes: seq<Node>, removed: seq<InventoryNode>)
    requires DistinctNames(nodes) && DistinctNodes(removed)
    requires forall n :: n in removed ==> n.name in CapacityByNode(nodes)
    ensures Weight(removed, CapacityByNode(nodes)).cpu == Sum(nodes, Over(NameSet(removed), CpuPart))
    ensures Weight(removed, CapacityByNode(nodes)).memory == Sum(nodes, Over(NameSet(removed), MemoryPart))
  {
    if |removed| == 0 {
      assert NameSet(removed) == {};
      SumOverNone(nodes, CpuPart);
      SumOverNone(nodes, MemoryPart);
    } else {
      var head, rest := removed[0], removed[1..];
      assert removed == [head] + rest;
      WeightIsSum(nodes, rest);
      assert head.name !in NameSet(rest);
      assert NameSet(removed) == NameSet(rest) + {head.name};
      SumOverOne(nodes, head.name, CpuPart);
      SumOverOne(nodes, head.name, MemoryPart);
      SumOverSplits(nodes, NameSet(rest), {head.name}, CpuPart);
      SumOverSplits(nodes, NameSet(rest), {head.name}, MemoryPart);
    }
  }

  // ----- Pods only leave -----

  ghost predicate NonNegativePods(pods: seq<Pod>) {
    forall p :: p in pods ==> PodRequests(p.spec).cpu >= 0 && PodRequests(p.spec).memory >= 0
  }

  lemma TaintedEligible(nodes: seq<Node>, chosen: set<string>)
    ensures EligibleNames(Tainted(nodes, chosen)) == EligibleNames(nodes) - chosen
  {
    var after := Tainted(nodes, chosen);
    forall name | name in EligibleNames(after) ensures name in EligibleNames(nodes) - chosen {
      var n :| n in after && Eligible(n) && n.name == name;
      var i :| 0 <= i < |after| && after[i] == n;
      ReservingIsIneligible(nodes[i]);
      assert n == nodes[i];
    }
    forall name | name in EligibleNames(nodes) - chosen ensures name in EligibleNames(after) {
      var n :| n in nodes && Eligible(n) && n.name == name;
      var i :| 0 <= i < |nodes| && nodes[i] == n;
      assert after[i] == n;
    }
  }

  /** What the live pods on the taken nodes ask for: they no longer count once their nodes are reserved. */
  function Freed(nodes: seq<Node>, pods: seq<Pod>, taken: set<string>): Amounts {
    Requested(pods, EligibleNames(nodes) * taken)
  }

  lemma RequestedIsNonNegative(pods: seq<Pod>, names: set<string>)
    requires NonNegativePods(pods)
    ensures Requested(pods, names).cpu >= 0 && Requested(pods, names).memory >= 0
  {
    NothingRequested(pods);
    SumBounds(pods, CpuOn({}), CpuOn(names));
    SumBounds(pods, MemoryOn({}), MemoryOn(names));
  }

  lemma {:induction false} NothingRequested(pods: seq<Pod>)
    ensures Sum(pods, CpuOn({})) == 0 && Sum(pods, MemoryOn({})) == 0
  {
    if |pods| > 0 {
      NothingRequested(pods[..|pods| - 1]);
    }
  }

  // ----- Safety -----

  ghost predicate NonNegativeNodes(nodes: seq<Node>) {
    forall n :: n in nodes ==> Milli(n.cpu) >= 0 && Mega(n.memory) >= 0
  }

  /** Eligible nodes among the chosen weigh no more than the removable ones. */
  lemma ChosenWeighNoMore(nodes: seq<Node>, chosen: set<string>, removed: seq<InventoryNode>)
    requires DistinctNames(nodes) && DistinctNodes(removed) && NonNegativeNodes(nodes)
    requires forall n :: n in removed ==> n.name in CapacityByNode(nodes)
    requires forall name :: name in chosen && name in CapacityByNode(nodes) ==> name in NameSet(removed)
    ensures Sum(nodes, Over(chosen, CpuPart)) <= Weight(removed, CapacityByNode(nodes)).cpu
    ensures Sum(nodes, Over(chosen, MemoryPart)) <= Weight(removed, CapacityByNode(nodes)).memory
    ensures Sum(nodes, Over(chosen, CpuPart)) >= 0 && Sum(nodes, Over(chosen, MemoryPart)) >= 0
  {
    CapacityByNodeHas(nodes);
    WeightIsSum(nodes, removed);
    forall n | n in nodes
      ensures Over(chosen, CpuPart)(n) <= Over(NameSet(removed), CpuPart)(n)
      ensures Over(chosen, MemoryPart)(n) <= Over(NameSet(removed), MemoryPart)(n)
      ensures Over({}, CpuPart)(n) <= Over(chosen, CpuPart)(n)
      ensures Over({}, MemoryPart)(n) <= Over(chosen, MemoryPart)(n)
    {
      PartsAre(Allocatable(n));
      assert Eligible(n) ==> n.name in EligibleNames(nodes);
    }
    SumBounds(nodes, Over(chosen, CpuPart), Over(NameSet(removed), CpuPart));
    SumBounds(nodes, Over(chosen, MemoryPart), Over(NameSet(removed), MemoryPart));
    SumOverNone(nodes, CpuPart);
    SumOverNone(nodes, MemoryPart);
    SumBounds(nodes, Over({}, CpuPart), Over(chosen, CpuPart));
    SumBounds(nodes, Over({}, MemoryPart), Over(chosen, MemoryPart));
  }

  /** Reserving takes the room of the taken eligible nodes away and gives back what their pods asked for. */
  lemma BalanceAfterTainting(nodes: seq<Node>, pods: seq<Pod>, taken: set<string>)
    ensures var before, after := Balance(nodes, pods), Balance(Tainted(nodes, taken), pods);
            var freed := Freed(nodes, pods, taken);
            && after.cpu == before.cpu - Sum(nodes, Over(taken, CpuPart)) + freed.cpu
            && after.memory == before.memory - Sum(nodes, Over(taken, MemoryPart)) + freed.memory
  {
    CapacityIsSum(nodes);
    CapacityIsSum(Tainted(nodes, taken));
    CapacityAfterTainting(nodes, taken, CpuPart);
    CapacityAfterTainting(nodes, taken, MemoryPart);
    CapacitySplits(nodes, taken, CpuPart);
    CapacitySplits(nodes, taken, MemoryPart);
    RequestedAfterTainting(nodes, pods, taken);
  }

  lemma RequestedAfterTainting(nodes: seq<Node>, pods: seq<Pod>, taken: set<string>)
    ensures Requested(pods, EligibleNames(nodes))
            == Plus(Requested(pods, EligibleNames(Tainted(nodes, taken))), Freed(nodes, pods, taken))
  {
    TaintedEligible(nodes, taken);
    RequestedParts(pods, EligibleNames(nodes), taken);
  }

  lemma RequestedParts(pods: seq<Pod>, names: set<string>, taken: set<string>)
    ensures Requested(pods, names) == Plus(Requested(pods, names - taken), Requested(pods, names * taken))
  {
    PartsOfSet(names, taken);
    RequestedSplits(pods, names - taken, names * taken);
  }

  lemma PartsOfSet<T>(s: set<T>, t: set<T>)
    ensures (s - t) + s * t == s && (s - t) !! (s * t)
  {}

  /** One dimension: what is left after taking `sum` of at most `weight`, which fitted in the clamped balance. */
  lemma OneDimension(before: int, weight: int, sum: int, freed: int)
    requires 0 <= sum <= weight && freed >= 0 && Max(0, before) - weight >= 0
    ensures var projected, after := Max(0, before) - weight, before - sum + freed;
            && Max(0, after) >= projected
            && (after >= projected <==> before + freed >= 0)
  {}

  /** On one snapshot: every node that still took pods and is reserved was among the removable ones, and what is
      available afterwards is at least what the evaluation projected — however many of the chosen nodes were reached.
      Before clamping that holds, in each dimension, if and only if the pods on the taken nodes make up for what the
      cluster was overcommitted by. */
  lemma ReservationIsSafe(inventory: seq<InventoryNode>, nodes: seq<Node>, pods: seq<Pod>, taken: set<string>)
    requires DistinctNames(nodes) && NonNegativeNodes(nodes) && NonNegativePods(pods)
    requires WellFormed(inventory)
    requires taken <= Chosen(inventory, |Evaluated(inventory, nodes, pods).removable|)
    ensures var e, after := Evaluated(inventory, nodes, pods), Tainted(nodes, taken);
            var before, freed := Balance(nodes, pods), Freed(nodes, pods, taken);
            && (forall n :: n in nodes && Eligible(n) && n.name in taken ==> n.name in e.removable)
            && Available(after, pods).cpu >= e.projected.cpu >= 0
            && Available(after, pods).memory >= e.projected.memory >= 0
            && (Balance(after, pods).cpu >= e.projected.cpu <==> before.cpu + freed.cpu >= 0)
            && (Balance(after, pods).memory >= e.projected.memory <==> before.memory + freed.memory >= 0)
  {
    var e, before, freed := Evaluated(inventory, nodes, pods), Balance(nodes, pods), Freed(nodes, pods, taken);
    var weight := TakenFitsProjection(inventory, nodes, pods, taken);
    BalanceAfterTainting(nodes, pods, taken);
    RequestedIsNonNegative(pods, EligibleNames(nodes) * taken);
    OneDimension(before.cpu, weight.cpu, Sum(nodes, Over(taken, CpuPart)), freed.cpu);
    OneDimension(before.memory, weight.memory, Sum(nodes, Over(taken, MemoryPart)), freed.memory);
  }

  /** The removed nodes, their weight, and what it leaves. */
  lemma RemovedNodes(inventory: seq<InventoryNode>, nodes: seq<Node>, pods: seq<Pod>)
    returns (removed: seq<InventoryNode>)
    requires DistinctNames(nodes) && WellFormed(inventory)
    ensures var e, capacities := Evaluated(inventory, nodes, pods), CapacityByNode(nodes);
            && |removed| == |e.removable| && DistinctNodes(removed)
            && (forall i :: 0 <= i < |removed| ==> removed[i].name == e.removable[i] && removed[i].name in capacities)
            && e.projected == Minus(Available(nodes, pods), Weight(removed, capacities)) && !IsNegative(e.projected)
  {
    var capacities, available, candidates := CapacityByNode(nodes), Available(nodes, pods), HighestUsed(inventory);
    removed := Prefix(candidates, capacities, available);
    TrackedIsDistinct(inventory, capacities);
    PrefixIsDistinct(candidates, capacities, removed);
  }

  lemma Prefix(candidates: seq<InventoryNode>, capacities: map<string, Amounts>, available: Amounts)
    returns (removed: seq<InventoryNode>)
    requires IsPair(available) && !IsNegative(available)
    ensures var r := Removable(candidates, capacities, available);
            && |removed| == |r.names| && removed <= Tracked(candidates, capacities)
            && (forall i :: 0 <= i < |removed| ==> removed[i].name == r.names[i])
            && r.left == Minus(available, Weight(removed, capacities)) && !IsNegative(r.left)
  {
    var tracked, k := Tracked(candidates, capacities), |Removable(candidates, capacities, available).names|;
    RemovableIsLongestFit(candidates, capacities, available);
    removed := tracked[..k];
    assert k > 0 ==> Fits(tracked[..k], capacities, available);
  }

  lemma PrefixIsDistinct(candidates: seq<InventoryNode>, capacities: map<string, Amounts>, removed: seq<InventoryNode>)
    requires DistinctNodes(Tracked(candidates, capacities)) && removed <= Tracked(candidates, capacities)
    ensures DistinctNodes(removed) && forall i :: 0 <= i < |removed| ==> removed[i].name in capacities
  {
    FilterHas(candidates, TrackedIn(capacities));
    forall i | 0 <= i < |removed| ensures removed[i].name in capacities {
      assert removed[i] == Tracked(candidates, capacities)[i];
      assert removed[i] in Tracked(candidates, capacities);
    }
  }

  lemma TakenAreRemoved(inventory: seq<InventoryNode>, nodes: seq<Node>, pods: seq<Pod>, taken: set<string>,
                        removed: seq<InventoryNode>)
    requires taken <= Chosen(inventory, |Evaluated(inventory, nodes, pods).removable|)
    requires |removed| == |Evaluated(inventory, nodes, pods).removable|
    requires forall i :: 0 <= i < |removed| ==> removed[i].name == Evaluated(inventory, nodes, pods).removable[i]
    ensures forall name :: name in taken && name in CapacityByNode(nodes) ==>
              name in NameSet(removed) && name in Evaluated(inventory, nodes, pods).removable
  {
    var e, capacities := Evaluated(inventory, nodes, pods), CapacityByNode(nodes);
    forall name | name in taken && name in capacities ensures name in NameSet(removed) && name in e.removable {
      ChosenAreRemovable(inventory, capacities, Available(nodes, pods), name);
      var i :| 0 <= i < |e.removable| && e.removable[i] == name;
      assert removed[i].name == name;
    }
  }

  /** The projection is what is available less a weight that covers the taken nodes. */
  lemma TakenFitsProjection(inventory: seq<InventoryNode>, nodes: seq<Node>, pods: seq<Pod>, taken: set<string>)
    returns (weight: Amounts)
    requires DistinctNames(nodes) && NonNegativeNodes(nodes) && WellFormed(inventory)
    requires taken <= Chosen(inventory, |Evaluated(inventory, nodes, pods).removable|)
    ensures var e := Evaluated(inventory, nodes, pods);
            && (forall n :: n in nodes && Eligible(n) && n.name in taken ==> n.name in e.removable)
            && e.projected == Minus(Available(nodes, pods), weight) && !IsNegative(e.projected)
            && 0 <= Sum(nodes, Over(taken, CpuPart)) <= weight.cpu
            && 0 <= Sum(nodes, Over(taken, MemoryPart)) <= weight.memory
  {
    var removed := RemovedNodes(inventory, nodes, pods);
    weight := Weight(removed, CapacityByNode(nodes));
    TakenAreRemoved(inventory, nodes, pods, taken, removed);
    CapacityByNodeHas(nodes);
    ChosenWeighNoMore(nodes, taken, removed);
  }

  lemma TrackedIsDistinct(inventory: seq<InventoryNode>, capacities: map<string, Amounts>)
    requires WellFormed(inventory)
    ensures DistinctNodes(Tracked(HighestUsed(inventory), capacities))
  {
    var sorted := Sort(inventory, After);
    SortKeepsElements(inventory, After);
    SortHas(inventory, After);
    CountsOfDistinct(inventory);
    NoRepeatsByCounts(sorted);
    forall i, j | 0 <= i < j < |sorted| ensures sorted[i].name != sorted[j].name {
      assert sorted[i] in inventory && sorted[j] in inventory;
      if sorted[i].name == sorted[j].name {
        SameName(inventory, sorted[i], sorted[j]);
      }
    }
    FilterIsDistinct(sorted, IsUsed);
    FilterIsDistinct(HighestUsed(inventory), TrackedIn(capacities));
  }

  lemma {:induction false} FilterIsDistinct(nodes: seq<InventoryNode>, p: InventoryNode -> bool)
    requires DistinctNodes(nodes)
    ensures DistinctNodes(Filter(nodes, p))
  {
    if |nodes| > 0 {
      var front := nodes[..|nodes| - 1];
      FilterIsDistinct(front, p);
      FilterHas(front, p);
      var r := Filter(front, p);
      forall i | 0 <= i < |r| ensures r[i].name != nodes[|nodes| - 1].name {
        assert r[i] in r && r[i] in front;
        var k :| 0 <= k < |front| && front[k] == r[i];
        assert nodes[k].name != nodes[|nodes| - 1].name;
      }
    }
  }

  // ----- The guard cannot be dropped -----

  const IDLE_NODE := Node("a", map[], [], false, 0, 0)
  const BUSY_NODE := Node("b", map[], [], false, 0, 0)
  const BUSY_POD := Pod(Metadata("default", map[], map[], [], false), "b", Running,
                        PodSpec([Container(Some(Pair(1, 0)), None)], []))
  const IDLE_SPARE := InventoryNode("a", 1, true)

  lemma RequestsOfOne(spec: PodSpec, c: Container)
    requires spec == PodSpec([c], []) && c.requests == Some(Pair(1, 0))
    ensures PodRequests(spec) == Just(1, 0)
  {
    assert SumRequests([c][..0]) == NOTHING;
    assert RequestedMemory(c) == 0;
  }

  lemma BusyRequested(names: set<string>)
    requires "b" in names
    ensures Requested([BUSY_POD], names) == Just(1, 0)
  {
    RequestsOfOne(BUSY_POD.spec, BUSY_POD.spec.containers[0]);
    SumOfOne(BUSY_POD, CpuOn(names));
    SumOfOne(BUSY_POD, MemoryOn(names));
  }

  lemma SumOfOne<T>(x: T, f: T -> int)
    ensures Sum([x], f) == f(x)
  {
    assert Sum([x][..0], f) == 0;
  }

  lemma SumOfTwo<T>(x: T, y: T, f: T -> int)
    ensures Sum([x, y], f) == f(x) + f(y)
  {
    assert [x, y][..1] == [x];
    SumOfOne(x, f);
  }

  lemma CapacityOfTwo(idle: Node, busy: Node)
    requires idle.cpu == 0 && idle.memory == 0 && busy.cpu == 0 && busy.memory == 0
    ensures Capacity([idle, busy]) == NOTHING
  {
    SumOfTwo(idle, busy, EligibleCpu);
    SumOfTwo(idle, busy, EligibleMemory);
  }

  lemma BalanceOfIdleAndBusy(idle: Node)
    requires idle.cpu == 0 && idle.memory == 0
    ensures Balance([idle, BUSY_NODE], [BUSY_POD]) == Just(-1, 0)
  {
    var nodes := [idle, BUSY_NODE];
    CapacityOfTwo(idle, BUSY_NODE);
    assert BUSY_NODE in nodes && Eligible(BUSY_NODE);
    BusyRequested(EligibleNames(nodes));
  }

  lemma HighestUsedOfOne(node: InventoryNode)
    requires node.used
    ensures HighestUsed([node]) == [node]
  {
    assert [node][..0] == [];
    assert Sort([node][..0], After) == [];
    assert Sort([node], After) == Insert([], node, After);
    assert Filter([node][..0], IsUsed) == [];
  }

  lemma IdleCapacity()
    ensures "a" in CapacityByNode([IDLE_NODE, BUSY_NODE])
    ensures CapacityByNode([IDLE_NODE, BUSY_NODE])["a"] == NOTHING
  {
    assert [IDLE_NODE, BUSY_NODE][..1] == [IDLE_NODE];
    assert CapacityByNode([IDLE_NODE]) == map["a" := NOTHING];
    assert "a"[0] != "b"[0];
  }

  lemma IdleIsRemovable()
    ensures Evaluated([IDLE_SPARE], [IDLE_NODE, BUSY_NODE], [BUSY_POD]) == Evaluation(true, NOTHING, NOTHING, ["a"])
  {
    var nodes := [IDLE_NODE, BUSY_NODE];
    BalanceOfIdleAndBusy(IDLE_NODE);
    HighestUsedOfOne(IDLE_SPARE);
    IdleCapacity();
    var capacities := CapacityByNode(nodes);
    assert Removable([], capacities, NOTHING) == Removal([], NOTHING);
    assert [IDLE_SPARE][1..] == [];
    assert Removable([IDLE_SPARE], capacities, NOTHING) == Removal(["a"], NOTHING);
  }

  lemma ChosenOfOne(node: InventoryNode)
    ensures Chosen([node], 1) <= {node.name}
  {
    forall name | name in Chosen([node], 1) ensures name == node.name {
      HighestUsedSelection([node], 1);
    }
  }

  lemma IdleAndBusyAreProper()
    ensures WellFormed([IDLE_SPARE]) && DistinctNames([IDLE_NODE, BUSY_NODE])
    ensures NonNegativeNodes([IDLE_NODE, BUSY_NODE]) && NonNegativePods([BUSY_POD])
  {
    RequestsOfOne(BUSY_POD.spec, BUSY_POD.spec.containers[0]);
    assert IDLE_NODE.name[0] != BUSY_NODE.name[0];
    forall p | p in [BUSY_POD] ensures p == BUSY_POD {}
  }

  /** On an overcommitted cluster a node without any capacity counts as removable: the balance after reserving it is
      still negative, below the projected amount: nothing is freed to make up for it. */
  lemma OvercommittedBalanceStaysNegative()
    ensures var inventory, nodes, pods := [IDLE_SPARE], [IDLE_NODE, BUSY_NODE], [BUSY_POD];
            && WellFormed(inventory) && DistinctNames(nodes) && NonNegativeNodes(nodes) && NonNegativePods(pods)
            && var e := Evaluated(inventory, nodes, pods);
               e.eligible && Balance(Tainted(nodes, Chosen(inventory, |e.removable|)), pods).cpu < e.projected.cpu
  {
    IdleAndBusyAreProper();
    IdleIsRemovable();
    BusyStaysOvercommitted(Chosen([IDLE_SPARE], 1));
  }

  lemma BusyStaysOvercommitted(chosen: set<string>)
    requires chosen == Chosen([IDLE_SPARE], 1)
    ensures Balance(Tainted([IDLE_NODE, BUSY_NODE], chosen), [BUSY_POD]).cpu == -1
  {
    ChosenOfOne(IDLE_SPARE);
    assert IDLE_NODE.name[0] != BUSY_NODE.name[0];
    var after := Tainted([IDLE_NODE, BUSY_NODE], chosen);
    assert BUSY_NODE.name !in chosen;
    assert after == [after[0], BUSY_NODE];
    BalanceOfIdleAndBusy(after[0]);
  }
}

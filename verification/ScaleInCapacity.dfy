/** Which used scaling nodes the cluster can spare, and why reserving that many of them is safe. */
module ScaleInCapacity {
  import opened Common
  import opened Quantities
  import opened Ordering
  import opened Sequences
  import opened Inventory
  import opened InventorySelection
  import opened Pods
  import opened ClusterNodes
  import opened WorkerCapacity

  datatype Evaluation = Evaluation(eligible: bool, current: Amounts, projected: Amounts, removable: seq<string>)

  datatype Removal = Removal(names: seq<string>, left: Amounts)

  predicate IsNegative(a: Amounts) { a.cpu < 0 || a.memory < 0 }

  /** Takes nodes while they fit, skips those without a tracked capacity, stops at the first that does not fit. */
  function Removable(candidates: seq<InventoryNode>, capacities: map<string, Amounts>, available: Amounts): Removal {
    if |candidates| == 0 then Removal([], available)
    else if candidates[0].name !in capacities then Removable(candidates[1..], capacities, available)
    else
      var next := Minus(available, capacities[candidates[0].name]);
      if IsNegative(next) then Removal([], available)
      else
        var rest := Removable(candidates[1..], capacities, next);
        Removal([candidates[0].name] + rest.names, rest.left)
  }

  function Evaluated(inventory: seq<InventoryNode>, nodes: seq<Node>, pods: seq<Pod>): Evaluation {
    var available := Available(nodes, pods);
    var removal := Removable(HighestUsed(inventory), CapacityByNode(nodes), available);
    Evaluation(|removal.names| > 0, available, removal.left, removal.names)
  }

  method EvaluateScaleInCapacity(inventory: Spec, nodes: seq<Node>, pods: seq<Pod>) returns (evaluation: Evaluation)
    ensures evaluation == Evaluated(inventory.nodes, nodes, pods)
  {
    var current, capacities := SchedulableWorkerNodeAvailableResources(nodes, pods);
    var usedCount := CountUsedInventoryNodes(Some(inventory));
    SelectionLengths(inventory.nodes);
    if usedCount == 0 {
      return Evaluation(false, current, current, []);
    }
    var found := FindHighestOrderUsedInventoryNodes(Some(inventory), usedCount);
    var candidates := found.value;
    var projected, removable := current, [];
    ghost var removal := Removable(candidates, capacities, current);
    for i := 0 to |candidates|
      invariant removal.names == removable + Removable(candidates[i..], capacities, projected).names
      invariant removal.left == Removable(candidates[i..], capacities, projected).left
    {
      assert candidates[i..][1..] == candidates[i + 1..];
      if candidates[i].name !in capacities { continue; }
      var next := Minus(projected, capacities[candidates[i].name]);
      if next.cpu < 0 || next.memory < 0 { break; }
      projected := next;
      removable := removable + [candidates[i].name];
    }
    evaluation := Evaluation(|removable| > 0, current, projected, removable);
  }

  // ----- The greedy choice -----

  function TrackedIn(capacities: map<string, Amounts>): InventoryNode -> bool {
    (node: InventoryNode) => node.name in capacities
  }

  /** The candidates whose capacity is known, in order. */
  function Tracked(candidates: seq<InventoryNode>, capacities: map<string, Amounts>): seq<InventoryNode> {
    Filter(candidates, TrackedIn(capacities))
  }

  function Names(nodes: seq<InventoryNode>): seq<string> { seq(|nodes|, i requires 0 <= i < |nodes| => nodes[i].name) }

  function Weight(nodes: seq<InventoryNode>, capacities: map<string, Amounts>): Amounts {
    if |nodes| == 0 then NOTHING
    else
      var rest := Weight(nodes[1..], capacities);
      if nodes[0].name in capacities
      then Just(capacities[nodes[0].name].cpu + rest.cpu, capacities[nodes[0].name].memory + rest.memory)
      else rest
  }

  predicate Fits(nodes: seq<InventoryNode>, capacities: map<string, Amounts>, available: Amounts) {
    !IsNegative(Minus(available, Weight(nodes, capacities)))
  }

  predicate IsPair(a: Amounts) { a == Just(a.cpu, a.memory) }

  /** Every shorter prefix fits, and the next longer one does not. */
  ghost predicate IsLongestFit(tracked: seq<InventoryNode>, k: nat, capacities: map<string, Amounts>,
                               available: Amounts)
  {
    && k <= |tracked|
    && (forall j :: 0 < j <= k ==> Fits(tracked[..j], capacities, available))
    && (k < |tracked| ==> !Fits(tracked[..k + 1], capacities, available))
  }

  lemma WeightFront(nodes: seq<InventoryNode>, j: nat, capacities: map<string, Amounts>, available: Amounts)
    requires 0 < j <= |nodes| && nodes[0].name in capacities
    ensures Minus(available, Weight(nodes[..j], capacities))
            == Minus(Minus(available, capacities[nodes[0].name]), Weight(nodes[1..][..j - 1], capacities))
  {
    assert nodes[..j][1..] == nodes[1..][..j - 1];
  }

  /** The removed nodes are the longest fitting prefix of the tracked candidates, and what is left is what they
      leave. */
  lemma {:induction false} RemovableIsLongestFit(candidates: seq<InventoryNode>, capacities: map<string, Amounts>,
                                                 available: Amounts)
    requires IsPair(available)
    ensures var r, tracked := Removable(candidates, capacities, available), Tracked(candidates, capacities);
            && IsLongestFit(tracked, |r.names|, capacities, available)
            && r.names == Names(tracked[..|r.names|])
            && r.left == Minus(available, Weight(tracked[..|r.names|], capacities))
  {
    if |candidates| > 0 {
      FilterFront(candidates, TrackedIn(capacities));
      var head, tail, tracked := candidates[0], Tracked(candidates[1..], capacities), Tracked(candidates, capacities);
      if head.name !in capacities {
        RemovableIsLongestFit(candidates[1..], capacities, available);
        assert tracked == tail;
      } else {
        var next := Minus(available, capacities[head.name]);
        assert tracked[1..] == tail;
        WeightFront(tracked, 1, capacities, available);
        if !IsNegative(next) {
          RemovableIsLongestFit(candidates[1..], capacities, next);
          var r, rest := Removable(candidates, capacities, available), Removable(candidates[1..], capacities, next);
          forall j | 0 < j <= |tracked|
            ensures Fits(tracked[..j], capacities, available) <==> Fits(tail[..j - 1], capacities, next)
          {
            WeightFront(tracked, j, capacities, available);
          }
          assert tracked[..|r.names|] == [head] + tail[..|rest.names|];
          WeightFront(tracked, |r.names|, capacities, available);
        }
      }
    }
  }

  ghost predicate NonNegativeCapacities(capacities: map<string, Amounts>) {
    forall n :: n in capacities ==> capacities[n].cpu >= 0 && capacities[n].memory >= 0
  }

  lemma {:induction false} WeightGrows(nodes: seq<InventoryNode>, i: nat, j: nat, capacities: map<string, Amounts>)
    requires i <= j <= |nodes| && NonNegativeCapacities(capacities)
    ensures Weight(nodes[..i], capacities).cpu <= Weight(nodes[..j], capacities).cpu
    ensures Weight(nodes[..i], capacities).memory <= Weight(nodes[..j], capacities).memory
    ensures Weight(nodes[..j], capacities).cpu >= 0 && Weight(nodes[..j], capacities).memory >= 0
  {
    if j > 0 {
      assert nodes[..j][1..] == nodes[1..][..j - 1];
      if i > 0 {
        assert nodes[..i][1..] == nodes[1..][..i - 1];
        WeightGrows(nodes[1..], i - 1, j - 1, capacities);
      } else {
        WeightGrows(nodes[1..], 0, j - 1, capacities);
      }
    }
  }

  /** A prefix of the tracked candidates fits in what is available if and only if it is removed. */
  lemma RemovableFitsExactly(candidates: seq<InventoryNode>, capacities: map<string, Amounts>, available: Amounts,
                             j: nat)
    requires IsPair(available) && !IsNegative(available) && NonNegativeCapacities(capacities)
    requires j <= |Tracked(candidates, capacities)|
    ensures Fits(Tracked(candidates, capacities)[..j], capacities, available)
       <==> j <= |Removable(candidates, capacities, available).names|
  {
    RemovableIsLongestFit(candidates, capacities, available);
    var tracked, k := Tracked(candidates, capacities), |Removable(candidates, capacities, available).names|;
    if j > k {
      WeightGrows(tracked, k + 1, j, capacities);
    }
  }

  /** With more available, the same nodes are removed first. */
  lemma {:induction false} RemovableGrows(candidates: seq<InventoryNode>, capacities: map<string, Amounts>,
                                          available: Amounts, more: Amounts)
    requires available.cpu <= more.cpu && available.memory <= more.memory
    ensures Removable(candidates, capacities, available).names <= Removable(candidates, capacities, more).names
  {
    if |candidates| > 0 {
      if candidates[0].name !in capacities {
        RemovableGrows(candidates[1..], capacities, available, more);
      } else {
        var c := capacities[candidates[0].name];
        if !IsNegative(Minus(available, c)) {
          RemovableGrows(candidates[1..], capacities, Minus(available, c), Minus(more, c));
        }
      }
    }
  }

  // ----- Eligibility -----

  ghost predicate FitsIn(capacities: map<string, Amounts>, name: string, available: Amounts) {
    name in capacities && capacities[name].cpu <= available.cpu && capacities[name].memory <= available.memory
  }

  lemma {:induction false} FirstTracked(candidates: seq<InventoryNode>, capacities: map<string, Amounts>,
                                        available: Amounts)
    ensures var tracked := Tracked(candidates, capacities);
            |Removable(candidates, capacities, available).names| > 0 <==>
              |tracked| > 0 && FitsIn(capacities, tracked[0].name, available)
  {
    if |candidates| > 0 {
      FilterFront(candidates, TrackedIn(capacities));
      FirstTracked(candidates[1..], capacities, available);
    }
  }

  /** A used node of the inventory that takes pods, with none of a higher order. */
  ghost predicate IsLastTracked(inventory: seq<InventoryNode>, nodes: seq<Node>, n: InventoryNode) {
    && n in inventory && n.used && n.name in EligibleNames(nodes)
    && forall m :: m in inventory && m.used && m.name in EligibleNames(nodes) ==> m.order <= n.order
  }

  /** The cluster is eligible for scale-in if and only if the last used node that takes pods fits in what is
      available. */
  lemma EligibleExactly(inventory: seq<InventoryNode>, nodes: seq<Node>, pods: seq<Pod>)
    requires WellFormed(inventory)
    ensures Evaluated(inventory, nodes, pods).eligible <==>
              exists n ::
                IsLastTracked(inventory, nodes, n) && FitsIn(CapacityByNode(nodes), n.name, Available(nodes, pods))
  {
    var capacities, candidates := CapacityByNode(nodes), HighestUsed(inventory);
    CapacityByNodeHas(nodes);
    FirstTracked(candidates, capacities, Available(nodes, pods));
    TrackedAre(inventory, capacities);
    TrackedIsSorted(inventory, capacities);
    FirstIsLastTracked(inventory, nodes, Tracked(candidates, capacities));
  }

  lemma FirstIsLastTracked(inventory: seq<InventoryNode>, nodes: seq<Node>, tracked: seq<InventoryNode>)
    requires WellFormed(inventory) && IsSorted(tracked, After)
    requires forall n :: n in tracked <==> n in inventory && n.used && n.name in EligibleNames(nodes)
    ensures forall n :: IsLastTracked(inventory, nodes, n) <==> |tracked| > 0 && n == tracked[0]
  {
    if |tracked| > 0 {
      LastTrackedIsFirst(inventory, nodes, tracked);
    }
    forall n | IsLastTracked(inventory, nodes, n) ensures |tracked| > 0 && n == tracked[0] {
      assert n in tracked;
      OnlyOneIsLast(inventory, nodes, n, tracked[0]);
    }
  }

  lemma TrackedAre(inventory: seq<InventoryNode>, capacities: map<string, Amounts>)
    ensures forall n :: n in Tracked(HighestUsed(inventory), capacities) <==>
              n in inventory && n.used && n.name in capacities
  {
    SortHas(inventory, After);
    FilterHas(Sort(inventory, After), IsUsed);
    FilterHas(HighestUsed(inventory), TrackedIn(capacities));
  }

  lemma TrackedIsSorted(inventory: seq<InventoryNode>, capacities: map<string, Amounts>)
    ensures IsSorted(Tracked(HighestUsed(inventory), capacities), After)
  {
    BeforeIsWeakOrder();
    SortSorts(inventory, After);
    FilterKeepsSorted(Sort(inventory, After), IsUsed, After);
    FilterKeepsSorted(HighestUsed(inventory), TrackedIn(capacities), After);
  }

  lemma LastTrackedIsFirst(inventory: seq<InventoryNode>, nodes: seq<Node>, tracked: seq<InventoryNode>)
    requires |tracked| > 0 && IsSorted(tracked, After)
    requires forall n :: n in tracked <==> n in inventory && n.used && n.name in EligibleNames(nodes)
    ensures IsLastTracked(inventory, nodes, tracked[0])
  {
    assert tracked[0] in tracked;
    BeforeIsWeakOrder();
    forall m | m in tracked ensures !Before(tracked[0], m) {
      var i :| 0 <= i < |tracked| && tracked[i] == m;
      if i > 0 {
        assert !After(tracked[i], tracked[0]);
      } else {
        assert Before(m, m) ==> !Before(m, m);
      }
    }
  }

  lemma OnlyOneIsLast(inventory: seq<InventoryNode>, nodes: seq<Node>, a: InventoryNode, b: InventoryNode)
    requires WellFormed(inventory) && IsLastTracked(inventory, nodes, a) && IsLastTracked(inventory, nodes, b)
    ensures a == b
  {
    var i :| 0 <= i < |inventory| && inventory[i] == a;
    var j :| 0 <= j < |inventory| && inventory[j] == b;
  }
}

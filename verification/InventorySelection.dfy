/** Choosing and counting nodes of an inventory. */
module InventorySelection {
  import opened Common
  import opened Ordering
  import opened Sequences
  import opened Inventory

  predicate IsUsed(node: InventoryNode) { node.used }

  predicate IsUnused(node: InventoryNode) { !node.used }

  /** The unused nodes, lowest (order, name) first. */
  function Unused(nodes: seq<InventoryNode>): seq<InventoryNode> { Filter(Sort(nodes, Before), IsUnused) }

  /** The used nodes, highest (order, name) first. */
  function HighestUsed(nodes: seq<InventoryNode>): seq<InventoryNode> { Filter(Sort(nodes, After), IsUsed) }

  function CountUnused(nodes: seq<InventoryNode>): nat { |Filter(nodes, IsUnused)| }

  function CountUsed(nodes: seq<InventoryNode>): nat { |Filter(nodes, IsUsed)| }

  // ----- Counting -----

  method CountUnusedInventoryNodes(inventory: Option<Spec>) returns (count: nat)
    ensures count == if inventory.None? then 0 else CountUnused(inventory.value.nodes)
  {
    count := 0;
    if inventory.None? { return; }
    var nodes := inventory.value.nodes;
    for i := 0 to |nodes|
      invariant count == CountUnused(nodes[..i])
    {
      assert nodes[..i + 1][..i] == nodes[..i];
      if !nodes[i].used { count := count + 1; }
    }
    assert nodes[..|nodes|] == nodes;
  }

  method CountUsedInventoryNodes(inventory: Option<Spec>) returns (count: nat)
    ensures count == if inventory.None? then 0 else CountUsed(inventory.value.nodes)
  {
    count := 0;
    if inventory.None? { return; }
    var nodes := inventory.value.nodes;
    for i := 0 to |nodes|
      invariant count == CountUsed(nodes[..i])
    {
      assert nodes[..i + 1][..i] == nodes[..i];
      if nodes[i].used { count := count + 1; }
    }
    assert nodes[..|nodes|] == nodes;
  }

  /** Every node is counted once. */
  lemma {:induction false} CountsAddUp(nodes: seq<InventoryNode>)
    ensures CountUsed(nodes) + CountUnused(nodes) == |nodes|
  {
    if |nodes| > 0 {
      CountsAddUp(nodes[..|nodes| - 1]);
    }
  }

  function StatusOf(spec: Spec): Status {
    Status(spec.replicas, |spec.nodes|, CountUsed(spec.nodes), CountUnused(spec.nodes))
  }

  method BuildNodeScalingInventoryStatus(spec: Spec) returns (status: Status)
    ensures status == StatusOf(spec)
    ensures status.desired == spec.replicas && status.replicas == |spec.nodes|
    ensures status.used == CountUsed(spec.nodes) && status.unused == CountUnused(spec.nodes)
    ensures status.used + status.unused == status.replicas
  {
    var used, unused := 0, 0;
    for i := 0 to |spec.nodes|
      invariant used == CountUsed(spec.nodes[..i]) && unused == CountUnused(spec.nodes[..i])
    {
      assert spec.nodes[..i + 1][..i] == spec.nodes[..i];
      if spec.nodes[i].used {
        used := used + 1;
        continue;
      }
      unused := unused + 1;
    }
    assert spec.nodes[..|spec.nodes|] == spec.nodes;
    CountsAddUp(spec.nodes);
    status := Status(spec.replicas, |spec.nodes|, used, unused);
  }

  // ----- Selecting -----

  lemma SelectionLengths(nodes: seq<InventoryNode>)
    ensures |Unused(nodes)| == CountUnused(nodes) && |HighestUsed(nodes)| == CountUsed(nodes)
  {
    SortKeepsElements(nodes, Before);
    FilterIgnoresOrder(nodes, Sort(nodes, Before), IsUnused);
    SortKeepsElements(nodes, After);
    FilterIgnoresOrder(nodes, Sort(nodes, After), IsUsed);
  }

  method FindUnusedInventoryNodes(inventory: Option<Spec>, limit: int) returns (r: Result<seq<InventoryNode>>)
    ensures r.Failure? <==> inventory.None? || (limit > 0 && CountUnused(inventory.value.nodes) == 0)
    ensures r.Success? ==> r.value == Take(Unused(inventory.value.nodes), limit)
  {
    if inventory.None? { return Failure("node scaling inventory is nil"); }
    if limit <= 0 { return Success([]); }
    var nodes := Sort(inventory.value.nodes, Before);
    var selected := SelectFirst(nodes, IsUnused, limit);
    SelectionLengths(inventory.value.nodes);
    if |selected| == 0 { return Failure("no unused scaling nodes available in inventory"); }
    r := Success(selected);
  }

  method FindHighestOrderUsedInventoryNodes(inventory: Option<Spec>, limit: int) returns (r: Result<seq<InventoryNode>>)
    ensures r.Failure? <==> inventory.None? || (limit > 0 && CountUsed(inventory.value.nodes) == 0)
    ensures r.Success? ==> r.value == Take(HighestUsed(inventory.value.nodes), limit)
  {
    if inventory.None? { return Failure("node scaling inventory is nil"); }
    if limit <= 0 { return Success([]); }
    var nodes := Sort(inventory.value.nodes, After);
    var selected := SelectFirst(nodes, IsUsed, limit);
    SelectionLengths(inventory.value.nodes);
    if |selected| == 0 { return Failure("no used scaling nodes available in inventory"); }
    r := Success(selected);
  }

  /** The selection holds the lowest unused nodes: whatever is unused but left out sorts no earlier. */
  lemma UnusedSelection(nodes: seq<InventoryNode>, limit: nat)
    ensures var chosen := Take(Unused(nodes), limit);
            && |chosen| == (if limit < CountUnused(nodes) then limit else CountUnused(nodes))
            && (forall n :: n in chosen ==> n in nodes && !n.used)
            && (forall m, n :: m in chosen && n in nodes && !n.used && n !in chosen ==>
                  m.order < n.order || (m.order == n.order && !Less(n.name, m.name)))
  {
    SelectionLengths(nodes);
    SortHas(nodes, Before);
    FilterHas(Sort(nodes, Before), IsUnused);
    BeforeIsWeakOrder();
    SortSorts(nodes, Before);
    FilterKeepsSorted(Sort(nodes, Before), IsUnused, Before);
    TakeIsLowest(Unused(nodes), limit, Before);
  }

  lemma UnusedAreLowest(nodes: seq<InventoryNode>, limit: nat, m: InventoryNode, n: InventoryNode)
    requires m in Take(Unused(nodes), limit) && n in nodes && !n.used && n !in Take(Unused(nodes), limit)
    ensures m.order <= n.order
  {
    UnusedSelection(nodes, limit);
  }

  /** The mirror image: the highest used nodes. */
  lemma HighestUsedSelection(nodes: seq<InventoryNode>, limit: nat)
    ensures var chosen := Take(HighestUsed(nodes), limit);
            && |chosen| == (if limit < CountUsed(nodes) then limit else CountUsed(nodes))
            && (forall n :: n in chosen ==> n in nodes && n.used)
            && (forall m, n :: m in chosen && n in nodes && n.used && n !in chosen ==>
                  m.order > n.order || (m.order == n.order && !Less(m.name, n.name)))
  {
    SelectionLengths(nodes);
    SortHas(nodes, After);
    FilterHas(Sort(nodes, After), IsUsed);
    BeforeIsWeakOrder();
    SortSorts(nodes, After);
    FilterKeepsSorted(Sort(nodes, After), IsUsed, After);
    TakeIsLowest(HighestUsed(nodes), limit, After);
  }
}

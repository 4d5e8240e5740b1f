/** The inventory of scaling nodes: rebuilding it from observed names, marking nodes, selecting nodes from it. */
module Inventory {
  import opened Ordering

  datatype InventoryNode = InventoryNode(name: string, order: int, used: bool)

  datatype Spec = Spec(replicas: int, nodes: seq<InventoryNode>)

  datatype Status = Status(desired: int, replicas: int, used: int, unused: int)

  predicate Before(a: InventoryNode, b: InventoryNode) {
    a.order < b.order || (a.order == b.order && Less(a.name, b.name))
  }

  predicate After(a: InventoryNode, b: InventoryNode) { Before(b, a) }

  lemma BeforeIsWeakOrder()
    ensures WeakOrder(Before) && WeakOrder(After)
  {
    LessIsWeakOrder();
    forall a, b, c: InventoryNode | !Before(b, a) && !Before(c, b) ensures !Before(c, a) {
      assert !Less(b.name, a.name) && !Less(c.name, b.name) ==> !Less(c.name, a.name);
    }
  }

  // ----- Names -----

  /** First occurrences of the non-empty names. */
  function Distinct(names: seq<string>): seq<string> {
    if |names| == 0 then []
    else
      var front, last := Distinct(names[..|names| - 1]), names[|names| - 1];
      if last == "" || last in front then front else front + [last]
  }

  function Normalized(names: seq<string>): seq<string> { Sort(Distinct(names), Less) }

  method NormalizeNodeNames(names: seq<string>) returns (normalized: seq<string>)
    ensures normalized == Normalized(names)
  {
    var seen: set<string> := {};
    normalized := [];
    for i := 0 to |names|
      invariant normalized == Distinct(names[..i])
      invariant forall n :: n in seen <==> n in normalized
    {
      assert names[..i + 1][..i] == names[..i];
      if names[i] == "" || names[i] in seen { continue; }
      seen := seen + {names[i]};
      normalized := normalized + [names[i]];
    }
    assert names[..|names|] == names;
    normalized := Sort(normalized, Less);
  }

  ghost predicate NoRepeats<T>(xs: seq<T>) {
    forall i, j :: 0 <= i < j < |xs| ==> xs[i] != xs[j]
  }

  lemma {:induction false} DistinctHas(names: seq<string>)
    ensures NoRepeats(Distinct(names))
    ensures forall n :: n in Distinct(names) <==> n in names && n != ""
  {
    if |names| > 0 {
      DistinctHas(names[..|names| - 1]);
      assert names == names[..|names| - 1] + [names[|names| - 1]];
    }
  }

  lemma {:induction false} CountsOfDistinct<T>(xs: seq<T>)
    requires NoRepeats(xs)
    ensures forall x :: multiset(xs)[x] <= 1
  {
    if |xs| > 0 {
      var front, last := xs[..|xs| - 1], xs[|xs| - 1];
      CountsOfDistinct(front);
      assert xs == front + [last];
      assert last !in multiset(front);
    }
  }

  lemma NoRepeatsByCounts<T>(xs: seq<T>)
    requires forall x :: multiset(xs)[x] <= 1
    ensures NoRepeats(xs)
  {
    forall i, j | 0 <= i < j < |xs| ensures xs[i] != xs[j] {
      assert xs == xs[..j] + [xs[j]] + xs[j + 1..];
      assert multiset(xs) == multiset(xs[..j]) + multiset{xs[j]} + multiset(xs[j + 1..]);
      assert xs[..j][i] in multiset(xs[..j]);
      assert multiset(xs)[xs[j]] > multiset(xs[..j])[xs[j]];
    }
  }

  /** The increasing listing of the non-empty names. */
  lemma NormalizedIsCanonical(names: seq<string>)
    ensures Increasing(Normalized(names))
    ensures forall n :: n in Normalized(names) <==> n in names && n != ""
  {
    var distinct, r := Distinct(names), Normalized(names);
    DistinctHas(names);
    SortHas(distinct, Less);
    SortKeepsElements(distinct, Less);
    CountsOfDistinct(distinct);
    NoRepeatsByCounts(r);
    LessIsWeakOrder();
    SortSorts(distinct, Less);
    forall i, j | 0 <= i < j < |r| ensures Less(r[i], r[j]) {
      LessIsTotal(r[i], r[j]);
    }
  }

  /** Order and repetition of the observed names do not matter. */
  lemma NormalizedDependsOnSet(names: seq<string>, others: seq<string>)
    requires forall n :: n != "" ==> (n in names <==> n in others)
    ensures Normalized(names) == Normalized(others)
  {
    NormalizedIsCanonical(names);
    NormalizedIsCanonical(others);
    IncreasingIsCanonical(Normalized(names), Normalized(others));
  }

  // ----- Rebuilding -----

  predicate Named(nodes: seq<InventoryNode>, name: string) { exists n :: n in nodes && n.name == name }

  function NonEmpty(nodes: seq<InventoryNode>): seq<InventoryNode> {
    if |nodes| == 0 then []
    else
      var front, last := NonEmpty(nodes[..|nodes| - 1]), nodes[|nodes| - 1];
      if last.name == "" then front else front + [last]
  }

  function MaxOrder(nodes: seq<InventoryNode>): int {
    if |nodes| == 0 then 0
    else
      var front, last := MaxOrder(nodes[..|nodes| - 1]), nodes[|nodes| - 1];
      if last.name != "" && last.order > front then last.order else front
  }

  /** The stored nodes that are still observed, in their stored order. */
  function Retained(nodes: seq<InventoryNode>, observed: seq<string>): seq<InventoryNode> {
    if |nodes| == 0 then []
    else
      var front, last := Retained(nodes[..|nodes| - 1], observed), nodes[|nodes| - 1];
      if last.name in observed then front + [last] else front
  }

  /** The observed names that are not stored yet, unused, numbered on from `order`. */
  function Added(nodes: seq<InventoryNode>, observed: seq<string>, order: int): seq<InventoryNode> {
    if |observed| == 0 then []
    else
      var front, last := Added(nodes, observed[..|observed| - 1], order), observed[|observed| - 1];
      if Named(nodes, last) then front else front + [InventoryNode(last, order + |front| + 1, false)]
  }

  function Built(existing: Spec, replicas: int, names: seq<string>): Spec {
    var observed, stored := Normalized(names), NonEmpty(existing.nodes);
    Spec(replicas, Sort(Retained(stored, observed) + Added(stored, observed, MaxOrder(existing.nodes)), Before))
  }

  method BuildNodeScalingInventorySpec(existing: Spec, replicas: int, names: seq<string>) returns (spec: Spec)
    ensures spec == Built(existing, replicas, names)
  {
    var existingNodes: seq<InventoryNode> := [];
    var existingNames: map<string, InventoryNode> := map[];
    var maxOrder := 0;
    for i := 0 to |existing.nodes|
      invariant existingNodes == NonEmpty(existing.nodes[..i])
      invariant forall n :: n in existingNames <==> Named(existingNodes, n)
      invariant maxOrder == MaxOrder(existing.nodes[..i])
    {
      var node := existing.nodes[i];
      assert existing.nodes[..i + 1][..i] == existing.nodes[..i];
      if node.name == "" { continue; }
      NamedOneMore(existingNodes, node);
      existingNodes := existingNodes + [node];
      existingNames := existingNames[node.name := node];
      if node.order > maxOrder { maxOrder := node.order; }
    }
    assert existing.nodes[..|existing.nodes|] == existing.nodes;
    var normalized := NormalizeNodeNames(names);
    var retained := RetainObserved(existingNodes, normalized);
    var added := AddUnknown(existingNodes, existingNames.Keys, normalized, maxOrder);
    spec := Spec(replicas, Sort(retained + added, Before));
  }

  method AddUnknown(existing: seq<InventoryNode>, known: set<string>, normalized: seq<string>, order: int)
    returns (added: seq<InventoryNode>)
    requires forall n :: n in known <==> Named(existing, n)
    ensures added == Added(existing, normalized, order)
  {
    var maxOrder := order;
    added := [];
    for i := 0 to |normalized|
      invariant added == Added(existing, normalized[..i], order) && maxOrder == order + |added|
    {
      assert normalized[..i + 1][..i] == normalized[..i];
      if normalized[i] in known { continue; }
      maxOrder := maxOrder + 1;
      added := added + [InventoryNode(normalized[i], maxOrder, false)];
    }
    assert normalized[..|normalized|] == normalized;
  }

  method RetainObserved(nodes: seq<InventoryNode>, normalized: seq<string>) returns (retained: seq<InventoryNode>)
    ensures retained == Retained(nodes, normalized)
  {
    var observed := set n | n in normalized;
    retained := [];
    for i := 0 to |nodes|
      invariant retained == Retained(nodes[..i], normalized)
    {
      assert nodes[..i + 1][..i] == nodes[..i];
      if nodes[i].name !in observed { continue; }
      retained := retained + [nodes[i]];
    }
    assert nodes[..|nodes|] == nodes;
  }

  lemma NamedOneMore(nodes: seq<InventoryNode>, node: InventoryNode)
    ensures forall n :: Named(nodes + [node], n) <==> Named(nodes, n) || n == node.name
  {
    forall n ensures Named(nodes + [node], n) <==> Named(nodes, n) || n == node.name {
      assert node in nodes + [node];
      assert forall m :: m in nodes ==> m in nodes + [node];
    }
  }

  // ----- What a rebuilt inventory holds -----

  lemma {:induction false} NonEmptyHas(nodes: seq<InventoryNode>)
    ensures forall n :: n in NonEmpty(nodes) <==> n in nodes && n.name != ""
  {
    if |nodes| > 0 {
      NonEmptyHas(nodes[..|nodes| - 1]);
      assert nodes == nodes[..|nodes| - 1] + [nodes[|nodes| - 1]];
    }
  }

  lemma {:induction false} RetainedHas(nodes: seq<InventoryNode>, observed: seq<string>)
    ensures forall n :: n in Retained(nodes, observed) <==> n in nodes && n.name in observed
  {
    if |nodes| > 0 {
      RetainedHas(nodes[..|nodes| - 1], observed);
      assert nodes == nodes[..|nodes| - 1] + [nodes[|nodes| - 1]];
    }
  }

  lemma {:induction false} AddedHas(nodes: seq<InventoryNode>, observed: seq<string>, order: int)
    ensures forall n :: n in Added(nodes, observed, order) ==>
              n.name in observed && !Named(nodes, n.name) && !n.used && n.order > order
    ensures forall name :: name in observed && !Named(nodes, name) ==> Named(Added(nodes, observed, order), name)
  {
    if |observed| > 0 {
      var front, last := observed[..|observed| - 1], observed[|observed| - 1];
      AddedHas(nodes, front, order);
      assert observed == front + [last];
      if !Named(nodes, last) {
        NamedOneMore(Added(nodes, front, order), InventoryNode(last, order + |Added(nodes, front, order)| + 1, false));
      }
    }
  }

  lemma NamedIsStored(nodes: seq<InventoryNode>, name: string)
    ensures name != "" && Named(nodes, name) ==> Named(NonEmpty(nodes), name)
  {
    NonEmptyHas(nodes);
    if name != "" && Named(nodes, name) {
      var m :| m in nodes && m.name == name;
      assert m in NonEmpty(nodes);
    }
  }

  /** The rebuilt inventory names exactly the non-empty observed nodes; a stored node that is still observed is
      kept as it was, and every other one is new, unused and numbered after all stored ones. */
  lemma BuiltHas(existing: Spec, replicas: int, names: seq<string>)
    ensures var nodes := Built(existing, replicas, names).nodes;
            && (forall name :: Named(nodes, name) <==> name in names && name != "")
            && (forall n :: n in existing.nodes && n.name in names && n.name != "" ==> n in nodes)
            && (forall n :: n in nodes ==>
                  n in existing.nodes
                  || (!n.used && n.order > MaxOrder(existing.nodes) && !Named(existing.nodes, n.name)))
  {
    var observed, stored := Normalized(names), NonEmpty(existing.nodes);
    var retained, added := Retained(stored, observed), Added(stored, observed, MaxOrder(existing.nodes));
    var nodes := Built(existing, replicas, names).nodes;
    NormalizedIsCanonical(names);
    NonEmptyHas(existing.nodes);
    RetainedHas(stored, observed);
    AddedHas(stored, observed, MaxOrder(existing.nodes));
    SortHas(retained + added, Before);
    forall n | n in nodes
      ensures n.name in observed && (n in existing.nodes || (n in added && !Named(existing.nodes, n.name)))
    {
      assert n in retained || n in added;
      NamedIsStored(existing.nodes, n.name);
    }
    forall name | name in observed ensures Named(nodes, name) {
      if Named(stored, name) {
        var m :| m in stored && m.name == name;
        assert m in retained && m in nodes;
      } else {
        var m :| m in added && m.name == name;
        assert m in nodes;
      }
    }
  }

  /** Order and repetition of the observed list do not change the result. */
  lemma BuiltIgnoresListing(existing: Spec, replicas: int, names: seq<string>, others: seq<string>)
    requires forall n :: n != "" ==> (n in names <==> n in others)
    ensures Built(existing, replicas, names) == Built(existing, replicas, others)
  {
    NormalizedDependsOnSet(names, others);
  }

  lemma {:induction false} RetainedAll(nodes: seq<InventoryNode>, observed: seq<string>)
    requires forall n :: n in nodes ==> n.name in observed
    ensures Retained(nodes, observed) == nodes
  {
    if |nodes| > 0 {
      RetainedAll(nodes[..|nodes| - 1], observed);
      assert nodes == nodes[..|nodes| - 1] + [nodes[|nodes| - 1]];
    }
  }

  lemma {:induction false} NonEmptyAll(nodes: seq<InventoryNode>)
    requires forall n :: n in nodes ==> n.name != ""
    ensures NonEmpty(nodes) == nodes
  {
    if |nodes| > 0 {
      NonEmptyAll(nodes[..|nodes| - 1]);
      assert nodes == nodes[..|nodes| - 1] + [nodes[|nodes| - 1]];
    }
  }

  lemma {:induction false} AddedNone(nodes: seq<InventoryNode>, observed: seq<string>, order: int)
    requires forall name :: name in observed ==> Named(nodes, name)
    ensures Added(nodes, observed, order) == []
  {
    if |observed| > 0 {
      AddedNone(nodes, observed[..|observed| - 1], order);
    }
  }

  /** Rebuilding from the same observation again changes nothing. */
  lemma BuiltIsIdempotent(existing: Spec, replicas: int, names: seq<string>)
    ensures var once := Built(existing, replicas, names);
            Built(once, replicas, names) == once
  {
    var once, observed := Built(existing, replicas, names), Normalized(names);
    BuiltHas(existing, replicas, names);
    NormalizedIsCanonical(names);
    forall n | n in once.nodes ensures n.name != "" && n.name in observed {
      assert Named(once.nodes, n.name);
    }
    NonEmptyAll(once.nodes);
    RetainedAll(once.nodes, observed);
    AddedNone(once.nodes, observed, MaxOrder(once.nodes));
    assert once.nodes + [] == once.nodes;
    BeforeIsWeakOrder();
    var stored := NonEmpty(existing.nodes);
    SortSorts(Retained(stored, observed) + Added(stored, observed, MaxOrder(existing.nodes)), Before);
    SortOfSorted(once.nodes, Before);
  }

  // ----- Well-formed inventories -----

  /** Distinct non-empty names, positive orders, strictly increasing. */
  ghost predicate WellFormed(nodes: seq<InventoryNode>) {
    && (forall i :: 0 <= i < |nodes| ==> nodes[i].name != "" && nodes[i].order > 0)
    && (forall i, j :: 0 <= i < j < |nodes| ==> nodes[i].order < nodes[j].order && nodes[i].name != nodes[j].name)
  }

  lemma {:induction false} MaxOrderBounds(nodes: seq<InventoryNode>)
    requires forall n :: n in nodes ==> n.name != ""
    ensures MaxOrder(nodes) >= 0
    ensures forall n :: n in nodes ==> n.order <= MaxOrder(nodes)
  {
    if |nodes| > 0 {
      MaxOrderBounds(nodes[..|nodes| - 1]);
      assert nodes == nodes[..|nodes| - 1] + [nodes[|nodes| - 1]];
    }
  }

  lemma {:induction false} RetainedWellFormed(nodes: seq<InventoryNode>, observed: seq<string>)
    requires WellFormed(nodes)
    ensures WellFormed(Retained(nodes, observed))
  {
    if |nodes| > 0 {
      var front, last := nodes[..|nodes| - 1], nodes[|nodes| - 1];
      RetainedWellFormed(front, observed);
      RetainedHas(front, observed);
      var r := Retained(front, observed);
      forall i | 0 <= i < |r| ensures r[i].order < last.order && r[i].name != last.name {
        assert r[i] in r;
        var k :| 0 <= k < |front| && front[k] == r[i];
        assert nodes[k].order < nodes[|nodes| - 1].order;
      }
    }
  }

  lemma AddedOneMore(nodes: seq<InventoryNode>, observed: seq<string>, order: int)
    requires |observed| > 0
    ensures var front, last := Added(nodes, observed[..|observed| - 1], order), observed[|observed| - 1];
            Added(nodes, observed, order) ==
              if Named(nodes, last) then front else front + [InventoryNode(last, order + |front| + 1, false)]
  {}

  lemma {:induction false} AddedCountsOn(nodes: seq<InventoryNode>, observed: seq<string>, order: int)
    ensures var a := Added(nodes, observed, order);
            forall i :: 0 <= i < |a| ==> a[i].order == order + i + 1
  {
    if |observed| > 0 {
      AddedCountsOn(nodes, observed[..|observed| - 1], order);
      AddedOneMore(nodes, observed, order);
    }
  }

  lemma {:induction false} AddedHasNoRepeats(nodes: seq<InventoryNode>, observed: seq<string>, order: int)
    requires Increasing(observed)
    ensures var a := Added(nodes, observed, order);
            forall i, j :: 0 <= i < j < |a| ==> a[i].name != a[j].name
  {
    if |observed| > 0 {
      var front, last := observed[..|observed| - 1], observed[|observed| - 1];
      AddedHasNoRepeats(nodes, front, order);
      AddedOneMore(nodes, observed, order);
      AddedHas(nodes, front, order);
      var a := Added(nodes, front, order);
      forall i | 0 <= i < |a| ensures a[i].name != last {
        assert a[i] in a;
        LastIsNew(observed, a[i].name);
      }
    }
  }

  lemma LastIsNew(names: seq<string>, name: string)
    requires Increasing(names) && |names| > 0 && name in names[..|names| - 1]
    ensures name != names[|names| - 1]
  {
    var k :| 0 <= k < |names| - 1 && names[k] == name;
    assert Less(names[k], names[|names| - 1]);
    LessIsTotal(name, name);
  }

  lemma AddedWellFormed(nodes: seq<InventoryNode>, observed: seq<string>, order: int)
    requires Increasing(observed) && order >= 0 && forall name :: name in observed ==> name != ""
    ensures WellFormed(Added(nodes, observed, order))
  {
    AddedCountsOn(nodes, observed, order);
    AddedHasNoRepeats(nodes, observed, order);
    AddedHas(nodes, observed, order);
    var a := Added(nodes, observed, order);
    forall i | 0 <= i < |a| ensures a[i].name != "" {
      assert a[i] in a;
    }
  }

  lemma AppendWellFormed(a: seq<InventoryNode>, b: seq<InventoryNode>)
    requires WellFormed(a) && WellFormed(b)
    requires forall m, n :: m in a && n in b ==> m.order < n.order && m.name != n.name
    ensures WellFormed(a + b)
  {
    var c := a + b;
    forall i, j | 0 <= i < j < |c| ensures c[i].order < c[j].order && c[i].name != c[j].name {
      if i < |a| <= j {
        assert c[i] in a && c[j] in b;
      } else if |a| <= i {
        assert b[i - |a|].order < b[j - |a|].order;
      }
    }
  }

  /** On a well-formed inventory the new nodes follow all retained ones in name order: the final sort changes
      nothing, and the result is well formed again. */
  lemma BuiltIsWellFormed(existing: Spec, replicas: int, names: seq<string>)
    requires WellFormed(existing.nodes)
    ensures var observed := Normalized(names);
            Built(existing, replicas, names).nodes
              == Retained(existing.nodes, observed) + Added(existing.nodes, observed, MaxOrder(existing.nodes))
    ensures WellFormed(Built(existing, replicas, names).nodes)
  {
    var observed, stored := Normalized(names), existing.nodes;
    NonEmptyAll(stored);
    NormalizedIsCanonical(names);
    MaxOrderBounds(stored);
    RetainedWellFormed(stored, observed);
    RetainedHas(stored, observed);
    AddedWellFormed(stored, observed, MaxOrder(stored));
    AddedHas(stored, observed, MaxOrder(stored));
    var retained, added := Retained(stored, observed), Added(stored, observed, MaxOrder(stored));
    forall m, n | m in retained && n in added ensures m.order < n.order && m.name != n.name {
      assert m in stored;
      assert Named(stored, m.name);
    }
    AppendWellFormed(retained, added);
    SortOfWellFormed(retained + added);
  }

  lemma SortOfWellFormed(nodes: seq<InventoryNode>)
    requires WellFormed(nodes)
    ensures Sort(nodes, Before) == nodes
  {
    SortOfSorted(nodes, Before);
  }

  // ----- How new nodes are numbered -----

  /** The largest order of a named node, or zero if none is positive. */
  lemma {:induction false} MaxOrderIs(nodes: seq<InventoryNode>)
    ensures MaxOrder(nodes) >= 0 && forall n :: n in nodes && n.name != "" ==> n.order <= MaxOrder(nodes)
    ensures MaxOrder(nodes) > 0 ==> exists n :: n in nodes && n.name != "" && n.order == MaxOrder(nodes)
  {
    if |nodes| > 0 {
      var front, last := nodes[..|nodes| - 1], nodes[|nodes| - 1];
      MaxOrderIs(front);
      assert nodes == front + [last];
      assert last in nodes;
    }
  }

  /** Unused, numbered from the next order on, in increasing order of their names. */
  ghost predicate NumberedOn(added: seq<InventoryNode>, order: int) {
    && (forall i :: 0 <= i < |added| ==> !added[i].used && added[i].order == order + i + 1)
    && (forall i, j :: 0 <= i < j < |added| ==> Less(added[i].name, added[j].name))
  }

  lemma NumberedOneMore(added: seq<InventoryNode>, order: int, name: string)
    requires NumberedOn(added, order) && forall n :: n in added ==> Less(n.name, name)
    ensures NumberedOn(added + [InventoryNode(name, order + |added| + 1, false)], order)
  {
    forall i | 0 <= i < |added| ensures Less(added[i].name, name) {
      assert added[i] in added;
    }
  }

  lemma FrontIsLess(observed: seq<string>, name: string)
    requires Increasing(observed) && |observed| > 0 && name in observed[..|observed| - 1]
    ensures Less(name, observed[|observed| - 1])
  {
    var k :| 0 <= k < |observed| - 1 && observed[..|observed| - 1][k] == name;
    assert observed[k] == name;
  }

  lemma AddedIsLess(nodes: seq<InventoryNode>, observed: seq<string>, order: int, n: InventoryNode)
    requires Increasing(observed) && |observed| > 0 && n in Added(nodes, observed[..|observed| - 1], order)
    ensures Less(n.name, observed[|observed| - 1])
  {
    AddedHas(nodes, observed[..|observed| - 1], order);
    FrontIsLess(observed, n.name);
  }

  lemma {:induction false} AddedNumbers(nodes: seq<InventoryNode>, observed: seq<string>, order: int)
    requires Increasing(observed)
    ensures NumberedOn(Added(nodes, observed, order), order)
  {
    if |observed| > 0 {
      var front, last := observed[..|observed| - 1], observed[|observed| - 1];
      AddedNumbers(nodes, front, order);
      AddedOneMore(nodes, observed, order);
      if !Named(nodes, last) {
        forall n | n in Added(nodes, front, order) ensures Less(n.name, last) {
          AddedIsLess(nodes, observed, order, n);
        }
        NumberedOneMore(Added(nodes, front, order), order, last);
      }
    }
  }

  ghost predicate IsNew(existing: Spec, n: InventoryNode) { forall m :: m in existing.nodes ==> m.name != n.name }

  lemma NewAreAdded(existing: Spec, replicas: int, names: seq<string>)
    ensures var added := Added(NonEmpty(existing.nodes), Normalized(names), MaxOrder(existing.nodes));
            forall n :: n in Built(existing, replicas, names).nodes && IsNew(existing, n) <==> n in added
  {
    var observed, stored := Normalized(names), NonEmpty(existing.nodes);
    var retained, added := Retained(stored, observed), Added(stored, observed, MaxOrder(existing.nodes));
    NormalizedIsCanonical(names);
    AddedHas(stored, observed, MaxOrder(existing.nodes));
    RetainedHas(stored, observed);
    NonEmptyHas(existing.nodes);
    SortHas(retained + added, Before);
    forall n | n in added ensures IsNew(existing, n) {
      NamedIsStored(existing.nodes, n.name);
      assert forall m :: m in existing.nodes && m.name == n.name ==> Named(existing.nodes, n.name);
    }
    forall n | n in retained ensures !IsNew(existing, n) {
      assert n in existing.nodes;
    }
  }

  /** New nodes are unused and numbered on from the largest order, without gaps, in the order of their names; the count
      recorded is the one given. */
  lemma NewNodesAreNumbered(existing: Spec, replicas: int, names: seq<string>) returns (added: seq<InventoryNode>)
    ensures Built(existing, replicas, names).replicas == replicas
    ensures forall n :: n in Built(existing, replicas, names).nodes && IsNew(existing, n) <==> n in added
    ensures NumberedOn(added, MaxOrder(existing.nodes))
  {
    added := Added(NonEmpty(existing.nodes), Normalized(names), MaxOrder(existing.nodes));
    NewAreAdded(existing, replicas, names);
    NormalizedIsCanonical(names);
    AddedNumbers(NonEmpty(existing.nodes), Normalized(names), MaxOrder(existing.nodes));
  }
}

/** The stored inventory object and the operations the controller performs on it. */
module InventoryStore {
  import opened Common
  import opened Sequences
  import opened Inventory
  import opened InventorySelection

  datatype Stored = Stored(spec: Spec, status: Status)

  /** The first node of that name gets the flag. */
  function Marked(nodes: seq<InventoryNode>, name: string, used: bool): seq<InventoryNode> {
    if |nodes| == 0 then []
    else if nodes[0].name == name then [nodes[0].(used := used)] + nodes[1..]
    else [nodes[0]] + Marked(nodes[1..], name, used)
  }

  function Synced(stored: Option<Stored>, replicas: int, names: seq<string>): Spec {
    Built(if stored.Some? then stored.value.spec else Spec(0, []), replicas, names)
  }

  function WithStatus(spec: Spec): Stored { Stored(spec, StatusOf(spec)) }

  class NodeScalingInventoryStore {
    var stored: Option<Stored>

    constructor (stored: Option<Stored>)
      ensures this.stored == stored
    {
      this.stored := stored;
    }

    /** `fails` stands for any error of the API server other than the object not being found. */
    method Get(fails: bool) returns (r: Result<Spec>)
      ensures r.Failure? <==> fails || stored.None?
      ensures r.Success? ==> r.value == stored.value.spec
    {
      if fails { return Failure("api error"); }
      if stored.None? { return Failure("not found"); }
      r := Success(stored.value.spec);
    }

    method Sync(replicas: int, names: seq<string>, fails: bool) returns (ok: bool)
      modifies this
      ensures ok == !fails
      ensures stored == if fails then old(stored) else Some(WithStatus(Synced(old(stored), replicas, names)))
    {
      if fails { return false; }
      var existing := if stored.Some? then stored.value.spec else Spec(0, []);
      var spec := BuildNodeScalingInventorySpec(existing, replicas, names);
      var status := BuildNodeScalingInventoryStatus(spec);
      stored := Some(Stored(spec, status));
      ok := true;
    }

    method UpdateNodeUsage(name: string, used: bool, fails: bool) returns (ok: bool)
      modifies this
      ensures ok <==> !fails && old(stored).Some? && Named(old(stored).value.spec.nodes, name)
      ensures stored == if !ok then old(stored) else
                          var spec := old(stored).value.spec;
                          Some(WithStatus(spec.(nodes := Marked(spec.nodes, name, used))))
    {
      if fails || stored.None? { return false; }
      var spec := stored.value.spec;
      var nodes := spec.nodes;
      for i := 0 to |nodes|
        invariant forall k :: 0 <= k < i ==> nodes[k].name != name
        invariant stored == old(stored)
      {
        if nodes[i].name != name { continue; }
        MarkedAtFirst(nodes, name, used, i);
        spec := spec.(nodes := nodes[i := nodes[i].(used := used)]);
        var status := BuildNodeScalingInventoryStatus(spec);
        stored := Some(Stored(spec, status));
        return true;
      }
      ok := false;
    }

    method UpdateMachineDeploymentReplicas(replicas: int, fails: bool) returns (ok: bool)
      modifies this
      ensures ok <==> !fails && old(stored).Some?
      ensures stored == if !ok then old(stored) else Some(WithStatus(old(stored).value.spec.(replicas := replicas)))
    {
      if fails || stored.None? { return false; }
      var spec := stored.value.spec.(replicas := replicas);
      var status := BuildNodeScalingInventoryStatus(spec);
      stored := Some(Stored(spec, status));
      ok := true;
    }
  }

  lemma {:induction false} MarkedAtFirst(nodes: seq<InventoryNode>, name: string, used: bool, i: nat)
    requires i < |nodes| && nodes[i].name == name
    requires forall k :: 0 <= k < i ==> nodes[k].name != name
    ensures Marked(nodes, name, used) == nodes[i := nodes[i].(used := used)]
    ensures Named(nodes, name)
  {
    assert nodes[i] in nodes;
    if i > 0 {
      var rest := nodes[1..];
      MarkedAtFirst(rest, name, used, i - 1);
      assert nodes[i := nodes[i].(used := used)] == [nodes[0]] + rest[i - 1 := rest[i - 1].(used := used)];
    }
  }

  /** Marking an unknown name changes nothing. */
  lemma {:induction false} MarkedUnknown(nodes: seq<InventoryNode>, name: string, used: bool)
    requires !Named(nodes, name)
    ensures Marked(nodes, name, used) == nodes
  {
    if |nodes| > 0 {
      assert nodes[0] in nodes;
      assert forall n :: n in nodes[1..] ==> n in nodes;
      MarkedUnknown(nodes[1..], name, used);
      assert nodes == [nodes[0]] + nodes[1..];
    }
  }

  /** In a well-formed inventory marking flips the flag of that one node and touches nothing else. */
  lemma {:induction false} MarkedAt(nodes: seq<InventoryNode>, name: string, used: bool)
    requires WellFormed(nodes)
    ensures var r := Marked(nodes, name, used);
            && |r| == |nodes|
            && forall i :: 0 <= i < |r| ==> r[i] == if nodes[i].name == name then nodes[i].(used := used) else nodes[i]
  {
    if |nodes| > 0 {
      if nodes[0].name == name {
        assert forall i :: 0 < i < |nodes| ==> nodes[i].name != name;
      } else {
        MarkedAt(nodes[1..], name, used);
        assert nodes == [nodes[0]] + nodes[1..];
      }
    }
  }

  lemma MarkedIsWellFormed(nodes: seq<InventoryNode>, name: string, used: bool)
    requires WellFormed(nodes)
    ensures WellFormed(Marked(nodes, name, used))
  {
    MarkedAt(nodes, name, used);
  }

  /** Well-formedness holds after every store operation. */
  lemma StoreKeepsWellFormed(stored: Option<Stored>, replicas: int, names: seq<string>, name: string, used: bool)
    requires stored.Some? ==> WellFormed(stored.value.spec.nodes)
    ensures WellFormed(Synced(stored, replicas, names).nodes)
    ensures stored.Some? ==> WellFormed(Marked(stored.value.spec.nodes, name, used))
  {
    BuiltIsWellFormed(if stored.Some? then stored.value.spec else Spec(0, []), replicas, names);
    if stored.Some? {
      MarkedIsWellFormed(stored.value.spec.nodes, name, used);
    }
  }

  // ----- What is stored, by name -----

  ghost predicate Holds(nodes: seq<InventoryNode>, name: string, used: bool) {
    exists n :: n in nodes && n.name == name && n.used == used
  }

  lemma HoldsAt(nodes: seq<InventoryNode>, i: nat)
    requires i < |nodes|
    ensures Holds(nodes, nodes[i].name, nodes[i].used) && Named(nodes, nodes[i].name)
  {
    assert nodes[i] in nodes;
  }

  lemma HoldsOnce(nodes: seq<InventoryNode>, name: string)
    requires WellFormed(nodes)
    ensures !(Holds(nodes, name, true) && Holds(nodes, name, false))
    ensures Named(nodes, name) <==> Holds(nodes, name, true) || Holds(nodes, name, false)
  {
    if Holds(nodes, name, true) && Holds(nodes, name, false) {
      var a :| a in nodes && a.name == name && a.used;
      var b :| b in nodes && b.name == name && !b.used;
      SameName(nodes, a, b);
    }
    if Named(nodes, name) {
      var n :| n in nodes && n.name == name;
      assert n.used == true || n.used == false;
    }
  }

  lemma SameName(nodes: seq<InventoryNode>, a: InventoryNode, b: InventoryNode)
    requires WellFormed(nodes) && a in nodes && b in nodes && a.name == b.name
    ensures a == b
  {
    var i :| 0 <= i < |nodes| && nodes[i] == a;
    var j :| 0 <= j < |nodes| && nodes[j] == b;
    assert i == j;
  }

  /** What marking means for every name. */
  lemma MarkedHolds(nodes: seq<InventoryNode>, name: string, used: bool, other: string, flag: bool)
    requires WellFormed(nodes)
    ensures Holds(Marked(nodes, name, used), other, flag)
       <==> if other == name then Named(nodes, name) && flag == used else Holds(nodes, other, flag)
  {
    MarkedAt(nodes, name, used);
    var r := Marked(nodes, name, used);
    if Holds(r, other, flag) {
      var n :| n in r && n.name == other && n.used == flag;
      var i :| 0 <= i < |r| && r[i] == n;
      assert nodes[i] in nodes;
    }
    if Holds(nodes, other, flag) && other != name {
      var n :| n in nodes && n.name == other && n.used == flag;
      var i :| 0 <= i < |nodes| && nodes[i] == n;
      assert r[i] in r;
    }
    if Named(nodes, name) {
      var n :| n in nodes && n.name == name;
      var i :| 0 <= i < |nodes| && nodes[i] == n;
      assert r[i] in r;
    }
  }

  /** Marking moves one node between the two counts, and only when its flag changes. */
  lemma {:induction false} MarkedCounts(nodes: seq<InventoryNode>, name: string, used: bool)
    requires WellFormed(nodes)
    ensures var r, change := Marked(nodes, name, used), if Holds(nodes, name, !used) then 1 else 0;
            && |r| == |nodes|
            && CountUsed(r) == CountUsed(nodes) + (if used then change else -change)
            && CountUnused(r) == CountUnused(nodes) - (if used then change else -change)
  {
    MarkedAt(nodes, name, used);
    HoldsOnce(nodes, name);
    var r := Marked(nodes, name, used);
    CountsAddUp(nodes);
    CountsAddUp(r);
    CountsOfFlip(nodes, r, name, used);
  }

  lemma {:induction false} CountsOfFlip(nodes: seq<InventoryNode>, r: seq<InventoryNode>, name: string, used: bool)
    requires WellFormed(nodes) && |r| == |nodes|
    requires forall i :: 0 <= i < |r| ==> r[i] == if nodes[i].name == name then nodes[i].(used := used) else nodes[i]
    ensures CountUsed(r) == CountUsed(nodes) + (if !Holds(nodes, name, !used) then 0 else if used then 1 else -1)
  {
    if |nodes| > 0 {
      var front, last := nodes[..|nodes| - 1], nodes[|nodes| - 1];
      CountsOfFlip(front, r[..|r| - 1], name, used);
      HoldsAt(nodes, |nodes| - 1);
      HoldsInFront(nodes, name, !used);
      HoldsOnce(nodes, name);
    }
  }

  lemma HoldsInFront(nodes: seq<InventoryNode>, name: string, used: bool)
    requires WellFormed(nodes) && |nodes| > 0
    ensures var front, last := nodes[..|nodes| - 1], nodes[|nodes| - 1];
            && (Holds(nodes, name, used) <==> Holds(front, name, used) || (last.name == name && last.used == used))
            && !(Holds(front, name, used) && last.name == name)
  {
    var front, last := nodes[..|nodes| - 1], nodes[|nodes| - 1];
    assert nodes == front + [last];
    if Holds(front, name, used) {
      var n :| n in front && n.name == name && n.used == used;
      var i :| 0 <= i < |front| && front[i] == n;
      assert n in nodes;
      assert nodes[i].name != nodes[|nodes| - 1].name;
    }
    if Holds(nodes, name, used) {
      var n :| n in nodes && n.name == name && n.used == used;
      assert n in front || n == last;
    }
  }

  // ----- Counting by name -----

  function UnusedNames(nodes: seq<InventoryNode>): set<string> { set n | n in nodes && !n.used :: n.name }

  function UsedNames(nodes: seq<InventoryNode>): set<string> { set n | n in nodes && n.used :: n.name }

  lemma WellFormedFront(nodes: seq<InventoryNode>)
    requires WellFormed(nodes) && |nodes| > 0
    ensures WellFormed(nodes[..|nodes| - 1])
    ensures forall n :: n in nodes[..|nodes| - 1] ==> n.name != nodes[|nodes| - 1].name
  {
    var front := nodes[..|nodes| - 1];
    forall n | n in front ensures n.name != nodes[|nodes| - 1].name {
      var i :| 0 <= i < |front| && front[i] == n;
      assert nodes[i].name != nodes[|nodes| - 1].name;
    }
  }

  /** Counting the nodes with some property counts their names. */
  lemma {:induction false} NamesCount(nodes: seq<InventoryNode>, p: InventoryNode -> bool, names: set<string>)
    requires WellFormed(nodes)
    requires forall name :: name in names <==> exists n :: n in nodes && p(n) && n.name == name
    ensures |Filter(nodes, p)| == |names|
  {
    if |nodes| == 0 {
      assert names == {};
    } else {
      var front, last := nodes[..|nodes| - 1], nodes[|nodes| - 1];
      WellFormedFront(nodes);
      assert forall n :: n in nodes <==> n in front || n == last;
      var rest := if p(last) then names - {last.name} else names;
      NamesCount(front, p, rest);
      assert p(last) ==> last.name in names && names == rest + {last.name};
    }
  }

  lemma NamesOfFlagCount(nodes: seq<InventoryNode>)
    requires WellFormed(nodes)
    ensures |UnusedNames(nodes)| == CountUnused(nodes) && |UsedNames(nodes)| == CountUsed(nodes)
  {
    NamesCount(nodes, IsUnused, UnusedNames(nodes));
    NamesCount(nodes, IsUsed, UsedNames(nodes));
  }

  lemma NamesHold(nodes: seq<InventoryNode>, name: string)
    ensures name in UnusedNames(nodes) <==> Holds(nodes, name, false)
    ensures name in UsedNames(nodes) <==> Holds(nodes, name, true)
  {}
}

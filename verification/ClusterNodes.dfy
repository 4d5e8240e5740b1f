/** Nodes, the marks that set scaling nodes apart, and the client calls that put them on and take them off. */
module ClusterNodes {
  import opened Common
  import opened Sequences
  import opened ResourceQuotas

  datatype Effect = NoSchedule | PreferNoSchedule | NoExecute

  datatype Taint = Taint(key: string, value: string, effect: Effect)

  datatype Node = Node(name: string, labels: map<string, string>, taints: seq<Taint>, unschedulable: bool,
                       cpu: Quantity, memory: Quantity)

  const ROLE := "role"
  const SCALING := "scaling"
  const SCALING_KEY := "node-role.kubernetes.io/scaling"
  const CONTROL_PLANE_KEY := "node-role.kubernetes.io/control-plane"
  const MASTER_KEY := "node-role.kubernetes.io/master"

  predicate IsControlPlane(node: Node) { CONTROL_PLANE_KEY in node.labels || MASTER_KEY in node.labels }

  predicate IsScalingTaint(taint: Taint) { taint.key == SCALING_KEY && taint.effect.NoSchedule? }

  predicate IsOtherTaint(taint: Taint) { !IsScalingTaint(taint) }

  predicate HasScalingTaint(node: Node) { exists t :: t in node.taints && IsScalingTaint(t) }

  predicate HasRoleLabel(node: Node) { ROLE in node.labels && node.labels[ROLE] == SCALING }

  /** Any one mark makes a node a scaling node ... */
  predicate HasScalingRole(node: Node) {
    HasRoleLabel(node) || SCALING_KEY in node.labels || HasScalingTaint(node)
  }

  /** ... and all of them together reserve it. */
  predicate HasReservation(node: Node) {
    HasRoleLabel(node) && SCALING_KEY in node.labels && HasScalingTaint(node)
  }

  /** Takes ordinary pods. */
  predicate Eligible(node: Node) { !IsControlPlane(node) && !node.unschedulable && !HasScalingTaint(node) }

  function Activated(node: Node): Node {
    var labels := if HasRoleLabel(node) then node.labels - {ROLE} else node.labels;
    node.(labels := labels - {SCALING_KEY}, taints := Filter(node.taints, IsOtherTaint))
  }

  function Reserved(node: Node): Node {
    var taints := if HasScalingTaint(node) then node.taints else node.taints + [Taint(SCALING_KEY, "", NoSchedule)];
    node.(labels := node.labels[ROLE := SCALING][SCALING_KEY := ""], taints := taints)
  }

  class NodeClient {
    var nodes: map<string, Node>

    constructor (nodes: map<string, Node>)
      ensures this.nodes == nodes
    {
      this.nodes := nodes;
    }

    method ActivateScalingNode(name: string, fails: bool) returns (ok: bool)
      modifies this
      ensures ok <==> !fails && name in old(nodes)
      ensures nodes == if ok then old(nodes)[name := Activated(old(nodes)[name])] else old(nodes)
    {
      if fails || name !in nodes { return false; }
      var node := nodes[name];
      var labels := node.labels;
      if ROLE in labels && labels[ROLE] == SCALING {
        labels := labels - {ROLE};
      }
      labels := labels - {SCALING_KEY};
      var filtered: seq<Taint> := [];
      for i := 0 to |node.taints|
        invariant filtered == Filter(node.taints[..i], IsOtherTaint)
      {
        assert node.taints[..i + 1][..i] == node.taints[..i];
        if IsScalingTaint(node.taints[i]) { continue; }
        filtered := filtered + [node.taints[i]];
      }
      assert node.taints[..|node.taints|] == node.taints;
      nodes := nodes[name := node.(labels := labels, taints := filtered)];
      ok := true;
    }

    method ReserveScalingNode(name: string, fails: bool) returns (ok: bool)
      modifies this
      ensures ok <==> !fails && name in old(nodes)
      ensures nodes == if ok then old(nodes)[name := Reserved(old(nodes)[name])] else old(nodes)
    {
      if fails || name !in nodes { return false; }
      var node := nodes[name];
      var labels := node.labels[ROLE := SCALING];
      labels := labels[SCALING_KEY := ""];
      var tainted := FindScalingTaint(node);
      var taints := node.taints;
      if !tainted {
        taints := taints + [Taint(SCALING_KEY, "", NoSchedule)];
      }
      nodes := nodes[name := node.(labels := labels, taints := taints)];
      ok := true;
    }

    method NodeHasScalingReservation(name: string, fails: bool) returns (r: Result<bool>)
      ensures r.Failure? <==> fails || name !in nodes
      ensures r.Success? ==> r.value == HasReservation(nodes[name])
    {
      if fails || name !in nodes { return Failure("cannot get node"); }
      var node := nodes[name];
      var tainted := FindScalingTaint(node);
      r := Success(ROLE in node.labels && node.labels[ROLE] == SCALING && SCALING_KEY in node.labels && tainted);
    }
  }

  method FindScalingTaint(node: Node) returns (found: bool)
    ensures found == HasScalingTaint(node)
  {
    found := false;
    for i := 0 to |node.taints|
      invariant !found
      invariant forall k :: 0 <= k < i ==> !IsScalingTaint(node.taints[k])
    {
      if IsScalingTaint(node.taints[i]) {
        return true;
      }
    }
  }

  /** Activation takes every mark off and nothing else: the node is no longer a scaling node, and it takes pods
      unless it is cordoned or in the control plane. */
  lemma ActivatedIsUnmarked(node: Node)
    ensures !HasScalingRole(Activated(node))
    ensures Eligible(Activated(node)) <==> !node.unschedulable && !IsControlPlane(node)
    ensures Activated(node) == node <==> !HasScalingRole(node)
  {
    FilterHas(node.taints, IsOtherTaint);
    if !HasScalingRole(node) {
      FilterAll(node.taints, IsOtherTaint);
      assert node.labels - {SCALING_KEY} == node.labels;
      assert Activated(node) == node;
    } else {
      assert !HasScalingRole(Activated(node));
    }
  }

  /** Reservation puts every mark on, and a reserved node stays as it is. */
  lemma ReservedIsMarked(node: Node)
    ensures HasReservation(Reserved(node)) && HasScalingRole(Reserved(node))
    ensures !Eligible(Reserved(node))
    ensures HasReservation(node) && node.labels[SCALING_KEY] == "" ==> Reserved(node) == node
  {
    if !HasScalingTaint(node) {
      var added := Taint(SCALING_KEY, "", NoSchedule);
      assert Reserved(node).taints[|node.taints|] == added;
      assert added in Reserved(node).taints && IsScalingTaint(added);
    }
    assert HasScalingTaint(Reserved(node));
  }

  /** Activation undoes a reservation exactly on nodes that carried no mark and no role at all: a different role
      label is overwritten and lost. */
  lemma ActivationUndoesReservation(node: Node)
    ensures Activated(Reserved(node)) == node <==> !HasScalingRole(node) && ROLE !in node.labels
  {
    ActivatedIsUnmarked(Reserved(node));
    if !HasScalingRole(node) && ROLE !in node.labels {
      ActivationUndoesFreshReservation(node);
    } else if ROLE in node.labels {
      assert ROLE !in Activated(Reserved(node)).labels;
    }
  }

  lemma ActivationUndoesFreshReservation(node: Node)
    requires !HasScalingRole(node) && ROLE !in node.labels
    ensures Activated(Reserved(node)) == node
  {
    var reserved := Reserved(node);
    FilterAll(node.taints, IsOtherTaint);
    assert reserved.taints[..|reserved.taints| - 1] == node.taints;
    assert reserved.labels - {ROLE} - {SCALING_KEY} == node.labels;
  }

  /** A node with another role label comes back without it. */
  lemma RoleLabelIsLost(name: string)
    ensures var node := Node(name, map[ROLE := "db"], [], false, 0, 0);
            !HasScalingRole(node) && ROLE in node.labels && ROLE !in Activated(Reserved(node)).labels
  {
    var node := Node(name, map[ROLE := "db"], [], false, 0, 0);
    assert |"db"| != |SCALING|;
    ReservedIsMarked(node);
  }

  // ----- The marks, spelled out -----

  ghost predicate IsMark(taint: Taint) { taint.key == "node-role.kubernetes.io/scaling" && taint.effect == NoSchedule }

  /** Which nodes count as scaling nodes, and which as reserved. */
  lemma MarksAre(node: Node)
    ensures var role := "role" in node.labels && node.labels["role"] == "scaling";
            var labelled := "node-role.kubernetes.io/scaling" in node.labels;
            var tainted := exists t :: t in node.taints && IsMark(t);
            && (HasScalingRole(node) <==> role || labelled || tainted)
            && (HasReservation(node) <==> role && labelled && tainted)
  {
    forall t: Taint ensures IsMark(t) <==> IsScalingTaint(t) {}
  }

  /** A node takes ordinary pods unless it is in the control plane, cordoned, or carries the scaling taint. */
  lemma EligibleExactly(node: Node)
    ensures Eligible(node) <==>
              && "node-role.kubernetes.io/control-plane" !in node.labels
              && "node-role.kubernetes.io/master" !in node.labels
              && !node.unschedulable && forall t :: t in node.taints ==> !IsMark(t)
  {
    forall t: Taint ensures IsMark(t) <==> IsScalingTaint(t) {}
  }

  ghost predicate SameApartFromMarks(a: Node, b: Node) {
    && a.name == b.name && a.unschedulable == b.unschedulable && a.cpu == b.cpu && a.memory == b.memory
    && (forall k :: k !in {"role", "node-role.kubernetes.io/scaling"} ==>
          (k in a.labels <==> k in b.labels) && (k in a.labels ==> a.labels[k] == b.labels[k]))
    && (forall t :: !IsMark(t) ==> multiset(a.taints)[t] == multiset(b.taints)[t])
  }

  /** Activation takes off the marks and nothing else; a role label of another value stays. */
  lemma ActivationChangesMarksOnly(node: Node)
    ensures SameApartFromMarks(Activated(node), node) && forall t :: t in Activated(node).taints ==> !IsMark(t)
    ensures "node-role.kubernetes.io/scaling" !in Activated(node).labels
    ensures if "role" in node.labels && node.labels["role"] != "scaling"
            then "role" in Activated(node).labels && Activated(node).labels["role"] == node.labels["role"]
            else "role" !in Activated(node).labels
  {
    assert |"role"| != |"node-role.kubernetes.io/scaling"|;
    FilterCounts(node.taints, IsOtherTaint);
    FilterHas(node.taints, IsOtherTaint);
  }

  /** Reservation sets the marks and nothing else. */
  lemma ReservationChangesMarksOnly(node: Node)
    ensures SameApartFromMarks(Reserved(node), node)
    ensures exists t :: t in Reserved(node).taints && IsMark(t)
    ensures "role" in Reserved(node).labels && Reserved(node).labels["role"] == "scaling"
    ensures "node-role.kubernetes.io/scaling" in Reserved(node).labels
  {
    assert |"role"| != |"node-role.kubernetes.io/scaling"|;
    ReservedIsMarked(node);
    var t :| t in Reserved(node).taints && IsScalingTaint(t);
    assert IsMark(t);
  }
}

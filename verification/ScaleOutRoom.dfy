/** The scale-out step as a whole: what it adds to the room for ordinary pods, whatever fails on the way. */
module ScaleOutRoom {
  import opened Quantities
  import opened Sequences
  import opened Inventory
  import opened Pods
  import opened ClusterNodes
  import opened WorkerCapacity
  import opened ReservationSafety
  import opened NodeScaling
  import opened ScaleOutEffects
  import opened ScaleOutSelection
  import opened ScaleOutSafety
  import opened NodeScalingRuns
  import opened ScaleInSafety

  // ----- A listing on which more nodes take pods -----

  predicate SameMachine(a: Node, b: Node) { a.name == b.name && a.cpu == b.cpu && a.memory == b.memory }

  /** The same machines in the same order; none of them stops taking pods. */
  predicate Grown(nodes: seq<Node>, after: seq<Node>) {
    && |after| == |nodes|
    && forall i :: 0 <= i < |nodes| ==> SameMachine(after[i], nodes[i]) && (Eligible(nodes[i]) ==> Eligible(after[i]))
  }

  /** The nodes that have started to take pods. */
  function Gained(nodes: seq<Node>, after: seq<Node>): set<string> { EligibleNames(after) - EligibleNames(nodes) }

  function RoomOf(nodes: seq<Node>, names: set<string>): Amounts {
    Just(Sum(nodes, Over(names, CpuPart)), Sum(nodes, Over(names, MemoryPart)))
  }

  lemma EligibleByIndex(nodes: seq<Node>, i: nat)
    requires i < |nodes| && DistinctNames(nodes)
    ensures nodes[i].name in EligibleNames(nodes) <==> Eligible(nodes[i])
  {
    if nodes[i].name in EligibleNames(nodes) {
      var n :| n in nodes && Eligible(n) && n.name == nodes[i].name;
      var k :| 0 <= k < |nodes| && nodes[k] == n;
      assert k == i;
    }
  }

  lemma GrownEligible(nodes: seq<Node>, after: seq<Node>)
    requires Grown(nodes, after)
    ensures EligibleNames(nodes) <= EligibleNames(after)
  {
    forall name | name in EligibleNames(nodes) ensures name in EligibleNames(after) {
      var n :| n in nodes && Eligible(n) && n.name == name;
      var i :| 0 <= i < |nodes| && nodes[i] == n;
      assert after[i] in after;
    }
  }

  lemma {:induction false} OldCapacity(nodes: seq<Node>, after: seq<Node>, gained: set<string>, part: Amounts -> int)
    requires |after| == |nodes|
    requires forall i :: 0 <= i < |nodes| ==>
               && SameMachine(after[i], nodes[i])
               && (Eligible(after[i]) && after[i].name !in gained <==> Eligible(nodes[i]))
    ensures Sum(after, Outside(gained, part)) == Sum(nodes, Anywhere(part))
  {
    if |nodes| > 0 {
      OldCapacity(nodes[..|nodes| - 1], after[..|nodes| - 1], gained, part);
      assert Allocatable(after[|nodes| - 1]) == Allocatable(nodes[|nodes| - 1]);
    }
  }

  lemma PartOfGrown(nodes: seq<Node>, after: seq<Node>, part: Amounts -> int)
    requires DistinctNames(nodes) && Grown(nodes, after)
    ensures Sum(after, Anywhere(part)) == Sum(nodes, Anywhere(part)) + Sum(after, Over(Gained(nodes, after), part))
  {
    var gained := Gained(nodes, after);
    forall i | 0 <= i < |nodes| ensures Eligible(after[i]) && after[i].name !in gained <==> Eligible(nodes[i]) {
      EligibleByIndex(nodes, i);
      assert after[i] in after;
    }
    OldCapacity(nodes, after, gained, part);
    CapacitySplits(after, gained, part);
  }

  lemma CapacityOfGrown(nodes: seq<Node>, after: seq<Node>)
    requires DistinctNames(nodes) && Grown(nodes, after)
    ensures Capacity(after) == Plus(Capacity(nodes), RoomOf(after, Gained(nodes, after)))
  {
    PartOfGrown(nodes, after, CpuPart);
    PartOfGrown(nodes, after, MemoryPart);
    CapacityIsSum(nodes);
    CapacityIsSum(after);
  }

  /** The balance grows by the room of the new nodes and shrinks by what their pods ask for. */
  lemma BalanceOfGrown(nodes: seq<Node>, after: seq<Node>, pods: seq<Pod>)
    requires DistinctNames(nodes) && Grown(nodes, after)
    ensures var gained := Gained(nodes, after);
            Balance(after, pods) == Plus(Balance(nodes, pods), Minus(RoomOf(after, gained), Requested(pods, gained)))
  {
    var gained := Gained(nodes, after);
    CapacityOfGrown(nodes, after);
    GrownEligible(nodes, after);
    assert EligibleNames(after) == EligibleNames(nodes) + gained;
    RequestedSplits(pods, EligibleNames(nodes), gained);
  }

  lemma RequestedNothing(pods: seq<Pod>)
    ensures Requested(pods, {}) == NOTHING
  {
    NothingRequested(pods);
  }

  lemma EligibleAmongOneMore(nodes: seq<Node>, names: set<string>)
    requires |nodes| > 0 && DistinctNames(nodes)
    ensures var front, last := nodes[..|nodes| - 1], nodes[|nodes| - 1];
            && EligibleNames(nodes) * names
               == EligibleNames(front) * names + (if Eligible(last) && last.name in names then {last.name} else {})
            && last.name !in EligibleNames(front)
  {
    var front, last := nodes[..|nodes| - 1], nodes[|nodes| - 1];
    assert nodes[..|nodes|] == nodes;
    EligibleNamesGrow(nodes, |nodes| - 1);
    forall n | n in front ensures n.name != last.name {
      var k :| 0 <= k < |front| && front[k] == n;
      assert nodes[k].name != nodes[|nodes| - 1].name;
    }
  }

  ghost predicate PodsFit(node: Node, pods: seq<Pod>) {
    && Requested(pods, {node.name}).cpu <= Allocatable(node).cpu
    && Requested(pods, {node.name}).memory <= Allocatable(node).memory
  }

  /** If the pods on each of some nodes fit it, they fit all of them together. */
  lemma {:induction false} PodsFitTogether(nodes: seq<Node>, pods: seq<Pod>, names: set<string>)
    requires DistinctNames(nodes)
    requires forall n :: n in nodes && Eligible(n) && n.name in names ==> PodsFit(n, pods)
    ensures var requested, room := Requested(pods, EligibleNames(nodes) * names), RoomOf(nodes, names);
            requested.cpu <= room.cpu && requested.memory <= room.memory
  {
    if |nodes| == 0 {
      assert EligibleNames(nodes) * names == {};
      RequestedNothing(pods);
    } else {
      var front, last := nodes[..|nodes| - 1], nodes[|nodes| - 1];
      PodsFitTogether(front, pods, names);
      EligibleAmongOneMore(nodes, names);
      PartsAre(Allocatable(last));
      if Eligible(last) && last.name in names {
        RequestedSplits(pods, EligibleNames(front) * names, {last.name});
      } else {
        assert EligibleNames(nodes) * names == EligibleNames(front) * names;
      }
    }
  }

  // ----- One scale-out -----

  function ActivatedList(nodes: seq<Node>, names: set<string>): seq<Node> {
    seq(|nodes|, i requires 0 <= i < |nodes| => if nodes[i].name in names then Activated(nodes[i]) else nodes[i])
  }

  lemma ActivatedIsGrown(nodes: seq<Node>, names: set<string>)
    ensures Grown(nodes, ActivatedList(nodes, names))
  {
    forall i | 0 <= i < |nodes| ensures Eligible(nodes[i]) ==> Eligible(Activated(nodes[i])) {
      ActivatedIsUnmarked(nodes[i]);
    }
  }

  lemma ListingAfterActivation(listing: Listing, later: Listing, nodes: map<string, Node>, names: set<string>)
    requires Lists(listing, nodes) && Lists(later, ActivatedNodes(nodes, names))
    ensures multiset(ActivatedList(listing.nodes, names)) == multiset(later.nodes)
  {
    var activated := ActivatedList(listing.nodes, names);
    forall i | 0 <= i < |activated| ensures activated[i].name == listing.nodes[i].name && activated[i] in later.nodes {
      var n := listing.nodes[i];
      assert n in listing.nodes;
      assert ActivatedNodes(nodes, names)[n.name] in later.nodes;
    }
    forall n | n in later.nodes ensures n in activated {
      assert nodes[n.name] in listing.nodes;
      var i :| 0 <= i < |listing.nodes| && listing.nodes[i] == nodes[n.name];
      assert activated[i] == n;
    }
    SameElementsOnce(activated, later.nodes);
  }

  lemma NothingActivated(nodes: map<string, Node>)
    ensures ActivatedNodes(nodes, {}) == nodes
  {}

  /** Whatever fails, the step activates part of its selection and touches no other node; when nothing fails, all. */
  lemma ScaledOutActivates(c: Config, s: State, env: Env) returns (taken: set<string>)
    requires WellFormed(NodesOf(s.stored))
    ensures ScaledOut(c, s, env).0.nodes == ActivatedNodes(s.nodes, taken)
    ensures taken <= AsSet(Selection(c, s))
    ensures Acts(c, s, env) && ActivateSelected(c, s, env).ok ==> taken == AsSet(Selection(c, s))
  {
    if Acts(c, s, env) {
      if ActivateSelected(c, s, env).ok {
        taken := AsSet(Selection(c, s));
        ScaleOutEffect(c, s, env);
      } else {
        taken := FailedScaleOutActivates(c, s, env);
      }
    } else {
      taken := {};
      IdleScaleOut(c, s, env);
      NothingActivated(s.nodes);
    }
  }

  lemma FailedScaleOutActivates(c: Config, s: State, env: Env) returns (taken: set<string>)
    requires WellFormed(NodesOf(s.stored)) && Acts(c, s, env) && !ActivateSelected(c, s, env).ok
    ensures ScaledOut(c, s, env).0.nodes == ActivatedNodes(s.nodes, taken)
    ensures taken <= AsSet(Selection(c, s))
  {
    var sel := Selection(c, s);
    var k := ScaleOutFailurePrefix(c, s, env);
    var done := AsSet(sel[..k]);
    taken := if ScaledOut(c, s, env).0.nodes == ActivatedNodes(s.nodes, done) then done else AsSet(sel[..k + 1]);
  }

  /** One dimension of the clamped amount. */
  lemma ClampedGrows(before: int, room: int, requested: int)
    ensures before + (room - requested) >= before <==> requested <= room
    ensures requested <= room ==> Max(0, before + (room - requested)) >= Max(0, before)
  {}

  lemma GainedAreActivated(nodes: seq<Node>, names: set<string>)
    ensures Gained(nodes, ActivatedList(nodes, names)) <= names
  {
    var after := ActivatedList(nodes, names);
    forall name | name in Gained(nodes, after) ensures name in names {
      var n :| n in after && Eligible(n) && n.name == name;
      var i :| 0 <= i < |after| && after[i] == n;
      assert nodes[i] in nodes;
    }
  }

  lemma RoomIgnoresOrder(nodes: seq<Node>, others: seq<Node>, names: set<string>)
    requires multiset(nodes) == multiset(others)
    ensures RoomOf(nodes, names) == RoomOf(others, names)
  {
    SumIgnoresOrder(nodes, others, Over(names, CpuPart));
    SumIgnoresOrder(nodes, others, Over(names, MemoryPart));
  }

  /** Whatever fails on the way, a scale-out makes no node stop taking pods and lets only selected nodes start; the
      balance changes by exactly the room of those less what the pods already on them ask for. */
  lemma ScaleOutChangesRoom(c: Config, s: State, env: Env, listing: Listing, later: Listing)
    requires WellFormed(NodesOf(s.stored)) && Lists(listing, s.nodes)
    requires Lists(later, ScaledOut(c, s, env).0.nodes) && later.pods == listing.pods
    ensures var gained := Gained(listing.nodes, later.nodes);
            && EligibleNames(listing.nodes) <= EligibleNames(later.nodes) && gained <= AsSet(Selection(c, s))
            && Balance(later.nodes, later.pods)
               == Plus(Balance(listing.nodes, listing.pods),
                       Minus(RoomOf(later.nodes, gained), Requested(listing.pods, gained)))
  {
    var taken := ScaledOutActivates(c, s, env);
    var after := ActivatedList(listing.nodes, taken);
    ActivatedIsGrown(listing.nodes, taken);
    GrownEligible(listing.nodes, after);
    GainedAreActivated(listing.nodes, taken);
    BalanceOfGrown(listing.nodes, after, listing.pods);
    ListingAfterActivation(listing, later, s.nodes, taken);
    AvailableIgnoresOrder(after, later.nodes, listing.pods, later.pods);
    RoomIgnoresOrder(after, later.nodes, Gained(listing.nodes, after));
  }

  /** A scale-out takes no room away from ordinary pods exactly when the pods on the nodes it adds fit the room
      of those; they do if the pods on each such node fit it. */
  lemma ScaleOutIsSafe(c: Config, s: State, env: Env, listing: Listing, later: Listing)
    requires WellFormed(NodesOf(s.stored)) && Lists(listing, s.nodes)
    requires Lists(later, ScaledOut(c, s, env).0.nodes) && later.pods == listing.pods
    ensures var gained := Gained(listing.nodes, later.nodes);
            var requested, room := Requested(listing.pods, gained), RoomOf(later.nodes, gained);
            var before, after := Balance(listing.nodes, listing.pods), Balance(later.nodes, later.pods);
            && (after.cpu >= before.cpu <==> requested.cpu <= room.cpu)
            && (after.memory >= before.memory <==> requested.memory <= room.memory)
            && (requested.cpu <= room.cpu ==>
                  Available(later.nodes, later.pods).cpu >= Available(listing.nodes, listing.pods).cpu)
            && (requested.memory <= room.memory ==>
                  Available(later.nodes, later.pods).memory >= Available(listing.nodes, listing.pods).memory)
            && ((forall n :: n in later.nodes && Eligible(n) && n.name in gained ==> PodsFit(n, listing.pods)) ==>
                  requested.cpu <= room.cpu && requested.memory <= room.memory)
  {
    var gained := Gained(listing.nodes, later.nodes);
    var requested, room := Requested(listing.pods, gained), RoomOf(later.nodes, gained);
    var before := Balance(listing.nodes, listing.pods);
    ScaleOutChangesRoom(c, s, env, listing, later);
    ClampedGrows(before.cpu, room.cpu, requested.cpu);
    ClampedGrows(before.memory, room.memory, requested.memory);
    if forall n :: n in later.nodes && Eligible(n) && n.name in gained ==> PodsFit(n, listing.pods) {
      PodsFitTogether(later.nodes, listing.pods, gained);
      assert EligibleNames(later.nodes) * gained == gained;
    }
  }

  /** When nothing fails, a selected node takes pods afterwards unless it is cordoned or in the control plane. */
  lemma SelectedTakePods(c: Config, s: State, env: Env, later: Listing, name: string)
    requires WellFormed(NodesOf(s.stored)) && NamedByKeys(s.nodes) && Acts(c, s, env) && ActivateSelected(c, s, env).ok
    requires Lists(later, ScaledOut(c, s, env).0.nodes) && name in Selection(c, s) && name in s.nodes
    ensures name in EligibleNames(later.nodes) <==> !s.nodes[name].unschedulable && !IsControlPlane(s.nodes[name])
  {
    var t := ScaledOut(c, s, env).0;
    var _ := ScaledOutActivates(c, s, env);
    ActivatedIsUnmarked(s.nodes[name]);
    assert t.nodes[name] == Activated(s.nodes[name]) && t.nodes[name] in later.nodes;
    forall n | n in later.nodes && n.name == name ensures n == t.nodes[name] {}
  }
}

/** Nodes the inventory has dropped: no step of any later run touches them again. */
module ForgottenNodes {
  import opened Common
  import opened Inventory
  import opened InventoryStore
  import opened Pods
  import opened ClusterNodes
  import opened NodeScaling
  import opened ScaleOutEffects
  import opened ScaleOutSelection
  import opened ScaleOutSafety
  import opened NodeScalingRuns
  import opened UsedNodes

  /** In the cluster without any scaling mark, not in the inventory, and nothing waits for it. */
  ghost predicate Forgotten(s: State, name: string) {
    && name in s.nodes && !HasScalingRole(s.nodes[name])
    && !Named(NodesOf(s.stored), name) && name !in s.waiters
  }

  /** Nothing about this node is different. */
  ghost predicate SameNode(before: State, after: State, name: string) {
    && (name in before.nodes ==> name in after.nodes && after.nodes[name] == before.nodes[name])
    && (Named(NodesOf(after.stored), name) ==> Named(NodesOf(before.stored), name))
    && (name in after.waiters ==> name in before.waiters)
  }

  // ----- Scale-out and scale-in touch inventory nodes only -----

  lemma ActivateOneSkips(p: Pool, other: string, stop: bool, env: Env, name: string)
    requires name != other
    ensures var r := ActivateOne(p, other, stop, env);
            && (name in p.nodes ==> name in r.nodes && r.nodes[name] == p.nodes[name])
            && r.waiters.Keys <= p.waiters.Keys
  {}

  lemma {:induction false} ActivateAllSkips(p: Pool, names: seq<string>, stop: bool, env: Env, name: string)
    requires name !in names
    ensures var r := ActivateAll(p, names, stop, env);
            && (name in p.nodes ==> name in r.nodes && r.nodes[name] == p.nodes[name])
            && r.waiters.Keys <= p.waiters.Keys
  {
    if |names| > 0 {
      var front, last := names[..|names| - 1], names[|names| - 1];
      assert last in names && forall n :: n in front ==> n in names;
      ActivateAllSkips(p, front, stop, env, name);
      ActivateOneSkips(ActivateAll(p, front, stop, env), last, stop, env, name);
    }
  }

  lemma SelectedPoolSkips(c: Config, s: State, env: Env, name: string)
    requires s.stored.Some? && WellFormed(NodesOf(s.stored)) && !Named(NodesOf(s.stored), name)
    ensures var pool := ActivateSelected(c, s, env);
            && (name in s.nodes ==> name in pool.nodes && pool.nodes[name] == s.nodes[name])
            && pool.waiters.Keys <= s.waiters.Keys
            && pool.stored.Some? && !Named(NodesOf(pool.stored), name)
  {
    var nodes := NodesOf(s.stored);
    var reused, spares := Reused(c, nodes, s.waiters.Keys), Spares(c, nodes, s.waiters.Keys);
    if name in Selection(c, s) {
      SelectionIsStored(c, s, name);
    }
    assert forall n :: n in Selection(c, s) <==> n in reused || n in spares;
    var mid := ActivateAll(StartOf(s), reused, true, env);
    ActivateAllSkips(StartOf(s), reused, true, env, name);
    ActivateAllSkips(mid, spares, false, env, name);
    ActivateAllKeepsKnown(StartOf(s), reused, true, env, name);
    ActivateAllKeepsKnown(mid, spares, false, env, name);
  }

  lemma ScaleOutSkips(c: Config, s: State, env: Env, name: string)
    requires WellFormed(NodesOf(s.stored)) && !Named(NodesOf(s.stored), name)
    ensures SameNode(s, ScaledOut(c, s, env).0, name)
  {
    if Acts(c, s, env) {
      SelectedPoolSkips(c, s, env, name);
      ScaleOutHasPool(c, s, env);
    }
  }

  lemma {:induction false} ReserveAllSkips(r: Reservations, names: seq<string>, env: Env, now: int, request: Request,
                                           name: string)
    requires name !in names
    ensures var t := ReserveAll(r, names, env, now, request);
            && (name in r.nodes ==> name in t.nodes && t.nodes[name] == r.nodes[name])
            && (name in t.waiters ==> name in r.waiters)
  {
    if |names| > 0 {
      var front, last := names[..|names| - 1], names[|names| - 1];
      assert last in names && forall n :: n in front ==> n in names;
      ReserveAllSkips(r, front, env, now, request, name);
    }
  }

  lemma ScaleInSkips(c: Config, s: State, env: Env, listing: Listing, now: int, request: Request, name: string)
    requires WellFormed(NodesOf(s.stored)) && !Named(NodesOf(s.stored), name)
    ensures SameNode(s, ScaledIn(c, s, env, listing, now, request).0, name)
  {
    var names := ToReserve(c, NodesOf(s.stored), listing);
    ToReserveAreUsed(c, NodesOf(s.stored), listing);
    HoldsOnce(NodesOf(s.stored), name);
    ReserveAllSkips(Reservations(s.nodes, s.waiters, true), names, env, now, request, name);
    ScaleInNodesAre(c, s, env, listing, now, request);
  }

  lemma MarkingNamesNothing(nodes: seq<InventoryNode>, name: string, used: bool, other: string)
    requires WellFormed(nodes) && Named(Marked(nodes, name, used), other)
    ensures Named(nodes, other)
  {
    MarkedIsWellFormed(nodes, name, used);
    HoldsOnce(Marked(nodes, name, used), other);
    HoldsOnce(nodes, other);
    MarkedHolds(nodes, name, used, other, true);
    MarkedHolds(nodes, name, used, other, false);
  }

  lemma TickSkips(c: Config, s: State, env: Env, pods: seq<Pod>, now: int, waiting: string, name: string)
    requires WellFormed(NodesOf(s.stored)) && waiting in s.waiters
    ensures SameNode(s, Ticked(c, s, env, pods, now, waiting), name)
  {
    var t := Ticked(c, s, env, pods, now, waiting);
    if t.stored != s.stored && Named(NodesOf(t.stored), name) {
      MarkingNamesNothing(NodesOf(s.stored), waiting, false, name);
    }
  }

  // ----- Every run -----

  /** No step brings a forgotten node back or touches it. */
  lemma NextKeepsForgotten(c: Config, s: State, step: Step, name: string)
    requires Proper(s.nodes, s.stored) && Enabled(s, step) && Forgotten(s, name)
    ensures Forgotten(Next(c, s, step), name) && Next(c, s, step).nodes[name] == s.nodes[name]
  {
    match step
    case Join(node) =>
    case SyncInventory(env, listing) =>
      if !InventorySyncFails(env) {
        SyncHolds(s, env, listing);
      }
    case EnsureBaseline(env) =>
    case ScaleOut(env) => ScaleOutSkips(c, s, env, name);
    case ScaleIn(env, listing, now) => ScaleInSkips(c, s.(queue := s.queue[1..]), env, listing, now, s.queue[0], name);
    case TickWaiter(env, pods, now, waiting) => TickSkips(c, s, env, pods, now, waiting, name);
    case AutoEvaluate(env, listing, now) =>
  }

  ghost function ForgottenAt(c: Config, s: State, steps: seq<Step>, name: string, node: Node): nat -> bool {
    (m: nat) => m <= |steps| && ProperAt(c, s, steps)(m) && Forgotten(StateAt(c, s, steps, m), name)
                && StateAt(c, s, steps, m).nodes[name] == node
  }

  lemma StepKeepsForgotten(c: Config, s: State, steps: seq<Step>, name: string, node: Node, i: nat)
    requires i < |steps| && IsRun(c, s, steps) && ForgottenAt(c, s, steps, name, node)(i)
    ensures ForgottenAt(c, s, steps, name, node)(i + 1)
  {
    StepStaysProper(c, s, steps, i);
    NextKeepsForgotten(c, StateAt(c, s, steps, i), steps[i], name);
  }

  lemma StartIsForgotten(c: Config, s: State, steps: seq<Step>, name: string)
    requires Proper(s.nodes, s.stored) && Forgotten(s, name)
    ensures ForgottenAt(c, s, steps, name, s.nodes[name])(0)
  {
    StartIsProper(c, s, steps);
  }

  /** A forgotten node stays forgotten, and as it is, in every later state of every run. */
  lemma StaysForgotten(c: Config, s: State, steps: seq<Step>, name: string, n: nat)
    requires Proper(s.nodes, s.stored) && Forgotten(s, name) && IsRun(c, s, steps) && n <= |steps|
    ensures Forgotten(StateAt(c, s, steps, n), name) && StateAt(c, s, steps, n).nodes[name] == s.nodes[name]
  {
    var good := ForgottenAt(c, s, steps, name, s.nodes[name]);
    StartIsForgotten(c, s, steps, name);
    forall i: nat | i < n ensures Carries(good, i) {
      if good(i) {
        StepKeepsForgotten(c, s, steps, name, s.nodes[name], i);
      }
    }
    Kept(good, 0, n);
  }

  function ScaledOutAndSynced(c: Config, s: State, env: Env, sync: Env, listing: Listing): State {
    InventorySynced(ScaledOut(c, s, env).0, sync, listing)
  }

  lemma ActivatedAreForgotten(c: Config, s: State, env: Env, sync: Env, listing: Listing, name: string)
    requires Safe(s) && Proper(s.nodes, s.stored) && Acts(c, s, env) && ActivateSelected(c, s, env).ok
    requires name in Selection(c, s)
    requires Lists(listing, ScaledOut(c, s, env).0.nodes) && !InventorySyncFails(sync)
    ensures var t := ScaledOutAndSynced(c, s, env, sync, listing);
            Proper(t.nodes, t.stored) && Forgotten(t, name)
  {
    ScaleOutStaysProper(c, s, env);
    SyncStaysProper(ScaledOut(c, s, env).0, sync, listing);
    SyncForgetsActivated(c, s, env, sync, listing, name);
    ActivatedHaveNoWaiter(c, s, env, name);
  }

  lemma ActivatedHaveNoWaiter(c: Config, s: State, env: Env, name: string)
    requires Safe(s) && Acts(c, s, env) && ActivateSelected(c, s, env).ok && name in Selection(c, s)
    ensures var t := ScaledOut(c, s, env).0;
            name !in t.waiters && name in t.nodes && !HasScalingRole(t.nodes[name])
  {
    var nodes := NodesOf(s.stored);
    var reused, spares := Reused(c, nodes, s.waiters.Keys), Spares(c, nodes, s.waiters.Keys);
    ScaleOutEffect(c, s, env);
    ReusedAre(c, nodes, s.waiters.Keys);
    SparesAre(c, nodes, s.waiters.Keys);
    assert name in reused || name in spares;
    HoldsOnce(nodes, name);
    ActivatedIsUnmarked(s.nodes[name]);
  }

  /** A node taken by a scale-out and dropped by the next sync is lost to node scaling: in no later state of any run is
      it in the inventory, reserved, or drained. */
  lemma ActivatedAreLost(c: Config, s: State, env: Env, sync: Env, listing: Listing, name: string, steps: seq<Step>,
                         n: nat)
    requires Safe(s) && Proper(s.nodes, s.stored) && Acts(c, s, env) && ActivateSelected(c, s, env).ok
    requires name in Selection(c, s)
    requires Lists(listing, ScaledOut(c, s, env).0.nodes) && !InventorySyncFails(sync)
    requires IsRun(c, ScaledOutAndSynced(c, s, env, sync, listing), steps) && n <= |steps|
    ensures Forgotten(StateAt(c, ScaledOutAndSynced(c, s, env, sync, listing), steps, n), name)
  {
    ActivatedAreForgotten(c, s, env, sync, listing, name);
    StaysForgotten(c, ScaledOutAndSynced(c, s, env, sync, listing), steps, name, n);
  }
}

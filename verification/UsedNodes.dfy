/** Used inventory nodes carry all scaling marks or none, in every run; so after a successful sync they carry all of
    them, and none of them counts as a node that scale-in could spare. */
module UsedNodes {
  import opened Common
  import opened Quantities
  import opened Sequences
  import opened Ordering
  import opened Inventory
  import opened InventorySelection
  import opened InventoryStore
  import opened Pods
  import opened ClusterNodes
  import opened WorkerCapacity
  import opened ScaleInCapacity
  import opened NodeScaling
  import opened ScaleOutSafety
  import opened NodeScalingRuns

  predicate IsWhole(node: Node) { HasReservation(node) || !HasScalingRole(node) }

  /** A used inventory node is in the cluster and carries all marks or none. */
  ghost predicate UsedAreWhole(nodes: map<string, Node>, stored: Option<Stored>) {
    forall name :: Holds(NodesOf(stored), name, true) ==> name in nodes && IsWhole(nodes[name])
  }

  /** What every step keeps, stranding scale-outs included. */
  ghost predicate Proper(nodes: map<string, Node>, stored: Option<Stored>) {
    NamedByKeys(nodes) && WellFormed(NodesOf(stored)) && UsedAreWhole(nodes, stored)
  }

  // ----- Every step keeps it -----

  lemma UnmarkingStaysProper(nodes: map<string, Node>, stored: Option<Stored>, name: string)
    requires Proper(nodes, stored) && name in nodes
    ensures Proper(nodes[name := Activated(nodes[name])], stored)
    ensures IsWhole(Activated(nodes[name]))
  {
    ActivatedIsUnmarked(nodes[name]);
  }

  lemma UsingStaysProper(nodes: map<string, Node>, stored: Option<Stored>, after: Option<Stored>, name: string)
    requires Proper(nodes, stored) && name in nodes && IsWhole(nodes[name])
    requires Named(NodesOf(stored), name) && NodesOf(after) == Marked(NodesOf(stored), name, true)
    ensures Proper(nodes, after)
  {
    MarkingKeepsOthers(NodesOf(stored), name);
  }

  lemma ActivateOneStaysProper(p: Pool, name: string, stop: bool, env: Env)
    requires Proper(p.nodes, p.stored)
    ensures var r := ActivateOne(p, name, stop, env);
            Proper(r.nodes, r.stored)
  {
    if Activate(name) !in env.failing && name in p.nodes {
      var r, nodes := ActivateOne(p, name, stop, env), p.nodes[name := Activated(p.nodes[name])];
      UnmarkingStaysProper(p.nodes, p.stored, name);
      assert r.nodes == nodes;
      if r.stored != p.stored {
        UsingStaysProper(nodes, p.stored, r.stored, name);
      }
    }
  }

  lemma {:induction false} ActivateAllStaysProper(p: Pool, names: seq<string>, stop: bool, env: Env)
    requires Proper(p.nodes, p.stored)
    ensures var r := ActivateAll(p, names, stop, env);
            Proper(r.nodes, r.stored)
  {
    if |names| > 0 {
      var front, last := names[..|names| - 1], names[|names| - 1];
      ActivateAllStaysProper(p, front, stop, env);
      ActivateOneStaysProper(ActivateAll(p, front, stop, env), last, stop, env);
    }
  }

  lemma ScaleOutStaysProper(c: Config, s: State, env: Env)
    requires Proper(s.nodes, s.stored)
    ensures var t := ScaledOut(c, s, env).0;
            Proper(t.nodes, t.stored)
  {
    if Acts(c, s, env) {
      var nodes, start := NodesOf(s.stored), Pool(s.nodes, s.stored, s.waiters, true);
      var reused, spares := Reused(c, nodes, s.waiters.Keys), Spares(c, nodes, s.waiters.Keys);
      ActivateAllStaysProper(start, reused, true, env);
      ActivateAllStaysProper(ActivateAll(start, reused, true, env), spares, false, env);
      ActivateBothKeepsStored(start, reused, spares, env);
      ScaleOutHasPool(c, s, env);
    }
  }

  lemma {:induction false} ActivateAllKeepsStored(p: Pool, names: seq<string>, stop: bool, env: Env)
    requires p.stored.Some?
    ensures ActivateAll(p, names, stop, env).stored.Some?
  {
    if |names| > 0 {
      ActivateAllKeepsStored(p, names[..|names| - 1], stop, env);
    }
  }

  lemma ActivateBothKeepsStored(p: Pool, reused: seq<string>, spares: seq<string>, env: Env)
    requires p.stored.Some?
    ensures ActivateBoth(p, reused, spares, env).stored.Some?
  {
    ActivateAllKeepsStored(p, reused, true, env);
    ActivateAllKeepsStored(ActivateAll(p, reused, true, env), spares, false, env);
  }

  lemma {:induction false} ReserveAllStaysProper(stored: Option<Stored>, r: Reservations, names: seq<string>, env: Env,
                                                 now: int, request: Request)
    requires Proper(r.nodes, stored)
    ensures Proper(ReserveAll(r, names, env, now, request).nodes, stored)
  {
    if |names| > 0 {
      var front, last := names[..|names| - 1], names[|names| - 1];
      ReserveAllStaysProper(stored, r, front, env, now, request);
      var before := ReserveAll(r, front, env, now, request);
      if last in before.nodes {
        ReservedIsMarked(before.nodes[last]);
      }
    }
  }

  lemma ScaleInNodesAre(c: Config, s: State, env: Env, listing: Listing, now: int, request: Request)
    ensures var t, names := ScaledIn(c, s, env, listing, now, request).0, ToReserve(c, NodesOf(s.stored), listing);
            && NodesOf(t.stored) == NodesOf(s.stored)
            && (t.nodes == s.nodes
                || t.nodes == ReserveAll(Reservations(s.nodes, s.waiters, true), names, env, now, request).nodes)
  {}

  lemma ScaleInStaysProper(c: Config, s: State, env: Env, listing: Listing, now: int, request: Request)
    requires Proper(s.nodes, s.stored)
    ensures var t := ScaledIn(c, s, env, listing, now, request).0;
            Proper(t.nodes, t.stored)
  {
    var names := ToReserve(c, NodesOf(s.stored), listing);
    ReserveAllStaysProper(s.stored, Reservations(s.nodes, s.waiters, true), names, env, now, request);
    ScaleInNodesAre(c, s, env, listing, now, request);
  }

  lemma UnusingStaysProper(nodes: map<string, Node>, stored: Option<Stored>, after: Option<Stored>, name: string)
    requires Proper(nodes, stored) && NodesOf(after) == Marked(NodesOf(stored), name, false)
    ensures Proper(nodes, after)
  {
    MarkedIsWellFormed(NodesOf(stored), name, false);
    forall other | Holds(NodesOf(after), other, true) ensures Holds(NodesOf(stored), other, true) {
      MarkedHolds(NodesOf(stored), name, false, other, true);
    }
  }

  lemma TickStaysProper(c: Config, s: State, env: Env, pods: seq<Pod>, now: int, name: string)
    requires Proper(s.nodes, s.stored) && name in s.waiters
    ensures var t := Ticked(c, s, env, pods, now, name);
            Proper(t.nodes, t.stored)
  {
    var t := Ticked(c, s, env, pods, now, name);
    if t.stored != s.stored {
      UnusingStaysProper(s.nodes, s.stored, t.stored, name);
    }
  }

  lemma SyncStaysProper(s: State, env: Env, listing: Listing)
    requires Proper(s.nodes, s.stored) && Lists(listing, s.nodes)
    ensures Proper(s.nodes, InventorySynced(s, env, listing).stored)
  {
    var t := InventorySynced(s, env, listing);
    if !InventorySyncFails(env) {
      SyncHolds(s, env, listing);
    }
    forall name | Holds(NodesOf(t.stored), name, true) ensures Holds(NodesOf(s.stored), name, true) {
      SyncedUsedWereUsed(s, env, listing, name);
    }
  }

  /** Every step, whatever fails, leaves each used inventory node in the cluster with all marks or none. */
  lemma NextStaysProper(c: Config, s: State, step: Step)
    requires Proper(s.nodes, s.stored) && Enabled(s, step)
    ensures Proper(Next(c, s, step).nodes, Next(c, s, step).stored)
  {
    match step
    case Join(node) =>
    case SyncInventory(env, listing) => SyncStaysProper(s, env, listing);
    case EnsureBaseline(env) =>
    case ScaleOut(env) => ScaleOutStaysProper(c, s, env);
    case ScaleIn(env, listing, now) =>
      ScaleInStaysProper(c, s.(queue := s.queue[1..]), env, listing, now, s.queue[0]);
    case TickWaiter(env, pods, now, name) => TickStaysProper(c, s, env, pods, now, name);
    case AutoEvaluate(env, listing, now) =>
  }

  ghost function ProperAt(c: Config, s: State, steps: seq<Step>): nat -> bool {
    (m: nat) => m <= |steps| && Proper(StateAt(c, s, steps, m).nodes, StateAt(c, s, steps, m).stored)
  }

  lemma StepStaysProper(c: Config, s: State, steps: seq<Step>, i: nat)
    requires i < |steps| && IsRun(c, s, steps) && ProperAt(c, s, steps)(i)
    ensures ProperAt(c, s, steps)(i + 1)
  {
    NextStaysProper(c, StateAt(c, s, steps, i), steps[i]);
  }

  lemma RunStaysProper(c: Config, s: State, steps: seq<Step>, n: nat)
    requires Proper(s.nodes, s.stored) && IsRun(c, s, steps) && n <= |steps|
    ensures ProperAt(c, s, steps)(n)
  {
    var good := ProperAt(c, s, steps);
    StartIsProper(c, s, steps);
    forall i: nat | i < n ensures Carries(good, i) {
      if good(i) {
        StepStaysProper(c, s, steps, i);
      }
    }
    Kept(good, 0, n);
  }

  lemma StartIsProper(c: Config, s: State, steps: seq<Step>)
    requires Proper(s.nodes, s.stored)
    ensures ProperAt(c, s, steps)(0)
  {}

  // ----- After a sync -----

  /** Every used inventory node is in the cluster and fully reserved. */
  ghost predicate UsedAreReserved(s: State) {
    && NamedByKeys(s.nodes) && WellFormed(NodesOf(s.stored))
    && forall name :: Holds(NodesOf(s.stored), name, true) ==> name in s.nodes && HasReservation(s.nodes[name])
  }

  lemma SyncReservesUsed(s: State, env: Env, listing: Listing)
    requires Proper(s.nodes, s.stored) && Lists(listing, s.nodes) && !InventorySyncFails(env)
    ensures UsedAreReserved(InventorySynced(s, env, listing))
  {
    var t := InventorySynced(s, env, listing);
    SyncHolds(s, env, listing);
    forall name | Holds(NodesOf(t.stored), name, true) ensures name in s.nodes && HasReservation(s.nodes[name]) {
      SyncedUsedWereUsed(s, env, listing, name);
      HoldsOnce(NodesOf(t.stored), name);
    }
  }

  /** What the rest of the system does on its own: nodes join, and waiters tick. */
  predicate IsOutside(step: Step) { step.Join? || step.TickWaiter? }

  lemma OutsideKeepsUsedReserved(c: Config, s: State, step: Step)
    requires UsedAreReserved(s) && Enabled(s, step) && IsOutside(step)
    ensures UsedAreReserved(Next(c, s, step))
  {
    if step.TickWaiter? {
      var t := Next(c, s, step);
      if t.stored != s.stored {
        MarkedIsWellFormed(NodesOf(s.stored), step.name, false);
        forall other | Holds(NodesOf(t.stored), other, true) ensures Holds(NodesOf(s.stored), other, true) {
          MarkedHolds(NodesOf(s.stored), step.name, false, other, true);
        }
      }
    }
  }

  lemma {:induction false} UntrackedAreNotRemovable(candidates: seq<InventoryNode>, capacities: map<string, Amounts>,
                                                    available: Amounts)
    requires forall n :: n in candidates ==> n.name !in capacities
    ensures Removable(candidates, capacities, available) == Removal([], available)
  {
    if |candidates| > 0 {
      assert candidates[0] in candidates;
      UntrackedAreNotRemovable(candidates[1..], capacities, available);
    }
  }

  lemma ReservedAreUntracked(s: State, listing: Listing, name: string)
    requires NamedByKeys(s.nodes) && Lists(listing, s.nodes) && name in s.nodes && HasReservation(s.nodes[name])
    ensures name !in EligibleNames(listing.nodes)
  {
    forall m | m in listing.nodes && m.name == name ensures !Eligible(m) {
      assert s.nodes[name] == m;
    }
  }

  /** Reserved nodes have no capacity to count, so an evaluation finds nothing to remove. */
  lemma ReservedAreNotEligible(s: State, listing: Listing)
    requires UsedAreReserved(s) && Lists(listing, s.nodes)
    ensures !EvaluationOf(s, listing).eligible
  {
    var nodes, capacities := NodesOf(s.stored), CapacityByNode(listing.nodes);
    CapacityByNodeHas(listing.nodes);
    forall n | n in HighestUsed(nodes) ensures n.name !in capacities {
      HighestUsedIsUsed(nodes, n);
      assert Holds(nodes, n.name, true);
      ReservedAreUntracked(s, listing, n.name);
    }
    UntrackedAreNotRemovable(HighestUsed(nodes), capacities, Available(listing.nodes, listing.pods));
  }

  lemma HighestUsedIsUsed(nodes: seq<InventoryNode>, n: InventoryNode)
    requires n in HighestUsed(nodes)
    ensures n in nodes && n.used
  {
    SortHas(nodes, After);
    FilterHas(Sort(nodes, After), IsUsed);
  }
}

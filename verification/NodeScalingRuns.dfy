/** Runs of the node-scaling state machine and what every reachable state keeps. */
module NodeScalingRuns {
  import opened Common
  import opened Ordering
  import opened Sequences
  import opened Inventory
  import opened InventorySelection
  import opened InventoryStore
  import opened Pods
  import opened ClusterNodes
  import opened WorkerCapacity
  import opened NodeScaling
  import opened ScaleOutEffects
  import opened ScaleOutSelection
  import opened ScaleOutSafety

  datatype Step =
    | Join(node: Node)
    | SyncInventory(env: Env, listing: Listing)
    | EnsureBaseline(env: Env)
    | ScaleOut(env: Env)
    | ScaleIn(env: Env, listing: Listing, now: int)
    | TickWaiter(env: Env, pods: seq<Pod>, now: int, name: string)
    | AutoEvaluate(env: Env, listing: Listing, now: int)

  /** A list call returns each node of the cluster once. */
  ghost predicate Lists(listing: Listing, nodes: map<string, Node>) {
    && DistinctNames(listing.nodes)
    && (forall n :: n in listing.nodes ==> n.name in nodes && nodes[n.name] == n)
    && (forall name :: name in nodes ==> nodes[name] in listing.nodes)
  }

  ghost predicate Enabled(s: State, step: Step) {
    match step
    case Join(node) => node.name !in s.nodes
    case SyncInventory(_, listing) => Lists(listing, s.nodes)
    case EnsureBaseline(_) => true
    case ScaleOut(_) => true
    case ScaleIn(_, listing, _) => |s.queue| > 0 && Lists(listing, s.nodes)
    case TickWaiter(_, _, _, name) => name in s.waiters
    case AutoEvaluate(_, listing, _) => Lists(listing, s.nodes)
  }

  function Next(c: Config, s: State, step: Step): State {
    match step
    case Join(node) => s.(nodes := s.nodes[node.name := node])
    case SyncInventory(env, listing) => InventorySynced(s, env, listing)
    case EnsureBaseline(env) => s.(register := Baselined(c, s.register, env))
    case ScaleOut(env) => ScaledOut(c, s, env).0
    case ScaleIn(env, listing, now) =>
      if |s.queue| == 0 then s else ScaledIn(c, s.(queue := s.queue[1..]), env, listing, now, s.queue[0]).0
    case TickWaiter(env, pods, now, name) => if name in s.waiters then Ticked(c, s, env, pods, now, name) else s
    case AutoEvaluate(env, listing, now) => AutoEvaluated(c, s, env, listing, now).0
  }

  // ----- Every step -----

  lemma ReserveOneStaysSound(stored: Option<Stored>, r: Reservations, name: string, env: Env, now: int,
                             request: Request)
    requires Sound(r.nodes, stored, r.waiters) && Holds(NodesOf(stored), name, true)
    ensures var t := ReserveOne(r, name, env, now, request);
            Sound(t.nodes, stored, t.waiters)
  {
    if name in r.nodes {
      ReservedIsMarked(r.nodes[name]);
      var t := ReserveOne(r, name, env, now, request);
      forall other | other in r.nodes
        ensures other in t.nodes && (t.nodes[other] == r.nodes[other] || HasReservation(t.nodes[other]))
      {}
      forall other | other in t.waiters
        ensures other in r.waiters || (other == name && HasReservation(t.nodes[name]))
      {}
    }
  }

  lemma {:induction false} ReserveAllStaysSound(stored: Option<Stored>, r: Reservations, names: seq<string>, env: Env,
                                                now: int, request: Request)
    requires Sound(r.nodes, stored, r.waiters)
    requires forall name :: name in names ==> Holds(NodesOf(stored), name, true)
    ensures var t := ReserveAll(r, names, env, now, request);
            Sound(t.nodes, stored, t.waiters)
  {
    if |names| > 0 {
      var front, last := names[..|names| - 1], names[|names| - 1];
      assert last in names && forall n :: n in front ==> n in names;
      ReserveAllStaysSound(stored, r, front, env, now, request);
      var before := ReserveAll(r, front, env, now, request);
      if before.ok {
        ReserveOneStaysSound(stored, before, last, env, now, request);
      }
    }
  }

  lemma ToReserveAreUsed(c: Config, nodes: seq<InventoryNode>, listing: Listing)
    ensures forall name :: name in ToReserve(c, nodes, listing) ==> Holds(nodes, name, true)
  {
    var limit := Reservable(c, nodes, listing);
    HighestUsedSelection(nodes, limit);
    forall name | name in ToReserve(c, nodes, listing) ensures Holds(nodes, name, true) {
      NamesAre(Take(HighestUsed(nodes), limit), name);
      var n :| n in Take(HighestUsed(nodes), limit) && n.name == name;
      assert n in nodes && n.used;
    }
  }

  lemma ScaleInStaysSafe(c: Config, s: State, env: Env, listing: Listing, now: int, request: Request)
    requires Safe(s)
    ensures Safe(ScaledIn(c, s, env, listing, now, request).0)
  {
    var nodes, t := NodesOf(s.stored), ScaledIn(c, s, env, listing, now, request).0;
    if s.stored.Some? && Excess(c, nodes) <= 0 {
      ToReserveAreUsed(c, nodes, listing);
      ReserveAllStaysSound(s.stored, Reservations(s.nodes, s.waiters, true), ToReserve(c, nodes, listing), env, now,
                           request);
    } else {
      assert NodesOf(t.stored) == nodes;
    }
  }

  /** A reserved node becomes unused and loses its waiter. */
  lemma ReleaseStaysSound(nodes: map<string, Node>, stored: Option<Stored>, after: Option<Stored>,
                          waiters: map<string, Waiter>, name: string)
    requires Sound(nodes, stored, waiters) && name in waiters
    requires NodesOf(after) == Marked(NodesOf(stored), name, false)
    ensures Sound(nodes, after, waiters - {name})
  {
    var inventory := NodesOf(stored);
    MarkedIsWellFormed(inventory, name, false);
    forall other, flag ensures Holds(NodesOf(after), other, flag)
      <==> if other == name then Named(inventory, name) && !flag else Holds(inventory, other, flag)
    {
      MarkedHolds(inventory, name, false, other, flag);
    }
    assert HasReservation(nodes[name]);
  }

  lemma TickStaysSafe(c: Config, s: State, env: Env, pods: seq<Pod>, now: int, name: string)
    requires Safe(s) && name in s.waiters
    ensures Safe(Ticked(c, s, env, pods, now, name))
  {
    var t := Ticked(c, s, env, pods, now, name);
    if t.stored == s.stored {
      FewerWaitersStaySound(s.nodes, s.stored, s.waiters, {name});
    } else {
      ReleaseStaysSound(s.nodes, s.stored, t.stored, s.waiters, name);
    }
  }

  lemma {:induction false} ScalingNamesHas(nodes: seq<Node>, name: string)
    ensures name in ScalingNames(nodes) <==> exists n :: n in nodes && HasScalingRole(n) && n.name == name
  {
    if |nodes| > 0 {
      ScalingNamesHas(nodes[..|nodes| - 1], name);
      assert nodes == nodes[..|nodes| - 1] + [nodes[|nodes| - 1]];
    }
  }

  lemma ListedScalingNames(listing: Listing, nodes: map<string, Node>, name: string)
    requires Lists(listing, nodes) && NamedByKeys(nodes)
    ensures name in Sort(ScalingNames(listing.nodes), Less) <==> name in nodes && HasScalingRole(nodes[name])
  {
    SortHas(ScalingNames(listing.nodes), Less);
    ScalingNamesHas(listing.nodes, name);
    if name in nodes {
      assert nodes[name] in listing.nodes;
    }
  }

  /** After a sync the inventory holds exactly the scaling nodes of the cluster, and those it knew keep their flag. */
  lemma SyncHolds(s: State, env: Env, listing: Listing)
    requires NamedByKeys(s.nodes) && WellFormed(NodesOf(s.stored)) && Lists(listing, s.nodes)
    requires !InventorySyncFails(env)
    ensures var before, after := NodesOf(s.stored), NodesOf(InventorySynced(s, env, listing).stored);
            && WellFormed(after)
            && (forall name :: Named(after, name) <==> name != "" && name in s.nodes && HasScalingRole(s.nodes[name]))
            && (forall name, flag :: Holds(before, name, flag) && Named(after, name) ==> Holds(after, name, flag))
  {
    var names := Sort(ScalingNames(listing.nodes), Less);
    var existing := if s.stored.Some? then s.stored.value.spec else Spec(0, []);
    var after := NodesOf(InventorySynced(s, env, listing).stored);
    BuiltHas(existing, s.register.local, names);
    BuiltIsWellFormed(existing, s.register.local, names);
    forall name ensures Named(after, name) <==> name != "" && name in s.nodes && HasScalingRole(s.nodes[name]) {
      ListedScalingNames(listing, s.nodes, name);
    }
    forall name, flag | Holds(existing.nodes, name, flag) && Named(after, name) ensures Holds(after, name, flag) {
      var n :| n in existing.nodes && n.name == name && n.used == flag;
      assert n in after;
    }
  }

  /** A sync keeps nodes used and makes none used. */
  lemma SyncedUsedWereUsed(s: State, env: Env, listing: Listing, name: string)
    requires WellFormed(NodesOf(s.stored))
    requires Holds(NodesOf(InventorySynced(s, env, listing).stored), name, true)
    ensures Holds(NodesOf(s.stored), name, true)
  {
    if !InventorySyncFails(env) {
      var existing := if s.stored.Some? then s.stored.value.spec else Spec(0, []);
      BuiltHas(existing, s.register.local, Sort(ScalingNames(listing.nodes), Less));
    }
  }

  /** A sync in which a call fails changes nothing. Any other writes the count of the working copy and an inventory that
      names exactly the nodes with a scaling mark; it changes nothing outside the inventory. */
  lemma SyncDoes(s: State, env: Env, listing: Listing)
    requires NamedByKeys(s.nodes) && WellFormed(NodesOf(s.stored)) && Lists(listing, s.nodes)
    ensures var t, fails := InventorySynced(s, env, listing), ReadManifest in env.failing || ListNodes in env.failing
                                                               || SaveInventory in env.failing;
            if fails then t == s
            else
              && t == s.(stored := t.stored) && t.stored.Some? && t.stored.value.spec.replicas == s.register.local
              && t.stored.value.status == StatusOf(t.stored.value.spec)
              && (forall name :: Named(NodesOf(t.stored), name) <==>
                                   name != "" && name in s.nodes && HasScalingRole(s.nodes[name]))
              && (forall name :: Holds(NodesOf(t.stored), name, true) ==> Holds(NodesOf(s.stored), name, true))
              && (forall name :: Holds(NodesOf(s.stored), name, true) && Named(NodesOf(t.stored), name) ==>
                                   Holds(NodesOf(t.stored), name, true))
  {
    if !InventorySyncFails(env) {
      SyncHolds(s, env, listing);
      forall name | Holds(NodesOf(InventorySynced(s, env, listing).stored), name, true)
        ensures Holds(NodesOf(s.stored), name, true)
      {
        SyncedUsedWereUsed(s, env, listing, name);
      }
    }
  }

  lemma SyncStaysSafe(s: State, env: Env, listing: Listing)
    requires Safe(s) && Lists(listing, s.nodes)
    ensures Safe(InventorySynced(s, env, listing))
  {
    if !InventorySyncFails(env) {
      SyncHolds(s, env, listing);
      var t := InventorySynced(s, env, listing);
      forall name | Holds(NodesOf(t.stored), name, false) ensures name in t.nodes && HasScalingRole(t.nodes[name]) {
        HoldsOnce(NodesOf(t.stored), name);
      }
      forall name | name in t.waiters ensures Holds(NodesOf(t.stored), name, true) {
        HoldsNames(NodesOf(s.stored), name);
      }
    }
  }

  lemma HoldsNames(nodes: seq<InventoryNode>, name: string)
    requires WellFormed(nodes)
    ensures Holds(nodes, name, true) ==> name != "" && Named(nodes, name)
  {
    HoldsOnce(nodes, name);
    if Holds(nodes, name, true) {
      var n :| n in nodes && n.name == name && n.used;
      var i :| 0 <= i < |nodes| && nodes[i] == n;
    }
  }

  // ----- Runs -----

  /** A scale-out that activates a spare and then cannot mark it. */
  ghost predicate Strands(c: Config, s: State, step: Step) { step.ScaleOut? && StrandsSpare(c, s, step.env) }

  /** Every step keeps the state safe, whatever fails, except exactly the scale-out that strands a spare. */
  lemma NextStaysSafe(c: Config, s: State, step: Step)
    requires Safe(s) && Enabled(s, step)
    ensures Safe(Next(c, s, step)) <==> !Strands(c, s, step)
  {
    match step
    case Join(node) =>
    case SyncInventory(env, listing) => SyncStaysSafe(s, env, listing);
    case EnsureBaseline(env) =>
    case ScaleOut(env) => ScaleOutIsSafeExactly(c, s, env);
    case ScaleIn(env, listing, now) =>
      var t := s.(queue := s.queue[1..]);
      ScaleInStaysSafe(c, t, env, listing, now, s.queue[0]);
    case TickWaiter(env, pods, now, name) => TickStaysSafe(c, s, env, pods, now, name);
    case AutoEvaluate(env, listing, now) =>
  }

  /** The state after the first `n` steps. */
  function StateAt(c: Config, s: State, steps: seq<Step>, n: nat): State
    requires n <= |steps|
  {
    if n == 0 then s else Next(c, StateAt(c, s, steps, n - 1), steps[n - 1])
  }

  ghost predicate IsRun(c: Config, s: State, steps: seq<Step>) {
    forall i :: 0 <= i < |steps| ==> Enabled(StateAt(c, s, steps, i), steps[i])
  }

  /** A freshly started controller: no waiters, and an inventory, if there is one, whose spares are scaling nodes. */
  ghost predicate Initial(s: State) {
    && s.waiters == map[] && s.eligibleSince == None && s.queue == []
    && NamedByKeys(s.nodes) && WellFormed(NodesOf(s.stored)) && SparesAreMarked(s.nodes, s.stored)
  }

  /** Which states of a run are safe, and which steps strand a spare. */
  ghost function SafeAt(c: Config, s: State, steps: seq<Step>): nat -> bool {
    (m: nat) => m <= |steps| && Safe(StateAt(c, s, steps, m))
  }

  ghost function StrandsIn(c: Config, s: State, steps: seq<Step>): nat -> bool {
    (i: nat) => i < |steps| && Strands(c, StateAt(c, s, steps, i), steps[i])
  }

  lemma StepIsSafeExactly(c: Config, s: State, steps: seq<Step>, i: nat)
    requires i < |steps| && IsRun(c, s, steps) && SafeAt(c, s, steps)(i)
    ensures SafeAt(c, s, steps)(i + 1) <==> !StrandsIn(c, s, steps)(i)
  {
    NextStaysSafe(c, StateAt(c, s, steps, i), steps[i]);
  }

  predicate Carries(good: nat -> bool, i: nat) { good(i) ==> good(i + 1) }

  predicate CarriesUnless(good: nat -> bool, harmful: nat -> bool, i: nat) {
    good(i) ==> (good(i + 1) <==> !harmful(i))
  }

  lemma {:induction false} Kept(good: nat -> bool, start: nat, n: nat)
    requires start <= n && good(start) && forall i: nat :: start <= i < n ==> Carries(good, i)
    ensures good(n)
  {
    if start < n {
      Kept(good, start, n - 1);
      assert Carries(good, n - 1);
    }
  }

  /** What every harmless step keeps and every harmful one breaks holds throughout exactly when none is harmful. */
  lemma {:induction false} KeptExactly(good: nat -> bool, harmful: nat -> bool, n: nat)
    requires good(0) && forall i: nat :: i < n ==> CarriesUnless(good, harmful, i)
    ensures (forall m: nat :: m <= n ==> good(m)) <==> (forall i: nat :: i < n ==> !harmful(i))
  {
    if n > 0 {
      KeptExactly(good, harmful, n - 1);
      assert CarriesUnless(good, harmful, n - 1);
    }
  }

  /** In every state of a run up to the n-th the nodes being drained are used and fully reserved, the spares are scaling
      nodes and the inventory is well formed, if and only if none of the steps before it strands a spare. */
  lemma ReachableIsSafe(c: Config, s: State, steps: seq<Step>, n: nat)
    requires Initial(s) && n <= |steps| && IsRun(c, s, steps)
    ensures (forall m: nat :: m <= n ==> SafeAt(c, s, steps)(m)) <==>
              (forall i: nat :: i < n ==> !StrandsIn(c, s, steps)(i))
  {
    var good, harmful := SafeAt(c, s, steps), StrandsIn(c, s, steps);
    InitialIsSafe(s);
    forall i: nat | i < n ensures CarriesUnless(good, harmful, i) {
      if good(i) {
        StepIsSafeExactly(c, s, steps, i);
      }
    }
    KeptExactly(good, harmful, n);
  }

  lemma InitialIsSafe(s: State)
    requires Initial(s)
    ensures Safe(s)
  {}

  // ----- Taking a node out of use -----

  lemma SoundKeepsFlags(before: seq<InventoryNode>, names: set<string>, name: string)
    requires WellFormed(before) && Holds(before, name, true)
    ensures !Holds(MarkedUsed(before, names), name, false)
  {
    HoldsOnce(before, name);
    var after := MarkedUsed(before, names);
    forall n | n in after && n.name == name ensures n.used {
      var i :| 0 <= i < |after| && after[i] == n;
      HoldsAt(before, i);
    }
  }

  lemma ScaleOutKeepsUsed(c: Config, s: State, env: Env, name: string)
    requires Safe(s) && Holds(NodesOf(s.stored), name, true)
    ensures !Holds(NodesOf(ScaledOut(c, s, env).0.stored), name, false)
  {
    var nodes := NodesOf(s.stored);
    HoldsOnce(nodes, name);
    if GetInventory !in env.failing && s.stored.Some? && !NothingToActivate(c, s) {
      if ActivateSelected(c, s, env).ok {
        ScaleOutEffect(c, s, env);
        SoundKeepsFlags(nodes, AsSet(Spares(c, nodes, s.waiters.Keys)), name);
      } else {
        var k := ScaleOutFailurePrefix(c, s, env);
        SoundKeepsFlags(nodes, AsSet(Selection(c, s)[..k]), name);
      }
    }
  }

  lemma SyncKeepsUsed(s: State, env: Env, listing: Listing, name: string)
    requires Safe(s) && Lists(listing, s.nodes) && Holds(NodesOf(s.stored), name, true)
    ensures !Holds(NodesOf(InventorySynced(s, env, listing).stored), name, false)
  {
    HoldsOnce(NodesOf(s.stored), name);
    if !InventorySyncFails(env) {
      SyncHolds(s, env, listing);
      HoldsOnce(NodesOf(InventorySynced(s, env, listing).stored), name);
    }
  }

  /** A pod that a node being drained need not wait for: it has ended or is being deleted, or it is a mirror pod, exempt
      by namespace, label or annotation, or owned by a daemon set. */
  ghost predicate Excused(c: Config, pod: Pod) {
    || pod.phase == Succeeded || pod.phase == Failed || pod.meta.deleting
    || "kubernetes.io/config.mirror" in pod.meta.annotations
    || pod.meta.namespace in c.exemptNamespaces
    || (c.exemptKey != "" && c.exemptKey in pod.meta.labels && pod.meta.labels[c.exemptKey] == c.exemptValue)
    || (c.exemptKey != "" && c.exemptKey in pod.meta.annotations && pod.meta.annotations[c.exemptKey] == c.exemptValue)
    || "DaemonSet" in pod.meta.owners
  }

  /** Only excused pods are left on the node. */
  ghost predicate IsDrained(c: Config, pods: seq<Pod>, name: string) {
    forall pod :: pod in pods && pod.nodeName == name ==> Excused(c, pod)
  }

  lemma DrainedExactly(c: Config, pods: seq<Pod>, name: string)
    ensures IsBlocked(c, pods, name) <==> !IsDrained(c, pods, name)
  {
    forall pod: Pod ensures Blocks(c, pod, name) <==> pod.nodeName == name && !Excused(c, pod) {}
  }

  /** A used node goes back to unused in one way only: a tick of its own waiter, while it is reserved, and with no
      blocking pod left on it unless the force delay has passed. */
  lemma OnlyDrainedNodesBecomeUnused(c: Config, s: State, step: Step, name: string)
    requires Safe(s) && Enabled(s, step)
    requires Holds(NodesOf(s.stored), name, true) && Holds(NodesOf(Next(c, s, step).stored), name, false)
    ensures step.TickWaiter? && step.name == name && name in s.waiters
    ensures name in s.nodes && HasReservation(s.nodes[name])
    ensures IsDrained(c, step.pods, name)
            || (c.forceEnabled && step.now - s.waiters[name].startedAt >= c.forceDelay)
  {
    HoldsOnce(NodesOf(s.stored), name);
    match step
    case Join(node) =>
    case SyncInventory(env, listing) => SyncKeepsUsed(s, env, listing, name);
    case EnsureBaseline(env) =>
    case ScaleOut(env) => ScaleOutKeepsUsed(c, s, env, name);
    case ScaleIn(env, listing, now) =>
    case TickWaiter(env, pods, now, other) =>
      MarkedHolds(NodesOf(s.stored), other, false, name, false);
      DrainedExactly(c, pods, name);
    case AutoEvaluate(env, listing, now) =>
  }

  /** Conversely, a tick on which no call fails releases the node exactly when nothing blocks it or force applies. The
      waiter is gone then and its request is queued again; otherwise nothing changes. */
  lemma TickReleasesDrainedNode(c: Config, s: State, env: Env, pods: seq<Pod>, now: int, name: string)
    requires Safe(s) && name in s.waiters && env.failing == {}
    ensures var t := Ticked(c, s, env, pods, now, name);
            var forced := c.forceEnabled && now - s.waiters[name].startedAt >= c.forceDelay;
            var released := IsDrained(c, pods, name) || forced;
            && (Holds(NodesOf(t.stored), name, false) <==> released)
            && (released ==> t.waiters == s.waiters - {name} && t.nodes == s.nodes)
            && (released ==> t.queue == if |s.queue| < 128 then s.queue + [s.waiters[name].request] else s.queue)
            && (!released ==> t == s)
  {
    var inventory := NodesOf(s.stored);
    assert Holds(inventory, name, true) && HasReservation(s.nodes[name]);
    HoldsOnce(inventory, name);
    MarkedHolds(inventory, name, false, name, false);
    DrainedExactly(c, pods, name);
  }

  // ----- What does not hold -----

  const ONE_SPARE := State(map["a" := Node("a", map[ROLE := SCALING], [], false, 0, 0)],
                           Some(WithStatus(Spec(1, [InventoryNode("a", 1, false)]))), Register(1, 1), map[], None, [])
  const FAILING_MARK := Env({Mark("a")}, None)

  lemma NothingWaits(c: Config, nodes: seq<InventoryNode>)
    ensures Reused(c, nodes, {}) == []
  {
    FilterNone(Sort(nodes, Before), WaitsIn({}));
  }

  lemma OneSpareIsUnused()
    ensures Unused(NodesOf(ONE_SPARE.stored)) == NodesOf(ONE_SPARE.stored)
  {
    var nodes := NodesOf(ONE_SPARE.stored);
    WellFormedListsInOrder(nodes, {});
    FilterAll(nodes, IsUnused);
  }

  lemma OneSpareIsTaken(c: Config)
    ensures Reused(c, NodesOf(ONE_SPARE.stored), {}) == [] && Spares(c, NodesOf(ONE_SPARE.stored), {}) == ["a"]
  {
    NothingWaits(c, NodesOf(ONE_SPARE.stored));
    OneSpareIsUnused();
  }

  /** It does happen: one spare whose marking fails, in the first scale-out, under any configuration. */
  lemma UnmarkedSpareBreaksSafety(c: Config)
    ensures Initial(ONE_SPARE) && Strands(c, ONE_SPARE, ScaleOut(FAILING_MARK))
    ensures !Safe(Next(c, ONE_SPARE, ScaleOut(FAILING_MARK)))
  {
    OneSpareIsStranded(c);
    OneSpareIsInitial();
    InitialIsSafe(ONE_SPARE);
    ScaleOutIsSafeExactly(c, ONE_SPARE, FAILING_MARK);
  }

  lemma OneSpareIsStranded(c: Config)
    ensures StrandsSpare(c, ONE_SPARE, FAILING_MARK)
  {
    OneSpareIsTaken(c);
    assert ONE_SPARE.waiters.Keys == {};
    assert StrandsAt(["a"], 0, FAILING_MARK);
  }

  lemma OneSpareIsInitial()
    ensures Initial(ONE_SPARE)
  {}

  /** Activation takes away every mark a sync looks for: the first sync after a scale-out forgets the nodes it took. */
  lemma SyncForgetsActivated(c: Config, s: State, env: Env, sync: Env, listing: Listing, name: string)
    requires Safe(s) && s.stored.Some? && GetInventory !in env.failing
    requires !NothingToActivate(c, s) && ActivateSelected(c, s, env).ok && name in Selection(c, s)
    requires Lists(listing, ScaledOut(c, s, env).0.nodes) && !InventorySyncFails(sync)
    ensures Named(NodesOf(ScaledOut(c, s, env).0.stored), name)
    ensures !Named(NodesOf(InventorySynced(ScaledOut(c, s, env).0, sync, listing).stored), name)
  {
    var t := ScaledOut(c, s, env).0;
    ScaleOutEffect(c, s, env);
    forall k | k in t.nodes ensures t.nodes[k].name == k {}
    MarkedUsedIsWellFormed(NodesOf(s.stored), AsSet(Spares(c, NodesOf(s.stored), s.waiters.Keys)));
    SyncHolds(t, sync, listing);
    if name in s.nodes {
      ActivatedIsUnmarked(s.nodes[name]);
    }
    SelectionIsStored(c, s, name);
    MarkedUsedNames(NodesOf(s.stored), AsSet(Spares(c, NodesOf(s.stored), s.waiters.Keys)), name);
  }

  lemma SelectionIsStored(c: Config, s: State, name: string)
    requires s.stored.Some? && WellFormed(NodesOf(s.stored)) && name in Selection(c, s)
    ensures Named(NodesOf(s.stored), name)
  {
    ReusedAre(c, NodesOf(s.stored), s.waiters.Keys);
    SparesAre(c, NodesOf(s.stored), s.waiters.Keys);
    HoldsOnce(NodesOf(s.stored), name);
  }

  lemma MarkedUsedNames(nodes: seq<InventoryNode>, names: set<string>, name: string)
    requires Named(nodes, name)
    ensures Named(MarkedUsed(nodes, names), name)
  {
    var n :| n in nodes && n.name == name;
    var i :| 0 <= i < |nodes| && nodes[i] == n;
    assert MarkedUsed(nodes, names)[i] in MarkedUsed(nodes, names);
  }
}

/** The node-scaling state machine: the state the controller and its collaborators hold, and what each of its
    operations does to that state, every call to the outside either succeeding or failing. */
module NodeScaling {
  import opened Common
  import opened Quantities
  import opened Ordering
  import opened Sequences
  import opened Inventory
  import opened InventorySelection
  import opened InventoryStore
  import opened Pods
  import opened ClusterNodes
  import opened ScaleInCapacity
  import opened ReservationSafety

  datatype Config = Config(repoConfigured: bool, quotaClient: bool, batchSize: int, preparedSpares: int, maxNodes: int,
                           triggerDelay: int, forceEnabled: bool, forceDelay: int,
                           exemptNamespaces: set<string>, exemptKey: string, exemptValue: string)

  /** A scale-in request carries, as its reason, the evaluation that led to it. */
  datatype Request = Request(removable: seq<string>, projected: Amounts)

  datatype Waiter = Waiter(startedAt: int, request: Request)

  /** The replica count in the working copy of the manifest and in the last commit. */
  datatype Register = Register(local: int, committed: int)

  datatype State = State(nodes: map<string, Node>, stored: Option<Stored>, register: Register,
                         waiters: map<string, Waiter>, eligibleSince: Option<int>, queue: seq<Request>)

  datatype Call =
    | GetInventory
    | GetInventoryAgain
    | SaveInventory
    | UpdateReplicas
    | ListNodes
    | ListPods
    | Activate(name: string)
    | Mark(name: string)
    | CheckReservation(name: string)
    | Reserve(name: string)
    | SyncRepo
    | ReadManifest
    | WriteManifest
    | Commit
    | Push

  /** What the outside does during one operation: the calls that fail, and the value a pull brings, if any. */
  datatype Env = Env(failing: set<Call>, pulled: Option<int>)

  /** One snapshot of the cluster as list calls return it. */
  datatype Listing = Listing(nodes: seq<Node>, pods: seq<Pod>)

  datatype Outcome = Done | Aborted | Deferred

  const QUEUE_CAPACITY := 128

  function BatchSize(c: Config): int { if c.batchSize <= 0 then 1 else c.batchSize }

  function MinimumSpares(c: Config): int { if c.preparedSpares <= 0 then 1 else c.preparedSpares }

  function NodesOf(stored: Option<Stored>): seq<InventoryNode> { if stored.Some? then stored.value.spec.nodes else [] }

  // ----- The manifest -----

  function Pulled(r: Register, c: Config, env: Env): Register {
    if c.repoConfigured && SyncRepo !in env.failing && env.pulled.Some? then
      Register(env.pulled.value, env.pulled.value)
    else
      r
  }

  predicate SyncFails(c: Config, env: Env) { c.repoConfigured && SyncRepo in env.failing }

  predicate Published(c: Config, env: Env) {
    WriteManifest !in env.failing && (c.repoConfigured ==> Commit !in env.failing && Push !in env.failing)
  }

  /** Write, commit, push; a failed push resets the working copy to the last commit. */
  function Publish(r: Register, c: Config, env: Env, target: int): Register {
    if WriteManifest in env.failing then r
    else if !c.repoConfigured || Commit in env.failing then r.(local := target)
    else if Push in env.failing then Register(r.committed, r.committed)
    else Register(target, target)
  }

  // ----- Scale-out -----

  function WaitsIn(waiting: set<string>): InventoryNode -> bool {
    (node: InventoryNode) => node.used && node.name in waiting
  }

  /** Used nodes with an active waiter, lowest (order, name) first. */
  function Waiting(nodes: seq<InventoryNode>, waiting: set<string>): seq<InventoryNode> {
    Filter(Sort(nodes, Before), WaitsIn(waiting))
  }

  function Reused(c: Config, nodes: seq<InventoryNode>, waiting: set<string>): seq<string> {
    Names(Take(Waiting(nodes, waiting), BatchSize(c)))
  }

  function Spares(c: Config, nodes: seq<InventoryNode>, waiting: set<string>): seq<string> {
    Names(Take(Unused(nodes), BatchSize(c) - |Reused(c, nodes, waiting)|))
  }

  function Capped(c: Config, target: int): int { if c.maxNodes > 0 && target > c.maxNodes then c.maxNodes else target }

  /** How many of the taken spares the cap allows to replace. */
  function Replenished(c: Config, replicas: int, taken: nat): int {
    if c.maxNodes > 0 && replicas + taken > c.maxNodes then Max(0, c.maxNodes - replicas) else taken
  }

  datatype Pool = Pool(nodes: map<string, Node>, stored: Option<Stored>, waiters: map<string, Waiter>, ok: bool)

  function ActivateOne(p: Pool, name: string, stop: bool, env: Env): Pool {
    var waiters := if stop then p.waiters - {name} else p.waiters;
    if Activate(name) in env.failing || name !in p.nodes then Pool(p.nodes, p.stored, waiters, false)
    else
      var nodes := p.nodes[name := Activated(p.nodes[name])];
      if Mark(name) in env.failing || p.stored.None? || !Named(p.stored.value.spec.nodes, name) then
        Pool(nodes, p.stored, waiters, false)
      else
        var spec := p.stored.value.spec;
        Pool(nodes, Some(WithStatus(spec.(nodes := Marked(spec.nodes, name, true)))), waiters, p.ok)
  }

  /** Stops at the first failure. */
  function ActivateAll(p: Pool, names: seq<string>, stop: bool, env: Env): Pool {
    if |names| == 0 then p
    else
      var before := ActivateAll(p, names[..|names| - 1], stop, env);
      if before.ok then ActivateOne(before, names[|names| - 1], stop, env) else before
  }

  /** The reused nodes with their waiters stopped, then the spares. */
  function ActivateBoth(p: Pool, reused: seq<string>, spares: seq<string>, env: Env): Pool {
    ActivateAll(ActivateAll(p, reused, true, env), spares, false, env)
  }

  function ActivateSelected(c: Config, s: State, env: Env): Pool {
    var nodes := NodesOf(s.stored);
    ActivateBoth(Pool(s.nodes, s.stored, s.waiters, true), Reused(c, nodes, s.waiters.Keys),
                 Spares(c, nodes, s.waiters.Keys), env)
  }

  datatype Manifest = Manifest(register: Register, stored: Option<Stored>, outcome: Outcome)

  /** Publish a new replica count and record it in the inventory; the same count needs no writing. */
  function SetReplicas(c: Config, r: Register, stored: Option<Stored>, env: Env, target: int): Manifest {
    if target == r.local then Manifest(r, stored, Done)
    else
      var published := Publish(r, c, env, target);
      if !Published(c, env) || UpdateReplicas in env.failing || stored.None? then Manifest(published, stored, Aborted)
      else Manifest(published, Some(WithStatus(stored.value.spec.(replicas := target))), Done)
  }

  function Replenish(c: Config, r: Register, stored: Option<Stored>, env: Env, count: int): Manifest {
    if SyncFails(c, env) then Manifest(r, stored, Done)
    else
      var pulled := Pulled(r, c, env);
      if ReadManifest in env.failing then Manifest(pulled, stored, Done)
      else SetReplicas(c, pulled, stored, env, Capped(c, pulled.local + count))
  }

  predicate NothingToActivate(c: Config, s: State) {
    var nodes := NodesOf(s.stored);
    |Reused(c, nodes, s.waiters.Keys)| == 0 && |Spares(c, nodes, s.waiters.Keys)| == 0
  }

  function ScaledOut(c: Config, s: State, env: Env): (State, Outcome) {
    if GetInventory in env.failing || s.stored.None? || NothingToActivate(c, s) then (s, Aborted)
    else
      var spec, pool := s.stored.value.spec, ActivateSelected(c, s, env);
      if !pool.ok then (State(pool.nodes, pool.stored, s.register, pool.waiters, s.eligibleSince, s.queue), Aborted)
      else
        var count := Replenished(c, spec.replicas, |Spares(c, spec.nodes, s.waiters.Keys)|);
        var m := Replenish(c, s.register, pool.stored, env, count);
        (State(pool.nodes, m.stored, m.register, pool.waiters, None, s.queue), m.outcome)
  }

  // ----- Scale-in -----

  function Excess(c: Config, nodes: seq<InventoryNode>): int { CountUnused(nodes) - MinimumSpares(c) }

  function RemoveExcess(c: Config, r: Register, stored: Option<Stored>, env: Env, excess: int): Manifest {
    if SyncFails(c, env) then Manifest(r, stored, Done)
    else
      var pulled := Pulled(r, c, env);
      if ReadManifest in env.failing then Manifest(pulled, stored, Aborted)
      else SetReplicas(c, pulled, stored, env, Max(0, pulled.local - excess))
  }

  datatype Reservations = Reservations(nodes: map<string, Node>, waiters: map<string, Waiter>, ok: bool)

  function ReserveOne(r: Reservations, name: string, env: Env, now: int, request: Request): Reservations {
    if CheckReservation(name) in env.failing || name !in r.nodes then Reservations(r.nodes, r.waiters, false)
    else if !HasReservation(r.nodes[name]) && Reserve(name) in env.failing then Reservations(r.nodes, r.waiters, false)
    else
      var waiters := if name in r.waiters then r.waiters else r.waiters[name := Waiter(now, request)];
      Reservations(r.nodes[name := Reserving(r.nodes[name])], waiters, r.ok)
  }

  /** Stops at the first failure. */
  function ReserveAll(r: Reservations, names: seq<string>, env: Env, now: int, request: Request): Reservations {
    if |names| == 0 then r
    else
      var before := ReserveAll(r, names[..|names| - 1], env, now, request);
      if before.ok then ReserveOne(before, names[|names| - 1], env, now, request) else before
  }

  predicate EvaluationFails(env: Env) {
    ListNodes in env.failing || ListPods in env.failing || GetInventoryAgain in env.failing
  }

  /** How many used nodes may be reserved. */
  function Reservable(c: Config, nodes: seq<InventoryNode>, listing: Listing): nat {
    if c.quotaClient then |Evaluated(nodes, listing.nodes, listing.pods).removable| else CountUsed(nodes)
  }

  function ToReserve(c: Config, nodes: seq<InventoryNode>, listing: Listing): seq<string> {
    Names(Take(HighestUsed(nodes), Reservable(c, nodes, listing)))
  }

  function ScaledIn(c: Config, s: State, env: Env, listing: Listing, now: int, request: Request): (State, Outcome) {
    if GetInventory in env.failing || s.stored.None? then (s, Aborted)
    else
      var nodes := s.stored.value.spec.nodes;
      if Excess(c, nodes) > 0 then
        var m := RemoveExcess(c, s.register, s.stored, env, Excess(c, nodes));
        (State(s.nodes, m.stored, m.register, s.waiters, s.eligibleSince, s.queue), m.outcome)
      else if CountUsed(nodes) == 0 then (s, Done)
      else if c.quotaClient && EvaluationFails(env) then (s, Aborted)
      else if Reservable(c, nodes, listing) == 0 then (s, Done)
      else
        var r := ReserveAll(Reservations(s.nodes, s.waiters, true), ToReserve(c, nodes, listing), env, now, request);
        (State(r.nodes, s.stored, s.register, r.waiters, s.eligibleSince, s.queue), if r.ok then Deferred else Aborted)
  }

  // ----- Scale-in waiters -----

  const MIRROR_KEY := "kubernetes.io/config.mirror"
  const DAEMON_SET := "DaemonSet"

  predicate IsExempt(c: Config, m: Metadata) {
    || m.namespace in c.exemptNamespaces
    || (c.exemptKey != "" && c.exemptKey in m.labels && m.labels[c.exemptKey] == c.exemptValue)
    || (c.exemptKey != "" && c.exemptKey in m.annotations && m.annotations[c.exemptKey] == c.exemptValue)
  }

  /** A pod whose node has to wait for it. */
  predicate Blocks(c: Config, pod: Pod, name: string) {
    && pod.nodeName == name && !IsTerminal(pod) && !pod.meta.deleting && MIRROR_KEY !in pod.meta.annotations
    && !IsExempt(c, pod.meta) && DAEMON_SET !in pod.meta.owners
  }

  predicate IsBlocked(c: Config, pods: seq<Pod>, name: string) { exists p :: p in pods && Blocks(c, p, name) }

  predicate MayForce(c: Config, waiters: map<string, Waiter>, name: string, now: int) {
    name in waiters && c.forceEnabled && now - waiters[name].startedAt >= c.forceDelay
  }

  function Enqueued(queue: seq<Request>, request: Request): seq<Request> {
    if |queue| < QUEUE_CAPACITY then queue + [request] else queue
  }

  /** One tick of the waiter of a node, with the cleanup of a finished waiter. */
  function Ticked(c: Config, s: State, env: Env, pods: seq<Pod>, now: int, name: string): State
    requires name in s.waiters
  {
    var cleared := s.waiters - {name};
    if CheckReservation(name) in env.failing || name !in s.nodes || !HasReservation(s.nodes[name])
       || ListPods in env.failing then
      s.(waiters := cleared)
    else if IsBlocked(c, pods, name) && !MayForce(c, s.waiters, name, now) then s
    else if Mark(name) in env.failing || s.stored.None? || !Named(s.stored.value.spec.nodes, name) then
      s.(waiters := cleared)
    else
      var spec := s.stored.value.spec;
      State(s.nodes, Some(WithStatus(spec.(nodes := Marked(spec.nodes, name, false)))), s.register, cleared,
            s.eligibleSince, Enqueued(s.queue, s.waiters[name].request))
  }

  // ----- Inventory sync, baseline, trigger -----

  function ScalingNames(nodes: seq<Node>): seq<string> {
    if |nodes| == 0 then []
    else
      var front, last := ScalingNames(nodes[..|nodes| - 1]), nodes[|nodes| - 1];
      if HasScalingRole(last) then front + [last.name] else front
  }

  predicate InventorySyncFails(env: Env) {
    ReadManifest in env.failing || ListNodes in env.failing || SaveInventory in env.failing
  }

  function InventorySynced(s: State, env: Env, listing: Listing): State {
    if InventorySyncFails(env) then s
    else s.(stored := Some(WithStatus(Synced(s.stored, s.register.local, Sort(ScalingNames(listing.nodes), Less)))))
  }

  function Baselined(c: Config, r: Register, env: Env): Register {
    if SyncFails(c, env) then r
    else
      var pulled := Pulled(r, c, env);
      if ReadManifest in env.failing || pulled.local != 0 then pulled else Publish(pulled, c, env, MinimumSpares(c))
  }

  datatype Trigger = Trigger(eligibleSince: Option<int>, requested: bool)

  function Debounced(c: Config, since: Option<int>, eligible: bool, now: int): Trigger {
    if !eligible then Trigger(None, false)
    else if since.None? then Trigger(Some(now), false)
    else if now - since.value < c.triggerDelay then Trigger(since, false)
    else Trigger(None, true)
  }

  /** An evaluation completes when no waiter is active, the quota client is set and no call fails. */
  predicate Completes(c: Config, s: State, env: Env) {
    && c.quotaClient && |s.waiters| == 0 && s.stored.Some?
    && ListNodes !in env.failing && ListPods !in env.failing && GetInventory !in env.failing
  }

  function EvaluationOf(s: State, listing: Listing): Evaluation {
    Evaluated(NodesOf(s.stored), listing.nodes, listing.pods)
  }

  function Triggered(c: Config, s: State, e: Evaluation, now: int): (State, bool) {
    var t := Debounced(c, s.eligibleSince, e.eligible, now);
    var queue := if t.requested then Enqueued(s.queue, Request(e.removable, e.projected)) else s.queue;
    (State(s.nodes, s.stored, s.register, s.waiters, t.eligibleSince, queue), t.requested)
  }

  function AutoEvaluated(c: Config, s: State, env: Env, listing: Listing, now: int): (State, bool) {
    if Completes(c, s, env) then Triggered(c, s, EvaluationOf(s, listing), now) else (s, false)
  }
}

/** The controller object and the manifest checkout it drives. Each method is one atomic step and is proved to move
    the state exactly as the state machine says. */
module NodeScalingController {
  import opened Common
  import opened Ordering
  import opened Sequences
  import opened Inventory
  import opened InventorySelection
  import opened InventoryStore
  import opened Pods
  import opened ClusterNodes
  import opened ScaleInCapacity
  import opened ReservationSafety
  import opened NodeScaling

  /** The checked-out repository holding the replica count. */
  class NodeScalingRuntime {
    var register: Register

    constructor (register: Register)
      ensures this.register == register
    {
      this.register := register;
    }

    method SyncRepoIfConfigured(c: Config, env: Env) returns (ok: bool)
      modifies this
      ensures ok <==> !(c.repoConfigured && SyncRepo in env.failing)
      ensures register == if ok && c.repoConfigured && env.pulled.Some?
              then Register(env.pulled.value, env.pulled.value)
                          else old(register)
    {
      if !c.repoConfigured { return true; }
      if SyncRepo in env.failing { return false; }
      if env.pulled.Some? {
        register := Register(env.pulled.value, env.pulled.value);
      }
      ok := true;
    }

    method ReadMachineDeploymentReplicas(env: Env) returns (r: Result<int>)
      ensures r.Failure? <==> ReadManifest in env.failing
      ensures r.Success? ==> r.value == register.local
    {
      if ReadManifest in env.failing { return Failure("cannot read manifest"); }
      r := Success(register.local);
    }

    method WriteMachineDeploymentReplicas(replicas: int, env: Env) returns (ok: bool)
      modifies this
      ensures ok == (WriteManifest !in env.failing)
      ensures register == if ok then old(register).(local := replicas) else old(register)
    {
      if WriteManifest in env.failing { return false; }
      register := register.(local := replicas);
      ok := true;
    }

    method CommitAndPush(env: Env) returns (ok: bool)
      modifies this
      ensures ok == (Commit !in env.failing && Push !in env.failing)
      ensures register == if Commit in env.failing then old(register)
                          else if ok then Register(old(register).local, old(register).local)
                          else Register(old(register).committed, old(register).committed)
    {
      if Commit in env.failing { return false; }
      var previousHead := register.committed;
      register := register.(committed := register.local);
      if Push in env.failing {
        register := Register(previousHead, previousHead);
        return false;
      }
      ok := true;
    }

    method PublishReplicas(c: Config, replicas: int, env: Env) returns (ok: bool)
      modifies this
      ensures ok == Published(c, env)
      ensures register == Publish(old(register), c, env, replicas)
    {
      ok := WriteMachineDeploymentReplicas(replicas, env);
      if !ok { return; }
      if c.repoConfigured {
        ok := CommitAndPush(env);
      }
    }
  }

  class Controller {
    const config: Config
    const client: NodeClient
    const store: NodeScalingInventoryStore
    const runtime: NodeScalingRuntime
    var waiters: map<string, Waiter>
    var eligibleSince: Option<int>
    var queue: seq<Request>

    ghost function Value(): State
      reads this, client, store, runtime
    {
      State(client.nodes, store.stored, runtime.register, waiters, eligibleSince, queue)
    }

    constructor (config: Config, client: NodeClient, store: NodeScalingInventoryStore, runtime: NodeScalingRuntime)
      ensures this.config == config && this.client == client && this.store == store && this.runtime == runtime
      ensures Value() == State(client.nodes, store.stored, runtime.register, map[], None, [])
    {
      this.config, this.client, this.store, this.runtime := config, client, store, runtime;
      waiters, eligibleSince, queue := map[], None, [];
    }

    method HandleScaleInRequest(request: Request) returns (ok: bool)
      modifies this`queue
      ensures ok == (|old(queue)| < QUEUE_CAPACITY)
      ensures Value() == old(Value()).(queue := Enqueued(old(queue), request))
    {
      if |queue| >= QUEUE_CAPACITY { return false; }
      queue := queue + [request];
      ok := true;
    }

    method StopScaleInWaiter(name: string) returns (stopped: bool)
      modifies this`waiters
      ensures stopped == (name in old(waiters))
      ensures waiters == old(waiters) - {name}
    {
      stopped := name in waiters;
      if stopped {
        waiters := waiters - {name};
      } else {
        assert waiters - {name} == waiters;
      }
    }

    method FindReusableScaleInWaiterNodes(inventory: Spec, limit: int) returns (selected: seq<string>)
      ensures selected == Names(Take(Waiting(inventory.nodes, waiters.Keys), limit))
    {
      if limit <= 0 { return []; }
      var active := waiters.Keys;
      if |active| == 0 {
        WaitingNeedsWaiters(inventory.nodes, active);
        return [];
      }
      var nodes := SelectFirst(Sort(inventory.nodes, Before), WaitsIn(active), limit);
      selected := Names(nodes);
    }

    /** The activation loop: stop the waiter of each node first when `stop` is set. */
    method ActivateNodes(names: seq<string>, stop: bool, env: Env) returns (ok: bool)
      modifies this`waiters, client, store
      ensures Pool(client.nodes, store.stored, waiters, ok)
              == ActivateAll(Pool(old(client.nodes), old(store.stored), old(waiters), true), names, stop, env)
    {
      ghost var start := Pool(client.nodes, store.stored, waiters, true);
      for i := 0 to |names|
        invariant Pool(client.nodes, store.stored, waiters, true) == ActivateAll(start, names[..i], stop, env)
      {
        assert names[..i + 1][..i] == names[..i];
        if stop {
          var _ := StopScaleInWaiter(names[i]);
        }
        var activated := client.ActivateScalingNode(names[i], Activate(names[i]) in env.failing);
        if !activated {
          ActivateStops(start, names, stop, env, i + 1);
          return false;
        }
        var marked := store.UpdateNodeUsage(names[i], true, Mark(names[i]) in env.failing);
        if !marked {
          ActivateStops(start, names, stop, env, i + 1);
          return false;
        }
      }
      assert names[..|names|] == names;
      ok := true;
    }

    method SetMachineDeploymentReplicas(replicas: int, env: Env) returns (outcome: Outcome)
      modifies store, runtime
      ensures Manifest(runtime.register, store.stored, outcome)
              == SetReplicas(config, old(runtime.register), old(store.stored), env, replicas)
    {
      if replicas == runtime.register.local { return Done; }
      var published := runtime.PublishReplicas(config, replicas, env);
      if !published { return Aborted; }
      var recorded := store.UpdateMachineDeploymentReplicas(replicas, UpdateReplicas in env.failing);
      outcome := if recorded then Done else Aborted;
    }

    /** Waiters first; spares fill up the batch. */
    method SelectNodes(inventory: Spec) returns (reused: seq<string>, spares: seq<string>)
      ensures reused == Reused(config, inventory.nodes, waiters.Keys)
      ensures spares == Spares(config, inventory.nodes, waiters.Keys)
    {
      var limit := BatchSize(config);
      reused := FindReusableScaleInWaiterNodes(inventory, limit);
      spares := [];
      SelectionLengths(inventory.nodes);
      var remaining := limit - |reused|;
      if remaining > 0 {
        var found := FindUnusedInventoryNodes(Some(inventory), remaining);
        if found.Success? {
          spares := Names(found.value);
        }
      }
    }

    method ActivateSelection(reused: seq<string>, spares: seq<string>, env: Env) returns (ok: bool)
      requires reused == Reused(config, NodesOf(store.stored), waiters.Keys)
      requires spares == Spares(config, NodesOf(store.stored), waiters.Keys)
      modifies this`waiters, client, store
      ensures Pool(client.nodes, store.stored, waiters, ok) == ActivateSelected(config, old(Value()), env)
    {
      ok := ActivateNodes(reused, true, env);
      if ok {
        ok := ActivateNodes(spares, false, env);
      } else {
        ActivateKeepsFailure(Pool(client.nodes, store.stored, waiters, false), spares, false, env);
      }
    }

    method ReplenishSpares(count: int, env: Env) returns (outcome: Outcome)
      modifies store, runtime
      ensures Manifest(runtime.register, store.stored, outcome)
              == Replenish(config, old(runtime.register), old(store.stored), env, count)
    {
      var synced := runtime.SyncRepoIfConfigured(config, env);
      if !synced { return Done; }
      var read := runtime.ReadMachineDeploymentReplicas(env);
      if read.Failure? { return Done; }
      var target := read.value + count;
      if config.maxNodes > 0 && target > config.maxNodes {
        target := config.maxNodes;
      }
      outcome := SetMachineDeploymentReplicas(target, env);
    }

    method ReconcileScaleOut(env: Env) returns (outcome: Outcome)
      modifies this, client, store, runtime
      ensures (Value(), outcome) == ScaledOut(config, old(Value()), env)
    {
      var got := store.Get(GetInventory in env.failing);
      if got.Failure? { return Aborted; }
      var inventory := got.value;
      var reused, spares := SelectNodes(inventory);
      if |reused| == 0 && |spares| == 0 { return Aborted; }
      var replenish := |spares|;
      if config.maxNodes > 0 && inventory.replicas + replenish > config.maxNodes {
        replenish := config.maxNodes - inventory.replicas;
        if replenish < 0 { replenish := 0; }
      }
      var ok := ActivateSelection(reused, spares, env);
      if !ok { return Aborted; }
      eligibleSince := None;
      outcome := ReplenishSpares(replenish, env);
    }

    method StartScaleInWaiter(name: string, request: Request, now: int)
      modifies this`waiters
      ensures waiters == if name in old(waiters) then old(waiters) else old(waiters)[name := Waiter(now, request)]
    {
      if name in waiters { return; }
      waiters := waiters[name := Waiter(now, request)];
    }

    method ReserveNodes(names: seq<string>, request: Request, env: Env, now: int) returns (ok: bool)
      modifies this`waiters, client
      ensures Reservations(client.nodes, waiters, ok)
              == ReserveAll(Reservations(old(client.nodes), old(waiters), true), names, env, now, request)
    {
      ghost var start := Reservations(client.nodes, waiters, true);
      for i := 0 to |names|
        invariant Reservations(client.nodes, waiters, true) == ReserveAll(start, names[..i], env, now, request)
      {
        assert names[..i + 1][..i] == names[..i];
        var already := client.NodeHasScalingReservation(names[i], CheckReservation(names[i]) in env.failing);
        if already.Failure? {
          ReserveStops(start, names, env, now, request, i + 1);
          return false;
        }
        if !already.value {
          var reserved := client.ReserveScalingNode(names[i], Reserve(names[i]) in env.failing);
          if !reserved {
            ReserveStops(start, names, env, now, request, i + 1);
            return false;
          }
        } else {
          assert client.nodes[names[i] := Reserving(client.nodes[names[i]])] == client.nodes;
        }
        StartScaleInWaiter(names[i], request, now);
      }
      assert names[..|names|] == names;
      ok := true;
    }

    method RemoveExcessSpares(excess: int, env: Env) returns (outcome: Outcome)
      modifies store, runtime
      ensures Manifest(runtime.register, store.stored, outcome)
              == RemoveExcess(config, old(runtime.register), old(store.stored), env, excess)
    {
      var synced := runtime.SyncRepoIfConfigured(config, env);
      if !synced { return Done; }
      var read := runtime.ReadMachineDeploymentReplicas(env);
      if read.Failure? { return Aborted; }
      var target := read.value - excess;
      if target < 0 { target := 0; }
      outcome := SetMachineDeploymentReplicas(target, env);
    }

    method ReconcileScaleIn(request: Request, env: Env, listing: Listing, now: int) returns (outcome: Outcome)
      modifies this`waiters, client, store, runtime
      ensures (Value(), outcome) == ScaledIn(config, old(Value()), env, listing, now, request)
    {
      var got := store.Get(GetInventory in env.failing);
      if got.Failure? { return Aborted; }
      var inventory := got.value;
      var unusedCount := CountUnusedInventoryNodes(Some(inventory));
      var excess := unusedCount - MinimumSpares(config);
      if excess > 0 {
        outcome := RemoveExcessSpares(excess, env);
        return;
      }
      var limit := CountUsedInventoryNodes(Some(inventory));
      if limit == 0 { return Done; }
      if config.quotaClient {
        if EvaluationFails(env) { return Aborted; }
        var evaluation := EvaluateScaleInCapacity(inventory, listing.nodes, listing.pods);
        limit := |evaluation.removable|;
        if limit == 0 { return Done; }
      }
      var found := FindHighestOrderUsedInventoryNodes(Some(inventory), limit);
      var reserved := ReserveNodes(Names(found.value), request, env, now);
      outcome := if reserved then Deferred else Aborted;
    }

    method NodeHasBlockingPods(pods: seq<Pod>, name: string) returns (blocked: bool)
      ensures blocked == IsBlocked(config, pods, name)
    {
      for i := 0 to |pods|
        invariant forall k :: 0 <= k < i ==> !Blocks(config, pods[k], name)
      {
        var pod := pods[i];
        if pod.nodeName != name { continue; }
        if pod.phase.Succeeded? || pod.phase.Failed? { continue; }
        if pod.meta.deleting { continue; }
        if MIRROR_KEY in pod.meta.annotations { continue; }
        if IsExempt(config, pod.meta) { continue; }
        if DAEMON_SET in pod.meta.owners { continue; }
        assert pod in pods && Blocks(config, pod, name);
        return true;
      }
      blocked := false;
    }

    method ShouldForceScaleIn(name: string, now: int) returns (force: bool)
      ensures force <==> name in waiters && config.forceEnabled && now - waiters[name].startedAt >= config.forceDelay
    {
      if name !in waiters { return false; }
      var waited := now - waiters[name].startedAt;
      if !config.forceEnabled { return false; }
      force := waited >= config.forceDelay;
    }

    method ProcessScaleInWaiter(name: string, request: Request, env: Env, pods: seq<Pod>, now: int)
      returns (finished: bool)
      requires name in waiters && request == waiters[name].request
      modifies this`queue, store
      ensures Value().(waiters := if finished then waiters - {name} else waiters)
              == Ticked(config, old(Value()), env, pods, now, name)
    {
      var reserved := client.NodeHasScalingReservation(name, CheckReservation(name) in env.failing);
      if reserved.Failure? || !reserved.value { return true; }
      if ListPods in env.failing { return true; }
      var blocked := NodeHasBlockingPods(pods, name);
      if blocked {
        var force := ShouldForceScaleIn(name, now);
        if !force { return false; }
      }
      var marked := store.UpdateNodeUsage(name, false, Mark(name) in env.failing);
      if !marked { return true; }
      var _ := HandleScaleInRequest(request);
      finished := true;
    }

    /** A tick of the waiter's timer: a finished or failed waiter removes its own entry. */
    method TickWaiter(name: string, env: Env, pods: seq<Pod>, now: int)
      requires name in waiters
      modifies this`queue, this`waiters, store
      ensures Value() == Ticked(config, old(Value()), env, pods, now, name)
    {
      var finished := ProcessScaleInWaiter(name, waiters[name].request, env, pods, now);
      if finished {
        waiters := waiters - {name};
      }
    }

    method SyncScalingNodeInventory(env: Env, listing: Listing)
      modifies store
      ensures Value() == InventorySynced(old(Value()), env, listing)
    {
      var read := runtime.ReadMachineDeploymentReplicas(env);
      if read.Failure? || ListNodes in env.failing { return; }
      var names: seq<string> := [];
      var nodes := listing.nodes;
      for i := 0 to |nodes|
        invariant names == ScalingNames(nodes[..i])
      {
        assert nodes[..i + 1][..i] == nodes[..i];
        if !HasScalingRole(nodes[i]) { continue; }
        names := names + [nodes[i].name];
      }
      assert nodes[..|nodes|] == nodes;
      names := Sort(names, Less);
      var _ := store.Sync(read.value, names, SaveInventory in env.failing);
    }

    method EnsureMachineDeploymentReplicaBaseline(env: Env)
      modifies runtime
      ensures runtime.register == Baselined(config, old(runtime.register), env)
    {
      var synced := runtime.SyncRepoIfConfigured(config, env);
      if !synced { return; }
      var read := runtime.ReadMachineDeploymentReplicas(env);
      if read.Failure? || read.value != 0 { return; }
      var _ := runtime.PublishReplicas(config, MinimumSpares(config), env);
    }

    /** The evaluation itself, unless something prevents it. */
    method Evaluate(env: Env, listing: Listing) returns (evaluation: Option<Evaluation>)
      ensures evaluation.Some? <==> Completes(config, Value(), env)
      ensures evaluation.Some? ==> evaluation.value == EvaluationOf(Value(), listing)
    {
      if !config.quotaClient || |waiters| > 0 { return None; }
      var got := store.Get(GetInventory in env.failing);
      if ListNodes in env.failing || ListPods in env.failing || got.Failure? { return None; }
      var e := EvaluateScaleInCapacity(got.value, listing.nodes, listing.pods);
      evaluation := Some(e);
    }

    /** The debounce: eligibility has to last for the trigger delay. */
    method AdvanceTrigger(e: Evaluation, now: int) returns (requested: bool)
      modifies this`eligibleSince, this`queue
      ensures (Value(), requested) == Triggered(config, old(Value()), e, now)
    {
      if !e.eligible {
        eligibleSince := None;
        return false;
      }
      if eligibleSince.None? {
        eligibleSince := Some(now);
        return false;
      }
      if now - eligibleSince.value < config.triggerDelay { return false; }
      eligibleSince := None;
      var _ := HandleScaleInRequest(Request(e.removable, e.projected));
      requested := true;
    }

    method EvaluateAutomaticScaleIn(env: Env, listing: Listing, now: int) returns (requested: bool)
      modifies this`eligibleSince, this`queue
      ensures (Value(), requested) == AutoEvaluated(config, old(Value()), env, listing, now)
    {
      var evaluation := Evaluate(env, listing);
      if evaluation.None? { return false; }
      requested := AdvanceTrigger(evaluation.value, now);
    }
  }

  lemma WaitingNeedsWaiters(nodes: seq<InventoryNode>, waiting: set<string>)
    requires |waiting| == 0
    ensures Waiting(nodes, waiting) == []
  {
    FilterNone(Sort(nodes, Before), WaitsIn(waiting));
  }

  lemma ActivateKeepsFailure(p: Pool, names: seq<string>, stop: bool, env: Env)
    requires !p.ok
    ensures ActivateAll(p, names, stop, env) == p
  {}

  lemma {:induction false} ActivateStops(p: Pool, names: seq<string>, stop: bool, env: Env, i: nat)
    requires i <= |names|
    requires !ActivateAll(p, names[..i], stop, env).ok
    ensures ActivateAll(p, names, stop, env) == ActivateAll(p, names[..i], stop, env)
  {
    if i < |names| {
      assert names[..|names| - 1][..i] == names[..i];
      ActivateStops(p, names[..|names| - 1], stop, env, i);
    } else {
      assert names[..i] == names;
    }
  }

  lemma {:induction false} ReserveStops(r: Reservations, names: seq<string>, env: Env, now: int, request: Request,
                                        i: nat)
    requires i <= |names|
    requires !ReserveAll(r, names[..i], env, now, request).ok
    ensures ReserveAll(r, names, env, now, request) == ReserveAll(r, names[..i], env, now, request)
  {
    if i < |names| {
      assert names[..|names| - 1][..i] == names[..i];
      ReserveStops(r, names[..|names| - 1], env, now, request, i);
    } else {
      assert names[..i] == names;
    }
  }
}

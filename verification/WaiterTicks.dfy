/** What one tick of a waiter does, exactly, whatever fails. */
module WaiterTicks {
  import opened Quantities
  import opened Sequences
  import opened Inventory
  import opened InventoryStore
  import opened Pods
  import opened ClusterNodes
  import opened WorkerCapacity
  import opened NodeScaling
  import opened ScaleOutSafety
  import opened NodeScalingRuns

  predicate IsForced(c: Config, waiter: Waiter, now: int) { c.forceEnabled && now - waiter.startedAt >= c.forceDelay }

  /** A tick that cannot see the node or its pods ends the waiter; on a node with a pod that is not excused it waits,
      unless force applies; otherwise it marks the node unused, ends the waiter and queues its request again if there is
      room, or only ends the waiter if the marking fails. */
  lemma TickDoes(c: Config, s: State, env: Env, pods: seq<Pod>, now: int, name: string)
    requires Safe(s) && name in s.waiters
    ensures var t, waiter := Ticked(c, s, env, pods, now, name), s.waiters[name];
            if CheckReservation(name) in env.failing || ListPods in env.failing
               then t == s.(waiters := s.waiters - {name})
            else if !IsDrained(c, pods, name) && !IsForced(c, waiter, now) then t == s
            else if Mark(name) in env.failing then t == s.(waiters := s.waiters - {name})
            else
              && t == s.(stored := t.stored, waiters := s.waiters - {name},
                         queue := if |s.queue| < 128 then s.queue + [waiter.request] else s.queue)
              && UsedNames(NodesOf(t.stored)) == UsedNames(NodesOf(s.stored)) - {name}
              && UnusedNames(NodesOf(t.stored)) == UnusedNames(NodesOf(s.stored)) + {name}
  {
    DrainedExactly(c, pods, name);
    assert Holds(NodesOf(s.stored), name, true) && HasReservation(s.nodes[name]);
    HoldsOnce(NodesOf(s.stored), name);
    ReleasingMovesName(NodesOf(s.stored), name);
  }

  lemma ReleasingMovesName(nodes: seq<InventoryNode>, name: string)
    requires WellFormed(nodes) && Named(nodes, name)
    ensures UsedNames(Marked(nodes, name, false)) == UsedNames(nodes) - {name}
    ensures UnusedNames(Marked(nodes, name, false)) == UnusedNames(nodes) + {name}
  {
    var r := Marked(nodes, name, false);
    forall other
      ensures other in UsedNames(r) <==> other in UsedNames(nodes) - {name}
      ensures other in UnusedNames(r) <==> other in UnusedNames(nodes) + {name}
    {
      MarkedHolds(nodes, name, false, other, true);
      MarkedHolds(nodes, name, false, other, false);
      NamesHold(r, other);
      NamesHold(nodes, other);
    }
  }

  lemma {:induction false} NothingSummed<T>(xs: seq<T>, f: T -> int)
    requires forall x :: x in xs ==> f(x) == 0
    ensures Sum(xs, f) == 0
  {
    if |xs| > 0 {
      NothingSummed(xs[..|xs| - 1], f);
    }
  }

  /** A node without excused pods, apart from ended ones, that is released without force is empty: the pods on it ask
      for nothing any more. */
  lemma ReleasedNodeIsEmpty(c: Config, s: State, env: Env, pods: seq<Pod>, now: int, name: string)
    requires Safe(s) && name in s.waiters && name in UnusedNames(NodesOf(Ticked(c, s, env, pods, now, name).stored))
    requires !IsForced(c, s.waiters[name], now)
    requires forall pod :: pod in pods && pod.nodeName == name && Excused(c, pod) ==> pod.phase in {Succeeded, Failed}
    ensures Requested(pods, {name}) == NOTHING
  {
    var nodes := NodesOf(s.stored);
    HoldsOnce(nodes, name);
    NamesHold(nodes, name);
    TickDoes(c, s, env, pods, now, name);
    forall pod | pod in pods ensures CpuOn({name})(pod) == 0 && MemoryOn({name})(pod) == 0 {
      TerminalExactly(pod);
    }
    NothingSummed(pods, CpuOn({name}));
    NothingSummed(pods, MemoryOn({name}));
  }
}

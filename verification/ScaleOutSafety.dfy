/** What scale-out keeps of the agreement between inventory, node marks and waiters, and exactly when it breaks it. */
module ScaleOutSafety {
  import opened Common
  import opened Inventory
  import opened InventorySelection
  import opened InventoryStore
  import opened ClusterNodes
  import opened NodeScaling
  import opened ScaleOutEffects
  import opened ScaleOutSelection

  // ----- The invariant, on its three components -----

  ghost predicate NamedByKeys(nodes: map<string, Node>) { forall k :: k in nodes ==> nodes[k].name == k }

  /** An unused inventory node is a scaling node of the cluster. */
  ghost predicate SparesAreMarked(nodes: map<string, Node>, stored: Option<Stored>) {
    forall name :: Holds(NodesOf(stored), name, false) ==> name in nodes && HasScalingRole(nodes[name])
  }

  /** A node with a waiter is used in the inventory and carries both labels and the taint. */
  ghost predicate WaitersAreReserved(nodes: map<string, Node>, stored: Option<Stored>, waiters: map<string, Waiter>) {
    forall name :: name in waiters ==>
      Holds(NodesOf(stored), name, true) && name in nodes && HasReservation(nodes[name])
  }

  ghost predicate Sound(nodes: map<string, Node>, stored: Option<Stored>, waiters: map<string, Waiter>) {
    && NamedByKeys(nodes) && WellFormed(NodesOf(stored))
    && SparesAreMarked(nodes, stored) && WaitersAreReserved(nodes, stored, waiters)
  }

  ghost predicate Safe(s: State) { Sound(s.nodes, s.stored, s.waiters) }

  // ----- One node at a time -----

  lemma FewerWaitersStaySound(nodes: map<string, Node>, stored: Option<Stored>, waiters: map<string, Waiter>,
                              gone: set<string>)
    requires Sound(nodes, stored, waiters)
    ensures Sound(nodes, stored, waiters - gone)
  {}

  predicate Works(name: string, env: Env) { Activate(name) !in env.failing && Mark(name) !in env.failing }

  /** Marking fails after activation, and everything before works. */
  ghost predicate StrandsAt(names: seq<string>, i: nat, env: Env) {
    && i < |names| && Activate(names[i]) !in env.failing && Mark(names[i]) in env.failing
    && forall j :: 0 <= j < i ==> Works(names[j], env)
  }

  ghost predicate StrandsOne(names: seq<string>, env: Env) { exists i :: StrandsAt(names, i, env) }

  /** The reused nodes are all processed, and some spare is activated but cannot be marked. */
  ghost predicate StrandsSpare(c: Config, s: State, env: Env) {
    var nodes := NodesOf(s.stored);
    && GetInventory !in env.failing
    && (forall name :: name in Reused(c, nodes, s.waiters.Keys) ==> Works(name, env))
    && StrandsOne(Spares(c, nodes, s.waiters.Keys), env)
  }

  lemma MarkingKeepsOthers(nodes: seq<InventoryNode>, name: string)
    requires WellFormed(nodes) && Named(nodes, name)
    ensures WellFormed(Marked(nodes, name, true))
    ensures forall other, flag :: Holds(Marked(nodes, name, true), other, flag) <==>
              if other == name then flag else Holds(nodes, other, flag)
  {
    MarkedIsWellFormed(nodes, name, true);
    forall other, flag
      ensures Holds(Marked(nodes, name, true), other, flag) <==>
                if other == name then flag else Holds(nodes, other, flag)
    {
      MarkedHolds(nodes, name, true, other, flag);
    }
  }

  /** Processing one node keeps the pool sound unless it strands an unused node. */
  lemma ActivateOneStaysSound(p: Pool, name: string, stop: bool, env: Env)
    requires Sound(p.nodes, p.stored, p.waiters) && p.stored.Some?
    requires Named(NodesOf(p.stored), name) && (stop || name !in p.waiters)
    requires Mark(name) !in env.failing || Activate(name) in env.failing || Holds(NodesOf(p.stored), name, true)
    ensures var r := ActivateOne(p, name, stop, env);
            && Sound(r.nodes, r.stored, r.waiters) && r.stored.Some? && r.waiters.Keys <= p.waiters.Keys
            && forall other, flag :: other != name ==>
                 (Holds(NodesOf(r.stored), other, flag) <==> Holds(NodesOf(p.stored), other, flag))
  {
    var r := ActivateOne(p, name, stop, env);
    FewerWaitersStaySound(p.nodes, p.stored, p.waiters, {name});
    assert !stop ==> p.waiters - {name} == p.waiters;
    if Activate(name) in env.failing || name !in p.nodes {
      assert r.nodes == p.nodes && r.stored == p.stored;
    } else if Mark(name) in env.failing {
      UsedStaysSoundUnmarked(p.nodes, p.stored, r.waiters, name);
    } else {
      MarkingKeepsOthers(NodesOf(p.stored), name);
      MarkedStaysSound(p.nodes, p.stored, r.stored, r.waiters, name);
    }
  }

  /** A used node without a waiter may lose its marks. */
  lemma UsedStaysSoundUnmarked(nodes: map<string, Node>, stored: Option<Stored>, waiters: map<string, Waiter>,
                               name: string)
    requires Sound(nodes, stored, waiters) && name !in waiters && name in nodes && Holds(NodesOf(stored), name, true)
    ensures Sound(nodes[name := Activated(nodes[name])], stored, waiters)
  {
    HoldsOnce(NodesOf(stored), name);
  }

  /** So may any node without a waiter that becomes used with it. */
  lemma MarkedStaysSound(nodes: map<string, Node>, stored: Option<Stored>, after: Option<Stored>,
                         waiters: map<string, Waiter>, name: string)
    requires Sound(nodes, stored, waiters) && name !in waiters && name in nodes && WellFormed(NodesOf(after))
    requires forall other, flag :: Holds(NodesOf(after), other, flag) <==>
               if other == name then flag else Holds(NodesOf(stored), other, flag)
    ensures Sound(nodes[name := Activated(nodes[name])], after, waiters)
  {
    var activated := nodes[name := Activated(nodes[name])];
    forall other | Holds(NodesOf(after), other, false) ensures other in activated && HasScalingRole(activated[other]) {
      assert other != name && Holds(NodesOf(stored), other, false);
    }
    forall other | other in waiters
      ensures Holds(NodesOf(after), other, true) && other in activated && HasReservation(activated[other])
    {
      assert other != name && Holds(NodesOf(stored), other, true);
    }
  }

  /** A stranded node is unused without being a scaling node. */
  lemma ActivateOneStrands(p: Pool, name: string, stop: bool, env: Env)
    requires Holds(NodesOf(p.stored), name, false) && name in p.nodes
    requires Activate(name) !in env.failing && Mark(name) in env.failing
    ensures var r := ActivateOne(p, name, stop, env);
            !r.ok && r.stored == p.stored && !Sound(r.nodes, r.stored, r.waiters)
  {
    ActivatedIsUnmarked(p.nodes[name]);
  }

  /** Nodes that are used already are processed safely, whatever fails. */
  lemma {:induction false} ReusedStaySound(p: Pool, names: seq<string>, env: Env)
    requires Sound(p.nodes, p.stored, p.waiters) && p.stored.Some?
    requires forall name :: name in names ==> Holds(NodesOf(p.stored), name, true)
    ensures var r := ActivateAll(p, names, true, env);
            && Sound(r.nodes, r.stored, r.waiters) && r.stored.Some? && r.waiters.Keys <= p.waiters.Keys
            && forall other, flag :: Holds(NodesOf(r.stored), other, flag) <==> Holds(NodesOf(p.stored), other, flag)
  {
    if |names| > 0 {
      var front, last := names[..|names| - 1], names[|names| - 1];
      assert last in names && forall n :: n in front ==> n in names;
      ReusedStaySound(p, front, env);
      var before := ActivateAll(p, front, true, env);
      if before.ok {
        ReusedOneStaysSound(before, last, env);
      }
    }
  }

  lemma ReusedOneStaysSound(p: Pool, name: string, env: Env)
    requires Sound(p.nodes, p.stored, p.waiters) && p.stored.Some? && Holds(NodesOf(p.stored), name, true)
    ensures var r := ActivateOne(p, name, true, env);
            && Sound(r.nodes, r.stored, r.waiters) && r.stored.Some? && r.waiters.Keys <= p.waiters.Keys
            && forall other, flag :: Holds(NodesOf(r.stored), other, flag) <==> Holds(NodesOf(p.stored), other, flag)
  {
    HoldsOnce(NodesOf(p.stored), name);
    ActivateOneStaysSound(p, name, true, env);
    MarkingKeepsOthers(NodesOf(p.stored), name);
  }

  lemma StrandsOneMore(names: seq<string>, env: Env)
    requires |names| > 0
    ensures var front, last := names[..|names| - 1], names[|names| - 1];
            StrandsOne(names, env) <==>
              StrandsOne(front, env)
              || ((forall name :: name in front ==> Works(name, env)) && Activate(last) !in env.failing
                  && Mark(last) in env.failing)
  {
    var front, last := names[..|names| - 1], names[|names| - 1];
    if i: nat :| StrandsAt(names, i, env) {
      if i < |front| {
        assert StrandsAt(front, i, env);
      }
    }
    if i: nat :| StrandsAt(front, i, env) {
      assert StrandsAt(names, i, env);
    }
    if (forall name :: name in front ==> Works(name, env)) && Activate(last) !in env.failing
       && Mark(last) in env.failing
    {
      forall j | 0 <= j < |front| ensures Works(names[j], env) {
        assert front[j] in front;
      }
      assert StrandsAt(names, |names| - 1, env);
    }
  }

  /** Spares are processed safely exactly when none of them is stranded. */
  lemma {:induction false} SparesStaySoundExactly(p: Pool, names: seq<string>, env: Env)
    requires p.ok && Sound(p.nodes, p.stored, p.waiters) && p.stored.Some? && NoRepeats(names)
    requires forall name :: name in names ==> Holds(NodesOf(p.stored), name, false)
    ensures var r := ActivateAll(p, names, false, env);
            && r.stored.Some? && (r.ok <==> forall name :: name in names ==> Works(name, env))
            && (Sound(r.nodes, r.stored, r.waiters) <==> !StrandsOne(names, env))
            && (r.ok ==> !StrandsOne(names, env)
                         && r.nodes.Keys == p.nodes.Keys && r.waiters.Keys <= p.waiters.Keys
                         && forall other, flag :: other !in names ==>
                              (Holds(NodesOf(r.stored), other, flag) <==> Holds(NodesOf(p.stored), other, flag)))
  {
    if |names| > 0 {
      var front, last := names[..|names| - 1], names[|names| - 1];
      assert last in names && (forall n :: n in front ==> n in names) && last !in front;
      SparesStaySoundExactly(p, front, env);
      StrandsOneMore(names, env);
      var before := ActivateAll(p, front, false, env);
      if before.ok {
        SpareOneStaysSoundExactly(before, last, env);
      }
      assert forall n :: n in names <==> n in front || n == last;
    }
  }

  lemma SpareOneStaysSoundExactly(p: Pool, name: string, env: Env)
    requires p.ok && Sound(p.nodes, p.stored, p.waiters) && p.stored.Some? && Holds(NodesOf(p.stored), name, false)
    ensures var r := ActivateOne(p, name, false, env);
            && r.stored.Some? && (r.ok <==> Works(name, env))
            && (Sound(r.nodes, r.stored, r.waiters) <==> Activate(name) in env.failing || Mark(name) !in env.failing)
            && (r.ok ==> r.nodes.Keys == p.nodes.Keys && r.waiters.Keys <= p.waiters.Keys
                         && forall other, flag :: other != name ==>
                              (Holds(NodesOf(r.stored), other, flag) <==> Holds(NodesOf(p.stored), other, flag)))
  {
    HoldsOnce(NodesOf(p.stored), name);
    if Activate(name) in env.failing || Mark(name) !in env.failing {
      ActivateOneStaysSound(p, name, false, env);
    } else {
      ActivateOneStrands(p, name, false, env);
    }
  }

  /** In a safe state a scale-out processes its whole selection exactly when no call for a selected node fails. */
  lemma ScaleOutSucceedsExactly(c: Config, s: State, env: Env)
    requires Safe(s) && s.stored.Some?
    ensures ActivateSelected(c, s, env).ok
       <==> forall name :: name in Selection(c, s) ==> Activate(name) !in env.failing && Mark(name) !in env.failing
  {
    var nodes := NodesOf(s.stored);
    var reused, spares := Reused(c, nodes, s.waiters.Keys), Spares(c, nodes, s.waiters.Keys);
    ReusedAre(c, nodes, s.waiters.Keys);
    SparesAre(c, nodes, s.waiters.Keys);
    var mid := ActivateAll(StartOf(s), reused, true, env);
    ActivateAllSucceedsExactly(StartOf(s), reused, true, env);
    forall name ensures name in reused || name in spares ==> Named(nodes, name) && name in s.nodes {
      HoldsOnce(nodes, name);
    }
    if mid.ok {
      forall name ensures Named(NodesOf(mid.stored), name) <==> Named(nodes, name) {
        ActivateAllKeepsKnown(StartOf(s), reused, true, env, name);
      }
      ActivateAllKeepsKnown(StartOf(s), reused, true, env, "");
      ActivateAllSucceedsExactly(mid, spares, false, env);
    } else {
      ActivateNothingAfterFailure(mid, spares, false, env);
    }
    assert forall name :: name in Selection(c, s) <==> name in reused || name in spares;
  }

  /** A scale-out keeps a safe state safe if and only if it does not strand a spare. */
  lemma ScaleOutIsSafeExactly(c: Config, s: State, env: Env)
    requires Safe(s)
    ensures Safe(ScaledOut(c, s, env).0) <==> !StrandsSpare(c, s, env)
  {
    if Acts(c, s, env) {
      PoolIsSoundExactly(c, s, env);
      ScaleOutHasPool(c, s, env);
    } else {
      IdleScaleOut(c, s, env);
    }
  }

  predicate Acts(c: Config, s: State, env: Env) {
    GetInventory !in env.failing && s.stored.Some? && !NothingToActivate(c, s)
  }

  lemma IdleScaleOut(c: Config, s: State, env: Env)
    requires !Acts(c, s, env)
    ensures ScaledOut(c, s, env).0 == s && !StrandsSpare(c, s, env)
  {
    if s.stored.None? {
      SelectionLengths([]);
    }
  }

  lemma PoolIsSoundExactly(c: Config, s: State, env: Env)
    requires Safe(s) && s.stored.Some? && GetInventory !in env.failing
    ensures var pool := ActivateSelected(c, s, env);
            pool.stored.Some? && (Sound(pool.nodes, pool.stored, pool.waiters) <==> !StrandsSpare(c, s, env))
  {
    var nodes := NodesOf(s.stored);
    var reused, spares := Reused(c, nodes, s.waiters.Keys), Spares(c, nodes, s.waiters.Keys);
    ReusedAre(c, nodes, s.waiters.Keys);
    SparesAre(c, nodes, s.waiters.Keys);
    var mid := ActivateAll(StartOf(s), reused, true, env);
    ReusedStaySound(StartOf(s), reused, env);
    ReusedSucceedExactly(c, s, env);
    if mid.ok {
      SparesStaySoundExactly(mid, spares, env);
    } else {
      ActivateNothingAfterFailure(mid, spares, false, env);
    }
  }

  lemma ReusedSucceedExactly(c: Config, s: State, env: Env)
    requires Safe(s) && s.stored.Some?
    ensures var reused := Reused(c, NodesOf(s.stored), s.waiters.Keys);
            ActivateAll(StartOf(s), reused, true, env).ok <==> forall name :: name in reused ==> Works(name, env)
  {
    var nodes := NodesOf(s.stored);
    var reused := Reused(c, nodes, s.waiters.Keys);
    ReusedAre(c, nodes, s.waiters.Keys);
    ActivateAllSucceedsExactly(StartOf(s), reused, true, env);
    forall name ensures name in reused ==> Named(nodes, name) && name in s.nodes {
      HoldsOnce(nodes, name);
    }
  }

  /** Nodes, waiters and inventory nodes after a scale-out are those of its pool. */
  lemma ScaleOutHasPool(c: Config, s: State, env: Env)
    requires Acts(c, s, env)
    requires ActivateSelected(c, s, env).stored.Some?
    ensures var t, pool := ScaledOut(c, s, env).0, ActivateSelected(c, s, env);
            t.nodes == pool.nodes && t.waiters == pool.waiters && NodesOf(t.stored) == NodesOf(pool.stored)
  {
    var spares := Spares(c, NodesOf(s.stored), s.waiters.Keys);
    ReplenishKeepsNodes(c, s.register, ActivateSelected(c, s, env).stored, env,
                        Replenished(c, s.stored.value.spec.replicas, |spares|));
  }
}

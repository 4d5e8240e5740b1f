/** Scale-out: which nodes are chosen, and how the used and unused counts move. */
module ScaleOutSelection {
  import opened Common
  import opened Quantities
  import opened Ordering
  import opened Sequences
  import opened Inventory
  import opened InventorySelection
  import opened InventoryStore
  import opened ScaleInCapacity
  import opened ReservationSafety
  import opened NodeScaling
  import opened ScaleOutEffects

  ghost predicate IsWaiting(nodes: seq<InventoryNode>, waiting: set<string>, n: InventoryNode) {
    n in nodes && n.used && n.name in waiting
  }

  /** How many used nodes have an active waiter. */
  function CountWaiting(nodes: seq<InventoryNode>, waiting: set<string>): nat { |Filter(nodes, WaitsIn(waiting))| }

  lemma WellFormedListsInOrder(nodes: seq<InventoryNode>, waiting: set<string>)
    requires WellFormed(nodes)
    ensures Waiting(nodes, waiting) == Filter(nodes, WaitsIn(waiting)) && Unused(nodes) == Filter(nodes, IsUnused)
    ensures IsSorted(nodes, Before)
  {
    SortOfWellFormed(nodes);
  }

  lemma DistinctPrefix(nodes: seq<InventoryNode>, limit: int)
    requires DistinctNodes(nodes)
    ensures DistinctNodes(Take(nodes, limit))
  {}

  lemma NamesOfDistinct(nodes: seq<InventoryNode>)
    requires DistinctNodes(nodes)
    ensures NoRepeats(Names(nodes))
  {}

  lemma NamesAre(nodes: seq<InventoryNode>, name: string)
    ensures name in Names(nodes) <==> Named(nodes, name)
  {
    if name in Names(nodes) {
      var i :| 0 <= i < |nodes| && Names(nodes)[i] == name;
      assert nodes[i] in nodes;
    }
    if Named(nodes, name) {
      var n :| n in nodes && n.name == name;
      NamesHas(nodes, n);
    }
  }

  lemma ChosenByName(nodes: seq<InventoryNode>, taken: seq<InventoryNode>, m: InventoryNode, n: InventoryNode)
    requires WellFormed(nodes) && m in nodes && forall x :: x in taken ==> x in nodes
    requires m.name in Names(taken) && n.name !in Names(taken)
    ensures m in taken && n !in taken
  {
    NamesAre(taken, m.name);
    NamesAre(taken, n.name);
    var x :| x in taken && x.name == m.name;
    SameName(nodes, x, m);
  }

  lemma ReusedAreLowest(c: Config, nodes: seq<InventoryNode>, waiting: set<string>, m: InventoryNode,
                        n: InventoryNode)
    requires WellFormed(nodes) && IsWaiting(nodes, waiting, m) && IsWaiting(nodes, waiting, n)
    requires m.name in Reused(c, nodes, waiting) && n.name !in Reused(c, nodes, waiting)
    ensures m.order <= n.order
  {
    var all := Filter(nodes, WaitsIn(waiting));
    WellFormedListsInOrder(nodes, waiting);
    FilterHas(nodes, WaitsIn(waiting));
    FilterKeepsSorted(nodes, WaitsIn(waiting), Before);
    TakeIsLowest(all, BatchSize(c), Before);
    ChosenByName(nodes, Take(all, BatchSize(c)), m, n);
    assert !Before(n, m);
  }

  lemma ReusedAre(c: Config, nodes: seq<InventoryNode>, waiting: set<string>)
    requires WellFormed(nodes)
    ensures var reused := Reused(c, nodes, waiting);
            && NoRepeats(reused)
            && |reused| == Min(BatchSize(c), CountWaiting(nodes, waiting))
            && (forall name :: name in reused ==> Holds(nodes, name, true) && name in waiting)
            && (forall m, n ::
                  && IsWaiting(nodes, waiting, m) && IsWaiting(nodes, waiting, n)
                  && m.name in reused && n.name !in reused ==>
                    m.order <= n.order)
  {
    var reused := Reused(c, nodes, waiting);
    WellFormedListsInOrder(nodes, waiting);
    var all := Filter(nodes, WaitsIn(waiting));
    var taken := Take(all, BatchSize(c));
    FilterIsDistinct(nodes, WaitsIn(waiting));
    DistinctPrefix(all, BatchSize(c));
    NamesOfDistinct(taken);
    FilterHas(nodes, WaitsIn(waiting));
    forall name | name in reused ensures Holds(nodes, name, true) && name in waiting {
      NamesAre(taken, name);
      var n :| n in taken && n.name == name;
      assert n in nodes && n.used;
    }
    forall m, n | IsWaiting(nodes, waiting, m) && IsWaiting(nodes, waiting, n) && m.name in reused && n.name !in reused
      ensures m.order <= n.order
    {
      ReusedAreLowest(c, nodes, waiting, m, n);
    }
  }

  lemma TakenAreLowest(nodes: seq<InventoryNode>, limit: nat, m: InventoryNode, n: InventoryNode)
    requires WellFormed(nodes) && m in nodes && n in nodes && !n.used
    requires m.name in Names(Take(Unused(nodes), limit)) && n.name !in Names(Take(Unused(nodes), limit))
    ensures m.order <= n.order
  {
    UnusedAre(nodes, limit);
    ChosenByName(nodes, Take(Unused(nodes), limit), m, n);
    UnusedAreLowest(nodes, limit, m, n);
  }

  lemma UnusedAre(nodes: seq<InventoryNode>, limit: nat)
    ensures forall x :: x in Take(Unused(nodes), limit) ==> x in nodes
  {
    UnusedSelection(nodes, limit);
  }

  lemma TakenAreAllLowest(nodes: seq<InventoryNode>, limit: nat)
    requires WellFormed(nodes)
    ensures var names := Names(Take(Unused(nodes), limit));
            forall m, n ::
              m in nodes && n in nodes && !m.used && !n.used && m.name in names && n.name !in names ==>
                m.order <= n.order
  {
    var names := Names(Take(Unused(nodes), limit));
    forall m, n | m in nodes && n in nodes && !m.used && !n.used && m.name in names && n.name !in names
      ensures m.order <= n.order
    {
      TakenAreLowest(nodes, limit, m, n);
    }
  }

  lemma TakenAre(nodes: seq<InventoryNode>, limit: nat)
    requires WellFormed(nodes)
    ensures var names := Names(Take(Unused(nodes), limit));
            && NoRepeats(names) && |names| == Min(limit, CountUnused(nodes))
            && forall name :: name in names ==> Holds(nodes, name, false)
  {
    var taken := Take(Unused(nodes), limit);
    WellFormedListsInOrder(nodes, {});
    UnusedSelection(nodes, limit);
    FilterIsDistinct(nodes, IsUnused);
    DistinctPrefix(Unused(nodes), limit);
    NamesOfDistinct(taken);
    forall name | name in Names(taken) ensures Holds(nodes, name, false) {
      NamesAre(taken, name);
      var n :| n in taken && n.name == name;
      assert n in nodes && !n.used;
    }
  }

  lemma ReusedFits(c: Config, nodes: seq<InventoryNode>, waiting: set<string>)
    ensures |Reused(c, nodes, waiting)| <= BatchSize(c)
  {}

  lemma SparesAre(c: Config, nodes: seq<InventoryNode>, waiting: set<string>)
    requires WellFormed(nodes)
    ensures var reused, spares := Reused(c, nodes, waiting), Spares(c, nodes, waiting);
            && NoRepeats(spares)
            && |spares| == Min(BatchSize(c) - |reused|, CountUnused(nodes))
            && (forall name :: name in spares ==> Holds(nodes, name, false))
  {
    ReusedFits(c, nodes, waiting);
    TakenAre(nodes, BatchSize(c) - |Reused(c, nodes, waiting)|);
  }

  lemma SparesAreLowest(c: Config, nodes: seq<InventoryNode>, waiting: set<string>)
    requires WellFormed(nodes)
    ensures var spares := Spares(c, nodes, waiting);
            forall m, n ::
              m in nodes && n in nodes && !m.used && !n.used && m.name in spares && n.name !in spares ==>
                m.order <= n.order
  {
    ReusedFits(c, nodes, waiting);
    TakenAreAllLowest(nodes, BatchSize(c) - |Reused(c, nodes, waiting)|);
  }

  lemma SelectionHasNoRepeats(nodes: seq<InventoryNode>, reused: seq<string>, spares: seq<string>)
    requires WellFormed(nodes) && NoRepeats(reused) && NoRepeats(spares)
    requires forall name :: name in reused ==> Holds(nodes, name, true)
    requires forall name :: name in spares ==> Holds(nodes, name, false)
    ensures NoRepeats(reused + spares)
  {
    var sel := reused + spares;
    forall i, j | 0 <= i < j < |sel| ensures sel[i] != sel[j] {
      HoldsOnce(nodes, sel[i]);
      if i < |reused| <= j {
        assert sel[i] in reused && sel[j] in spares;
      } else if |reused| <= i {
        assert sel[i] == spares[i - |reused|] && sel[j] == spares[j - |reused|];
      }
    }
  }

  lemma ReusedThenSpares(nodes: seq<InventoryNode>, waiting: set<string>, reused: seq<string>, spares: seq<string>)
    requires forall name :: name in reused ==> Holds(nodes, name, true) && name in waiting
    requires forall name :: name in spares ==> Holds(nodes, name, false)
    ensures var sel := reused + spares;
            forall i :: 0 <= i < |sel| ==> if i < |reused| then Holds(nodes, sel[i], true) && sel[i] in waiting
                                           else Holds(nodes, sel[i], false)
  {
    var sel := reused + spares;
    forall i | 0 <= i < |sel|
      ensures if i < |reused| then Holds(nodes, sel[i], true) && sel[i] in waiting else Holds(nodes, sel[i], false)
    {
      if i < |reused| {
        assert sel[i] in reused;
      } else {
        assert sel[i] == spares[i - |reused|] && sel[i] in spares;
      }
    }
  }

  lemma SelectionLists(c: Config, s: State)
    requires s.stored.Some? && WellFormed(NodesOf(s.stored))
    ensures var nodes, waiting, sel := NodesOf(s.stored), s.waiters.Keys, Selection(c, s);
            && NoRepeats(sel)
            && (forall i :: 0 <= i < |sel| ==> if i < |Reused(c, nodes, waiting)|
                                               then Holds(nodes, sel[i], true) && sel[i] in waiting
                                               else Holds(nodes, sel[i], false))
  {
    var nodes, waiting := NodesOf(s.stored), s.waiters.Keys;
    ReusedAre(c, nodes, waiting);
    ReusedFits(c, nodes, waiting);
    TakenAre(nodes, BatchSize(c) - |Reused(c, nodes, waiting)|);
    SelectionHasNoRepeats(nodes, Reused(c, nodes, waiting), Spares(c, nodes, waiting));
    ReusedThenSpares(nodes, waiting, Reused(c, nodes, waiting), Spares(c, nodes, waiting));
  }

  lemma SelectedWaiterIsReused(c: Config, s: State, m: InventoryNode)
    requires s.stored.Some? && WellFormed(NodesOf(s.stored))
    requires IsWaiting(NodesOf(s.stored), s.waiters.Keys, m) && m.name in Selection(c, s)
    ensures m.name in Reused(c, NodesOf(s.stored), s.waiters.Keys)
  {
    SparesAre(c, NodesOf(s.stored), s.waiters.Keys);
    HoldsOnce(NodesOf(s.stored), m.name);
    assert Holds(NodesOf(s.stored), m.name, true);
  }

  /** The batch is filled as far as reusable waiters and spares go, waiters first, with distinct nodes; an active
      waiter that is not reused never sorts before one that is. */
  lemma SelectionFillsTheBatch(c: Config, s: State)
    requires s.stored.Some? && WellFormed(NodesOf(s.stored))
    ensures var nodes, waiting, sel := NodesOf(s.stored), s.waiters.Keys, Selection(c, s);
            && |sel| == Min(BatchSize(c), CountWaiting(nodes, waiting) + CountUnused(nodes))
            && NoRepeats(sel)
            && (forall i :: 0 <= i < |sel| ==> if i < Min(BatchSize(c), CountWaiting(nodes, waiting))
                                               then Holds(nodes, sel[i], true) && sel[i] in waiting
                                               else Holds(nodes, sel[i], false))
            && (forall m, n ::
                  IsWaiting(nodes, waiting, m) && IsWaiting(nodes, waiting, n) && m.name in sel && n.name !in sel ==>
                    m.order <= n.order)
  {
    var nodes, waiting, sel := NodesOf(s.stored), s.waiters.Keys, Selection(c, s);
    ReusedAre(c, nodes, waiting);
    SparesAre(c, nodes, waiting);
    SelectionLists(c, s);
    forall m, n | IsWaiting(nodes, waiting, m) && IsWaiting(nodes, waiting, n) && m.name in sel && n.name !in sel
      ensures m.order <= n.order
    {
      SelectedWaiterIsReused(c, s, m);
      ReusedAreLowest(c, nodes, waiting, m, n);
    }
  }

  // ----- Counting -----

  lemma MarkingUsedChangesNothing(nodes: seq<InventoryNode>, names: set<string>)
    requires WellFormed(nodes)
    requires forall name :: name in names ==> Holds(nodes, name, true)
    ensures MarkedUsed(nodes, names) == nodes
  {
    forall i | 0 <= i < |nodes| && nodes[i].name in names ensures nodes[i].used {
      HoldsAt(nodes, i);
      HoldsOnce(nodes, nodes[i].name);
    }
  }

  lemma {:induction false} MarkingCounts(nodes: seq<InventoryNode>, spares: seq<string>)
    requires WellFormed(nodes) && NoRepeats(spares)
    requires forall name :: name in spares ==> Holds(nodes, name, false)
    ensures var r := MarkedUsed(nodes, AsSet(spares));
            CountUsed(r) == CountUsed(nodes) + |spares| && CountUnused(r) == CountUnused(nodes) - |spares|
  {
    if |spares| == 0 {
      assert MarkedUsed(nodes, AsSet(spares)) == nodes;
    } else {
      var front, last := spares[..|spares| - 1], spares[|spares| - 1];
      assert last in spares;
      MarkingCounts(nodes, front);
      assert spares[..|spares|] == spares;
      AsSetOneMore(spares, |spares| - 1);
      MarkedUsedIsWellFormed(nodes, AsSet(front));
      MarkOneMore(nodes, AsSet(front), last);
      MarkedUsedLeaves(nodes, AsSet(front), last);
      MarkedCounts(MarkedUsed(nodes, AsSet(front)), last, true);
    }
  }

  lemma MarkedUsedLeaves(nodes: seq<InventoryNode>, names: set<string>, name: string)
    requires Holds(nodes, name, false) && name !in names
    ensures Holds(MarkedUsed(nodes, names), name, false)
  {
    var n :| n in nodes && n.name == name && !n.used;
    var i :| 0 <= i < |nodes| && nodes[i] == n;
    assert MarkedUsed(nodes, names)[i] == n;
  }

  lemma PoolEffect(c: Config, s: State, env: Env)
    requires s.stored.Some? && WellFormed(NodesOf(s.stored)) && ActivateSelected(c, s, env).ok
    ensures var nodes, pool := NodesOf(s.stored), ActivateSelected(c, s, env);
            var reused, spares := Reused(c, nodes, s.waiters.Keys), Spares(c, nodes, s.waiters.Keys);
            && pool.nodes == ActivatedNodes(s.nodes, AsSet(Selection(c, s)))
            && pool.stored.Some?
            && pool.stored.value.spec == Spec(s.stored.value.spec.replicas, MarkedUsed(nodes, AsSet(spares)))
            && pool.waiters == s.waiters - AsSet(reused)
  {
    var nodes := NodesOf(s.stored);
    var reused, spares := Reused(c, nodes, s.waiters.Keys), Spares(c, nodes, s.waiters.Keys);
    var _ := ActivateBothReaches(StartOf(s), reused, spares, env);
    ReusedAre(c, nodes, s.waiters.Keys);
    MarkingSelection(nodes, reused, spares);
  }

  lemma ReplenishKeepsNodes(c: Config, r: Register, stored: Option<Stored>, env: Env, count: int)
    requires stored.Some?
    ensures var m := Replenish(c, r, stored, env, count);
            m.stored.Some? && NodesOf(m.stored) == NodesOf(stored)
  {}

  /** A scale-out whose processing succeeds activates exactly the selection, marks exactly the taken spares, stops
      exactly the reused waiters, and moves as many nodes from unused to used as it takes spares. */
  lemma ScaleOutEffect(c: Config, s: State, env: Env)
    requires s.stored.Some? && WellFormed(NodesOf(s.stored)) && GetInventory !in env.failing
    requires !NothingToActivate(c, s) && ActivateSelected(c, s, env).ok
    ensures var nodes, t := NodesOf(s.stored), ScaledOut(c, s, env).0;
            var reused, spares := Reused(c, nodes, s.waiters.Keys), Spares(c, nodes, s.waiters.Keys);
            && t.nodes == ActivatedNodes(s.nodes, AsSet(Selection(c, s)))
            && t.stored.Some? && NodesOf(t.stored) == MarkedUsed(nodes, AsSet(spares))
            && t.waiters == s.waiters - AsSet(reused)
            && CountUsed(NodesOf(t.stored)) == CountUsed(nodes) + |spares|
            && CountUnused(NodesOf(t.stored)) == CountUnused(nodes) - |spares|
            && t.eligibleSince == None && t.queue == s.queue
  {
    var nodes, spares := NodesOf(s.stored), Spares(c, NodesOf(s.stored), s.waiters.Keys);
    PoolEffect(c, s, env);
    ReplenishKeepsNodes(c, s.register, ActivateSelected(c, s, env).stored, env,
                        Replenished(c, s.stored.value.spec.replicas, |spares|));
    SparesAre(c, nodes, s.waiters.Keys);
    MarkingCounts(nodes, spares);
  }

  lemma MarkingSelection(nodes: seq<InventoryNode>, reused: seq<string>, spares: seq<string>)
    requires WellFormed(nodes)
    requires forall name :: name in reused ==> Holds(nodes, name, true)
    ensures MarkedUsed(nodes, AsSet(reused + spares)) == MarkedUsed(nodes, AsSet(spares))
  {
    MarkingUsedChangesNothing(nodes, AsSet(reused));
    assert AsSet(reused + spares) == AsSet(reused) + AsSet(spares);
    assert MarkedUsed(MarkedUsed(nodes, AsSet(reused)), AsSet(spares)) == MarkedUsed(nodes, AsSet(reused + spares));
  }

  // ----- The batch, on the configuration -----

  /** The used nodes that an active waiter drains. */
  function WaitingNames(nodes: seq<InventoryNode>, waiting: set<string>): set<string> {
    set n | n in nodes && n.used && n.name in waiting :: n.name
  }

  lemma WaitingCount(nodes: seq<InventoryNode>, waiting: set<string>)
    requires WellFormed(nodes)
    ensures CountWaiting(nodes, waiting) == |WaitingNames(nodes, waiting)|
  {
    var p := WaitsIn(waiting);
    forall name ensures name in WaitingNames(nodes, waiting) <==> exists n :: n in nodes && p(n) && n.name == name {
      if name in WaitingNames(nodes, waiting) {
        var n :| n in nodes && n.used && n.name in waiting && n.name == name;
        assert p(n);
      }
    }
    NamesCount(nodes, p, WaitingNames(nodes, waiting));
  }

  /** A scale-out takes as many nodes as the configured batch, or one if none is configured, as far as draining and
      unused nodes go; draining ones come first, and no unused one is taken while a draining one is left. */
  lemma BatchIsFilled(c: Config, s: State)
    requires s.stored.Some? && WellFormed(NodesOf(s.stored))
    ensures var sel, size := Selection(c, s), if c.batchSize > 0 then c.batchSize else 1;
            var draining, unused := WaitingNames(NodesOf(s.stored), s.waiters.Keys), UnusedNames(NodesOf(s.stored));
            && |sel| == Min(size, |draining| + |unused|) && NoRepeats(sel)
            && (forall i :: 0 <= i < |sel| ==> sel[i] in if i < |draining| then draining else unused)
  {
    var nodes, waiting, sel := NodesOf(s.stored), s.waiters.Keys, Selection(c, s);
    SelectionFillsTheBatch(c, s);
    WaitingCount(nodes, waiting);
    NamesOfFlagCount(nodes);
    var draining, unused := WaitingNames(nodes, waiting), UnusedNames(nodes);
    forall i | 0 <= i < |sel| ensures sel[i] in if i < |draining| then draining else unused {
      if i < |draining| {
        assert Holds(nodes, sel[i], true);
      } else {
        assert Holds(nodes, sel[i], false);
      }
    }
  }
}

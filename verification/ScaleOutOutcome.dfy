/** A scale-out in which nothing fails, from the configuration to the nodes, the inventory, the waiters and the
    answer. */
module ScaleOutOutcome {
  import opened Common
  import opened Quantities
  import opened Inventory
  import opened InventoryStore
  import opened ClusterNodes
  import opened NodeScaling
  import opened ScaleOutEffects
  import opened ScaleOutSelection
  import opened ScaleOutSafety

  lemma {:induction false} DistinctCount<T>(xs: seq<T>)
    requires NoRepeats(xs)
    ensures |AsSet(xs)| == |xs|
  {
    if |xs| == 0 {
      assert AsSet(xs) == {};
    } else {
      DistinctCount(xs[..|xs| - 1]);
      assert xs[..|xs|] == xs;
      AsSetOneMore(xs, |xs| - 1);
    }
  }

  /** The nodes one scale-out takes: all of them known to inventory and cluster, as many as the batch allows. */
  lemma TakenNodes(c: Config, s: State)
    requires Safe(s) && s.stored.Some?
    ensures var taken, size := AsSet(Selection(c, s)), if c.batchSize > 0 then c.batchSize else 1;
            var draining, unused := WaitingNames(NodesOf(s.stored), s.waiters.Keys), UnusedNames(NodesOf(s.stored));
            && |taken| == Min(size, |draining| + |unused|) && |taken * draining| == Min(size, |draining|)
            && taken <= draining + unused && draining + unused <= s.nodes.Keys && draining !! unused
  {
    var nodes, sel := NodesOf(s.stored), Selection(c, s);
    var draining, unused := WaitingNames(nodes, s.waiters.Keys), UnusedNames(nodes);
    BatchIsFilled(c, s);
    DistinctCount(sel);
    NamesAreApart(s);
    DrainingFirst(c, s);
    forall name | name in AsSet(sel) ensures name in draining + unused {
      var i :| 0 <= i < |sel| && sel[i] == name;
    }
  }

  lemma NamesAreApart(s: State)
    requires Safe(s)
    ensures var draining, unused := WaitingNames(NodesOf(s.stored), s.waiters.Keys), UnusedNames(NodesOf(s.stored));
            draining !! unused && draining + unused <= s.nodes.Keys
  {
    var nodes := NodesOf(s.stored);
    forall name | name in UnusedNames(nodes) ensures name in s.nodes && name !in WaitingNames(nodes, s.waiters.Keys) {
      assert Holds(nodes, name, false);
      HoldsOnce(nodes, name);
    }
  }

  lemma PrefixMeets(sel: seq<string>, first: set<string>, rest: set<string>)
    requires NoRepeats(sel) && first !! rest
    requires forall i :: 0 <= i < |sel| ==> sel[i] in if i < |first| then first else rest
    ensures |AsSet(sel) * first| == Min(|sel|, |first|)
  {
    var front := sel[..Min(|sel|, |first|)];
    DistinctCount(front);
    forall name | name in AsSet(sel) * first ensures name in AsSet(front) {
      var i :| 0 <= i < |sel| && sel[i] == name;
      assert front[i] == name;
    }
    forall name | name in AsSet(front) ensures name in AsSet(sel) * first {
      var i :| 0 <= i < |front| && front[i] == name;
      assert sel[i] == name;
    }
    assert AsSet(front) == AsSet(sel) * first;
  }

  lemma DrainingFirst(c: Config, s: State)
    requires Safe(s) && s.stored.Some?
    ensures var sel, size := Selection(c, s), if c.batchSize > 0 then c.batchSize else 1;
            var draining := WaitingNames(NodesOf(s.stored), s.waiters.Keys);
            |AsSet(sel) * draining| == Min(size, |draining|)
  {
    BatchIsFilled(c, s);
    NamesAreApart(s);
    PrefixMeets(Selection(c, s), WaitingNames(NodesOf(s.stored), s.waiters.Keys), UnusedNames(NodesOf(s.stored)));
  }

  lemma MarkedUsedHolds(nodes: seq<InventoryNode>, names: set<string>, name: string, flag: bool)
    ensures Holds(MarkedUsed(nodes, names), name, flag)
       <==> if name in names then flag && Named(nodes, name) else Holds(nodes, name, flag)
  {
    var r := MarkedUsed(nodes, names);
    if Holds(r, name, flag) {
      var n :| n in r && n.name == name && n.used == flag;
      var i :| 0 <= i < |r| && r[i] == n;
      assert nodes[i] in nodes;
    }
    if Named(nodes, name) && name in names {
      var n :| n in nodes && n.name == name;
      var i :| 0 <= i < |nodes| && nodes[i] == n;
      assert r[i] in r;
    }
    if Holds(nodes, name, flag) && name !in names {
      var n :| n in nodes && n.name == name && n.used == flag;
      var i :| 0 <= i < |nodes| && nodes[i] == n;
      assert r[i] in r;
    }
  }

  lemma MarkingMovesNames(nodes: seq<InventoryNode>, names: set<string>)
    requires WellFormed(nodes) && names <= UnusedNames(nodes)
    ensures UnusedNames(MarkedUsed(nodes, names)) == UnusedNames(nodes) - names
    ensures UsedNames(MarkedUsed(nodes, names)) == UsedNames(nodes) + names
  {
    var r := MarkedUsed(nodes, names);
    forall name
      ensures name in UnusedNames(r) <==> name in UnusedNames(nodes) - names
      ensures name in UsedNames(r) <==> name in UsedNames(nodes) + names
    {
      NamesHold(r, name);
      NamesHold(nodes, name);
      MarkedUsedHolds(nodes, names, name, false);
      MarkedUsedHolds(nodes, names, name, true);
      HoldsOnce(nodes, name);
    }
  }

  lemma PartsOfTaken(reused: seq<string>, spares: seq<string>, unused: set<string>)
    requires AsSet(spares) <= unused && AsSet(reused) !! unused
    ensures AsSet(spares) == AsSet(reused + spares) * unused && AsSet(reused) == AsSet(reused + spares) - unused
  {
    assert AsSet(reused + spares) == AsSet(reused) + AsSet(spares);
  }

  lemma SparesAreTaken(c: Config, s: State)
    requires Safe(s) && s.stored.Some?
    ensures var taken, unused := AsSet(Selection(c, s)), UnusedNames(NodesOf(s.stored));
            && AsSet(Spares(c, NodesOf(s.stored), s.waiters.Keys)) == taken * unused
            && AsSet(Reused(c, NodesOf(s.stored), s.waiters.Keys)) == taken - unused
  {
    var nodes := NodesOf(s.stored);
    var reused, spares, unused := Reused(c, nodes, s.waiters.Keys), Spares(c, nodes, s.waiters.Keys),
                                  UnusedNames(nodes);
    ReusedAre(c, nodes, s.waiters.Keys);
    SparesAre(c, nodes, s.waiters.Keys);
    forall name | name in AsSet(spares) ensures name in unused {
      NamesHold(nodes, name);
    }
    forall name | name in AsSet(reused) ensures name !in unused {
      NamesHold(nodes, name);
      HoldsOnce(nodes, name);
    }
    PartsOfTaken(reused, spares, unused);
  }

  /** When nothing fails, exactly as many nodes of the cluster as the configured batch allows lose their marks, draining
      ones first; the others stay as they are. The unused ones among them become used, the waiters of the draining ones
      stop, the trigger starts anew, and the step succeeds; with nothing to take it fails and changes nothing. */
  lemma ScaleOutTakesBatch(c: Config, s: State, env: Env)
    requires Safe(s) && s.stored.Some? && env.failing == {}
    ensures var taken, size := AsSet(Selection(c, s)), if c.batchSize > 0 then c.batchSize else 1;
            var draining, unused := WaitingNames(NodesOf(s.stored), s.waiters.Keys), UnusedNames(NodesOf(s.stored));
            && |taken| == Min(size, |draining| + |unused|) && |taken * draining| == Min(size, |draining|)
            && taken <= draining + unused && draining + unused <= s.nodes.Keys
            && (if |draining| + |unused| == 0 then ScaledOut(c, s, env) == (s, Aborted)
                else Takes(s, ScaledOut(c, s, env).0, taken) && ScaledOut(c, s, env).1 == Done)
  {
    TakenNodes(c, s);
    if NothingToActivate(c, s) {
      NothingTaken(c, s, env);
      assert AsSet(Selection(c, s)) == {};
    } else {
      assert Selection(c, s)[0] in AsSet(Selection(c, s));
      ScaleOutSucceedsExactly(c, s, env);
      SuccessTakes(c, s, env);
      SuccessfulAnswer(c, s, env);
    }
  }

  /** These nodes lose their marks, become used and lose their waiters; the trigger starts anew; all else stays. */
  ghost predicate Takes(s: State, t: State, taken: set<string>) {
    && t.nodes == (map name | name in s.nodes :: if name in taken then Activated(s.nodes[name]) else s.nodes[name])
    && UsedNames(NodesOf(t.stored)) == UsedNames(NodesOf(s.stored)) + taken
    && UnusedNames(NodesOf(t.stored)) == UnusedNames(NodesOf(s.stored)) - taken
    && t.waiters == s.waiters - taken && t.queue == s.queue && t.eligibleSince == None
  }

  lemma SuccessTakes(c: Config, s: State, env: Env)
    requires Safe(s) && s.stored.Some? && GetInventory !in env.failing && !NothingToActivate(c, s)
    requires ActivateSelected(c, s, env).ok
    ensures Takes(s, ScaledOut(c, s, env).0, AsSet(Selection(c, s)))
  {
    var taken, nodes, t := AsSet(Selection(c, s)), NodesOf(s.stored), ScaledOut(c, s, env).0;
    var unused := UnusedNames(nodes);
    ScaleOutEffect(c, s, env);
    SparesAreTaken(c, s);
    MarkingMovesNames(nodes, taken * unused);
    TakenAreUsed(c, s);
    UnusedHaveNoWaiter(s);
    assert UsedNames(nodes) + taken * unused == UsedNames(nodes) + taken;
    assert unused - taken * unused == unused - taken;
    assert s.waiters - taken == s.waiters - (taken - unused);
  }

  lemma TakenAreUsed(c: Config, s: State)
    requires Safe(s) && s.stored.Some?
    ensures var taken, nodes := AsSet(Selection(c, s)), NodesOf(s.stored);
            taken - UnusedNames(nodes) <= UsedNames(nodes)
  {
    TakenNodes(c, s);
  }

  lemma UnusedHaveNoWaiter(s: State)
    requires Safe(s)
    ensures UnusedNames(NodesOf(s.stored)) !! s.waiters.Keys
  {
    forall name | name in UnusedNames(NodesOf(s.stored)) ensures name !in s.waiters {
      assert Holds(NodesOf(s.stored), name, false);
      HoldsOnce(NodesOf(s.stored), name);
    }
  }

  lemma NothingTaken(c: Config, s: State, env: Env)
    requires NothingToActivate(c, s)
    ensures Selection(c, s) == [] && ScaledOut(c, s, env) == (s, Aborted)
  {}

  lemma SuccessfulAnswer(c: Config, s: State, env: Env)
    requires s.stored.Some? && WellFormed(NodesOf(s.stored)) && env.failing == {} && !NothingToActivate(c, s)
    requires ActivateSelected(c, s, env).ok
    ensures ScaledOut(c, s, env).1 == Done
  {
    PoolEffect(c, s, env);
    ReplenishmentSucceeds(c, s.register, ActivateSelected(c, s, env).stored, env,
                          Replenished(c, s.stored.value.spec.replicas, |Spares(c, NodesOf(s.stored), s.waiters.Keys)|));
  }

  lemma ReplenishmentSucceeds(c: Config, r: Register, stored: Option<Stored>, env: Env, count: int)
    requires env.failing == {} && stored.Some?
    ensures Replenish(c, r, stored, env, count).outcome == Done
  {}
}

/** Scale-out: what processing the chosen nodes does, when it succeeds, and how far a failing run gets. */
module ScaleOutEffects {
  import opened Inventory
  import opened InventoryStore
  import opened ClusterNodes
  import opened NodeScaling

  function AsSet<T>(xs: seq<T>): set<T> { set x | x in xs }

  /** The nodes chosen by one scale-out, in the order they are processed. */
  function Selection(c: Config, s: State): seq<string> {
    var nodes := NodesOf(s.stored);
    Reused(c, nodes, s.waiters.Keys) + Spares(c, nodes, s.waiters.Keys)
  }

  // ----- The effect of processing a set of nodes -----

  function ActivatedNodes(nodes: map<string, Node>, names: set<string>): map<string, Node> {
    map n | n in nodes :: if n in names then Activated(nodes[n]) else nodes[n]
  }

  function MarkedUsed(nodes: seq<InventoryNode>, names: set<string>): seq<InventoryNode> {
    seq(|nodes|, i requires 0 <= i < |nodes| => if nodes[i].name in names then nodes[i].(used := true) else nodes[i])
  }

  lemma ActivateNodesOneMore(nodes: map<string, Node>, names: set<string>, name: string)
    requires name in nodes
    ensures var before := ActivatedNodes(nodes, names);
            before[name := Activated(before[name])] == ActivatedNodes(nodes, names + {name})
  {
    ActivatedIsUnmarked(Activated(nodes[name]));
    ActivatedIsUnmarked(nodes[name]);
  }

  lemma MarkedUsedIsWellFormed(nodes: seq<InventoryNode>, names: set<string>)
    requires WellFormed(nodes)
    ensures WellFormed(MarkedUsed(nodes, names))
  {}

  lemma MarkOneMore(nodes: seq<InventoryNode>, names: set<string>, name: string)
    requires WellFormed(nodes)
    ensures Marked(MarkedUsed(nodes, names), name, true) == MarkedUsed(nodes, names + {name})
  {
    MarkedUsedIsWellFormed(nodes, names);
    MarkedAt(MarkedUsed(nodes, names), name, true);
  }

  lemma AsSetOneMore<T>(xs: seq<T>, i: nat)
    requires i < |xs|
    ensures AsSet(xs[..i + 1]) == AsSet(xs[..i]) + {xs[i]}
  {
    assert xs[..i + 1] == xs[..i] + [xs[i]];
  }

  /** Exactly these nodes were activated, these marked used, and these waiters stopped. */
  ghost predicate Processed(p: Pool, r: Pool, activated: set<string>, marked: set<string>, stopped: set<string>)
    requires p.stored.Some?
  {
    var spec := p.stored.value.spec;
    && r.stored.Some? && r.stored.value.spec == Spec(spec.replicas, MarkedUsed(spec.nodes, marked))
    && r.nodes == ActivatedNodes(p.nodes, activated)
    && r.waiters == p.waiters - stopped
  }

  function StoppedBy(stop: bool, names: seq<string>): set<string> { if stop then AsSet(names) else {} }

  /** The state after processing a list, failing or not: all of it, or a prefix completely and at most the next node
      activated without being marked. */
  ghost predicate ProcessedUpTo(p: Pool, names: seq<string>, stop: bool, k: nat, r: Pool)
    requires p.stored.Some?
  {
    && k <= |names| && (r.ok <==> k == |names|)
    && if k == |names| then Processed(p, r, AsSet(names), AsSet(names), StoppedBy(stop, names))
       else
         || Processed(p, r, AsSet(names[..k]), AsSet(names[..k]), StoppedBy(stop, names[..k + 1]))
         || Processed(p, r, AsSet(names[..k + 1]), AsSet(names[..k]), StoppedBy(stop, names[..k + 1]))
  }

  lemma ProcessOne(p: Pool, before: Pool, names: set<string>, stopped: set<string>, name: string, stop: bool, env: Env)
    requires p.stored.Some? && WellFormed(p.stored.value.spec.nodes)
    requires before.ok && Processed(p, before, names, names, stopped)
    ensures var r, now := ActivateOne(before, name, stop, env), if stop then stopped + {name} else stopped;
            if r.ok then Processed(p, r, names + {name}, names + {name}, now)
            else Processed(p, r, names, names, now) || Processed(p, r, names + {name}, names, now)
  {
    var spec := p.stored.value.spec;
    var r, now := ActivateOne(before, name, stop, env), if stop then stopped + {name} else stopped;
    assert r.waiters == p.waiters - now;
    if Activate(name) in env.failing || name !in before.nodes {
      assert Processed(p, r, names, names, now);
    } else {
      assert name in p.nodes;
      ActivateNodesOneMore(p.nodes, names, name);
      MarkOneMore(spec.nodes, names, name);
      if r.ok {
        assert Processed(p, r, names + {name}, names + {name}, now);
      } else {
        assert Processed(p, r, names + {name}, names, now);
      }
    }
  }

  /** Processing stops at some position `k`. */
  lemma {:induction false} ActivateAllReaches(p: Pool, names: seq<string>, stop: bool, env: Env) returns (k: nat)
    requires p.ok && p.stored.Some? && WellFormed(p.stored.value.spec.nodes)
    ensures ProcessedUpTo(p, names, stop, k, ActivateAll(p, names, stop, env))
  {
    k := 0;
    if |names| == 0 {
      NothingProcessed(p);
    } else {
      var front, last := names[..|names| - 1], names[|names| - 1];
      var before := ActivateAll(p, front, stop, env);
      k := ActivateAllReaches(p, front, stop, env);
      assert names[..|names|] == names;
      AsSetOneMore(names, |names| - 1);
      if before.ok {
        ProcessOne(p, before, AsSet(front), StoppedBy(stop, front), last, stop, env);
        k := if ActivateOne(before, last, stop, env).ok then |names| else |front|;
      } else {
        assert front[..k] == names[..k] && front[..k + 1] == names[..k + 1];
      }
    }
  }

  lemma NothingProcessed(p: Pool)
    requires p.stored.Some?
    ensures Processed(p, p, AsSet([]), AsSet([]), {})
  {
    var spec := p.stored.value.spec;
    assert MarkedUsed(spec.nodes, {}) == spec.nodes;
    assert ActivatedNodes(p.nodes, {}) == p.nodes;
    assert p.waiters - {} == p.waiters;
  }

  // ----- Both phases -----

  lemma ProcessedTwice(p: Pool, mid: Pool, r: Pool, first: set<string>, activated: set<string>, marked: set<string>)
    requires p.stored.Some? && Processed(p, mid, first, first, first) && Processed(mid, r, activated, marked, {})
    ensures Processed(p, r, first + activated, first + marked, first)
  {
    var nodes := p.stored.value.spec.nodes;
    assert MarkedUsed(MarkedUsed(nodes, first), marked) == MarkedUsed(nodes, first + marked);
    forall n | n in p.nodes
      ensures ActivatedNodes(mid.nodes, activated)[n] == ActivatedNodes(p.nodes, first + activated)[n]
    {
      ActivatedIsUnmarked(p.nodes[n]);
      ActivatedIsUnmarked(Activated(p.nodes[n]));
    }
    assert ActivatedNodes(mid.nodes, activated) == ActivatedNodes(p.nodes, first + activated);
    assert mid.waiters - {} == mid.waiters;
  }

  lemma AsSetJoins<T>(xs: seq<T>, ys: seq<T>, j: nat, k: nat)
    requires j <= |ys| && k == |xs| + j
    ensures AsSet((xs + ys)[..k]) == AsSet(xs) + AsSet(ys[..j])
  {
    assert (xs + ys)[..k] == xs + ys[..j];
  }

  lemma ActivateNothingAfterFailure(p: Pool, names: seq<string>, stop: bool, env: Env)
    requires !p.ok
    ensures ActivateAll(p, names, stop, env) == p
  {}

  /** The state after both phases, failing or not: a prefix of the whole selection processed completely, at most the
      next node activated without being marked, and the waiters of the reused nodes reached so far stopped. */
  ghost predicate BothProcessedUpTo(p: Pool, reused: seq<string>, spares: seq<string>, k: nat, r: Pool)
    requires p.stored.Some?
  {
    var sel := reused + spares;
    && k <= |sel| && (r.ok <==> k == |sel|)
    && if r.ok then Processed(p, r, AsSet(sel), AsSet(sel), AsSet(reused))
       else
         var stopped := AsSet(if k < |reused| then reused[..k + 1] else reused);
         Processed(p, r, AsSet(sel[..k]), AsSet(sel[..k]), stopped)
         || Processed(p, r, AsSet(sel[..k + 1]), AsSet(sel[..k]), stopped)
  }

  lemma SecondPhase(p: Pool, mid: Pool, r: Pool, reused: seq<string>, spares: seq<string>, j: nat, k: nat)
    requires k == |reused| + j
    requires p.stored.Some? && Processed(p, mid, AsSet(reused), AsSet(reused), AsSet(reused))
    requires ProcessedUpTo(mid, spares, false, j, r)
    ensures BothProcessedUpTo(p, reused, spares, k, r)
  {
    var first, sel := AsSet(reused), reused + spares;
    AsSetJoins(reused, spares, j, k);
    if j == |spares| {
      assert spares[..j] == spares && sel[..k] == sel;
      ProcessedTwice(p, mid, r, first, AsSet(spares), AsSet(spares));
      assert Processed(p, r, AsSet(sel), AsSet(sel), first);
    } else {
      AsSetJoins(reused, spares, j + 1, k + 1);
      if Processed(mid, r, AsSet(spares[..j]), AsSet(spares[..j]), {}) {
        ProcessedTwice(p, mid, r, first, AsSet(spares[..j]), AsSet(spares[..j]));
        assert Processed(p, r, AsSet(sel[..k]), AsSet(sel[..k]), first);
      } else {
        ProcessedTwice(p, mid, r, first, AsSet(spares[..j + 1]), AsSet(spares[..j]));
        assert Processed(p, r, AsSet(sel[..k + 1]), AsSet(sel[..k]), first);
      }
    }
  }

  lemma FirstPhaseFails(p: Pool, reused: seq<string>, spares: seq<string>, k: nat, r: Pool)
    requires p.stored.Some? && ProcessedUpTo(p, reused, true, k, r) && !r.ok
    ensures BothProcessedUpTo(p, reused, spares, k, r)
  {
    var sel := reused + spares;
    assert sel[..k] == reused[..k] && sel[..k + 1] == reused[..k + 1];
  }

  lemma ActivateBothReaches(p: Pool, reused: seq<string>, spares: seq<string>, env: Env) returns (k: nat)
    requires p.ok && p.stored.Some? && WellFormed(p.stored.value.spec.nodes)
    ensures BothProcessedUpTo(p, reused, spares, k, ActivateBoth(p, reused, spares, env))
  {
    if ActivateAll(p, reused, true, env).ok {
      k := SecondPhaseReaches(p, reused, spares, env);
    } else {
      k := FirstPhaseReaches(p, reused, spares, env);
    }
  }

  lemma SecondPhaseReaches(p: Pool, reused: seq<string>, spares: seq<string>, env: Env) returns (k: nat)
    requires p.ok && p.stored.Some? && WellFormed(p.stored.value.spec.nodes) && ActivateAll(p, reused, true, env).ok
    ensures BothProcessedUpTo(p, reused, spares, k, ActivateBoth(p, reused, spares, env))
  {
    var mid := ActivateAll(p, reused, true, env);
    FirstPhaseSucceeds(p, reused, env);
    var j := ActivateAllReaches(mid, spares, false, env);
    k := |reused| + j;
    SecondPhase(p, mid, ActivateBoth(p, reused, spares, env), reused, spares, j, k);
  }

  lemma FirstPhaseReaches(p: Pool, reused: seq<string>, spares: seq<string>, env: Env) returns (k: nat)
    requires p.ok && p.stored.Some? && WellFormed(p.stored.value.spec.nodes) && !ActivateAll(p, reused, true, env).ok
    ensures BothProcessedUpTo(p, reused, spares, k, ActivateBoth(p, reused, spares, env))
  {
    k := ActivateAllReaches(p, reused, true, env);
    ActivateNothingAfterFailure(ActivateAll(p, reused, true, env), spares, false, env);
    FirstPhaseFails(p, reused, spares, k, ActivateBoth(p, reused, spares, env));
  }

  lemma FirstPhaseSucceeds(p: Pool, reused: seq<string>, env: Env)
    requires p.ok && p.stored.Some? && WellFormed(p.stored.value.spec.nodes) && ActivateAll(p, reused, true, env).ok
    ensures var mid := ActivateAll(p, reused, true, env);
            Processed(p, mid, AsSet(reused), AsSet(reused), AsSet(reused)) && WellFormed(mid.stored.value.spec.nodes)
  {
    var _ := ActivateAllReaches(p, reused, true, env);
    MarkedUsedIsWellFormed(p.stored.value.spec.nodes, AsSet(reused));
  }

  /** Both calls work for this node, and both sides know it. */
  predicate Processable(p: Pool, name: string, env: Env) {
    Activate(name) !in env.failing && Mark(name) !in env.failing && name in p.nodes && Named(NodesOf(p.stored), name)
  }

  lemma {:induction false} ActivateAllKeepsKnown(p: Pool, names: seq<string>, stop: bool, env: Env, other: string)
    requires p.stored.Some? && WellFormed(NodesOf(p.stored))
    ensures var r := ActivateAll(p, names, stop, env);
            && r.stored.Some? && WellFormed(NodesOf(r.stored)) && r.nodes.Keys == p.nodes.Keys
            && (Named(NodesOf(r.stored), other) <==> Named(NodesOf(p.stored), other))
  {
    if |names| > 0 {
      var before, last := ActivateAll(p, names[..|names| - 1], stop, env), names[|names| - 1];
      ActivateAllKeepsKnown(p, names[..|names| - 1], stop, env, other);
      MarkedIsWellFormed(NodesOf(before.stored), last, true);
      MarkedKeepsNames(NodesOf(before.stored), last, other);
    }
  }

  lemma MarkedKeepsNames(nodes: seq<InventoryNode>, name: string, other: string)
    requires WellFormed(nodes)
    ensures Named(Marked(nodes, name, true), other) <==> Named(nodes, other)
  {
    MarkedIsWellFormed(nodes, name, true);
    HoldsOnce(nodes, other);
    HoldsOnce(Marked(nodes, name, true), other);
    MarkedHolds(nodes, name, true, other, true);
    MarkedHolds(nodes, name, true, other, false);
  }

  /** Processing a list succeeds exactly when it can process every one of its nodes. */
  lemma {:induction false} ActivateAllSucceedsExactly(p: Pool, names: seq<string>, stop: bool, env: Env)
    requires p.ok && p.stored.Some? && WellFormed(NodesOf(p.stored))
    ensures ActivateAll(p, names, stop, env).ok <==> forall name :: name in names ==> Processable(p, name, env)
  {
    if |names| > 0 {
      var front, last := names[..|names| - 1], names[|names| - 1];
      var before := ActivateAll(p, front, stop, env);
      ActivateAllSucceedsExactly(p, front, stop, env);
      ActivateAllKeepsKnown(p, front, stop, env, last);
      ActivateOneSucceedsExactly(before, last, stop, env);
      assert Processable(before, last, env) <==> Processable(p, last, env);
      assert ActivateAll(p, names, stop, env).ok <==> before.ok && Processable(p, last, env);
      AllOfOneMore(names, p, env);
    }
  }

  lemma ActivateOneSucceedsExactly(p: Pool, name: string, stop: bool, env: Env)
    requires p.stored.Some?
    ensures ActivateOne(p, name, stop, env).ok <==> p.ok && Processable(p, name, env)
  {}

  lemma AllOfOneMore(names: seq<string>, p: Pool, env: Env)
    requires |names| > 0
    ensures (forall name :: name in names ==> Processable(p, name, env))
       <==> (forall name :: name in names[..|names| - 1] ==> Processable(p, name, env))
            && Processable(p, names[|names| - 1], env)
  {
    var front, last := names[..|names| - 1], names[|names| - 1];
    assert names == front + [last];
    assert forall name :: name in names <==> name in front || name == last;
  }

  // ----- One scale-out -----

  function StartOf(s: State): Pool { Pool(s.nodes, s.stored, s.waiters, true) }

  /** A failing activation or marking leaves a prefix of the selection processed completely and at most the next node
      activated but not marked; the waiters of the reused nodes in it are stopped, the one that failed included;
      replica counts, trigger and queue are as before. */
  lemma ScaleOutFailurePrefix(c: Config, s: State, env: Env) returns (k: nat)
    requires s.stored.Some? && WellFormed(NodesOf(s.stored)) && GetInventory !in env.failing
    requires !ActivateSelected(c, s, env).ok
    ensures var spec, sel, reused := s.stored.value.spec, Selection(c, s), Reused(c, NodesOf(s.stored), s.waiters.Keys);
            var t := ScaledOut(c, s, env).0;
            && k < |sel|
            && t.stored.Some? && t.stored.value.spec == Spec(spec.replicas, MarkedUsed(spec.nodes, AsSet(sel[..k])))
            && (t.nodes == ActivatedNodes(s.nodes, AsSet(sel[..k]))
                || t.nodes == ActivatedNodes(s.nodes, AsSet(sel[..k + 1])))
            && t.waiters == s.waiters - AsSet(if k < |reused| then reused[..k + 1] else reused)
            && t.register == s.register && t.eligibleSince == s.eligibleSince && t.queue == s.queue
            && ScaledOut(c, s, env).1 == Aborted
  {
    var nodes := NodesOf(s.stored);
    var reused, spares := Reused(c, nodes, s.waiters.Keys), Spares(c, nodes, s.waiters.Keys);
    k := ActivateBothReaches(StartOf(s), reused, spares, env);
    FailedScaleOutIs(c, s, env);
  }

  lemma FailedScaleOutIs(c: Config, s: State, env: Env)
    requires s.stored.Some? && GetInventory !in env.failing && !ActivateSelected(c, s, env).ok
    ensures var pool := ActivateSelected(c, s, env);
            ScaledOut(c, s, env)
            == (State(pool.nodes, pool.stored, s.register, pool.waiters, s.eligibleSince, s.queue), Aborted)
  {}
}

/** A scale-in step, from the configuration to the reserved nodes, their waiters and the answer. */
module ScaleInOutcome {
  import opened Common
  import opened Inventory
  import opened InventorySelection
  import opened InventoryStore
  import opened ClusterNodes
  import opened ScaleInCapacity
  import opened ReservationSafety
  import opened NodeScaling
  import opened ScaleOutEffects
  import opened ScaleOutSelection
  import opened ReplicaAccounting
  import opened NodeScalingRuns
  import opened ScaleInSafety
  import opened UsedNodes

  // ----- Reserving a list of nodes -----

  /** Both calls for this node work, as far as they are made, and the cluster knows it. */
  predicate Reservable(nodes: map<string, Node>, name: string, env: Env) {
    && CheckReservation(name) !in env.failing && name in nodes
    && (HasReservation(nodes[name]) || Reserve(name) !in env.failing)
  }

  lemma ReservableAfter(nodes: map<string, Node>, names: set<string>, name: string, env: Env)
    requires forall other :: other in names ==> Reservable(nodes, other, env)
    ensures Reservable(TaintedNodes(nodes, names), name, env) <==> Reservable(nodes, name, env)
  {
    if name in names {
      ReservingTwice(nodes[name]);
    }
  }

  /** The loop gets to the end if and only if it can reserve every node of the list. */
  lemma {:induction false} ReserveAllSucceedsExactly(r: Reservations, names: seq<string>, env: Env, now: int,
                                                     request: Request)
    requires r.ok
    ensures ReserveAll(r, names, env, now, request).ok <==>
              forall name :: name in names ==> Reservable(r.nodes, name, env)
  {
    if |names| > 0 {
      var front, last := names[..|names| - 1], names[|names| - 1];
      assert forall name :: name in names <==> name in front || name == last;
      ReserveAllSucceedsExactly(r, front, env, now, request);
      var before := ReserveAll(r, front, env, now, request);
      if before.ok {
        var k := ReserveAllTaints(r, front, env, now, request);
        assert front[..|front|] == front;
        ReservableAfter(r.nodes, AsSet(front), last, env);
        ReserveOneSucceedsExactly(before, last, env, now, request);
      }
    }
  }

  lemma ReserveOneSucceedsExactly(r: Reservations, name: string, env: Env, now: int, request: Request)
    requires r.ok
    ensures ReserveOne(r, name, env, now, request).ok <==> Reservable(r.nodes, name, env)
  {}

  // ----- The whole step -----

  /** How many used nodes the step may reserve: what the evaluation can spare, or all of them without quota objects. */
  function Spared(c: Config, s: State, listing: Listing): nat {
    if c.quotaClient then |EvaluationOf(s, listing).removable| else |UsedNames(NodesOf(s.stored))|
  }

  /** Nothing stands in the way of reserving nodes: no excess of spares, something used, and an evaluation that works
      and spares something. */
  ghost predicate MayReserve(c: Config, s: State, env: Env, listing: Listing) {
    && s.stored.Some? && GetInventory !in env.failing
    && |UnusedNames(NodesOf(s.stored))| <= Prepared(c) && UsedNames(NodesOf(s.stored)) != {}
    && (c.quotaClient ==> ListNodes !in env.failing && ListPods !in env.failing && GetInventoryAgain !in env.failing)
    && Spared(c, s, listing) > 0
  }

  lemma MayReserveIs(c: Config, s: State, env: Env, listing: Listing)
    requires WellFormed(NodesOf(s.stored))
    ensures MayReserve(c, s, env, listing) <==> Reserves(c, s, env, listing)
    ensures NodeScaling.Reservable(c, NodesOf(s.stored), listing) == Spared(c, s, listing)
  {
    NamesOfFlagCount(NodesOf(s.stored));
  }

  /** A call the evaluation makes fails. */
  predicate CannotEvaluate(env: Env) {
    ListNodes in env.failing || ListPods in env.failing || GetInventoryAgain in env.failing
  }

  lemma IdleScaleIn(c: Config, s: State, env: Env, listing: Listing, now: int, request: Request)
    requires GetInventory !in env.failing && s.stored.Some? && CountUnused(NodesOf(s.stored)) <= Prepared(c)
    requires !Reserves(c, s, env, listing)
    ensures ScaledIn(c, s, env, listing, now, request)
            == (s, if CountUsed(NodesOf(s.stored)) > 0 && c.quotaClient && CannotEvaluate(env) then Aborted else Done)
  {}

  /** Otherwise, short of an excess of spares, nothing changes; it is an error only if there is no inventory or a call
      failed. */
  lemma OtherwiseNothing(c: Config, s: State, env: Env, listing: Listing, now: int, request: Request)
    requires WellFormed(NodesOf(s.stored)) && !MayReserve(c, s, env, listing)
    requires |UnusedNames(NodesOf(s.stored))| <= Prepared(c) || GetInventory in env.failing || s.stored.None?
    ensures var missing := GetInventory in env.failing || s.stored.None?;
            var blind := UsedNames(NodesOf(s.stored)) != {} && c.quotaClient && CannotEvaluate(env);
            ScaledIn(c, s, env, listing, now, request) == (s, if missing || blind then Aborted else Done)
  {
    NamesOfFlagCount(NodesOf(s.stored));
    MayReserveIs(c, s, env, listing);
    if GetInventory !in env.failing && s.stored.Some? {
      IdleScaleIn(c, s, env, listing, now, request);
    }
  }

  /** The nodes chosen: as many used ones as are spared, the highest orders first. */
  lemma ChosenNodes(c: Config, s: State, listing: Listing)
    requires WellFormed(NodesOf(s.stored))
    ensures var names, nodes := ToReserve(c, NodesOf(s.stored), listing), NodesOf(s.stored);
            && |names| == Quantities.Min(Spared(c, s, listing), |UsedNames(nodes)|) && NoRepeats(names)
            && AsSet(names) <= UsedNames(nodes)
            && (forall m, n :: m in nodes && n in nodes && m.used && n.used && m.name in names && n.name !in names ==>
                  m.order >= n.order)
  {
    var nodes, limit := NodesOf(s.stored), Spared(c, s, listing);
    var chosen := Sequences.Take(HighestUsed(nodes), limit);
    MayReserveIs(c, s, Env({}, None), listing);
    NamesOfFlagCount(nodes);
    HighestUsedSelection(nodes, limit);
    ChosenAreDistinct(nodes, limit);
    forall name ensures name in Names(chosen) <==> Named(chosen, name) {
      NamesAre(chosen, name);
    }
    forall m, n | m in nodes && n in nodes && m.used && n.used && m.name in Names(chosen) && n.name !in Names(chosen)
      ensures m.order >= n.order
    {
      var x :| x in chosen && x.name == m.name;
      SameName(nodes, x, m);
      assert n !in chosen;
    }
  }

  lemma ChosenAreDistinct(nodes: seq<InventoryNode>, limit: nat)
    requires WellFormed(nodes)
    ensures NoRepeats(Names(Sequences.Take(HighestUsed(nodes), limit)))
  {
    HighestUsedIsDistinct(nodes);
    DistinctPrefix(HighestUsed(nodes), limit);
    NamesOfDistinct(Sequences.Take(HighestUsed(nodes), limit));
  }

  lemma HighestUsedIsDistinct(nodes: seq<InventoryNode>)
    requires WellFormed(nodes)
    ensures DistinctNodes(HighestUsed(nodes))
  {
    var everywhere: map<string, Quantities.Amounts> := map n | n in UsedNames(nodes) :: Quantities.NOTHING;
    TrackedIsDistinct(nodes, everywhere);
    forall n | n in HighestUsed(nodes) ensures TrackedIn(everywhere)(n) {
      HighestUsedIsUsed(nodes, n);
    }
    Sequences.FilterAll(HighestUsed(nodes), TrackedIn(everywhere));
  }

  /** The step reserves a prefix of its choice and starts a waiter for each node reached, and nothing else changes. It
      is deferred if it reaches all of them, which it does if and only if no call it needs for them fails. */
  lemma ScaleInReserves(c: Config, s: State, env: Env, listing: Listing, now: int, request: Request) returns (k: nat)
    requires WellFormed(NodesOf(s.stored)) && MayReserve(c, s, env, listing)
    ensures var t, answer := ScaledIn(c, s, env, listing, now, request).0, ScaledIn(c, s, env, listing, now, request).1;
            var names := ToReserve(c, NodesOf(s.stored), listing);
            && k <= |names| && |names| > 0
            && t.nodes == TaintedNodes(s.nodes, AsSet(names[..k]))
            && WaitersStarted(s.waiters, t.waiters, AsSet(names[..k]), now, request)
            && t.stored == s.stored && t.register == s.register
            && t.eligibleSince == s.eligibleSince && t.queue == s.queue
            && answer == (if k == |names| then Deferred else Aborted)
            && (k == |names| <==> forall name :: name in names ==> Reservable(s.nodes, name, env))
  {
    var names, start := ToReserve(c, NodesOf(s.stored), listing), Reservations(s.nodes, s.waiters, true);
    MayReserveIs(c, s, env, listing);
    ChosenNodes(c, s, listing);
    k := ReserveAllTaints(start, names, env, now, request);
    ReserveAllSucceedsExactly(start, names, env, now, request);
    ReservingAnswer(c, s, env, listing, now, request);
  }

  lemma ReservingAnswer(c: Config, s: State, env: Env, listing: Listing, now: int, request: Request)
    requires Reserves(c, s, env, listing)
    ensures var r := ReserveAll(Reservations(s.nodes, s.waiters, true), ToReserve(c, NodesOf(s.stored), listing), env,
                                now,
                                request);
            ScaledIn(c, s, env, listing, now, request)
            == (State(r.nodes, s.stored, s.register, r.waiters, s.eligibleSince, s.queue), if r.ok then Deferred
                else Aborted)
  {}

  lemma ChosenAreKnown(c: Config, s: State, listing: Listing)
    requires Proper(s.nodes, s.stored)
    ensures forall name :: name in ToReserve(c, NodesOf(s.stored), listing) ==> name in s.nodes
  {
    ToReserveAreUsed(c, NodesOf(s.stored), listing);
  }

  lemma ChosenAreReservable(c: Config, s: State, env: Env, listing: Listing)
    requires Proper(s.nodes, s.stored) && env.failing == {}
    ensures forall name :: name in ToReserve(c, NodesOf(s.stored), listing) ==> Reservable(s.nodes, name, env)
  {
    ChosenAreKnown(c, s, listing);
  }

  lemma ReachingAll(c: Config, s: State, env: Env, listing: Listing, now: int, request: Request)
    requires WellFormed(NodesOf(s.stored)) && MayReserve(c, s, env, listing)
    requires forall name :: name in ToReserve(c, NodesOf(s.stored), listing) ==> Reservable(s.nodes, name, env)
    ensures var t, names := ScaledIn(c, s, env, listing, now, request).0, ToReserve(c, NodesOf(s.stored), listing);
            && ScaledIn(c, s, env, listing, now, request).1 == Deferred
            && t.nodes == TaintedNodes(s.nodes, AsSet(names))
            && WaitersStarted(s.waiters, t.waiters, AsSet(names), now, request)
  {
    var names := ToReserve(c, NodesOf(s.stored), listing);
    var k := ScaleInReserves(c, s, env, listing, now, request);
    assert names[..|names|] == names;
  }

  lemma TaintedIsReserved(nodes: map<string, Node>, names: set<string>, name: string)
    requires name in names && name in nodes
    ensures name in TaintedNodes(nodes, names) && HasReservation(TaintedNodes(nodes, names)[name])
  {
    ReservingTwice(nodes[name]);
  }

  /** When nothing fails, the step reserves every node of its choice, which is not empty, starts a waiter for each, and
      is deferred. */
  lemma ScaleInDrains(c: Config, s: State, env: Env, listing: Listing, now: int, request: Request)
    requires Proper(s.nodes, s.stored) && MayReserve(c, s, env, listing) && env.failing == {}
    ensures var t, names := ScaledIn(c, s, env, listing, now, request).0, ToReserve(c, NodesOf(s.stored), listing);
            && ScaledIn(c, s, env, listing, now, request).1 == Deferred
            && |names| == Quantities.Min(Spared(c, s, listing), |UsedNames(NodesOf(s.stored))|) > 0
            && t.nodes == TaintedNodes(s.nodes, AsSet(names))
            && WaitersStarted(s.waiters, t.waiters, AsSet(names), now, request)
  {
    ChosenNodes(c, s, listing);
    ChosenAreReservable(c, s, env, listing);
    ReachingAll(c, s, env, listing, now, request);
  }

  /** Each of them carries all marks then, and is being drained. */
  lemma ChosenAreDrained(c: Config, s: State, env: Env, listing: Listing, now: int, request: Request, name: string)
    requires Proper(s.nodes, s.stored) && MayReserve(c, s, env, listing) && env.failing == {}
    requires name in ToReserve(c, NodesOf(s.stored), listing)
    ensures var t := ScaledIn(c, s, env, listing, now, request).0;
            name in t.nodes && HasReservation(t.nodes[name]) && name in t.waiters
  {
    ScaleInDrains(c, s, env, listing, now, request);
    ChosenAreKnown(c, s, listing);
    TaintedIsReserved(s.nodes, AsSet(ToReserve(c, NodesOf(s.stored), listing)), name);
  }
}

/** The scale-in step as a whole takes no more room from ordinary pods than its own evaluation projected. */
module ScaleInSafety {
  import opened Quantities
  import opened Sequences
  import opened Inventory
  import opened InventorySelection
  import opened ClusterNodes
  import opened WorkerCapacity
  import opened ScaleInCapacity
  import opened ReservationSafety
  import opened NodeScaling
  import opened ScaleOutEffects
  import opened ScaleOutSelection
  import opened ScaleOutSafety
  import opened NodeScalingRuns

  function TaintedNodes(nodes: map<string, Node>, names: set<string>): map<string, Node> {
    map n | n in nodes :: if n in names then Reserving(nodes[n]) else nodes[n]
  }

  lemma ReservingTwice(node: Node)
    ensures HasReservation(Reserving(node)) && Reserving(Reserving(node)) == Reserving(node)
  {
    ReservedIsMarked(node);
  }

  lemma TaintOneMore(nodes: map<string, Node>, names: set<string>, name: string)
    requires name in nodes
    ensures var before := TaintedNodes(nodes, names);
            before[name := Reserving(before[name])] == TaintedNodes(nodes, names + {name})
  {
    ReservingTwice(nodes[name]);
  }

  /** Every one of these nodes has a waiter: the one it had, or a new one for this request. */
  ghost predicate WaitersStarted(before: map<string, Waiter>, after: map<string, Waiter>, names: set<string>, now: int,
                                 request: Request)
  {
    && after.Keys == before.Keys + names
    && forall name :: name in after ==> after[name] == if name in before then before[name] else Waiter(now, request)
  }

  /** However far the reserve loop gets, it has reserved exactly a prefix of its list, and started the waiters of
      that. */
  lemma {:induction false} ReserveAllTaints(r: Reservations, names: seq<string>, env: Env, now: int, request: Request)
    returns (k: nat)
    requires r.ok
    ensures k <= |names|
    ensures var t := ReserveAll(r, names, env, now, request);
            && t.nodes == TaintedNodes(r.nodes, AsSet(names[..k])) && (t.ok <==> k == |names|)
            && WaitersStarted(r.waiters, t.waiters, AsSet(names[..k]), now, request)
  {
    if |names| == 0 {
      k := 0;
      assert TaintedNodes(r.nodes, {}) == r.nodes;
    } else {
      var front, last := names[..|names| - 1], names[|names| - 1];
      k := ReserveAllTaints(r, front, env, now, request);
      assert front[..k] == names[..k];
      var before := ReserveAll(r, front, env, now, request);
      if before.ok && ReserveOne(before, last, env, now, request).ok {
        assert names[..k + 1] == names;
        AsSetOneMore(names, k);
        TaintOneMore(r.nodes, AsSet(names[..k]), last);
        k := k + 1;
      }
    }
  }

  lemma ListingAfterTaint(listing: Listing, later: Listing, nodes: map<string, Node>, names: set<string>)
    requires Lists(listing, nodes) && Lists(later, TaintedNodes(nodes, names))
    ensures multiset(Tainted(listing.nodes, names)) == multiset(later.nodes)
  {
    var tainted := Tainted(listing.nodes, names);
    forall i | 0 <= i < |tainted| ensures tainted[i].name == listing.nodes[i].name && tainted[i] in later.nodes {
      var n := listing.nodes[i];
      assert n in listing.nodes;
      ReservingIsIneligible(n);
      assert TaintedNodes(nodes, names)[n.name] in later.nodes;
    }
    forall n | n in later.nodes ensures n in tainted {
      assert nodes[n.name] in listing.nodes;
      var i :| 0 <= i < |listing.nodes| && listing.nodes[i] == nodes[n.name];
      assert tainted[i] == n;
    }
    SameElementsOnce(tainted, later.nodes);
  }

  lemma SameElementsOnce(xs: seq<Node>, ys: seq<Node>)
    requires DistinctNames(xs) && DistinctNames(ys)
    requires forall n :: n in xs <==> n in ys
    ensures multiset(xs) == multiset(ys)
  {
    CountsOfDistinct(xs);
    CountsOfDistinct(ys);
    forall n ensures multiset(xs)[n] == multiset(ys)[n] {
      assert n in xs <==> n in multiset(xs);
      assert n in ys <==> n in multiset(ys);
    }
  }

  /** The names the step reserves are among the chosen ones. */
  lemma ScaledInTaints(c: Config, s: State, env: Env, listing: Listing, now: int, request: Request)
    returns (taken: set<string>)
    requires c.quotaClient
    ensures ScaledIn(c, s, env, listing, now, request).0.nodes == TaintedNodes(s.nodes, taken)
    ensures taken <= Chosen(NodesOf(s.stored), |EvaluationOf(s, listing).removable|)
  {
    if Reserves(c, s, env, listing) {
      taken := ReservingTaints(c, s, env, listing, now, request);
    } else {
      taken := {};
      OtherwiseNodesStay(c, s, env, listing, now, request);
      NothingTainted(s.nodes);
    }
  }

  /** The step gets as far as reserving nodes. */
  predicate Reserves(c: Config, s: State, env: Env, listing: Listing) {
    && GetInventory !in env.failing && s.stored.Some? && Excess(c, NodesOf(s.stored)) <= 0
    && CountUsed(NodesOf(s.stored)) > 0 && !(c.quotaClient && EvaluationFails(env))
    && Reservable(c, NodesOf(s.stored), listing) > 0
  }

  lemma NothingTainted(nodes: map<string, Node>)
    ensures TaintedNodes(nodes, {}) == nodes
  {}

  lemma OtherwiseNodesStay(c: Config, s: State, env: Env, listing: Listing, now: int, request: Request)
    requires !Reserves(c, s, env, listing)
    ensures ScaledIn(c, s, env, listing, now, request).0.nodes == s.nodes
  {}

  lemma ReservingIs(c: Config, s: State, env: Env, listing: Listing, now: int, request: Request)
    requires Reserves(c, s, env, listing)
    ensures ScaledIn(c, s, env, listing, now, request).0.nodes
            == ReserveAll(Reservations(s.nodes, s.waiters, true), ToReserve(c, NodesOf(s.stored), listing), env, now,
                          request).nodes
  {}

  lemma ReservingTaints(c: Config, s: State, env: Env, listing: Listing, now: int, request: Request)
    returns (taken: set<string>)
    requires c.quotaClient && Reserves(c, s, env, listing)
    ensures ScaledIn(c, s, env, listing, now, request).0.nodes == TaintedNodes(s.nodes, taken)
    ensures taken <= Chosen(NodesOf(s.stored), |EvaluationOf(s, listing).removable|)
  {
    var names := ToReserve(c, NodesOf(s.stored), listing);
    ReservingIs(c, s, env, listing, now, request);
    var k := ReserveAllTaints(Reservations(s.nodes, s.waiters, true), names, env, now, request);
    taken := AsSet(names[..k]);
    NamesAreChosen(NodesOf(s.stored), |EvaluationOf(s, listing).removable|, names, k);
  }

  lemma NamesAreChosen(nodes: seq<InventoryNode>, limit: nat, names: seq<string>, k: nat)
    requires names == Names(Take(HighestUsed(nodes), limit)) && k <= |names|
    ensures AsSet(names[..k]) <= Chosen(nodes, limit)
  {
    forall name | name in AsSet(names[..k]) ensures name in Chosen(nodes, limit) {
      assert name in names;
      NamesAre(Take(HighestUsed(nodes), limit), name);
    }
  }

  /** What the pods on the nodes that stopped taking pods ask for. */
  function Released(listing: Listing, later: Listing): Amounts {
    Requested(listing.pods, EligibleNames(listing.nodes) - EligibleNames(later.nodes))
  }

  lemma LostBySubtracting<T>(s: set<T>, t: set<T>)
    ensures s - (s - t) == s * t
  {}

  /** Whatever fails on the way, the nodes that stop taking pods were removable, and what the next evaluation of the
      same pods finds available is at least what this one projected; before clamping, exactly when the pods on the
      nodes taken make up for what the cluster was overcommitted by. */
  lemma ScaleInIsSafe(c: Config, s: State, env: Env, listing: Listing, later: Listing, now: int, request: Request)
    requires Safe(s) && c.quotaClient && Lists(listing, s.nodes)
    requires NonNegativeNodes(listing.nodes) && NonNegativePods(listing.pods)
    requires Lists(later, ScaledIn(c, s, env, listing, now, request).0.nodes) && later.pods == listing.pods
    ensures var e, t := EvaluationOf(s, listing), ScaledIn(c, s, env, listing, now, request).0;
            && Available(later.nodes, later.pods).cpu >= e.projected.cpu >= 0
            && Available(later.nodes, later.pods).memory >= e.projected.memory >= 0
            && (Balance(later.nodes, later.pods).cpu >= e.projected.cpu <==>
                  Balance(listing.nodes, listing.pods).cpu + Released(listing, later).cpu >= 0)
            && (Balance(later.nodes, later.pods).memory >= e.projected.memory <==>
                  Balance(listing.nodes, listing.pods).memory + Released(listing, later).memory >= 0)
            && t.nodes.Keys == s.nodes.Keys
            && forall name :: name in s.nodes && Eligible(s.nodes[name]) && !Eligible(t.nodes[name]) ==>
                 name in e.removable
  {
    var taken := ScaledInTaints(c, s, env, listing, now, request);
    var t := ScaledIn(c, s, env, listing, now, request).0;
    ReservationIsSafe(NodesOf(s.stored), listing.nodes, listing.pods, taken);
    ListingAfterTaint(listing, later, s.nodes, taken);
    AvailableIgnoresOrder(Tainted(listing.nodes, taken), later.nodes, listing.pods, later.pods);
    TaintedEligible(listing.nodes, taken);
    LostBySubtracting(EligibleNames(listing.nodes), taken);
    forall name | name in s.nodes && Eligible(s.nodes[name]) && !Eligible(t.nodes[name])
      ensures name in EvaluationOf(s, listing).removable
    {
      assert s.nodes[name] in listing.nodes;
      assert s.nodes[name].name == name;
    }
  }
}

/** Small inputs on which node scaling does what one would not expect; nothing fails in any of them. */
module NodeScalingWitnesses {
  import opened Common
  import opened Sequences
  import opened Inventory
  import opened InventorySelection
  import opened InventoryStore
  import opened ClusterNodes
  import opened NodeScaling
  import opened ScaleOutEffects
  import opened ScaleOutSelection
  import opened ScaleOutSafety
  import opened ReplicaAccounting
  import opened NodeScalingRuns

  const CALM := Env({}, None)

  // ----- One spare -----

  lemma OneSpareIsActivated(c: Config, s: State)
    requires s.nodes == ONE_SPARE.nodes && s.stored == ONE_SPARE.stored && s.waiters == map[]
    ensures Safe(s) && !NothingToActivate(c, s) && ActivateSelected(c, s, CALM).ok && Selection(c, s) == ["a"]
    ensures Spares(c, NodesOf(s.stored), s.waiters.Keys) == ["a"]
  {
    OneSpareIsInitial();
    OneSpareIsTaken(c);
    assert s.waiters.Keys == {};
    ScaleOutSucceedsExactly(c, s, CALM);
  }

  lemma AboveCapIsLowered(c: Config, s: State)
    requires s.stored.Some? && WellFormed(NodesOf(s.stored)) && !NothingToActivate(c, s)
    requires ActivateSelected(c, s, CALM).ok
    requires 0 < c.maxNodes < s.register.local
    ensures ScaledOut(c, s, CALM).0.register.local == c.maxNodes
  {
    ScaleOutReplicas(c, s, CALM);
  }

  function AboveCap(): State { ONE_SPARE.(register := Register(5, 5)) }

  lemma AboveCapIsInitial()
    ensures Initial(AboveCap())
  {
    OneSpareIsInitial();
  }

  /** A manifest of 5 above a cap of 3: taking the spare lowers the count to the cap. */
  lemma ScaleOutLowersCount(c: Config)
    requires c.maxNodes == 3
    ensures Initial(AboveCap()) && AboveCap().register.local == 5
            && ScaledOut(c, AboveCap(), CALM).0.register.local == 3
  {
    AboveCapIsInitial();
    OneSpareIsActivated(c, AboveCap());
    AboveCapIsLowered(c, AboveCap());
  }

  /** The cluster after the scale-out, as a list call returns it. */
  const ONE_ACTIVATED := Listing([Activated(ONE_SPARE.nodes["a"])], [])

  lemma OneSpareActivatedNodes(c: Config)
    ensures ScaledOut(c, ONE_SPARE, CALM).0.nodes == ActivatedNodes(ONE_SPARE.nodes, AsSet(["a"]))
  {
    OneSpareIsActivated(c, ONE_SPARE);
    ScaleOutEffect(c, ONE_SPARE, CALM);
  }

  lemma OneActivatedNode()
    ensures ActivatedNodes(ONE_SPARE.nodes, AsSet(["a"])) == map["a" := Activated(ONE_SPARE.nodes["a"])]
  {
    assert ["a"][0] in AsSet(["a"]);
  }

  lemma OneActivatedIsListed(c: Config)
    ensures Lists(ONE_ACTIVATED, ScaledOut(c, ONE_SPARE, CALM).0.nodes)
  {
    OneSpareActivatedNodes(c);
    OneActivatedNode();
    assert ONE_ACTIVATED.nodes[0] in ONE_ACTIVATED.nodes;
  }

  /** The spare is taken and used, and the next sync no longer knows it. */
  lemma SyncForgetsSpare(c: Config)
    ensures var t := ScaledOut(c, ONE_SPARE, CALM).0;
            && Initial(ONE_SPARE) && Lists(ONE_ACTIVATED, t.nodes)
            && Named(NodesOf(t.stored), "a") && !Named(NodesOf(InventorySynced(t, CALM, ONE_ACTIVATED).stored), "a")
  {
    OneSpareIsInitial();
    OneSpareIsActivated(c, ONE_SPARE);
    OneActivatedIsListed(c);
    assert ["a"][0] in Selection(c, ONE_SPARE);
    SyncForgetsActivated(c, ONE_SPARE, CALM, CALM, ONE_ACTIVATED, "a");
  }

  // ----- Two spares -----

  function TwoSpares(replicas: int): State {
    State(map["a" := Node("a", map[ROLE := SCALING], [], false, 0, 0),
              "b" := Node("b", map[ROLE := SCALING], [], false, 0, 0)],
          Some(WithStatus(Spec(replicas, [InventoryNode("a", 1, false), InventoryNode("b", 2, false)]))),
          Register(replicas, replicas), map[], None, [])
  }

  lemma TwoSparesInventory(replicas: int, name: string, used: bool)
    ensures var nodes := NodesOf(TwoSpares(replicas).stored);
            && WellFormed(nodes) && CountUnused(nodes) == 2
            && (Holds(nodes, name, used) ==> !used && name in TwoSpares(replicas).nodes)
  {
    var nodes := NodesOf(TwoSpares(replicas).stored);
    assert "a"[0] != "b"[0];
    assert nodes[0].order < nodes[1].order && nodes[0].name != nodes[1].name;
    FilterAll(nodes, IsUnused);
    assert Filter(nodes, IsUnused) == nodes;
  }

  lemma TwoSparesAreInitial(replicas: int)
    ensures Initial(TwoSpares(replicas))
  {
    var s := TwoSpares(replicas);
    assert "a"[0] != "b"[0];
    forall name | Holds(NodesOf(s.stored), name, false) ensures name in s.nodes && HasScalingRole(s.nodes[name]) {
      TwoSparesInventory(replicas, name, false);
    }
    TwoSparesInventory(replicas, "a", true);
  }

  /** Two unused nodes and a manifest of 1: removing the excess of one leaves 0, below the one prepared spare. */
  lemma ExcessRemovalLosesFloor(c: Config, listing: Listing, now: int, request: Request)
    requires Prepared(c) == 1
    ensures Initial(TwoSpares(1)) && ScaledIn(c, TwoSpares(1), CALM, listing, now, request).0.register.local == 0
  {
    TwoSparesAreInitial(1);
    TwoSparesInventory(1, "a", true);
    ExcessRemoval(c, TwoSpares(1), CALM, listing, now, request);
  }

  /** A manifest that holds both spares goes to 1, as it should, and to 0 with the next pass on the same inventory. */
  lemma SecondPassLosesFloor(c: Config, listing: Listing, now: int, request: Request)
    requires Prepared(c) == 1
    ensures var once := ScaledIn(c, TwoSpares(2), CALM, listing, now, request).0;
            && Initial(TwoSpares(2)) && once.register.local == 1
            && ScaledIn(c, once, CALM, listing, now, request).0.register.local == 0
  {
    TwoSparesAreInitial(2);
    TwoSparesInventory(2, "a", true);
    ExcessRemoval(c, TwoSpares(2), CALM, listing, now, request);
    StaleSecondPass(c, TwoSpares(2), CALM, CALM, listing, now, request);
  }

  // ----- The baseline -----

  /** A cap of 1 and two prepared spares: a zero count becomes 2. */
  lemma BaselineExceedsCap(c: Config)
    requires c.maxNodes == 1 && c.preparedSpares == 2
    ensures Baselined(c, Register(0, 0), CALM).local == 2
  {
    BaselineIgnoresCap(c, Register(0, 0), CALM);
  }
}

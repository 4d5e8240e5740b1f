/** The order in which the controller's own loop takes its steps, and what it means for automatic scale-in: only
    evaluations whose inventory sync failed can find anything to spare. */
module NodeScalingOrder {
  import opened Common
  import opened Inventory
  import opened InventoryStore
  import opened ClusterNodes
  import opened WorkerCapacity
  import opened ReservationSafety
  import opened NodeScaling
  import opened NodeScalingRuns
  import opened ScaleInTrigger
  import opened UsedNodes

  // ----- Program order -----

  /** Where the loop is: the baseline comes first, then a sync, then requests and ticker turns; a ticker turn is a sync
      followed by an evaluation. */
  datatype Phase = Starting | Prepared | Idle | Synced

  predicate Allowed(phase: Phase, step: Step) {
    match step
    case Join(_) => true
    case TickWaiter(_, _, _, _) => true
    case EnsureBaseline(_) => phase == Starting
    case SyncInventory(_, _) => phase == Prepared || phase == Idle
    case ScaleOut(_) => phase == Idle
    case ScaleIn(_, _, _) => phase == Idle
    case AutoEvaluate(_, _, _) => phase == Synced
  }

  function Follow(phase: Phase, step: Step): Phase {
    match step
    case EnsureBaseline(_) => Prepared
    case SyncInventory(_, _) => if phase == Prepared then Idle else Synced
    case AutoEvaluate(_, _, _) => Idle
    case _ => phase
  }

  function PhaseAt(steps: seq<Step>, n: nat): Phase
    requires n <= |steps|
  {
    if n == 0 then Starting else Follow(PhaseAt(steps, n - 1), steps[n - 1])
  }

  /** The loop's own steps come in its order; joins and waiter ticks come at any time. */
  ghost predicate InOrder(steps: seq<Step>) {
    forall i :: 0 <= i < |steps| ==> Allowed(PhaseAt(steps, i), steps[i])
  }

  /** The sync of the ticker turn that the evaluation at `m` belongs to. */
  ghost predicate IsSyncOf(steps: seq<Step>, k: nat, m: nat) {
    k < m < |steps| && steps[k].SyncInventory? && forall i :: k < i < m ==> IsOutside(steps[i])
  }

  lemma {:induction false} SyncedSince(steps: seq<Step>, n: nat) returns (k: nat)
    requires InOrder(steps) && n <= |steps| && PhaseAt(steps, n) == Synced
    ensures k < n && steps[k].SyncInventory? && forall i :: k < i < n ==> IsOutside(steps[i])
  {
    assert Allowed(PhaseAt(steps, n - 1), steps[n - 1]);
    if steps[n - 1].SyncInventory? {
      k := n - 1;
    } else {
      k := SyncedSince(steps, n - 1);
    }
  }

  lemma EvaluationHasSync(steps: seq<Step>, m: nat) returns (k: nat)
    requires InOrder(steps) && m < |steps| && steps[m].AutoEvaluate?
    ensures IsSyncOf(steps, k, m)
  {
    assert Allowed(PhaseAt(steps, m), steps[m]);
    k := SyncedSince(steps, m);
  }

  // ----- Automatic scale-in needs failing syncs -----

  ghost function ReservedAt(c: Config, s: State, steps: seq<Step>): nat -> bool {
    (m: nat) => m <= |steps| && UsedAreReserved(StateAt(c, s, steps, m))
  }

  lemma OutsideStepKeepsReserved(c: Config, s: State, steps: seq<Step>, i: nat)
    requires IsRun(c, s, steps) && i < |steps| && IsOutside(steps[i]) && ReservedAt(c, s, steps)(i)
    ensures ReservedAt(c, s, steps)(i + 1)
  {
    OutsideKeepsUsedReserved(c, StateAt(c, s, steps, i), steps[i]);
  }

  lemma SyncStepReserves(c: Config, s: State, steps: seq<Step>, k: nat)
    requires Proper(s.nodes, s.stored) && IsRun(c, s, steps)
    requires k < |steps| && steps[k].SyncInventory? && !InventorySyncFails(steps[k].env)
    ensures ReservedAt(c, s, steps)(k + 1)
  {
    RunStaysProper(c, s, steps, k);
    SyncReservesUsed(StateAt(c, s, steps, k), steps[k].env, steps[k].listing);
  }

  lemma OutsideStepsKeepReserved(c: Config, s: State, steps: seq<Step>, k: nat, m: nat)
    requires IsRun(c, s, steps) && IsSyncOf(steps, k, m)
    ensures forall i: nat :: k + 1 <= i < m ==> Carries(ReservedAt(c, s, steps), i)
  {
    forall i: nat | k + 1 <= i < m ensures Carries(ReservedAt(c, s, steps), i) {
      if ReservedAt(c, s, steps)(i) {
        OutsideStepKeepsReserved(c, s, steps, i);
      }
    }
  }

  lemma ReservedWhileCarried(c: Config, s: State, steps: seq<Step>, k: nat, m: nat)
    requires IsSyncOf(steps, k, m) && ReservedAt(c, s, steps)(k + 1)
    requires forall i: nat :: k + 1 <= i < m ==> Carries(ReservedAt(c, s, steps), i)
    ensures ReservedAt(c, s, steps)(m)
  {
    Kept(ReservedAt(c, s, steps), k + 1, m);
  }

  lemma ReservedOnceSynced(c: Config, s: State, steps: seq<Step>, k: nat, m: nat)
    requires IsRun(c, s, steps) && IsSyncOf(steps, k, m) && ReservedAt(c, s, steps)(k + 1)
    ensures ReservedAt(c, s, steps)(m)
  {
    OutsideStepsKeepReserved(c, s, steps, k, m);
    ReservedWhileCarried(c, s, steps, k, m);
  }

  lemma ReservedUntil(c: Config, s: State, steps: seq<Step>, k: nat, m: nat)
    requires Proper(s.nodes, s.stored) && IsRun(c, s, steps) && IsSyncOf(steps, k, m)
    requires !InventorySyncFails(steps[k].env)
    ensures ReservedAt(c, s, steps)(m)
  {
    SyncStepReserves(c, s, steps, k);
    ReservedOnceSynced(c, s, steps, k, m);
  }

  /** In a ticker turn the evaluation finds the cluster eligible only if the sync before it failed. */
  lemma EligibleAfterFailedSync(c: Config, s: State, steps: seq<Step>, k: nat, m: nat)
    requires Proper(s.nodes, s.stored) && IsRun(c, s, steps) && IsSyncOf(steps, k, m)
    requires FoundEligible(c, StateAt(c, s, steps, m), steps[m])
    ensures InventorySyncFails(steps[k].env)
  {
    if !InventorySyncFails(steps[k].env) {
      ReservedUntil(c, s, steps, k, m);
      ReservedAreNotEligible(StateAt(c, s, steps, m), steps[m].listing);
    }
  }

  /** A ticker turn finds the cluster eligible if and only if its sync fails and the inventory as it was before, on the
      cluster as it is now, lets the evaluation complete and spare a node. */
  lemma TurnIsEligibleExactly(c: Config, s: State, sync: Env, listing: Listing, evaluation: Env, later: Listing,
                              now: int)
    requires Proper(s.nodes, s.stored) && Lists(listing, s.nodes) && Lists(later, s.nodes)
    ensures FoundEligible(c, InventorySynced(s, sync, listing), AutoEvaluate(evaluation, later, now))
       <==> InventorySyncFails(sync) && Completes(c, s, evaluation) && EvaluationOf(s, later).eligible
  {
    if !InventorySyncFails(sync) {
      SyncReservesUsed(s, sync, listing);
      ReservedAreNotEligible(InventorySynced(s, sync, listing), later);
    }
  }

  ghost predicate SyncFailedAt(steps: seq<Step>, m: nat) {
    exists k: nat :: IsSyncOf(steps, k, m) && InventorySyncFails(steps[k].env)
  }

  ghost predicate CompletesAt(c: Config, s: State, steps: seq<Step>, m: nat) {
    m < |steps| && steps[m].AutoEvaluate? && Completes(c, StateAt(c, s, steps, m), steps[m].env)
  }

  ghost predicate InterruptsAt(c: Config, s: State, steps: seq<Step>, m: nat) {
    m < |steps| && Interrupts(c, StateAt(c, s, steps, m), steps[m])
  }

  ghost predicate RequestsAt(c: Config, s: State, steps: seq<Step>, m: nat) {
    m < |steps| && Requests(c, StateAt(c, s, steps, m), steps[m])
  }

  lemma EligibleUnlessInterrupted(c: Config, s: State, step: Step)
    requires step.AutoEvaluate? && Completes(c, s, step.env)
    requires !Interrupts(c, s, step) || Requests(c, s, step)
    ensures FoundEligible(c, s, step)
  {
    if Requests(c, s, step) {
      RequestNeedsDelay(c, s, step);
    }
  }

  lemma CompletedAfterFailedSync(c: Config, s: State, steps: seq<Step>, m: nat)
    requires Proper(s.nodes, s.stored) && IsRun(c, s, steps) && InOrder(steps)
    requires CompletesAt(c, s, steps, m)
    requires !InterruptsAt(c, s, steps, m) || RequestsAt(c, s, steps, m)
    ensures SyncFailedAt(steps, m)
  {
    EligibleUnlessInterrupted(c, StateAt(c, s, steps, m), steps[m]);
    var i := EvaluationHasSync(steps, m);
    EligibleAfterFailedSync(c, s, steps, i, m);
  }

  lemma RequestHasPeriod(c: Config, s: State, steps: seq<Step>, j: nat) returns (k: nat)
    requires s.eligibleSince == None && RequestsAt(c, s, steps, j)
    ensures k < j && FoundEligible(c, StateAt(c, s, steps, k), steps[k])
    ensures steps[j].now - steps[k].now >= c.triggerDelay
    ensures forall m: nat :: k <= m < j ==> !InterruptsAt(c, s, steps, m)
  {
    k := RequestIsDebounced(c, s, steps, j);
  }

  /** An automatic request ends a stretch of at least the trigger delay in which the cluster was found eligible and
      every completed evaluation followed a failed sync: one successful sync with a completed evaluation ends it. */
  lemma RequestNeedsFailingSyncs(c: Config, s: State, steps: seq<Step>, j: nat) returns (k: nat)
    requires s.eligibleSince == None && Proper(s.nodes, s.stored) && IsRun(c, s, steps) && InOrder(steps)
    requires RequestsAt(c, s, steps, j)
    ensures k < j && FoundEligible(c, StateAt(c, s, steps, k), steps[k])
    ensures steps[j].now - steps[k].now >= c.triggerDelay
    ensures forall m: nat :: k <= m <= j && CompletesAt(c, s, steps, m) ==> SyncFailedAt(steps, m)
  {
    k := RequestHasPeriod(c, s, steps, j);
    forall m: nat | k <= m <= j && CompletesAt(c, s, steps, m) ensures SyncFailedAt(steps, m) {
      assert m == j ==> RequestsAt(c, s, steps, m);
      assert m < j ==> !InterruptsAt(c, s, steps, m);
      CompletedAfterFailedSync(c, s, steps, m);
    }
  }

  // ----- A request after failing syncs -----

  /** A controller started again after a scale-out: "a" is used and carries no mark. */
  const RESTARTED := State(map["a" := IDLE_NODE, "b" := BUSY_NODE], Some(WithStatus(Spec(1, [IDLE_SPARE]))),
                           Register(1, 1), map[], None, [])
  const BOTH := Listing([IDLE_NODE, BUSY_NODE], [BUSY_POD])
  const UNREADABLE := Env({ReadManifest}, None)
  const WORKING := Env({}, None)

  function FailingSyncs(delay: int): seq<Step> {
    [EnsureBaseline(UNREADABLE), SyncInventory(UNREADABLE, BOTH), SyncInventory(UNREADABLE, BOTH),
     AutoEvaluate(WORKING, BOTH, 0), SyncInventory(UNREADABLE, BOTH), AutoEvaluate(WORKING, BOTH, delay)]
  }

  lemma RestartedNames()
    ensures "a" in RESTARTED.nodes && RESTARTED.nodes["a"] == IDLE_NODE
    ensures "b" in RESTARTED.nodes && RESTARTED.nodes["b"] == BUSY_NODE
    ensures forall name :: name in RESTARTED.nodes ==> name == "a" || name == "b"
  {
    assert "a"[0] != "b"[0];
  }

  lemma RestartedInventory(name: string, used: bool)
    ensures Holds(NodesOf(RESTARTED.stored), name, used) <==> name == "a" && used
  {
    var nodes := NodesOf(RESTARTED.stored);
    assert nodes == [IDLE_SPARE];
    assert IDLE_SPARE in nodes;
  }

  lemma RestartedIsInitial()
    ensures Initial(RESTARTED)
  {
    RestartedNames();
    forall name | Holds(NodesOf(RESTARTED.stored), name, false) ensures false {
      RestartedInventory(name, false);
    }
  }

  lemma RestartedIsProper()
    ensures Proper(RESTARTED.nodes, RESTARTED.stored)
  {
    RestartedNames();
    forall name | Holds(NodesOf(RESTARTED.stored), name, true) ensures name == "a" {
      RestartedInventory(name, true);
    }
    assert !HasScalingRole(IDLE_NODE);
  }

  lemma BothAreListed()
    ensures Lists(BOTH, RESTARTED.nodes)
  {
    RestartedNames();
    assert DistinctNames(BOTH.nodes) by {
      IdleAndBusyAreProper();
    }
    forall n | n in BOTH.nodes ensures n.name in RESTARTED.nodes && RESTARTED.nodes[n.name] == n {
      assert n == IDLE_NODE || n == BUSY_NODE;
    }
    assert BOTH.nodes[0] == IDLE_NODE && BOTH.nodes[1] == BUSY_NODE;
  }

  lemma RestartedIsEligible(c: Config, since: Option<int>)
    requires c.quotaClient
    ensures var s := RESTARTED.(eligibleSince := since);
            CanEvaluate(c, s, WORKING) && Completes(c, s, WORKING) && EvaluationOf(s, BOTH).eligible
  {
    IdleIsRemovable();
    assert NodesOf(RESTARTED.stored) == [IDLE_SPARE];
    CanEvaluateIs(c, RESTARTED.(eligibleSince := since), WORKING);
  }

  lemma UnreadableChangesNothing(c: Config, s: State)
    ensures Next(c, s, EnsureBaseline(UNREADABLE)) == s && Next(c, s, SyncInventory(UNREADABLE, BOTH)) == s
  {}

  lemma RestartedStartsPeriod(c: Config)
    requires c.quotaClient
    ensures Next(c, RESTARTED, AutoEvaluate(WORKING, BOTH, 0)) == RESTARTED.(eligibleSince := Some(0))
  {
    RestartedIsEligible(c, None);
    FirstFindingStartsPeriod(c, RESTARTED, WORKING, BOTH, 0);
  }

  lemma RestartedRequests(c: Config)
    requires c.quotaClient
    ensures Requests(c, RESTARTED.(eligibleSince := Some(0)), AutoEvaluate(WORKING, BOTH, c.triggerDelay))
  {
    RestartedIsEligible(c, Some(0));
    LastingFindingRequests(c, RESTARTED.(eligibleSince := Some(0)), WORKING, BOTH, c.triggerDelay);
  }

  function RestartedAt(n: nat): State { if n <= 3 then RESTARTED else RESTARTED.(eligibleSince := Some(0)) }

  lemma RestartedStep(c: Config, n: nat)
    requires c.quotaClient && n < 5
    ensures Next(c, RestartedAt(n), FailingSyncs(c.triggerDelay)[n]) == RestartedAt(n + 1)
  {
    UnreadableChangesNothing(c, RestartedAt(n));
    RestartedStartsPeriod(c);
  }

  lemma StateAfterOne(c: Config, s: State, steps: seq<Step>, n: nat)
    requires n < |steps|
    ensures StateAt(c, s, steps, n + 1) == Next(c, StateAt(c, s, steps, n), steps[n])
  {}

  lemma {:induction false} FailingSyncsStates(c: Config, n: nat)
    requires c.quotaClient && n <= 5
    ensures StateAt(c, RESTARTED, FailingSyncs(c.triggerDelay), n) == RestartedAt(n)
  {
    if n > 0 {
      FailingSyncsStates(c, n - 1);
      StateAfterOne(c, RESTARTED, FailingSyncs(c.triggerDelay), n - 1);
      RestartedStep(c, n - 1);
    }
  }

  lemma FailingSyncsRun(c: Config)
    requires c.quotaClient
    ensures IsRun(c, RESTARTED, FailingSyncs(c.triggerDelay))
  {
    var steps := FailingSyncs(c.triggerDelay);
    BothAreListed();
    forall i | 0 <= i < |steps| ensures Enabled(StateAt(c, RESTARTED, steps, i), steps[i]) {
      FailingSyncsStates(c, i);
    }
  }

  /** It does happen: with the manifest unreadable for the trigger delay the second ticker turn requests a scale-in. */
  lemma FailingSyncsRequest(c: Config)
    requires c.quotaClient
    ensures var steps := FailingSyncs(c.triggerDelay);
            && Initial(RESTARTED) && Proper(RESTARTED.nodes, RESTARTED.stored)
            && IsRun(c, RESTARTED, steps) && InOrder(steps)
            && RequestsAt(c, RESTARTED, steps, 5)
  {
    RestartedIsInitial();
    RestartedIsProper();
    FailingSyncsRun(c);
    FailingSyncsInOrder(c.triggerDelay);
    FailingSyncsStates(c, 5);
    RestartedRequests(c);
  }

  lemma FailingSyncsInOrder(delay: int)
    ensures InOrder(FailingSyncs(delay))
  {
    var steps := FailingSyncs(delay);
    assert PhaseAt(steps, 0) == Starting;
    assert PhaseAt(steps, 1) == Prepared;
    assert PhaseAt(steps, 2) == Idle;
    assert PhaseAt(steps, 3) == Synced;
    assert PhaseAt(steps, 4) == Idle;
    assert PhaseAt(steps, 5) == Synced;
  }
}

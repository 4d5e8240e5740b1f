/** The working copy of the manifest and its last commit, over whole runs. */
module ManifestRuns {
  import opened Common
  import opened Quantities
  import opened Inventory
  import opened InventoryStore
  import opened ClusterNodes
  import opened NodeScaling
  import opened ScaleOutSafety
  import opened ReplicaAccounting
  import opened NodeScalingRuns
  import opened NodeScalingWitnesses

  /** The working copy holds what was committed. */
  predicate IsClean(r: Register) { r.local == r.committed }

  /** The count read at the start of a change, if the manifest can be pulled and read. */
  function CountRead(c: Config, r: Register, env: Env): Option<int> {
    if SyncFails(c, env) || ReadManifest in env.failing then None else Some(Pulled(r, c, env).local)
  }

  /** The new count a step sets out to publish; nothing is written when the count stays. */
  function Target(c: Config, s: State, step: Step): Option<int> {
    match step
    case EnsureBaseline(env) =>
      if CountRead(c, s.register, env) == Some(0) then Some(MinimumSpares(c)) else None
    case ScaleOut(env) =>
      var read := CountRead(c, s.register, env);
      if !Acts(c, s, env) || !ActivateSelected(c, s, env).ok || read.None? then None
      else
        var taken := |Spares(c, NodesOf(s.stored), s.waiters.Keys)|;
        Changed(read.value, Capped(c, read.value + Replenished(c, s.stored.value.spec.replicas, taken)))
    case ScaleIn(env, _, _) =>
      var read, excess := CountRead(c, s.register, env), Excess(c, NodesOf(s.stored));
      if |s.queue| == 0 || GetInventory in env.failing || s.stored.None? || excess <= 0 || read.None? then None
      else Changed(read.value, Max(0, read.value - excess))
    case _ => None
  }

  function Changed(count: int, target: int): Option<int> { if target == count then None else Some(target) }

  function EnvOf(step: Step): Env
    requires !step.Join?
  {
    step.env
  }

  /** The step writes a new count and then cannot commit it. */
  predicate LeavesUncommitted(c: Config, s: State, step: Step) {
    Target(c, s, step).Some? && WriteManifest !in EnvOf(step).failing && Commit in EnvOf(step).failing
  }

  lemma PullingIsClean(c: Config, r: Register, env: Env)
    requires IsClean(r)
    ensures IsClean(Pulled(r, c, env))
  {}

  lemma PublishIsCleanExactly(c: Config, r: Register, env: Env, target: int)
    requires c.repoConfigured && IsClean(r) && target != r.local
    ensures IsClean(Publish(r, c, env, target)) <==> WriteManifest in env.failing || Commit !in env.failing
  {}

  lemma SetReplicasIsCleanExactly(c: Config, r: Register, stored: Option<Stored>, env: Env, target: int)
    requires c.repoConfigured && IsClean(r)
    ensures IsClean(SetReplicas(c, r, stored, env, target).register)
       <==> target == r.local || WriteManifest in env.failing || Commit !in env.failing
  {
    if target != r.local {
      PublishIsCleanExactly(c, r, env, target);
    }
  }

  lemma ScaleOutIsCleanExactly(c: Config, s: State, env: Env)
    requires c.repoConfigured && IsClean(s.register)
    ensures IsClean(ScaledOut(c, s, env).0.register) <==> !LeavesUncommitted(c, s, ScaleOut(env))
  {
    if Acts(c, s, env) && ActivateSelected(c, s, env).ok && CountRead(c, s.register, env).Some? {
      var pulled, stored := Pulled(s.register, c, env), ActivateSelected(c, s, env).stored;
      var count := Replenished(c, s.stored.value.spec.replicas, |Spares(c, NodesOf(s.stored), s.waiters.Keys)|);
      PullingIsClean(c, s.register, env);
      SetReplicasIsCleanExactly(c, pulled, stored, env, Capped(c, pulled.local + count));
      assert ScaledOut(c, s, env).0.register
             == SetReplicas(c, pulled, stored, env, Capped(c, pulled.local + count)).register;
    } else {
      IdleRegister(c, s, env);
    }
  }

  lemma IdleRegister(c: Config, s: State, env: Env)
    requires !(Acts(c, s, env) && ActivateSelected(c, s, env).ok && CountRead(c, s.register, env).Some?)
    ensures var r := ScaledOut(c, s, env).0.register;
            r == s.register || r == Pulled(s.register, c, env)
  {}

  lemma RemovalIsCleanExactly(c: Config, r: Register, stored: Option<Stored>, env: Env, excess: int)
    requires c.repoConfigured && IsClean(r)
    ensures var read := CountRead(c, r, env);
            IsClean(RemoveExcess(c, r, stored, env, excess).register) <==>
              || read.None? || read.value == Max(0, read.value - excess)
              || WriteManifest in env.failing || Commit !in env.failing
  {
    PullingIsClean(c, r, env);
    if CountRead(c, r, env).Some? {
      var pulled := Pulled(r, c, env);
      SetReplicasIsCleanExactly(c, pulled, stored, env, Max(0, pulled.local - excess));
    }
  }

  lemma ScaleInIsCleanExactly(c: Config, s: State, env: Env, listing: Listing, now: int)
    requires c.repoConfigured && IsClean(s.register)
    ensures IsClean(Next(c, s, ScaleIn(env, listing, now)).register) <==>
              !LeavesUncommitted(c, s, ScaleIn(env, listing, now))
  {
    RemovalIsCleanExactly(c, s.register, s.stored, env, Excess(c, NodesOf(s.stored)));
  }

  lemma BaselineIsCleanExactly(c: Config, s: State, env: Env)
    requires c.repoConfigured && IsClean(s.register)
    ensures IsClean(Baselined(c, s.register, env)) <==> !LeavesUncommitted(c, s, EnsureBaseline(env))
  {
    PullingIsClean(c, s.register, env);
    if CountRead(c, s.register, env) == Some(0) {
      PublishIsCleanExactly(c, Pulled(s.register, c, env), env, MinimumSpares(c));
    }
  }

  /** A step leaves working copy and commit apart if and only if it writes a new count and cannot commit it. */
  lemma NextIsCleanExactly(c: Config, s: State, step: Step)
    requires c.repoConfigured && IsClean(s.register)
    ensures IsClean(Next(c, s, step).register) <==> !LeavesUncommitted(c, s, step)
  {
    match step
    case Join(node) =>
    case SyncInventory(env, listing) =>
    case EnsureBaseline(env) => BaselineIsCleanExactly(c, s, env);
    case ScaleOut(env) => ScaleOutIsCleanExactly(c, s, env);
    case ScaleIn(env, listing, now) => ScaleInIsCleanExactly(c, s, env, listing, now);
    case TickWaiter(env, pods, now, name) =>
    case AutoEvaluate(env, listing, now) =>
  }

  ghost function CleanAt(c: Config, s: State, steps: seq<Step>): nat -> bool {
    (m: nat) => m <= |steps| && IsClean(StateAt(c, s, steps, m).register)
  }

  ghost function LeavesUncommittedAt(c: Config, s: State, steps: seq<Step>): nat -> bool {
    (i: nat) => i < |steps| && LeavesUncommitted(c, StateAt(c, s, steps, i), steps[i])
  }

  lemma StepIsCleanExactly(c: Config, s: State, steps: seq<Step>, i: nat)
    requires c.repoConfigured && i < |steps| && CleanAt(c, s, steps)(i)
    ensures CleanAt(c, s, steps)(i + 1) <==> !LeavesUncommittedAt(c, s, steps)(i)
  {
    NextIsCleanExactly(c, StateAt(c, s, steps, i), steps[i]);
  }

  lemma StartIsClean(c: Config, s: State, steps: seq<Step>)
    requires IsClean(s.register)
    ensures CleanAt(c, s, steps)(0)
  {}

  /** Working copy and commit agree throughout a run if and only if none of its steps leaves a count uncommitted. */
  lemma RunIsCleanExactly(c: Config, s: State, steps: seq<Step>, n: nat)
    requires c.repoConfigured && IsClean(s.register) && n <= |steps|
    ensures (forall m: nat :: m <= n ==> CleanAt(c, s, steps)(m))
       <==> (forall i: nat :: i < n ==> !LeavesUncommittedAt(c, s, steps)(i))
  {
    var good, harmful := CleanAt(c, s, steps), LeavesUncommittedAt(c, s, steps);
    StartIsClean(c, s, steps);
    forall i: nat | i < n ensures CarriesUnless(good, harmful, i) {
      if good(i) {
        StepIsCleanExactly(c, s, steps, i);
      }
    }
    KeptExactly(good, harmful, n);
  }

  /** A sync records the working copy; so what it records was committed if and only if the two agree then. */
  lemma SyncRecordsCommittedExactly(c: Config, s: State, steps: seq<Step>, i: nat)
    requires i < |steps| && steps[i].SyncInventory? && !InventorySyncFails(steps[i].env)
    ensures ReplicasOf(StateAt(c, s, steps, i + 1).stored) == StateAt(c, s, steps, i + 1).register.committed
       <==> CleanAt(c, s, steps)(i)
  {
    var before := StateAt(c, s, steps, i);
    assert StateAt(c, s, steps, i + 1) == InventorySynced(before, steps[i].env, steps[i].listing);
  }

  // ----- It does happen -----

  const NO_COMMIT := Env({Commit}, None)

  /** The baseline of an empty manifest cannot be committed: the sync that follows records a count nobody published. */
  lemma SyncRecordsUncommitted(c: Config)
    requires c.repoConfigured
    ensures var s := ONE_SPARE.(register := Register(0, 0));
            var t := Next(c, s, EnsureBaseline(NO_COMMIT));
            && IsClean(s.register) && LeavesUncommitted(c, s, EnsureBaseline(NO_COMMIT))
            && ReplicasOf(Next(c, t, SyncInventory(CALM, Listing([ONE_SPARE.nodes["a"]], []))).stored)
               == MinimumSpares(c)
            && t.register.committed == 0 < MinimumSpares(c)
  {}
}

/** What scale-out and scale-in do to the replica count in the manifest and in the inventory. */
module ReplicaAccounting {
  import opened Common
  import opened Quantities
  import opened Ordering
  import opened Inventory
  import opened InventorySelection
  import opened InventoryStore
  import opened NodeScaling
  import opened ScaleOutEffects
  import opened ScaleOutSelection

  /** Every call on the way to a published and recorded replica count works. */
  predicate ReachesManifest(c: Config, env: Env) {
    && ReadManifest !in env.failing && WriteManifest !in env.failing && UpdateReplicas !in env.failing
    && (c.repoConfigured ==> SyncRepo !in env.failing && Commit !in env.failing && Push !in env.failing)
  }

  /** The count found at the start: what a pull brings, if one is made and brings something, or else the working
      copy. */
  function CountFound(c: Config, r: Register, env: Env): int {
    if c.repoConfigured && env.pulled.Some? then env.pulled.value else r.local
  }

  function ReplicasOf(stored: Option<Stored>): int { if stored.Some? then stored.value.spec.replicas else 0 }

  // ----- The inventory follows the manifest -----

  /** The replica count in the inventory changes only together with the manifest, after write and push succeeded. */
  ghost predicate FollowsManifest(c: Config, env: Env, before: Option<Stored>, m: Manifest) {
    ReplicasOf(m.stored) != ReplicasOf(before) ==>
      && Published(c, env) && m.outcome == Done
      && m.register.local == ReplicasOf(m.stored)
      && (c.repoConfigured ==> m.register.committed == ReplicasOf(m.stored))
  }

  lemma ScaleOutFollowsManifest(c: Config, s: State, env: Env)
    requires s.stored.Some? && WellFormed(NodesOf(s.stored))
    ensures var t := ScaledOut(c, s, env);
            FollowsManifest(c, env, s.stored, Manifest(t.0.register, t.0.stored, t.1))
  {
    if GetInventory !in env.failing && !NothingToActivate(c, s) {
      if ActivateSelected(c, s, env).ok {
        ReplenishedFollowsManifest(c, s, env);
      } else {
        FailedScaleOutKeepsReplicas(c, s, env);
      }
    }
  }

  lemma ReplenishedFollowsManifest(c: Config, s: State, env: Env)
    requires s.stored.Some? && WellFormed(NodesOf(s.stored))
    requires GetInventory !in env.failing && !NothingToActivate(c, s) && ActivateSelected(c, s, env).ok
    ensures var t := ScaledOut(c, s, env);
            FollowsManifest(c, env, s.stored, Manifest(t.0.register, t.0.stored, t.1))
  {
    PoolEffect(c, s, env);
    var count := Replenished(c, s.stored.value.spec.replicas, |Spares(c, NodesOf(s.stored), s.waiters.Keys)|);
    ReplenishFollowsManifest(c, s.register, ActivateSelected(c, s, env).stored, env, count);
  }

  lemma ReplenishFollowsManifest(c: Config, r: Register, stored: Option<Stored>, env: Env, count: int)
    requires stored.Some?
    ensures FollowsManifest(c, env, stored, Replenish(c, r, stored, env, count))
  {}

  lemma FailedScaleOutKeepsReplicas(c: Config, s: State, env: Env)
    requires s.stored.Some? && WellFormed(NodesOf(s.stored))
    requires GetInventory !in env.failing && !ActivateSelected(c, s, env).ok
    ensures ReplicasOf(ScaledOut(c, s, env).0.stored) == ReplicasOf(s.stored)
  {
    var _ := ScaleOutFailurePrefix(c, s, env);
  }

  lemma ScaleInFollowsManifest(c: Config, s: State, env: Env, listing: Listing, now: int, request: Request)
    ensures var t := ScaledIn(c, s, env, listing, now, request);
            FollowsManifest(c, env, s.stored, Manifest(t.0.register, t.0.stored, t.1))
  {}

  // ----- What becomes of a new count -----

  /** Setting the count: nothing to do if it stands; otherwise every failing call leaves its own mark on the manifest,
      and only a published count is recorded in the inventory. */
  lemma SetReplicasIs(c: Config, r: Register, stored: Option<Stored>, env: Env, target: int)
    ensures var m := SetReplicas(c, r, stored, env, target);
            var published := Register(target, if c.repoConfigured then target else r.committed);
            if target == r.local then m == Manifest(r, stored, Done)
            else if WriteManifest in env.failing then m == Manifest(r, stored, Aborted)
            else if c.repoConfigured && Commit in env.failing
            then m == Manifest(Register(target, r.committed), stored, Aborted)
            else if c.repoConfigured && Push in env.failing
            then m == Manifest(Register(r.committed, r.committed), stored, Aborted)
            else if UpdateReplicas in env.failing || stored.None? then m == Manifest(published, stored, Aborted)
            else
              && m.register == published && m.outcome == Done && m.stored.Some?
              && m.stored.value.spec == Spec(target, NodesOf(stored))
              && m.stored.value.status == StatusOf(m.stored.value.spec)
  {}

  /** A manifest that cannot be pulled leaves everything as it is, without an error; one that cannot be read stops the
      removal of spares with an error and their replacement without. */
  lemma UnreachableManifest(c: Config, r: Register, stored: Option<Stored>, env: Env, count: int)
    ensures c.repoConfigured && SyncRepo in env.failing ==>
              && Replenish(c, r, stored, env, count) == Manifest(r, stored, Done)
              && RemoveExcess(c, r, stored, env, count) == Manifest(r, stored, Done)
    ensures !(c.repoConfigured && SyncRepo in env.failing) && ReadManifest in env.failing ==>
              var found := if c.repoConfigured && env.pulled.Some? then Register(env.pulled.value, env.pulled.value)
                           else r;
              && Replenish(c, r, stored, env, count) == Manifest(found, stored, Done)
              && RemoveExcess(c, r, stored, env, count) == Manifest(found, stored, Aborted)
  {}

  /** A manifest that can be reached is set to the count found and what is to be added, up to the cap, or less what is
      to be removed, down to zero. */
  lemma ReachableManifest(c: Config, r: Register, stored: Option<Stored>, env: Env, count: int)
    requires ReadManifest !in env.failing && (c.repoConfigured ==> SyncRepo !in env.failing)
    ensures var v := CountFound(c, r, env);
            var found := if c.repoConfigured && env.pulled.Some? then Register(v, v) else r;
            && Replenish(c, r, stored, env, count)
               == SetReplicas(c, found, stored, env, if c.maxNodes > 0 then Min(c.maxNodes, v + count) else v + count)
            && RemoveExcess(c, r, stored, env, count) == SetReplicas(c, found, stored, env, Max(0, v - count))
  {}

  /** With more unused nodes than prepared spares the scale-in removes the difference from the manifest and does nothing
      else, whatever fails. */
  lemma ExcessStep(c: Config, s: State, env: Env, listing: Listing, now: int, request: Request)
    requires s.stored.Some? && GetInventory !in env.failing && CountUnused(NodesOf(s.stored)) > Prepared(c)
    ensures var m := RemoveExcess(c, s.register, s.stored, env, CountUnused(NodesOf(s.stored)) - Prepared(c));
            ScaledIn(c, s, env, listing, now, request) == (s.(stored := m.stored, register := m.register), m.outcome)
  {}

  /** A scale-out that activated its nodes replaces the spares it took, as far as the cap lets the inventory's count
      grow, and answers as that goes. */
  lemma ReplenishStep(c: Config, s: State, env: Env)
    requires s.stored.Some? && GetInventory !in env.failing && !NothingToActivate(c, s)
    requires ActivateSelected(c, s, env).ok
    ensures var taken, known := |Spares(c, NodesOf(s.stored), s.waiters.Keys)|, s.stored.value.spec.replicas;
            var room := if c.maxNodes > 0 then Max(0, c.maxNodes - known) else taken;
            var m := Replenish(c, s.register, ActivateSelected(c, s, env).stored, env, Min(taken, room));
            var t := ScaledOut(c, s, env).0;
            t.register == m.register && t.stored == m.stored && ScaledOut(c, s, env).1 == m.outcome
  {}

  // ----- Scale-out -----

  /** The new count never falls below the manifest nor rises above the cap or the taken spares — unless the manifest
      is already above a positive cap, and exactly then the count is lowered, to the cap. */
  lemma ScaleOutReplicas(c: Config, s: State, env: Env)
    requires s.stored.Some? && WellFormed(NodesOf(s.stored)) && GetInventory !in env.failing
    requires !NothingToActivate(c, s) && ActivateSelected(c, s, env).ok && ReachesManifest(c, env)
    ensures var t, v := ScaledOut(c, s, env).0, CountFound(c, s.register, env);
            var taken := |Spares(c, NodesOf(s.stored), s.waiters.Keys)|;
            var after, overCap := t.register.local, c.maxNodes > 0 && v > c.maxNodes;
            var known := s.stored.value.spec.replicas;
            var room := if c.maxNodes > 0 then Max(0, c.maxNodes - known) else taken;
            && (after < v <==> overCap)
            && (overCap ==> after == c.maxNodes)
            && (!overCap ==> v <= after <= v + taken && (c.maxNodes > 0 ==> after <= c.maxNodes))
            && (!overCap ==> after == if c.maxNodes > 0 then Min(c.maxNodes, v + Min(taken, room)) else v + taken)
  {
    PoolEffect(c, s, env);
  }

  // ----- Scale-in -----

  /** The spares to keep prepared, as configured, or one if none are. */
  function Prepared(c: Config): int { if c.preparedSpares > 0 then c.preparedSpares else 1 }

  /** Removing excess spares touches no node, waiter or used flag. It keeps the prepared spares in the count exactly
      when the manifest holds at least the unused nodes, and a manifest in step with the inventory ends up with the
      used nodes plus the prepared spares. */
  lemma ExcessRemoval(c: Config, s: State, env: Env, listing: Listing, now: int, request: Request)
    requires s.stored.Some? && GetInventory !in env.failing && ReachesManifest(c, env)
    requires CountUnused(NodesOf(s.stored)) > Prepared(c)
    ensures var t := ScaledIn(c, s, env, listing, now, request).0;
            var v, nodes := CountFound(c, s.register, env), NodesOf(s.stored);
            var unused, spares, after := CountUnused(nodes), Prepared(c), t.register.local;
            && t.nodes == s.nodes && t.waiters == s.waiters && NodesOf(t.stored) == nodes
            && (after >= spares <==> v >= unused)
            && after == Max(0, v - unused + spares)
            && t.stored.value.spec.replicas == (if after == v then s.stored.value.spec.replicas else after)
            && (v == |nodes| ==> after == CountUsed(nodes) + spares)
  {
    CountsAddUp(NodesOf(s.stored));
  }

  /** Without excess a scale-in changes neither replica count nor any used flag, and starts waiters only. */
  lemma ReservationKeepsReplicas(c: Config, s: State, env: Env, listing: Listing, now: int, request: Request)
    requires s.stored.Some? && CountUnused(NodesOf(s.stored)) <= Prepared(c)
    ensures var t := ScaledIn(c, s, env, listing, now, request).0;
            && t.stored == s.stored && t.register == s.register && t.eligibleSince == s.eligibleSince
            && s.waiters.Keys <= t.waiters.Keys
  {
    ReserveAllKeepsWaiters(Reservations(s.nodes, s.waiters, true), ToReserve(c, NodesOf(s.stored), listing), env, now,
                           request);
  }

  lemma {:induction false} ReserveAllKeepsWaiters(r: Reservations, names: seq<string>, env: Env, now: int,
                                                  request: Request)
    ensures r.waiters.Keys <= ReserveAll(r, names, env, now, request).waiters.Keys
  {
    if |names| > 0 {
      ReserveAllKeepsWaiters(r, names[..|names| - 1], env, now, request);
    }
  }

  /** A second pass before the inventory is synced subtracts the same excess again: the spare floor survives two
      passes exactly when the manifest held twice the unused nodes less the floor. */
  lemma StaleSecondPass(c: Config, s: State, env: Env, again: Env, listing: Listing, now: int, request: Request)
    requires s.stored.Some? && CountUnused(NodesOf(s.stored)) > Prepared(c)
    requires GetInventory !in env.failing && ReachesManifest(c, env)
    requires GetInventory !in again.failing && ReachesManifest(c, again) && again.pulled == None
    ensures var once := ScaledIn(c, s, env, listing, now, request).0;
            var twice := ScaledIn(c, once, again, listing, now, request).0;
            var v, unused, spares := CountFound(c, s.register, env), CountUnused(NodesOf(s.stored)), Prepared(c);
            && twice.register.local == Max(0, once.register.local - (unused - spares))
            && (twice.register.local >= spares <==> v >= 2 * unused - spares)
  {
    ExcessRemoval(c, s, env, listing, now, request);
  }

  /** The baseline leaves a manifest alone that cannot be pulled or read or that holds a count; a zero count is set
      to the prepared spares. */
  lemma BaselineDoes(c: Config, r: Register, env: Env)
    ensures var v := CountFound(c, r, env);
            var found := if c.repoConfigured && env.pulled.Some? then Register(v, v) else r;
            Baselined(c, r, env) ==
              if c.repoConfigured && SyncRepo in env.failing then r
              else if ReadManifest in env.failing || v != 0 then found
              else SetReplicas(c, found, None, env, Prepared(c)).register
  {}

  /** The baseline turns a zero count into the prepared spares and leaves every other count alone; it does not look
      at the cap, and exceeds it exactly when the spares or the count already do. */
  lemma BaselineIgnoresCap(c: Config, r: Register, env: Env)
    requires ReachesManifest(c, env)
    ensures var v, after := CountFound(c, r, env), Baselined(c, r, env).local;
            && after == (if v == 0 then Prepared(c) else v)
            && (c.maxNodes > 0 ==>
                  (after > c.maxNodes <==> (v == 0 && Prepared(c) > c.maxNodes) || v > c.maxNodes))
  {}

  // ----- After a sync -----

  /** The observed scaling nodes that the inventory does not hold as used. */
  function ObservedUnused(stored: Option<Stored>, listing: Listing): set<string> {
    set n | n in ScalingNames(listing.nodes) && n != "" && !HoldsUsed(NodesOf(stored), n)
  }

  predicate HoldsUsed(nodes: seq<InventoryNode>, name: string) { exists n :: n in nodes && n.name == name && n.used }

  lemma KeptUsed(before: seq<InventoryNode>, after: seq<InventoryNode>, name: string)
    requires WellFormed(after) && forall n :: n in before && n.name == name ==> n in after
    ensures HoldsUsed(before, name) ==> forall n :: n in after && n.name == name ==> n.used
  {
    if HoldsUsed(before, name) {
      var m :| m in before && m.name == name && m.used;
      forall n | n in after && n.name == name ensures n.used {
        SameName(after, m, n);
      }
    }
  }

  lemma SyncedUnused(stored: Option<Stored>, replicas: int, listing: Listing)
    requires stored.Some? ==> WellFormed(stored.value.spec.nodes)
    ensures UnusedNames(Synced(stored, replicas, Sort(ScalingNames(listing.nodes), Less)).nodes)
            == ObservedUnused(stored, listing)
  {
    var observed := ScalingNames(listing.nodes);
    SortHas(observed, Less);
    BuiltUnused(if stored.Some? then stored.value.spec else Spec(0, []), replicas, Sort(observed, Less));
  }

  /** Unused in a rebuilt inventory is what is observed and was not held as used. */
  lemma BuiltUnused(existing: Spec, replicas: int, names: seq<string>)
    requires WellFormed(existing.nodes)
    ensures forall name :: name in UnusedNames(Built(existing, replicas, names).nodes)
                      <==> name in names && name != "" && !HoldsUsed(existing.nodes, name)
  {
    var nodes := Built(existing, replicas, names).nodes;
    BuiltHas(existing, replicas, names);
    BuiltIsWellFormed(existing, replicas, names);
    forall name
      ensures name in UnusedNames(nodes) <==> name in names && name != "" && !HoldsUsed(existing.nodes, name)
    {
      if name in UnusedNames(nodes) {
        var n :| n in nodes && !n.used && n.name == name;
        assert Named(nodes, name);
        KeptUsed(existing.nodes, nodes, name);
      }
      if name in names && name != "" && !HoldsUsed(existing.nodes, name) {
        assert Named(nodes, name);
        var n :| n in nodes && n.name == name;
        assert n in existing.nodes ==> !n.used;
      }
    }
  }

  /** Once the excess spares are gone and the inventory has been synced, removing excess again changes nothing. */
  lemma SettledPassRemovesNothing(c: Config, s: State, sync: Env, env: Env, listing: Listing, later: Listing, now: int,
                                  request: Request)
    requires s.stored.Some? ==> WellFormed(s.stored.value.spec.nodes)
    requires !InventorySyncFails(sync) && |ObservedUnused(s.stored, listing)| <= Prepared(c)
    ensures var synced := InventorySynced(s, sync, listing);
            var t := ScaledIn(c, synced, env, later, now, request).0;
            t.register == synced.register && t.stored == synced.stored
  {
    var synced, names := InventorySynced(s, sync, listing), Sort(ScalingNames(listing.nodes), Less);
    SyncedUnused(s.stored, s.register.local, listing);
    BuiltIsWellFormed(if s.stored.Some? then s.stored.value.spec else Spec(0, []), s.register.local, names);
    NamesOfFlagCount(NodesOf(synced.stored));
    ReservationKeepsReplicas(c, synced, env, later, now, request);
  }
}

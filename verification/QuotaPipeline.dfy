/** From stored limits, usage, policies and pending pod demand to the desired quota. */
module QuotaPipeline {
  import opened Common
  import opened Quantities
  import opened ResourceQuotas
  import opened ScalerPolicies
  import opened PodDemand

  datatype Scaler = Scaler(bounds: Bounds, downs: seq<Policy>, ups: seq<Policy>)

  /** `used` and `statusHard` are the two lists of the quota status; either is absent until it has been reported. */
  datatype Quota = Quota(hard: ResourceList, used: Option<ResourceList>, statusHard: Option<ResourceList>)

  predicate IsReported(quota: Quota) { quota.used.Some? && quota.statusHard.Some? }

  const STORAGE := "requests.storage"
  const MILLI_PER_GIGA := 1_000_000_000_000

  function StorageOf(hard: ResourceList): int { -((-Lookup(hard, STORAGE)) / MILLI_PER_GIGA) }

  function ApplyPolicies(pct: Rounding, bounds: Bounds, policies: seq<Policy>, hard: ResourceList, used: ResourceList,
                         scaleUp: bool, start: Amounts): Amounts
  {
    if |policies| == 0 then start
    else
      var before := ApplyPolicies(pct, bounds, policies[..|policies| - 1], hard, used, scaleUp, start);
      Replaced(before, Activated(pct, bounds, policies[|policies| - 1], hard, used, scaleUp))
  }

  function Scaled(pct: Rounding, scaler: Scaler, hard: ResourceList, used: ResourceList): Amounts {
    var down := ApplyPolicies(pct, scaler.bounds, scaler.downs, hard, used, false, Read(hard));
    ApplyPolicies(pct, scaler.bounds, scaler.ups, hard, used, true, down)
  }

  /** The quota that would hold current usage and the pending demand. */
  function Demanded(used: ResourceList, demand: Demand): Amounts {
    Amounts(ValueOf(used, LimitsCpu) + demand.quota.cpu, ValueOf(used, LimitsMemory) + demand.quota.memory,
            ValueOf(used, RequestsCpu) + demand.requests.cpu, ValueOf(used, RequestsMemory) + demand.requests.memory, 0)
  }

  function WithDemand(a: Amounts, used: ResourceList, demand: Option<Demand>): Amounts {
    if demand.Some? && !demand.value.quota.IsEmpty() then
      var limits := Plus(Amounts(ValueOf(used, LimitsCpu), ValueOf(used, LimitsMemory), 0, 0, 0), demand.value.quota);
      var requests := Amounts(0, 0, ValueOf(used, RequestsCpu) + demand.value.requests.cpu,
                              ValueOf(used, RequestsMemory) + demand.value.requests.memory, 0);
      Raised(Raised(a, limits), requests)
    else
      a
  }

  function Lows(b: Bounds): Amounts { Amounts(b.minCpu, b.minMemory, b.minCpu, b.minMemory, 0) }

  function Highs(b: Bounds): Amounts { Amounts(b.maxCpu, b.maxMemory, b.maxCpu, b.maxMemory, 0) }

  function Bounded(a: Amounts, b: Bounds): Amounts {
    LiftedLimits(Limited(Raised(a, Lows(b)), Highs(b)))
  }

  function Desired(pct: Rounding, scaler: Scaler, hard: ResourceList, used: ResourceList,
                   demand: Option<Demand>): Amounts
  {
    var wanted := Bounded(WithDemand(Scaled(pct, scaler, hard, used), used, demand), scaler.bounds);
    NeverMixed(wanted.(storage := StorageOf(hard)), Read(hard))
  }

  method BoundQuotaResources(desired: Resources, bounds: Bounds)
    modifies desired
    ensures desired.Value() == Bounded(old(desired.Value()), bounds)
  {
    desired.Raise(Lows(bounds));
    desired.Limit(Highs(bounds));
    desired.EnsureRequestsFitLimits();
  }

  method RunPolicies(pct: Rounding, bounds: Bounds, policies: seq<Policy>, hard: ResourceList, used: ResourceList,
                     scaleUp: bool, desired: Resources)
    modifies desired
    ensures desired.Value() == ApplyPolicies(pct, bounds, policies, hard, used, scaleUp, old(desired.Value()))
  {
    for i := 0 to |policies|
      invariant desired.Value() == ApplyPolicies(pct, bounds, policies[..i], hard, used, scaleUp, old(desired.Value()))
    {
      var activated := ActivateScalerPolicy(pct, bounds, policies[i], hard, used, scaleUp);
      desired.Replace(activated);
      assert policies[..i + 1][..i] == policies[..i];
    }
    assert policies[..|policies|] == policies;
  }

  method AddDemand(used: ResourceList, demand: Option<Demand>, desired: Resources)
    modifies desired
    ensures desired.Value() == WithDemand(old(desired.Value()), used, demand)
  {
    if demand.Some? && !demand.value.quota.IsEmpty() {
      var limits := new Resources(Amounts(ValueOf(used, LimitsCpu), ValueOf(used, LimitsMemory), 0, 0, 0));
      var sum := new Resources(demand.value.quota);
      limits.Add(sum);
      desired.Raise(limits.Value());
      desired.Raise(Amounts(0, 0, ValueOf(used, RequestsCpu) + demand.value.requests.cpu,
                            ValueOf(used, RequestsMemory) + demand.value.requests.memory, 0));
    }
  }

  /** The computation of one reconcile, in place on one `Resources` object. */
  method ComputeDesired(pct: Rounding, scaler: Scaler, quota: Quota, demand: Option<Demand>)
    returns (r: Result<Amounts>)
    ensures r.Failure? <==> !IsReported(quota)
    ensures r.Success? ==> r.value == Desired(pct, scaler, quota.hard, quota.used.value, demand)
  {
    var desired := new Resources(Read(quota.hard));
    if quota.used.None? || quota.statusHard.None? {
      return Failure("quota status is nil");
    }
    var used := quota.used.value;
    RunPolicies(pct, scaler.bounds, scaler.downs, quota.hard, used, false, desired);
    RunPolicies(pct, scaler.bounds, scaler.ups, quota.hard, used, true, desired);
    AddDemand(used, demand, desired);
    BoundQuotaResources(desired, scaler.bounds);
    desired.storage := StorageOf(quota.hard);
    desired.ForceNoScaleDownWhenScaleUp(Read(quota.hard));
    r := Success(desired.Value());
  }

  ghost predicate Ordered(b: Bounds) { b.minCpu <= b.maxCpu && b.minMemory <= b.maxMemory }

  /** Within bounds, with requests no larger than limits. */
  ghost predicate WellSized(a: Amounts, b: Bounds) {
    && (forall d: Dim :: b.Low(d) <= a.At(d) <= b.High(d))
    && a.At(RequestsCpu) <= a.At(LimitsCpu) && a.At(RequestsMemory) <= a.At(LimitsMemory)
  }

  lemma BoundedIsWellSized(a: Amounts, b: Bounds)
    requires Ordered(b)
    ensures WellSized(Bounded(a, b), b)
  {}

  /** The desired quota grows everywhere or shrinks everywhere; it is never a mixture. */
  lemma DesiredIsNeverMixed(pct: Rounding, scaler: Scaler, hard: ResourceList, used: ResourceList,
                            demand: Option<Demand>)
    ensures var desired := Desired(pct, scaler, hard, used, demand);
            AtLeast(desired, Read(hard)) || AtLeast(Read(hard), desired)
  {
    var wanted := Bounded(WithDemand(Scaled(pct, scaler, hard, used), used, demand), scaler.bounds);
    NeverMixedIsOrdered(wanted.(storage := StorageOf(hard)), Read(hard));
  }

  /** A well-sized quota stays well sized, whatever policies and demand do. */
  lemma DesiredStaysWellSized(pct: Rounding, scaler: Scaler, hard: ResourceList, used: ResourceList,
                              demand: Option<Demand>)
    requires Ordered(scaler.bounds)
    requires WellSized(Read(hard), scaler.bounds)
    ensures WellSized(Desired(pct, scaler, hard, used, demand), scaler.bounds)
  {
    var b := scaler.bounds;
    var wanted := Bounded(WithDemand(Scaled(pct, scaler, hard, used), used, demand), b);
    BoundedIsWellSized(WithDemand(Scaled(pct, scaler, hard, used), used, demand), b);
    RaisingKeepsWellSized(wanted.(storage := StorageOf(hard)), Read(hard), b);
  }

  lemma RaisingKeepsWellSized(a: Amounts, c: Amounts, b: Bounds)
    requires WellSized(a, b) && WellSized(c, b)
    ensures WellSized(Raised(a, c), b)
  {
    var m := Raised(a, c);
    forall d: Dim ensures b.Low(d) <= m.At(d) <= b.High(d) {
      assert b.Low(d) <= a.At(d) <= b.High(d) && b.Low(d) <= c.At(d) <= b.High(d);
      assert m.At(d) == Max(a.At(d), c.At(d));
    }
  }

  ghost predicate AimsAtMostFull(policies: seq<Policy>) {
    forall p :: p in policies ==> p.Aim() <= 100
  }

  function UseFloor(b: Bounds, used: ResourceList, d: Dim): int { Min(ValueOf(used, d), b.High(d)) }

  lemma {:induction false} PoliciesCoverUse(pct: Rounding, bounds: Bounds, policies: seq<Policy>, hard: ResourceList,
                                            used: ResourceList, scaleUp: bool, start: Amounts, d: Dim, floor: int)
    requires AimsAtMostFull(policies)
    requires ValueOf(used, d) >= 0
    requires start.At(d) >= floor && floor <= UseFloor(bounds, used, d)
    ensures ApplyPolicies(pct, bounds, policies, hard, used, scaleUp, start).At(d) >= floor
  {
    if |policies| > 0 {
      var last := policies[|policies| - 1];
      PoliciesCoverUse(pct, bounds, policies[..|policies| - 1], hard, used, scaleUp, start, d, floor);
      TargetCoversUse(pct, bounds, last, hard, used, d, scaleUp);
      assert last in policies;
    }
  }

  /** Scaling down never cuts below what is in use (or below the maximum, when more than that is in use). */
  lemma ShrinkingCoversUse(pct: Rounding, scaler: Scaler, hard: ResourceList, used: ResourceList,
                           demand: Option<Demand>, d: Dim)
    requires AimsAtMostFull(scaler.downs) && AimsAtMostFull(scaler.ups)
    requires ValueOf(used, d) >= 0
    ensures var desired := Desired(pct, scaler, hard, used, demand);
            desired.At(d) < Read(hard).At(d) ==> desired.At(d) >= Min(ValueOf(used, d), scaler.bounds.High(d))
  {
    var floor := Min(Read(hard).At(d), UseFloor(scaler.bounds, used, d));
    var down := ApplyPolicies(pct, scaler.bounds, scaler.downs, hard, used, false, Read(hard));
    PoliciesCoverUse(pct, scaler.bounds, scaler.downs, hard, used, false, Read(hard), d, floor);
    PoliciesCoverUse(pct, scaler.bounds, scaler.ups, hard, used, true, down, d, floor);
    var scaled := Scaled(pct, scaler, hard, used);
    var wanted := Bounded(WithDemand(scaled, used, demand), scaler.bounds).(storage := StorageOf(hard));
    assert wanted.At(d) >= floor;
    NeverMixedIsOrdered(wanted, Read(hard));
  }

  /** With pending pods every dimension makes room for current usage plus their demand, up to the maximum. */
  lemma DemandIsCovered(pct: Rounding, scaler: Scaler, hard: ResourceList, used: ResourceList, demand: Demand, d: Dim)
    requires !demand.quota.IsEmpty()
    ensures Desired(pct, scaler, hard, used, Some(demand)).At(d)
            >= Min(scaler.bounds.High(d), Demanded(used, demand).At(d))
  {
    var wanted := Bounded(WithDemand(Scaled(pct, scaler, hard, used), used, Some(demand)),
                          scaler.bounds).(storage := StorageOf(hard));
    assert wanted.At(d) >= Min(scaler.bounds.High(d), Demanded(used, demand).At(d));
    NeverMixedIsOrdered(wanted, Read(hard));
  }
}

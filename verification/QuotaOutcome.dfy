/** The desired quota, value by value, in terms of the policies in effect, the demand, the bounds and the stored
    values. */
module QuotaOutcome {
  import opened Common
  import opened Quantities
  import opened ResourceQuotas
  import opened ScalerPolicies
  import opened PodDemand
  import opened QuotaPipeline

  // ----- Several policies -----

  ghost predicate Silent(pct: Rounding, b: Bounds, policies: seq<Policy>, hard: ResourceList, used: ResourceList,
                         scaleUp: bool, d: Dim, start: nat)
  {
    forall j :: start <= j < |policies| ==> DimTarget(pct, b, policies[j], hard, used, d, scaleUp) == 0
  }

  /** The outcome of a list of policies for one value: the last policy that asks for something decides. */
  ghost predicate LastDecides(pct: Rounding, b: Bounds, policies: seq<Policy>, hard: ResourceList, used: ResourceList,
                              scaleUp: bool, d: Dim, before: int, after: int)
  {
    if Silent(pct, b, policies, hard, used, scaleUp, d, 0) then after == before
    else exists i: nat ::
           && i < |policies| && Silent(pct, b, policies, hard, used, scaleUp, d, i + 1)
           && after == DimTarget(pct, b, policies[i], hard, used, d, scaleUp) != 0
  }

  lemma {:induction false} LastInEffectWins(pct: Rounding, b: Bounds, policies: seq<Policy>, hard: ResourceList,
                                            used: ResourceList, scaleUp: bool, start: Amounts, d: Dim)
    ensures LastDecides(pct, b, policies, hard, used, scaleUp, d, start.At(d),
                        ApplyPolicies(pct, b, policies, hard, used, scaleUp, start).At(d))
  {
    if |policies| > 0 {
      var front, last := policies[..|policies| - 1], policies[|policies| - 1];
      var target := DimTarget(pct, b, last, hard, used, d, scaleUp);
      LastInEffectWins(pct, b, front, hard, used, scaleUp, start, d);
      assert ApplyPolicies(pct, b, policies, hard, used, scaleUp, start).At(d)
             == Or(ApplyPolicies(pct, b, front, hard, used, scaleUp, start).At(d), target);
      if target != 0 {
        assert Silent(pct, b, policies, hard, used, scaleUp, d, |front| + 1);
        assert policies[|front|] == last;
      } else {
        SilentFront(pct, b, policies, hard, used, scaleUp, d);
      }
    }
  }

  lemma SilentFront(pct: Rounding, b: Bounds, policies: seq<Policy>, hard: ResourceList, used: ResourceList,
                    scaleUp: bool,
                    d: Dim)
    requires |policies| > 0 && DimTarget(pct, b, policies[|policies| - 1], hard, used, d, scaleUp) == 0
    ensures forall i: nat :: i < |policies| ==>
              (Silent(pct, b, policies[..|policies| - 1], hard, used, scaleUp, d, i)
               <==> Silent(pct, b, policies, hard, used, scaleUp, d, i))
  {
    var front := policies[..|policies| - 1];
    forall i: nat | i < |policies|
      ensures Silent(pct, b, front, hard, used, scaleUp, d, i) <==> Silent(pct, b, policies, hard, used, scaleUp, d, i)
    {
      assert forall j :: 0 <= j < |front| ==> front[j] == policies[j];
    }
  }

  // ----- The whole pipeline -----

  /** One value after the policies: the down policies start from the stored value, the up policies from what they
      leave. */
  ghost predicate Scales(pct: Rounding, s: Scaler, hard: ResourceList, used: ResourceList, d: Dim, value: int) {
    exists down: int ::
      && LastDecides(pct, s.bounds, s.downs, hard, used, false, d, ValueOf(hard, d), down)
      && LastDecides(pct, s.bounds, s.ups, hard, used, true, d, down, value)
  }

  lemma ScaledScales(pct: Rounding, s: Scaler, hard: ResourceList, used: ResourceList, d: Dim)
    ensures Scales(pct, s, hard, used, d, Scaled(pct, s, hard, used).At(d))
  {
    var down := ApplyPolicies(pct, s.bounds, s.downs, hard, used, false, Read(hard));
    LastInEffectWins(pct, s.bounds, s.downs, hard, used, false, Read(hard), d);
    LastInEffectWins(pct, s.bounds, s.ups, hard, used, true, down, d);
    assert Read(hard).At(d) == ValueOf(hard, d);
  }

  function Larger(x: int, y: int): int { if x < y then y else x }

  function Smaller(x: int, y: int): int { if x < y then x else y }

  /** What the pending pods need of one value on top of what is used; nothing if their quota demand is empty. */
  function Needed(used: ResourceList, demand: Option<Demand>, d: Dim): Option<int> {
    if demand.None? then None
    else
      var quota, requests := demand.value.quota, demand.value.requests;
      if quota.cpu == 0 && quota.memory == 0 && quota.requestsCpu == 0 && quota.requestsMemory == 0 then None
      else
        match d
        case LimitsCpu => Some(ValueOf(used, d) + quota.cpu)
        case LimitsMemory => Some(ValueOf(used, d) + quota.memory)
        case RequestsCpu => Some(ValueOf(used, d) + requests.cpu)
        case RequestsMemory => Some(ValueOf(used, d) + requests.memory)
  }

  /** One value with the demand, within the bounds. */
  function Fitted(b: Bounds, needed: Option<int>, value: int, d: Dim): int {
    var low, high := if IsCpu(d) then b.minCpu else b.minMemory, if IsCpu(d) then b.maxCpu else b.maxMemory;
    Smaller(high, Larger(low, if needed.Some? then Larger(value, needed.value) else value))
  }

  /** The quota demand of events has amounts for CPU and memory only. */
  ghost predicate IsDemand(demand: Option<Demand>) {
    demand.Some? ==> demand.value.quota.requestsCpu == 0 && demand.value.quota.requestsMemory == 0
  }

  lemma DemandIsAdded(a: Amounts, used: ResourceList, demand: Option<Demand>, b: Bounds, d: Dim)
    requires IsDemand(demand) && 0 <= b.Low(d)
    ensures Limited(Raised(WithDemand(a, used, demand), Lows(b)), Highs(b)).At(d)
            == Fitted(b, Needed(used, demand, d), a.At(d), d)
  {}

  /** The four desired values. Every value is what the policies make of the stored one, raised to the need of pending
      pods and held within the bounds; a limit is lifted to its request; and if some value exceeds the stored one, none
      goes below it. */
  lemma DesiredIs(pct: Rounding, s: Scaler, hard: ResourceList, used: ResourceList, demand: Option<Demand>)
    returns (cpu: int, memory: int, requestsCpu: int, requestsMemory: int)
    requires IsDemand(demand) && s.bounds.minCpu >= 0 && s.bounds.minMemory >= 0
    ensures Scales(pct, s, hard, used, LimitsCpu, cpu) && Scales(pct, s, hard, used, RequestsCpu, requestsCpu)
    ensures Scales(pct, s, hard, used, LimitsMemory, memory)
            && Scales(pct, s, hard, used, RequestsMemory, requestsMemory)
    ensures var rc := Fitted(s.bounds, Needed(used, demand, RequestsCpu), requestsCpu, RequestsCpu);
            var rm := Fitted(s.bounds, Needed(used, demand, RequestsMemory), requestsMemory, RequestsMemory);
            var lc := Larger(rc, Fitted(s.bounds, Needed(used, demand, LimitsCpu), cpu, LimitsCpu));
            var lm := Larger(rm, Fitted(s.bounds, Needed(used, demand, LimitsMemory), memory, LimitsMemory));
            var hc, hm := ValueOf(hard, LimitsCpu), ValueOf(hard, LimitsMemory);
            var hrc, hrm := ValueOf(hard, RequestsCpu), ValueOf(hard, RequestsMemory);
            Desired(pct, s, hard, used, demand).(storage := 0) ==
              if lc > hc || lm > hm || rc > hrc || rm > hrm
              then Amounts(Larger(lc, hc), Larger(lm, hm), Larger(rc, hrc), Larger(rm, hrm), 0)
              else Amounts(lc, lm, rc, rm, 0)
  {
    var scaled := Scaled(pct, s, hard, used);
    cpu, memory, requestsCpu, requestsMemory := scaled.cpu, scaled.memory, scaled.requestsCpu, scaled.requestsMemory;
    ScaledScales(pct, s, hard, used, LimitsCpu);
    ScaledScales(pct, s, hard, used, LimitsMemory);
    ScaledScales(pct, s, hard, used, RequestsCpu);
    ScaledScales(pct, s, hard, used, RequestsMemory);
    DemandIsAdded(scaled, used, demand, s.bounds, LimitsCpu);
    DemandIsAdded(scaled, used, demand, s.bounds, LimitsMemory);
    DemandIsAdded(scaled, used, demand, s.bounds, RequestsCpu);
    DemandIsAdded(scaled, used, demand, s.bounds, RequestsMemory);
  }

  /** Storage is carried over, rounded up to the next thousand million bytes. */
  lemma StorageIsCarried(pct: Rounding, s: Scaler, hard: ResourceList, used: ResourceList, demand: Option<Demand>)
    ensures var q := if "requests.storage" in hard then hard["requests.storage"] else 0;
            q <= Desired(pct, s, hard, used, demand).storage * 1_000_000_000_000 < q + 1_000_000_000_000
  {}

  // ----- An example -----

  const UP_AT_70_TO_50 := Scaler(Bounds(100, 10000, 100, 10000), [], [Policy(CpuMethod, 70, 50)])
  const HARD_1000: ResourceList := map["limits.cpu" := 1000, "requests.cpu" := 1000]
  const USED_800: ResourceList := map["limits.cpu" := 800, "requests.cpu" := 800]

  lemma ExampleValues(d: Dim)
    ensures ValueOf(HARD_1000, d) == if IsCpu(d) then 1000 else 0
    ensures ValueOf(USED_800, d) == if IsCpu(d) then 800 else 0
  {
    KeysDiffer();
  }

  lemma ExampleTarget(pct: Rounding, d: Dim)
    requires IsPercentage(pct)
    ensures DimTarget(pct, UP_AT_70_TO_50.bounds, UP_AT_70_TO_50.ups[0], HARD_1000, USED_800, d, true)
            == if IsCpu(d) then 1600 else 0
  {
    var b, policy := UP_AT_70_TO_50.bounds, UP_AT_70_TO_50.ups[0];
    ExampleValues(d);
    if IsCpu(d) {
      UpPolicyAsks(pct, b, policy, HARD_1000, USED_800, d);
      assert 100 * 800 - 1000 <= pct(800, 1000) * 1000;
    } else {
      OtherResourceIsLeft(pct, b, policy, HARD_1000, USED_800, d, true);
    }
  }

  /** With 800 of 1000 used and a policy that scales up above 70 percent to a use of 50, the quota becomes 1600. */
  lemma ScaledUpTo1600(pct: Rounding)
    requires IsPercentage(pct)
    ensures Desired(pct, UP_AT_70_TO_50, HARD_1000, USED_800, None) == Amounts(1600, 100, 1600, 100, 0)
  {
    var s := UP_AT_70_TO_50;
    forall d: Dim ensures Scaled(pct, s, HARD_1000, USED_800).At(d) == if IsCpu(d) then 1600 else 0 {
      ExampleValues(d);
      ExampleTarget(pct, d);
      assert s.ups[..0] == [];
      assert ApplyPolicies(pct, s.bounds, s.ups[..0], HARD_1000, USED_800, true, Read(HARD_1000)) == Read(HARD_1000);
    }
    var scaled := Scaled(pct, s, HARD_1000, USED_800);
    assert scaled.At(LimitsCpu) == 1600 && scaled.At(RequestsCpu) == 1600;
    assert scaled.At(LimitsMemory) == 0 && scaled.At(RequestsMemory) == 0;
    ExampleValues(LimitsCpu);
    ExampleValues(LimitsMemory);
    ExampleValues(RequestsCpu);
    ExampleValues(RequestsMemory);
    assert |STORAGE| == 16 && |LIMITS_CPU| == 10 && |REQUESTS_CPU| == 12;
    assert StorageOf(HARD_1000) == 0;
  }
}

/** Percentage policies: when one is in effect for a quota dimension, and the target it asks for. */
module ScalerPolicies {
  import opened Quantities
  import opened ResourceQuotas

  datatype Method = CpuMethod | MemoryMethod | UnknownMethod

  datatype Policy = Policy(scales: Method, threshold: int, target: int) {
    /** A target utilisation of zero stands for the threshold. */
    function Aim(): int { if target == 0 then threshold else target }
  }

  datatype Bounds = Bounds(minCpu: int, maxCpu: int, minMemory: int, maxMemory: int) {
    function Low(d: Dim): int { if IsCpu(d) then minCpu else minMemory }

    function High(d: Dim): int { if IsCpu(d) then maxCpu else maxMemory }
  }

  /** The rounded usage percentage is computed in floating point, with two roundings: the result may fall
      one short of an exact quotient (29 of 100 gives 28). Any function within these limits will do. */
  type Rounding = (int, int) -> int

  ghost predicate IsPercentage(pct: Rounding) {
    forall used: int, hard: int :: used >= 0 && hard > 0 ==>
      0 <= pct(used, hard) && 100 * used - hard <= pct(used, hard) * hard <= 100 * used
  }

  function Usage(pct: Rounding, used: int, hard: int): int {
    if hard != 0 then pct(used, hard) else 0
  }

  datatype ActivePolicy = ActivePolicy(currentMaximum: int, usagePercentage: int, threshold: int,
                                       aim: int, quotaLimit: int, used: int)

  function MethodOf(d: Dim): Method { if IsCpu(d) then CpuMethod else MemoryMethod }

  /** An unknown method reads nothing: its maximum, usage and limit stay zero. */
  function ToActivePolicy(pct: Rounding, bounds: Bounds, policy: Policy, hard: ResourceList, used: ResourceList,
                          d: Dim, scaleUp: bool): ActivePolicy
  {
    var known := policy.scales != UnknownMethod;
    var maximum := if known then ValueOf(hard, d) else 0;
    var u := if known then ValueOf(used, d) else 0;
    var limit := if !known then 0 else if scaleUp then bounds.High(d) else bounds.Low(d);
    ActivePolicy(maximum, Usage(pct, u, maximum), policy.threshold, policy.Aim(), limit, u)
  }

  /** Conversion to an integer truncates toward zero. */
  function Truncated(n: int, m: int): int
    requires m > 0
  {
    if n >= 0 then n / m else -((-n) / m)
  }

  function TargetFor(active: ActivePolicy): int
    requires active.aim > 0
  {
    Truncated(active.used * 100, active.aim)
  }

  /** Zero means that the policy is not in effect. */
  function ActivatePolicy(active: ActivePolicy, scaleUp: bool): int {
    if active.aim <= 0 then 0
    else if active.threshold == 100 then
      if !scaleUp && active.used != active.currentMaximum then Max(active.used, active.quotaLimit) else 0
    else if scaleUp && active.usagePercentage > active.threshold then Min(TargetFor(active), active.quotaLimit)
    else if !scaleUp && active.usagePercentage < active.threshold then Max(TargetFor(active), active.quotaLimit)
    else 0
  }

  /** The dimensions a policy evaluates: its own method's, and the CPU ones for an unknown method. */
  predicate Evaluates(policy: Policy, d: Dim) {
    IsCpu(d) <==> policy.scales != MemoryMethod
  }

  function DimTarget(pct: Rounding, bounds: Bounds, policy: Policy, hard: ResourceList, used: ResourceList,
                     d: Dim, scaleUp: bool): int
  {
    if Evaluates(policy, d) then
      ActivatePolicy(ToActivePolicy(pct, bounds, policy, hard, used, d, scaleUp), scaleUp)
    else
      0
  }

  function Activated(pct: Rounding, bounds: Bounds, policy: Policy, hard: ResourceList, used: ResourceList,
                     scaleUp: bool): Amounts
  {
    Amounts(DimTarget(pct, bounds, policy, hard, used, LimitsCpu, scaleUp),
            DimTarget(pct, bounds, policy, hard, used, LimitsMemory, scaleUp),
            DimTarget(pct, bounds, policy, hard, used, RequestsCpu, scaleUp),
            DimTarget(pct, bounds, policy, hard, used, RequestsMemory, scaleUp), 0)
  }

  function With(a: Amounts, d: Dim, target: int): Amounts {
    match d
    case RequestsCpu => a.(requestsCpu := target)
    case LimitsCpu => a.(cpu := target)
    case RequestsMemory => a.(requestsMemory := target)
    case LimitsMemory => a.(memory := target)
  }

  method Assign(desired: Resources, d: Dim, target: int)
    modifies desired
    ensures desired.Value() == With(old(desired.Value()), d, target)
  {
    match d
    case RequestsCpu => desired.requestsCpu := target;
    case LimitsCpu => desired.cpu := target;
    case RequestsMemory => desired.requestsMemory := target;
    case LimitsMemory => desired.memory := target;
  }

  /** The amounts after the first `n` of the named values. */
  function Filled(target: Dim -> int, names: seq<Dim>, n: nat): Amounts
    requires n <= |names|
  {
    if n == 0 then NOTHING
    else
      var before := Filled(target, names, n - 1);
      if target(names[n - 1]) != 0 then With(before, names[n - 1], target(names[n - 1])) else before
  }

  function Targets(pct: Rounding, bounds: Bounds, policy: Policy, hard: ResourceList, used: ResourceList,
                   scaleUp: bool): Dim -> int
  {
    (d: Dim) => ActivatePolicy(ToActivePolicy(pct, bounds, policy, hard, used, d, scaleUp), scaleUp)
  }

  lemma FilledOfTwo(target: Dim -> int, first: Dim, second: Dim)
    requires first != second
    ensures forall d: Dim ::
              Filled(target, [first, second], 2).At(d) == if d == first || d == second then target(d) else 0
    ensures Filled(target, [first, second], 2).storage == 0
  {
    var names := [first, second];
    assert Filled(target, names, 0) == NOTHING;
    assert Filled(target, names, 1) == if target(first) != 0 then With(NOTHING, first, target(first)) else NOTHING;
  }

  method ActivateScalerPolicy(pct: Rounding, bounds: Bounds, policy: Policy, hard: ResourceList, used: ResourceList,
                              scaleUp: bool)
    returns (desired: Resources)
    ensures fresh(desired)
    ensures desired.Value() == Activated(pct, bounds, policy, hard, used, scaleUp)
  {
    desired := new Resources(NOTHING);
    var names := if policy.scales == MemoryMethod then [RequestsMemory, LimitsMemory] else [RequestsCpu, LimitsCpu];
    for i := 0 to |names|
      invariant fresh(desired)
      invariant desired.Value() == Filled(Targets(pct, bounds, policy, hard, used, scaleUp), names, i)
    {
      var active := ToActivePolicy(pct, bounds, policy, hard, used, names[i], scaleUp);
      var target := ActivatePolicy(active, scaleUp);
      if target != 0 { Assign(desired, names[i], target); }
    }
    FilledIsActivated(pct, bounds, policy, hard, used, scaleUp, names);
  }

  lemma FilledIsActivated(pct: Rounding, bounds: Bounds, policy: Policy, hard: ResourceList, used: ResourceList,
                          scaleUp: bool, names: seq<Dim>)
    requires names == if policy.scales == MemoryMethod then [RequestsMemory, LimitsMemory] else [RequestsCpu, LimitsCpu]
    ensures Filled(Targets(pct, bounds, policy, hard, used, scaleUp), names, |names|)
            == Activated(pct, bounds, policy, hard, used, scaleUp)
  {
    FilledOfTwo(Targets(pct, bounds, policy, hard, used, scaleUp), names[0], names[1]);
    SameEverywhere(Filled(Targets(pct, bounds, policy, hard, used, scaleUp), names, |names|),
                   Activated(pct, bounds, policy, hard, used, scaleUp));
  }

  lemma SameEverywhere(a: Amounts, b: Amounts)
    requires a.storage == b.storage && forall d: Dim :: a.At(d) == b.At(d)
    ensures a == b
  {
    assert a.At(LimitsCpu) == b.At(LimitsCpu) && a.At(LimitsMemory) == b.At(LimitsMemory)
        && a.At(RequestsCpu) == b.At(RequestsCpu) && a.At(RequestsMemory) == b.At(RequestsMemory);
  }

  /** A policy with an unknown method never asks for anything. */
  lemma UnknownMethodIsInert(pct: Rounding, bounds: Bounds, policy: Policy, hard: ResourceList, used: ResourceList,
                             d: Dim, scaleUp: bool)
    requires policy.scales == UnknownMethod
    ensures DimTarget(pct, bounds, policy, hard, used, d, scaleUp) == 0
  {
    var active := ToActivePolicy(pct, bounds, policy, hard, used, d, scaleUp);
    assert active.used * 100 == 0;
    if active.aim > 0 {
      assert TargetFor(active) == 0;
    }
  }

  /** With an aim of at most 100 percent, no policy asks for less than what is in use, up to the maximum. */
  lemma TargetCoversUse(pct: Rounding, bounds: Bounds, policy: Policy, hard: ResourceList, used: ResourceList,
                        d: Dim, scaleUp: bool)
    requires policy.Aim() <= 100
    requires ValueOf(used, d) >= 0
    ensures var t := DimTarget(pct, bounds, policy, hard, used, d, scaleUp);
            t == 0 || t >= Min(ValueOf(used, d), bounds.High(d))
  {
    if policy.scales == UnknownMethod {
      UnknownMethodIsInert(pct, bounds, policy, hard, used, d, scaleUp);
    } else if policy.Aim() > 0 {
      var u, aim := ValueOf(used, d), policy.Aim();
      ScaledUpCovers(u, aim);
    }
  }

  lemma ScaledUpCovers(u: int, aim: int)
    requires u >= 0 && 0 < aim <= 100
    ensures Truncated(u * 100, aim) >= u
  {
    assert u * 100 >= u * aim;
    DivideAtLeast(u * 100, u, aim);
  }

  lemma ScaledOrder(x: int, y: int, m: int)
    requires m >= 0
    ensures x <= y ==> x * m <= y * m
  {
    if x <= y {
      assert y * m - x * m == (y - x) * m;
    }
  }

  lemma DivideAtLeast(n: int, q: int, m: int)
    requires m > 0 && n >= q * m
    ensures n / m >= q
  {
    var r := n / m;
    assert n < (r + 1) * m;
    ScaledOrder(r + 1, q, m);
  }

  // ----- What a policy asks for, on its own fields -----

  lemma QuotientIs(n: int, m: int)
    requires n >= 0 && m > 0
    ensures var v := Truncated(n, m); v >= 0 && v * m <= n < (v + 1) * m
  {
    var v := n / m;
    assert n == v * m + n % m;
    assert (v + 1) * m == v * m + m;
  }

  predicate Governs(policy: Policy, d: Dim) {
    if d.LimitsCpu? || d.RequestsCpu? then policy.scales == CpuMethod else policy.scales == MemoryMethod
  }

  /** An up policy is in effect above its threshold, unless that is 100. It then asks for the largest amount at which
      usage still reaches the target utilisation, or for the maximum if that is smaller. */
  lemma UpPolicyAsks(pct: Rounding, bounds: Bounds, policy: Policy, hard: ResourceList, used: ResourceList, d: Dim)
    requires Governs(policy, d) && ValueOf(used, d) >= 0
    ensures var t := if policy.target != 0 then policy.target else policy.threshold;
            var u, h := ValueOf(used, d), ValueOf(hard, d);
            var p, high := if h != 0 then pct(u, h) else 0, if IsCpu(d) then bounds.maxCpu else bounds.maxMemory;
            var v := DimTarget(pct, bounds, policy, hard, used, d, true);
            if t > 0 && policy.threshold != 100 && p > policy.threshold
            then v <= high && v * t <= 100 * u && (v == high || 100 * u < (v + 1) * t)
            else v == 0
  {
    var t, u := policy.Aim(), ValueOf(used, d);
    if t > 0 {
      QuotientIs(u * 100, t);
      ScaledOrder(DimTarget(pct, bounds, policy, hard, used, d, true), Truncated(u * 100, t), t);
    }
  }

  /** A down policy is in effect below its threshold; it asks for that amount, or for the minimum if that is larger.
      With a threshold of 100 it is in effect whenever usage and maximum differ, and asks for the usage itself. */
  lemma DownPolicyAsks(pct: Rounding, bounds: Bounds, policy: Policy, hard: ResourceList, used: ResourceList, d: Dim)
    requires Governs(policy, d) && ValueOf(used, d) >= 0
    ensures var t := if policy.target != 0 then policy.target else policy.threshold;
            var u, h := ValueOf(used, d), ValueOf(hard, d);
            var p, low := if h != 0 then pct(u, h) else 0, if IsCpu(d) then bounds.minCpu else bounds.minMemory;
            var v := DimTarget(pct, bounds, policy, hard, used, d, false);
            if t > 0 && policy.threshold == 100 && u != h then v >= u && v >= low && (v == u || v == low)
            else if t > 0 && policy.threshold != 100 && p < policy.threshold
            then v >= low && 100 * u < (v + 1) * t && (v == low || v * t <= 100 * u)
            else v == 0
  {
    var t, u := policy.Aim(), ValueOf(used, d);
    if t > 0 {
      QuotientIs(u * 100, t);
      ScaledOrder(Truncated(u * 100, t) + 1, DimTarget(pct, bounds, policy, hard, used, d, false) + 1, t);
    }
  }

  /** A policy says nothing about the resource of the other method. */
  lemma OtherResourceIsLeft(pct: Rounding, bounds: Bounds, policy: Policy, hard: ResourceList, used: ResourceList,
                            d: Dim,
                            scaleUp: bool)
    requires !Governs(policy, d)
    ensures DimTarget(pct, bounds, policy, hard, used, d, scaleUp) == 0
  {
    if policy.scales == UnknownMethod {
      UnknownMethodIsInert(pct, bounds, policy, hard, used, d, scaleUp);
    }
  }
}

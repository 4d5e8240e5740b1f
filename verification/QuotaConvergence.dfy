/** Repeated reconciles settle: with usage and pending demand fixed, from limits that show usage at most two of them
    reach a quota that no further one changes. */
module QuotaConvergence {
  import opened Common
  import opened Quantities
  import opened ResourceQuotas
  import opened ScalerPolicies
  import opened PodDemand
  import opened QuotaPipeline

  // ----- One dimension on its own -----

  /** What governs one dimension: its bounds and at most one policy of each direction. */
  datatype Rule = Rule(lo: int, hi: int, down: Option<Policy>, up: Option<Policy>)

  ghost predicate Sane(r: Rule) {
    && 100 <= r.lo <= r.hi
    && (r.down.Some? ==> r.down.value.threshold != 100 && 1 <= r.down.value.Aim() <= 100
                         && r.down.value.threshold <= r.down.value.Aim())
    && (r.up.Some? ==> 1 <= r.up.value.Aim() <= 100 && r.up.value.Aim() <= r.up.value.threshold)
    && (r.down.Some? && r.up.Some? ==>
          r.down.value.threshold < r.up.value.Aim() && r.down.value.Aim() <= r.up.value.threshold)
  }

  /** A stored limit from which usage can be measured, or which the down policy fixes in one step. */
  ghost predicate Startable(r: Rule, h: int) {
    h > 0 || (h == 0 && r.down.Some? && r.down.value.threshold >= 1)
  }

  function Clamp(x: int, lo: int, hi: int): int { Min(Max(x, lo), hi) }

  function Asked(pct: Rounding, policy: Option<Policy>, limit: int, u: int, h: int, scaleUp: bool): int {
    if policy.None? then 0
    else ActivatePolicy(ActivePolicy(h, Usage(pct, u, h), policy.value.threshold, policy.value.Aim(), limit, u),
                        scaleUp)
  }

  /** One reconcile of one dimension, before limits are lifted to requests. */
  function Step(pct: Rounding, r: Rule, u: int, h: int): int {
    Clamp(Or(Or(h, Asked(pct, r.down, r.lo, u, h, false)), Asked(pct, r.up, r.hi, u, h, true)), r.lo, r.hi)
  }

  ghost predicate FiresDown(pct: Rounding, r: Rule, u: int, h: int) {
    r.down.Some? && Usage(pct, u, h) < r.down.value.threshold
  }

  ghost predicate FiresUp(pct: Rounding, r: Rule, u: int, h: int) {
    r.up.Some? && r.up.value.threshold != 100 && Usage(pct, u, h) > r.up.value.threshold
  }

  lemma UsageBounds(pct: Rounding, u: int, h: int)
    requires IsPercentage(pct) && u >= 0 && h > 0
    ensures var p := Usage(pct, u, h); 0 <= p && 100 * u - h <= p * h <= 100 * u
  {}

  lemma Quotient(x: int, t: int) returns (q: int)
    requires x >= 0 && t > 0
    ensures q == x / t && q >= 0 && q * t <= x < q * t + t
  {
    q := x / t;
  }

  /** The value one step produces, by which policy fires. */
  lemma StepCases(pct: Rounding, r: Rule, u: int, h: int)
    requires IsPercentage(pct) && Sane(r) && u >= 0 && Startable(r, h)
    ensures !(FiresDown(pct, r, u, h) && FiresUp(pct, r, u, h))
    ensures FiresDown(pct, r, u, h) ==> Step(pct, r, u, h) == Clamp(100 * u / r.down.value.Aim(), r.lo, r.hi)
    ensures FiresUp(pct, r, u, h) ==> h > 0 && Step(pct, r, u, h) == Clamp(100 * u / r.up.value.Aim(), r.lo, r.hi)
    ensures !FiresDown(pct, r, u, h) && !FiresUp(pct, r, u, h) ==> Step(pct, r, u, h) == Clamp(h, r.lo, r.hi)
  {
    if FiresUp(pct, r, u, h) {
      if h > 0 {
        UsageBounds(pct, u, h);
        UpTargetExceeds(r, u, h, Usage(pct, u, h));
      }
    }
  }

  /** Above the up threshold, the up target lies above the present limit. */
  lemma UpTargetExceeds(r: Rule, u: int, h: int, p: int)
    requires Sane(r) && r.up.Some? && u >= 0 && h > 0
    requires p > r.up.value.threshold && p * h <= 100 * u
    ensures 100 * u / r.up.value.Aim() >= h
    ensures 100 * u >= (r.up.value.threshold + 1) * h
  {
    var aim := r.up.value.Aim();
    ScaledOrder(r.up.value.threshold + 1, p, h);
    ScaledOrder(aim, r.up.value.threshold + 1, h);
    assert h * aim == aim * h;
    DivideAtLeast(100 * u, h, aim);
  }

  /** Below the down threshold, the down target does not exceed the present limit. */
  lemma DownTargetFits(r: Rule, u: int, h: int, p: int)
    requires Sane(r) && r.down.Some? && u >= 0 && h > 0
    requires p < r.down.value.threshold && 100 * u - h <= p * h
    ensures 100 * u / r.down.value.Aim() <= h
    ensures 100 * u <= r.down.value.threshold * h
  {
    var aim := r.down.value.Aim();
    ScaledOrder(p + 1, r.down.value.threshold, h);
    assert (p + 1) * h == p * h + h;
    ScaledOrder(r.down.value.threshold, aim, h);
    var q := Quotient(100 * u, aim);
    ScaledOrder(h + 1, q, aim);
    assert (h + 1) * aim == aim * h + aim;
  }

  /** At the down target (or anything larger), usage does not reach the up threshold again. */
  lemma AboveDownTarget(r: Rule, u: int, v: int, p: int)
    requires Sane(r) && r.down.Some? && r.up.Some? && u >= 0 && v >= r.lo
    requires v >= 100 * u / r.down.value.Aim()
    requires p * v <= 100 * u
    ensures p <= r.up.value.threshold
  {
    var aim := r.down.value.Aim();
    var q := Quotient(100 * u, aim);
    ScaledOrder(q, v, aim);
    ScaledOrder(aim + 1, p, v);
    assert (aim + 1) * v == v * aim + v;
  }

  /** At the up target (or anything smaller), usage does not fall below the down threshold. */
  lemma BelowUpTarget(r: Rule, u: int, v: int, p: int)
    requires Sane(r) && r.down.Some? && r.up.Some? && u >= 0 && v > 0
    requires v <= 100 * u / r.up.value.Aim()
    requires 100 * u - v <= p * v
    ensures p >= r.down.value.threshold
  {
    var aim := r.up.value.Aim();
    var q := Quotient(100 * u, aim);
    ScaledOrder(v, q, aim);
    ScaledOrder(p + 1, aim - 1, v);
    assert (p + 1) * v == p * v + v && (aim - 1) * v == v * aim - v;
  }

  /** One step of one dimension already settles it. */
  lemma StepIsIdempotent(pct: Rounding, r: Rule, u: int, h: int)
    requires IsPercentage(pct) && Sane(r) && u >= 0 && Startable(r, h)
    ensures var v := Step(pct, r, u, h); r.lo <= v <= r.hi && Step(pct, r, u, v) == v
  {
    var v := Step(pct, r, u, h);
    StepCases(pct, r, u, h);
    StepCases(pct, r, u, v);
    var p := Usage(pct, u, v);
    UsageBounds(pct, u, v);
    if FiresUp(pct, r, u, v) {
      UpTargetExceeds(r, u, v, p);
      if v < r.hi {
        if FiresDown(pct, r, u, h) {
          AboveDownTarget(r, u, v, p);
        } else if !FiresUp(pct, r, u, h) && h > 0 && h < v {
          EarlierFiresUp(pct, r, u, h, v);
        }
      }
    } else if FiresDown(pct, r, u, v) {
      DownTargetFits(r, u, v, p);
      if v > r.lo {
        if FiresUp(pct, r, u, h) {
          BelowUpTarget(r, u, v, p);
        } else if !FiresDown(pct, r, u, h) && h > v {
          LaterFiresDown(pct, r, u, v, h);
        }
      }
    }
  }

  /** Usage above the up threshold at a limit is above it at every smaller limit. */
  lemma EarlierFiresUp(pct: Rounding, r: Rule, u: int, h: int, v: int)
    requires IsPercentage(pct) && Sane(r) && u >= 0 && 0 < h < v
    requires FiresUp(pct, r, u, v)
    ensures FiresUp(pct, r, u, h)
  {
    var p, t := Usage(pct, u, h), r.up.value.threshold;
    UsageBounds(pct, u, h);
    UsageBounds(pct, u, v);
    UpTargetExceeds(r, u, v, Usage(pct, u, v));
    AboveAtSmaller(100 * u, t, h, v, p);
  }

  lemma AboveAtSmaller(x: int, t: int, h: int, v: int, p: int)
    requires t >= 0 && 0 < h < v && x >= (t + 1) * v && x - h <= p * h
    ensures p > t
  {
    ScaledOrder(h + 1, v, t + 1);
    assert (h + 1) * (t + 1) == t * h + h + t + 1;
    ScaledOrder(p, t, h);
  }

  /** Usage below the down threshold at a limit is below it at every larger limit. */
  lemma LaterFiresDown(pct: Rounding, r: Rule, u: int, v: int, h: int)
    requires IsPercentage(pct) && Sane(r) && u >= 0 && 0 < v < h
    requires FiresDown(pct, r, u, v)
    ensures FiresDown(pct, r, u, h)
  {
    var p, t := Usage(pct, u, h), r.down.value.threshold;
    UsageBounds(pct, u, h);
    UsageBounds(pct, u, v);
    DownTargetFits(r, u, v, Usage(pct, u, v));
    assert t >= 1;
    BelowAtLarger(100 * u, t, v, h, p);
  }

  lemma BelowAtLarger(x: int, t: int, v: int, h: int, p: int)
    requires t >= 1 && 0 < v < h && x <= t * v && p * h <= x
    ensures p < t
  {
    ScaledOrder(v + 1, h, t);
    assert (v + 1) * t == t * v + t;
    ScaledOrder(t, p, h);
  }

  /** From any limit at or above the outcome of a step, a further step does not climb. */
  lemma NoClimbAbove(pct: Rounding, r: Rule, u: int, h: int, v: int)
    requires IsPercentage(pct) && Sane(r) && u >= 0 && Startable(r, h)
    requires r.lo <= v <= r.hi && v >= Step(pct, r, u, h)
    ensures Step(pct, r, u, v) <= v
  {
    StepCases(pct, r, u, h);
    StepCases(pct, r, u, v);
    var p := Usage(pct, u, v);
    UsageBounds(pct, u, v);
    if FiresUp(pct, r, u, v) {
      UpTargetExceeds(r, u, v, p);
      if v < r.hi {
        if FiresDown(pct, r, u, h) {
          AboveDownTarget(r, u, v, p);
        } else if 0 < h < v {
          EarlierFiresUp(pct, r, u, h, v);
        }
      }
    } else if FiresDown(pct, r, u, v) {
      DownTargetFits(r, u, v, p);
    }
  }

  // ----- The four dimensions together -----

  /** The policies of one method, at most one of them. */
  function PolicyFor(policies: seq<Policy>, m: Method): Option<Policy> {
    if |policies| == 0 then None
    else if policies[|policies| - 1].scales == m then Some(policies[|policies| - 1])
    else PolicyFor(policies[..|policies| - 1], m)
  }

  ghost predicate AtMostOneEach(policies: seq<Policy>) {
    forall i, j :: 0 <= i < j < |policies| ==>
      policies[i].scales != policies[j].scales || policies[i].scales == UnknownMethod
  }

  /** The rule of a dimension without pending pods. */
  function BaseRule(s: Scaler, d: Dim): Rule {
    Rule(s.bounds.Low(d), s.bounds.High(d), PolicyFor(s.downs, MethodOf(d)), PolicyFor(s.ups, MethodOf(d)))
  }

  ghost predicate SaneScaler(s: Scaler) {
    && AtMostOneEach(s.downs) && AtMostOneEach(s.ups)
    && (forall d: Dim :: Sane(BaseRule(s, d)))
  }

  /** What stays the same over repeated reconciles: rounding, scaler, usage and the demand of the pending pods. */
  datatype Setting = Setting(pct: Rounding, scaler: Scaler, used: ResourceList, demand: Option<Demand>)

  /** Current usage plus the pending demand, if there is any. */
  function Floors(used: ResourceList, demand: Option<Demand>): Amounts {
    if demand.Some? && !demand.value.quota.IsEmpty() then
      Raised(Plus(Amounts(ValueOf(used, LimitsCpu), ValueOf(used, LimitsMemory), 0, 0, 0), demand.value.quota),
             Amounts(0, 0, ValueOf(used, RequestsCpu) + demand.value.requests.cpu,
                     ValueOf(used, RequestsMemory) + demand.value.requests.memory, 0))
    else NOTHING
  }

  /** Pending pods raise the minimum of each dimension to usage plus demand, as far as the maximum allows. */
  function RuleOf(c: Setting, d: Dim): Rule {
    var base := BaseRule(c.scaler, d);
    base.(lo := Min(base.hi, Max(base.lo, Floors(c.used, c.demand).At(d))))
  }

  function StepAt(c: Setting, h: Amounts, d: Dim): int {
    Step(c.pct, RuleOf(c, d), ValueOf(c.used, d), h.At(d))
  }

  /** Every dimension stepped on its own, then limits lifted to requests. */
  function Settled(c: Setting, h: Amounts): Amounts {
    LiftedLimits(Amounts(StepAt(c, h, LimitsCpu), StepAt(c, h, LimitsMemory),
                         StepAt(c, h, RequestsCpu), StepAt(c, h, RequestsMemory), 0))
  }

  /** One reconcile, on the four values. */
  function Next(c: Setting, h: Amounts): Amounts {
    NeverMixed(Settled(c, h), h.(storage := 0))
  }

  lemma {:induction false} NoPolicyMeansNoTarget(pct: Rounding, bounds: Bounds, policies: seq<Policy>,
                                                 hard: ResourceList, used: ResourceList, scaleUp: bool,
                                                 start: Amounts, d: Dim)
    requires PolicyFor(policies, MethodOf(d)).None?
    ensures ApplyPolicies(pct, bounds, policies, hard, used, scaleUp, start).At(d) == start.At(d)
  {
    if |policies| > 0 {
      var last := policies[|policies| - 1];
      NoPolicyMeansNoTarget(pct, bounds, policies[..|policies| - 1], hard, used, scaleUp, start, d);
      if last.scales == UnknownMethod {
        UnknownMethodIsInert(pct, bounds, last, hard, used, d, scaleUp);
      }
    }
  }

  lemma {:induction false} FoundPolicyIsListed(policies: seq<Policy>, m: Method)
    ensures PolicyFor(policies, m).Some? ==> exists i :: 0 <= i < |policies| && policies[i].scales == m
  {
    if |policies| > 0 && policies[|policies| - 1].scales != m {
      var front := policies[..|policies| - 1];
      FoundPolicyIsListed(front, m);
      assert forall i :: 0 <= i < |front| ==> policies[i] == front[i];
    }
  }

  /** The policy loop, seen from one dimension: only that method's policy matters. */
  lemma {:induction false} PoliciesAt(pct: Rounding, bounds: Bounds, policies: seq<Policy>, hard: ResourceList,
                                      used: ResourceList, scaleUp: bool, start: Amounts, d: Dim)
    requires AtMostOneEach(policies)
    ensures ApplyPolicies(pct, bounds, policies, hard, used, scaleUp, start).At(d)
         == Or(start.At(d),
               Asked(pct, PolicyFor(policies, MethodOf(d)), if scaleUp then bounds.High(d) else bounds.Low(d),
                     ValueOf(used, d), ValueOf(hard, d), scaleUp))
  {
    if |policies| > 0 {
      var front, last := policies[..|policies| - 1], policies[|policies| - 1];
      if last.scales == MethodOf(d) {
        FoundPolicyIsListed(front, MethodOf(d));
        assert forall i :: 0 <= i < |front| ==> front[i] == policies[i];
        NoPolicyMeansNoTarget(pct, bounds, front, hard, used, scaleUp, start, d);
      } else {
        PoliciesAt(pct, bounds, front, hard, used, scaleUp, start, d);
        if last.scales == UnknownMethod {
          UnknownMethodIsInert(pct, bounds, last, hard, used, d, scaleUp);
        }
      }
    }
  }

  lemma ClampedAt(a: Amounts, b: Bounds, d: Dim)
    ensures Limited(Raised(a, Lows(b)), Highs(b)).At(d) == Clamp(a.At(d), b.Low(d), b.High(d))
  {}

  /** What the policies make of one dimension, before bounds and demand. */
  function Wanted(pct: Rounding, r: Rule, u: int, h: int): int {
    Or(Or(h, Asked(pct, r.down, r.lo, u, h, false)), Asked(pct, r.up, r.hi, u, h, true))
  }

  /** Raising to a floor before clamping is the same step with a higher minimum. */
  lemma FloorRaisesMinimum(pct: Rounding, r: Rule, floor: int, u: int, h: int)
    requires Sane(r)
    ensures var raised := r.(lo := Min(r.hi, Max(r.lo, floor)));
            Sane(raised) && Clamp(Max(Wanted(pct, r, u, h), floor), r.lo, r.hi) == Step(pct, raised, u, h)
    ensures Clamp(Wanted(pct, r, u, h), r.lo, r.hi) == Clamp(Max(Wanted(pct, r, u, h), 0), r.lo, r.hi)
  {}

  lemma DemandRaises(a: Amounts, used: ResourceList, demand: Option<Demand>, d: Dim)
    ensures WithDemand(a, used, demand).At(d) == if demand.Some? && !demand.value.quota.IsEmpty()
                                                 then Max(a.At(d), Floors(used, demand).At(d)) else a.At(d)
  {}

  lemma ScaledAt(c: Setting, hard: ResourceList, d: Dim)
    requires SaneScaler(c.scaler)
    ensures var b, scaled := c.scaler.bounds, Scaled(c.pct, c.scaler, hard, c.used);
            Limited(Raised(WithDemand(scaled, c.used, c.demand), Lows(b)), Highs(b)).At(d) == StepAt(c, Read(hard), d)
  {
    var b, scaled := c.scaler.bounds, Scaled(c.pct, c.scaler, hard, c.used);
    var down := ApplyPolicies(c.pct, b, c.scaler.downs, hard, c.used, false, Read(hard));
    PoliciesAt(c.pct, b, c.scaler.downs, hard, c.used, false, Read(hard), d);
    PoliciesAt(c.pct, b, c.scaler.ups, hard, c.used, true, down, d);
    ClampedAt(WithDemand(scaled, c.used, c.demand), b, d);
    DemandRaises(scaled, c.used, c.demand, d);
    assert scaled.At(d) == Wanted(c.pct, BaseRule(c.scaler, d), ValueOf(c.used, d), Read(hard).At(d));
    FloorRaisesMinimum(c.pct, BaseRule(c.scaler, d), Floors(c.used, c.demand).At(d), ValueOf(c.used, d),
                       Read(hard).At(d));
  }

  /** The pipeline is the four single-dimension steps, coupled by lifting and by order. */
  lemma DesiredIsNext(c: Setting, hard: ResourceList)
    requires SaneScaler(c.scaler)
    ensures Desired(c.pct, c.scaler, hard, c.used, c.demand).(storage := 0) == Next(c, Read(hard))
  {
    ScaledAt(c, hard, LimitsCpu);
    ScaledAt(c, hard, LimitsMemory);
    ScaledAt(c, hard, RequestsCpu);
    ScaledAt(c, hard, RequestsMemory);
  }

  ghost predicate Converges(c: Setting, h: Amounts) {
    && IsPercentage(c.pct) && SaneScaler(c.scaler)
    && (forall d: Dim :: ValueOf(c.used, d) >= 0)
    && (forall d: Dim :: Startable(RuleOf(c, d), h.At(d)))
  }

  /** The limit dimension of the same resource. */
  function LimitOf(d: Dim): Dim { if IsCpu(d) then LimitsCpu else LimitsMemory }

  function RequestOf(d: Dim): Dim { if IsCpu(d) then RequestsCpu else RequestsMemory }

  lemma SettledAt(c: Setting, h: Amounts, d: Dim)
    ensures Settled(c, h).At(d)
         == if d == LimitOf(d) then Max(StepAt(c, h, d), StepAt(c, h, RequestOf(d)))
            else StepAt(c, h, d)
  {}

  /** Stepping what a step produced, possibly held up by the previous limits, never climbs. */
  lemma SecondStepDoesNotClimb(c: Setting, h: Amounts, w: Amounts, d: Dim)
    requires Converges(c, h)
    requires forall e: Dim :: w.At(e) == Settled(c, h).At(e) || w.At(e) == Max(h.At(e), Settled(c, h).At(e))
    ensures Settled(c, w).At(d) <= w.At(d)
  {
    StepDoesNotClimb(c, h, w, d);
    if d == LimitOf(d) {
      StepDoesNotClimb(c, h, w, RequestOf(d));
      var r := RequestOf(d);
      SettledAt(c, h, d);
      SettledAt(c, h, r);
      SettledAt(c, w, d);
      StepIsIdempotent(c.pct, RuleOf(c, r), ValueOf(c.used, r), h.At(r));
      if w.At(r) != StepAt(c, h, r) {
        assert w.At(r) == h.At(r);
      }
    }
  }

  lemma StepDoesNotClimb(c: Setting, h: Amounts, w: Amounts, d: Dim)
    requires Converges(c, h)
    requires forall e: Dim :: w.At(e) == Settled(c, h).At(e) || w.At(e) == Max(h.At(e), Settled(c, h).At(e))
    ensures StepAt(c, w, d) <= w.At(d)
  {
    var r, u, v := RuleOf(c, d), ValueOf(c.used, d), Settled(c, h).At(d);
    SettledAt(c, h, d);
    StepIsIdempotent(c.pct, r, u, h.At(d));
    StepIsIdempotent(c.pct, RuleOf(c, RequestOf(d)), ValueOf(c.used, RequestOf(d)), h.At(RequestOf(d)));
    NoClimbAbove(c.pct, r, u, h.At(d), v);
    assert w.At(d) == v || w.At(d) == h.At(d);
  }

  lemma SettledStaysAt(c: Setting, h: Amounts, d: Dim)
    requires Converges(c, h)
    ensures Settled(c, Settled(c, h)).At(d) == Settled(c, h).At(d)
  {
    var v, r := Settled(c, h), RequestOf(d);
    SecondStepDoesNotClimb(c, h, v, d);
    SettledAt(c, h, d);
    SettledAt(c, h, r);
    SettledAt(c, v, d);
    StepIsIdempotent(c.pct, RuleOf(c, r), ValueOf(c.used, r), h.At(r));
    StepIsIdempotent(c.pct, RuleOf(c, d), ValueOf(c.used, d), h.At(d));
  }

  /** Stepping twice is stepping once, also with limits lifted to requests. */
  lemma SettledIsIdempotent(c: Setting, h: Amounts)
    requires Converges(c, h)
    ensures Settled(c, Settled(c, h)) == Settled(c, h)
  {
    forall d: Dim ensures Settled(c, Settled(c, h)).At(d) == Settled(c, h).At(d) {
      SettledStaysAt(c, h, d);
    }
    SameEverywhere(Settled(c, Settled(c, h)), Settled(c, h));
  }

  /** After a reconcile that raised nothing, the quota is final. */
  lemma ShrinkingSettlesAtOnce(c: Setting, h: Amounts)
    requires Converges(c, h)
    requires !Exceeds(Settled(c, h), h)
    ensures Next(c, Next(c, h)) == Next(c, h)
  {
    SettledIsIdempotent(c, h);
  }

  lemma NextHoldsUp(c: Setting, h: Amounts, d: Dim)
    ensures Next(c, h).At(d) == Settled(c, h).At(d) || Next(c, h).At(d) == Max(h.At(d), Settled(c, h).At(d))
  {}

  lemma NextConverges(c: Setting, h: Amounts)
    requires Converges(c, h)
    ensures Converges(c, Next(c, h))
  {
    forall d: Dim ensures Startable(RuleOf(c, d), Next(c, h).At(d)) {
      NextHoldsUp(c, h, d);
      SettledAt(c, h, d);
      StepIsIdempotent(c.pct, RuleOf(c, d), ValueOf(c.used, d), h.At(d));
    }
  }

  /** Whatever the first reconcile did, the second one raises nothing. */
  lemma SecondReconcileNeverClimbs(c: Setting, h: Amounts)
    requires Converges(c, h)
    ensures var w := Next(c, h);
            Converges(c, w) && !Exceeds(Settled(c, w), w)
  {
    var w := Next(c, h);
    NextConverges(c, h);
    forall d: Dim ensures w.At(d) == Settled(c, h).At(d) || w.At(d) == Max(h.At(d), Settled(c, h).At(d)) {
      NextHoldsUp(c, h, d);
    }
    SecondStepDoesNotClimb(c, h, w, LimitsCpu);
    SecondStepDoesNotClimb(c, h, w, LimitsMemory);
    SecondStepDoesNotClimb(c, h, w, RequestsCpu);
    SecondStepDoesNotClimb(c, h, w, RequestsMemory);
  }

  /** Two reconciles settle the four values: a third changes nothing, and only the first can raise any of them. */
  lemma TwoReconcilesSettle(c: Setting, h: Amounts)
    requires Converges(c, h)
    ensures var one := Next(c, h);
            var two := Next(c, one);
            AtLeast(one, two) && Next(c, two) == two
  {
    var one := Next(c, h);
    SecondReconcileNeverClimbs(c, h);
    ShrinkingSettlesAtOnce(c, one);
    WithoutClimbNothingIsRaised(Settled(c, one), one);
  }

  lemma WithoutClimbNothingIsRaised(wanted: Amounts, current: Amounts)
    requires !Exceeds(wanted, current)
    ensures AtLeast(current, NeverMixed(wanted, current))
  {
    forall d: Dim ensures current.At(d) >= wanted.At(d) {}
  }

  // ----- The stored quota -----

  /** Reconcile and, if the quota differs, patch it. */
  function Reconcile(c: Setting, hard: ResourceList): ResourceList {
    var desired := Desired(c.pct, c.scaler, hard, c.used, c.demand);
    if DiffersFrom(desired, hard) then Patched(hard, desired) else hard
  }

  lemma ReconcileReads(c: Setting, hard: ResourceList)
    requires SaneScaler(c.scaler)
    ensures Read(Reconcile(c, hard)) == Next(c, Read(hard))
    ensures !HasStaleAlias(Reconcile(c, hard))
  {
    var desired := Desired(c.pct, c.scaler, hard, c.used, c.demand);
    DesiredIsNext(c, hard);
    PatchRoundTrip(hard, desired);
  }

  /** From stored limits that show usage, two reconcile-and-patch rounds reach a quota object that no further round
      touches. */
  lemma ReconcileConverges(c: Setting, hard: ResourceList)
    requires Converges(c, Read(hard))
    ensures var two := Reconcile(c, Reconcile(c, hard));
            Reconcile(c, two) == two
  {
    var one := Reconcile(c, hard);
    var two := Reconcile(c, one);
    TwoReconcilesSettle(c, Read(hard));
    ReconcileReads(c, hard);
    ReconcileReads(c, one);
    SettledQuotaStays(c, two);
  }

  lemma SettledQuotaStays(c: Setting, hard: ResourceList)
    requires SaneScaler(c.scaler) && Next(c, Read(hard)) == Read(hard) && !HasStaleAlias(hard)
    ensures Reconcile(c, hard) == hard
  {
    DesiredIsNext(c, hard);
  }
}

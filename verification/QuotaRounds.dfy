/** How many reconciles any stored limits need, zero limits included: never more than three, and exactly when two. */
module QuotaRounds {
  import opened Common
  import opened Quantities
  import opened ResourceQuotas
  import opened ScalerPolicies
  import opened QuotaPipeline
  import opened QuotaConvergence

  /** Any stored limits, usage and sane scaler. */
  ghost predicate Stored(c: Setting, h: Amounts) {
    && IsPercentage(c.pct) && SaneScaler(c.scaler)
    && forall d: Dim :: ValueOf(c.used, d) >= 0 && h.At(d) >= 0
  }

  lemma SettledIsWithinBounds(c: Setting, h: Amounts, d: Dim)
    requires SaneScaler(c.scaler)
    ensures Settled(c, h).At(d) >= c.scaler.bounds.Low(d) >= 100
  {
    SettledAt(c, h, d);
    assert Sane(RuleOf(c, d));
  }

  /** Whatever was stored, usage can be measured from the second reconcile on. */
  lemma OneReconcileMeasures(c: Setting, h: Amounts)
    requires Stored(c, h)
    ensures Converges(c, Next(c, h))
  {
    forall d: Dim ensures Next(c, h).At(d) > 0 {
      SettledIsWithinBounds(c, h, d);
      assert AtLeast(Next(c, h), Settled(c, h)) by {
        NeverMixedIsOrdered(Settled(c, h), h.(storage := 0));
      }
    }
  }

  /** Three reconciles settle the four values from any stored limits. */
  lemma ThreeReconcilesSettle(c: Setting, h: Amounts)
    requires Stored(c, h)
    ensures var three := Next(c, Next(c, Next(c, h)));
            Next(c, three) == three
  {
    OneReconcileMeasures(c, h);
    TwoReconcilesSettle(c, Next(c, h));
  }

  /** A reconcile that would raise one value and lower another. */
  ghost predicate IsMixed(c: Setting, w: Amounts) {
    Exceeds(Settled(c, w), w) && Exceeds(w, Settled(c, w))
  }

  /** A value held up by a mixed reconcile steps down all the same in the next one. */
  lemma HeldValueStillSteps(c: Setting, w: Amounts, d: Dim)
    requires Converges(c, w)
    requires IsMixed(c, w) && w.At(d) > Settled(c, w).At(d)
    ensures var x := Next(c, w);
            x.At(d) == w.At(d) && Settled(c, x).At(d) == Settled(c, w).At(d)
  {
    var x, v := Next(c, w), Settled(c, w);
    forall e: Dim ensures x.At(e) == Max(v.At(e), w.At(e)) {
      MixedIsRaised(v, w.(storage := 0), e);
    }
    SettledAt(c, w, d);
    SettledAt(c, x, d);
    if d == LimitOf(d) {
      RequestStepsTheSame(c, w, x, RequestOf(d));
    }
  }

  lemma MixedIsRaised(wanted: Amounts, current: Amounts, d: Dim)
    requires Exceeds(wanted, current)
    ensures NeverMixed(wanted, current).At(d) == Max(wanted.At(d), current.At(d))
  {}

  /** A request value steps to the same place, whether it is held up or already stepped. */
  lemma RequestStepsTheSame(c: Setting, w: Amounts, x: Amounts, r: Dim)
    requires Converges(c, w) && r == RequestOf(r)
    requires x.At(r) == w.At(r) || x.At(r) == Settled(c, w).At(r)
    ensures StepAt(c, x, r) == StepAt(c, w, r)
  {
    SettledAt(c, w, r);
    StepIsIdempotent(c.pct, RuleOf(c, r), ValueOf(c.used, r), w.At(r));
  }

  /** From limits usage can be measured from, one reconcile settles if and only if it is not mixed. */
  lemma OneSettlesExactly(c: Setting, w: Amounts)
    requires Converges(c, w)
    ensures var x := Next(c, w);
            Next(c, x) == x <==> !IsMixed(c, w)
  {
    var x, v := Next(c, w), Settled(c, w);
    if !Exceeds(v, w) {
      ShrinkingSettlesAtOnce(c, w);
    } else if !Exceeds(w, v) {
      RaisedWhenNothingShrinks(v, w.(storage := 0));
      SettledIsIdempotent(c, w);
    } else {
      SecondReconcileNeverClimbs(c, w);
      var d := ExceedingDim(w, v);
      HeldValueStillSteps(c, w, d);
      assert Next(c, x).At(d) < x.At(d);
    }
  }

  lemma ExceedingDim(a: Amounts, b: Amounts) returns (d: Dim)
    requires Exceeds(a, b)
    ensures a.At(d) > b.At(d)
  {
    d := if a.cpu > b.cpu then LimitsCpu else if a.memory > b.memory then LimitsMemory
         else if a.requestsCpu > b.requestsCpu then RequestsCpu else RequestsMemory;
  }

  lemma RaisedWhenNothingShrinks(wanted: Amounts, current: Amounts)
    requires !Exceeds(current, wanted)
    ensures NeverMixed(wanted, current) == wanted
  {}

  /** Two reconciles settle the four values if and only if the second one is not mixed: the guard of the branch that
      forbids mixed changes. */
  lemma TwoSettleExactly(c: Setting, h: Amounts)
    requires Stored(c, h)
    ensures var w := Next(c, h);
            var two := Next(c, w);
            Next(c, two) == two <==> !IsMixed(c, w)
  {
    OneReconcileMeasures(c, h);
    OneSettlesExactly(c, Next(c, h));
  }

  // ----- The stored quota -----

  /** A quota object without stale aliases is final if and only if its values are. */
  lemma FinalQuota(c: Setting, hard: ResourceList)
    requires SaneScaler(c.scaler) && !HasStaleAlias(hard)
    ensures Reconcile(c, hard) == hard <==> Next(c, Read(hard)) == Read(hard)
  {
    ReconcileReads(c, hard);
    if Next(c, Read(hard)) == Read(hard) {
      SettledQuotaStays(c, hard);
    }
  }

  function Rounds(c: Setting, hard: ResourceList, n: nat): ResourceList {
    if n == 0 then hard else Reconcile(c, Rounds(c, hard, n - 1))
  }

  /** From any stored limits, three reconcile-and-patch rounds reach a quota object no further round touches; two do
      if and only if the second is not mixed, so they do wherever the stored limits show usage. */
  lemma RoundsSettle(c: Setting, hard: ResourceList)
    requires Stored(c, Read(hard))
    ensures Rounds(c, hard, 4) == Rounds(c, hard, 3)
    ensures Rounds(c, hard, 3) == Rounds(c, hard, 2) <==> !IsMixed(c, Read(Rounds(c, hard, 1)))
    ensures Converges(c, Read(hard)) ==> Rounds(c, hard, 3) == Rounds(c, hard, 2)
  {
    var one, two, three := Rounds(c, hard, 1), Rounds(c, hard, 2), Rounds(c, hard, 3);
    assert Rounds(c, hard, 0) == hard;
    ReconcileReads(c, hard);
    ReconcileReads(c, one);
    ReconcileReads(c, two);
    FinalQuota(c, two);
    FinalQuota(c, three);
    ThreeReconcilesSettle(c, Read(hard));
    TwoSettleExactly(c, Read(hard));
    if Converges(c, Read(hard)) {
      ReconcileConverges(c, hard);
    }
  }

  // ----- A quota that needs three rounds -----

  const EXAMPLE_SCALER := Scaler(Bounds(100, 10000, 100, 10000), [Policy(MemoryMethod, 30, 50)],
                                 [Policy(CpuMethod, 80, 80)])

  const EXAMPLE_USED: ResourceList :=
    map[LIMITS_CPU := 1000, REQUESTS_CPU := 1000, LIMITS_MEMORY := 100 * MILLI_PER_MEGA,
        REQUESTS_MEMORY := 100 * MILLI_PER_MEGA]

  function ExactPercentage(u: int, h: int): int { if h > 0 then 100 * u / h else 0 }

  lemma ExactIsPercentage()
    ensures IsPercentage(ExactPercentage)
  {
    forall u: int, h: int | u >= 0 && h > 0
      ensures 0 <= ExactPercentage(u, h) && 100 * u - h <= ExactPercentage(u, h) * h <= 100 * u
    {
      var q := Quotient(100 * u, h);
    }
  }

  const EXAMPLE_HARD: ResourceList :=
    map[LIMITS_CPU := 0, REQUESTS_CPU := 0, LIMITS_MEMORY := 1000 * MILLI_PER_MEGA,
        REQUESTS_MEMORY := 1000 * MILLI_PER_MEGA]

  lemma ExampleReads()
    ensures Read(EXAMPLE_HARD) == Amounts(0, 1000, 0, 1000, 0) && Read(EXAMPLE_USED) == Amounts(1000, 100, 1000, 100, 0)
  {
    assert |CPU| == 3 && |MEMORY| == 6 && |LIMITS_CPU| == 10 && |LIMITS_MEMORY| == 13;
    assert |REQUESTS_CPU| == 12 && |REQUESTS_MEMORY| == 15;
  }

  lemma ExampleRules(d: Dim)
    ensures BaseRule(EXAMPLE_SCALER, d) == if IsCpu(d) then Rule(100, 10000, None, Some(Policy(CpuMethod, 80, 80)))
                                         else Rule(100, 10000, Some(Policy(MemoryMethod, 30, 50)), None)
  {
    assert PolicyFor(EXAMPLE_SCALER.downs[..0], CpuMethod) == None
           && PolicyFor(EXAMPLE_SCALER.ups[..0], MemoryMethod) == None;
  }

  const EXAMPLE := Setting(ExactPercentage, EXAMPLE_SCALER, EXAMPLE_USED, None)

  lemma ExampleIsStored()
    ensures Stored(EXAMPLE, Read(EXAMPLE_HARD))
  {
    ExactIsPercentage();
    ExampleReads();
    forall d: Dim ensures Sane(BaseRule(EXAMPLE_SCALER, d)) && ValueOf(EXAMPLE_USED, d) == Read(EXAMPLE_USED).At(d) {
      ExampleRules(d);
    }
  }

  lemma ExampleRuns(d: Dim)
    ensures RuleOf(EXAMPLE, d) == if IsCpu(d) then Rule(100, 10000, None, Some(Policy(CpuMethod, 80, 80)))
                                  else Rule(100, 10000, Some(Policy(MemoryMethod, 30, 50)), None)
  {
    ExampleRules(d);
  }

  /** A stored CPU limit of zero shows no usage, so the CPU climbs twice and holds the memory up meanwhile: the third
      round still changes the quota object. */
  lemma ZeroLimitNeedsThree()
    ensures Stored(EXAMPLE, Read(EXAMPLE_HARD))
    ensures Rounds(EXAMPLE, EXAMPLE_HARD, 3) != Rounds(EXAMPLE, EXAMPLE_HARD, 2)
  {
    ExampleIsStored();
    ExampleReads();
    forall d: Dim ensures RuleOf(EXAMPLE, d) == if IsCpu(d) then Rule(100, 10000, None, Some(Policy(CpuMethod, 80, 80)))
                                                else Rule(100, 10000, Some(Policy(MemoryMethod, 30, 50)), None)
    {
      ExampleRuns(d);
    }
    assert Rounds(EXAMPLE, EXAMPLE_HARD, 0) == EXAMPLE_HARD;
    ReconcileReads(EXAMPLE, EXAMPLE_HARD);
    assert Next(EXAMPLE, Read(EXAMPLE_HARD)) == Amounts(100, 1000, 100, 1000, 0);
    assert IsMixed(EXAMPLE, Amounts(100, 1000, 100, 1000, 0));
    RoundsSettle(EXAMPLE, EXAMPLE_HARD);
  }
}

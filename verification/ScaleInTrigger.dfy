/** The debounce of automatic scale-in, over whole runs. */
module ScaleInTrigger {
  import opened Common
  import opened NodeScaling
  import opened ScaleInCapacity
  import opened NodeScalingRuns

  ghost predicate FoundEligible(c: Config, s: State, step: Step) {
    step.AutoEvaluate? && Completes(c, s, step.env) && EvaluationOf(s, step.listing).eligible
  }

  ghost predicate FoundIneligible(c: Config, s: State, step: Step) {
    step.AutoEvaluate? && Completes(c, s, step.env) && !EvaluationOf(s, step.listing).eligible
  }

  /** A scale-out that processed its whole selection. */
  ghost predicate Resets(c: Config, s: State, step: Step) {
    && step.ScaleOut? && GetInventory !in step.env.failing && s.stored.Some?
    && !NothingToActivate(c, s) && ActivateSelected(c, s, step.env).ok
  }

  ghost predicate Requests(c: Config, s: State, step: Step) {
    step.AutoEvaluate? && AutoEvaluated(c, s, step.env, step.listing, step.now).1
  }

  /** Anything that ends a period of eligibility. */
  ghost predicate Interrupts(c: Config, s: State, step: Step) {
    FoundIneligible(c, s, step) || Resets(c, s, step) || Requests(c, s, step)
  }

  // ----- The trigger by itself -----

  /** What a step means for the trigger. */
  datatype Mark = Ends | Finds(at: int) | Nothing

  function Moved(since: Option<int>, mark: Mark): Option<int> {
    match mark
    case Ends => None
    case Finds(at) => if since.None? then Some(at) else since
    case Nothing => since
  }

  /** The trigger's value before each of the first `n` steps, and what each step means for it. */
  ghost predicate Follows(since: nat -> Option<int>, mark: nat -> Mark, n: nat) {
    since(0) == None && forall m: nat :: m < n ==> since(m + 1) == Moved(since(m), mark(m))
  }

  /** A running period of eligibility began with a finding, and nothing ended it since. */
  lemma {:induction false} PeriodHasStart(since: nat -> Option<int>, mark: nat -> Mark, n: nat)
    requires Follows(since, mark, n)
    ensures since(n).Some? ==>
              exists k: nat ::
                k < n && mark(k) == Finds(since(n).value) && forall m: nat :: k <= m < n ==> mark(m) != Ends
  {
    if n > 0 && since(n).Some? {
      PeriodHasStart(since, mark, n - 1);
      assert since(n) == Moved(since(n - 1), mark(n - 1));
      if since(n - 1).Some? {
        var k: nat :| k < n - 1 && mark(k) == Finds(since(n - 1).value)
                      && forall m: nat :: k <= m < n - 1 ==> mark(m) != Ends;
        assert forall m: nat :: k <= m < n ==> mark(m) != Ends;
      } else {
        assert mark(n - 1) == Finds(since(n).value);
      }
    }
  }

  // ----- The trigger in a run -----

  ghost function MarkOf(c: Config, s: State, step: Step): Mark {
    if Interrupts(c, s, step) then Ends else if FoundEligible(c, s, step) then Finds(step.now) else Nothing
  }

  lemma EvaluationMovesTrigger(c: Config, s: State, step: Step)
    requires step.AutoEvaluate?
    ensures Next(c, s, step).eligibleSince == Moved(s.eligibleSince, MarkOf(c, s, step))
  {
    var e := EvaluationOf(s, step.listing);
    if Completes(c, s, step.env) {
      assert AutoEvaluated(c, s, step.env, step.listing, step.now) == Triggered(c, s, e, step.now);
    }
  }

  lemma ScaleOutMovesTrigger(c: Config, s: State, step: Step)
    requires step.ScaleOut?
    ensures Next(c, s, step).eligibleSince == Moved(s.eligibleSince, MarkOf(c, s, step))
  {}

  /** One step either keeps the start of the period, starts it, or ends it. */
  lemma StepMovesTrigger(c: Config, s: State, step: Step)
    ensures Next(c, s, step).eligibleSince == Moved(s.eligibleSince, MarkOf(c, s, step))
  {
    match step
    case Join(node) =>
    case SyncInventory(env, listing) =>
    case EnsureBaseline(env) =>
    case ScaleOut(env) => ScaleOutMovesTrigger(c, s, step);
    case ScaleIn(env, listing, now) =>
    case TickWaiter(env, pods, now, name) =>
    case AutoEvaluate(env, listing, now) => EvaluationMovesTrigger(c, s, step);
  }

  ghost function SinceAt(c: Config, s: State, steps: seq<Step>): nat -> Option<int> {
    (m: nat) => if m <= |steps| then StateAt(c, s, steps, m).eligibleSince else None
  }

  ghost function MarkAt(c: Config, s: State, steps: seq<Step>): nat -> Mark {
    (m: nat) => if m < |steps| then MarkOf(c, StateAt(c, s, steps, m), steps[m]) else Nothing
  }

  lemma StepFollows(c: Config, s: State, steps: seq<Step>, m: nat)
    requires m < |steps|
    ensures SinceAt(c, s, steps)(m + 1) == Moved(SinceAt(c, s, steps)(m), MarkAt(c, s, steps)(m))
  {
    StepMovesTrigger(c, StateAt(c, s, steps, m), steps[m]);
  }

  lemma RunFollows(c: Config, s: State, steps: seq<Step>, n: nat)
    requires s.eligibleSince == None && n <= |steps|
    ensures Follows(SinceAt(c, s, steps), MarkAt(c, s, steps), n)
  {
    var since, mark := SinceAt(c, s, steps), MarkAt(c, s, steps);
    forall m: nat | m < n ensures since(m + 1) == Moved(since(m), mark(m)) {
      StepFollows(c, s, steps, m);
    }
  }

  lemma RequestNeedsDelay(c: Config, s: State, step: Step)
    requires Requests(c, s, step)
    ensures FoundEligible(c, s, step)
    ensures s.eligibleSince.Some? && step.now - s.eligibleSince.value >= c.triggerDelay
  {}

  /** Every automatic request was preceded, by at least the trigger delay, by an evaluation that found the cluster
      eligible, with no ineligible evaluation, no scale-out and no other request in between. */
  lemma RequestIsDebounced(c: Config, s: State, steps: seq<Step>, j: nat) returns (k: nat)
    requires s.eligibleSince == None && j < |steps|
    requires Requests(c, StateAt(c, s, steps, j), steps[j])
    ensures k < j && FoundEligible(c, StateAt(c, s, steps, k), steps[k])
    ensures steps[j].now - steps[k].now >= c.triggerDelay
    ensures forall m :: k <= m < j ==> !Interrupts(c, StateAt(c, s, steps, m), steps[m])
  {
    var since, mark := SinceAt(c, s, steps), MarkAt(c, s, steps);
    RequestNeedsDelay(c, StateAt(c, s, steps, j), steps[j]);
    RunFollows(c, s, steps, j);
    PeriodHasStart(since, mark, j);
    k :| k < j && mark(k) == Finds(since(j).value) && forall m: nat :: k <= m < j ==> mark(m) != Ends;
    forall m | k <= m < j ensures !Interrupts(c, StateAt(c, s, steps, m), steps[m]) {
      assert mark(m) != Ends;
    }
  }

  /** Evaluations read a clock that never runs backwards. */
  ghost predicate Clocked(steps: seq<Step>) {
    forall i, j :: 0 <= i < j < |steps| && steps[i].AutoEvaluate? && steps[j].AutoEvaluate? ==>
      steps[i].now <= steps[j].now
  }

  /** Two automatic requests are at least the trigger delay apart. */
  lemma RequestsAreSpaced(c: Config, s: State, steps: seq<Step>, i: nat, j: nat)
    requires s.eligibleSince == None && i < j < |steps| && Clocked(steps)
    requires Requests(c, StateAt(c, s, steps, i), steps[i]) && Requests(c, StateAt(c, s, steps, j), steps[j])
    ensures steps[j].now - steps[i].now >= c.triggerDelay
  {
    var k := RequestIsDebounced(c, s, steps, j);
    assert i < k by {
      assert Interrupts(c, StateAt(c, s, steps, i), steps[i]);
    }
  }

  // ----- One evaluation, exactly -----

  /** What an evaluation needs: the quota objects, no node being drained, the lists and the inventory. */
  ghost predicate CanEvaluate(c: Config, s: State, env: Env) {
    && c.quotaClient && s.waiters == map[] && s.stored.Some?
    && ListNodes !in env.failing && ListPods !in env.failing && GetInventory !in env.failing
  }

  /** A completed evaluation starts, keeps or ends the period; a request goes to the queue if that has room. */
  ghost predicate Advanced(s: State, t: State, e: Evaluation, requests: bool, now: int) {
    && t == s.(eligibleSince := t.eligibleSince, queue := t.queue)
    && t.eligibleSince == (if !e.eligible || requests then None
                           else if s.eligibleSince.None? then Some(now) else s.eligibleSince)
    && t.queue == (if requests && |s.queue| < 128 then s.queue + [Request(e.removable, e.projected)] else s.queue)
  }

  /** An evaluation starts a period when it finds the cluster eligible, ends it when it does not, and requests a
      scale-in when the period has lasted for the delay; the request reaches the queue if there is room. Nothing else
      changes. */
  lemma EvaluationDoes(c: Config, s: State, env: Env, listing: Listing, now: int)
    ensures var e, t := EvaluationOf(s, listing), AutoEvaluated(c, s, env, listing, now).0;
            var requests := CanEvaluate(c, s, env) && e.eligible && s.eligibleSince.Some?
                            && now - s.eligibleSince.value >= c.triggerDelay;
            && (AutoEvaluated(c, s, env, listing, now).1 <==> requests)
            && (if CanEvaluate(c, s, env) then Advanced(s, t, e, requests, now) else t == s)
  {
    CanEvaluateIs(c, s, env);
    if CanEvaluate(c, s, env) {
      TriggerAdvances(c, s, EvaluationOf(s, listing), now);
    }
  }

  lemma CanEvaluateIs(c: Config, s: State, env: Env)
    ensures Completes(c, s, env) <==> CanEvaluate(c, s, env)
  {
    assert |s.waiters| == 0 <==> s.waiters == map[];
  }

  lemma TriggerAdvances(c: Config, s: State, e: Evaluation, now: int)
    ensures var requests := e.eligible && s.eligibleSince.Some? && now - s.eligibleSince.value >= c.triggerDelay;
            (Triggered(c, s, e, now).1 <==> requests) && Advanced(s, Triggered(c, s, e, now).0, e, requests, now)
  {}

  lemma FirstFindingStartsPeriod(c: Config, s: State, env: Env, listing: Listing, now: int)
    requires CanEvaluate(c, s, env) && EvaluationOf(s, listing).eligible && s.eligibleSince == None
    ensures AutoEvaluated(c, s, env, listing, now).0 == s.(eligibleSince := Some(now))
  {
    EvaluationDoes(c, s, env, listing, now);
  }

  lemma LastingFindingRequests(c: Config, s: State, env: Env, listing: Listing, now: int)
    requires CanEvaluate(c, s, env) && EvaluationOf(s, listing).eligible && s.eligibleSince.Some?
    requires now - s.eligibleSince.value >= c.triggerDelay
    ensures AutoEvaluated(c, s, env, listing, now).1
  {
    EvaluationDoes(c, s, env, listing, now);
  }
}

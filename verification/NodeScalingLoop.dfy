/** The controller's loop: it performs runs of the state machine, in its program order. */
module NodeScalingLoop {
  import opened NodeScaling
  import opened NodeScalingRuns
  import opened NodeScalingController
  import opened NodeScalingOrder
  import opened UsedNodes

  /** One operation of the loop, one tick of a waiter, or a node joining the cluster. */
  method Perform(controller: Controller, step: Step)
    modifies controller, controller.client, controller.store, controller.runtime
    ensures controller.Value() == Next(controller.config, old(controller.Value()), step)
  {
    match step {
      case Join(node) =>
        controller.client.nodes := controller.client.nodes[node.name := node];
      case SyncInventory(env, listing) =>
        controller.SyncScalingNodeInventory(env, listing);
      case EnsureBaseline(env) =>
        controller.EnsureMachineDeploymentReplicaBaseline(env);
      case ScaleOut(env) =>
        var _ := controller.ReconcileScaleOut(env);
      case ScaleIn(env, listing, now) =>
        if |controller.queue| > 0 {
          var request := controller.queue[0];
          controller.queue := controller.queue[1..];
          var _ := controller.ReconcileScaleIn(request, env, listing, now);
        }
      case TickWaiter(env, pods, now, name) =>
        if name in controller.waiters {
          controller.TickWaiter(name, env, pods, now);
        }
      case AutoEvaluate(env, listing, now) =>
        var _ := controller.EvaluateAutomaticScaleIn(env, listing, now);
    }
  }

  /** Several steps in a row. */
  method PerformAll(controller: Controller, steps: seq<Step>)
    modifies controller, controller.client, controller.store, controller.runtime
    ensures controller.Value() == After(controller.config, old(controller.Value()), steps)
  {
    for i := 0 to |steps|
      invariant controller.Value() == StateAt(controller.config, old(controller.Value()), steps, i)
    {
      Perform(controller, steps[i]);
    }
  }

  // ----- The loop -----

  /** What happens before the loop: the baseline, and the first sync. Nodes may join and waiters may tick in between. */
  datatype Start = Start(baseline: Env, between: seq<Step>, sync: Env, listing: Listing)

  /** One turn of the loop: a request from one of the two queues, or the ticker; or something outside the loop. */
  datatype Turn =
    | Outside(step: Step)
    | ScaleOutRequest(env: Env)
    | ScaleInRequest(env: Env, listing: Listing, now: int)
    | Ticker(sync: Env, listing: Listing, between: seq<Step>, evaluation: Env, later: Listing, now: int)

  function StartSteps(start: Start): seq<Step> {
    [EnsureBaseline(start.baseline)] + start.between + [SyncInventory(start.sync, start.listing)]
  }

  function TurnSteps(turn: Turn): seq<Step> {
    match turn
    case Outside(step) => [step]
    case ScaleOutRequest(env) => [ScaleOut(env)]
    case ScaleInRequest(env, listing, now) => [ScaleIn(env, listing, now)]
    case Ticker(sync, listing, between, evaluation, later, now) =>
      [SyncInventory(sync, listing)] + between + [AutoEvaluate(evaluation, later, now)]
  }

  /** All steps up to and including the `n`-th turn. */
  function StepsOf(start: Start, turns: seq<Turn>, n: nat): seq<Step>
    requires n <= |turns|
  {
    if n == 0 then StartSteps(start) else StepsOf(start, turns, n - 1) + TurnSteps(turns[n - 1])
  }

  function After(c: Config, s: State, steps: seq<Step>): State { StateAt(c, s, steps, |steps|) }

  lemma {:induction false} StateInPrefix(c: Config, s: State, steps: seq<Step>, more: seq<Step>, n: nat)
    requires n <= |steps|
    ensures StateAt(c, s, steps + more, n) == StateAt(c, s, steps, n)
  {
    if n > 0 {
      StateInPrefix(c, s, steps, more, n - 1);
    }
  }

  lemma {:induction false} AfterMore(c: Config, s: State, steps: seq<Step>, more: seq<Step>)
    ensures After(c, s, steps + more) == After(c, After(c, s, steps), more)
  {
    if |more| == 0 {
      assert steps + more == steps;
    } else {
      var front, last := more[..|more| - 1], more[|more| - 1];
      AfterMore(c, s, steps, front);
      assert steps + more == (steps + front) + [last];
      StateInPrefix(c, s, steps + front, [last], |steps + front|);
      assert more == front + [last];
      StateInPrefix(c, After(c, s, steps), front, [last], |front|);
    }
  }

  lemma AfterOne(c: Config, s: State, step: Step)
    ensures After(c, s, [step]) == Next(c, s, step)
  {
    assert StateAt(c, s, [step], 0) == s;
  }

  /** A step, whatever comes in between, and a second step. */
  lemma AfterBoth(c: Config, s: State, first: Step, between: seq<Step>, second: Step)
    ensures After(c, s, [first] + between + [second]) == Next(c, After(c, Next(c, s, first), between), second)
  {
    AfterMore(c, s, [first] + between, [second]);
    AfterMore(c, s, [first], between);
    AfterOne(c, s, first);
    AfterOne(c, After(c, Next(c, s, first), between), second);
  }

  method PerformBoth(controller: Controller, first: Step, between: seq<Step>, second: Step)
    modifies controller, controller.client, controller.store, controller.runtime
    ensures controller.Value() == After(controller.config, old(controller.Value()), [first] + between + [second])
  {
    AfterBoth(controller.config, controller.Value(), first, between, second);
    Perform(controller, first);
    PerformAll(controller, between);
    Perform(controller, second);
  }

  method TakeTurn(controller: Controller, turn: Turn)
    modifies controller, controller.client, controller.store, controller.runtime
    ensures controller.Value() == After(controller.config, old(controller.Value()), TurnSteps(turn))
  {
    match turn {
      case Outside(step) =>
        AfterOne(controller.config, controller.Value(), step);
        Perform(controller, step);
      case ScaleOutRequest(env) =>
        AfterOne(controller.config, controller.Value(), ScaleOut(env));
        Perform(controller, ScaleOut(env));
      case ScaleInRequest(env, listing, now) =>
        AfterOne(controller.config, controller.Value(), ScaleIn(env, listing, now));
        Perform(controller, ScaleIn(env, listing, now));
      case Ticker(sync, listing, between, evaluation, later, now) =>
        PerformBoth(controller, SyncInventory(sync, listing), between, AutoEvaluate(evaluation, later, now));
    }
  }

  /** The baseline and a sync, then turn after turn; a ticker turn is a sync followed by an evaluation. */
  method Run(controller: Controller, start: Start, turns: seq<Turn>)
    modifies controller, controller.client, controller.store, controller.runtime
    ensures controller.Value() == After(controller.config, old(controller.Value()), StepsOf(start, turns, |turns|))
  {
    PerformBoth(controller, EnsureBaseline(start.baseline), start.between, SyncInventory(start.sync, start.listing));
    for i := 0 to |turns|
      invariant controller.Value() == After(controller.config, old(controller.Value()), StepsOf(start, turns, i))
    {
      TakeTurn(controller, turns[i]);
      AfterMore(controller.config, old(controller.Value()), StepsOf(start, turns, i), TurnSteps(turns[i]));
    }
  }

  // ----- Its steps are in order -----

  predicate AllOutside(steps: seq<Step>) { forall i :: 0 <= i < |steps| ==> IsOutside(steps[i]) }

  predicate IsTurn(turn: Turn) {
    match turn
    case Outside(step) => IsOutside(step)
    case Ticker(_, _, between, _, _, _) => AllOutside(between)
    case _ => true
  }

  ghost predicate OrderedTo(steps: seq<Step>, phase: Phase) { InOrder(steps) && PhaseAt(steps, |steps|) == phase }

  lemma {:induction false} PhaseInPrefix(steps: seq<Step>, more: seq<Step>, n: nat)
    requires n <= |steps|
    ensures PhaseAt(steps + more, n) == PhaseAt(steps, n)
  {
    if n > 0 {
      PhaseInPrefix(steps, more, n - 1);
    }
  }

  lemma OneMoreInOrder(steps: seq<Step>, phase: Phase, step: Step)
    requires OrderedTo(steps, phase) && Allowed(phase, step)
    ensures OrderedTo(steps + [step], Follow(phase, step))
  {
    var more := steps + [step];
    forall i | 0 <= i < |more| ensures Allowed(PhaseAt(more, i), more[i]) {
      PhaseInPrefix(steps, [step], i);
    }
    PhaseInPrefix(steps, [step], |steps|);
  }

  lemma {:induction false} OutsideInOrder(steps: seq<Step>, phase: Phase, between: seq<Step>)
    requires OrderedTo(steps, phase) && AllOutside(between)
    ensures OrderedTo(steps + between, phase)
  {
    if |between| == 0 {
      assert steps + between == steps;
    } else {
      var front, last := between[..|between| - 1], between[|between| - 1];
      OutsideInOrder(steps, phase, front);
      OneMoreInOrder(steps + front, phase, last);
      assert steps + between == (steps + front) + [last];
    }
  }

  lemma BothInOrder(steps: seq<Step>, phase: Phase, first: Step, between: seq<Step>, second: Step)
    requires OrderedTo(steps, phase) && Allowed(phase, first) && AllOutside(between)
    requires Allowed(Follow(phase, first), second)
    ensures OrderedTo(steps + ([first] + between + [second]), Follow(Follow(phase, first), second))
  {
    OneMoreInOrder(steps, phase, first);
    OutsideInOrder(steps + [first], Follow(phase, first), between);
    OneMoreInOrder(steps + [first] + between, Follow(phase, first), second);
    assert steps + ([first] + between + [second]) == (steps + [first] + between) + [second];
  }

  lemma TurnInOrder(before: seq<Step>, turn: Turn)
    requires OrderedTo(before, Idle) && IsTurn(turn)
    ensures OrderedTo(before + TurnSteps(turn), Idle)
  {
    match turn {
      case Outside(step) => OneMoreInOrder(before, Idle, step);
      case ScaleOutRequest(env) => OneMoreInOrder(before, Idle, ScaleOut(env));
      case ScaleInRequest(env, listing, now) => OneMoreInOrder(before, Idle, ScaleIn(env, listing, now));
      case Ticker(sync, listing, between, evaluation, later, now) =>
        BothInOrder(before, Idle, SyncInventory(sync, listing), between, AutoEvaluate(evaluation, later, now));
    }
  }

  lemma StartInOrder(start: Start)
    requires AllOutside(start.between)
    ensures OrderedTo(StartSteps(start), Idle)
  {
    assert OrderedTo([], Starting);
    BothInOrder([], Starting, EnsureBaseline(start.baseline), start.between,
                SyncInventory(start.sync, start.listing));
    assert [] + StartSteps(start) == StartSteps(start);
  }

  /** What the loop performs is in its program order. */
  lemma {:induction false} LoopIsInOrder(start: Start, turns: seq<Turn>, n: nat)
    requires AllOutside(start.between) && n <= |turns| && forall i :: 0 <= i < |turns| ==> IsTurn(turns[i])
    ensures OrderedTo(StepsOf(start, turns, n), Idle)
  {
    if n == 0 {
      StartInOrder(start);
    } else {
      LoopIsInOrder(start, turns, n - 1);
      TurnInOrder(StepsOf(start, turns, n - 1), turns[n - 1]);
    }
  }

  /** What each turn does to the state: a request is taken off its queue and served; a ticker turn syncs the
      inventory and evaluates what is there then. */
  lemma TurnDoes(c: Config, s: State, turn: Turn)
    ensures var t := After(c, s, TurnSteps(turn));
            match turn
            case Outside(step) => t == Next(c, s, step)
            case ScaleOutRequest(env) => t == ScaledOut(c, s, env).0
            case ScaleInRequest(env, listing, now) =>
              if s.queue == [] then t == s
              else
                var rest := State(s.nodes, s.stored, s.register, s.waiters, s.eligibleSince, s.queue[1..]);
                t == ScaledIn(c, rest, env, listing, now, s.queue[0]).0
            case Ticker(sync, listing, between, evaluation, later, now) =>
              t == AutoEvaluated(c, After(c, InventorySynced(s, sync, listing), between), evaluation, later, now).0
  {
    match turn
    case Outside(step) => AfterOne(c, s, step);
    case ScaleOutRequest(env) => AfterOne(c, s, ScaleOut(env));
    case ScaleInRequest(env, listing, now) => AfterOne(c, s, ScaleIn(env, listing, now));
    case Ticker(sync, listing, between, evaluation, later, now) =>
      AfterBoth(c, s, SyncInventory(sync, listing), between, AutoEvaluate(evaluation, later, now));
  }

  /** Before the first turn the baseline is set and the inventory is synced. */
  lemma StartDoes(c: Config, s: State, start: Start)
    ensures After(c, s, StartSteps(start))
            == InventorySynced(After(c, s.(register := Baselined(c, s.register, start.baseline)), start.between),
                               start.sync, start.listing)
  {
    AfterBoth(c, s, EnsureBaseline(start.baseline), start.between, SyncInventory(start.sync, start.listing));
  }
}

/** Seen from one namespace, the resize worker is a machine of its own: other namespaces do not disturb it. */
module ResizeProjection {
  import opened Common
  import opened ResizeWorker
  import opened ResizeRuns

  /** The worker of a single namespace: at most one call, at most one waiting event. */
  datatype Solo = Solo(busy: bool, waiting: Option<Event>, lastDone: Option<int>, flight: Option<(Event, bool)>,
                       started: seq<Start>)

  function SoloMayStart(lastDone: Option<int>, e: Event, now: int, interval: int): bool {
    e.immediate || lastDone.None? || lastDone.value + interval <= now
  }

  function SoloNext(s: Solo, step: Step, interval: int): Solo {
    match step
    case Submit(e, now) =>
      if s.busy then
        if e.immediate || s.waiting.None? || !s.waiting.value.immediate
        then Solo(s.busy, Some(e), s.lastDone, s.flight, s.started)
        else s
      else if SoloMayStart(s.lastDone, e, now, interval)
      then Solo(true, s.waiting, s.lastDone, Some((e, false)), s.started + [Start(e, now)])
      else s
    case ApiReturns(e) => Solo(s.busy, s.waiting, s.lastDone, Some((e, true)), s.started)
    case Done(e, doneAt, now) =>
      if s.waiting.Some? && SoloMayStart(Some(doneAt), s.waiting.value, now, interval)
      then Solo(true, None, Some(doneAt), Some((s.waiting.value, false)), s.started + [Start(s.waiting.value, now)])
      else Solo(false, None, Some(doneAt), None, s.started)
  }

  predicate SoloEnabled(s: Solo, step: Step) {
    match step
    case Submit(_, _) => true
    case ApiReturns(e) => s.flight == Some((e, false))
    case Done(e, doneAt, now) => s.flight == Some((e, true)) && doneAt <= now
  }

  function SoloRun(s: Solo, steps: seq<Step>, interval: int): Solo
    decreases |steps|
  {
    if |steps| == 0 then s else SoloRun(SoloNext(s, steps[0], interval), steps[1..], interval)
  }

  predicate IsSoloRun(s: Solo, steps: seq<Step>, interval: int)
    decreases |steps|
  {
    |steps| > 0 ==> SoloEnabled(s, steps[0]) && IsSoloRun(SoloNext(s, steps[0], interval), steps[1..], interval)
  }

  const SOLO_IDLE := Solo(false, None, None, None, [])

  function StartsOf(starts: seq<Start>, ns: string): seq<Start> {
    if |starts| == 0 then []
    else
      var front, last := StartsOf(starts[..|starts| - 1], ns), starts[|starts| - 1];
      if last.event.namespace == ns then front + [last] else front
  }

  ghost function FlightOf(flights: map<Event, bool>, ns: string): Option<(Event, bool)> {
    if e :| e in flights && e.namespace == ns then Some((e, flights[e])) else None
  }

  function Get<T>(m: map<string, T>, ns: string): Option<T> { if ns in m then Some(m[ns]) else None }

  ghost function Project(w: Worker, ns: string): Solo {
    Solo(Busy(w, ns), Get(w.pending, ns), Get(w.cache, ns), FlightOf(w.flights, ns), StartsOf(w.started, ns))
  }

  function Own(steps: seq<Step>, ns: string): seq<Step>
    decreases |steps|
  {
    if |steps| == 0 then []
    else if steps[0].event.namespace == ns then [steps[0]] + Own(steps[1..], ns)
    else Own(steps[1..], ns)
  }

  lemma StartsOfOneMore(starts: seq<Start>, s: Start, ns: string)
    ensures StartsOf(starts + [s], ns)
            == if s.event.namespace == ns then StartsOf(starts, ns) + [s] else StartsOf(starts, ns)
  {
    assert (starts + [s])[..|starts|] == starts;
  }

  ghost predicate OnePerNamespace(flights: map<Event, bool>) {
    forall d, e :: d in flights && e in flights && d.namespace == e.namespace ==> d == e
  }

  lemma FlightOfIs(flights: map<Event, bool>, e: Event)
    requires OnePerNamespace(flights) && e in flights
    ensures FlightOf(flights, e.namespace) == Some((e, flights[e]))
  {
    assert exists f :: f in flights && f.namespace == e.namespace;
  }

  lemma FlightOfNone(flights: map<Event, bool>, ns: string)
    requires forall e :: e in flights ==> e.namespace != ns
    ensures FlightOf(flights, ns) == None
  {}

  /** Changes to other namespaces' goroutines do not show. */
  lemma FlightOfOthers(before: map<Event, bool>, after: map<Event, bool>, ns: string)
    requires OnePerNamespace(before)
    requires forall e: Event :: e.namespace == ns ==> (e in before <==> e in after)
    requires forall e: Event :: e.namespace == ns && e in before ==> before[e] == after[e]
    ensures FlightOf(before, ns) == FlightOf(after, ns)
  {
    if e :| e in before && e.namespace == ns {
      FlightOfIs(before, e);
      assert exists f :: f in after && f.namespace == ns;
    } else {
      FlightOfNone(before, ns);
      FlightOfNone(after, ns);
    }
  }

  lemma LaunchUnseen(flights: map<Event, bool>, e: Event, ns: string)
    requires OnePerNamespace(flights) && e.namespace != ns
    ensures FlightOf(flights[e := false], ns) == FlightOf(flights, ns)
  {
    FlightOfOthers(flights, flights[e := false], ns);
  }

  lemma LandingUnseen(flights: map<Event, bool>, e: Event, ns: string)
    requires OnePerNamespace(flights) && e.namespace != ns
    ensures FlightOf(flights - {e}, ns) == FlightOf(flights, ns)
    ensures OnePerNamespace(flights - {e})
  {
    FlightOfOthers(flights, flights - {e}, ns);
  }

  lemma SameView(w: Worker, v: Worker, ns: string)
    requires Busy(w, ns) == Busy(v, ns) && Get(w.pending, ns) == Get(v.pending, ns)
    requires Get(w.cache, ns) == Get(v.cache, ns)
    requires FlightOf(w.flights, ns) == FlightOf(v.flights, ns) && StartsOf(w.started, ns) == StartsOf(v.started, ns)
    ensures Project(v, ns) == Project(w, ns)
  {}

  lemma StartElsewhere(w: Worker, e: Event, now: int, interval: int, ns: string)
    requires Serialised(w) && e.namespace != ns && !Busy(w, e.namespace) && MayStart(w.cache, e, now, interval)
    ensures Project(Submitted(w, e, now, interval), ns) == Project(w, ns)
  {
    LaunchUnseen(w.flights, e, ns);
    StartsOfOneMore(w.started, Start(e, now), ns);
    SameView(w, Submitted(w, e, now, interval), ns);
  }

  lemma SubmitElsewhere(w: Worker, e: Event, now: int, interval: int, ns: string)
    requires Serialised(w) && e.namespace != ns
    ensures Project(Submitted(w, e, now, interval), ns) == Project(w, ns)
  {
    var v := Submitted(w, e, now, interval);
    if Busy(w, e.namespace) {
      assert v.inProgress == w.inProgress && v.cache == w.cache && v.flights == w.flights && v.started == w.started;
      assert v.pending == w.pending || v.pending == w.pending[e.namespace := e];
      SameView(w, v, ns);
    } else if MayStart(w.cache, e, now, interval) {
      StartElsewhere(w, e, now, interval, ns);
    } else {
      SameView(w, v, ns);
    }
  }

  lemma HandOverElsewhere(w: Worker, e: Event, doneAt: int, now: int, interval: int, ns: string)
    requires Serialised(w) && e.namespace != ns && e.namespace in w.pending
    requires MayStart(w.cache[e.namespace := doneAt], w.pending[e.namespace], now, interval)
    ensures Project(Completed(w, e, doneAt, now, interval), ns) == Project(w, ns)
  {
    var next, v := w.pending[e.namespace], Completed(w, e, doneAt, now, interval);
    assert next.namespace == e.namespace;
    LandingUnseen(w.flights, e, ns);
    LaunchUnseen(w.flights - {e}, next, ns);
    StartsOfOneMore(w.started, Start(next, now), ns);
    SameView(w, v, ns);
  }

  lemma DoneElsewhere(w: Worker, e: Event, doneAt: int, now: int, interval: int, ns: string)
    requires Serialised(w) && e.namespace != ns
    ensures Project(Completed(w, e, doneAt, now, interval), ns) == Project(w, ns)
  {
    if e.namespace in w.pending && MayStart(w.cache[e.namespace := doneAt], w.pending[e.namespace], now, interval) {
      HandOverElsewhere(w, e, doneAt, now, interval, ns);
    } else {
      LandingUnseen(w.flights, e, ns);
      SameView(w, Completed(w, e, doneAt, now, interval), ns);
    }
  }

  lemma SubmitBusyHere(w: Worker, e: Event, now: int, interval: int)
    requires Busy(w, e.namespace)
    ensures Project(Submitted(w, e, now, interval), e.namespace)
            == SoloNext(Project(w, e.namespace), Submit(e, now), interval)
  {
    var v, ns := Submitted(w, e, now, interval), e.namespace;
    assert v.inProgress == w.inProgress && v.cache == w.cache && v.flights == w.flights && v.started == w.started;
    assert v.pending == w.pending || v.pending == w.pending[ns := e];
  }

  lemma SubmitStartsHere(w: Worker, e: Event, now: int, interval: int)
    requires Serialised(w) && e !in w.flights && !Busy(w, e.namespace) && MayStart(w.cache, e, now, interval)
    ensures Project(Submitted(w, e, now, interval), e.namespace)
            == SoloNext(Project(w, e.namespace), Submit(e, now), interval)
  {
    assert forall f :: f in w.flights ==> On(w.inProgress, f.namespace);
    assert OnePerNamespace(w.flights[e := false]);
    FlightOfIs(w.flights[e := false], e);
    StartsOfOneMore(w.started, Start(e, now), e.namespace);
  }

  lemma SubmitHere(w: Worker, e: Event, now: int, interval: int)
    requires Serialised(w) && e !in w.flights
    ensures Project(Submitted(w, e, now, interval), e.namespace)
            == SoloNext(Project(w, e.namespace), Submit(e, now), interval)
  {
    var v, ns := Submitted(w, e, now, interval), e.namespace;
    if Busy(w, ns) {
      SubmitBusyHere(w, e, now, interval);
    } else if MayStart(w.cache, e, now, interval) {
      SubmitStartsHere(w, e, now, interval);
    } else {
      assert Project(v, ns) == SoloNext(Project(w, ns), Submit(e, now), interval);
    }
  }

  lemma HandOverHere(w: Worker, e: Event, doneAt: int, now: int, interval: int)
    requires Serialised(w) && e in w.flights && e.namespace in w.pending
    requires MayStart(w.cache[e.namespace := doneAt], w.pending[e.namespace], now, interval)
    ensures Project(Completed(w, e, doneAt, now, interval), e.namespace)
         == SoloNext(Project(w, e.namespace), Done(e, doneAt, now), interval)
  {
    var ns := e.namespace;
    var next := w.pending[ns];
    var flights := (w.flights - {e})[next := false];
    assert next.namespace == ns && On(w.inProgress, ns);
    assert OnePerNamespace(flights);
    FlightOfIs(flights, next);
    StartsOfOneMore(w.started, Start(next, now), ns);
  }

  lemma DoneHere(w: Worker, e: Event, doneAt: int, now: int, interval: int)
    requires Serialised(w) && e in w.flights
    ensures Project(Completed(w, e, doneAt, now, interval), e.namespace)
         == SoloNext(Project(w, e.namespace), Done(e, doneAt, now), interval)
  {
    var v, ns := Completed(w, e, doneAt, now, interval), e.namespace;
    if ns in w.pending && MayStart(w.cache[ns := doneAt], w.pending[ns], now, interval) {
      HandOverHere(w, e, doneAt, now, interval);
    } else {
      FlightOfNone(w.flights - {e}, ns);
      assert Project(v, ns) == SoloNext(Project(w, ns), Done(e, doneAt, now), interval);
    }
  }

  lemma ReturnProjects(w: Worker, e: Event, ns: string)
    requires Serialised(w) && e in w.flights && !w.flights[e]
    ensures e.namespace != ns ==> Project(Returned(w, e), ns) == Project(w, ns)
    ensures e.namespace == ns ==>
              FlightOf(w.flights, ns) == Some((e, false)) && FlightOf(Returned(w, e).flights, ns) == Some((e, true))
  {
    assert OnePerNamespace(w.flights[e := true]);
    FlightOfIs(w.flights, e);
    FlightOfIs(w.flights[e := true], e);
    if e.namespace != ns {
      FlightOfOthers(w.flights, w.flights[e := true], ns);
    }
  }

  /** A step of another namespace leaves this one alone; a step of its own is the single machine's step. */
  lemma StepProjects(w: Worker, step: Step, interval: int, ns: string)
    requires Invariant(w, interval) && Enabled(w, step)
    ensures step.event.namespace != ns ==> Project(Next(w, step, interval), ns) == Project(w, ns)
    ensures step.event.namespace == ns ==>
              SoloEnabled(Project(w, ns), step)
              && Project(Next(w, step, interval), ns) == SoloNext(Project(w, ns), step, interval)
  {
    match step
    case Submit(e, now) =>
      if e.namespace == ns {
        assert e !in w.submitted;
        SubmitHere(w, e, now, interval);
      } else {
        SubmitElsewhere(w, e, now, interval, ns);
      }
    case ApiReturns(e) =>
      ReturnProjects(w, e, ns);
    case Done(e, doneAt, now) =>
      FlightOfIs(w.flights, e);
      if e.namespace == ns {
        DoneHere(w, e, doneAt, now, interval);
      } else {
        DoneElsewhere(w, e, doneAt, now, interval, ns);
      }
  }

  /** Any run of the worker, seen from one namespace, is a run of the single-namespace machine. */
  lemma {:induction false} RunProjects(w: Worker, steps: seq<Step>, interval: int, ns: string)
    requires Invariant(w, interval) && IsRun(w, steps, interval)
    ensures IsSoloRun(Project(w, ns), Own(steps, ns), interval)
    ensures Project(Run(w, steps, interval), ns) == SoloRun(Project(w, ns), Own(steps, ns), interval)
    decreases |steps|
  {
    if |steps| > 0 {
      StepProjects(w, steps[0], interval, ns);
      StepKeepsInvariant(w, steps[0], interval);
      RunProjects(Next(w, steps[0], interval), steps[1..], interval, ns);
      if steps[0].event.namespace == ns {
        assert Own(steps, ns)[1..] == Own(steps[1..], ns);
      }
    }
  }

  /** ... in particular any run from the start. */
  lemma EveryRunProjects(steps: seq<Step>, interval: int, ns: string)
    requires IsRun(IDLE, steps, interval)
    ensures IsSoloRun(SOLO_IDLE, Own(steps, ns), interval)
    ensures Project(Run(IDLE, steps, interval), ns) == SoloRun(SOLO_IDLE, Own(steps, ns), interval)
  {
    IdleIsFine(interval);
    RunProjects(IDLE, steps, interval, ns);
  }
}

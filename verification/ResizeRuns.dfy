/** What holds in every run of the resize worker. */
module ResizeRuns {
  import opened ResizeWorker

  // ----- One call at a time per namespace -----

  ghost predicate On(inProgress: map<string, bool>, ns: string) { ns in inProgress && inProgress[ns] }

  ghost predicate InFlight(flying: set<Event>, ns: string) {
    exists e :: e in flying && e.namespace == ns
  }

  ghost predicate Serial(inProgress: map<string, bool>, flying: set<Event>, pending: map<string, Event>) {
    && (forall ns :: On(inProgress, ns) ==> InFlight(flying, ns))
    && (forall e :: e in flying ==> On(inProgress, e.namespace))
    && (forall d, e :: d in flying && e in flying && d.namespace == e.namespace ==> d == e)
    && (forall ns :: ns in pending ==> pending[ns].namespace == ns && On(inProgress, ns))
  }

  /** In-progress exactly while one goroutine of the namespace exists; a waiting event only meanwhile. */
  ghost predicate Serialised(w: Worker) { Serial(w.inProgress, w.flights.Keys, w.pending) }

  lemma LaunchIsSerial(inProgress: map<string, bool>, flying: set<Event>, pending: map<string, Event>, e: Event)
    requires Serial(inProgress, flying, pending) && !On(inProgress, e.namespace)
    ensures Serial(inProgress[e.namespace := true], flying + {e}, pending)
  {
    var on, flies := inProgress[e.namespace := true], flying + {e};
    forall ns | On(on, ns) ensures InFlight(flies, ns) {
      if ns == e.namespace {
        assert e in flies;
      } else {
        assert On(inProgress, ns);
        var f :| f in flying && f.namespace == ns;
        assert f in flies;
      }
    }
    forall f | f in flies ensures On(on, f.namespace) {
      assert f == e || On(inProgress, f.namespace);
    }
    forall ns | ns in pending ensures On(on, ns) {
      assert On(inProgress, ns);
    }
  }

  /** The last goroutine of a namespace reports and nothing else is to run. */
  lemma LandingIsSerial(inProgress: map<string, bool>, flying: set<Event>, pending: map<string, Event>, e: Event)
    requires Serial(inProgress, flying, pending) && e in flying
    ensures Serial(inProgress[e.namespace := false], flying - {e}, pending - {e.namespace})
  {
    var off, flies := inProgress[e.namespace := false], flying - {e};
    forall ns | On(off, ns) ensures InFlight(flies, ns) {
      assert On(inProgress, ns);
      var f :| f in flying && f.namespace == ns;
      assert f in flies;
    }
    forall f | f in flies ensures On(off, f.namespace) {
      assert On(inProgress, f.namespace);
    }
    forall ns | ns in pending - {e.namespace} ensures On(off, ns) {
      assert On(inProgress, ns);
    }
  }

  /** The waiting event takes over from the goroutine that reports. */
  lemma HandOverIsSerial(inProgress: map<string, bool>, flying: set<Event>, pending: map<string, Event>, e: Event)
    requires Serial(inProgress, flying, pending) && e in flying && e.namespace in pending
    ensures Serial(inProgress, flying - {e} + {pending[e.namespace]}, pending - {e.namespace})
  {
    var next := pending[e.namespace];
    var flies := flying - {e} + {next};
    forall ns | On(inProgress, ns) ensures InFlight(flies, ns) {
      if ns == e.namespace {
        assert next in flies;
      } else {
        var f :| f in flying && f.namespace == ns;
        assert f in flies;
      }
    }
  }

  ghost predicate Numbers(submitted: multiset<Event>, pending: map<string, Event>, flying: set<Event>) {
    && (forall e :: e in submitted ==> e.tag < |submitted|)
    && (forall ns :: ns in pending ==> pending[ns] in submitted && pending[ns] !in flying)
    && (forall e :: e in flying ==> e in submitted)
  }

  /** Tags number the submissions. */
  ghost predicate Numbered(w: Worker) { Numbers(w.submitted, w.pending, w.flights.Keys) }

  // ----- Nothing is lost -----

  function StartedBag(starts: seq<Start>): multiset<Event> {
    if |starts| == 0 then multiset{} else StartedBag(starts[..|starts| - 1]) + multiset{starts[|starts| - 1].event}
  }

  function LoserBag(ds: seq<Displacement>): multiset<Event> {
    if |ds| == 0 then multiset{} else LoserBag(ds[..|ds| - 1]) + multiset{ds[|ds| - 1].loser}
  }

  function Waiting(pending: map<string, Event>, e: Event): nat {
    if e.namespace in pending && pending[e.namespace] == e then 1 else 0
  }

  ghost predicate Balanced(submitted: multiset<Event>, started: multiset<Event>, pending: map<string, Event>,
                           lost: multiset<Event>, limited: multiset<Event>)
  {
    forall e :: submitted[e] == started[e] + Waiting(pending, e) + lost[e] + limited[e]
  }

  /** Every submitted event was started, waits, was displaced or was rate-limited; as often as submitted, no more. */
  ghost predicate Conserved(w: Worker) {
    Balanced(w.submitted, StartedBag(w.started), w.pending, LoserBag(w.displaced), w.limited)
  }

  ghost predicate Fair(d: Displacement) {
    d.loser.namespace == d.winner.namespace && (d.loser.immediate ==> d.winner.immediate && d.loser.tag < d.winner.tag)
  }

  ghost predicate AllFair(ds: seq<Displacement>, submitted: multiset<Event>) {
    forall d :: d in ds ==> Fair(d) && d.winner in submitted
  }

  /** An immediate event gives way only to a later immediate one, and is never rate-limited. */
  ghost predicate ImmediateFirst(w: Worker) {
    && AllFair(w.displaced, w.submitted)
    && (forall e :: e in w.limited ==> !e.immediate)
  }

  // ----- The rate limit -----

  /** The times at which periodic resizes of a namespace were started. */
  function PeriodicTimes(starts: seq<Start>, ns: string): seq<int> {
    if |starts| == 0 then []
    else
      var front, last := PeriodicTimes(starts[..|starts| - 1], ns), starts[|starts| - 1];
      if last.event.namespace == ns && !last.event.immediate then front + [last.at] else front
  }

  ghost predicate Spaced(times: seq<int>, interval: int) {
    forall i, j :: 0 <= i < j < |times| ==> times[i] + interval <= times[j]
  }

  /** A periodic start comes at least the interval after every earlier start of its namespace, immediate or not. */
  ghost predicate Apart(starts: seq<Start>, interval: int) {
    forall i, j ::
      0 <= i < j < |starts| && starts[i].event.namespace == starts[j].event.namespace && !starts[j].event.immediate ==>
      starts[i].at + interval <= starts[j].at
  }

  ghost predicate RateBound(w: Worker, interval: int) {
    && (forall s :: s in w.started ==> s.at <= w.clock)
    && (forall ns :: ns in w.cache ==> w.cache[ns] <= w.clock)
    && Settled(w.started, w.flights.Keys, w.cache)
    && Apart(w.started, interval)
  }

  ghost predicate Invariant(w: Worker, interval: int) {
    Serialised(w) && Numbered(w) && Conserved(w) && ImmediateFirst(w) && RateBound(w, interval)
  }

  lemma IdleIsFine(interval: int)
    ensures Invariant(IDLE, interval)
  {}

  lemma SubmitKeepsSerial(w: Worker, e: Event, now: int, interval: int)
    requires Serialised(w)
    ensures Serialised(Submitted(w, e, now, interval))
  {
    if !Busy(w, e.namespace) && MayStart(w.cache, e, now, interval) {
      LaunchIsSerial(w.inProgress, w.flights.Keys, w.pending, e);
      assert w.flights[e := false].Keys == w.flights.Keys + {e};
    } else {
      assert Busy(w, e.namespace) ==> On(w.inProgress, e.namespace);
    }
  }

  lemma DoneKeepsSerial(w: Worker, e: Event, doneAt: int, now: int, interval: int)
    requires Serialised(w) && e in w.flights
    ensures Serialised(Completed(w, e, doneAt, now, interval))
  {
    var ns := e.namespace;
    LandingIsSerial(w.inProgress, w.flights.Keys, w.pending, e);
    assert (w.flights - {e}).Keys == w.flights.Keys - {e};
    if ns in w.pending {
      var next := w.pending[ns];
      HandOverIsSerial(w.inProgress, w.flights.Keys, w.pending, e);
      assert (w.flights - {e})[next := false].Keys == w.flights.Keys - {e} + {next};
    } else {
      assert w.pending - {ns} == w.pending;
    }
  }

  /** A new submission may wait or start; nothing else about waiting and flying events changes. */
  lemma NumbersExtend(submitted: multiset<Event>, pending: map<string, Event>, flying: set<Event>, e: Event)
    requires Numbers(submitted, pending, flying) && e.tag == |submitted|
    ensures e !in submitted && e !in flying
    ensures Numbers(submitted + multiset{e}, pending, flying)
    ensures Numbers(submitted + multiset{e}, pending[e.namespace := e], flying)
    ensures Numbers(submitted + multiset{e}, pending, flying + {e})
  {}

  lemma SubmitKeepsNumbers(w: Worker, e: Event, now: int, interval: int)
    requires Numbered(w) && e.tag == |w.submitted|
    ensures Numbered(Submitted(w, e, now, interval))
  {
    NumbersExtend(w.submitted, w.pending, w.flights.Keys, e);
    assert w.flights[e := false].Keys == w.flights.Keys + {e};
  }

  /** The waiting event of a namespace leaves the waiting room, and may fly. */
  lemma NumbersHandOver(submitted: multiset<Event>, inProgress: map<string, bool>, pending: map<string, Event>,
                        flying: set<Event>, e: Event)
    requires Numbers(submitted, pending, flying) && Serial(inProgress, flying, pending)
    ensures Numbers(submitted, pending - {e.namespace}, flying - {e})
    ensures e.namespace in pending ==>
              Numbers(submitted, pending - {e.namespace}, flying - {e} + {pending[e.namespace]})
  {}

  lemma DoneKeepsNumbers(w: Worker, e: Event, doneAt: int, now: int, interval: int)
    requires Serialised(w) && Numbered(w)
    ensures Numbered(Completed(w, e, doneAt, now, interval))
  {
    var ns := e.namespace;
    NumbersHandOver(w.submitted, w.inProgress, w.pending, w.flights.Keys, e);
    assert (w.flights - {e}).Keys == w.flights.Keys - {e};
    if ns in w.pending {
      assert (w.flights - {e})[w.pending[ns] := false].Keys == w.flights.Keys - {e} + {w.pending[ns]};
    } else {
      assert w.pending - {ns} == w.pending;
    }
  }

  lemma StartedOneMore(starts: seq<Start>, s: Start)
    ensures StartedBag(starts + [s]) == StartedBag(starts) + multiset{s.event}
  {
    assert (starts + [s])[..|starts|] == starts;
  }

  lemma DisplacedOneMore(ds: seq<Displacement>, d: Displacement)
    ensures LoserBag(ds + [d]) == LoserBag(ds) + multiset{d.loser}
  {
    assert (ds + [d])[..|ds|] == ds;
  }

  /** Where a new submission can go. */
  lemma BalanceOfSubmission(submitted: multiset<Event>, started: multiset<Event>, pending: map<string, Event>,
                            lost: multiset<Event>, limited: multiset<Event>, e: Event)
    requires Balanced(submitted, started, pending, lost, limited) && e !in submitted
    requires e.namespace in pending ==> pending[e.namespace].namespace == e.namespace
    ensures Balanced(submitted + multiset{e}, started + multiset{e}, pending, lost, limited)
    ensures Balanced(submitted + multiset{e}, started, pending, lost + multiset{e}, limited)
    ensures Balanced(submitted + multiset{e}, started, pending, lost, limited + multiset{e})
    ensures if e.namespace in pending
            then Balanced(submitted + multiset{e}, started, pending[e.namespace := e],
                          lost + multiset{pending[e.namespace]}, limited)
            else Balanced(submitted + multiset{e}, started, pending[e.namespace := e], lost, limited)
  {
    assert Waiting(pending, e) == 0;
  }

  lemma SubmitConserves(w: Worker, e: Event, now: int, interval: int)
    requires Serialised(w) && Conserved(w) && e !in w.submitted
    ensures Conserved(Submitted(w, e, now, interval))
  {
    var v, ns := Submitted(w, e, now, interval), e.namespace;
    BalanceOfSubmission(w.submitted, StartedBag(w.started), w.pending, LoserBag(w.displaced), w.limited, e);
    if Busy(w, ns) {
      if ns !in w.pending {
        assert Conserved(v);
      } else if e.immediate || !w.pending[ns].immediate {
        DisplacedOneMore(w.displaced, Displacement(w.pending[ns], e));
        assert Conserved(v);
      } else {
        DisplacedOneMore(w.displaced, Displacement(e, w.pending[ns]));
        assert Conserved(v);
      }
    } else if MayStart(w.cache, e, now, interval) {
      StartedOneMore(w.started, Start(e, now));
      assert Conserved(v);
    } else {
      assert Conserved(v);
    }
  }

  /** Where the waiting event of a namespace can go. */
  lemma BalanceOfHandOver(submitted: multiset<Event>, started: multiset<Event>, pending: map<string, Event>,
                          lost: multiset<Event>, limited: multiset<Event>, ns: string)
    requires Balanced(submitted, started, pending, lost, limited)
    requires ns in pending && pending[ns].namespace == ns
    ensures Balanced(submitted, started + multiset{pending[ns]}, pending - {ns}, lost, limited)
    ensures Balanced(submitted, started, pending - {ns}, lost, limited + multiset{pending[ns]})
  {}

  lemma DoneConserves(w: Worker, e: Event, doneAt: int, now: int, interval: int)
    requires Serialised(w) && Conserved(w)
    ensures Conserved(Completed(w, e, doneAt, now, interval))
  {
    var ns := e.namespace;
    if ns in w.pending {
      StartedOneMore(w.started, Start(w.pending[ns], now));
      BalanceOfHandOver(w.submitted, StartedBag(w.started), w.pending, LoserBag(w.displaced), w.limited, ns);
    }
  }

  lemma FairExtends(ds: seq<Displacement>, submitted: multiset<Event>, d: Displacement, e: Event)
    requires AllFair(ds, submitted)
    requires Fair(d) && d.winner in submitted + multiset{e}
    ensures AllFair(ds + [d], submitted + multiset{e})
  {}

  lemma DisplacingKeepsImmediateFirst(w: Worker, e: Event, now: int, interval: int)
    requires Serialised(w) && Numbered(w) && ImmediateFirst(w) && e.tag == |w.submitted|
    requires Busy(w, e.namespace) && e.namespace in w.pending
    ensures ImmediateFirst(Submitted(w, e, now, interval))
  {
    var v, waiting := Submitted(w, e, now, interval), w.pending[e.namespace];
    assert waiting in w.submitted && waiting.namespace == e.namespace;
    if e.immediate || !waiting.immediate {
      FairExtends(w.displaced, w.submitted, Displacement(waiting, e), e);
      assert ImmediateFirst(v);
    } else {
      FairExtends(w.displaced, w.submitted, Displacement(e, waiting), e);
      assert ImmediateFirst(v);
    }
  }

  lemma SubmitKeepsImmediateFirst(w: Worker, e: Event, now: int, interval: int)
    requires Serialised(w) && Numbered(w) && ImmediateFirst(w) && e.tag == |w.submitted|
    ensures ImmediateFirst(Submitted(w, e, now, interval))
  {
    var v, ns := Submitted(w, e, now, interval), e.namespace;
    if Busy(w, ns) && ns in w.pending {
      DisplacingKeepsImmediateFirst(w, e, now, interval);
    } else if Busy(w, ns) {
      assert ImmediateFirst(v);
    } else if MayStart(w.cache, e, now, interval) {
      assert ImmediateFirst(v);
    } else {
      assert ImmediateFirst(v);
    }
  }

  lemma DoneKeepsImmediateFirst(w: Worker, e: Event, doneAt: int, now: int, interval: int)
    requires ImmediateFirst(w)
    ensures ImmediateFirst(Completed(w, e, doneAt, now, interval))
  {}

  lemma {:induction false} TimesAreOfStarts(starts: seq<Start>, ns: string, i: nat)
    requires i < |PeriodicTimes(starts, ns)|
    ensures exists s :: s in starts && s.event.namespace == ns && s.at == PeriodicTimes(starts, ns)[i]
  {
    var front, last := starts[..|starts| - 1], starts[|starts| - 1];
    if i < |PeriodicTimes(front, ns)| {
      TimesAreOfStarts(front, ns, i);
      var s :| s in front && s.event.namespace == ns && s.at == PeriodicTimes(front, ns)[i];
      assert s in starts;
    } else {
      assert last in starts;
    }
  }

  /** A start that respects the previous completion keeps the starts apart. */
  lemma StartStaysApart(w: Worker, e: Event, now: int, interval: int)
    requires RateBound(w, interval)
    requires forall s :: s in w.started && s.event.namespace == e.namespace && !e.immediate ==> s.at + interval <= now
    ensures Apart(w.started + [Start(e, now)], interval)
  {
    var starts := w.started + [Start(e, now)];
    forall i | 0 <= i < |w.started| && starts[i].event.namespace == e.namespace && !e.immediate
      ensures starts[i].at + interval <= now
    {
      assert w.started[i] in w.started;
    }
  }

  lemma SubmitKeepsRate(w: Worker, e: Event, now: int, interval: int)
    requires Serialised(w) && RateBound(w, interval) && w.clock <= now
    ensures RateBound(Submitted(w, e, now, interval), interval)
  {
    var v, ns := Submitted(w, e, now, interval), e.namespace;
    if !Busy(w, ns) && MayStart(w.cache, e, now, interval) {
      forall s | s in w.started && s.event.namespace == ns && !e.immediate ensures s.at + interval <= now {
        assert s.event in w.flights ==> On(w.inProgress, ns);
      }
      StartStaysApart(w, e, now, interval);
      assert v.started == w.started + [Start(e, now)];
    } else {
      assert v.started == w.started && v.flights == w.flights && v.cache == w.cache;
    }
  }

  ghost predicate Settled(started: seq<Start>, flying: set<Event>, cache: map<string, int>) {
    forall s :: s in started ==> s.event in flying || (s.event.namespace in cache && s.at <= cache[s.event.namespace])
  }

  /** When the only goroutine of a namespace reports at a time no earlier than any start, its starts are settled. */
  lemma LandingSettles(started: seq<Start>, inProgress: map<string, bool>, flying: set<Event>,
                       pending: map<string, Event>, cache: map<string, int>, e: Event, doneAt: int)
    requires Serial(inProgress, flying, pending) && e in flying
    requires Settled(started, flying, cache)
    requires forall s :: s in started ==> s.at <= doneAt
    ensures Settled(started, flying - {e}, cache[e.namespace := doneAt])
    ensures forall s :: s in started && s.event.namespace == e.namespace ==> s.event !in flying - {e}
  {
    forall s | s in started
      ensures s.event in flying - {e}
              || (s.event.namespace in cache[e.namespace := doneAt]
                  && s.at <= cache[e.namespace := doneAt][s.event.namespace])
    {
      if s.event.namespace != e.namespace {
        assert s.event in flying || (s.event.namespace in cache && s.at <= cache[s.event.namespace]);
      }
    }
  }

  lemma DoneKeepsRate(w: Worker, e: Event, doneAt: int, now: int, interval: int)
    requires Serialised(w) && RateBound(w, interval) && e in w.flights && w.clock <= doneAt <= now
    ensures RateBound(Completed(w, e, doneAt, now, interval), interval)
  {
    var v, ns, cache := Completed(w, e, doneAt, now, interval), e.namespace, w.cache[e.namespace := doneAt];
    var flying := w.flights.Keys - {e};
    LandingSettles(w.started, w.inProgress, w.flights.Keys, w.pending, w.cache, e, doneAt);
    assert (w.flights - {e}).Keys == flying;
    assert v.cache == cache && v.clock == now;
    if ns in w.pending && MayStart(cache, w.pending[ns], now, interval) {
      var next := w.pending[ns];
      assert next.namespace == ns;
      StartStaysApart(w, next, now, interval);
      assert v.started == w.started + [Start(next, now)];
      assert v.flights.Keys == flying + {next};
    } else {
      assert v.started == w.started && v.flights.Keys == flying;
    }
  }

  lemma SubmitKeepsInvariant(w: Worker, e: Event, now: int, interval: int)
    requires Invariant(w, interval) && e.tag == |w.submitted| && w.clock <= now
    ensures Invariant(Submitted(w, e, now, interval), interval)
  {
    assert e !in w.submitted;
    SubmitKeepsSerial(w, e, now, interval);
    SubmitKeepsNumbers(w, e, now, interval);
    SubmitConserves(w, e, now, interval);
    SubmitKeepsImmediateFirst(w, e, now, interval);
    SubmitKeepsRate(w, e, now, interval);
  }

  lemma ReturnKeepsInvariant(w: Worker, e: Event, interval: int)
    requires Invariant(w, interval) && e in w.flights
    ensures Invariant(Returned(w, e), interval)
  {
    assert Returned(w, e).flights.Keys == w.flights.Keys;
  }

  lemma DoneKeepsInvariant(w: Worker, e: Event, doneAt: int, now: int, interval: int)
    requires Invariant(w, interval) && e in w.flights && w.clock <= doneAt <= now
    ensures Invariant(Completed(w, e, doneAt, now, interval), interval)
  {
    DoneKeepsSerial(w, e, doneAt, now, interval);
    DoneKeepsNumbers(w, e, doneAt, now, interval);
    DoneConserves(w, e, doneAt, now, interval);
    DoneKeepsImmediateFirst(w, e, doneAt, now, interval);
    DoneKeepsRate(w, e, doneAt, now, interval);
  }

  /** Every step keeps the invariant. */
  lemma StepKeepsInvariant(w: Worker, step: Step, interval: int)
    requires Invariant(w, interval) && Enabled(w, step)
    ensures Invariant(Next(w, step, interval), interval)
  {
    match step
    case Submit(e, now) => SubmitKeepsInvariant(w, e, now, interval);
    case ApiReturns(e) => ReturnKeepsInvariant(w, e, interval);
    case Done(e, doneAt, now) => DoneKeepsInvariant(w, e, doneAt, now, interval);
  }

  lemma {:induction false} RunKeepsInvariant(w: Worker, steps: seq<Step>, interval: int)
    requires Invariant(w, interval) && IsRun(w, steps, interval)
    ensures Invariant(Run(w, steps, interval), interval)
    decreases |steps|
  {
    if |steps| > 0 {
      StepKeepsInvariant(w, steps[0], interval);
      RunKeepsInvariant(Next(w, steps[0], interval), steps[1..], interval);
    }
  }

  // ----- What that means for every run from the start -----

  /** In every reachable state a namespace is in progress exactly when one resize of it is in flight, no two ever
      are, and an event waits only meanwhile. */
  lemma CallsNeverOverlap(steps: seq<Step>, interval: int)
    requires IsRun(IDLE, steps, interval)
    ensures var w := Run(IDLE, steps, interval);
            && (forall ns :: Busy(w, ns) <==> exists e :: e in w.flights && e.namespace == ns)
            && (forall d, e :: d in w.flights && e in w.flights && d.namespace == e.namespace ==> d == e)
            && (forall ns :: ns in w.pending ==> Busy(w, ns) && w.pending[ns] !in w.flights)
  {
    IdleIsFine(interval);
    RunKeepsInvariant(IDLE, steps, interval);
    var w := Run(IDLE, steps, interval);
    forall ns ensures Busy(w, ns) <==> exists e :: e in w.flights && e.namespace == ns {
      assert Busy(w, ns) == On(w.inProgress, ns);
      assert InFlight(w.flights.Keys, ns) <==> exists e :: e in w.flights && e.namespace == ns;
    }
    forall ns | ns in w.pending ensures Busy(w, ns) {
      assert On(w.inProgress, ns);
    }
  }

  lemma {:induction false} LoserIsDisplaced(ds: seq<Displacement>, e: Event)
    requires e in LoserBag(ds)
    ensures exists d :: d in ds && d.loser == e
  {
    var front, last := ds[..|ds| - 1], ds[|ds| - 1];
    if last.loser != e {
      LoserIsDisplaced(front, e);
      var d :| d in front && d.loser == e;
      assert d in ds;
    } else {
      assert last in ds;
    }
  }

  /** A submitted immediate event has been started, or waits, or was displaced by a later immediate event of its
      namespace. */
  lemma ImmediateIsNeverLost(steps: seq<Step>, interval: int, e: Event)
    requires IsRun(IDLE, steps, interval)
    requires e in Run(IDLE, steps, interval).submitted && e.immediate
    ensures var w := Run(IDLE, steps, interval);
            || e in StartedBag(w.started)
            || (e.namespace in w.pending && w.pending[e.namespace] == e)
            || (exists d :: d in w.displaced && d.loser == e && d.winner.immediate && d.winner.namespace == e.namespace
                            && e.tag < d.winner.tag && d.winner in w.submitted)
  {
    IdleIsFine(interval);
    RunKeepsInvariant(IDLE, steps, interval);
    var w := Run(IDLE, steps, interval);
    assert w.submitted[e] == StartedBag(w.started)[e] + Waiting(w.pending, e) + LoserBag(w.displaced)[e] + w.limited[e];
    assert e !in w.limited;
    if e in LoserBag(w.displaced) {
      LoserIsDisplaced(w.displaced, e);
      var d :| d in w.displaced && d.loser == e;
      assert Fair(d) && d.winner in w.submitted;
    }
  }

  /** Submitted events are, as multisets, those started, waiting, displaced and rate-limited. */
  lemma EveryEventIsAccountedFor(steps: seq<Step>, interval: int, e: Event)
    requires IsRun(IDLE, steps, interval)
    ensures var w := Run(IDLE, steps, interval);
            && w.submitted[e] == StartedBag(w.started)[e] + Waiting(w.pending, e) + LoserBag(w.displaced)[e]
               + w.limited[e]
            && (e in w.limited ==> !e.immediate)
  {
    IdleIsFine(interval);
    RunKeepsInvariant(IDLE, steps, interval);
  }

  /** The latest immediate event of a namespace has been started or waits. */
  lemma LatestImmediateIsServed(steps: seq<Step>, interval: int, e: Event)
    requires IsRun(IDLE, steps, interval) && e.immediate
    requires e in Run(IDLE, steps, interval).submitted
    requires forall d :: d in Run(IDLE, steps, interval).submitted && d.immediate && d.namespace == e.namespace ==>
               d.tag <= e.tag
    ensures var w := Run(IDLE, steps, interval);
            e in StartedBag(w.started) || (e.namespace in w.pending && w.pending[e.namespace] == e)
  {
    ImmediateIsNeverLost(steps, interval, e);
  }

  // ----- What a waiting immediate event waits for -----

  /** An immediate event waits in the slot of its namespace, or a later immediate one does in its place. */
  ghost predicate Holds(pending: map<string, Event>, e: Event) {
    && e.namespace in pending
    && var next := pending[e.namespace];
       next == e || (next.immediate && next.namespace == e.namespace && e.tag < next.tag)
  }

  predicate IsDoneOf(step: Step, ns: string) { step.Done? && step.event.namespace == ns }

  lemma SubmitHolds(w: Worker, d: Event, now: int, interval: int, e: Event)
    requires Busy(w, e.namespace) && e.immediate && Holds(w.pending, e)
    requires w.pending[e.namespace].tag < d.tag
    ensures Holds(Submitted(w, d, now, interval).pending, e)
  {}

  lemma DoneElsewhereHolds(w: Worker, d: Event, doneAt: int, now: int, interval: int, e: Event)
    requires d.namespace != e.namespace && Holds(w.pending, e)
    ensures Holds(Completed(w, d, doneAt, now, interval).pending, e)
  {}

  lemma WaitingIsBusyAndNumbered(w: Worker, ns: string)
    requires Serialised(w) && Numbered(w) && ns in w.pending
    ensures Busy(w, ns) && w.pending[ns].tag < |w.submitted|
  {
    assert On(w.inProgress, ns);
    assert w.pending[ns] in w.submitted;
  }

  lemma StepHolds(w: Worker, step: Step, interval: int, e: Event)
    requires Serialised(w) && Numbered(w) && Enabled(w, step) && !IsDoneOf(step, e.namespace)
    requires e.immediate && Holds(w.pending, e)
    ensures Holds(Next(w, step, interval).pending, e)
  {
    WaitingIsBusyAndNumbered(w, e.namespace);
    match step
    case Submit(d, now) => SubmitHolds(w, d, now, interval, e);
    case ApiReturns(d) =>
    case Done(d, doneAt, now) => DoneElsewhereHolds(w, d, doneAt, now, interval, e);
  }

  ghost predicate StillHolds(w: Worker, interval: int, e: Event) { Invariant(w, interval) && Holds(w.pending, e) }

  lemma StepStillHolds(w: Worker, step: Step, interval: int, e: Event)
    requires StillHolds(w, interval, e) && e.immediate && Enabled(w, step) && !IsDoneOf(step, e.namespace)
    ensures StillHolds(Next(w, step, interval), interval, e)
  {
    StepHolds(w, step, interval, e);
    StepKeepsInvariant(w, step, interval);
  }

  ghost predicate NoneDone(steps: seq<Step>, ns: string) { forall i :: 0 <= i < |steps| ==> !IsDoneOf(steps[i], ns) }

  lemma NoneDoneLater(steps: seq<Step>, ns: string)
    requires NoneDone(steps, ns) && |steps| > 0
    ensures !IsDoneOf(steps[0], ns) && NoneDone(steps[1..], ns)
  {}

  lemma {:induction false} RunHolds(w: Worker, steps: seq<Step>, interval: int, e: Event)
    requires StillHolds(w, interval, e) && e.immediate && IsRun(w, steps, interval) && NoneDone(steps, e.namespace)
    ensures StillHolds(Run(w, steps, interval), interval, e)
    decreases |steps|
  {
    if |steps| > 0 {
      NoneDoneLater(steps, e.namespace);
      StepStillHolds(w, steps[0], interval, e);
      RunHolds(Next(w, steps[0], interval), steps[1..], interval, e);
    }
  }

  /** An immediate event that waits after some run is what the next completion of its namespace starts, however many
      steps later — or the later immediate event that has taken its place by then. */
  lemma WaitingImmediateRunsNext(before: seq<Step>, between: seq<Step>, interval: int, e: Event, done: Event,
                                 doneAt: int, now: int)
    requires IsRun(IDLE, before, interval) && IsRun(Run(IDLE, before, interval), between, interval)
    requires e.immediate && e.namespace in Run(IDLE, before, interval).pending
    requires Run(IDLE, before, interval).pending[e.namespace] == e
    requires NoneDone(between, e.namespace)
    requires done.namespace == e.namespace
    requires Enabled(Run(Run(IDLE, before, interval), between, interval), Done(done, doneAt, now))
    ensures var w := Run(Run(IDLE, before, interval), between, interval);
            var v := Completed(w, done, doneAt, now, interval);
            && Holds(w.pending, e)
            && var next := w.pending[e.namespace];
               next in v.flights && !v.flights[next] && v.started == w.started + [Start(next, now)]
  {
    IdleIsFine(interval);
    RunKeepsInvariant(IDLE, before, interval);
    RunHolds(Run(IDLE, before, interval), between, interval, e);
  }

  lemma {:induction false} SpacedSpan(times: seq<int>, interval: int, i: nat, j: nat)
    requires Spaced(times, interval) && i <= j < |times|
    ensures (j - i) * interval <= times[j] - times[i]
  {
    if i < j {
      SpacedSpan(times, interval, i, j - 1);
      assert (j - i) * interval == (j - 1 - i) * interval + interval;
    }
  }

  /** In every run a periodic resize starts at least the interval after every earlier start of its namespace, immediate
      ones included. */
  lemma PeriodicStartsWait(steps: seq<Step>, interval: int)
    requires IsRun(IDLE, steps, interval)
    ensures Apart(Run(IDLE, steps, interval).started, interval)
  {
    IdleIsFine(interval);
    RunKeepsInvariant(IDLE, steps, interval);
  }

  lemma {:induction false} ApartIsSpaced(starts: seq<Start>, interval: int, ns: string)
    requires Apart(starts, interval)
    ensures Spaced(PeriodicTimes(starts, ns), interval)
  {
    if |starts| > 0 {
      var front, last := starts[..|starts| - 1], starts[|starts| - 1];
      ApartIsSpaced(front, interval, ns);
      if last.event.namespace == ns && !last.event.immediate {
        forall i: nat | i < |PeriodicTimes(front, ns)| ensures PeriodicTimes(front, ns)[i] + interval <= last.at {
          TimesAreOfStarts(front, ns, i);
          var s :| s in front && s.event.namespace == ns && s.at == PeriodicTimes(front, ns)[i];
          var k :| 0 <= k < |front| && front[k] == s;
          assert starts[k] == s;
        }
      }
    }
  }

  /** Periodic resizes of one namespace start at least the interval apart, whatever happens between them; so the
      ones from the i-th to the j-th span at least j - i intervals. */
  lemma PeriodicStartsAreRateBound(steps: seq<Step>, interval: int, ns: string, i: nat, j: nat)
    requires IsRun(IDLE, steps, interval)
    requires i <= j < |PeriodicTimes(Run(IDLE, steps, interval).started, ns)|
    ensures var times := PeriodicTimes(Run(IDLE, steps, interval).started, ns);
            (j - i) * interval <= times[j] - times[i]
  {
    PeriodicStartsWait(steps, interval);
    ApartIsSpaced(Run(IDLE, steps, interval).started, interval, ns);
    SpacedSpan(PeriodicTimes(Run(IDLE, steps, interval).started, ns), interval, i, j);
  }
}

/** The resize worker: one resize call in flight per namespace, one waiting slot per namespace, periodic
    resizes rate-limited and quota-denied (immediate) ones not. */
module ResizeWorker {
  import opened Quantities

  /** `tag` numbers the submissions; it identifies an event in statements and is never read by the worker. */
  datatype Event = Event(tag: nat, namespace: string, resourceQuota: string, before: Amounts, after: Amounts,
                         immediate: bool)

  datatype Start = Start(event: Event, at: int)

  datatype Displacement = Displacement(loser: Event, winner: Event)

  /** The worker's three maps, the goroutines it started, and what has happened so far. A goroutine is in
      `flights` from its start until its report is received; the value tells whether its API call has returned. */
  datatype Worker = Worker(inProgress: map<string, bool>, pending: map<string, Event>, cache: map<string, int>,
                           flights: map<Event, bool>, clock: int, submitted: multiset<Event>, started: seq<Start>,
                           displaced: seq<Displacement>, limited: multiset<Event>)

  const IDLE := Worker(map[], map[], map[], map[], 0, multiset{}, [], [], multiset{})

  predicate Busy(w: Worker, ns: string) { ns in w.inProgress && w.inProgress[ns] }

  /** A periodic event must wait until the interval has passed since the last completion. */
  predicate MayStart(cache: map<string, int>, e: Event, now: int, interval: int) {
    !(e.namespace in cache && !e.immediate && cache[e.namespace] + interval > now)
  }

  /** A waiting event that makes room for `e`. */
  function Replacing(w: Worker, e: Event): seq<Displacement> {
    if e.namespace in w.pending then w.displaced + [Displacement(w.pending[e.namespace], e)] else w.displaced
  }

  function Submitted(w: Worker, e: Event, now: int, interval: int): Worker {
    var ns, submitted := e.namespace, w.submitted + multiset{e};
    if Busy(w, ns) then
      if e.immediate || ns !in w.pending || !w.pending[ns].immediate then
        Worker(w.inProgress, w.pending[ns := e], w.cache, w.flights, now, submitted, w.started, Replacing(w, e),
               w.limited)
      else
        Worker(w.inProgress, w.pending, w.cache, w.flights, now, submitted, w.started,
               w.displaced + [Displacement(e, w.pending[ns])], w.limited)
    else if MayStart(w.cache, e, now, interval) then
      Worker(w.inProgress[ns := true], w.pending, w.cache, w.flights[e := false], now, submitted,
             w.started + [Start(e, now)], w.displaced, w.limited)
    else
      Worker(w.inProgress, w.pending, w.cache, w.flights, now, submitted, w.started, w.displaced,
             w.limited + multiset{e})
  }

  function Returned(w: Worker, e: Event): Worker {
    w.(flights := w.flights[e := true])
  }

  /** `doneAt` stamps the completion; `now` is read afterwards, when a waiting event is considered. */
  function Completed(w: Worker, e: Event, doneAt: int, now: int, interval: int): Worker {
    var ns, cache, flights := e.namespace, w.cache[e.namespace := doneAt], w.flights - {e};
    if ns in w.pending then
      var next := w.pending[ns];
      if MayStart(cache, next, now, interval) then
        Worker(w.inProgress, w.pending - {ns}, cache, flights[next := false], now, w.submitted,
               w.started + [Start(next, now)], w.displaced, w.limited)
      else
        Worker(w.inProgress[ns := false], w.pending - {ns}, cache, flights, now, w.submitted,
               w.started, w.displaced, w.limited + multiset{next})
    else
      Worker(w.inProgress[ns := false], w.pending, cache, flights, now, w.submitted, w.started, w.displaced, w.limited)
  }

  /** Starts the resize of `e`, or drops it under the rate limit. */
  function Attempted(w: Worker, e: Event, now: int, interval: int): Worker {
    if MayStart(w.cache, e, now, interval) then
      Worker(w.inProgress, w.pending, w.cache, w.flights[e := false], w.clock, w.submitted,
             w.started + [Start(e, now)], w.displaced, w.limited)
    else
      Worker(w.inProgress, w.pending, w.cache, w.flights, w.clock, w.submitted, w.started, w.displaced,
             w.limited + multiset{e})
  }

  datatype Step = Submit(event: Event, now: int) | ApiReturns(event: Event) | Done(event: Event, doneAt: int, now: int)

  ghost predicate Enabled(w: Worker, step: Step) {
    match step
    case Submit(e, now) => e.tag == |w.submitted| && w.clock <= now
    case ApiReturns(e) => e in w.flights && !w.flights[e]
    case Done(e, doneAt, now) => e in w.flights && w.flights[e] && w.clock <= doneAt <= now
  }

  function Next(w: Worker, step: Step, interval: int): Worker {
    match step
    case Submit(e, now) => Submitted(w, e, now, interval)
    case ApiReturns(e) => Returned(w, e)
    case Done(e, doneAt, now) => Completed(w, e, doneAt, now, interval)
  }

  function Run(w: Worker, steps: seq<Step>, interval: int): Worker
    decreases |steps|
  {
    if |steps| == 0 then w else Run(Next(w, steps[0], interval), steps[1..], interval)
  }

  ghost predicate IsRun(w: Worker, steps: seq<Step>, interval: int)
    decreases |steps|
  {
    |steps| > 0 ==> Enabled(w, steps[0]) && IsRun(Next(w, steps[0], interval), steps[1..], interval)
  }

  const DEFAULT_INTERVAL := 60_000_000_000

  /** The event loop and its state. The history fields record what happened; the loop does not read them. */
  class EventHandler {
    const interval: int
    var inProgress: map<string, bool>
    var pending: map<string, Event>
    var cache: map<string, int>
    var flights: map<Event, bool>
    ghost var clock: int
    ghost var submitted: multiset<Event>
    ghost var started: seq<Start>
    ghost var displaced: seq<Displacement>
    ghost var limited: multiset<Event>

    ghost function State(): Worker
      reads this
    {
      Worker(inProgress, pending, cache, flights, clock, submitted, started, displaced, limited)
    }

    constructor (updateInterval: int)
      ensures interval == if updateInterval <= 0 then 60 * 1_000_000_000 else updateInterval
      ensures State() == IDLE
    {
      interval := if updateInterval <= 0 then DEFAULT_INTERVAL else updateInterval;
      inProgress, pending, cache, flights := map[], map[], map[], map[];
      clock, submitted, started, displaced, limited := 0, multiset{}, [], [], multiset{};
    }

    /** Starts the resize unless the rate limit forbids it. */
    method Resize(e: Event, now: int) returns (ok: bool)
      modifies this`flights, this`started, this`limited
      ensures ok == MayStart(cache, e, now, interval)
      ensures State() == Attempted(old(State()), e, now, interval)
    {
      if e.namespace in cache && !e.immediate {
        if cache[e.namespace] + interval > now {
          limited := limited + multiset{e};
          return false;
        }
      }
      flights := flights[e := false];
      started := started + [Start(e, now)];
      return true;
    }

    method OnEvent(e: Event, now: int)
      modifies this
      ensures State() == Submitted(old(State()), e, now, interval)
    {
      var ns := e.namespace;
      submitted, clock := submitted + multiset{e}, now;
      if ns in inProgress && inProgress[ns] {
        if e.immediate || ns !in pending || !pending[ns].immediate {
          if ns in pending { displaced := displaced + [Displacement(pending[ns], e)]; }
          pending := pending[ns := e];
        } else {
          displaced := displaced + [Displacement(e, pending[ns])];
        }
      } else {
        var ok := Resize(e, now);
        if ok { inProgress := inProgress[ns := true]; }
      }
    }

    /** The API call of a goroutine ends; the goroutine will report it. */
    method OnApiReturn(e: Event)
      modifies this`flights
      ensures State() == Returned(old(State()), e)
    {
      flights := flights[e := true];
    }

    method OnDone(e: Event, doneAt: int, now: int)
      modifies this
      ensures State() == Completed(old(State()), e, doneAt, now, interval)
    {
      var ns := e.namespace;
      flights := flights - {e};
      cache, clock := cache[ns := doneAt], now;
      if ns in pending {
        var next := pending[ns];
        pending := pending - {ns};
        var ok := Resize(next, now);
        if !ok {
          inProgress := inProgress[ns := false];
          assert State() == Completed(old(State()), e, doneAt, now, interval);
        } else {
          assert State() == Completed(old(State()), e, doneAt, now, interval);
        }
      } else {
        inProgress := inProgress[ns := false];
      }
    }

    /** The loop over whatever arrives on the two channels, in the order it is received. */
    method RunEventHandler(steps: seq<Step>)
      modifies this
      ensures State() == Run(old(State()), steps, interval)
    {
      for i := 0 to |steps|
        invariant Run(State(), steps[i..], interval) == Run(old(State()), steps, interval)
      {
        assert steps[i..][1..] == steps[i + 1..];
        match steps[i] {
          case Submit(e, now) => OnEvent(e, now);
          case ApiReturns(e) => OnApiReturn(e);
          case Done(e, doneAt, now) => OnDone(e, doneAt, now);
        }
      }
    }
  }
}

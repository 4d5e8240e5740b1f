/** The demand of pods that could not be created or scheduled, collected from their events. */
module PodDemand {
  import opened Common
  import opened Quantities
  import opened ResourceQuotas
  import opened Pods
  import opened Sequences

  /** What the quota must grow by, and what the scheduler must place. */
  datatype Demand = Demand(quota: Amounts, requests: Amounts)

  const NO_DEMAND := Demand(NOTHING, NOTHING)

  function Together(a: Demand, b: Demand): Demand { Demand(Plus(a.quota, b.quota), Plus(a.requests, b.requests)) }

  /** The larger of request and limit, for a container that gives requests. */
  function Needed(c: Container): Pair {
    if c.requests.None? then Pair(0, 0)
    else if c.limits.None? then c.requests.value
    else Pair(Max(c.requests.value.cpu, c.limits.value.cpu), Max(c.requests.value.memory, c.limits.value.memory))
  }

  function SumNeeded(cs: seq<Container>): Pair {
    if |cs| == 0 then Pair(0, 0)
    else
      var front, last := SumNeeded(cs[..|cs| - 1]), Needed(cs[|cs| - 1]);
      Pair(front.cpu + last.cpu, front.memory + last.memory)
  }

  function QuotaNeed(spec: PodSpec, missing: int): Amounts {
    if missing <= 0 then NOTHING
    else Just(Milli(SumNeeded(spec.containers).cpu) * missing, Mega(SumNeeded(spec.containers).memory) * missing)
  }

  function RequestNeed(spec: PodSpec, missing: int): Amounts {
    if missing <= 0 then NOTHING
    else
      var one := PodRequests(spec);
      one.(cpu := one.cpu * missing, memory := one.memory * missing)
  }

  method CalculatePodResources(spec: PodSpec, missing: int) returns (need: Amounts)
    ensures need == QuotaNeed(spec, missing)
  {
    var cpu, memory := 0, 0;
    for i := 0 to |spec.containers|
      invariant Pair(cpu, memory) == SumNeeded(spec.containers[..i])
    {
      var c := spec.containers[i];
      if c.requests.Some? {
        var neededCpu, neededMemory := c.requests.value.cpu, c.requests.value.memory;
        if c.limits.Some? {
          neededMemory := if c.limits.value.memory > neededMemory then c.limits.value.memory else neededMemory;
          neededCpu := if c.limits.value.cpu > neededCpu then c.limits.value.cpu else neededCpu;
        }
        cpu := cpu + neededCpu;
        memory := memory + neededMemory;
      }
      assert spec.containers[..i + 1][..i] == spec.containers[..i];
    }
    assert spec.containers[..|spec.containers|] == spec.containers;
    if missing <= 0 { return NOTHING; }
    need := Just(Milli(cpu) * missing, Mega(memory) * missing);
  }

  method CalculatePodRequestResources(spec: PodSpec, missing: int) returns (need: Amounts)
    ensures need == RequestNeed(spec, missing)
  {
    if missing <= 0 { return NOTHING; }
    need := PodRequestedResources(spec);
    need := need.(cpu := need.cpu * missing, memory := need.memory * missing);
  }

  datatype Event = Event(kind: string, namespace: string, name: string)

  /** The pod template of an object and how many replicas it is missing. */
  datatype Template = Template(spec: PodSpec, missing: int)

  /** The cluster as the lookups see it: kind, namespace and name to a template, or none when the lookup
      fails or the kind is not supported. */
  type Snapshot = (string, string, string) -> Option<Template>

  predicate IsDaemonSet(ev: Event) { ev.kind == "DaemonSet" }

  function Key(ev: Event): string { ev.kind + ev.name }

  /** The demand of the object an event is about; none for an object that cannot be looked up. */
  function Worth(cluster: Snapshot, ev: Event): Demand {
    match cluster(ev.kind, ev.namespace, ev.name)
    case None => NO_DEMAND
    case Some(t) => Demand(QuotaNeed(t.spec, t.missing), RequestNeed(t.spec, t.missing))
  }

  function Appraisal(cluster: Snapshot): Event -> Demand { (ev: Event) => Worth(cluster, ev) }

  function KeyOf(ev: Event): set<string> { if IsDaemonSet(ev) then {} else {Key(ev)} }

  function Keys(events: seq<Event>): set<string> {
    if |events| == 0 then {} else KeyOf(events[0]) + Keys(events[1..])
  }

  function Grown(worth: Event -> Demand, seen: set<string>, total: Demand, ev: Event): Demand {
    if KeyOf(ev) <= seen then total else Together(total, worth(ev))
  }

  /** Every key not seen before counts once, with the object of its first event. */
  function TotalFrom(worth: Event -> Demand, seen: set<string>, total: Demand, events: seq<Event>): Demand
    decreases |events|
  {
    if |events| == 0 then total
    else TotalFrom(worth, seen + KeyOf(events[0]), Grown(worth, seen, total, events[0]), events[1..])
  }

  function Total(worth: Event -> Demand, events: seq<Event>): Demand { TotalFrom(worth, {}, NO_DEMAND, events) }

  method AddDemandOf(cluster: Snapshot, ev: Event, quotaSum: Resources, requestSum: Resources)
    requires quotaSum != requestSum
    modifies quotaSum, requestSum
    ensures Demand(quotaSum.Value(), requestSum.Value())
         == Together(old(Demand(quotaSum.Value(), requestSum.Value())), Worth(cluster, ev))
  {
    var found := cluster(ev.kind, ev.namespace, ev.name);
    if found.None? { return; }
    var need := CalculatePodResources(found.value.spec, found.value.missing);
    var requests := CalculatePodRequestResources(found.value.spec, found.value.missing);
    var quotaResources := new Resources(need);
    var requestResources := new Resources(requests);
    quotaSum.Add(quotaResources);
    requestSum.Add(requestResources);
  }

  lemma TotalFromStep(worth: Event -> Demand, seen: set<string>, total: Demand, events: seq<Event>, i: nat)
    requires i < |events|
    ensures TotalFrom(worth, seen, total, events[i..])
         == TotalFrom(worth, seen + KeyOf(events[i]), Grown(worth, seen, total, events[i]), events[i + 1..])
  {
    assert events[i..][1..] == events[i + 1..];
  }

  method HandleEvent(cluster: Snapshot, ev: Event, involved: map<string, bool>, quotaSum: Resources,
                     requestSum: Resources)
    returns (involvedNow: map<string, bool>)
    requires quotaSum != requestSum
    modifies quotaSum, requestSum
    ensures involvedNow.Keys == involved.Keys + KeyOf(ev)
    ensures Demand(quotaSum.Value(), requestSum.Value())
         == Grown(Appraisal(cluster), involved.Keys, old(Demand(quotaSum.Value(), requestSum.Value())), ev)
  {
    involvedNow := involved;
    if IsDaemonSet(ev) { return; }
    if Key(ev) !in involved {
      involvedNow := involved[Key(ev) := true];
      AddDemandOf(cluster, ev, quotaSum, requestSum);
    }
  }

  method GetResourceDemandsFromPodEvents(cluster: Snapshot, events: seq<Event>) returns (demand: Demand)
    ensures demand == Total(Appraisal(cluster), events)
  {
    var quotaSum := new Resources(NOTHING);
    var requestSum := new Resources(NOTHING);
    var involved: map<string, bool> := map[];
    assert events[0..] == events && involved.Keys == {};
    for i := 0 to |events|
      invariant fresh(quotaSum) && fresh(requestSum) && quotaSum != requestSum
      invariant TotalFrom(Appraisal(cluster), involved.Keys, Demand(quotaSum.Value(), requestSum.Value()), events[i..])
             == Total(Appraisal(cluster), events)
    {
      TotalFromStep(Appraisal(cluster), involved.Keys, Demand(quotaSum.Value(), requestSum.Value()), events, i);
      involved := HandleEvent(cluster, events[i], involved, quotaSum, requestSum);
    }
    demand := Demand(quotaSum.Value(), requestSum.Value());
  }

  // ----- The demand is a sum over distinct objects -----

  ghost function SumOver(keys: set<string>, price: string -> Demand): Demand {
    if keys == {} then NO_DEMAND
    else
      var k :| k in keys;
      Together(SumOver(keys - {k}, price), price(k))
  }

  lemma TogetherSwaps(a: Demand, b: Demand, c: Demand)
    ensures Together(Together(a, b), c) == Together(Together(a, c), b)
  {}

  lemma {:induction false} SumOverPick(keys: set<string>, price: string -> Demand, k: string)
    requires k in keys
    ensures SumOver(keys, price) == Together(SumOver(keys - {k}, price), price(k))
  {
    var j :| j in keys && SumOver(keys, price) == Together(SumOver(keys - {j}, price), price(j));
    if j != k {
      SumOverPick(keys - {j}, price, k);
      SumOverPick(keys - {k}, price, j);
      assert keys - {j} - {k} == keys - {k} - {j};
      TogetherSwaps(SumOver(keys - {j} - {k}, price), price(k), price(j));
    }
  }

  /** Events of one key are events of objects with the same demand. */
  ghost predicate KeysIdentify(worth: Event -> Demand, events: seq<Event>) {
    forall a, b :: a in events && b in events && !IsDaemonSet(a) && !IsDaemonSet(b) && Key(a) == Key(b) ==>
      worth(a) == worth(b)
  }

  ghost predicate Prices(worth: Event -> Demand, events: seq<Event>, price: string -> Demand) {
    forall ev :: ev in events && !IsDaemonSet(ev) ==> price(Key(ev)) == worth(ev)
  }

  ghost function PriceOf(worth: Event -> Demand, events: seq<Event>, k: string): Demand {
    if ev :| ev in events && !IsDaemonSet(ev) && Key(ev) == k then worth(ev) else NO_DEMAND
  }

  ghost function PriceByKey(worth: Event -> Demand, events: seq<Event>): string -> Demand {
    (k: string) => PriceOf(worth, events, k)
  }

  lemma PriceByKeyPrices(worth: Event -> Demand, events: seq<Event>)
    requires KeysIdentify(worth, events)
    ensures Prices(worth, events, PriceByKey(worth, events))
  {
    forall ev | ev in events && !IsDaemonSet(ev) ensures PriceOf(worth, events, Key(ev)) == worth(ev) {
      PriceOfIsWorth(worth, events, ev);
    }
  }

  lemma PriceOfIsWorth(worth: Event -> Demand, events: seq<Event>, ev: Event)
    requires KeysIdentify(worth, events) && ev in events && !IsDaemonSet(ev)
    ensures PriceOf(worth, events, Key(ev)) == worth(ev)
  {
    var k := Key(ev);
    assert exists other :: other in events && !IsDaemonSet(other) && Key(other) == k;
    var other :| other in events && !IsDaemonSet(other) && Key(other) == k && PriceOf(worth, events, k) == worth(other);
  }

  lemma {:induction false} KeysAreOfEvents(events: seq<Event>, k: string)
    ensures k in Keys(events) <==> exists ev :: ev in events && !IsDaemonSet(ev) && Key(ev) == k
  {
    if |events| > 0 {
      KeysAreOfEvents(events[1..], k);
      assert forall ev :: ev in events <==> ev in events[1..] || ev == events[0];
    }
  }

  lemma SameEventsSameKeys(events: seq<Event>, others: seq<Event>)
    requires forall ev :: ev in events <==> ev in others
    ensures Keys(events) == Keys(others)
  {
    forall k ensures k in Keys(events) <==> k in Keys(others) {
      KeysAreOfEvents(events, k);
      KeysAreOfEvents(others, k);
    }
  }

  lemma {:induction false} TotalFromIsSum(worth: Event -> Demand, seen: set<string>, total: Demand, events: seq<Event>,
                                          price: string -> Demand)
    requires Prices(worth, events, price)
    ensures TotalFrom(worth, seen, total, events) == Together(total, SumOver(Keys(events) - seen, price))
    decreases |events|
  {
    if |events| > 0 {
      var ev, rest := events[0], events[1..];
      TotalFromIsSum(worth, seen + KeyOf(ev), Grown(worth, seen, total, ev), rest, price);
      if KeyOf(ev) <= seen {
        assert Keys(events) - seen == Keys(rest) - (seen + KeyOf(ev));
      } else {
        SumOverPick(Keys(events) - seen, price, Key(ev));
        assert Keys(events) - seen - {Key(ev)} == Keys(rest) - (seen + KeyOf(ev));
        TogetherSwaps(total, worth(ev), SumOver(Keys(rest) - (seen + KeyOf(ev)), price));
      }
    }
  }

  lemma TotalIsSum(worth: Event -> Demand, events: seq<Event>, price: string -> Demand)
    requires Prices(worth, events, price)
    ensures Total(worth, events) == SumOver(Keys(events), price)
  {
    TotalFromIsSum(worth, {}, NO_DEMAND, events, price);
    assert Keys(events) - {} == Keys(events);
  }

  /** The demand is the same for any list of the same events, in any order and with any repetition:
      it is the sum over the distinct objects they are about. */
  lemma DemandIgnoresOrderAndRepetition(worth: Event -> Demand, events: seq<Event>, others: seq<Event>)
    requires KeysIdentify(worth, events)
    requires forall ev :: ev in events <==> ev in others
    ensures Total(worth, others) == Total(worth, events)
    ensures Total(worth, events) == SumOver(Keys(events), PriceByKey(worth, events))
  {
    var price := PriceByKey(worth, events);
    PriceByKeyPrices(worth, events);
    TotalIsSum(worth, events, price);
    assert Prices(worth, others, price);
    TotalIsSum(worth, others, price);
    SameEventsSameKeys(events, others);
  }

  // ----- Exactly when the order does not matter -----

  ghost predicate OrderDoesNotMatter(worth: Event -> Demand, events: seq<Event>) {
    forall others: seq<Event> :: multiset(others) == multiset(events) ==> Total(worth, others) == Total(worth, events)
  }

  lemma TogetherAssociates(a: Demand, b: Demand, c: Demand)
    ensures Together(Together(a, b), c) == Together(a, Together(b, c))
  {}

  lemma {:induction false} TotalFromAdds(worth: Event -> Demand, seen: set<string>, total: Demand, events: seq<Event>)
    ensures TotalFrom(worth, seen, total, events) == Together(total, TotalFrom(worth, seen, NO_DEMAND, events))
    decreases |events|
  {
    if |events| > 0 {
      var ev, rest := events[0], events[1..];
      TotalFromAdds(worth, seen + KeyOf(ev), Grown(worth, seen, total, ev), rest);
      TotalFromAdds(worth, seen + KeyOf(ev), Grown(worth, seen, NO_DEMAND, ev), rest);
      TogetherAssociates(total, worth(ev), TotalFrom(worth, seen + KeyOf(ev), NO_DEMAND, rest));
    }
  }

  /** The first event of a key decides. */
  lemma TotalOfClash(worth: Event -> Demand, a: Event, b: Event, rest: seq<Event>)
    requires !IsDaemonSet(a) && !IsDaemonSet(b) && Key(a) == Key(b)
    ensures Total(worth, [a, b] + rest) == Together(worth(a), TotalFrom(worth, {Key(a)}, NO_DEMAND, rest))
  {
    var k, whole, tail := Key(a), [a, b] + rest, [b] + rest;
    assert whole[0] == a && whole[1..] == tail && tail[0] == b && tail[1..] == rest;
    assert {} + {k} == {k} && {k} + {k} == {k};
    assert Grown(worth, {}, NO_DEMAND, a) == worth(a) && Grown(worth, {k}, worth(a), b) == worth(a);
    assert Total(worth, whole) == TotalFrom(worth, {k}, worth(a), tail);
    assert TotalFrom(worth, {k}, worth(a), tail) == TotalFrom(worth, {k}, worth(a), rest);
    TotalFromAdds(worth, {k}, worth(a), rest);
  }

  lemma SameRightCancels(a: Demand, b: Demand, c: Demand)
    requires Together(a, c) == Together(b, c)
    ensures a == b
  {}

  /** A key is the kind followed by the name without a separator, so two objects can share one. The order of
      events is irrelevant exactly when objects that share a key have the same demand. */
  lemma OrderMattersExactlyOnClash(worth: Event -> Demand, events: seq<Event>)
    ensures OrderDoesNotMatter(worth, events) <==> KeysIdentify(worth, events)
  {
    if KeysIdentify(worth, events) {
      forall others: seq<Event> | multiset(others) == multiset(events)
        ensures Total(worth, others) == Total(worth, events)
      {
        SameMultisetSameEvents(events, others);
        DemandIgnoresOrderAndRepetition(worth, events, others);
      }
    } else {
      var a, b :| a in events && b in events && !IsDaemonSet(a) && !IsDaemonSet(b) && Key(a) == Key(b)
                  && worth(a) != worth(b);
      ClashShows(worth, events, a, b);
    }
  }

  lemma SameMultisetSameEvents(events: seq<Event>, others: seq<Event>)
    requires multiset(others) == multiset(events)
    ensures forall ev :: ev in events <==> ev in others
  {
    forall ev ensures ev in events <==> ev in others {
      assert ev in events <==> ev in multiset(events);
      assert ev in others <==> ev in multiset(others);
    }
  }

  lemma TakeOut(events: seq<Event>, ev: Event) returns (rest: seq<Event>)
    requires ev in multiset(events)
    ensures multiset(events) == multiset{ev} + multiset(rest)
  {
    var i :| 0 <= i < |events| && events[i] == ev;
    rest := events[..i] + events[i + 1..];
    assert events == events[..i] + ([ev] + events[i + 1..]);
  }

  lemma TwoInFront(a: Event, b: Event, rest: seq<Event>)
    ensures multiset([a, b] + rest) == multiset{a} + multiset{b} + multiset(rest)
  {}

  lemma BringToFront(events: seq<Event>, a: Event, b: Event) returns (rest: seq<Event>)
    requires a in events && b in events && a != b
    ensures multiset([a, b] + rest) == multiset(events)
    ensures multiset([b, a] + rest) == multiset(events)
  {
    var without := TakeOut(events, a);
    assert b in multiset(events);
    rest := TakeOut(without, b);
    TwoInFront(a, b, rest);
    TwoInFront(b, a, rest);
  }

  /** Of two clashing events the one in front counts, so swapping them changes the total. */
  lemma SwapChangesTotal(worth: Event -> Demand, a: Event, b: Event, rest: seq<Event>)
    requires !IsDaemonSet(a) && !IsDaemonSet(b) && Key(a) == Key(b) && worth(a) != worth(b)
    ensures Total(worth, [a, b] + rest) != Total(worth, [b, a] + rest)
  {
    TotalOfClash(worth, a, b, rest);
    TotalOfClash(worth, b, a, rest);
    if Total(worth, [a, b] + rest) == Total(worth, [b, a] + rest) {
      SameRightCancels(worth(a), worth(b), TotalFrom(worth, {Key(a)}, NO_DEMAND, rest));
    }
  }

  /** A clash that the lookups tell apart shows in two orders of the events. */
  lemma ClashShows(worth: Event -> Demand, events: seq<Event>, a: Event, b: Event)
    requires a in events && b in events && !IsDaemonSet(a) && !IsDaemonSet(b) && Key(a) == Key(b)
    requires worth(a) != worth(b)
    ensures !OrderDoesNotMatter(worth, events)
  {
    var rest := BringToFront(events, a, b);
    SwapChangesTotal(worth, a, b, rest);
  }

  predicate IsHandled(kind: string) {
    kind == "Pod" || kind == "ReplicaSet" || kind == "Job" || kind == "StatefulSet" || kind == "ReplicationController"
  }

  /** Events of one namespace about the supported kinds only never clash. */
  lemma HandledKindsIdentify(worth: Event -> Demand, events: seq<Event>, namespace: string)
    requires forall ev :: ev in events ==> IsHandled(ev.kind) && ev.namespace == namespace
    ensures KeysIdentify(worth, events)
  {
    forall a, b | a in events && b in events && Key(a) == Key(b) ensures a == b {
      HandledKeysAreUnique(a, b);
    }
  }

  lemma HandledKeysAreUnique(a: Event, b: Event)
    requires IsHandled(a.kind) && IsHandled(b.kind) && a.namespace == b.namespace
    requires Key(a) == Key(b)
    ensures a == b
  {
    assert Key(a)[0] == a.kind[0] && Key(b)[0] == b.kind[0];
    if a.kind[0] == 'R' {
      assert Key(a)[7] == a.kind[7] && Key(b)[7] == b.kind[7];
    }
    assert a.kind == b.kind;
    assert a.name == Key(a)[|a.kind|..] && b.name == Key(b)[|b.kind|..];
  }

  // ----- A clash -----

  const ONE_MILLI := PodSpec([Container(Some(Pair(1, 0)), None)], [])

  /** A cluster with the pod "foo" of one namespace; no other object can be looked up. */
  function OnlyFoo(namespace: string): Snapshot {
    (kind: string, ns: string, name: string) =>
      if kind == "Pod" && ns == namespace && name == "foo" then Some(Template(ONE_MILLI, 1)) else None
  }

  lemma FooIsWorthOneMilli(namespace: string)
    ensures Worth(OnlyFoo(namespace), Event("Pod", namespace, "foo")).quota.cpu == 1
    ensures Worth(OnlyFoo(namespace), Event("Podf", namespace, "oo")) == NO_DEMAND
  {
    var cs := ONE_MILLI.containers;
    assert cs[..0] == [];
    assert SumNeeded(cs[..0]) == Pair(0, 0);
    assert SumNeeded(cs).cpu == 1;
    assert |"Pod"| != |"Podf"|;
  }

  lemma OfTwoTheFirstCounts(worth: Event -> Demand, a: Event, b: Event)
    requires !IsDaemonSet(a) && !IsDaemonSet(b) && Key(a) == Key(b)
    ensures Total(worth, [a, b]) == worth(a)
  {
    TotalOfClash(worth, a, b, []);
    assert [a, b] + [] == [a, b];
    assert Together(worth(a), NO_DEMAND) == worth(a);
  }

  lemma FooAndOoShareTheirKey(foo: Event, oo: Event)
    requires foo.kind == "Pod" && foo.name == "foo" && oo.kind == "Podf" && oo.name == "oo"
    ensures !IsDaemonSet(foo) && !IsDaemonSet(oo) && Key(foo) == Key(oo) && !IsHandled(oo.kind)
  {
    assert foo.kind[0] == 'P' && oo.kind[0] == 'P' && "DaemonSet"[0] == 'D';
    assert |oo.kind| == 4 && |"Pod"| == 3 && |"Job"| == 3;
    assert |"ReplicaSet"| == 10 && |"StatefulSet"| == 11 && |"ReplicationController"| == 21;
  }

  /** It does happen, with an event about an object of an unsupported kind: the pod "foo" and the "oo" of kind "Podf"
      share a key, and whichever comes first decides whether the pod counts. */
  lemma ClashHappens(namespace: string)
    ensures var worth := Appraisal(OnlyFoo(namespace));
            var foo, oo := Event("Pod", namespace, "foo"), Event("Podf", namespace, "oo");
            Total(worth, [foo, oo]).quota.cpu == 1 && Total(worth, [oo, foo]) == NO_DEMAND
  {
    var worth, foo, oo := Appraisal(OnlyFoo(namespace)), Event("Pod", namespace, "foo"), Event("Podf", namespace, "oo");
    FooIsWorthOneMilli(namespace);
    FooAndOoShareTheirKey(foo, oo);
    OfTwoTheFirstCounts(worth, foo, oo);
    OfTwoTheFirstCounts(worth, oo, foo);
  }

  // ----- The demand, spelled out -----

  /** A container counts with the larger of request and limit, provided it gives requests at all. */
  function QuotaCpu(c: Container): int {
    if c.requests.None? then 0
    else if c.limits.Some? && c.limits.value.cpu > c.requests.value.cpu then c.limits.value.cpu
    else c.requests.value.cpu
  }

  function QuotaMemory(c: Container): int {
    if c.requests.None? then 0
    else if c.limits.Some? && c.limits.value.memory > c.requests.value.memory then c.limits.value.memory
    else c.requests.value.memory
  }

  lemma {:induction false} SumNeededIsSum(cs: seq<Container>)
    ensures SumNeeded(cs) == Pair(Sum(cs, QuotaCpu), Sum(cs, QuotaMemory))
  {
    if |cs| > 0 {
      SumNeededIsSum(cs[..|cs| - 1]);
    }
  }

  /** The quota demand of an object is the sum over its containers, memory rounded up once, times the missing replicas;
      the scheduler demand is the pod request times the missing replicas. Nothing missing, no demand. */
  lemma NeedsAre(spec: PodSpec, missing: int)
    ensures var quota, requests := QuotaNeed(spec, missing), RequestNeed(spec, missing);
            var memory := Sum(spec.containers, QuotaMemory);
            if missing <= 0 then quota == NOTHING && requests == NOTHING
            else
              && quota == Just(Sum(spec.containers, QuotaCpu) * missing, Mega(memory) * missing)
              && requests == Just(PodRequests(spec).cpu * missing, PodRequests(spec).memory * missing)
  {
    SumNeededIsSum(spec.containers);
    PodRequestsAreLeast(spec, NOTHING);
  }

  lemma {:induction false} OneOfTheSum(cs: seq<Container>, c: Container)
    requires c in cs && forall x :: x in cs ==> QuotaCpu(x) >= 0 && QuotaMemory(x) >= 0
    ensures Sum(cs, QuotaCpu) >= QuotaCpu(c) && Sum(cs, QuotaMemory) >= QuotaMemory(c)
  {
    var front := cs[..|cs| - 1];
    assert cs[|cs| - 1] in cs;
    NonNegativeSum(front);
    if c in front {
      OneOfTheSum(front, c);
    }
  }

  lemma {:induction false} NonNegativeSum(cs: seq<Container>)
    requires forall x :: x in cs ==> QuotaCpu(x) >= 0 && QuotaMemory(x) >= 0
    ensures Sum(cs, QuotaCpu) >= 0 && Sum(cs, QuotaMemory) >= 0
  {
    if |cs| > 0 {
      NonNegativeSum(cs[..|cs| - 1]);
    }
  }

  /** The quota demand covers request and limit of every container that gives requests, for every missing replica. */
  lemma DemandCoversContainers(spec: PodSpec, missing: int, c: Container)
    requires missing > 0 && c in spec.containers && c.requests.Some?
    requires forall x :: x in spec.containers ==> QuotaCpu(x) >= 0 && QuotaMemory(x) >= 0
    ensures var quota := QuotaNeed(spec, missing);
            && quota.cpu >= c.requests.value.cpu * missing
            && quota.memory * 1_000_000_000 >= c.requests.value.memory * missing
            && (c.limits.Some? ==>
                  && quota.cpu >= c.limits.value.cpu * missing
                  && quota.memory * 1_000_000_000 >= c.limits.value.memory * missing)
  {
    var cpu, memory := Sum(spec.containers, QuotaCpu), Sum(spec.containers, QuotaMemory);
    NeedsAre(spec, missing);
    OneOfTheSum(spec.containers, c);
    UnitsRoundUp(memory);
    TimesKeepsOrder(QuotaCpu(c), cpu, missing);
    TimesKeepsOrder(QuotaMemory(c), Mega(memory) * 1_000_000_000, missing);
    TimesKeepsOrder(c.requests.value.cpu, QuotaCpu(c), missing);
    TimesKeepsOrder(c.requests.value.memory, QuotaMemory(c), missing);
    if c.limits.Some? {
      TimesKeepsOrder(c.limits.value.cpu, QuotaCpu(c), missing);
      TimesKeepsOrder(c.limits.value.memory, QuotaMemory(c), missing);
    }
    assert Mega(memory) * 1_000_000_000 * missing == Mega(memory) * missing * 1_000_000_000;
  }

  lemma TimesKeepsOrder(x: int, y: int, m: int)
    requires x <= y && m > 0
    ensures x * m <= y * m
  {}

  /** Events of daemon sets do not count; any other event of a list counts with its object the first time. */
  lemma FirstEventCounts(worth: Event -> Demand, ev: Event, rest: seq<Event>)
    ensures ev.kind == "DaemonSet" ==> Total(worth, [ev] + rest) == Total(worth, rest)
    ensures ev.kind != "DaemonSet" ==>
              var later := TotalFrom(worth, {ev.kind + ev.name}, NO_DEMAND, rest);
              && Total(worth, [ev] + rest).quota == Plus(worth(ev).quota, later.quota)
              && Total(worth, [ev] + rest).requests == Plus(worth(ev).requests, later.requests)
  {
    var all := [ev] + rest;
    assert all[0] == ev && all[1..] == rest;
    assert {} + KeyOf(ev) == KeyOf(ev);
    if ev.kind != "DaemonSet" {
      TotalFromAdds(worth, KeyOf(ev), worth(ev), rest);
    }
  }

  lemma WorthIs(cluster: Snapshot, ev: Event)
    ensures var found, worth := cluster(ev.kind, ev.namespace, ev.name), Worth(cluster, ev);
            if found.None? then worth == Demand(NOTHING, NOTHING)
            else worth.quota == QuotaNeed(found.value.spec, found.value.missing)
                 && worth.requests == RequestNeed(found.value.spec, found.value.missing)
  {}

  lemma OneEvent(worth: Event -> Demand, ev: Event)
    requires ev.kind != "DaemonSet"
    ensures Total(worth, [ev]).quota == Plus(worth(ev).quota, NOTHING)
    ensures Total(worth, [ev]).requests == Plus(worth(ev).requests, NOTHING)
  {
    FirstEventCounts(worth, ev, []);
    assert [ev] + [] == [ev];
  }

  lemma PlusNothing(a: Amounts)
    ensures Plus(a, NOTHING) == a
  {}

  /** An object counts with its template and its missing replicas; one that cannot be looked up does not count. */
  lemma ObjectCounts(cluster: Snapshot, ev: Event)
    requires ev.kind != "DaemonSet"
    ensures var found, total := cluster(ev.kind, ev.namespace, ev.name), Total(Appraisal(cluster), [ev]);
            if found.None? then total.quota == NOTHING && total.requests == NOTHING
            else total.quota == QuotaNeed(found.value.spec, found.value.missing)
                 && total.requests == RequestNeed(found.value.spec, found.value.missing)
  {
    var worth := Worth(cluster, ev);
    OneEvent(Appraisal(cluster), ev);
    PlusNothing(worth.quota);
    PlusNothing(worth.requests);
    WorthIs(cluster, ev);
  }
}

/** Pods and what they ask of a node or of a quota. */
module Pods {
  import opened Common
  import opened Quantities
  import opened ResourceQuotas
  import opened Sequences

  /** A CPU and a memory quantity; a key that is not given reads as zero. */
  datatype Pair = Pair(cpu: Quantity, memory: Quantity)

  datatype Container = Container(requests: Option<Pair>, limits: Option<Pair>)

  datatype Phase = Pending | Running | Succeeded | Failed

  datatype PodSpec = PodSpec(containers: seq<Container>, initContainers: seq<Container>)

  /** `owners` are the kinds of the owner references. */
  datatype Metadata = Metadata(namespace: string, labels: map<string, string>, annotations: map<string, string>,
                               owners: seq<string>, deleting: bool)

  datatype Pod = Pod(meta: Metadata, nodeName: string, phase: Phase, spec: PodSpec)

  predicate IsTerminal(pod: Pod) { pod.phase.Succeeded? || pod.phase.Failed? }

  function RequestedCpu(c: Container): int { if c.requests.Some? then Milli(c.requests.value.cpu) else 0 }

  function RequestedMemory(c: Container): int { if c.requests.Some? then Mega(c.requests.value.memory) else 0 }

  function Just(cpu: int, memory: int): Amounts { Amounts(cpu, memory, 0, 0, 0) }

  /** Containers run side by side ... */
  function SumRequests(cs: seq<Container>): Amounts {
    if |cs| == 0 then NOTHING
    else Plus(SumRequests(cs[..|cs| - 1]), Just(RequestedCpu(cs[|cs| - 1]), RequestedMemory(cs[|cs| - 1])))
  }

  /** ... and init containers one after the other. */
  function PeakRequests(cs: seq<Container>): Amounts {
    if |cs| == 0 then NOTHING
    else Raised(PeakRequests(cs[..|cs| - 1]), Just(RequestedCpu(cs[|cs| - 1]), RequestedMemory(cs[|cs| - 1])))
  }

  /** What the scheduler must find room for. */
  function PodRequests(spec: PodSpec): Amounts {
    Raised(SumRequests(spec.containers), PeakRequests(spec.initContainers))
  }

  method PodRequestedResources(spec: PodSpec) returns (requested: Amounts)
    ensures requested == PodRequests(spec)
  {
    var sum := new Resources(NOTHING);
    for i := 0 to |spec.containers|
      invariant sum.Value() == SumRequests(spec.containers[..i])
    {
      sum.cpu := sum.cpu + RequestedCpu(spec.containers[i]);
      sum.memory := sum.memory + RequestedMemory(spec.containers[i]);
      assert spec.containers[..i + 1][..i] == spec.containers[..i];
    }
    assert spec.containers[..|spec.containers|] == spec.containers;
    var cpu, memory := 0, 0;
    for i := 0 to |spec.initContainers|
      invariant Just(cpu, memory) == PeakRequests(spec.initContainers[..i])
    {
      if RequestedCpu(spec.initContainers[i]) > cpu { cpu := RequestedCpu(spec.initContainers[i]); }
      if RequestedMemory(spec.initContainers[i]) > memory { memory := RequestedMemory(spec.initContainers[i]); }
      assert spec.initContainers[..i + 1][..i] == spec.initContainers[..i];
    }
    assert spec.initContainers[..|spec.initContainers|] == spec.initContainers;
    sum.Raise(Just(cpu, memory));
    requested := sum.Value();
  }

  ghost predicate NonNegative(c: Container) { RequestedCpu(c) >= 0 && RequestedMemory(c) >= 0 }

  ghost predicate NonNegativeSpec(spec: PodSpec) {
    forall c :: c in spec.containers || c in spec.initContainers ==> NonNegative(c)
  }

  /** The request covers every single init container and all the containers together, and it is never negative. */
  lemma PodRequestsCover(spec: PodSpec, c: Container)
    requires NonNegativeSpec(spec)
    ensures PodRequests(spec).cpu >= SumRequests(spec.containers).cpu >= 0
    ensures PodRequests(spec).memory >= SumRequests(spec.containers).memory >= 0
    ensures c in spec.containers || c in spec.initContainers ==>
              PodRequests(spec).cpu >= RequestedCpu(c) && PodRequests(spec).memory >= RequestedMemory(c)
  {
    SumCovers(spec.containers, c);
    PeakCovers(spec.initContainers, c);
  }

  lemma {:induction false} SumCovers(cs: seq<Container>, c: Container)
    requires forall x :: x in cs ==> NonNegative(x)
    ensures SumRequests(cs).cpu >= 0 && SumRequests(cs).memory >= 0
    ensures c in cs ==> SumRequests(cs).cpu >= RequestedCpu(c) && SumRequests(cs).memory >= RequestedMemory(c)
  {
    if |cs| > 0 {
      SumCovers(cs[..|cs| - 1], c);
      assert NonNegative(cs[|cs| - 1]);
    }
  }

  lemma {:induction false} PeakCovers(cs: seq<Container>, c: Container)
    ensures c in cs ==> PeakRequests(cs).cpu >= RequestedCpu(c) && PeakRequests(cs).memory >= RequestedMemory(c)
  {
    if |cs| > 0 {
      PeakCovers(cs[..|cs| - 1], c);
    }
  }

  // ----- The request, spelled out -----

  /** A pod that has ended no longer uses its node. */
  lemma TerminalExactly(pod: Pod)
    ensures IsTerminal(pod) <==> pod.phase != Pending && pod.phase != Running
  {}

  function AskedCpu(c: Container): int { if c.requests.Some? then c.requests.value.cpu else 0 }

  function AskedMemory(c: Container): int { if c.requests.Some? then Mega(c.requests.value.memory) else 0 }

  lemma AskedIsRequested(c: Container)
    ensures RequestedCpu(c) == AskedCpu(c) && RequestedMemory(c) == AskedMemory(c)
  {}

  lemma SumsOneMore(cs: seq<Container>)
    requires |cs| > 0
    ensures Sum(cs, AskedCpu) == Sum(cs[..|cs| - 1], AskedCpu) + AskedCpu(cs[|cs| - 1])
    ensures Sum(cs, AskedMemory) == Sum(cs[..|cs| - 1], AskedMemory) + AskedMemory(cs[|cs| - 1])
  {}

  lemma {:induction false} SumRequestsIsSum(cs: seq<Container>)
    ensures SumRequests(cs) == Just(Sum(cs, AskedCpu), Sum(cs, AskedMemory))
  {
    if |cs| > 0 {
      SumRequestsIsSum(cs[..|cs| - 1]);
      AskedIsRequested(cs[|cs| - 1]);
      SumsOneMore(cs);
    }
  }

  lemma {:induction false} PeakIsLeast(cs: seq<Container>, bound: Amounts)
    requires bound.cpu >= 0 && bound.memory >= 0
    requires forall c :: c in cs ==> bound.cpu >= AskedCpu(c) && bound.memory >= AskedMemory(c)
    ensures PeakRequests(cs).cpu <= bound.cpu && PeakRequests(cs).memory <= bound.memory
  {
    if |cs| > 0 {
      PeakIsLeast(cs[..|cs| - 1], bound);
      assert cs[|cs| - 1] in cs;
    }
  }

  /** The request is the least amount that covers nothing at all, the sum over the containers, and each init
      container. */
  lemma PodRequestsAreLeast(spec: PodSpec, bound: Amounts)
    ensures var r, cpu, memory := PodRequests(spec), Sum(spec.containers, AskedCpu), Sum(spec.containers, AskedMemory);
            && r == Just(r.cpu, r.memory) && r.cpu >= cpu && r.memory >= memory && r.cpu >= 0 && r.memory >= 0
            && (forall c :: c in spec.initContainers ==> r.cpu >= AskedCpu(c) && r.memory >= AskedMemory(c))
            && (bound.cpu >= cpu && bound.memory >= memory && bound.cpu >= 0 && bound.memory >= 0
                && (forall c :: c in spec.initContainers ==>
                      bound.cpu >= AskedCpu(c) && bound.memory >= AskedMemory(c)) ==>
                  r.cpu <= bound.cpu && r.memory <= bound.memory)
  {
    SumRequestsIsSum(spec.containers);
    PeakIsPair(spec.initContainers);
    forall c | c in spec.initContainers
      ensures PodRequests(spec).cpu >= AskedCpu(c) && PodRequests(spec).memory >= AskedMemory(c)
    {
      PeakCovers(spec.initContainers, c);
    }
    if bound.cpu >= 0 && bound.memory >= 0
       && forall c :: c in spec.initContainers ==> bound.cpu >= AskedCpu(c) && bound.memory >= AskedMemory(c)
    {
      PeakIsLeast(spec.initContainers, bound);
    }
  }

  lemma {:induction false} PeakIsPair(cs: seq<Container>)
    ensures var p := PeakRequests(cs); p == Just(p.cpu, p.memory) && p.cpu >= 0 && p.memory >= 0
  {
    if |cs| > 0 {
      PeakIsPair(cs[..|cs| - 1]);
    }
  }
}

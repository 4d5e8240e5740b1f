/** Resource amounts: the value a `Resources` object holds, the pure effect of each of its operations,
    and the mutable object itself with every operation proved against that effect. */
module Quantities {

  /** The four dimensions a quota is scaled in. */
  datatype Dim = LimitsCpu | LimitsMemory | RequestsCpu | RequestsMemory

  /** CPU in millicores, memory in megabytes, storage in gigabytes. */
  datatype Amounts = Amounts(cpu: int, memory: int, requestsCpu: int, requestsMemory: int, storage: int) {
    function At(d: Dim): int {
      match d
      case LimitsCpu => cpu
      case LimitsMemory => memory
      case RequestsCpu => requestsCpu
      case RequestsMemory => requestsMemory
    }

    predicate IsEmpty() {
      cpu == 0 && memory == 0 && requestsCpu == 0 && requestsMemory == 0
    }
  }

  const NOTHING := Amounts(0, 0, 0, 0, 0)

  function Max(x: int, y: int): int { if x > y then x else y }

  function Min(x: int, y: int): int { if x < y then x else y }

  function Plus(a: Amounts, b: Amounts): Amounts {
    Amounts(a.cpu + b.cpu, a.memory + b.memory, a.requestsCpu + b.requestsCpu,
            a.requestsMemory + b.requestsMemory, a.storage + b.storage)
  }

  function Or(x: int, y: int): int { if y != 0 then y else x }

  function Replaced(a: Amounts, b: Amounts): Amounts {
    Amounts(Or(a.cpu, b.cpu), Or(a.memory, b.memory), Or(a.requestsCpu, b.requestsCpu),
            Or(a.requestsMemory, b.requestsMemory), Or(a.storage, b.storage))
  }

  function Limited(a: Amounts, b: Amounts): Amounts {
    Amounts(Min(a.cpu, b.cpu), Min(a.memory, b.memory), Min(a.requestsCpu, b.requestsCpu),
            Min(a.requestsMemory, b.requestsMemory), a.storage)
  }

  function Raised(a: Amounts, b: Amounts): Amounts {
    Amounts(Max(a.cpu, b.cpu), Max(a.memory, b.memory), Max(a.requestsCpu, b.requestsCpu),
            Max(a.requestsMemory, b.requestsMemory), a.storage)
  }

  function LiftedLimits(a: Amounts): Amounts {
    a.(cpu := Max(a.cpu, a.requestsCpu), memory := Max(a.memory, a.requestsMemory))
  }

  ghost predicate AtLeast(a: Amounts, b: Amounts) {
    forall d: Dim :: a.At(d) >= b.At(d)
  }

  /** Some dimension of `a` exceeds the one of `b`. */
  predicate Exceeds(a: Amounts, b: Amounts) {
    a.cpu > b.cpu || a.memory > b.memory || a.requestsCpu > b.requestsCpu || a.requestsMemory > b.requestsMemory
  }

  function NeverMixed(a: Amounts, current: Amounts): Amounts {
    if Exceeds(a, current) then Raised(a, current) else a
  }

  /** A change never mixes growth and shrinkage, and it takes nothing away from what was asked for. */
  lemma NeverMixedIsOrdered(a: Amounts, current: Amounts)
    ensures AtLeast(NeverMixed(a, current), current) || AtLeast(current, NeverMixed(a, current))
    ensures AtLeast(NeverMixed(a, current), a)
    ensures AtLeast(current, a) ==> NeverMixed(a, current) == a
    ensures !AtLeast(current, a) ==> AtLeast(NeverMixed(a, current), current)
  {
    assert AtLeast(current, a) <==> !Exceeds(a, current) by {
      if !Exceeds(a, current) {
        forall d: Dim ensures current.At(d) >= a.At(d) {}
      } else {
        assert current.At(LimitsCpu) < a.At(LimitsCpu) || current.At(LimitsMemory) < a.At(LimitsMemory)
            || current.At(RequestsCpu) < a.At(RequestsCpu) || current.At(RequestsMemory) < a.At(RequestsMemory);
      }
    }
  }

  /** The mutable object the controllers pass around; every operation updates it in place. */
  class Resources {
    var cpu: int
    var memory: int
    var requestsCpu: int
    var requestsMemory: int
    var storage: int

    function Value(): Amounts
      reads this
    {
      Amounts(cpu, memory, requestsCpu, requestsMemory, storage)
    }

    constructor (a: Amounts)
      ensures Value() == a
    {
      cpu, memory, requestsCpu, requestsMemory, storage := a.cpu, a.memory, a.requestsCpu, a.requestsMemory, a.storage;
    }

    method Add(other: Resources)
      modifies this
      ensures Value() == Plus(old(Value()), old(other.Value()))
    {
      cpu := cpu + other.cpu;
      memory := memory + other.memory;
      requestsCpu := requestsCpu + other.requestsCpu;
      requestsMemory := requestsMemory + other.requestsMemory;
      storage := storage + other.storage;
    }

    method Replace(other: Resources)
      modifies this
      ensures Value() == Replaced(old(Value()), old(other.Value()))
    {
      if other.cpu != 0 { cpu := other.cpu; }
      if other.memory != 0 { memory := other.memory; }
      if other.requestsCpu != 0 { requestsCpu := other.requestsCpu; }
      if other.requestsMemory != 0 { requestsMemory := other.requestsMemory; }
      if other.storage != 0 { storage := other.storage; }
    }

    method Limit(limit: Amounts)
      modifies this
      ensures Value() == Limited(old(Value()), limit)
    {
      if cpu > limit.cpu { cpu := limit.cpu; }
      if memory > limit.memory { memory := limit.memory; }
      if requestsCpu > limit.requestsCpu { requestsCpu := limit.requestsCpu; }
      if requestsMemory > limit.requestsMemory { requestsMemory := limit.requestsMemory; }
    }

    method Raise(floor: Amounts)
      modifies this
      ensures Value() == Raised(old(Value()), floor)
    {
      if floor.cpu > cpu { cpu := floor.cpu; }
      if floor.memory > memory { memory := floor.memory; }
      if floor.requestsCpu > requestsCpu { requestsCpu := floor.requestsCpu; }
      if floor.requestsMemory > requestsMemory { requestsMemory := floor.requestsMemory; }
    }

    method EnsureRequestsFitLimits()
      modifies this
      ensures Value() == LiftedLimits(old(Value()))
    {
      if requestsCpu > cpu { cpu := requestsCpu; }
      if requestsMemory > memory { memory := requestsMemory; }
    }

    method ForceNoScaleDownWhenScaleUp(current: Amounts)
      modifies this
      ensures Value() == NeverMixed(old(Value()), current)
    {
      if || cpu > current.cpu || memory > current.memory
         || requestsCpu > current.requestsCpu || requestsMemory > current.requestsMemory
      {
        if cpu < current.cpu { cpu := current.cpu; }
        if memory < current.memory { memory := current.memory; }
        if requestsCpu < current.requestsCpu { requestsCpu := current.requestsCpu; }
        if requestsMemory < current.requestsMemory { requestsMemory := current.requestsMemory; }
      }
    }
  }
}

/** What one quota update decides: resize, wait for nodes, or nothing; and the marks that remember outstanding
    scale-out requests. */
module QuotaWatcher {
  import opened Common
  import opened Quantities
  import opened ResourceQuotas
  import opened ScalerPolicies
  import opened PodDemand
  import opened QuotaPipeline
  import opened Pods
  import opened ClusterNodes
  import opened WorkerCapacity

  /** One look at the worker nodes: a listing, or a failed list call. */
  type Look = Option<(seq<Node>, seq<Pod>)>

  /** A namespace's quota, its scaler and the pod demand read from its events. */
  datatype Job = Job(namespace: string, pct: Rounding, scaler: Scaler, quota: Quota, demand: Option<Demand>)

  datatype Action = Idle | Resize(desired: Amounts, immediate: bool) | Postponed | Refused

  /** `sent` tells whether a scale-out request was handed over. */
  datatype Decision = Decision(marked: bool, action: Action, sent: bool)

  /** The pods waiting for room; events whose quota demand is empty do not count. */
  function Waiting(demand: Option<Demand>): Amounts {
    if demand.Some? && !demand.value.quota.IsEmpty() then demand.value.requests else NOTHING
  }

  predicate Fits(look: Look, demand: Amounts) {
    || demand.IsEmpty()
    || (look.Some? && demand.cpu <= Available(look.value.0, look.value.1).cpu
        && demand.memory <= Available(look.value.0, look.value.1).memory)
  }

  /** What the check on the way out reads: usage, with a missing list read as empty, whether or not the rest of the
      status is there. */
  function UsedOf(quota: Quota): ResourceList { if quota.used.Some? then quota.used.value else map[] }

  function DesiredOf(job: Job): Amounts { Desired(job.pct, job.scaler, job.quota.hard, UsedOf(job.quota), job.demand) }

  /** Growing the quota would take more room than the workers have. */
  predicate NeedsScaleOut(job: Job, look: Look) {
    var desired := DesiredOf(job);
    && DiffersFrom(desired, job.quota.hard) && !IsScaleDown(desired, job.quota.hard)
    && !Fits(look, Waiting(job.demand))
  }

  predicate SomeLookFits(looks: seq<Look>, demand: Amounts) { exists l :: l in looks && Fits(l, demand) }

  /** The update itself. `looks` are the polls made while waiting for new nodes; `accepted` tells whether the
      node-scaling queue, if there is one, takes the request. */
  function Decided(marked: bool, job: Job, handler: bool, accepted: bool, look: Look, looks: seq<Look>): Decision {
    var desired, waiting := DesiredOf(job), Waiting(job.demand);
    var resize := if DiffersFrom(desired, job.quota.hard) then Resize(desired, !waiting.IsEmpty()) else Idle;
    if !IsReported(job.quota) then Decision(marked, Refused, false)
    else if Fits(look, waiting) then Decision(marked, resize, false)
    else if !handler then Decision(marked, if DiffersFrom(desired, job.quota.hard) then Refused else Idle, false)
    else if marked || job.namespace == "" then Decision(marked, Postponed, false)
    else if !accepted then Decision(false, Refused, false)
    else if SomeLookFits(looks, waiting) then Decision(false, resize, true)
    else Decision(true, Postponed, true)
  }

  /** One call of the update. `looks` are the polls while waiting for nodes; `after` and `later` are the demand and the
      cluster as the check on the way out reads them again. */
  datatype Turn = Turn(job: Job, accepted: bool, look: Look, looks: seq<Look>, after: Option<Demand>, later: Look)

  function DecidedIn(handler: bool, marks: set<string>, t: Turn): Decision {
    Decided(t.job.namespace in marks, t.job, handler, t.accepted, t.look, t.looks)
  }

  /** The check on the way out. */
  predicate StillNeeds(t: Turn) { NeedsScaleOut(t.job.(demand := t.after), t.later) }

  /** The marks after a whole call. */
  function MarksAfter(handler: bool, marks: set<string>, t: Turn): set<string> {
    if DecidedIn(handler, marks, t).marked && (t.job.namespace == "" || StillNeeds(t)) then marks + {t.job.namespace}
    else marks - {t.job.namespace}
  }

  /** Pods wait that do not fit, and there is a queue that takes a request for nodes. */
  predicate IsShort(handler: bool, t: Turn) {
    IsReported(t.job.quota) && !Fits(t.look, Waiting(t.job.demand)) && handler && t.accepted
  }

  /** What one call comes to, as far as the marks are concerned: is it short of room, would polling find room, and
      does the check on the way out still see a need. */
  datatype Facts = Facts(namespace: string, short: bool, room: bool, needs: bool)

  function FactsOf(handler: bool, t: Turn): Facts {
    Facts(t.job.namespace, IsShort(handler, t), SomeLookFits(t.looks, Waiting(t.job.demand)), StillNeeds(t))
  }

  predicate Sends(marks: set<string>, f: Facts) { f.short && f.namespace != "" && f.namespace !in marks }

  /** A call takes the mark of its namespace away: a poll found room for what it has just requested, or the check on the
      way out found no need. */
  predicate Clears(marks: set<string>, f: Facts) { (Sends(marks, f) && f.room) || !f.needs }

  function Moved(marks: set<string>, f: Facts): set<string> {
    if f.namespace == "" then marks
    else if (f.namespace in marks || Sends(marks, f)) && !Clears(marks, f) then marks + {f.namespace}
    else marks - {f.namespace}
  }

  lemma DecisionSends(handler: bool, marks: set<string>, t: Turn)
    requires "" !in marks
    ensures DecidedIn(handler, marks, t).sent <==> Sends(marks, FactsOf(handler, t))
  {}

  /** One call sends a request and moves the marks by these facts alone. */
  lemma TurnMoves(handler: bool, marks: set<string>, t: Turn)
    requires "" !in marks
    ensures DecidedIn(handler, marks, t).sent <==> Sends(marks, FactsOf(handler, t))
    ensures MarksAfter(handler, marks, t) == Moved(marks, FactsOf(handler, t))
  {
    DecisionSends(handler, marks, t);
    if t.job.namespace == "" {
      assert marks - {""} == marks;
    }
  }

  class Watcher {
    const handler: bool
    var pending: set<string>

    /** The empty namespace is never marked. */
    predicate Valid()
      reads this
    {
      "" !in pending
    }

    constructor (handler: bool)
      ensures this.handler == handler && pending == {}
    {
      this.handler, pending := handler, {};
    }

    method BeginPendingScaleOut(namespace: string) returns (begun: bool)
      modifies this
      ensures begun == (namespace != "" && namespace !in old(pending))
      ensures pending == if begun then old(pending) + {namespace} else old(pending)
    {
      if namespace == "" || namespace in pending { return false; }
      pending := pending + {namespace};
      begun := true;
    }

    method ClearPendingScaleOut(namespace: string)
      modifies this
      ensures pending == if namespace == "" then old(pending) else old(pending) - {namespace}
    {
      if namespace != "" {
        pending := pending - {namespace};
      }
    }

    method EnsureFits(look: Look, demand: Amounts) returns (fits: bool)
      ensures fits == Fits(look, demand)
    {
      if demand.IsEmpty() { return true; }
      if look.None? { return false; }
      fits := EnsurePodDemandFitsCluster(look.value.0, look.value.1, demand);
    }

    method WaitForWorkerCapacity(looks: seq<Look>, demand: Amounts) returns (fits: bool)
      ensures fits == SomeLookFits(looks, demand)
    {
      for i := 0 to |looks|
        invariant forall k :: 0 <= k < i ==> !Fits(looks[k], demand)
      {
        var now := EnsureFits(looks[i], demand);
        if now {
          assert looks[i] in looks;
          return true;
        }
      }
      fits := false;
    }

    method NamespaceNeedsScaleOut(job: Job, look: Look) returns (needs: bool)
      ensures needs == NeedsScaleOut(job, look)
    {
      var computed := ComputeDesired(job.pct, job.scaler,
                                     job.quota.(used := Some(UsedOf(job.quota)), statusHard := Some(map[])),
                                     job.demand);
      var desired := computed.value;
      if !DiffersFrom(desired, job.quota.hard) || IsScaleDown(desired, job.quota.hard) { return false; }
      var fits := EnsureFits(look, Waiting(job.demand));
      needs := !fits;
    }

    /** The update without the check on its way out. */
    method Update(job: Job, accepted: bool, look: Look, looks: seq<Look>) returns (action: Action, sent: bool)
      modifies this
      ensures Decision(job.namespace in pending, action, sent)
              == Decided(job.namespace in old(pending), job, handler, accepted, look, looks)
      ensures pending - {job.namespace} == old(pending) - {job.namespace}
    {
      sent := false;
      var computed := ComputeDesired(job.pct, job.scaler, job.quota, job.demand);
      if computed.Failure? { return Refused, sent; }
      var desired, waiting := computed.value, Waiting(job.demand);
      var fits := EnsureFits(look, waiting);
      if !fits && handler {
        var begun := BeginPendingScaleOut(job.namespace);
        if !begun { return Postponed, sent; }
        if !accepted {
          ClearPendingScaleOut(job.namespace);
          return Refused, sent;
        }
        sent := true;
        fits := WaitForWorkerCapacity(looks, waiting);
        if !fits { return Postponed, sent; }
        ClearPendingScaleOut(job.namespace);
      }
      action := Idle;
      if DiffersFrom(desired, job.quota.hard) {
        action := if fits then Resize(desired, !waiting.IsEmpty()) else Refused;
      }
    }

    method UpdateQuotaIfRequired(t: Turn) returns (action: Action, sent: bool)
      requires Valid()
      modifies this
      ensures Valid()
      ensures action == DecidedIn(handler, old(pending), t).action
      ensures sent <==> Sends(old(pending), FactsOf(handler, t))
      ensures pending == Moved(old(pending), FactsOf(handler, t))
      ensures action.Resize? ==>
                Fits(t.look, Waiting(t.job.demand)) || (sent && SomeLookFits(t.looks, Waiting(t.job.demand)))
    {
      action, sent := Update(t.job, t.accepted, t.look, t.looks);
      SameButOne(pending, old(pending), t.job.namespace);
      TurnMoves(handler, old(pending), t);
      ResizesFit(t.job.namespace in old(pending), t.job, handler, t.accepted, t.look, t.looks);
      var needs := NamespaceNeedsScaleOut(t.job.(demand := t.after), t.later);
      if !needs {
        ClearPendingScaleOut(t.job.namespace);
      }
    }
  }

  lemma SameButOne<T>(a: set<T>, b: set<T>, x: T)
    requires a - {x} == b - {x}
    ensures a == if x in a then b + {x} else b - {x}
  {
    forall y | y != x ensures y in a <==> y in b {
      assert y in a <==> y in a - {x};
      assert y in b <==> y in b - {x};
    }
  }

  // ----- What a decision guarantees -----

  /** A resize is sent only when the waiting pods fit the workers at the last look taken; it carries the desired
      quota, and it is immediate exactly when pods wait. While a request is outstanding, a call short of room is
      postponed. */
  lemma ResizesFit(marked: bool, job: Job, handler: bool, accepted: bool, look: Look, looks: seq<Look>)
    ensures var d := Decided(marked, job, handler, accepted, look, looks);
            d.action.Resize? ==>
              && (Fits(look, Waiting(job.demand)) || (d.sent && SomeLookFits(looks, Waiting(job.demand))))
              && d.action.desired == DesiredOf(job) && DiffersFrom(d.action.desired, job.quota.hard)
              && (d.action.immediate <==>
                    job.demand.Some? && !job.demand.value.quota.IsEmpty() && !job.demand.value.requests.IsEmpty())
    ensures marked && handler && IsReported(job.quota) && !Fits(look, Waiting(job.demand)) ==>
              Decided(marked, job, handler, accepted, look, looks) == Decision(true, Postponed, false)
  {}

  lemma QuietUpdateNeedsNothing(job: Job, look: Look)
    requires job.demand == None
    ensures !NeedsScaleOut(job, look)
  {}

  /** A shortage with nothing to grow: pods that do not fit do not keep the mark when the quota stays or shrinks. */
  lemma NeedMeansGrowth(job: Job, look: Look)
    requires NeedsScaleOut(job, look)
    ensures var desired, current := DesiredOf(job), Read(job.quota.hard);
            AtLeast(desired, current)
            && (desired != current.(storage := desired.storage) || HasStaleAlias(job.quota.hard))
  {
    DesiredIsNeverMixed(job.pct, job.scaler, job.quota.hard, UsedOf(job.quota), job.demand);
    assert forall d: Dim :: DesiredOf(job).At(d) >= Read(job.quota.hard).At(d) by {
      var desired, current := DesiredOf(job), Read(job.quota.hard);
      assert !Exceeds(current, desired);
      forall d: Dim ensures desired.At(d) >= current.At(d) {}
    }
  }
}

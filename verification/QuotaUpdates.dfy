/** What one quota update does, exactly, in terms of the quota, the pods and the cluster it meets. */
module QuotaUpdates {
  import opened Common
  import opened Quantities
  import opened ResourceQuotas
  import opened ScalerPolicies
  import opened PodDemand
  import opened QuotaPipeline
  import opened QuotaConvergence
  import opened Pods
  import opened ClusterNodes
  import opened WorkerCapacity
  import opened QuotaWatcher

  /** The scheduler requests of the pods the events are about; none if these ask for no quota. */
  ghost predicate PodsWait(demand: Option<Demand>) {
    && demand.Some?
    && (demand.value.quota.cpu != 0 || demand.value.quota.memory != 0
        || demand.value.quota.requestsCpu != 0 || demand.value.quota.requestsMemory != 0)
    && (demand.value.requests.cpu != 0 || demand.value.requests.memory != 0
        || demand.value.requests.requestsCpu != 0 || demand.value.requests.requestsMemory != 0)
  }

  /** At one look at the cluster: no pods wait, or the workers have the room they ask for. */
  ghost predicate HasRoom(look: Look, demand: Option<Demand>) {
    PodsWait(demand) ==>
      && look.Some?
      && demand.value.requests.cpu <= Available(look.value.0, look.value.1).cpu
      && demand.value.requests.memory <= Available(look.value.0, look.value.1).memory
  }

  lemma RoomIsFit(look: Look, demand: Option<Demand>)
    ensures Fits(look, Waiting(demand)) <==> HasRoom(look, demand)
    ensures Waiting(demand).IsEmpty() <==> !PodsWait(demand)
  {}

  /** A request for nodes can be handed over: there is a queue, it has room, and nothing is outstanding. */
  ghost predicate CanAsk(handler: bool, marks: set<string>, t: Turn) {
    handler && t.accepted && t.job.namespace != "" && t.job.namespace !in marks
  }

  ghost predicate FoundRoom(t: Turn) { exists l :: l in t.looks && HasRoom(l, t.job.demand) }

  lemma FoundRoomIsFit(t: Turn)
    ensures FoundRoom(t) <==> SomeLookFits(t.looks, Waiting(t.job.demand))
  {
    forall l ensures Fits(l, Waiting(t.job.demand)) <==> HasRoom(l, t.job.demand) {
      RoomIsFit(l, t.job.demand);
    }
  }

  /** Room at the first look, or a request for nodes and room at one of the polls after it. */
  ghost predicate GoesAhead(handler: bool, marks: set<string>, t: Turn) {
    HasRoom(t.look, t.job.demand) || (CanAsk(handler, marks, t) && FoundRoom(t))
  }

  /** Exactly when an update resizes the quota, does nothing, is postponed, or fails; and when it asks for nodes. */
  lemma UpdateDoes(handler: bool, marks: set<string>, t: Turn, desired: Amounts)
    requires desired == DesiredOf(t.job)
    ensures var d, reported := DecidedIn(handler, marks, t), t.job.quota.used.Some? && t.job.quota.statusHard.Some?;
            var room, differs := HasRoom(t.look, t.job.demand), DiffersFrom(desired, t.job.quota.hard);
            && (d.action == Resize(desired, PodsWait(t.job.demand)) <==>
                  reported && differs && GoesAhead(handler, marks, t))
            && (d.action.Resize? ==> d.action == Resize(desired, PodsWait(t.job.demand)))
            && (d.action == Idle <==> reported && !differs && (GoesAhead(handler, marks, t) || !handler))
            && (d.action == Postponed <==>
                  && reported && !room && handler
                  && (t.job.namespace == "" || t.job.namespace in marks || (t.accepted && !FoundRoom(t))))
            && (d.action == Refused <==>
                  || !reported
                  || (!room && !handler && differs)
                  || (!room && handler && t.job.namespace != "" && t.job.namespace !in marks && !t.accepted))
            && (d.sent <==> reported && !room && CanAsk(handler, marks, t))
  {
    RoomIsFit(t.look, t.job.demand);
    FoundRoomIsFit(t);
  }

  /** The stored limits after the action. */
  function After(hard: ResourceList, action: Action): ResourceList {
    if action.Resize? then Patched(hard, action.desired) else hard
  }

  /** A reported quota that is not held back for want of nodes takes one step of the reconcile whose repetition settles;
      without pending pods nothing holds it back. */
  lemma UpdateReconciles(handler: bool, marks: set<string>, t: Turn)
    requires t.job.quota.used.Some? && t.job.quota.statusHard.Some?
    ensures var action, job := DecidedIn(handler, marks, t).action, t.job;
            && (action.Resize? || action == Idle ==>
                  After(job.quota.hard, action)
                  == Reconcile(Setting(job.pct, job.scaler, job.quota.used.value, job.demand), job.quota.hard))
            && (!PodsWait(job.demand) ==> action.Resize? || action == Idle)
  {
    UpdateDoes(handler, marks, t, DesiredOf(t.job));
  }

  /** Nodes are needed if and only if the quota would change, nothing in it would shrink, and pods wait without room. */
  lemma NeedsExactly(job: Job, look: Look)
    ensures NeedsScaleOut(job, look) <==>
              && DiffersFrom(DesiredOf(job), job.quota.hard)
              && (forall d: Dim :: DesiredOf(job).At(d) >= ValueOf(job.quota.hard, d))
              && !HasRoom(look, job.demand)
    ensures DesiredOf(job) == Desired(job.pct, job.scaler, job.quota.hard,
                                      if job.quota.used.Some? then job.quota.used.value else map[], job.demand)
  {
    RoomIsFit(look, job.demand);
    ScaleDownExactly(job.quota.hard, DesiredOf(job));
    var desired, current := DesiredOf(job), Read(job.quota.hard);
    assert (forall d: Dim :: desired.At(d) >= ValueOf(job.quota.hard, d)) <==> !Exceeds(current, desired) by {
      assert forall d: Dim :: current.At(d) == ValueOf(job.quota.hard, d);
      if !Exceeds(current, desired) {
        forall d: Dim ensures desired.At(d) >= current.At(d) {}
      } else {
        assert current.At(LimitsCpu) > desired.At(LimitsCpu) || current.At(LimitsMemory) > desired.At(LimitsMemory)
            || current.At(RequestsCpu) > desired.At(RequestsCpu)
               || current.At(RequestsMemory) > desired.At(RequestsMemory);
      }
    }
  }

  /** The marks after a whole update, with its check on the way out. */
  lemma UpdateMarks(handler: bool, marks: set<string>, t: Turn)
    requires "" !in marks
    ensures var reported, ns := t.job.quota.used.Some? && t.job.quota.statusHard.Some?, t.job.namespace;
            var asked := reported && !HasRoom(t.look, t.job.demand) && CanAsk(handler, marks, t);
            MarksAfter(handler, marks, t) ==
              if NeedsScaleOut(t.job.(demand := t.after), t.later) && (ns in marks || (asked && !FoundRoom(t)))
              then marks + {ns} else marks - {ns}
  {
    RoomIsFit(t.look, t.job.demand);
    FoundRoomIsFit(t);
    TurnMoves(handler, marks, t);
    if t.job.namespace == "" {
      assert marks - {""} == marks;
    }
  }
}

# Verified model of the quota and node-scaling controllers

This project models the decision logic of the quota-scaling controller and proves properties of it. Kubernetes, Git and
the clock appear only through their results: every call to the outside either succeeds or fails, lists return some
listing of the cluster, and clock readings are parameters.

* **Quota pipeline** (`Quantities`, `ResourceQuotas`, `ScalerPolicies`, `QuotaPipeline`, `QuotaOutcome`,
  `QuotaConvergence`, `QuotaRounds`): current hard limits, usage, policies and pending pod demand are turned into a
  desired quota in four coupled dimensions; the desired quota is sent as a JSON merge patch (section 2 of RFC 7396).
  With fixed usage and fixed pending demand repeated reconciles settle after at most three rounds, and after two
  exactly when the second does not mix growth and shrinkage.
* **Pod demand and worker capacity** (`Pods`, `PodDemand`, `ClusterNodes`, `WorkerCapacity`, `QuotaWatcher`,
  `QuotaUpdates`, `QuotaWatcherRuns`): the demand of pods that could not be placed, the room the workers have, what
  one quota update does about it, and the marks of outstanding scale-out requests over runs of updates.
* **Resize worker** (`ResizeWorker`, `ResizeRuns`, `ResizeProjection`): a concurrent protocol with one call in flight
  and one waiting event per namespace, as a state machine over submissions, API returns and completions.
* **Node scaling** (`Ordering`, `Sequences`, `Inventory`, `InventorySelection`, `InventoryStore`, `ScaleInCapacity`,
  `ReservationSafety`, `NodeScaling`, `NodeScalingController`, `NodeScalingRuns`, `NodeScalingLoop`): the inventory,
  scale-out, scale-in, the waiters that drain nodes, the replica count in the manifest, and the automatic trigger, as
  one state machine and as the controller object that performs its runs. What is proved of it: the effect of a
  scale-out (`ScaleOutEffects`, `ScaleOutSelection`, `ScaleOutSafety`, `ScaleOutRoom`, `ScaleOutOutcome`), of a scale-in
  (`ScaleInSafety`, `ScaleInOutcome`) and of a waiter's tick (`WaiterTicks`), the replica count
  (`ReplicaAccounting`, `ManifestRuns`), the automatic trigger (`ScaleInTrigger`, `NodeScalingOrder`), the marks of used nodes (`UsedNodes`), and the nodes that get lost (`ForgottenNodes`).
* **Trace window search** (`TraceWindow`): the two-pointer search for the busiest stretch of a request trace.

Where the source works in place, the model has a class or a loop whose contract ties it to a function of the old state
(`Quantities.Resources`, `ResizeWorker.EventHandler`, `InventoryStore.NodeScalingInventoryStore`,
`ClusterNodes.NodeClient`, `NodeScalingController.Controller`, `QuotaWatcher.Watcher`); the properties are lemmas about
those functions and about runs of them.

## What does not hold

Some statements one might expect fail for the code as it is. Each has its exact condition and an input:

* Two reconciles do not always settle: after a stored limit of zero the second can be mixed, and exactly then a third is
  needed (`QuotaRounds.TwoSettleExactly`, `QuotaRounds.ZeroLimitNeedsThree`). Three always suffice.
* Pod demand depends on the order of events exactly when two objects share a key and differ in demand; a key is kind
  and name without a separator (`PodDemand.OrderMattersExactlyOnClash`, `PodDemand.ClashHappens`).
* Before clamping, the balance after a reservation reaches the projected amount exactly when the pods on the reserved
  nodes make up for what the cluster was overcommitted by (`ReservationSafety.ReservationIsSafe`,
  `ReservationSafety.OvercommittedBalanceStaysNegative`).
* Activation undoes a reservation only on nodes that had neither a scaling mark nor a role label
  (`ClusterNodes.ActivationUndoesReservation`, `ClusterNodes.RoleLabelIsLost`).
* The first inventory sync after a scale-out drops every activated node (`NodeScalingRuns.SyncForgetsActivated`,
  `NodeScalingWitnesses.SyncForgetsSpare`), and such a node is never reserved or drained again
  (`ForgottenNodes.ActivatedAreLost`).
* Automatic scale-in does not follow from spare capacity: a ticker turn finds the cluster eligible exactly when its sync
  fails and the inventory as it was lets the evaluation spare a node (`NodeScalingOrder.TurnIsEligibleExactly`). So
  every automatic request ends a stretch of the trigger delay without a successful sync before a completed evaluation
  (`NodeScalingOrder.RequestNeedsFailingSyncs`, `NodeScalingOrder.FailingSyncsRequest`).
* A scale-out breaks the agreement between inventory and node marks exactly when it strands a spare: all reused nodes
  and the spares before it are processed, it is activated, and its marking fails
  (`ScaleOutSafety.ScaleOutIsSafeExactly`, `NodeScalingRuns.UnmarkedSpareBreaksSafety`).
* Scale-out lowers the replica count exactly when the manifest is already above the cap
  (`ReplicaAccounting.ScaleOutReplicas`, `NodeScalingWitnesses.ScaleOutLowersCount`); the baseline ignores the cap
  (`ReplicaAccounting.BaselineIgnoresCap`, `NodeScalingWitnesses.BaselineExceedsCap`).
* The spare floor survives an excess removal exactly when the manifest holds at least the unused nodes
  (`ReplicaAccounting.ExcessRemoval`, `NodeScalingWitnesses.ExcessRemovalLosesFloor`), and a second removal on an
  unsynced inventory subtracts again (`ReplicaAccounting.StaleSecondPass`, `NodeScalingWitnesses.SecondPassLosesFloor`).
* The working copy of the manifest leaves the last commit exactly when a new count is written and cannot be committed;
  the next sync then records a count nobody published (`ManifestRuns.RunIsCleanExactly`,
  `ManifestRuns.SyncRecordsUncommitted`).
* A scale-out request is repeated exactly when, since the earlier one, a poll found room for it or some call of the
  namespace left without a need (`QuotaWatcherRuns.SendsExactly`); a call that reads no events leaves without one
  (`QuotaWatcherRuns.QuietTurnForgetsRequest`).
* A window of no seconds always walks off the end of the timestamps (`TraceWindow.ChooseWindow`).

## Model

| member | source | states |
|---|---|---|
| Quantities.Resources.Add | pkg/resources/resources.go:27-34 | adds all five amounts in place |
| Quantities.Resources.Replace | pkg/resources/resources.go:37-60 | takes over the non-zero amounts in place and keeps the others |
| Quantities.Resources.Limit | pkg/resources/resources.go:63-77 | caps the four scaled dimensions in place; storage is not capped |
| Quantities.Resources.Raise | pkg/resources/resources.go:80-94 | raises the four scaled dimensions in place to a floor |
| Quantities.Resources.EnsureRequestsFitLimits | pkg/resources/resources.go:172-181 | lifts limits to requests |
| Quantities.Resources.ForceNoScaleDownWhenScaleUp | pkg/resources/resources.go:140-162 | in place: if one dimension grows, none shrinks |
| Quantities.NeverMixedIsOrdered | pkg/resources/resources.go:140-162 | the outcome is pointwise at least or pointwise at most the current amounts and gives up nothing that was asked for |
| ResourceQuotas.FlatPatchRewrites | internal/resize/api.go:239-244 | a merge patch of plain values removes the null members and writes the others, for any base object |
| ResourceQuotas.PatchRewritesHard | internal/resize/api.go:239-244 | the generated patch rewrites exactly `spec.hard` of any quota document and nothing else |
| ResourceQuotas.PatchRoundTrip | internal/resize/api.go:239-244 | after the patch the quota reads back as exactly the desired four values, no further patch is wanted, and unmanaged keys are untouched |
| ResourceQuotas.NoPatchWantedMeansNothingToDo | pkg/resources/resources.go:101-131 | no patch is wanted if and only if the four values agree and no legacy alias stands beside an explicit key |
| ResourceQuotas.UnitsRoundUp | internal/quota/controller.go:357-372 | CPU in thousandths, memory rounded up to the next million bytes |
| ResourceQuotas.ListReadsAs | pkg/resources/resources.go:164-170 | an explicit key wins over the legacy alias, which stands in for a missing key; with neither a value is zero |
| ResourceQuotas.PatchWantedExactly | pkg/resources/resources.go:101-131 | a patch is wanted if and only if a value differs or a legacy alias stands beside an explicit key of its resource |
| ResourceQuotas.ScaleDownExactly | pkg/resources/resources.go:133-138 | a change lowers the quota if and only if one of the four values falls |
| ScalerPolicies.ActivateScalerPolicy | internal/quota/scaler.go:159-184 | the loop over the two resources of a policy fills exactly those two dimensions with their targets |
| ScalerPolicies.UnknownMethodIsInert | internal/quota/scaler.go:87-123 | a policy with an unknown method never asks for anything |
| ScalerPolicies.TargetCoversUse | internal/quota/scaler.go:186-217 | with an aim of at most 100 percent no policy asks for less than what is used, up to the maximum |
| ScalerPolicies.UpPolicyAsks | internal/quota/scaler.go:159-217 | an up policy is in effect exactly above its threshold, unless that is 100, and asks for the largest amount at which usage still reaches the target utilisation, up to the maximum; a zero target stands for the threshold |
| ScalerPolicies.DownPolicyAsks | internal/quota/scaler.go:159-217 | a down policy is in effect exactly below its threshold and asks for that amount, down to the minimum; with threshold 100 it asks for the usage whenever usage and maximum differ |
| ScalerPolicies.OtherResourceIsLeft | internal/quota/scaler.go:87-123 | a policy asks for nothing in the resource of another method |
| QuotaPipeline.RunPolicies | internal/quota/controller.go:404-411 | the policy loop updates the desired amounts in place, policy by policy |
| QuotaPipeline.AddDemand | internal/quota/controller.go:413-429 | pending demand raises limits and requests separately, on top of current usage |
| QuotaPipeline.BoundQuotaResources | internal/quota/controller.go:374-384 | raise to the minimum, cap at the maximum, lift limits to requests |
| QuotaPipeline.ComputeDesired | internal/quota/controller.go:386-441 | the whole computation in place; it fails if and only if the quota has no status |
| QuotaPipeline.BoundedIsWellSized | internal/quota/controller.go:374-384 | bounding yields amounts within bounds and requests within limits, from any amounts |
| QuotaPipeline.DesiredIsNeverMixed | internal/quota/controller.go:386-441 | for every scaler, quota and demand the desired quota grows everywhere or shrinks everywhere |
| QuotaPipeline.DesiredStaysWellSized | internal/quota/controller.go:374-441 | a quota within bounds and with requests within limits stays so |
| QuotaPipeline.ShrinkingCoversUse | internal/quota/scaler.go:186-217 | a dimension that shrinks never goes below what is used, or below the maximum if that is smaller |
| QuotaPipeline.DemandIsCovered | internal/quota/controller.go:413-441 | with pending pods every dimension reaches usage plus demand, up to the maximum |
| QuotaOutcome.LastInEffectWins | internal/quota/controller.go:404-411 | of several policies the last one that asks for something decides, for each value |
| QuotaOutcome.DesiredIs | internal/quota/controller.go:386-441 | the four desired values from the policies in effect, the need of pending pods, the bounds and the stored values |
| QuotaOutcome.StorageIsCarried | internal/quota/controller.go:431-439 | storage is carried over from the stored limits, rounded up to the next thousand million bytes |
| QuotaOutcome.ScaledUpTo1600 | internal/quota/scaler.go:186-217 | 800 of 1000 used, above 70 percent to a use of 50: the quota becomes 1600 |
| QuotaConvergence.StepIsIdempotent | internal/quota/scaler.go:186-217 | in one dimension a second step changes nothing, for any percentage within the bounds of the float computation |
| QuotaConvergence.NoClimbAbove | internal/quota/scaler.go:186-217 | from any limit at or above the outcome of a step a further step does not climb: no flapping up and down |
| QuotaConvergence.DesiredIsNext | internal/quota/controller.go:386-441 | the pipeline, pending demand included, is four one-dimensional steps, coupled by lifting limits and by the ban on mixed changes |
| QuotaConvergence.SecondReconcileNeverClimbs | internal/quota/controller.go:395-441 | with fixed usage and demand, whatever the first reconcile did, the second raises nothing |
| QuotaConvergence.TwoReconcilesSettle | internal/quota/controller.go:395-441 | after two reconciles a third changes none of the four values |
| QuotaConvergence.ReconcileReads | internal/quota/controller.go:471-483 | what reconcile and patch leave behind reads as the next four values, without stale aliases |
| QuotaRounds.OneReconcileMeasures | internal/quota/controller.go:374-441 | from any stored limits, zeros included, usage can be measured after one reconcile |
| QuotaRounds.OneSettlesExactly | internal/quota/controller.go:395-441 | where usage can be measured one reconcile settles the values if and only if it is not mixed |
| QuotaRounds.ThreeReconcilesSettle | internal/quota/controller.go:395-441 | from any stored limits three reconciles settle the four values |
| QuotaRounds.TwoSettleExactly | pkg/resources/resources.go:140-162 | two settle them if and only if the second does not enter the branch that forbids mixed changes with both a growing and a shrinking value |
| QuotaRounds.RoundsSettle | internal/quota/controller.go:386-485 | the same for stored quota objects under reconcile and patch, for any fixed usage and pending demand: three rounds always, two exactly under that condition, and so wherever the stored limits show usage |
| QuotaRounds.ZeroLimitNeedsThree | internal/quota/scaler.go:119-121 | a stored quota object with a zero CPU limit that the third round still changes |
| Pods.PodRequestedResources | internal/quota/capacity.go:97-118 | sum over containers, raised to the largest init container |
| Pods.PodRequestsCover | internal/quota/capacity.go:97-118 | the request covers every init container and all containers together and is never negative |
| Pods.PodRequestsAreLeast | internal/quota/capacity.go:97-118 | the request is the least amount with that cover |
| Pods.TerminalExactly | internal/quota/capacity.go:93-95 | a pod has ended unless it is pending or running |
| PodDemand.CalculatePodResources | internal/quota/pod_events.go:54-80 | the larger of request and limit, summed and multiplied by the missing replicas |
| PodDemand.CalculatePodRequestResources | internal/quota/pod_events.go:84-92 | scheduler requests times the missing replicas |
| PodDemand.NeedsAre | internal/quota/pod_events.go:54-92 | the quota demand is the sum over containers of the larger of request and limit, memory rounded up once, times the missing replicas; the scheduler demand is the pod request times those |
| PodDemand.DemandCoversContainers | internal/quota/pod_events.go:54-80 | the demand covers request and limit of every container that gives requests, for every missing replica |
| PodDemand.FirstEventCounts | internal/quota/pod_events.go:27-36 | events of daemon sets do not count; the first event of any other object counts with its demand, in both sums |
| PodDemand.ObjectCounts | internal/quota/pod_events.go:38-46 | an object counts with its template and missing replicas, one that cannot be looked up not at all |
| PodDemand.GetResourceDemandsFromPodEvents | internal/quota/pod_events.go:21-50 | the loop with its seen-map sums each key once, at its first event, and skips daemon sets and failed lookups |
| PodDemand.DemandIgnoresOrderAndRepetition | internal/quota/pod_events.go:21-50 | permuting or repeating events changes nothing: the demand is the sum over distinct objects |
| PodDemand.OrderMattersExactlyOnClash | internal/quota/pod_events.go:21-50 | order is irrelevant if and only if objects sharing a key have the same demand |
| PodDemand.HandledKindsIdentify | internal/quota/pod_events.go:98-147 | the supported kinds of one namespace never share a key |
| PodDemand.ClashHappens | internal/quota/pod_events.go:21-50 | a pod and an object of an unsupported kind that share a key: the two orders of their events give different demand |
| ClusterNodes.NodeClient.ActivateScalingNode | internal/nodescaling/controller.go:547-571 | takes both labels and the scaling taint off one node, or fails and changes nothing |
| ClusterNodes.NodeClient.ReserveScalingNode | internal/nodescaling/controller.go:573-601 | puts both labels and the taint on one node, or fails and changes nothing |
| ClusterNodes.NodeClient.NodeHasScalingReservation | internal/nodescaling/controller.go:603-620 | tells whether both labels and the taint are there |
| ClusterNodes.ActivatedIsUnmarked | internal/nodescaling/controller.go:547-571 | activation leaves no mark, makes the node take pods unless cordoned or control plane, and changes only marked nodes |
| ClusterNodes.ReservedIsMarked | internal/nodescaling/controller.go:573-620 | a reserved node carries all marks, takes no pods, and stays as it is when reserved again |
| ClusterNodes.MarksAre | internal/nodescaling/scalein_trigger.go:209-232 | which labels and taint make a node a scaling node, and which reserve it |
| ClusterNodes.EligibleExactly | internal/nodescaling/scalein_trigger.go:178-228 | a node takes ordinary pods unless it carries a control-plane or master label, is cordoned, or has the scaling taint |
| ClusterNodes.ActivationChangesMarksOnly | internal/nodescaling/controller.go:547-571 | activation takes off the marks; other labels, other taints and the rest of the node stay |
| ClusterNodes.ReservationChangesMarksOnly | internal/nodescaling/controller.go:573-601 | reservation sets the marks; the rest of the node stays |
| ClusterNodes.ActivationUndoesReservation | internal/nodescaling/controller.go:547-601 | activation undoes a reservation if and only if the node had no mark and no role label |
| ClusterNodes.RoleLabelIsLost | internal/nodescaling/controller.go:547-601 | a node with another role label comes back without it |
| WorkerCapacity.WorkerNodeAvailableResources | internal/quota/capacity.go:36-76 | the quota loop's computation equals the specified availability on every cluster |
| WorkerCapacity.SchedulableWorkerNodeCapacity | internal/nodescaling/scalein_trigger.go:178-201 | total and per-node allocatable of the eligible nodes |
| WorkerCapacity.SchedulableWorkerNodeAvailableResources | internal/nodescaling/scalein_trigger.go:147-176 | the node loop's computation equals the same availability, so both always agree |
| WorkerCapacity.EnsurePodDemandFitsCluster | internal/quota/capacity.go:14-34 | demand fits if and only if it is empty or within the availability in both dimensions |
| WorkerCapacity.AvailableIs | internal/quota/capacity.go:36-91 | the room is the allocatable of the nodes that take pods less the requests of the pending and running pods on them, and never negative |
| WorkerCapacity.AvailableIgnoresOrder | internal/quota/capacity.go:36-76 | the order of nodes and pods does not matter |
| WorkerCapacity.BalanceUpdated | internal/nodescaling/scalein_trigger.go:147-201 | changing one node's marks moves the balance by exactly its own room, and only if its eligibility changes |
| WorkerCapacity.ActivationNeverLowersAvailable | internal/nodescaling/controller.go:547-571 | activating a node whose pods fit its allocatable never lowers the availability |
| QuotaWatcher.Watcher.UpdateQuotaIfRequired | internal/quota/controller.go:386-486 | action, request and marks after one update with its check on the way out; a resize is sent only when the waiting pods fit at the last look |
| QuotaWatcher.Watcher.NamespaceNeedsScaleOut | internal/quota/controller.go:539-578 | the second computation of the desired quota agrees with the first; nodes are needed when the quota grows and the pods do not fit |
| QuotaWatcher.Watcher.WaitForWorkerCapacity | internal/quota/controller.go:488-510 | polling succeeds if and only if some poll finds room |
| QuotaWatcher.Watcher.BeginPendingScaleOut | internal/quota/controller.go:512-527 | at most one mark per namespace |
| QuotaWatcher.Watcher.ClearPendingScaleOut | internal/quota/controller.go:529-537 | clears only the mark of this namespace |
| QuotaWatcherRuns.RunUpdates | internal/quota/controller.go:386-486 | over any run of calls the watcher's marks and the requests sent are those of the run's facts |
| QuotaWatcherRuns.MarkedExactly | internal/quota/controller.go:387-469 | in every run a namespace is marked if and only if some call of it was short of room, found none by polling and left with the need, and no call of it since left without |
| QuotaWatcherRuns.SendsExactly | internal/quota/controller.go:442-457 | a call sends a request if and only if it is short of room and no such call before it has a need that lasts until then |
| QuotaWatcherRuns.RequestsAreSeparated | internal/quota/controller.go:387-469 | between two requests of a namespace one of its own calls leaves without a need, or polling found room for the first |
| QuotaWatcher.NeedMeansGrowth | internal/quota/controller.go:539-578 | nodes are needed only when the quota grows or sheds a legacy alias |
| QuotaUpdates.UpdateDoes | internal/quota/controller.go:386-485 | exactly when an update resizes the quota, does nothing, is postponed or fails, and when it asks for nodes |
| QuotaUpdates.UpdateReconciles | internal/quota/controller.go:386-485 | an update that is not held back for want of nodes takes one step of the reconcile whose repetition settles; without pending pods nothing holds it back |
| QuotaUpdates.NeedsExactly | internal/quota/controller.go:539-578 | nodes are needed if and only if the quota would change, nothing in it would shrink, and pods wait without room |
| QuotaUpdates.UpdateMarks | internal/quota/controller.go:387-393 | the marks after a whole update, from what it meets |
| QuotaWatcherRuns.QuietTurnForgetsRequest | internal/quota/controller.go:387-393 | a run in which an update without events clears the mark and the same shortage sends a second request |
| ResizeWorker.EventHandler.OnEvent | internal/resize/api.go:120-133 | the submission branch of the loop, in place |
| ResizeWorker.EventHandler.OnDone | internal/resize/api.go:135-146 | the completion branch, with its two clock readings, in place |
| ResizeWorker.EventHandler.Resize | internal/resize/api.go:107-116 | starts a call unless the rate limit drops a periodic event |
| ResizeWorker.EventHandler.RunEventHandler | internal/resize/api.go:118-148 | the event loop performs exactly the run of the state machine |
| ResizeRuns.StepKeepsInvariant | internal/resize/api.go:98-149 | every step keeps serialisation, numbering, conservation, priority and rate bound |
| ResizeRuns.CallsNeverOverlap | internal/resize/api.go:98-149 | in every reachable state a namespace is in progress if and only if one call is in flight; two never are; an event waits only meanwhile |
| ResizeRuns.ImmediateIsNeverLost | internal/resize/api.go:120-146 | a submitted immediate event is started, waits, or was displaced by a later immediate one of its namespace |
| ResizeRuns.EveryEventIsAccountedFor | internal/resize/api.go:107-146 | submitted equals started plus waiting plus displaced plus rate-limited, as multisets; only periodic events are rate-limited |
| ResizeRuns.LatestImmediateIsServed | internal/resize/api.go:120-146 | in every run the latest immediate event of a namespace has been started or waits |
| ResizeRuns.WaitingImmediateRunsNext | internal/resize/api.go:120-146 | in every run what the next completion of a namespace starts is the immediate event that waited, or a later immediate one that took its place |
| ResizeRuns.PeriodicStartsWait | internal/resize/api.go:107-117 | in every run a periodic resize starts at least the interval after every earlier start of its namespace, immediate ones included |
| ResizeRuns.PeriodicStartsAreRateBound | internal/resize/api.go:107-117 | k periodic starts of a namespace span at least k - 1 intervals, whatever happens between them |
| ResizeProjection.StepProjects | internal/resize/api.go:98-149 | a step of another namespace is invisible; an own step is a step of the single-namespace machine |
| ResizeProjection.EveryRunProjects | internal/resize/api.go:98-149 | every run, seen from one namespace, is a run of the single-namespace machine |
| TraceWindow.ChooseWindow | example/test/locust/build_worldcup_trace.py:61-82 | no interval of the same length holds more requests than the returned one, and it is the earliest such at a recorded timestamp; it fails if and only if there are no timestamps or the window is not positive |
| TraceWindow.BestIsBusiest | example/test/locust/build_worldcup_trace.py:72-80 | the best sum of the search is the true total of the returned interval and the maximum over all intervals |
| TraceWindow.BestExtends | example/test/locust/build_worldcup_trace.py:72-80 | moving the right end by one timestamp keeps the best stretch known |
| Ordering.LessIsLexicographic | internal/nodescaling/inventory.go:237 | names are ordered by the first place where they differ; a name comes before its continuations |
| Inventory.NormalizeNodeNames | internal/nodescaling/inventory.go:222-239 | drops empty and repeated names and sorts the rest |
| Inventory.NormalizedIsCanonical | internal/nodescaling/inventory.go:222-239 | the result is the strictly increasing listing of exactly the non-empty names |
| Inventory.NormalizedDependsOnSet | internal/nodescaling/inventory.go:222-239 | order and repetition of the observed names do not matter |
| Inventory.BuildNodeScalingInventorySpec | internal/nodescaling/inventory.go:148-203 | the loops build retained nodes plus new ones numbered on, stably sorted |
| Inventory.BuiltHas | internal/nodescaling/inventory.go:148-203 | the rebuilt inventory names exactly the non-empty observed names; retained nodes keep order and flag; new ones are unused and numbered after all stored ones |
| Inventory.BuiltIgnoresListing | internal/nodescaling/inventory.go:148-203 | the listing order does not change the rebuilt inventory |
| Inventory.BuiltIsIdempotent | internal/nodescaling/inventory.go:148-203 | rebuilding again changes nothing, for any stored inventory |
| Inventory.BuiltIsWellFormed | internal/nodescaling/inventory.go:148-203 | on a well-formed inventory the final sort changes nothing and distinct names and distinct positive orders are kept |
| Inventory.MaxOrderIs | internal/nodescaling/inventory.go:148-203 | the largest order of a named node, or zero |
| Inventory.NewNodesAreNumbered | internal/nodescaling/inventory.go:148-203 | new nodes are unused and numbered on from the largest order without gaps, in the order of their names |
| InventorySelection.BuildNodeScalingInventoryStatus | internal/nodescaling/inventory.go:205-220 | used and unused counts add up to the replicas |
| InventorySelection.CountsAddUp | internal/nodescaling/inventory.go:323-349 | every node is counted exactly once |
| InventorySelection.CountUnusedInventoryNodes | internal/nodescaling/inventory.go:323-335 | counts the unused nodes; none without an inventory |
| InventorySelection.CountUsedInventoryNodes | internal/nodescaling/inventory.go:337-349 | counts the used nodes; none without an inventory |
| InventorySelection.FindUnusedInventoryNodes | internal/nodescaling/inventory.go:249-280 | the first unused nodes in (order, name); fails exactly without inventory or without candidates |
| InventorySelection.FindHighestOrderUsedInventoryNodes | internal/nodescaling/inventory.go:290-321 | the used nodes in descending (order, name), likewise |
| InventorySelection.UnusedSelection | internal/nodescaling/inventory.go:249-280 | as many unused nodes as wanted and available; none left out has a lower order than a chosen one; equal orders go by name |
| InventorySelection.HighestUsedSelection | internal/nodescaling/inventory.go:290-321 | as many used nodes as wanted and available; none left out has a higher order than a chosen one; equal orders go by name |
| InventoryStore.NodeScalingInventoryStore.Get | internal/nodescaling/inventory.go:66-77 | fails on an API error or when the object does not exist |
| InventoryStore.NodeScalingInventoryStore.Sync | internal/nodescaling/inventory.go:47-64 | rebuilds or creates the stored inventory together with its status, or leaves it alone |
| InventoryStore.NodeScalingInventoryStore.UpdateNodeUsage | internal/nodescaling/inventory.go:87-103 | writes the flag of the first node of that name; fails if and only if there is none or a call fails |
| InventoryStore.NodeScalingInventoryStore.UpdateMachineDeploymentReplicas | internal/nodescaling/inventory.go:105-114 | writes the replica count and the status |
| InventoryStore.MarkedAt | internal/nodescaling/inventory.go:87-103 | in a well-formed inventory marking changes that one node's flag and nothing else |
| InventoryStore.MarkedCounts | internal/nodescaling/inventory.go:87-103 | marking moves exactly one node between the counts, if its flag changes |
| InventoryStore.StoreKeepsWellFormed | internal/nodescaling/inventory.go:47-114 | every store operation keeps the inventory well formed |
| ScaleInCapacity.EvaluateScaleInCapacity | internal/nodescaling/scalein_trigger.go:59-110 | the greedy loop, which skips untracked nodes and stops at the first that does not fit |
| ScaleInCapacity.RemovableIsLongestFit | internal/nodescaling/scalein_trigger.go:80-102 | the removable nodes are the longest fitting prefix of the tracked used nodes in descending (order, name), and the projection is what they leave |
| ScaleInCapacity.RemovableFitsExactly | internal/nodescaling/scalein_trigger.go:80-102 | with non-negative capacities a prefix is removable if and only if it fits in both dimensions |
| ScaleInCapacity.RemovableGrows | internal/nodescaling/scalein_trigger.go:80-102 | more availability only extends the removable nodes |
| ScaleInCapacity.EligibleExactly | internal/nodescaling/scalein_trigger.go:59-110 | the cluster is eligible if and only if the used node of highest order that takes pods fits in what is available |
| ReservationSafety.ChosenAreRemovable | internal/nodescaling/controller.go:414-450 | re-selecting by count reaches no tracked node that was not removable, although the evaluation skips untracked ones |
| ReservationSafety.BalanceAfterTainting | internal/nodescaling/scalein_trigger.go:147-176 | reserving nodes takes exactly their room from the balance and gives back exactly what their pods asked for |
| ReservationSafety.ReservationIsSafe | internal/nodescaling/controller.go:414-470 | reserving any part of the chosen nodes leaves at least the projected availability, which is not negative; before clamping exactly when the freed requests cover the overcommitment |
| ReservationSafety.OvercommittedBalanceStaysNegative | internal/nodescaling/scalein_trigger.go:169-174 | a cluster on which they do not, and the balance stays below the projection |
| ScaleInSafety.ReserveAllTaints | internal/nodescaling/controller.go:445-470 | however far the reserve loop gets, exactly a prefix of its list is reserved and has waiters; a running waiter stays, a new one starts now for this request |
| ScaleInSafety.ScaleInIsSafe | internal/nodescaling/controller.go:353-470 | a whole scale-in step, failing anywhere, only stops removable nodes from taking pods and leaves at least the projected availability; the exact condition before clamping |
| ScaleInOutcome.ReserveAllSucceedsExactly | internal/nodescaling/controller.go:445-470 | the loop gets to the end if and only if it can check and reserve every node of its list |
| ScaleInOutcome.OtherwiseNothing | internal/nodescaling/controller.go:353-443 | without inventory, with nothing used, or with an evaluation that fails or spares nothing, nothing changes; which of these are errors |
| ScaleInOutcome.ChosenNodes | internal/nodescaling/controller.go:404-450 | the choice is as many used nodes as the evaluation spares, or all of them without quota objects, those of the highest orders |
| ScaleInOutcome.ScaleInReserves | internal/nodescaling/controller.go:404-470 | the step reserves a prefix of its choice and starts the waiters of exactly that; it is deferred if and only if no call it needs fails |
| ScaleInOutcome.ScaleInDrains | internal/nodescaling/controller.go:404-470 | when nothing fails the whole choice, which is not empty, is reserved and drained |
| ScaleInOutcome.ChosenAreDrained | internal/nodescaling/controller.go:404-470 | each chosen node then carries all marks and has a waiter |
| NodeScalingController.NodeScalingRuntime.SyncRepoIfConfigured | internal/nodescaling/controller.go:530-538 | a pull may bring a new count, keep the old one, or fail |
| NodeScalingController.NodeScalingRuntime.ReadMachineDeploymentReplicas | internal/nodescaling/runtime.go:331-340 | reads the working copy or fails |
| NodeScalingController.NodeScalingRuntime.WriteMachineDeploymentReplicas | internal/nodescaling/runtime.go:342-368 | writes the working copy or fails and leaves it |
| NodeScalingController.NodeScalingRuntime.CommitAndPush | internal/nodescaling/runtime.go:252-308 | a failed push resets the working copy to the previous commit; a failed commit leaves it written |
| NodeScalingController.Controller.FindReusableScaleInWaiterNodes | internal/nodescaling/controller.go:802-841 | used nodes with an active waiter in (order, name), up to the limit |
| NodeScalingController.Controller.SelectNodes | internal/nodescaling/controller.go:251-269 | waiters first, then spares for the rest of the batch |
| NodeScalingController.Controller.ActivateNodes | internal/nodescaling/controller.go:284-303 | the activation loops: stop, activate, mark, and stop at the first failure |
| NodeScalingController.Controller.ReconcileScaleOut | internal/nodescaling/controller.go:234-351 | the whole scale-out step moves the state as the state machine says, every failure included |
| NodeScalingController.Controller.ReserveNodes | internal/nodescaling/controller.go:445-470 | the reserve loop with its early exits |
| NodeScalingController.Controller.ReconcileScaleIn | internal/nodescaling/controller.go:353-443 | the whole scale-in step: excess removal, skip, evaluation, reservation |
| NodeScalingController.Controller.StartScaleInWaiter | internal/nodescaling/controller.go:622-633 | a running waiter keeps its start time |
| NodeScalingController.Controller.StopScaleInWaiter | internal/nodescaling/controller.go:764-777 | removes the waiter of this node only |
| NodeScalingController.Controller.NodeHasBlockingPods | internal/nodescaling/controller.go:693-725 | true if and only if some live, non-exempt, non-daemon pod is on the node |
| NodeScalingController.Controller.ShouldForceScaleIn | internal/nodescaling/controller.go:779-792 | force applies after the force delay, if enabled and the waiter exists |
| NodeScalingController.Controller.ProcessScaleInWaiter | internal/nodescaling/controller.go:658-691 | one tick: not reserved, blocked, or released and the request queued again |
| NodeScalingController.Controller.TickWaiter | internal/nodescaling/controller.go:635-655 | a tick with the cleanup of a finished or failed waiter |
| NodeScalingController.Controller.HandleScaleInRequest | internal/nodescaling/controller.go:188-195 | a full queue refuses the request |
| NodeScalingController.Controller.SyncScalingNodeInventory | internal/nodescaling/controller.go:503-528 | the inventory is rebuilt from the nodes with any scaling mark |
| NodeScalingController.Controller.EnsureMachineDeploymentReplicaBaseline | internal/nodescaling/controller.go:472-501 | a zero count becomes the prepared spares |
| NodeScalingController.Controller.EvaluateAutomaticScaleIn | internal/nodescaling/scalein_trigger.go:22-57 | evaluation and debounce in place |
| NodeScalingLoop.Perform | internal/nodescaling/controller.go:208-230 | each operation of the loop, a waiter tick and a join move the controller object as one step of the state machine |
| NodeScalingLoop.TakeTurn | internal/nodescaling/controller.go:208-229 | one turn of the loop performs its steps; a ticker turn is a sync and then an evaluation, with whatever joins and waiter ticks come in between |
| NodeScalingLoop.TurnDoes | internal/nodescaling/controller.go:208-229 | a request is taken off its queue and served; a ticker turn syncs the inventory and evaluates what is there then |
| NodeScalingLoop.StartDoes | internal/nodescaling/controller.go:197-204 | before the first turn the baseline is set and the inventory is synced |
| NodeScalingLoop.Run | internal/nodescaling/controller.go:197-232 | the baseline, a sync, then turn after turn: the object ends in the state of the run of these steps |
| NodeScalingLoop.LoopIsInOrder | internal/nodescaling/controller.go:197-232 | the steps the loop performs are in its program order |
| ScaleOutEffects.ActivateAllReaches | internal/nodescaling/controller.go:284-303 | processing a list comes to a prefix done completely and at most one node activated but not marked |
| ScaleOutEffects.ActivateAllSucceedsExactly | internal/nodescaling/controller.go:284-303 | it succeeds if and only if every node is known and none of its calls fails |
| ScaleOutEffects.ScaleOutFailurePrefix | internal/nodescaling/controller.go:284-303 | a failing scale-out leaves such a prefix of the selection and stops exactly the waiters of the reused nodes reached; replica counts, manifest, trigger and queue are as before |
| ScaleOutSelection.SelectionFillsTheBatch | internal/nodescaling/controller.go:251-303 | exactly min(batch, waiting + unused) distinct nodes, waiters first; no active waiter left out has a lower order than a reused one |
| ScaleOutSelection.BatchIsFilled | internal/nodescaling/controller.go:251-269 | the configured batch, or one, as far as draining and unused nodes go; draining ones first |
| ScaleOutSelection.SparesAre | internal/nodescaling/controller.go:254-257 | the spares are distinct unused nodes, as many as the batch leaves room for |
| ScaleOutSelection.SparesAreLowest | internal/nodescaling/inventory.go:249-280 | no unused node that is left out has a lower order than a spare |
| ScaleOutSelection.ScaleOutEffect | internal/nodescaling/controller.go:284-304 | a successful scale-out activates exactly the selection, stops exactly the reused waiters, and moves exactly the taken spares from unused to used |
| ScaleOutOutcome.ScaleOutTakesBatch | internal/nodescaling/controller.go:234-351 | when nothing fails exactly as many nodes of the cluster as the batch allows lose their marks, become used and lose their waiters, the rest stays, and the step succeeds; with nothing to take it fails |
| ReplicaAccounting.ScaleOutFollowsManifest | internal/nodescaling/controller.go:306-336 | the inventory's replica count changes only after write and push succeeded, to the pushed value |
| ReplicaAccounting.ScaleInFollowsManifest | internal/nodescaling/controller.go:372-402 | the same for scale-in |
| ReplicaAccounting.SetReplicasIs | internal/nodescaling/controller.go:306-336 | what each failing call on the way to a new count leaves in manifest and inventory, and the answer |
| ReplicaAccounting.UnreachableManifest | internal/nodescaling/controller.go:306-385 | a manifest that cannot be pulled stops both changes without an error; one that cannot be read stops the removal with one |
| ReplicaAccounting.ReachableManifest | internal/nodescaling/controller.go:306-399 | a count is found by a pull or in the working copy, raised up to the cap or lowered down to zero |
| ReplicaAccounting.ExcessStep | internal/nodescaling/controller.go:369-402 | with more unused nodes than prepared spares a scale-in removes exactly the difference and does nothing else |
| ReplicaAccounting.ReplenishStep | internal/nodescaling/controller.go:274-336 | a scale-out that activated its nodes replaces the spares it took, as far as the cap lets the inventory's count grow |
| ReplicaAccounting.ScaleOutReplicas | internal/nodescaling/controller.go:274-336 | the new count lies between the manifest and min(cap, manifest + spares taken), unless the manifest is above a positive cap: exactly then it is lowered, to the cap |
| ReplicaAccounting.ExcessRemoval | internal/nodescaling/controller.go:369-402 | no node, waiter or flag changes; the floor is kept if and only if the manifest holds the unused nodes; an exact manifest ends at used + prepared |
| ReplicaAccounting.ReservationKeepsReplicas | internal/nodescaling/controller.go:404-443 | without excess no replica count and no used flag changes |
| ReplicaAccounting.StaleSecondPass | internal/nodescaling/controller.go:369-399 | a second removal before a sync subtracts the same excess again; exact condition for the floor |
| ReplicaAccounting.BuiltUnused | internal/nodescaling/inventory.go:148-203 | unused after a rebuild is what is observed and was not held as used |
| ReplicaAccounting.SettledPassRemovesNothing | internal/nodescaling/controller.go:369-402 | once the excess nodes are gone and the inventory is synced, a further pass removes nothing |
| ReplicaAccounting.BaselineDoes | internal/nodescaling/controller.go:472-501 | a manifest that cannot be pulled or read or holds a count is left alone; a zero count is set to the prepared spares |
| ReplicaAccounting.BaselineIgnoresCap | internal/nodescaling/controller.go:472-501 | the baseline sets only a zero count and exceeds the cap exactly when spares or count already do |
| ManifestRuns.NextIsCleanExactly | internal/nodescaling/runtime.go:252-308 | a step takes the working copy away from the last commit if and only if it writes a new count and cannot commit it |
| ManifestRuns.RunIsCleanExactly | internal/nodescaling/runtime.go:252-308 | the two agree throughout a run if and only if no step of it does that |
| ManifestRuns.SyncRecordsCommittedExactly | internal/nodescaling/controller.go:503-528 | the count a sync records was committed if and only if the two agree then |
| ManifestRuns.SyncRecordsUncommitted | internal/nodescaling/controller.go:472-528 | a baseline that cannot be committed, and a sync that records it |
| NodeScalingWitnesses.ScaleOutLowersCount | internal/nodescaling/controller.go:306-336 | a manifest of 5 above a cap of 3 ends at 3 |
| NodeScalingWitnesses.ExcessRemovalLosesFloor | internal/nodescaling/controller.go:369-402 | two unused nodes and a manifest of 1 end at 0 with one prepared spare |
| NodeScalingWitnesses.SecondPassLosesFloor | internal/nodescaling/controller.go:369-399 | two unused nodes and a manifest of 2 go to 1 and, on the same inventory, to 0 |
| NodeScalingWitnesses.BaselineExceedsCap | internal/nodescaling/controller.go:472-501 | a cap of 1 and two prepared spares: the baseline writes 2 |
| NodeScalingWitnesses.SyncForgetsSpare | internal/nodescaling/controller.go:518-567 | a spare taken by a scale-out in which nothing fails is gone after the next sync |
| ScaleOutSafety.ScaleOutIsSafeExactly | internal/nodescaling/controller.go:284-303 | a scale-out keeps a safe state safe if and only if it does not activate a spare it then cannot mark |
| ScaleOutSafety.ScaleOutSucceedsExactly | internal/nodescaling/controller.go:284-303 | in a safe state the whole selection is processed if and only if no call for a selected node fails |
| ScaleOutRoom.ScaleOutChangesRoom | internal/nodescaling/controller.go:284-303 | whatever fails, a scale-out lets only selected nodes start to take pods and none stop; the exact change of the balance |
| ScaleOutRoom.ScaleOutIsSafe | internal/nodescaling/controller.go:284-303 | it takes no room away if and only if the pods on the nodes it adds fit the room of those, in each dimension |
| ScaleOutRoom.SelectedTakePods | internal/nodescaling/controller.go:284-303 | after a successful scale-out a selected node takes pods unless it is cordoned or in the control plane |
| UsedNodes.NextStaysProper | internal/nodescaling/controller.go:234-691 | every step, whatever fails, leaves each used inventory node in the cluster with all scaling marks or none |
| UsedNodes.SyncReservesUsed | internal/nodescaling/controller.go:503-528 | after a successful sync every used inventory node is fully reserved |
| UsedNodes.ReservedAreNotEligible | internal/nodescaling/scalein_trigger.go:59-110 | with all used nodes reserved an evaluation finds nothing to remove |
| NodeScalingRuns.NextStaysSafe | internal/nodescaling/controller.go:234-691 | every step, whatever fails, keeps nodes with a waiter used and fully marked, unused inventory nodes marked and the inventory well formed, except exactly a scale-out that strands a spare |
| NodeScalingRuns.ReachableIsSafe | internal/nodescaling/controller.go:197-232 | all states of a run are safe if and only if none of its steps strands a spare |
| NodeScalingRuns.SyncHolds | internal/nodescaling/controller.go:503-528 | after a sync the inventory holds exactly the nodes with a scaling mark, and known ones keep their flag |
| NodeScalingRuns.SyncDoes | internal/nodescaling/controller.go:503-528 | a sync with a failing call changes nothing; any other records the working copy's count and exactly the marked nodes |
| NodeScalingRuns.OnlyDrainedNodesBecomeUnused | internal/nodescaling/controller.go:658-725 | a used node becomes unused only by a tick of its own waiter, reserved, and past the force delay or with none but ended, deleted, mirror, exempt and daemon pods on it |
| NodeScalingRuns.TickReleasesDrainedNode | internal/nodescaling/controller.go:658-725 | a tick on which nothing fails releases the node if and only if no other pod is on it or force applies |
| WaiterTicks.TickDoes | internal/nodescaling/controller.go:635-792 | every outcome of a tick: ended by a failing call, waiting, forced or released, with the request queued again if there is room |
| WaiterTicks.ReleasedNodeIsEmpty | internal/nodescaling/controller.go:658-725 | a node without excused pods that is released without force holds no pod that asks for anything |
| NodeScalingRuns.UnmarkedSpareBreaksSafety | internal/nodescaling/controller.go:295-301 | a fresh controller with one spare whose marking fails, under any configuration |
| NodeScalingRuns.SyncForgetsActivated | internal/nodescaling/controller.go:518-567 | the first sync after a scale-out drops every node it activated |
| ForgottenNodes.StaysForgotten | internal/nodescaling/controller.go:197-232 | a node without marks, inventory entry and waiter keeps none of them and stays as it is in every later state of every run |
| ForgottenNodes.ActivatedAreLost | internal/nodescaling/controller.go:518-567 | a node taken by a scale-out and dropped by the next sync is never in the inventory, reserved or drained again |
| ScaleInTrigger.StepMovesTrigger | internal/nodescaling/scalein_trigger.go:22-57 | each step of the machine starts, keeps or ends a period of eligibility |
| ScaleInTrigger.EvaluationDoes | internal/nodescaling/scalein_trigger.go:22-57 | an evaluation requests a scale-in if and only if it completes, finds the cluster eligible and the period has lasted for the delay; what becomes of the period and the queue |
| ScaleInTrigger.RequestIsDebounced | internal/nodescaling/scalein_trigger.go:22-57 | in any sequence of steps every automatic request has an eligible evaluation at least the delay earlier, with no ineligible evaluation, scale-out or request in between |
| ScaleInTrigger.RequestsAreSpaced | internal/nodescaling/scalein_trigger.go:22-57 | two automatic requests are at least the delay apart |
| NodeScalingOrder.EligibleAfterFailedSync | internal/nodescaling/controller.go:223-229 | in a run, with joins and waiter ticks between sync and evaluation, an eligible evaluation means that the sync of its turn failed |
| NodeScalingOrder.TurnIsEligibleExactly | internal/nodescaling/controller.go:223-229 | a ticker turn finds the cluster eligible if and only if its sync fails and the inventory as it was lets the evaluation complete and spare a node |
| NodeScalingOrder.RequestNeedsFailingSyncs | internal/nodescaling/controller.go:197-232 | in every run in program order an automatic request ends a stretch of at least the delay in which each completed evaluation followed a failed sync |
| NodeScalingOrder.FailingSyncsRequest | internal/nodescaling/scalein_trigger.go:22-57 | a run from a restarted controller, in program order, in which the manifest is unreadable for the delay and a request is made |

## Left out

- Kubernetes, dynamic and generated clients, informers, watch streams, logging, flags, Helm files: plumbing; the cluster is plain data and each call may fail.
- Git, YAML and file handling: the manifest is a working copy and a committed value; the reset after a failed push is taken to succeed.
- Missing collaborators (no runtime, store or client): the controller is modelled as it is constructed, with all of them; a missing quota client is modelled.
- Quantity parsing: amounts start as integers in thousandths of a unit; scaling to mega units rounds up as the library does.
- The float percentage is any integer p with 100 * used - max <= p * max <= 100 * used, which covers both roundings in the range where the products are exact; the target formula is exact truncated division in its range.
- 32-bit and 64-bit overflow: integers are unbounded.
- Goroutine interleavings inside a waiter tick, inside an update and inside a reconcile: each is one atomic step. Clean-up by name, by which a late goroutine can clear a newer waiter, is therefore not visible.
- Within one step a call is identified by its kind and node, so a call repeated in one step for the same node fails or works both times; the names of a selection are distinct.
- A call that takes effect although it reports an error (an ambiguous timeout) is not modelled.
- Nodes leaving the cluster and relabelling from outside: the node-scaling runs have joins but no departures, and the results of `UsedNodes`, `NodeScalingOrder` and `ForgottenNodes` start where each used inventory node carries all scaling marks or none.
- QuotaRounds.RoundsSettle: usage and pending demand are fixed; each method has at most one policy of each direction, with targets in 1..100, the down threshold (not 100) at most the down target, the up target at most the up threshold, the down threshold below the up target and the down target at most the up threshold; bounds are ordered and at least 100; stored limits are not negative, which Kubernetes does not admit.
- The sorting library: a stable insertion sort stands for the stable and the plain sort; names are distinct where the plain one is used.
- Registration of quota, scaler and pod events in the watcher's maps and the periodic check: bookkeeping; which job an update gets is a parameter.
- `ManagedQuotaLimitTotals`, `ResolveResourceQuota`, classification of event texts, validation defaults of the scaler, `HttpPatch`, results published by the resize worker: single-branch facts or I/O.
- `moving_average`, `normalize`, trace parsing and the locust user classes: nothing beyond one loop each.
- The namespace and sizes carried by a scale-out request: they only reach log messages.

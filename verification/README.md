# Verified models of the WLAN host driver's synchronisation and data-path core

A Dafny 4.11 project about the parts of the host driver in which correctness is spread over several
functions. `dafny verify dfyconfig.toml` checks all of it.

**Driver Synchronization Core.** DSC manages transitions (mutually exclusive along a path of the tree
driver / psoc / vdev) and operations (counted, refused while a transition is active on their path). All
calls take one driver lock, so a call is an atomic step. `DscModel` has the tree as a value, what callers
must respect and what each call does; it records per node how many requests were accepted and how each
was resolved. `DscInvariant` proves the safety invariant over all runs, `DscProgress` conservation of
requests, absence of deadlock and the exact wait of a driver request, `DscWait` the exact wait of a request
at any level, `DscOps` what transitions guarantee to operations and the drain of a subtree, `DscStart` what
a start comes to, the count of operations, and what a stop undoes. `DscObjects` is
the code itself: contexts updated in place, with the list loops of the trigger paths, every locked section
proved to be one step of the model.
The caller's obligations are the assertions of the source: stop only what is active, end only operations
that are in flight, destroy only idle nodes without children. One is added: a node is not destroyed in mid
transition, because tear-down clears the transition without waking anyone; `DscOps.DetachActiveSafeIff`
says exactly when that would be harmless. The C headers promise an assertion in the psoc and vdev forms
of waiting for operations; the code makes it only for the driver, and the model follows the code.

**OL-RX thread.** `CdsRx` interleaves any number of producers and droppers with the one rx thread, one step
per lock section or bit operation. `Places` is partition bookkeeping, `CdsRxFrames` what a step can touch,
`CdsRxInvariant` conservation, `CdsRxRuns` order, wake-up and drops, `CdsRxDrops` a drop from call to return,
`CdsRxProgress` draining, bounded delivery and closing, `CdsSched` the lock sections and loops on the shared context.

**Monitor receive.** `InOrderPop` turns an in-order indication into a linked list with error filtering;
`MpduRestitch` puts decapped MSDUs back together as an MPDU and shows that an A-MSDU receiver takes
them apart again.

**Layout arithmetic.** `WmiTlv` and `RoamTlv`: lengths computed before allocation are the bytes written, and
the commands walk. `RegDump`: register dump by section table. `Bmi`: chunked memory transfer and
compressed download.

`Basics` holds what several components share.

## Model

| member | source | states |
|---|---|---|
| `DscInvariant.ReachableInv` | components/dsc/src/wlan_dsc_driver.c:104-261 | Every state any sequence of DSC calls can reach from a fresh driver satisfies the invariant: active transitions form an antichain of the tree, no waiter is stranded, every node serves its requests in order of acceptance. |
| `DscInvariant.RunKeepsInv` | components/dsc/inc/wlan_dsc.h:28-45 | The invariant holds at the end of every legal run of calls, for any number of psocs and vdevs. |
| `DscInvariant.StepKeepsInv` | components/dsc/src/wlan_dsc_driver.c:124-261 | Each single call keeps the invariant. |
| `DscInvariant.StrandedIsEligible` | components/dsc/src/wlan_dsc_vdev.c:250-272 | A tree has no stranded waiter if and only if no waiter is eligible (nothing active on its path, no queued ancestor). |
| `DscInvariant.StopGrantsExactlyEligible` | components/dsc/src/wlan_dsc_psoc.c:249-274 | The coded mix of checked and unchecked triggers after a stop grants exactly the eligible waiters. |
| `DscInvariant.StopServes` | components/dsc/src/wlan_dsc_driver.c:233-261 | The tree after a stop is the stopped tree with every eligible waiter granted from the head of its queue and nothing else changed. |
| `DscInvariant.StopKeepsAntichain` | components/dsc/src/__wlan_dsc.c:296-308 | After the unchecked triggers of a stop no two active transitions lie on one path, so the assertion made when a transition starts cannot fire. |
| `DscInvariant.StopKeepsNoStranded` | components/dsc/src/wlan_dsc_driver.c:221-261 | After a stop nobody who could go is left behind in a queue. |
| `DscInvariant.StopKeepsFifo` | components/dsc/src/__wlan_dsc.c:376-388 | A stop keeps the order of requests at every node. |
| `DscInvariant.StartKeepsInv` | components/dsc/src/wlan_dsc_driver.c:136-142 | An admitted start keeps the invariant. |
| `DscInvariant.EnqueueKeepsInv` | components/dsc/src/wlan_dsc_driver.c:176-206 | Queueing a request at a busy node leaves it excused: something it can wait for exists. |
| `DscInvariant.ShrinkKeepsInv` | components/dsc/src/wlan_dsc_psoc.c:85-95 | Aborting a waiter and unlinking an idle node keep the invariant. |
| `DscInvariant.QuietKeepsInv` | components/dsc/src/wlan_dsc_driver.c:284-333 | Creating nodes, starting and stopping operations and checking for them keep the invariant. |
| `DscInvariant.WaiterImpliesActive` | components/dsc/src/wlan_dsc_vdev.c:250-272 | A waiter anywhere implies an active transition somewhere: when nothing is active all queues are empty. |
| `DscInvariant.OnlyDriverActive` | components/dsc/src/wlan_dsc_driver.c:104-134 | While the driver has an active transition nothing else has one. |
| `DscInvariant.DriverStopWakeSet` | components/dsc/src/wlan_dsc_driver.c:233-261 | After a driver stop exactly the next driver request is active, or, without one, the psocs with waiters and the vdevs with waiters under psocs that have none, each with the head of its queue. |
| `DscProgress.StepLoad` | components/dsc/src/__wlan_dsc.c:296-388 | Requests held by the tree (active or waiting) grow by one per accepted request and shrink by one per stop or abort; nothing else changes them. |
| `DscProgress.RunLoad` | components/dsc/src/__wlan_dsc.c:296-388 | Conservation over every run: held requests at the end are those at the start plus accepted minus stopped and aborted. |
| `DscProgress.StopPossible` | components/dsc/src/wlan_dsc_driver.c:233-261 | No deadlock: while any request is held, some transition is active and can be stopped. |
| `DscProgress.StopsDrain` | components/dsc/src/wlan_dsc_driver.c:233-261 | Whatever active transition is stopped at each turn, all held requests are served after exactly as many stops as there are requests, and not before. |
| `DscProgress.NonStopKeepsPlace` | components/dsc/src/wlan_dsc_psoc.c:143-153 | While a driver request waits, no call but a stop changes who is active or the request's place in line. |
| `DscProgress.LastStopGrantsDriver` | components/dsc/src/wlan_dsc_driver.c:221-231 | The stop of the last active transition grants the head driver request. |
| `DscProgress.EarlierStopGrantsNobody` | components/dsc/src/wlan_dsc_driver.c:221-231 | A stop before that grants nobody and keeps the place in line. |
| `DscProgress.StopAdvances` | components/dsc/src/wlan_dsc_vdev.c:250-272 | Each stop brings a waiting driver request exactly one stop closer to its grant. |
| `DscProgress.DriverStillWaits` | components/dsc/src/wlan_dsc_driver.c:124-134 | Along any run with fewer than A + k stops (A active nodes, queue position k) the request still waits, with one stop less to go for each stop made, and no psoc or vdev has become active. |
| `DscProgress.DriverGrantedOnTime` | components/dsc/src/wlan_dsc_driver.c:221-261 | The stop number A + k grants exactly that request. |
| `DscWait.GrantedOnTime` | components/dsc/src/wlan_dsc_vdev.c:250-272 | For a request at any level: the stop number A + q + k grants exactly that request, where A counts the transitions active under the highest busy node on its path, q the requests queued above it and k those in front of it, and stops under that node count. |
| `DscWait.StillWaits` | components/dsc/src/wlan_dsc_psoc.c:249-307 | Along any run in which no request is queued above it, the request still waits before that, with exactly one stop less to go for each such stop. |
| `DscWait.StopCounts` | components/dsc/src/wlan_dsc_vdev.c:250-272 | Every stop either leaves a waiter's part of the tree alone or brings it exactly one stop closer. |
| `DscWait.HarmlessKeepsWait` | components/dsc/src/wlan_dsc_psoc.c:143-173 | No other call changes the wait of a request: an admitted start anywhere, and a waiting start above it that is refused, included. |
| `DscWait.StartIsBeside` | components/dsc/src/wlan_dsc_vdev.c:136-161 | An admitted start is on no common path with the highest busy node of any waiter. |
| `DscProgress.ResolvedOnceForAll` | components/dsc/src/__wlan_dsc.c:317-419 | Over any run during which the node stays, an accepted request ends either still queued or resolved with its own outcome, and an outcome once given is the outcome at the end. |
| `DscProgress.OutcomesAreFinal` | components/dsc/src/__wlan_dsc.c:362-388 | Outcomes are only ever added behind those already given. |
| `DscProgress.ResolvedExactlyOnce` | components/dsc/src/__wlan_dsc.c:317-419 | For one call: what a waiter learns is the outcome of its own request, the call does not revise it, and an accepted request is either resolved or queued, never both; a queued one is resolved only from the head of the queue, aborted only by an abort. |
| `DscProgress.StepResolves` | components/dsc/src/__wlan_dsc.c:346-388 | One call resolves at most one request of a node: a fresh one with an empty queue, or the head of the queue. |
| `DscOps.ActiveFreezesOps` | components/dsc/src/wlan_dsc_driver.c:284-307 | While a transition is active at a node, no call raises the operation count of that node, of an ancestor or of a descendant. |
| `DscOps.RunFreezesOps` | components/dsc/src/wlan_dsc_vdev.c:296-318 | The same over every run during which the node stays active, hand-over to its next waiter included. |
| `DscOps.OpAdmittedIff` | components/dsc/src/wlan_dsc_psoc.c:143-153 | An operation (or transition) is admitted if and only if nothing on its path is active, neither the node nor an ancestor has a waiter, and a vdev is not under recovery. |
| `DscOps.RefusedIff` | components/dsc/src/wlan_dsc_vdev.c:136-161 | A request is refused for good, rather than told to wait, if and only if the driver is busy above it, or it is for a vdev during recovery, or for a vdev of a busy psoc during unload. |
| `DscStart.Answers` | components/dsc/src/wlan_dsc_vdev.c:136-161 | The three answers to a start and exactly when each is given: success with nothing in the way, final refusal when barred, otherwise try again. |
| `DscStart.StartOutcome` | components/dsc/src/wlan_dsc_vdev.c:163-190 | A start with nothing in the way is active under the next ticket with the queue as it was; any other changes nothing. |
| `DscStart.WaitOutcome` | components/dsc/src/wlan_dsc_vdev.c:205-236 | A waiting start neither admitted nor barred leaves its node's queue as the old one with one entry behind it, carrying its description and the next ticket, and nothing else changed. |
| `DscStart.OpsConserved` | components/dsc/src/__wlan_dsc.c:154-175 | Conservation over every run during which the node stays: operations in flight there at the end are those at the start, plus the operation starts with nothing in their way, minus the stops. |
| `DscStart.TransRoundTrip` | components/dsc/src/wlan_dsc_vdev.c:163-272 | Stopping a transition that was admitted wakes nobody and restores the tree, but for the record of the request at its node. |
| `DscStart.OpRoundTrip` | components/dsc/src/wlan_dsc_psoc.c:309-354 | Ending an operation that was admitted restores the tree, but for the event that the last one leaves latched. |
| `DscStart.CreateRoundTrip` | components/dsc/src/wlan_dsc_vdev.c:31-99 | A node just created may be destroyed, and that restores the tree. |
| `DscOps.StepKeepsWakeup` | components/dsc/src/wlan_dsc_driver.c:321-360 | Each step keeps: whoever is blocked on a node's operations event finds it latched, or an operation is still in flight. |
| `DscOps.RunKeepsWakeup` | components/dsc/src/__wlan_dsc.c:167-175 | No operation wake-up is lost in any interleaving. |
| `DscOps.RunKeepsDrained` | components/dsc/src/wlan_dsc_psoc.c:361-383 | Behind the walk of a wait for operations nothing is in flight, whatever other calls happen while a transition is held at the root of the walk or above it. |
| `DscOps.WaitForOpsDrains` | components/dsc/src/wlan_dsc_psoc.c:361-383 | When waiting for operations at a driver, psoc or vdev returns under a transition held throughout there or above, no operation is in flight in its subtree. |
| `DscOps.WaitForOpsReturns` | components/dsc/src/wlan_dsc_driver.c:340-365 | Under a transition held throughout, a wait over an idle subtree in which no node is created has returned when its walk has made two steps per node, whatever other threads do. |
| `DscOps.WalkBound` | components/dsc/src/wlan_dsc_psoc.c:361-383 | From any point of the walk, once the subtree is idle, steps made and steps left stay within the number left at the start. |
| `DscOps.WalkNotStuck` | components/dsc/src/wlan_dsc_psoc.c:361-383 | Over an idle subtree the walk can always make a step, or the thread that waits at its node can leave. |
| `DscOps.WaitForOpsDrainsTree` | components/dsc/src/wlan_dsc_driver.c:340-365 | When waiting for operations returns under a driver transition held throughout, every node of the tree has no operation in flight. |
| `DscOps.DetachActiveSafeIff` | components/dsc/src/__wlan_dsc.c:290-294 | Tearing down a node with an active transition strands no waiter if and only if the node is not the last thing a queued ancestor waits for. |
| `DscOps.DetachActiveStrandsWaiter` | components/dsc/src/__wlan_dsc.c:290-294 | Four calls from a fresh driver reach a tree in which such a tear-down strands a waiter. |
| `DscObjects.Dsc.PsocActiveDownTree` | components/dsc/src/wlan_dsc_psoc.c:111-121 | The loop answers whether a vdev of the psoc is active. |
| `DscObjects.Dsc.DriverActiveDownTree` | components/dsc/src/wlan_dsc_driver.c:104-122 | The nested loops answer whether anything below the driver is active. |
| `DscObjects.Dsc.CanTrans` | components/dsc/src/wlan_dsc_vdev.c:136-161 | Decides admission at all three levels: admitted exactly if nothing is in the way, invalid exactly if barred, told to try again in every other case. |
| `DscObjects.Dsc.TransStart` | components/dsc/src/wlan_dsc_vdev.c:163-190 | A start begins its transition exactly if nothing is in the way; the refusals that are final and those that are not are told apart, and neither changes anything. |
| `DscObjects.Dsc.TransStartWait` | components/dsc/src/wlan_dsc_vdev.c:205-236 | A waiting start: `Success` if and only if the transition is now active, `Pending` if and only if the request now stands behind its node's queue, `Invalid` if and only if nothing changed; and which of them, by what is active and queued on the path. |
| `DscObjects.Dsc.Trigger` | components/dsc/src/__wlan_dsc.c:376-388 | Grants the head of the node's queue, if any; called only when the node is not active. |
| `DscObjects.Dsc.TriggerChecked` | components/dsc/src/wlan_dsc_psoc.c:297-307 | Grants the head only if nothing stands in the way, and reports whether anything was queued. |
| `DscObjects.Dsc.TriggerVdevs` | components/dsc/src/wlan_dsc_psoc.c:249-261 | The loop grants the head of every vdev queue of a psoc. |
| `DscObjects.Dsc.PsocTurn` | components/dsc/src/wlan_dsc_driver.c:241-247 | One round of the driver's loop: the psoc if it has a waiter, otherwise its vdevs. |
| `DscObjects.Dsc.TriggerTree` | components/dsc/src/wlan_dsc_driver.c:241-247 | The nested loop equals the wake-up of the model, psoc by psoc. |
| `DscObjects.Dsc.DriverTriggerTrans` | components/dsc/src/wlan_dsc_driver.c:233-248 | Grants the driver's head or runs the nested loop: exactly the wake-up set of a driver stop. |
| `DscObjects.Dsc.DriverTransStop` | components/dsc/src/wlan_dsc_driver.c:250-261 | One driver stop of the model. |
| `DscObjects.Dsc.PsocTransStop` | components/dsc/src/wlan_dsc_psoc.c:249-274 | One psoc stop of the model: driver first, then the psoc, then its vdevs. |
| `DscObjects.Dsc.VdevTransStop` | components/dsc/src/wlan_dsc_vdev.c:250-272 | One vdev stop of the model: driver first, then psoc, then the vdev. |
| `DscObjects.Dsc.OpStart` | components/dsc/src/wlan_dsc_psoc.c:309-331 | An operation is admitted exactly if nothing is in the way, and counted exactly if admitted. |
| `DscObjects.Dsc.OpStop` | components/dsc/src/wlan_dsc_psoc.c:342-354 | The count falls by exactly one; the last operation latches the event. |
| `DscObjects.Dsc.OpsCheck` | components/dsc/src/wlan_dsc_vdev.c:355-372 | The locked check of waiting for operations: blocks, and then resets the event, exactly if operations are in flight; otherwise nothing changes. |
| `DscObjects.Dsc.CreatePsoc` | components/dsc/src/wlan_dsc_psoc.c:30-60 | Links an empty psoc behind its siblings: one creation step of the model. |
| `DscObjects.Dsc.CreateVdev` | components/dsc/src/wlan_dsc_vdev.c:31-60 | Links an empty vdev behind its siblings: one creation step of the model. |
| `DscObjects.Dsc.Flush` | components/dsc/src/wlan_dsc_psoc.c:88-90 | Aborts exactly the waiters, first come first, as a run of abort steps. |
| `DscObjects.Dsc.DetachPsoc` | components/dsc/src/wlan_dsc_psoc.c:92-95 | Unlinks the psoc and nothing else. |
| `DscObjects.Dsc.DetachVdev` | components/dsc/src/wlan_dsc_vdev.c:88-95 | Unlinks the vdev and nothing else. |
| `DscObjects.Dsc.Destroy` | components/dsc/src/wlan_dsc_vdev.c:71-99 | Removes the node, leaves all others as they were, and reports the aborted waiters in order. |
| `DscObjects.FiredTreeAt` | components/dsc/src/wlan_dsc_driver.c:241-247 | After the nested loop every node has had its turn exactly if it is a psoc passed, or a vdev under a passed psoc without waiters. |
| `CdsRxRuns.ReachableInv` | core/cds/src/cds_sched.c:581-862 | Every state of every interleaving of producers, rx thread and droppers, from opening on, satisfies all the invariants, and the containers are those of the pool. |
| `CdsRxRuns.RunKeepsInv` | core/cds/src/cds_sched.c:581-862 | All invariants hold at the end of every run of steps; the set of containers never changes. |
| `CdsRxRuns.StepKeepsInv` | core/cds/src/cds_sched.c:639-790 | Each single step keeps all of them. |
| `CdsRxInvariant.StepKeepsSlots` | core/cds/src/cds_sched.c:620-653 | Every container stays in exactly one of free list, a producer, the queue, the rx thread, a dropper's list. |
| `CdsRxInvariant.StepKeepsMsgs` | core/cds/src/cds_sched.c:665-747 | Every indicated packet stays in exactly one of queue, rx thread, a dropper's list, delivered, dropped. |
| `CdsRxInvariant.SweepSplits` | core/cds/src/cds_sched.c:731-735 | A drop's sweep splits the queue into two disjoint and complete parts. |
| `CdsRxRuns.StepKeepsOrder` | core/cds/src/cds_sched.c:669-671 | Delivered, held and queued packets stay in indication order, so deliveries are a subsequence of the indications. |
| `CdsRxRuns.SiftedOrder` | core/cds/src/cds_sched.c:731-735 | What a sweep leaves keeps its order. |
| `CdsRxRuns.AtMostOnce` | core/cds/src/cds_sched.c:776-788 | Deliveries are in indication order, so no packet is delivered twice. |
| `CdsRxRuns.DeliveredNowhereElse` | core/cds/src/cds_sched.c:738-788 | No delivered packet is also dropped, still queued, in hand for another delivery, or on a drop's list. |
| `CdsRxRuns.StepKeepsWakeup` | core/cds/src/cds_sched.c:819-829 | A blocked rx thread with packets queued has its bit set, or some producer is between queueing and setting it. |
| `CdsRxRuns.StepKeepsMark` | core/cds/src/cds_sched.c:781-787 | The active station is marked whenever one of its packets is in the rx thread's hands. |
| `CdsRxRuns.StepKeepsDrops` | core/cds/src/cds_sched.c:718-760 | What a drop has established stays true whatever the other threads do. |
| `CdsRxRuns.PollIsHonest` | core/cds/src/cds_sched.c:749-756 | When the wait for the active station ends without timeout, no earlier packet of the station is queued or in hand. |
| `CdsRxRuns.DropIsFinal` | core/cds/src/cds_sched.c:718-760 | After a drop that found the queue non-empty and did not time out, no run delivers a packet of the station indicated before the drop took the lock. |
| `CdsRxRuns.SweptDropFinalIff` | core/cds/src/cds_sched.c:718-760 | For every drop that swept the queue, for one station or all, at work, timed out or done: no run delivers a packet it was meant for, indicated before it took the lock, if and only if none is in hand with its callback still to be entered. |
| `CdsRxRuns.VerdictStands` | core/cds/src/cds_sched.c:718-760 | A drop that has returned keeps its verdict, and what it established holds in every later state of every run. |
| `CdsRxRuns.EarlyDropQuietIff` | core/cds/src/cds_sched.c:727-730 | A drop that finds the queue empty returns with the station out of the rx thread's hands if and only if the active mark is not on it or its packet is freed already. |
| `CdsRxRuns.EarlyDropFinalIff` | core/cds/src/cds_sched.c:727-730 | After a drop that found the queue empty, for one station or all, no run delivers a packet it was meant for, indicated before it, if and only if none was popped whose callback is still to be entered. |
| `CdsRxDrops.DropTakesExactly` | core/cds/src/cds_sched.c:726-736 | A drop takes from the queue every packet of its station, or all, and no other; what it takes and what it leaves stand in the order they had. |
| `CdsRxDrops.PollEffect` | core/cds/src/cds_sched.c:749-756 | One read of the active mark ends the wait cleanly exactly if it does not show the drop's own station (or the drop is for all); otherwise the wait goes on for 10 ms more, until 200 ms have passed. |
| `CdsRxDrops.DropBound` | core/cds/src/cds_sched.c:718-760 | In every interleaving the steps a drop has made and those left to it stay within the number left at the start, and its target and cut are kept. |
| `CdsRxDrops.DropReturns` | core/cds/src/cds_sched.c:718-760 | A drop has returned when it has made a step per packet queued at its start and 23 more, with the target it was called for and the indications counted when it took the lock. |
| `CdsRxDrops.DropGuarantee` | core/cds/src/cds_sched.c:718-760 | From call to return: a drop for a station that found packets queued and did not time out leaves no packet of the station indicated before to be delivered by any later run. |
| `CdsRxDrops.IndicationCarries` | core/cds/src/cds_sched.c:639-674 | Whatever runs between a producer's allocation and its indication, the packet queued last has the container allocated and the station it was for. |
| `CdsRxProgress.EarlyDropMisses` | core/cds/src/cds_sched.c:727-730 | Eight steps from opening reach a drop that has returned early while a packet of its station, indicated before, is delivered next. |
| `CdsRxRuns.SettledDelivers` | core/cds/src/cds_sched.c:776-784 | Once no earlier packet a drop is meant for is queued or about to be handed over, no run delivers one. |
| `CdsRxProgress.ServedInTime` | core/cds/src/cds_sched.c:771-790 | In every interleaving without a shutdown, a packet at position k of the queue is delivered, or taken by a drop, by the time the rx thread has made 4k + 5 steps. |
| `CdsRxProgress.PendingBound` | core/cds/src/cds_sched.c:776-862 | While a packet is pending, the steps the rx thread has made and those it still needs stay within the bound set at the start, whatever producers and droppers do. |
| `CdsRxProgress.RxAloneDrains` | core/cds/src/cds_sched.c:771-790 | Once awake, the rx thread by itself delivers everything held and queued in order and blocks again. |
| `CdsRxProgress.CloseLosesNothing` | core/cds/src/cds_sched.c:696-702 | Once the rx thread has left and no producer or dropper is at work, dropping what is queued brings every container of the pool back to the free list exactly once. |
| `CdsRxProgress.CloseIsHeard` | core/cds/src/cds_sched.c:696-700 | A close request reaches the rx thread in every interleaving: it is never stuck, and has left after four of its own steps per packet queued when the bit is set or added later, and seven. |
| `CdsRxProgress.LeavingBound` | core/cds/src/cds_sched.c:829-862 | While it is closing, steps of the rx thread made and to come stay within the bound, whatever producers and droppers do. |
| `CdsRxProgress.LeaverNotStuck` | core/cds/src/cds_sched.c:829-862 | While it is closing, the thread can make a step until it has left. |
| `CdsSched.SchedContext.constructor` | core/cds/src/cds_sched.c:581-610 | Fills the free list with all containers, or gives every one back when an allocation fails. |
| `CdsSched.SchedContext.AllocPkt` | core/cds/src/cds_sched.c:639-653 | Takes the first free container; none only if the list is empty. |
| `CdsSched.SchedContext.Indicate` | core/cds/src/cds_sched.c:665-674 | Both halves of an indication are a run of the producer's two steps. |
| `CdsSched.SchedContext.RxFromQueue` | core/cds/src/cds_sched.c:771-790 | The loop, without interference, is a run of the rx thread's steps that hands out exactly the queued packets in order and leaves the queue empty. |
| `CdsSched.SchedContext.RxRound` | core/cds/src/cds_sched.c:829-846 | A round of the woken thread: the bit is cleared first, a requested shutdown makes it leave with the queue as it was, otherwise the queue is emptied. |
| `CdsSched.SchedContext.RxTake` | core/cds/src/cds_sched.c:776-782 | Takes the first packet and marks its station, or finds the queue empty. |
| `CdsSched.SchedContext.Relock` | core/cds/src/cds_sched.c:786-788 | Clears the mark and takes the next packet in one lock section. |
| `CdsSched.Sweep` | core/cds/src/cds_sched.c:731-735 | The loop splits the queue into the packets meant and the others, both in order. |
| `CdsSched.SchedContext.DropCollect` | core/cds/src/cds_sched.c:726-736 | One lock section: the packets meant move to the drop's own list and the rest stays queued; with an empty queue nothing is swept. |
| `CdsSched.SchedContext.DropRelease` | core/cds/src/cds_sched.c:738-747 | The loop is a run of the dropper's freeing steps that empties its list and touches nothing else in use. |
| `CdsSched.PollActive` | core/cds/src/cds_sched.c:749-756 | The wait ends cleanly if and only if the drop is for all stations or one of 22 reads does not show its own station. |
| `MpduRestitch.Restitch` | core/dp/htt/htt_monitor_rx.c:900-1020 | The chain reads as the frame should; the 32-bit counter, which starts below zero, is the length of the chain behind the first buffer modulo 2^32, and that length itself when it is below 2^32; failure exactly when an allocation or clone fails, with everything obtained given back. |
| `MpduRestitch.StitchAll` | core/dp/htt/htt_monitor_rx.c:961-1016 | The loop builds the frame from the header buffer, or stops at the clone that fails. |
| `MpduRestitch.StitchMsdu` | core/dp/htt/htt_monitor_rx.c:968-1016 | One round of the loop: LLC bytes from the right header, pad of the previous subframe in front. |
| `MpduRestitch.LayoutOf` | core/dp/htt/htt_monitor_rx.c:900-925 | Header, LLC and saved-header offsets fit the 64 saved bytes; the subframe header is there exactly for an A-MSDU. |
| `MpduRestitch.BuiltThenBody` | core/dp/htt/htt_monitor_rx.c:968-1016 | What the loop appends round by round is the body defined from its subframes. |
| `MpduRestitch.SubframesAligned` | core/dp/htt/htt_monitor_rx.c:1000-1005 | Every subframe starts on a four-byte boundary from the first, and lies there in the body. |
| `MpduRestitch.DeaggregateBody` | core/dp/htt/htt_monitor_rx.c:1000-1005 | A receiver walking the A-MSDU format (section 9.3.2.2 of IEEE 802.11-2016) recovers exactly the subframes. |
| `MpduRestitch.RestitchedDeaggregates` | core/dp/htt/htt_monitor_rx.c:900-1020 | In particular from the frame that is stitched together, whenever the subframe headers carry true lengths. |
| `MpduRestitch.LayoutFinds` | core/dp/htt/htt_monitor_rx.c:900-925 | For a header of the length its frame-control bits call for (24 or 30 bytes, two more for QoS), two bytes of pad when that is not whole words, and LLC bytes, the code finds exactly the header and the LLC bytes. |
| `MpduRestitch.FrameRestored` | core/dp/htt/htt_monitor_rx.c:900-1020 | Round trip with the air: the stitched frame is exactly the 802.11 header that was saved, then per MSDU its LLC bytes and payload, padded in between to whole words. |
| `MpduRestitch.FrameStarts` | core/dp/htt/htt_monitor_rx.c:926-1000 | So the frame starts with that header, the LLC bytes and the payload of the first MSDU, and is nothing else when there is one. |
| `InOrderPop.MonRx.RxInOrderPop` | core/dp/htt/htt_monitor_rx.c:498-720 | Success if and only if all words of the announced MSDUs pop; then the list from head to tail reads exactly the first buffers of the good MSDUs in message order, each with its fragments, the bad ones are freed, and replenish count, pops and ring decrease agree; on failure the ring has lost one more than the replenish count. |
| `InOrderPop.MonRx.PopRest` | core/dp/htt/htt_monitor_rx.c:544-717 | The loop behind that, which ends because every pop shrinks the hash table. |
| `InOrderPop.MonRx.Round` | core/dp/htt/htt_monitor_rx.c:544-717 | One turn and the pop behind it: the list goes on, is complete, or a pop has failed, each with exact counters. |
| `InOrderPop.MonRx.Turn` | core/dp/htt/htt_monitor_rx.c:544-695 | One turn: the MSDU joins the list or is freed, and head is set by the first good one. |
| `InOrderPop.MonRx.HandleAmsduPacket` | core/dp/htt/htt_monitor_rx.c:84-147 | The fragments of a good MSDU hang behind its first buffer in message order, and no other link changes. |
| `InOrderPop.MonRx.FreeMsdu` | core/dp/htt/htt_monitor_rx.c:558-581 | All buffers of a bad MSDU are popped and freed. |
| `InOrderPop.MonRx.SetNext` | core/dp/htt/htt_monitor_rx.c:697-716 | Tying the last good buffer to the next one overwrites the link to a freed buffer and breaks nothing. |
| `InOrderPop.MonRx.NetbufPop` | core/dp/htt/htt_internal.h:1097-1104 | The ring count falls by one on every attempt; the buffer comes out of the table if it is there. |
| `InOrderPop.FragmentsRead` | core/dp/htt/htt_monitor_rx.c:95-145 | Following the fragment list of a good MSDU reads its other buffers in order and stops. |
| `InOrderPop.NeverCompletes` | core/dp/htt/htt_monitor_rx.c:537-541 | Giving up at a word that does not pop means the indication could not have been served. |
| `InOrderPop.CompleteUnique` | core/dp/htt/htt_monitor_rx.c:529-544 | The announced count determines how many words are used. |
| `InOrderPop.ServedMeans` | core/dp/htt/htt_monitor_rx.c:529-544 | Read off the words: an indication is served by n words exactly if they name different posted buffers and hold the announced number of ends of MSDUs, the last one at the end. |
| `InOrderPop.HeadsAre` | core/dp/htt/htt_monitor_rx.c:544-695 | The buffers listed are exactly those of the words that start an MSDU whose first buffer has no length error. |
| `InOrderPop.BadBufsAre` | core/dp/htt/htt_monitor_rx.c:558-581 | The buffers freed are exactly those of the MSDUs whose first buffer has a length error. |
| `InOrderPop.Distinct` | core/dp/htt/htt_rx_ll.c:1182-1204 | Words that pop give different buffers, since a lookup takes the entry out. |
| `WmiTlv.WalkEncode` | components/wmi/src/wmi_unified_roam_tlv.c:2008-2011 | A reader who walks headers by their lengths recovers exactly the TLVs written and ends at the end. |
| `WmiTlv.EncodeLength` | components/wmi/src/wmi_unified_roam_tlv.c:2008-2011 | TLVs take one header each and their payloads. |
| `WmiTlv.CmdBuf.PutTlv` | components/wmi/src/wmi_unified_roam_tlv.c:2008-2068 | Writes a header and payload at the position and goes past them. |
| `WmiTlv.CmdBuf.PutPadded` | components/wmi/src/wmi_unified_roam_tlv.c:2249-2257 | Writes the IEs and skips to a multiple of four. |
| `WmiTlv.CmdBuf.PutItems` | components/wmi/src/wmi_unified_roam_tlv.c:525-536 | Writes a header for the whole list, then every element. |
| `RoamTlv.GetRsoBufLen` | components/wmi/src/wmi_unified_roam_tlv.c:1777-1838 | The accumulated length is the room the sections take, and the mode gains the roam-offload bit exactly when they are filled. |
| `RoamTlv.RoomIsExact` | components/wmi/src/wmi_unified_roam_tlv.c:1790-1837 | That room is the encoded length of the sections, for every request. |
| `RoamTlv.OneSection` | components/wmi/src/wmi_unified_roam_tlv.c:2075-2236 | At most one of the 11i, 11r and ESE sections is non-empty. |
| `RoamTlv.SectionsOfRequest` | components/wmi/src/wmi_unified_roam_tlv.c:2008-2260 | Section by section what a full command holds: ESE for an ESE association with any AKM but none; otherwise 11r for the six FT suites, or open with MDIE and an 11r association; otherwise 11i for every AKM that is neither none nor open; FILS and SAE exactly when asked for. |
| `RoamTlv.SectionsOfStop` | components/wmi/src/wmi_unified_roam_tlv.c:1985-2006 | A stop, or a request with offload disabled, has six empty arrays. |
| `RoamTlv.RoomOfRequest` | components/wmi/src/wmi_unified_roam_tlv.c:1777-1838 | The computed length by AKM and flags: a header per section and the structures the request calls for. |
| `RoamTlv.BareModeIff` | components/wmi/src/wmi_unified_roam_tlv.c:1790-1838 | The command is the mode structure alone exactly when the request has no other mode bit and roam offload is set, by the request or because the sections would be filled. |
| `RoamTlv.SectionsLength` | components/wmi/src/wmi_unified_roam_tlv.c:1810-1818 | Together they take exactly the size of the chosen one. |
| `RoamTlv.FillRsoTlvs` | components/wmi/src/wmi_unified_roam_tlv.c:1962-2263 | With the computed room behind the position, exactly that room is filled with the sections. |
| `RoamTlv.FillSecurity` | components/wmi/src/wmi_unified_roam_tlv.c:2075-2236 | The branches write the three sections in order, only the chosen one with content. |
| `RoamTlv.FillBare` | components/wmi/src/wmi_unified_roam_tlv.c:1985-2006 | For a stop or with offload disabled, six headers that record the size of an int less a header, which is no payload. |
| `RoamTlv.AddFilsTlv` | components/wmi/src/wmi_unified_roam_tlv.c:1850-1901 | A FILS section, empty unless asked for. |
| `RoamTlv.FillSaeSinglePmkTlv` | components/wmi/src/wmi_unified_roam_tlv.c:1922-1946 | An SAE section exactly if asked for. |
| `RoamTlv.SendRoamScanOffloadMode` | components/wmi/src/wmi_unified_roam_tlv.c:2370-2430 | The command fills the allocated buffer end to end: the mode structure alone for a mode of nothing but roam offload, otherwise fixed parameters and sections. |
| `RoamTlv.ModeCommandWalks` | components/wmi/src/wmi_unified_roam_tlv.c:2413-2426 | Walking the array headers of the command finds the sections and ends at its end. |
| `RoamTlv.SendRoamScanFilter` | components/wmi/src/wmi_unified_roam_tlv.c:479-616 | For lists of any lengths the length computed beforehand is exactly what the six arrays take. |
| `RoamTlv.FilterSections` | components/wmi/src/wmi_unified_roam_tlv.c:525-616 | The six arrays of a filter command hold the lists of the request, each as a whole. |
| `RoamTlv.FilterCommandWalks` | components/wmi/src/wmi_unified_roam_tlv.c:525-616 | Walking the filter command finds the six arrays and ends at its end. |
| `RoamTlv.Split11rWhole` | components/wmi/src/wmi_unified_roam_tlv.c:1725-1737 | The two parts of an 11r key are the key, for every length; the second fits a 16-byte extension exactly for keys of up to 48 bytes. |
| `RoamTlv.Split11iWholeIff` | components/wmi/src/wmi_unified_roam_tlv.c:2180-2193 | The two parts of an 11i key are the key if and only if it fits the first part or fills both. |
| `RegDump.Dumper.DiagRead` | core/bmi/src/ol_fw.c:1561-1597 | Reads exactly the bytes asked for, to the right place, or reports an error exactly when a read failed. |
| `RegDump.Dumper.ReadPieces` | core/bmi/src/ol_fw.c:1574-1586 | The chunk loop covers the range exactly. |
| `RegDump.Dumper.ReadRegLoc` | core/bmi/src/ol_fw.c:1637-1702 | Exactly the sections that fit the buffer are dumped, each register at its address less the first, everything else untouched; the result is the offset the dump has reached: the declared length with room for all, else the start of the next section if the gap before it fits, or the end of the last one dumped. |
| `RegDump.EndsWithin` | core/bmi/src/ol_fw.c:1681-1696 | Only the last section ends at the declared length. |
| `RegDump.DumpedNext` | core/bmi/src/ol_fw.c:1658-1698 | Dumping one more section keeps what was dumped. |
| `RegDump.DumpHolds` | core/bmi/src/ol_fw.c:1637-1702 | Byte by byte: a register of a dumped section is found at its address less the first of the table, and a byte that stands for none of them is as it was. |
| `Bmi.BmiContext.WriteMem` | core/bmi/src/bmi_1.c:96-164 | Success exactly if the data, rounded up to whole words with up to three bytes that lie behind it, is in the target's memory and nothing else changed; after a failure, a prefix; every command fits. |
| `Bmi.ChunkFits` | core/bmi/src/bmi_1.c:128-140 | Chunks are whole words within the limit and reach at most three bytes past the end. |
| `Bmi.BmiContext.ReadMem` | core/bmi/src/bmi_1.c:24-94 | On success the buffer holds the target's bytes; bytes behind the length are untouched. |
| `Bmi.BmiContext.WriteThenReadMem` | core/bmi/src/bmi_1.c:24-164 | Chunked write, then chunked read at the same address: when both succeed the bytes written come back, and both do succeed when all exchanges do. |
| `Bmi.BmiContext.Exchange` | core/bmi/src/i_bmi.h:98-102 | Every command sent, four bytes per header field and its data, fits the command buffer. |
| `Bmi.BmiContext.SendLz` | core/bmi/src/bmi.c:331-384 | The chunk loop appends the data to the open stream, up to the first exchange that fails. |
| `Bmi.BmiContext.FastDownload` | core/bmi/src/bmi.c:492-526 | Status, exchanges used and streams opened are those of the download defined from the answers of the target. |
| `Bmi.DownloadStreamsImage` | core/bmi/src/bmi.c:505-516 | With all exchanges successful exactly the image, zero padded to whole words, is streamed. |
| `Bmi.AlignedStatusHonest` | core/bmi/src/bmi.c:492-526 | For an image of whole words success is reported if and only if all of it was streamed, whatever exchanges fail. |
| `Bmi.StatusMeans` | core/bmi/src/bmi.c:492-526 | What success means for any image: all of it was streamed, or, for one not of whole words whose last word failed, all but that word followed by an empty stream at address zero; failure means some exchange failed. |
| `Bmi.UnalignedStatusHides` | core/bmi/src/bmi.c:518-523 | For every other image some failure makes the call report success although the last word never got across, with an empty stream opened at address zero. |

## Left out

- DSC debug build: timers, thread traces and per-operation lists; NULL-argument checks; allocation failure on create.
- DscObjects.Dsc: contexts are reached by handle and their records kept in one map, not by pointers into separate allocations; aliasing of contexts and use after free are not modelled.
- DscObjects.Dsc.Destroy: the flush takes no lock in the source; each abort is an atomic step here, and destroying the driver itself is not modelled.
- DscOps.WaitForOpsDrains: one waiter at a time per node, as the single event per node demands, and a node that is waited on or walked is not freed meanwhile.
- DscModel: operation counts are unbounded, the source's are 32-bit.
- OL-RX suspend and resume, exit by signal, and CPU affinity; the station number that means "all" and the one that means "none" are separate values here, so a real station never has them.
- CdsSched.SchedContext.RxFromQueue, Indicate and DropRelease: each loop or pair of steps as it goes without other threads in between; interleavings are those of CdsRx.
- InOrderPop: a buffer is known by its 37-bit DMA address, so no two entries of the hash table hold the same buffer; packet lengths, unmapping, radiotap headers and the preamble bookkeeping are not modelled.
- InOrderPop.MonRx.RxInOrderPop: on failure it does not say which links exist; the source leaves the list half built.
- MpduRestitch.Restitch: buffers always have the tailroom asked for, and a clone's data is its own; the RAW decap path, whose recorded length is taken before the FCS is trimmed, is not modelled.
- RoamTlv: contents of the fixed structures, except how keys are split; structure sizes are parameters, a TLV header is one 32-bit word in the mode command, and a header's length field is unbounded.
- RoamTlv.Split11rWhole: the capacity of the 11r extension field is taken to be that of the 11i one.
- RegDump.Dumper.ReadRegLoc: for tables in the order the table's own comment demands, with their whole span declared; the shipped tables are data and not repeated here.
- Bmi: an exchange that fails leaves the target unchanged, a successful read returns all bytes asked for, and addresses do not wrap at 32 bits; the data limit is a parameter, a multiple of four above the header.
- Plain field access and message building elsewhere: cached vdev commands, the other WMI roam and HTT messages, channel and rate tables, driver-state ladders, statistics printing.
- QDF, kernel, HIF, HTC and PLD are not part of this model: lists, latched events and message exchanges behave as their names say.

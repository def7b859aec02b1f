# Model of the SIP application server core

The platform is a back-to-back user agent: a call arrives on the trunk, the application takes
one decision, and the call controller relays it to an ordered list of next hops. Around the
controller stand a metrics registry, a bounded trace store with a live feed, a cross-call state
store with two implementations, a sweep of the stack's timers and a reader of the `Route`
header. This project states what each of them promises and proves it for every input, every
run and every interleaving.

`dafny verify dfyconfig.toml` checks everything.

## How it is built

Objects that the source updates in place are classes: `BaseCallController`, `BaseCallMap`,
`MetricsRegistry`, `InMemoryStateStore`, `RedisStateStore`, `WorkItem`, `TraceRecorder`,
`Feed`, `Transaction` and `Timer`. Each method is proved to compute a step of a specification
written as functions on values; the theorems are then about those functions and about whole
histories of steps.

- `CallTypes`, `CallSpec`: a call as a state machine. An input is an event of one leg with the
  answer of `uaA.isConnected()` and the decision the application would take, or a no-answer
  timer firing. The state holds the controller's fields and logs of everything it put out.
- `CallController`, `CallMap`, `Metrics`: the objects themselves, each callback proved to be the
  state machine's step and to write exactly that step's outputs to the shared registry.
- `CallStory`: a call told from its inputs alone, an account that never looks at the
  controller's state and that every run is proved to follow, output by output.
- `CallRuns`: the invariant of every reachable state. `CallTheorems`, `CallTimers`,
  `CallTransparency`, `CallSystem`: what follows for one call and for all calls of a process.
- `CallCopies`: the decision as objects, and why a call never changes them.
- `LruSpec`, `InMemoryStore`, `LruTheory`, `LruLimits`, `LruHistory`: the in-memory store and the
  theory of its eviction. `RedisTrim`, `RedisStore`, `RedisQueue`: the eviction of the Redis worker, the
  worker, and the queue between it and any number of client threads.
- `TraceSpec`, `TraceRecorder`, `EventFeed`: the trace store as a function of its history and
  the polling feed over it.
- `TimerSweep`, `Timers`, `RouteHeader`, and the helpers `Text`, `Sequences`, `Ordered`,
  `Wrappers`.

## Where the code differs from its own description

The model follows the code. These are the differences that the proofs make exact.

- A failover starts its timer over the reference to the first attempt's timer and then cancels
  the new one. Only the first attempt is ever watched, and `dispose()` misses its timer exactly
  when the first attempt was given up with the timer running (`CallTimers`). Cancelling before
  originating repairs this and changes nothing else the call does.
- The `failed_hop` trace attribute names the hop moved to (`CallTheorems`).
- A caller who hangs up leaves no disposition behind, so outcomes are at most one per call.
- `SCAN` may list a key twice and the Redis trim counts the excess on that list, so it can delete
  more than it should (`RedisTrim`).
- Raising the bound of a family inside another can lose a key of the outer one, and raising a
  single trim of a family can lose a key of its own; `LruTheory` and `LruLimits` say exactly
  which bounds and which limits can be raised.
- The feed sends the first fifty calls of a poll but marks all of them as seen (`EventFeed`).
- A comma in the user part of a `Route` entry is taken for the end of the entry, a semicolon
  for the end of the host, and the pattern does not read IPv6 literals (`RouteHeader`).

## Model

| member | source | states |
|---|---|---|
| CallController.BaseCallController.constructor | src/as_platform/call_controller.py:304-338 | A new controller has no leg, no decision, no hops left and no timer |
| CallController.BaseCallController.RecvRequest | src/as_platform/call_controller.py:381-418 | The INVITE starts a call with one leg, counted once, its trunk peer recorded reachable |
| CallController.BaseCallController.RecvEvent | src/as_platform/call_controller.py:430-446 | Any event of any leg is one step of the call; the registry gets exactly the outputs of that step, and an event of a replaced leg none |
| CallController.BaseCallController.RelayFromTrunk | src/as_platform/call_controller.py:448-473 | A trunk event is decided on, answered with a release or relayed to the live next-hop leg, with every field of the new state fixed |
| CallController.BaseCallController.RelayFromNextHop | src/as_platform/call_controller.py:475-532 | An event of the live next-hop leg is absorbed into a failover or relayed, with every field and output of the new state fixed |
| CallController.BaseCallController.AbsorbFailure | src/as_platform/call_controller.py:495-511 | A failure is absorbed exactly when a hop is left; the timer cancelled is the new attempt's |
| CallController.BaseCallController.RelayOn | src/as_platform/call_controller.py:512-532 | Relaying traces the event, ends the watch and counts the outcome of a terminal event, and tells the trunk |
| CallController.BaseCallController.EndCall | src/as_platform/call_controller.py:519-521 | A relayed end drops the timer and records one outcome |
| CallController.BaseCallController.TellTrunk | src/as_platform/call_controller.py:522-532 | The event goes to the trunk leg, and the response an answer makes that leg send is traced |
| CallController.BaseCallController.TryFailover | src/as_platform/call_controller.py:534-561 | True exactly when a hop is left; then the serving hop is blamed and the next one of the list INVITEd |
| CallController.BaseCallController.GiveUpServing | src/as_platform/call_controller.py:543-550 | The serving hop is recorded unreachable, its leg dropped and the next hop taken off the list |
| CallController.BaseCallController.OriginateOutboundLeg | src/as_platform/call_controller.py:563-583 | The decision is remembered and applied: a reject on the trunk, or the first hop INVITEd and the rest kept |
| CallController.BaseCallController.OriginateTowards | src/as_platform/call_controller.py:585-636 | The hop is serving on a new leg with a new timer, recorded reachable, traced, and sent the pending INVITE |
| CallController.BaseCallController.OpenLeg | src/as_platform/call_controller.py:607-611 | The hop serves on a leg no attempt had before; nothing else of the call changes |
| CallController.BaseCallController.ArmNoAnswerTimer | src/as_platform/call_controller.py:613-613 | A fresh armed timer replaces the reference and leaves the old timer as it was |
| CallController.BaseCallController.OnNextHopNoAnswer | src/as_platform/call_controller.py:660-685 | A firing timer tears down the leg that is live at that moment, unless there is none or the trunk is connected |
| CallController.BaseCallController.CancelNoAnswerTimer | src/as_platform/call_controller.py:687-691 | The timer referred to is dead and forgotten; no other timer changes |
| CallController.BaseCallController.Dispose | src/as_platform/call_controller.py:693-702 | Dispose cancels the timer referred to and no other |
| CallController.BaseCallController.ApplyCallPolicy | src/as_platform/call_controller.py:706-722 | The decision is returned as taken and remembered |
| CallController.BaseCallController.RejectOnTrunk | src/as_platform/call_controller.py:724-772 | One disposition, one trace line and one failure to the trunk; no next-hop leg is touched |
| CallController.BaseCallController.RecordDisposition | src/as_platform/call_controller.py:794-806 | A failure counts as failed, a release as completed or abandoned by whether the trunk is connected |
| Metrics.MetricsRegistry.RecordCallStarted | src/as_platform/observability/metrics.py:92-95 | The call counter grows by one and nothing else changes |
| Metrics.MetricsRegistry.RecordCallDisposition | src/as_platform/observability/metrics.py:97-104 | One outcome is counted and nothing else changes |
| Metrics.MetricsRegistry.RecordError | src/as_platform/observability/metrics.py:106-113 | One error code is counted and nothing else changes |
| Metrics.MetricsRegistry.SetPeerStatus | src/as_platform/observability/metrics.py:140-148 | The last status written for a peer is the one shown |
| Metrics.OutcomesAreCounted | src/as_platform/observability/metrics.py:97-104 | The counts over all outcomes grow by exactly the number of dispositions recorded |
| Metrics.CountAllTally | src/as_platform/observability/metrics.py:97-104 | Each outcome's count grows by the number of times it was recorded |
| Metrics.LastWriteWins | src/as_platform/observability/metrics.py:140-148 | A peer shows the status written for it last, and what it showed before if none was |
| CallTypes.TrunkKeyIsNoHopKey | src/as_platform/call_controller.py:860-874 | No hop's status key can be the trunk's, whatever the names |
| CallTypes.KeyTellsHopsApart | src/as_platform/call_controller.py:850-874 | Hops whose names and addresses have no colon share a key only if they are the same, and a peer field only if address and port are |
| CallTypes.KeysCanCollide | src/as_platform/call_controller.py:860-874 | A colon that may belong to the name or to the address makes two hops share a key |
| CallTypes.DescribeSays | src/as_platform/call_controller.py:184-210 | A response is traced under its status code, with its reason and no blanks at the ends; every other event under the request it stands for |
| CallTypes.FieldsKept | src/as_platform/call_controller.py:213-236 | Filling the attempt fields sets the called number and the next hop where they were asked for; every other key keeps the application's value and none is added |
| CallSpec.RunAppend | src/as_platform/call_controller.py:430-446 | A run continued from where another ended is the run of both |
| CallSpec.ReportAppend | src/as_platform/observability/metrics.py:97-148 | Reporting the outputs of two stretches of a run one after the other is reporting them at once |
| CallRuns.StartConsistent | src/as_platform/call_controller.py:381-418 | A fresh call satisfies the invariant |
| CallRuns.StepConsistent | src/as_platform/call_controller.py:430-702 | Every callback keeps it: the walk along the hop list, one vocabulary, legs spoken to in turn, bounded timers, truthful peer statuses |
| CallRuns.RunConsistent | src/as_platform/call_controller.py:430-702 | Every state of every run satisfies it |
| CallTheorems.FailoverWalk | src/as_platform/call_controller.py:541-583 | Hops tried followed by hops left are the decision's list; the last one tried is serving on its own leg, and no replaced leg is spoken to again |
| CallTheorems.FailureReachesTrunkOnlyAtTheEnd | src/as_platform/call_controller.py:495-523 | Before the trunk is connected, a next-hop failure reaches the trunk if and only if its leg is live and every hop has been tried; otherwise the next hop in order is INVITEd or nothing happens |
| CallTheorems.AbsorbGoesOn | src/as_platform/call_controller.py:495-511 | An absorbed failure INVITEs exactly the next hop and tells the trunk nothing |
| CallTheorems.FailedHopNamesTheNewHop | src/as_platform/call_controller.py:501-510 | The `failed_hop` attribute is the failed hop's name if and only if the new hop has the same name |
| CallTheorems.StepKeepsDecision | src/as_platform/call_controller.py:448-583 | No callback changes a relay decision, its INVITE, or takes the next-hop leg away |
| CallTheorems.RelayDecisionIsFinal | src/as_platform/call_controller.py:441-473 | Nor does any run |
| CallTheorems.RejectedCallHasOneLeg | src/as_platform/call_controller.py:37-42 | A call that is only rejected never has a second leg, writes no hop status, and answers the trunk exactly once per trunk event |
| CallTheorems.PeerStatusesAreTruthful | src/as_platform/call_controller.py:543-616 | For every hop tried, repeated or colliding keys included, the registry shows reachable if and only if it is the serving hop's key, unreachable otherwise |
| CallTheorems.EveryAttemptSaysTheSame | src/as_platform/call_controller.py:638-658 | Every attempt carries the application's message and fields with the application's values, but for the number called and `next_hop`, which names the attempt's own hop |
| CallStory.StepTells | src/as_platform/call_controller.py:430-702 | What one callback puts out is what the inputs so far say of it |
| CallStory.TheCallTellsItsStory | src/as_platform/call_controller.py:430-772 | In every run the events the trunk leg hears, the events the next-hop legs are told, the peer statuses, the trace lines and the legs a timer tears down are, in order and without anything besides, functions of the inputs alone |
| CallStory.TheTrunkHears | src/as_platform/call_controller.py:466-532 | The trunk leg hears every event of the serving leg that is not absorbed, a reject's failure, a release before anything is decided, and nothing else; a timer ends a leg only if armed and before the trunk is connected |
| CallCopies.FillFields | src/as_platform/call_controller.py:213-236 | The filled fields are a new dictionary, every other key with the application's value, and the application's dictionary is as it was |
| CallCopies.TryEveryHop | src/as_platform/call_controller.py:580-658 | A whole walk along the hop list modifies no object that existed before, the decision's list and dictionaries included |
| CallTimers.AtMostOneTimer | src/as_platform/call_controller.py:492-520 | At most one timer is armed in any reachable state and it is the first attempt's |
| CallTimers.DisposeIsCompleteIff | src/as_platform/call_controller.py:693-702 | In every run `dispose()` leaves a timer armed if and only if, by the inputs alone, the first attempt failed before the trunk was connected with a hop left and no answer yet, and its timer has not fired since |
| CallTimers.WatchRun | src/as_platform/call_controller.py:492-521 | What has become of the first attempt's timer in any run is a fold over the inputs |
| CallTimers.OrphanedAfterStepIff | src/as_platform/call_controller.py:495-500 | The callback that orphans the timer, and the one that ends it, exactly |
| CallTimers.FirstWatchEndsIff | src/as_platform/call_controller.py:492-521 | The watch of the first attempt ends if and only if it fires, is answered, or its end is relayed |
| CallTimers.RelayDecisionStartsTheWatch | src/as_platform/call_controller.py:563-613 | A relay decision arms one timer, for the first attempt |
| CallTimers.OrphanOutlivesDispose | src/as_platform/call_controller.py:693-702 | An orphaned timer survives any events and `dispose()` until the loop fires it |
| CallTimers.OrphanTearsDownAnotherHop | src/as_platform/call_controller.py:660-685 | When it fires it tears down a hop it was not started for |
| CallTimers.DisposeCanLeaveATimer | src/as_platform/call_controller.py:495-500 | For every list of two hops or more there is a run of two events after which `dispose()` leaves a timer armed |
| CallTimers.RepairChangesOnlyTimers | src/as_platform/call_controller.py:498-500 | Cancelling before originating gives the same call in every run, timers and their teardowns apart |
| CallTimers.AbsorbRepairedWatched | src/as_platform/call_controller.py:498-500 | With the repair every new attempt is watched by a timer of its own |
| CallTimers.RepairedRunIsWatched | src/as_platform/call_controller.py:693-702 | With the repair, in every run, `dispose()` leaves no timer armed, and whether the live attempt is watched is a fold over the inputs |
| CallTimers.AttemptIsWatchedIff | src/as_platform/call_controller.py:660-691 | With the repair a timer is armed if and only if it is the live attempt's and it has not fired, nor has the attempt been answered or its end relayed |
| CallTransparency.FailoverIsTransparent | src/as_platform/call_controller.py:430-561 | In every run the trunk hears, the registry counts and the next hops are relayed the same as in the single-hop run without stale events and absorbed failures |
| CallTransparency.DispositionsAreAccounted | src/as_platform/call_controller.py:495-521 | The dispositions are one per reject and one per relayed end, in order, and none for an absorbed failure |
| CallTransparency.AtMostOneOutcome | src/as_platform/call_controller.py:724-806 | With one Try on the trunk and one end per leg, a call counts at most one outcome |
| CallMap.BaseCallMap.constructor | src/as_platform/call_controller.py:905-925 | A new map knows no call |
| CallMap.BaseCallMap.RecvRequest | src/as_platform/call_controller.py:927-956 | 403, 481 and 501 exactly when the source, the To tag and the method say so, without a call; otherwise one fresh call; calls, registry and refusals traced are as the system's step says |
| CallMap.BaseCallMap.RejectPeer | src/as_platform/call_controller.py:994-1030 | A refused request is counted as an error and traced, and touches no call |
| CallMap.BaseCallMap.NewCall | src/as_platform/call_controller.py:948-956 | An accepted INVITE gets a controller of its own; no other call notices |
| CallMap.BaseCallMap.RecvEvent | src/as_platform/call_controller.py:430-446 | A callback of one call is a step of the system of all calls: its own state and the registry change, no other call does |
| CallMap.BaseCallMap.OnNextHopNoAnswer | src/as_platform/call_controller.py:660-685 | The same for a timer that fires |
| CallMap.BaseCallMap.Dispose | src/as_platform/call_controller.py:983-992 | Every call drops the timer it refers to, and that is all |
| CallMap.BaseCallMap.DisposeCall | src/as_platform/call_controller.py:983-992 | Disposing one call does not disturb another |
| CallSystem.HappenAgrees | src/as_platform/observability/metrics.py:92-104 | Any callback of any call keeps the registry equal to the sum over calls |
| CallSystem.RegistryIsTheSumOfItsCalls | src/as_platform/observability/metrics.py:92-104 | Over any interleaving of calls, each outcome count is the sum of what the calls recorded, and each call is counted once |
| CallSystem.CallsSeeTheirInputs | src/as_platform/call_controller.py:430-446 | In any interleaving every call sees its own callbacks, in order, and no other |
| CallSystem.ErrorsAreRefusals | src/as_platform/call_controller.py:994-1016 | The error counter is the number of requests refused |
| CallSystem.PeersAreAsLastReported | src/as_platform/observability/metrics.py:140-148 | The peer table is the status writes of all calls in the order they happened, as the inputs alone say |
| CallSystem.OutcomesNeverExceedCalls | src/as_platform/observability/metrics.py:92-104 | Over any interleaving of orderly calls, outcomes never exceed calls |
| CallSystem.TrunkEventsCountNothing | src/as_platform/call_controller.py:448-473 | A trunk event after the decision is relayed to the live leg and counts no outcome |
| LruSpec.RunDistinct | src/as_platform/state_store.py:107-145 | No history of operations stores a key twice |
| LruSpec.TrimOldest | src/as_platform/state_store.py:142-145 | Deleting a family's oldest key is one step of its trim while there is one too many |
| LruSpec.TrimIsDeletion | src/as_platform/state_store.py:135-145 | A trim deletes the oldest keys of the family, exactly the excess |
| InMemoryStore.InMemoryStateStore.Read | src/as_platform/state_store.py:109-122 | The record or nothing; a hit makes the key the youngest, a miss changes nothing |
| InMemoryStore.InMemoryStateStore.Write | src/as_platform/state_store.py:124-133 | The record is stored and its key is the youngest |
| InMemoryStore.InMemoryStateStore.Trim | src/as_platform/state_store.py:135-145 | The loop leaves the `limit` youngest keys of the family and everything else in its place |
| InMemoryStore.InMemoryStateStore.Family | src/as_platform/state_store.py:143-143 | The family's keys, oldest first |
| LruTheory.FamiliesDoNotInterfere | src/as_platform/state_store.py:24-26 | In a shared store a family has the contents, the order and the answers of a store of its own |
| LruTheory.TrimsCommute | src/as_platform/state_store.py:24-26 | Trims of two unrelated families commute on the whole store |
| LruTheory.RaisingTheBoundLosesNothing | src/as_platform/state_store.py:109-145 | For unrelated families each with one fixed bound, larger bounds keep a superset in the same order after any history |
| LruTheory.LosesNothingIff | src/as_platform/state_store.py:24-26 | The bounds of a set of families can be raised without losing a key in any history if and only if no family is inside another |
| LruTheory.NestedFamiliesCanLoseAKey | src/as_platform/state_store.py:135-145 | For any family inside another, four operations after which raising the inner bound has lost a key of the outer one |
| LruLimits.LimitsLoseNothingIff | src/as_platform/state_store.py:135-145 | The limits of a family's successive trims can be raised without losing a key in any history if and only if the raise never shrinks from one trim to a next one that keeps anything |
| LruLimits.UnsafeLimitsLoseAKey | src/as_platform/state_store.py:109-145 | For any other limits there is a history that loses a key |
| LruLimits.SharedStoreKeepsTheFamily | src/as_platform/state_store.py:24-26 | Limits raised safely lose no key of the family in a store shared with unrelated families, however those are trimmed |
| LruLimits.RaisingOneTrimCanLoseAKey | src/as_platform/state_store.py:135-145 | Raising the first of two equal limits is not safe; two keys and two trims show it |
| LruTheory.WithinTrimmed | src/as_platform/state_store.py:135-145 | Trimming to n and to m keeps the inclusion while the sizes differ by at most m - n |
| LruHistory.RunAged | src/as_platform/state_store.py:117-133 | After any history the store is in order of last write or read hit |
| LruHistory.TrimEvictsTheLeastRecentlyUsed | src/as_platform/state_store.py:135-145 | A trim evicts a key if and only if it is of the family and `limit` or more stored keys of it were touched later; survivors keep their order |
| LruHistory.ReadsAreNeverStale | src/as_platform/state_store.py:109-133 | A key stores the last record written under it or nothing |
| LruHistory.AnswersAreNeverStale | src/as_platform/state_store.py:109-133 | The answer to every read of a history is the last record written under its key before, or nothing; after a write nothing only if a trim of the family came in between |
| LruHistory.ReadsMissOnlyAfterEviction | src/as_platform/state_store.py:109-145 | It answers nothing for a written key only after a trim of its family evicted it, and no write of it came later |
| RedisTrim.TrimKeepsTheLeastIdle | src/as_platform/state_store.py:288-303 | No key kept is strictly more idle than a key evicted, an unknown idle time counts as just used, and among ties the keys listed first go first |
| RedisTrim.TrimCount | src/as_platform/state_store.py:299-303 | How many distinct keys go, for any scan |
| RedisTrim.TrimKeepsTheLimitIff | src/as_platform/state_store.py:288-303 | The trim keeps the right number of keys if and only if the scan lists none twice, is within the limit, or nothing is to be kept |
| RedisTrim.SortedScanIsLruOrder | src/as_platform/state_store.py:291-300 | With idle times that reverse the order of access, the sorted scan is the family in LRU order |
| RedisTrim.TheTwoStoresAgree | src/as_platform/state_store.py:274-303 | With faithful scans and one client, both stores hold the same records and answer the same after any history |
| RedisStore.WorkItem.Done | src/as_platform/state_store.py:332-334 | The item is signalled |
| RedisStore.RedisStateStore.Enqueue | src/as_platform/state_store.py:230-231 | A fresh item goes to the end of the queue |
| RedisStore.RedisStateStore.ListIdle | src/as_platform/state_store.py:292-297 | The idle-time dictionary keeps each key once, in the order first listed |
| RedisStore.RedisStateStore.DeleteAll | src/as_platform/state_store.py:300-303 | The listed keys go and no other |
| RedisStore.RedisStateStore.Excess | src/as_platform/state_store.py:287-302 | The excess is the most idle keys, as many as the scan listed above the limit |
| RedisStore.RedisStateStore.TrimFamily | src/as_platform/state_store.py:287-303 | The worker's trim deletes exactly those, or the first of them when an exception ends it |
| RedisStore.RedisStateStore.TakeHead | src/as_platform/state_store.py:277-280 | The head of the queue is taken |
| RedisStore.RedisStateStore.Process | src/as_platform/state_store.py:281-307 | The item is answered from the server's state, or told of the exception with what had taken effect by then left in place, and signalled once either way |
| RedisStore.RedisStateStore.ServeHead | src/as_platform/state_store.py:276-307 | One round serves the head and leaves the rest queued, or gives up waiting on an empty queue |
| RedisStore.RedisStateStore.Meanwhile | src/as_platform/state_store.py:206-231 | Callers put items behind those queued, and the store may be stopped |
| RedisStore.RedisStateStore.Run | src/as_platform/state_store.py:274-307 | Whatever is put while the worker runs and whenever the store is stopped, the worker exits with the flag clear and the queue empty, every item put until then served in order and signalled exactly once, and no later one touched |
| RedisStore.RedisStateStore.Loop | src/as_platform/state_store.py:276-307 | The loop itself, from any queue |
| RedisStore.ReplyAt | src/as_platform/state_store.py:274-307 | Each reply is the answer of the server as its predecessors left it |
| RedisStore.JobDoes | src/as_platform/state_store.py:281-307 | An exception is what its caller gets; otherwise the record or nothing; and exactly which of its writes a failed operation has done |
| RedisQueue.StepGood | src/as_platform/state_store.py:206-334 | Every action of a client, of the worker or of `stop()` keeps the queue invariant |
| RedisQueue.WorkerFaultsAreAllowed | src/as_platform/state_store.py:281-307 | What an operation that ends in an exception leaves on the server is covered by the interleavings |
| RedisQueue.QueueIsLinearizable | src/as_platform/state_store.py:217-307 | In any interleaving the operations run one after the other in queue order, which respects real time; a caller gets the exception if and only if its operation ended in one, else the record the server held, and the server holds what the operation leaves |
| RedisQueue.EveryItemIsSignalledOnce | src/as_platform/state_store.py:304-334 | No item is signalled twice, and each is as soon as its operation ended, raised or not |
| RedisQueue.WorkerExitsOnlyWhenDone | src/as_platform/state_store.py:206-276 | The worker exits with the flag clear, having served exactly what was put before it saw the queue empty |
| RedisQueue.StoppedStoreFinishes | src/as_platform/state_store.py:274-307 | From any reachable state with the flag clear the worker, left alone, serves and signals every item there is and exits |
| RedisQueue.ConcurrentCallersSeeTheInMemoryStore | src/as_platform/state_store.py:96-307 | With no failure and faithful scans, concurrent callers get the answers of the in-memory store in queue order |
| TraceRecorder.TraceRecorder.constructor | src/as_platform/observability/tracing.py:105-113 | A new recorder has recorded nothing |
| TraceRecorder.TraceRecorder.Record | src/as_platform/observability/tracing.py:150-156 | The eviction loop leaves the store the function of the longer history |
| TraceRecorder.TraceRecorder.TraceFor | src/as_platform/observability/tracing.py:158-168 | A retained call's own events since its last admission, in order; none otherwise |
| TraceRecorder.TraceRecorder.KnownCallIds | src/as_platform/observability/tracing.py:183-190 | The first `max_calls` entries of the reversed history without repeats |
| TraceRecorder.TraceRecorder.Recent | src/as_platform/observability/tracing.py:170-181 | The traces of the first `limit` of those |
| TraceRecorder.TraceRecorder.Clear | src/as_platform/observability/tracing.py:192-195 | The history starts over |
| TraceSpec.KeptIsKnown | src/as_platform/observability/tracing.py:150-155 | The calls retained are the most recently touched, in order of recency, after any history |
| TraceSpec.KeptTrace | src/as_platform/observability/tracing.py:150-155 | Each retained trace is the suffix of the call's own events since its last admission |
| TraceSpec.AdmittedIsTheLastAdmission | src/as_platform/observability/tracing.py:150-155 | That admission found the call not retained, and it has been retained ever since |
| TraceSpec.NeverEvictedKeepsAll | src/as_platform/observability/tracing.py:150-155 | A call never evicted has all its events |
| TraceRecorder.ItemAt | src/as_platform/observability/tracing.py:180-181 | The i-th newest item is the i-th newest call with its trace |
| EventFeed.Feed.constructor | src/as_platform/internal_api.py:385-386 | On connection everything retained counts as seen |
| EventFeed.Feed.Poll | src/as_platform/internal_api.py:386-399 | A poll pushes one trace for each unseen call among the first fifty, as retained, and marks all retained calls as seen |
| EventFeed.PayloadIsOrdered | src/as_platform/internal_api.py:393-397 | A payload names no call twice, and its calls stand newest first |
| EventFeed.RecencyRank | src/as_platform/observability/tracing.py:180-190 | After the i-th newest call exactly i others were touched |
| EventFeed.PushedWasNotRetained | src/as_platform/internal_api.py:386-399 | A call is pushed only if it was not retained at the poll before |
| EventFeed.PushedOnlyOnce | src/as_platform/internal_api.py:386-399 | A call retained at the connection or at a poll is not pushed at any later one while it stays retained, so none is pushed twice |
| EventFeed.PlaceInRecency | src/as_platform/observability/tracing.py:180-190 | A call's place in the order of recency is the number of distinct calls touched after it |
| EventFeed.SeenIsRetained | src/as_platform/internal_api.py:386-399 | After every poll the client has seen exactly the calls retained, although a poll with nothing new leaves the set alone |
| EventFeed.NewCallIsPushedIff | src/as_platform/internal_api.py:390-399 | A poll pushes a call if and only if it is retained, was not at the poll before, and fewer than fifty calls were touched after it |
| EventFeed.CrowdedOutIsLost | src/as_platform/internal_api.py:390-399 | A call crowded out of the first fifty at a poll is not pushed by any later poll while it stays retained |
| EventFeed.FirstAppearanceIsDelivered | src/as_platform/internal_api.py:386-399 | A call that appears at a poll, for the first time or again, is pushed there whenever at most fifty calls were touched since the poll before |
| Timers.Timer.Cancel | src/as_platform/sip_adapter.py:135-138 | A cancelled timer is dead |
| TimerSweep.SweepSlot | src/as_platform/sip_adapter.py:153-158 | An armed timer is cancelled and its slot emptied; a dead or missing one is left alone |
| TimerSweep.CancelSlot | src/as_platform/sip_adapter.py:156-158 | The timer is cancelled once and its own slot, no other, lets go of it |
| TimerSweep.SweepTransaction | src/as_platform/sip_adapter.py:152-158 | All slots of a transaction are dead, each timer cancelled once |
| TimerSweep.SweepTable | src/as_platform/sip_adapter.py:147-158 | All transactions of a table are dead, timers already cancelled through another table not counted again |
| TimerSweep.CancelTransactionTimers | src/as_platform/sip_adapter.py:120-159 | Nothing owned is armed afterwards, every armed timer was cancelled exactly once however shared and let go by exactly one slot that held it, nothing else changed, and the answer is how many distinct ones there were |
| TimerSweep.SweepTwice | src/as_platform/sip_adapter.py:120-159 | A second sweep answers zero |
| TimerSweep.AllDead | src/as_platform/sip_adapter.py:146-159 | Once every transaction is swept, the timers cancelled are exactly those that were armed |
| RouteHeader.RouteHeaderValues | src/as_platform/route_header.py:50-56 | The header values in wire order |
| RouteHeader.ParseTopRouteTarget | src/as_platform/route_header.py:59-84 | The target of the first entry that parses over all rows |
| RouteHeader.FirstTargetIsFirst | src/as_platform/route_header.py:75-84 | Some entry parses to the answer and none before it parses; no answer means none parses |
| RouteHeader.SearchIsLeftmost | src/as_platform/route_header.py:77-77 | The match taken is the leftmost, and there is none only if no place matches |
| RouteHeader.SchemeReadsIff | src/as_platform/route_header.py:32-35 | An entry opens with a bracket, blanks and `sip:` or `sips:` in either case, and only so |
| RouteHeader.UserReadsIff | src/as_platform/route_header.py:32-35 | A user part is skipped if and only if an `@` ends it and a host can follow |
| RouteHeader.HostReadsIff | src/as_platform/route_header.py:32-35 | The host is all the characters its class takes, the port all the digits behind a colon, the default without any |
| Text.DefaultPortIs | src/as_platform/route_header.py:62-62 | The default port as a number and as decimal digits |
| Text.StripIs | src/as_platform/route_header.py:77-77 | Stripping removes blanks at both ends and nothing else |
| RouteHeader.SplitAcross | src/as_platform/route_header.py:76-76 | Splitting two values joined by a comma is splitting each |
| RouteHeader.SplitJoined | src/as_platform/route_header.py:75-76 | The entries of the joined value are the entries of the rows, in order |
| RouteHeader.RowsCombine | src/as_platform/route_header.py:75-84 | Parsing several rows is parsing their single joined value |
| RouteHeader.EntryReadsAs | src/as_platform/route_header.py:76-83 | Of an entry only the text before its first comma is ever read |
| RouteHeader.CutUserReads | src/as_platform/route_header.py:31-35 | With a comma or a semicolon in the user part, what stands before the first of them is read as host and port, whatever follows |
| RouteHeader.PrintedEntryReadsBackIff | src/as_platform/route_header.py:31-35 | A printed entry reads back to its host and its port or the default if and only if its host has no colon, and its user part, if any, is not empty and has neither comma nor semicolon, or what stands before the first of them reads as the same host and port |
| RouteHeader.SemicolonInUserIsMisread | src/as_platform/route_header.py:31-35 | A plain text before a semicolon in the user part is taken for the host |
| RouteHeader.CommaInUserCutsTheEntry | src/as_platform/route_header.py:76-83 | With a comma in the user part, the answer is what the text before the first comma parses to, whatever the rest is |
| RouteHeader.CommaInUserIsMisread | src/as_platform/route_header.py:76-83 | So such a text is taken for the host before a comma too |

## Left out

- The SIP stack itself: legs, timers and transactions are an environment that may raise any event in any order. Callbacks run to completion one at a time, and the event `disconnect()` makes the stack emit is a later input.
- Legs are identities, not objects; event payloads beyond the called number and the status line are one opaque value.
- CallController.BaseCallController.RecvRequest: one INVITE per controller, which is how the call map uses it.
- CallController.BaseCallController.RecvEvent: a relay decision names at least one hop and a reject carries its error, as the application hook documents.
- CallController.BaseCallController.ApplyCallPolicy: the application's answer is an input, a value; its lists and dictionaries as objects are in `CallCopies`.
- CallController.BaseCallController.OriginateTowards: the peer-status key and the no-answer label are the defaults, not an application's override.
- Log lines, apart from the fields of the originate line. The controller's trace lines are a log of its state; the recorder object is modelled on its own and not shared with it.
- RedisStore.RedisStateStore.Process: what a scan lists and how far an operation gets before an exception come with the item, not with the moment it runs.
- RedisStore.RedisStateStore.Run: other threads act between two rounds of the worker; finer interleavings are in `RedisQueue`.
- RedisQueue.QueueIsLinearizable: callers wait without the ten-second limit, the worker runs once, and each step is atomic; locks and the memory model are not modelled.
- The JSON encoding of Redis values and glob characters in prefixes.
- InMemoryStore.InMemoryStateStore.Trim: limits are not negative. The ordered dictionary is the sequence of its items.
- TraceRecorder.TraceRecorder.Record: the clock is an input and `max_calls` is not negative.
- EventFeed.Feed.Poll: a poll reads the recorder once, nothing clears the recorder during a session, and the connection stays open.
- TimerSweep.CancelTransactionTimers: a missing table is an empty one, and the order of a dictionary's values is any order.
- RouteHeader.ParseTopRouteTarget: white space, digits and letter case are the ASCII ones; the limit on the digits of an integer is not modelled.
- Transport, process wiring, the HTTP routes, the capacity harness, error tables, logging setup and the SIP message recorder: wiring or easy members.

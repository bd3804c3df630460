# Connectum: verified model

A Dafny model of the algorithms and protocols inside Connectum that do not depend on a foreign library, with proofs
of what they guarantee over every input and every run.

Asynchronous code is modelled as a step system: a step is one stretch of code between two awaits, and lemmas
quantify over all interleavings of steps. Where the source updates state in place, a class with the same fields has
one method per stretch (or per function), proved to compute the step; the guarantees are lemmas about the steps.

| file | what it models |
|---|---|
| `Pipeline.dfy`, `Onion.dfy`, `Delivery.dfy`, `DeliveryProperties.dfy`, `RetryProperties.dfy` | the delivery pipeline: onion dispatcher with shared `index` and `currentEvent`, retry, dead-lettering, event context, auto-ack |
| `EventBus.dfy`, `BusProgress.dfy` | start, drain and stop of the bus, the publish gate, in-flight tracking |
| `Graphs.dfy`, `ShutdownManager.dfy`, `ShutdownRun.dfy` | shutdown hooks: cycle test with rollback, memoised parallel execution |
| `AmqpConfirms.dfy`, `AmqpRuns.dfy`, `AmqpPublisher.dfy` | publisher confirms: returns, acks, nacks, channel close, timeouts, both correlation modes |
| `Options.dfy`, `Collections.dfy`, `Strings.dfy` | shared helpers |
| `Globs.dfy`, `Topics.dfy` | service globs, topic patterns, their Kafka and AMQP translations |
| `FileProtos.dfy` | dependency-first collection of file descriptors |
| `StreamBridge.dfy` | the push-to-pull input queue |
| `LruCache.dfy` | the LRU cache with expiry |
| `AuthHeaders.dfy` | auth context through request headers |
| `Cidr.dfy` | trusted addresses and networks |

A middleware is an arbitrary strategy over the replies it has seen: return, throw, call `next` (with or without a
new event), ack or nack, or await something outside. Brokers, clocks, abort signals, serializers, JSON and number
parsing are parameters, and every lemma holds for all of them, under the assumptions it names.

## What the proofs found

- Two `stop()` calls issued while `start()` is pending both pass the check of `stopPromise`
  (`packages/events/src/EventBus.ts:267-276`), which is not looked at again after the await. The second body survives
  the first one's clean-up and can disconnect a bus that was started again, under a running handler
  (`EventBuses.TwoStopsDuringStartOverlap`). One stop body at a time runs exactly in the runs where no waiting stop
  goes on beside a running one (`EventBuses.OneBodyIffGuarded`); a caller that waits for one `stop` before issuing
  the next stays within them. What makes overlapping stops unsafe is a `start` accepted before the last of them has
  ended: without one the bus is safe (`EventBuses.PublishAndStopAreSafe`), and from any such `start` it can become
  unsafe (`EventBuses.EarlyStartIsUnsafe`). That a drain admits nothing holds in every run.
- Without the correlation header, a late `basic.return` of a publish that timed out is charged to the next publish
  (`packages/events-amqp/src/AmqpAdapter.ts:397-401`, `AmqpConfirms.LateReturnIsMisdirected`).
  `AmqpConfirms.SingleFlightJudgement` says exactly which publishes are misjudged; without a timeout of a mandatory
  publish none is.
- The Kafka expression is not the bus's matcher on every topic (`packages/events-kafka/src/KafkaAdapter.ts:52-55`).
  For a well-formed pattern of at most 256 characters the two differ exactly where `*` would stand for an empty
  segment or `>` would cross a line end (`Topics.KafkaExact`). Every other pattern of that length, with a wildcard
  inside a segment or a `>` before the last one, matches a topic on Kafka that the bus does not mean: `a*` and the
  topic `ab` (`Topics.KafkaExactIff`).
- The AMQP pattern of `a.>` also receives `a` (`packages/events-amqp/src/AmqpAdapter.ts:53-55`), although `>` stands
  for one or more words; unless another pattern of the bus matches, the bus acks such an event as unrouted. A segment
  `#`, or a `>` that is not a whole last segment, is no wildcard for the bus but changes what AMQP delivers
  (`Topics.AmqpExactIff`).
- The input queue serves one consumer: with two, a wait is overwritten and lost
  (`packages/core/src/streamBridge.ts:56-58`). `StreamBridges.NoWaitIsLostIff` says exactly when no wait is.
- `setAuthHeaders` removes nothing: a context without a name, roles, scopes or claims of its own takes over what the
  headers held before (`packages/auth/src/headers.ts:40-67`, `AuthHeaders.OldHeadersShowThrough`).
- A cache of `maxSize` zero or less still holds one entry (`packages/auth/src/cache.ts:46-56`,
  `LruCaches.OverLimitIffBelowOne`).
- With a negative `maxRetries` the handler never runs and an undefined value is thrown
  (`packages/events/src/middleware/retry.ts:60-118`, `DeliveryProperties.SingleRetryCourse`).

## Model

The properties come first. The rows at the end, of class methods and constructors, are the bridge to the code: each
says that a method of the source, or one synchronous stretch of it, computes its step or function of the model.

| member | source | states |
|---|---|---|
| `Onion.DispatchRefinesEnter` | packages/events/src/middleware.ts:38-66 | the dispatcher with its shared `index` and `currentEvent` gives, from any layer, the reply and effects of a recursive semantics without an index; the index ends at `i` or above after a normal exit and at `i - 1` after a throwing one |
| `Onion.CustomRefines` | packages/events/src/middleware.ts:54-60 | while a custom layer runs, `index` is above `i` exactly when one of its `next()` calls has resolved |
| `Onion.ComposedIsOnion` | packages/events/src/middleware.ts:24-70 | the composed handler is that recursive semantics, for every stack of layers, handler and environment |
| `Onion.TurnsAreTheRun` | packages/events/src/middleware.ts:54-60 | the turns of an invocation that the next row speaks of are its run: chosen by the middleware on the replies so far, one starting where the other ended, the last one ending in the state the invocation leaves |
| `Onion.TurnsEndTheRun` | packages/events/src/middleware.ts:60-64 | what the middleware does after its last turn, throw or return, is how the invocation ends |
| `Onion.NextGuard` | packages/events/src/middleware.ts:39-42 | within one invocation of a layer a `next()` call enters the inner layer exactly when no earlier call of that invocation resolved; after a resolved one every call is refused and changes nothing but the current event |
| `Onion.EnterKeeps` | packages/events/src/middleware.ts:38-66 | induction principle of the pipeline: what every primitive effect keeps, every run of every stack keeps |
| `DeliveryProperties.SettledAtMostOnce` | packages/events/src/EventBus.ts:180-244 | per delivery the broker sees the first context call, else one auto-ack on normal return, else nothing; unrouted and draining deliveries settle exactly once |
| `DeliveryProperties.HandlerRunsAreBounded` | packages/events/src/middleware/retry.ts:60-116 | any stack of retry and dead-letter layers enters the handler at most (m1+1)*...*(mk+1) times per delivery, with at most one success, and none if the delivery rejects |
| `DeliveryProperties.SingleRetryCourse` | packages/events/src/middleware/retry.ts:56-119 | one retry layer without abort, whatever the broker answers: the handler runs one plus the leading retryable failures, capped at `maxRetries + 1`; run j sees attempt base + j - 1; before each run but the first the layer waits for its back-off; the reply is that of the last run |
| `RetryProperties.RetryDecisions` | packages/events/src/middleware/retry.ts:70-95 | in terms of the options and the handler's own results: a success is the last run; so is a failure with the non-retryable brand; one with only the retryable brand is followed by another run below the cap; an unbranded one exactly when there is no predicate or it holds |
| `RetryProperties.DelayOfBackoff` | packages/events/src/middleware/retry.ts:21-39 | the back-off after an attempt: the initial delay, times the attempt, or multiplied anew for each attempt, up to `maxDelay` |
| `RetryProperties.AbortEndsRetry` | packages/events/src/middleware/retry.ts:61-116 | an abort seen before a wait lets the handler's error through with no further wait; one seen during a wait or after it throws the abort's reason; in no case is the handler entered again |
| `DeliveryProperties.BackoffIsBounded` | packages/events/src/middleware/retry.ts:21-39 | total back-off of a retry layer, aborted or not, is at most `maxRetries * maxDelay`, and nothing if `maxDelay` is negative |
| `DeliveryProperties.DeadLetterGuarantee` | packages/events/src/middleware/dlq.ts:32-57 | dead-letter outside retry: exactly one settlement; an ack means success or a published copy carrying the final error, a failed publish gives exactly one nack without requeue, and an event on the dead-letter topic is never published again |
| `RetryProperties.DeadLetterLayer` | packages/events/src/middleware/dlq.ts:32-57 | a dead-letter layer at any place, around any handler: off its own topic a failure publishes exactly one copy of the event, with its topic, id and attempt and the serialized error; then, unless settled before, an ack or a nack without requeue by the outcome of that publish; a success, its own topic and a throwing serializer add nothing |
| `RetryProperties.ThrowingSerializerRejects` | packages/events/src/middleware/dlq.ts:39-46 | a throwing serializer: the delivery rejects with what it threw, unsettled and unpublished |
| `RetryProperties.BareDelivery` | packages/events/src/EventBus.ts:180-244 | without middleware the handler runs once, on the event itself; the broker sees its first context call, or an ack if it returned normally, or nothing |
| `RetryProperties.HandlerMakesItsCalls` | packages/events/src/EventBus.ts:209-225 | a run of the handler makes its context calls, in order |
| `ShutdownManagers.TestFindsCycles` | packages/core/src/ShutdownManager.ts:167-173 | the path-set search answers true exactly when a cycle is reachable from the module |
| `ShutdownManagers.TestDecides` | packages/core/src/ShutdownManager.ts:130-134 | after merging new edges into an acyclic graph, the test is true exactly when a new dependency already reaches the module, and exactly when the merged graph is cyclic |
| `ShutdownManagers.AnonymousNamesDiffer` | packages/core/src/ShutdownManager.ts:112 | different anonymous hooks get different names |
| `Graphs.CycleIffTargetReaches` | packages/core/src/ShutdownManager.ts:125-134 | adding edges out of one node to an acyclic graph closes a cycle exactly when a target of a new edge reaches that node |
| `ShutdownManagers.LaunchComplete` | packages/core/src/ShutdownManager.ts:150-203 | when all registered modules are memoised, the launched ones are exactly those reachable from a registered one |
| `ShutdownRuns.HooksRunAtMostOnce` | packages/core/src/ShutdownManager.ts:189-199 | in every interleaving no hook is invoked twice |
| `ShutdownRuns.HooksRunInOrder` | packages/core/src/ShutdownManager.ts:189-199 | a hook is invoked only after every transitive dependency has fulfilled with all its hooks done; never above a waiting, running or failed one |
| `ShutdownRuns.InvokedIff` | packages/core/src/ShutdownManager.ts:195-198 | a hook has been invoked exactly when its module was started and no hook before it threw at once |
| `ShutdownRuns.HooksStartInOrder` | packages/core/src/ShutdownManager.ts:195-198 | hooks of one module are invoked in the order of their registration |
| `ShutdownRuns.NeverStuck` | packages/core/src/ShutdownManager.ts:184-203 | no deadlock: while a module is unsettled a hook is running or the scheduler has a step to take |
| `ShutdownRuns.SchedulesAreFinite` | packages/core/src/ShutdownManager.ts:184-203 | every schedule is shorter than a bound computed from its first state |
| `ShutdownRuns.FinishedRun` | packages/core/src/ShutdownManager.ts:150-203 | when nothing is left to do, a module failed exactly when a hook of its own or below it threw; otherwise all its hooks were invoked exactly once and are done |
| `ShutdownRuns.SettlementsAreFinal` | packages/core/src/ShutdownManager.ts:186-202 | a settled module keeps its settlement in every continuation |
| `FileProtos.CollectFileProtos` | packages/reflection/src/utils.ts:19-42 | emits exactly the files reachable from the requested ones, each once, and on acyclic imports every file after all it imports |
| `EventBuses.PublishAndStopAreSafe` | packages/events/src/EventBus.ts:266-329 | in every run in which no `start` is accepted while a stop body is still running: a publish is accepted only while connected and neither starting nor stopping, and `stop` disconnects only when every admitted handler has settled |
| `EventBuses.EarlyStartIsUnsafe` | packages/events/src/EventBus.ts:119-121 | and only in those: from any `start` accepted beside a running stop body, the adapter's success alone leads to an unsafe state |
| `EventBuses.CalmIffStartsAreSafe` | packages/events/src/EventBus.ts:119-121 | a run is of that kind exactly when every `start` accepted in it leads to a safe state if the adapter succeeds |
| `EventBuses.GuardedKeeps` | packages/events/src/EventBus.ts:266-281 | runs with at most one stop body at a time are of that kind |
| `BusProgress.StartSucceeds` | packages/events/src/EventBus.ts:118-263 | in every run: where a `start` is accepted and the adapter connects and subscribes, the bus ends up started, connected and accepting publishes, and the stops that waited go on |
| `BusProgress.StartFails` | packages/events/src/EventBus.ts:252-260 | in every run: a failure, wherever a pending `start` waits, takes it to its end, not started and disconnected |
| `BusProgress.StartIsAcceptedIff` | packages/events/src/EventBus.ts:119-123 | a `start` is accepted exactly when the bus is neither started nor starting nor stopping |
| `BusProgress.StopStops` | packages/events/src/EventBus.ts:266-281 | in every run: a `stop` of a bus that accepts publishes begins to stop it at once: nothing accepted, draining, one more body; one issued during a `start` waits; any other changes nothing |
| `BusProgress.WaitingStopStops` | packages/events/src/EventBus.ts:270-281 | a `stop` that waited for `start` stops the bus if that succeeded and else does nothing |
| `BusProgress.StoppingLasts` | packages/events/src/EventBus.ts:278-320 | in guarded runs this lasts until the disconnect of that body is done |
| `BusProgress.StopIsNeverStuck` | packages/events/src/EventBus.ts:281-320 | in every run: while a stop body runs, an answer of the adapter or of a handler that it gets ahead with is due |
| `BusProgress.AnswersAreFinite` | packages/events/src/EventBus.ts:281-320 | in guarded runs such answers alone cannot go on for ever |
| `BusProgress.StopCanFinish` | packages/events/src/EventBus.ts:281-320 | in guarded runs: from every point at which the bus is stopping they lead to a bus that is stopped and disconnected, with no handler running |
| `BusProgress.UnsubscribedGoesOn` | packages/events/src/EventBus.ts:284-309 | after unsubscribing a body disconnects if nothing is tracked, drains if there is a drain timeout, and else aborts |
| `BusProgress.DrainGoesOn` | packages/events/src/EventBus.ts:291-309 | a draining body goes on when all it waited for have settled or its time is up, and aborts only in the second case |
| `BusProgress.NoAbortBeforeItsTime` | packages/events/src/EventBus.ts:288-306 | in every run of a bus with a drain timeout no handler is aborted before the time of some drain was up |
| `BusProgress.DeliveryIsAdmittedIff` | packages/events/src/EventBus.ts:191-238 | in calm runs a delivery is admitted and tracked exactly when it is routed and no stop body runs |
| `BusProgress.PublishIsAcceptedIff` | packages/events/src/EventBus.ts:326-329 | in calm runs publishes are accepted exactly while the bus is connected, not starting, and no stop body runs |
| `EventBuses.DrainAdmitsNothing` | packages/events/src/EventBus.ts:196-200 | in every run, over any stretch of it that is draining, no handler is admitted and the tracked set only shrinks |
| `EventBuses.FailedStartIsRestartable` | packages/events/src/EventBus.ts:252-260 | after a failing `start` no flag is set, no subscription is left, the adapter is disconnected, a new `start` is accepted and waiting stops find nothing to stop |
| `EventBuses.StoppedIsRestartable` | packages/events/src/EventBus.ts:311-320 | the same after a completed `stop`, with no handler running |
| `EventBuses.OneBodyIffGuarded` | packages/events/src/EventBus.ts:266-281 | two stop bodies never run at once exactly in the runs where no waiting `stop` goes on beside a running body |
| `EventBuses.OneStopAtATimeIsGuarded` | packages/events/src/EventBus.ts:266-276 | a caller that issues no `stop` while an earlier one waits for `start` stays within those runs |
| `EventBuses.TwoStopsDuringStartOverlap` | packages/events/src/EventBus.ts:267-285 | the concrete failing run, of a bus with topics: two stops during one start both begin a body; the second outlives the first, drops the subscription of the restarted bus and disconnects the adapter, still connected, under a running handler while publishes are accepted |
| `AmqpConfirms.UnroutableIffReturnedThenAcked` | packages/events-amqp/src/AmqpAdapter.ts:843-867 | with header correlation, in every run: a publish is unroutable exactly when at some step the broker acked it unsettled after returning this very message, and resolved exactly when it acked it unsettled without returning it |
| `AmqpConfirms.OutcomeIffAnswer` | packages/events-amqp/src/AmqpAdapter.ts:843-867 | in every run of either mode: a publish is resolved, unroutable or nacked exactly when at some step the broker answered so while it was unsettled |
| `AmqpConfirms.OutcomesFollowCauses` | packages/events-amqp/src/AmqpAdapter.ts:818-884 | in every run each settled publish ended as its cause demands: ack, nack, channel close, timer, failed write or refusal |
| `AmqpRuns.PublishAtItsStep` | packages/events-amqp/src/AmqpAdapter.ts:752-893 | every call of `publish` at its own step, in both modes: refused exactly without a channel or while closing; else captured on the current channel, last in the queue and unsent exactly if mandatory in single-flight mode, else sent, with its confirm outstanding and registered for a return if mandatory, or failed if the write threw |
| `AmqpRuns.RefusedIff` | packages/events-amqp/src/AmqpAdapter.ts:753-756 | over every run a publish was refused exactly when at its own call there was no channel or the adapter was closing, both read off the history |
| `AmqpRuns.SignalsFollowHistory` | packages/events-amqp/src/AmqpAdapter.ts:271-410 | channel, closing flag and closed channels are what the history of the run says |
| `AmqpRuns.TurnAtItsStep` | packages/events-amqp/src/AmqpAdapter.ts:887-892 | a queued publish is sent at its turn, on the channel of its own call |
| `AmqpRuns.QueueIsInOrder` | packages/events-amqp/src/AmqpAdapter.ts:890-891 | the queue is first in, first out |
| `AmqpRuns.CauseIffMoment` | packages/events-amqp/src/AmqpAdapter.ts:752-893 | over every run of either mode a publish is settled for a cause exactly when some step was that cause: its call refused, its write threw, the broker acked or nacked it unsettled, its channel closed with its confirm outstanding, or its timer |
| `AmqpRuns.WriteFailureIff` | packages/events-amqp/src/AmqpAdapter.ts:869-872 | a publish that is sent at once failed in writing exactly when the write threw |
| `AmqpRuns.AckResolves` | packages/events-amqp/src/AmqpAdapter.ts:843-866 | from any point with a live channel, in both modes, a publish sent at once is resolved by an ack alone |
| `AmqpRuns.ReturnThenAckIsUnroutable` | packages/events-amqp/src/AmqpAdapter.ts:388-396 | in header mode a mandatory one is made unroutable by its return and an ack |
| `AmqpRuns.SingleFlightGoesEitherWay` | packages/events-amqp/src/AmqpAdapter.ts:397-401 | in single-flight mode the head of an idle queue is sent and goes either way |
| `AmqpRuns.FirstChannelIsEnough` | packages/events-amqp/src/AmqpAdapter.ts:381-411 | such a point is reached as soon as the first channel is ready |
| `AmqpConfirms.AtMostOnePending` | packages/events-amqp/src/AmqpAdapter.ts:887-893 | in single-flight mode at most one publish is registered for a return, the head of the queue |
| `AmqpConfirms.MisdirectedIffLateReturn` | packages/events-amqp/src/AmqpAdapter.ts:397-401 | in single-flight mode a return was charged to a publish exactly when the return of another one, which had timed out, came in while it was pending and unsettled |
| `AmqpConfirms.SingleFlightJudgement` | packages/events-amqp/src/AmqpAdapter.ts:397-401 | for every single-flight run and every acked publish: it is judged by its own return exactly when it was returned itself or no such late return came in |
| `AmqpConfirms.SingleFlightCorrelates` | packages/events-amqp/src/AmqpAdapter.ts:397-401 | in particular on runs in which no mandatory publish timed out |
| `AmqpConfirms.LateReturnIsMisdirected` | packages/events-amqp/src/AmqpAdapter.ts:397-401 | the concrete failing run: the late return of a timed-out publish makes the next, routed, publish unroutable |
| `AmqpConfirms.SettlementIsFinal` | packages/events-amqp/src/AmqpAdapter.ts:826-833 | outcome and cause of a settled publish are the same in every continuation of every run |
| `AmqpConfirms.QuietMeansSettled` | packages/events-amqp/src/AmqpAdapter.ts:818-893 | in every run, where the client has no step of its own left every publish is settled and its `finally` has run |
| `AmqpConfirms.OwnStepsAreFinite` | packages/events-amqp/src/AmqpAdapter.ts:818-893 | the client's own steps (timers, `finally` blocks, queue) cannot go on for ever without the outside |
| `AmqpConfirms.WorkIsBounded` | packages/events-amqp/src/AmqpAdapter.ts:818-893 | there are at most three of them for each publish |
| `AmqpConfirms.EveryPublishCanSettle` | packages/events-amqp/src/AmqpAdapter.ts:835-841 | from any point the client's own steps are enough to settle any given publish |
| `AmqpConfirms.CloseIsNeverANack` | packages/events-amqp/src/AmqpAdapter.ts:119-123 | a confirm failed by a closing channel ends as a lost connection, whatever the error text |
| `AmqpConfirms.DrainBeforeMarkWouldNack` | packages/events-amqp/src/AmqpAdapter.ts:108-123 | without the prepended listener the same error on a current channel would read as a broker nack |
| `AmqpConfirms.NackedOnlyByTheBroker` | packages/events-amqp/src/AmqpAdapter.ts:843-861 | in every run a publish is reported as nacked exactly when at some step the broker nacked it while it was unsettled, on an open channel that was the current one, with the adapter not closing and no close-like error text |
| `AmqpConfirms.StepNacks` | packages/events-amqp/src/AmqpAdapter.ts:90-102 | a step makes a publish nacked exactly when it is such a nack |
| `AmqpConfirms.ConnectionLostTexts` | packages/events-amqp/src/AmqpAdapter.ts:76-78 | the text fallback holds for exactly the error objects whose message has one of three texts in it, in any case of letters |
| `Globs.GlobMatch` | packages/core/src/enabledServices.ts:36-55 | the greedy leftmost scan between the anchors decides exactly the declarative glob relation, for every pattern and name |
| `Globs.IndexOf` | packages/core/src/enabledServices.ts:50 | the leftmost occurrence at or after a position, or that there is none |
| `Globs.MeaningIsPlacement` | packages/core/src/enabledServices.ts:37-48 | a name matches exactly when the segments between the stars can be placed in it in order, first and last anchored |
| `Globs.LeftmostIsEnough` | packages/core/src/enabledServices.ts:48-53 | taking a segment at its leftmost occurrence loses no match |
| `Globs.ScatteredIsFits` | packages/core/src/enabledServices.ts:40-54 | anchoring the last segment at the end and fitting the others before it is the same as placing them all |
| `Globs.MatchServicesPattern` | packages/core/src/enabledServices.ts:31-33 | keeps exactly the matching names, in order |
| `Topics.MatchPattern` | packages/events/src/wildcard.ts:27-62 | the segment loop decides the meaning of a topic pattern, for every pattern, well-formed or not, and every topic |
| `Topics.LiteralMeaning` | packages/events/src/wildcard.ts:28-31 | the fast path for literal patterns agrees with that meaning |
| `Topics.RegexTextReadsBack` | packages/events-kafka/src/KafkaAdapter.ts:51-57 | the text built by the three replacements reads as one piece per pattern character, so escaping and the order of replacements are right |
| `Topics.EscapedAreSyntax` | packages/events-kafka/src/KafkaAdapter.ts:53 | the escaped characters are all the syntax characters of a regular expression but the star, which is replaced |
| `Topics.AtomsDecideSegments` | packages/events-kafka/src/KafkaAdapter.ts:51-57 | on well-formed patterns that expression accepts what the pattern means, with no empty segment under `*` and no line end under `>` |
| `Topics.KafkaIsAtoms` | packages/events-kafka/src/KafkaAdapter.ts:42-58 | for every pattern that is not too long, well-formed or not, what Kafka accepts, piece by piece |
| `Topics.KafkaExact` | packages/events-kafka/src/KafkaAdapter.ts:42-58 | for every well-formed pattern and every topic, Kafka accepts exactly what the pattern means, with no empty segment under `*` and no line end under `>`, if the pattern is at most 256 characters long |
| `Topics.KafkaExactIff` | packages/events-kafka/src/KafkaAdapter.ts:42-58 | for a pattern that is not too long that holds on every topic exactly when the pattern is well-formed |
| `Topics.KafkaAgrees` | packages/events-kafka/src/KafkaAdapter.ts:42-58 | for a well-formed pattern, on topics without empty segments and line ends Kafka accepts exactly what the bus routes |
| `Topics.KafkaAgreesIff` | packages/events-kafka/src/KafkaAdapter.ts:42-58 | for a pattern without empty segments and line ends that holds on all such topics exactly when the pattern is well-formed |
| `Topics.SplitCommutes` | packages/events-amqp/src/AmqpAdapter.ts:53-55 | replacing characters other than dots, such as `>` by `#`, and splitting commute |
| `Topics.AmqpExact` | packages/events-amqp/src/AmqpAdapter.ts:53-55 | under section 3.1.3.3 of AMQP 0-9-1, for every pattern whose `>` is only the last segment and in which no segment is `#`: exactly the non-empty topics the pattern means are delivered and, for a trailing `>`, the one that equals the pattern without it; the empty topic for the patterns "" and ">" only |
| `Topics.AmqpExactIff` | packages/events-amqp/src/AmqpAdapter.ts:53-55 | of all patterns, that holds on every non-empty topic for exactly those |
| `Strings.JoinSplit` | packages/events/src/wildcard.ts:33-34 | joining the parts of a split gives the string back, and no part holds a separator |
| `Strings.SplitJoin` | packages/auth/src/headers.ts:52 | parts without the separator survive join and split |
| `StreamBridges.NothingIsLost` | packages/core/src/streamBridge.ts:33-80 | in every interleaving, what was yielded followed by the buffer is what was pushed before the first close or fail |
| `StreamBridges.DrainedBeforeTheEnd` | packages/core/src/streamBridge.ts:50-55 | a consumer ends or throws only with every accepted value delivered, and throws the first failure |
| `StreamBridges.EndsOrThrows` | packages/core/src/streamBridge.ts:54-55 | it throws exactly when a failure came before that moment, and then the first one |
| `StreamBridges.NoLostWakeUp` | packages/core/src/streamBridge.ts:39-45 | while the only consumer waits, the buffer is empty, nothing was closed or failed, and the next wake is its own |
| `StreamBridges.NoWaitIsLostIff` | packages/core/src/streamBridge.ts:39-58 | for every run and any number of consumers: every waiting consumer is the next to be woken, at every moment, exactly when no consumer begins to wait while another one is waiting |
| `StreamBridges.TwoConsumersLoseAWakeUp` | packages/core/src/streamBridge.ts:56-58 | a concrete run with two consumers in which one waits for ever after a close |
| `StreamBridges.TurnTakesTheNext` | packages/core/src/streamBridge.ts:48-59 | in every run, open, closed or failed, for any of its consumers: a turn hands out the next accepted value if one is left; else it throws the first failure, ends if the queue was closed, and else waits |
| `StreamBridges.WaitingIsWoken` | packages/core/src/streamBridge.ts:39-45 | a push, a close and a failure each wake the waiting consumer |
| `StreamBridges.EverythingArrives` | packages/core/src/streamBridge.ts:48-61 | from any point of any run the only consumer, asking often enough, receives everything accepted and then throws, ends or waits |
| `LruCaches.OrderIsRecency` | packages/auth/src/cache.ts:35-37 | over every history of reads, writes and clears, map order is order of last use |
| `LruCaches.SizeIsBounded` | packages/auth/src/cache.ts:45-51 | the cache never holds more than max(1, maxSize) entries |
| `LruCaches.OverLimitIffBelowOne` | packages/auth/src/cache.ts:45-56 | after a `set` the cache is over `maxSize` exactly when that is below one; the new entry always stays |
| `LruCaches.HitsAreFresh` | packages/auth/src/cache.ts:26-39 | a hit returns the value of the latest `set` of the key, strictly before that set's time plus the time to live |
| `LruCaches.RecentKeysStay` | packages/auth/src/cache.ts:45-51 | a key that was not dropped is kept while fewer other keys than the capacity were used since |
| `LruCaches.KeepsExactly` | packages/auth/src/cache.ts:26-57 | over every history: the kept keys are exactly those in use for which, at each moment since their last use, fewer other keys than the capacity had been used since and were in use themselves |
| `LruCaches.KeepsTheMostRecent` | packages/auth/src/cache.ts:41-57 | while nothing expired or was cleared, those are the keys used with fewer other keys than the capacity used since |
| `LruCaches.HitsExactly` | packages/auth/src/cache.ts:26-39 | over every history: a read hits exactly when the key is kept as above and was set freshly enough |
| `LruCaches.Create` | packages/auth/src/cache.ts:18-24 | a range error exactly when the time to live is not positive; the size defaults to 1000 |
| `AuthHeaders.SanitizeCleans` | packages/auth/src/headers.ts:19-24 | the result is free of control characters and within the limit, and exactly such values are left alone |
| `AuthHeaders.ControlCodePoints` | packages/auth/src/headers.ts:22 | the control characters, by their code points |
| `AuthHeaders.CleaningIsLocal` | packages/auth/src/headers.ts:22 | cleaning works character by character and keeps the order |
| `AuthHeaders.SanitizeIsFront` | packages/auth/src/headers.ts:23 | sanitizing keeps the front of the cleaned value, as much of it as is allowed |
| `AuthHeaders.SanitizeIsIdempotent` | packages/auth/src/headers.ts:19-24 | sanitizing twice is sanitizing once |
| `AuthHeaders.ScopesReadBack` | packages/auth/src/headers.ts:117-120 | scopes arrive as non-empty words within the bound, unchanged exactly when they were such |
| `AuthHeaders.ArrivesIffSubject` | packages/auth/src/headers.ts:92-98 | a context arrives exactly when its subject holds a character that is not a control character |
| `AuthHeaders.UnchangedIffInBounds` | packages/auth/src/headers.ts:36-150 | a context sent in fresh headers arrives unchanged exactly when it is within bounds |
| `AuthHeaders.ClaimsThatArrive` | packages/auth/src/headers.ts:58-67 | the claims that arrive are those of the context with a key in the list, all of them without a list, with their values, if their text fits, and else none |
| `AuthHeaders.PartsThatArrive` | packages/auth/src/headers.ts:36-56 | what arrives of every other part: sanitized, dropped where it does not fit, and defaulted |
| `AuthHeaders.SecondHopChangesNothing` | packages/auth/src/headers.ts:36-150 | what arrived arrives again unchanged: parse after set is idempotent |
| `AuthHeaders.OldHeadersShowThrough` | packages/auth/src/headers.ts:36-68 | on headers that are not fresh the result is the same exactly when each header not written reads as absent |
| `AuthHeaders.ForeignHeaders` | packages/auth/src/headers.ts:105-140 | from headers that others wrote: roles from a JSON array only, claims from a JSON object only, neither from a text that is too long |
| `AuthHeaders.PickingIsLocal` | packages/auth/src/headers.ts:109-111 | the strings of a JSON array are picked item by item, in order |
| `AuthHeaders.OtherHeadersStay` | packages/auth/src/headers.ts:36-68 | headers of other names stay as they were |
| `AuthHeaders.SetAuthHeaders` | packages/auth/src/headers.ts:36-68 | writes the printed values into the headers and leaves the others alone |
| `AuthHeaders.ParseAuthHeaders` | packages/auth/src/headers.ts:92-150 | reads each header with its default, or nothing without a subject |
| `Cidr.PackedIsAddress` | packages/auth/src/gateway-auth-interceptor.ts:45-46 | signed shifts and ors of four valid octets, made unsigned, are the address in base 256 |
| `Cidr.MaskIsHighBits` | packages/auth/src/gateway-auth-interceptor.ts:47 | the mask is 2^32 - 2^(32-prefix), for prefix 0 to 32 |
| `Cidr.MaskNeedsItsZeroCase` | packages/auth/src/gateway-auth-interceptor.ts:47 | without the case of its own, prefix 0 would give a mask of ones |
| `Cidr.NetworkIsBlock` | packages/auth/src/gateway-auth-interceptor.ts:43-48 | the masked comparison holds exactly when both addresses have the same quotient by 2^(32-prefix) |
| `Cidr.LongerPrefixImpliesShorter` | packages/auth/src/gateway-auth-interceptor.ts:47-48 | a match under a longer prefix is one under every shorter prefix |
| `Cidr.NetworksNestOrAreDisjoint` | packages/auth/src/gateway-auth-interceptor.ts:47-48 | of two networks the one with the longer prefix lies within the other or apart from it |
| `Cidr.NetworkIsInterval` | packages/auth/src/gateway-auth-interceptor.ts:43-48 | the matched addresses are one block of 2^(32-prefix) numbers from an aligned base |
| `Cidr.NetworkIsWithinBounds` | packages/auth/src/gateway-auth-interceptor.ts:43-48 | that block lies within the address space |
| `Cidr.AddressesAreNumbers` | packages/auth/src/gateway-auth-interceptor.ts:43-46 | valid octets and numbers below 2^32 correspond one to one, so the block has that many addresses |
| `Cidr.PatternAdmitsBlock` | packages/auth/src/gateway-auth-interceptor.ts:31-52 | a pattern `network/prefix`, with or without a second slash, that names a network admits its own text and the addresses in the block, nothing else |
| `Cidr.OctetsSpelled` | packages/auth/src/gateway-auth-interceptor.ts:27-42 | exactly four numbers from 0 to 255 are an address |
| `Cidr.NoNetworkAdmitsItself` | packages/auth/src/gateway-auth-interceptor.ts:36-42 | any other pattern with a slash (an empty part, an invalid octet, a prefix that is no number from 0 to 32) admits only its own text |
| `Cidr.EveryPatternIsCovered` | packages/auth/src/gateway-auth-interceptor.ts:32-51 | every pattern has one of these two forms, or no slash and admits only its own text |
| `Cidr.IsTrusted` | packages/auth/src/gateway-auth-interceptor.ts:59-65 | a header is trusted exactly when some expected value equals it or contains it |
| `Deliveries.Delivery.Dispatch` | packages/events/src/middleware.ts:38-66 | the imperative dispatcher, with `index` and `currentEvent` as fields, computes the transition function; the only other effect is the log |
| `Deliveries.Delivery.Next` | packages/events/src/middleware.ts:54-59 | `next(updated)` replaces the current event, then dispatches one layer further in |
| `Deliveries.Delivery.RunCustom` | packages/events/src/middleware.ts:60 | a middleware of arbitrary sequential behaviour runs as the transition function says |
| `Deliveries.Delivery.SettleContext` | packages/events/src/EventContext.ts:29-39 | the first `ack`/`nack` of a context reaches the broker, every later one resolves without effect |
| `Deliveries.Delivery.RunHandler` | packages/events/src/EventBus.ts:167-170 | one run of the handler: its context calls in order, then its result |
| `Deliveries.Delivery.RunRetry` | packages/events/src/middleware/retry.ts:56-119 | the retry loop with its mutable `attempt` and `lastError` computes the recursive retry course |
| `Deliveries.Delivery.RunDlq` | packages/events/src/middleware/dlq.ts:32-57 | publish to the dead-letter topic, then ack; nack without requeue when either fails; rethrow on the dead-letter topic itself |
| `Deliveries.Delivery.Deliver` | packages/events/src/EventBus.ts:180-244 | the delivery callback: ack when unrouted, nack with requeue when draining, else the pipeline and the auto-ack past the context |
| `ShutdownManagers.ShutdownManager.constructor` | packages/core/src/ShutdownManager.ts:60-62 | a new manager has no modules, hooks or edges |
| `ShutdownManagers.ShutdownManager.AddHook` | packages/core/src/ShutdownManager.ts:103-141 | throws exactly when a new edge would close a cycle, and then no edge and no hook changes; otherwise adds the edges and the hook; the graph stays acyclic either way |
| `ShutdownManagers.ShutdownManager.ExecuteModule` | packages/core/src/ShutdownManager.ts:184-203 | the synchronous part of a module enters each reachable module body once, although the memo is written only after the recursion |
| `ShutdownManagers.ShutdownManager.ExecuteAll` | packages/core/src/ShutdownManager.ts:150-156 | every module reachable from a registered one is launched exactly once, none other, and the asynchronous part starts in an initial state of the step system |
| `FileProtos.Collector.Visit` | packages/reflection/src/utils.ts:23-35 | the recursive visit adds exactly unvisited files reachable from its argument and terminates on cyclic imports |
| `EventBuses.EventBus.constructor` | packages/events/src/EventBus.ts:75-87 | a new bus is in the initial state of the step system |
| `EventBuses.EventBus.Start` | packages/events/src/EventBus.ts:118-123 | refused unless idle, else connecting |
| `EventBuses.EventBus.OnConnected` | packages/events/src/EventBus.ts:131-178 | after the connect: failure of topic resolution, subscribing, or started |
| `EventBuses.EventBus.OnSubscribed` | packages/events/src/EventBus.ts:248-260 | the subscription is recorded, the bus is started, waiting stops are released |
| `EventBuses.EventBus.OnStartRejected` | packages/events/src/EventBus.ts:252-253 | a rejected connect or subscribe leads to the clean-up |
| `EventBuses.EventBus.OnCleanedUp` | packages/events/src/EventBus.ts:253-255 | subscriptions are dropped before the adapter disconnects |
| `EventBuses.EventBus.OnStartDisconnected` | packages/events/src/EventBus.ts:255-260 | the failing start ends and releases waiting stops |
| `EventBuses.EventBus.Stop` | packages/events/src/EventBus.ts:266-281 | joins a running stop, waits for a pending start, ignores a bus that is not started, else begins to drain |
| `EventBuses.EventBus.OnWaiterResumes` | packages/events/src/EventBus.ts:271-281 | a stop that waited for start looks at `started` again, not at a running stop |
| `EventBuses.EventBus.OnUnsubscribed` | packages/events/src/EventBus.ts:284-309 | after unsubscribing: drain, abort or disconnect, by what is in flight |
| `EventBuses.EventBus.OnDrainWakes` | packages/events/src/EventBus.ts:291-309 | the drain loop wakes on settled handlers or at the deadline and goes on accordingly |
| `EventBuses.EventBus.OnAbortSettled` | packages/events/src/EventBus.ts:305-312 | after the abort window the tracked set is cleared and the adapter disconnects |
| `EventBuses.EventBus.OnStopDisconnected` | packages/events/src/EventBus.ts:313-320 | all flags drop |
| `EventBuses.EventBus.OnDelivery` | packages/events/src/EventBus.ts:180-238 | admits a routed delivery unless draining, and tracks it |
| `EventBuses.EventBus.OnHandlerSettled` | packages/events/src/EventBus.ts:222-237 | a handler promise settles |
| `EventBuses.EventBus.OnHandlerRemoved` | packages/events/src/EventBus.ts:239-243 | a settled handler leaves the tracked set |
| `EventBuses.EventBus.Publish` | packages/events/src/EventBus.ts:326-329 | the gate: accepted exactly when started and not stopping |
| `AmqpPublishers.Publisher.constructor` | packages/events-amqp/src/AmqpAdapter.ts:271-287 | a new publisher is in the initial state of the step system |
| `AmqpPublishers.Publisher.SettlePromise` | packages/events-amqp/src/AmqpAdapter.ts:826-833 | settles once |
| `AmqpPublishers.Publisher.DoPublish` | packages/events-amqp/src/AmqpAdapter.ts:818-876 | registers for a return if mandatory, writes, and a throwing write rejects as a lost connection |
| `AmqpPublishers.Publisher.Publish` | packages/events-amqp/src/AmqpAdapter.ts:752-756 | refused without a channel or while closing; queued in single-flight mode if mandatory, else sent at once |
| `AmqpPublishers.Publisher.OnTurn` | packages/events-amqp/src/AmqpAdapter.ts:887-892 | the head of the single-flight queue is sent |
| `AmqpPublishers.Publisher.OnReturn` | packages/events-amqp/src/AmqpAdapter.ts:388-402 | marks the publish named by the header, or without it every pending one |
| `AmqpPublishers.Publisher.MarkPending` | packages/events-amqp/src/AmqpAdapter.ts:397-401 | marks exactly the pending publishes |
| `AmqpPublishers.Publisher.OnConfirm` | packages/events-amqp/src/AmqpAdapter.ts:843-867 | an error is classified, an ack of a returned message is unroutable, any other ack resolves |
| `AmqpPublishers.Publisher.OnChannelClose` | packages/events-amqp/src/AmqpAdapter.ts:119-123 | the channel is marked first, then every outstanding confirm on it fails |
| `AmqpPublishers.Publisher.FailConfirms` | packages/events-amqp/src/AmqpAdapter.ts:113-117 | fails exactly the outstanding confirms of that channel |
| `AmqpPublishers.Publisher.OnTimeout` | packages/events-amqp/src/AmqpAdapter.ts:835-841 | the timer settles an unsettled publish as timed out |
| `AmqpPublishers.Publisher.OnFinally` | packages/events-amqp/src/AmqpAdapter.ts:878-893 | the return record goes and the single-flight queue moves on |
| `AmqpPublishers.Publisher.FailPendingReturns` | packages/events-amqp/src/AmqpAdapter.ts:373-375 | all return records go, whatever the state; where the connection life cycle calls it, with no live channel, this is the step of the model |
| `AmqpPublishers.Publisher.SetupPublishChannel` | packages/events-amqp/src/AmqpAdapter.ts:381-411 | a new channel becomes the publish channel |
| `AmqpPublishers.Publisher.ClearPublishChannel` | packages/events-amqp/src/AmqpAdapter.ts:160-170 | no publish channel while recovering |
| `AmqpPublishers.Publisher.MarkClosing` | packages/events-amqp/src/AmqpAdapter.ts:594 | `connect` clears the flag, `disconnect` sets it |
| `StreamBridges.InputQueue.Wake` | packages/core/src/streamBridge.ts:39-45 | resumes the waiting consumer once |
| `StreamBridges.InputQueue.Push` | packages/core/src/streamBridge.ts:64-68 | ignored after a close or failure, else buffered, and the consumer is woken |
| `StreamBridges.InputQueue.Close` | packages/core/src/streamBridge.ts:69-72 | closes and wakes |
| `StreamBridges.InputQueue.Fail` | packages/core/src/streamBridge.ts:73-77 | keeps the first failure, closes and wakes |
| `StreamBridges.InputQueue.Iterate` | packages/core/src/streamBridge.ts:47-48 | a new consumer |
| `StreamBridges.InputQueue.Advance` | packages/core/src/streamBridge.ts:49-59 | one turn of the consumer's loop: yield, throw, end or wait, in that order |
| `LruCaches.LruCache.Get` | packages/auth/src/cache.ts:26-39 | a miss, a deletion of an expired entry, or a hit that moves the key to the end |
| `LruCaches.LruCache.Set` | packages/auth/src/cache.ts:41-57 | deletes the key, evicts the first entry at capacity, appends the key |
| `LruCaches.LruCache.Clear` | packages/auth/src/cache.ts:59-61 | empties the cache |

## Left out

- Un-awaited or concurrent `next()` calls, and `ctx.ack`/`ctx.nack` after the handler has returned: the pipeline
  model runs each middleware and handler sequentially.
- Which handler a topic is routed to: whether a delivery is routed is a parameter of `Deliver`; the matcher used for it
  is `Topics.MatchPattern`.
- Middleware that never returns: a strategy is cut off after an arbitrary but finite number of awaits.
- Per-event abort signals as such: each look at a signal and each wait asks the environment, which may answer anything.
- Retry limits that are not integers; floating-point rounding of back-off delays, which are real numbers here.
- What a timer makes of a negative delay: back-off is added up as computed.
- Hooks that call `executeAll` or `addHook` during a run, and overlapping runs of `executeAll`.
- The moment at which a module without dependencies starts its hooks: the code does so inside the synchronous stretch,
  the model as a first step in any order, which admits every order of the code and more.
- The adapter behind the bus: it is assumed to deliver only between a successful connect and the end of a disconnect,
  and a rejected disconnect counts as a disconnect.
- The time limit of the drain is an `expired` wake-up that may come at any time.
- Topic resolution, strict topics and message serialization of `publish`.
- The AMQP broker: a return is assumed to precede the confirm of the same message, a channel that is gone delivers
  nothing, and return records are cleared only when no channel is live. The last asks of callers that calls of
  `connect` and `disconnect` do not overlap: the set-up of a second connection clears the records while the channel of
  the first is live (`packages/events-amqp/src/AmqpAdapter.ts:576-577`).
- AMQP topology, startup probe, subscriptions and their recovery; the Kafka batch and offset loop; NATS and Redis.
- Encoding errors, headers and properties of a published message.
- Topics.KafkaExact: for well-formed patterns only, which `Topics.KafkaExactIff` shows to be all for which it holds;
  for the others `Topics.KafkaIsAtoms` says what Kafka accepts.
- Topics.KafkaAgrees: likewise, by `Topics.KafkaAgreesIff`.
- Topics.AmqpExact: for translatable patterns only, which `Topics.AmqpExactIff` shows to be all for which it holds.
- UTF-16 code units: a string is a sequence of characters, and letters of other alphabets have no lower case.
- Parsing and merging of service lists (`parseServicesEnv`, `mergeEnabledServices`): settled branch by branch.
- `singleInput`, and a consumer that abandons its iteration.
- LruCaches.Create: a time to live or size that is not a number is not modelled; sizes are integers.
- Names and values of request headers are not normalised as the platform does (case, surrounding white space, refused
  characters), and JSON keeps no order of members.
- Reading octets and prefixes from text: `Number` and `parseInt` are arbitrary functions.
- The interceptors around `isTrusted` and the auth headers, JWT and session verification, authorization tables.
- The server life cycle, health checks, catalog merging, code generation, telemetry and the circuit-breaking
  interceptors, whose state lives in other libraries.

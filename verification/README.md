# Nomad node termination handler — a Dafny model of the interruption-event pipeline

The handler watches an SQS queue of EventBridge notifications about EC2 instances. Each
notice becomes an *interruption event* in an in-memory event store. A background loop drains
the matching Nomad node once the event's start time, minus a grace period, has come. For an
autoscaling termination it then completes the lifecycle hook and deletes the queue message.

This project models the three parts of that pipeline as pure functions over immutable data:

- `EventStore` (EventStore.dfy) covers `Services/Store.cs`: the event map, the ignore set,
  the sticky "at least one event" flag, drain readiness, the first-ready query, marking a
  node's events processed, the uncordon decision, and the two counter-driven maintenance
  passes. The invariant `Valid` holds that every event is filed under its own id, both
  counters stay below their periods, and an unignored tracked event has set the flag. Every
  operation keeps it.
- `SqsMonitor` (SqsMonitor.dfy) covers the queue side of `Services/SqsMonitor.cs`:
  - the `NodeInfo` pieces of `GetNodeInfo`;
  - both event mappers, with the post-drain hook as data;
  - dispatch on the envelope source;
  - the wrapper rules that decide whether a message is deleted, handed to the store, or left
    for redelivery;
  - the whole-batch failure rule of `Monitor`;
  - the AWS calls the post-drain hook makes.
- `NomadDraining` (NomadDraining.dfy) covers `Services/NomadDrainingService.cs`. `Drain` is
  modelled as a trace of abstract actions plus the updated event. One step of the
  `ExecuteAsync` loop gets the active event, marks it in progress, then drains it.
- `Pipeline` (Pipeline.dfy) composes the three. Any interleaving of the monitor, the drain
  loop and the other store calls is a sequence of atomic operations. Over such runs it proves
  that an event is drained at most once while its id stays tracked, that redelivery within
  one batch is idempotent, and the autoscaling path end to end. It also shows that a notice
  redelivered after garbage collection is drained a second time.
- `Models` (Models.dfy) holds the shared data: the event, the Nomad node, the hook variant,
  and `Option`/`Result`. `None` plays the part of C# null and `Failure` that of a thrown
  exception. `Text` (Text.dfy) holds the ASCII case mapping used by the case-insensitive
  state match.

How the model represents the parts of the system it cannot observe:

- The wall clock is a parameter `now`, in DateTime ticks of 100 ns.
- The grace period is a parameter `grace`, in seconds. Its configured default is 60
  (`Configuration/Settings.cs:5`).
- Dictionary enumeration order is a parameter `order`: a sequence of keys.
- JSON decoding, `DescribeInstances` and `nomad node status -json` are inputs. Their
  results are given as values, with `None` or `Failure` when the call threw.

Behaviour of the code worth knowing:

- **EC2 notices are dropped.** The `"aws.ec2"` branch of `ProcessEventBridgeEvent` is empty
  (`SqsMonitor.cs:157-159`). An EC2 state-change message is deleted untracked, and
  `Ec2StateChangeToInterruptionEvent` is never called. The mapper is still modelled, and
  `Pipeline.Ec2MessagesDroppedUntracked` states the drop.
- **The store does not claim events.** `GetActiveEvent` returns an event without claiming
  it. The drain loop sets `InProgress` afterwards, outside the store's lock
  (`NomadDrainingService.cs:50`).
- **A fully failed batch only backs off.** The "none of the waiting queue events could be
  processed" exception is caught by the loop's own handler (`SqsMonitor.cs:89-96`). Its only
  effect is the same one-second back-off as a failed receive.
- **Events are due before their start time.** An event may be drained from `StartTime −
  grace` on, which is before its start time, not after the grace period has passed. An event
  whose start time is `now + grace − 1s` is therefore ready at once.
- **State-change events never drain a node.** `Ec2StateChangeToInterruptionEvent` sets no
  `PrivateIpAddress`. Even if it were called, its events would never reach Nomad
  (`Pipeline.StateChangeEventsNeverReachNomad`).

## Model

| member | source | states |
|---|---|---|
| `EventStore.NewStore` | src/Nomad.NodeTermHandler/Services/Store.cs:19-26 | A new store tracks nothing and ignores nothing. The flag is unset and the store is valid. |
| `EventStore.CancelInterruptionEvent` | src/Nomad.NodeTermHandler/Services/Store.cs:28-34 | The id is no longer tracked. Every other id keeps its entry unchanged, and nothing else in the store changes. |
| `EventStore.AddInterruptionEvent` | src/Nomad.NodeTermHandler/Services/Store.cs:36-53 | **Known id:** the store is unchanged. **New id:** exactly that entry is inserted, and the flag becomes true iff the id is not ignored. The flag is never reset. |
| `EventStore.AddIsIdempotent` | src/Nomad.NodeTermHandler/Services/Store.cs:38-43 | Adding a second event with an id already added leaves the store as the first add left it. |
| `EventStore.TimeUntilDrain` | src/Nomad.NodeTermHandler/Services/Store.cs:89-94 | The time left is zero or less exactly when `now` has reached the drain time, start time minus the grace period. |
| `EventStore.TimeUntilDrainAsWritten` | src/Nomad.NodeTermHandler/Services/Store.cs:89-94 | `DateTime.Add` fails exactly when the drain time falls outside the DateTime range. Otherwise the result agrees with the unbounded computation. |
| `EventStore.ShouldEventDrainAsWritten` | src/Nomad.NodeTermHandler/Services/Store.cs:82-87 | Evaluation short-circuits, so it fails exactly for an unignored, unclaimed, unprocessed event whose drain time is out of range. When it succeeds it agrees with the readiness predicate. |
| `EventStore.ReadyExactlyFromDrainTime` | src/Nomad.NodeTermHandler/Services/Store.cs:82-94 | `ShouldEventDrain`: an unignored, unclaimed, unprocessed event is drain-ready iff `now` is at or past its drain time. Once ready it stays ready as time advances. |
| `EventStore.IgnoredNeverReady` | src/Nomad.NodeTermHandler/Services/Store.cs:84-86 | Once an id is ignored it is never drain-ready at any time. `GetActiveEvent` never returns it. |
| `EventStore.FirstReady` | src/Nomad.NodeTermHandler/Services/Store.cs:62-70 | No result iff no key in the enumeration is drain-ready. Otherwise the result is the event of the first drain-ready key in that order. |
| `EventStore.CleanPeriodically` | src/Nomad.NodeTermHandler/Services/Store.cs:149-177 | **Below 7200 calls:** only the counter moves. **On the 7200th call:** exactly the processed events are removed, survivors are unchanged, and the counter resets to 0. |
| `EventStore.CleaningOnlyDropsProcessed` | src/Nomad.NodeTermHandler/Services/Store.cs:160-173 | Any number of cleaning passes never adds or alters an event and never removes an unprocessed one. Before the period is reached the map is untouched. |
| `EventStore.CollectedWithinOnePeriod` | src/Nomad.NodeTermHandler/Services/Store.cs:153-175 | Once the calls reach the cleaning period, every processed event is gone. Every unprocessed event, however old, survives unchanged. |
| `EventStore.LogPeriodically` | src/Nomad.NodeTermHandler/Services/Store.cs:179-194 | Statistics are reported exactly on the 1800th call, which resets the counter. They give the store size and the drainable count, and that count is positive iff some event is ready. Events are never touched. |
| `EventStore.GetActiveEvent` | src/Nomad.NodeTermHandler/Services/Store.cs:55-72 | Any event returned is tracked and drain-ready. When the enumeration covers the keys, no event is returned iff none is ready. Only processed events are dropped, no flag changes, and validity is kept. |
| `EventStore.ShouldDrainAgreesWithGetActive` | src/Nomad.NodeTermHandler/Services/Store.cs:55-80 | `ShouldDrainNode` (Store.cs:74-80, some tracked event is drain-ready) holds iff `GetActiveEvent` returns an event. The cleaning pass inside the latter removes only events that were never ready. |
| `EventStore.MarkAllAsProcessed` | src/Nomad.NodeTermHandler/Services/Store.cs:96-108 | Exactly the node's events become processed. Keys, every other field and every other event stay as they were. |
| `EventStore.MarkedNodeNeverReady` | src/Nomad.NodeTermHandler/Services/Store.cs:100-106 | After marking, no event of that node is drain-ready at any time. |
| `EventStore.IgnoreEvent` | src/Nomad.NodeTermHandler/Services/Store.cs:110-121 | A null or empty id changes nothing. Any other id is added to the ignore set, which only grows, and nothing else changes. |
| `EventStore.ShouldUncordonNode` | src/Nomad.NodeTermHandler/Services/Store.cs:123-147 | False until an unignored event has been seen. After that, true for an empty store, and otherwise true iff no unignored tracked event names the node. |
| `EventStore.NewStoreNeverUncordons` | src/Nomad.NodeTermHandler/Services/Store.cs:127-130 | A store that has never seen an event never asks for an uncordon. |
| `EventStore.AddBlocksUncordon` | src/Nomad.NodeTermHandler/Services/Store.cs:137-143 | A newly tracked, unignored event blocks the uncordon of its node. |
| `Text.IgnoreCaseIsLowerEquality` | src/Nomad.NodeTermHandler/Services/SqsMonitor.cs:215 | Against a lower-case pattern, an ordinal ignore-case comparison equals exact comparison with the lower-cased input. |
| `SqsMonitor.FindTagValue` | src/Nomad.NodeTermHandler/Services/SqsMonitor.cs:360-364 | Returns the value of the first tag whose key matches, or null when no key matches. |
| `SqsMonitor.TagsToDictionary` | src/Nomad.NodeTermHandler/Services/SqsMonitor.cs:348 | Succeeds iff no key is null and no key repeats. The map then holds each tag's value under its key, and only those keys. |
| `SqsMonitor.FindTagValueAgreesWithDictionary` | src/Nomad.NodeTermHandler/Services/SqsMonitor.cs:343-348 | When the keys are usable, the first-match lookup and the dictionary agree on every key. |
| `SqsMonitor.ProviderIdRoundTrip` | src/Nomad.NodeTermHandler/Services/SqsMonitor.cs:345 | `ProviderId`: **unknown zone:** the provider id is empty. **Known zone without '/':** the id is `aws:///<zone>/<instance>`, and parsing it gives back the zone and the instance id. |
| `SqsMonitor.GetNodeInfo` | src/Nomad.NodeTermHandler/Services/SqsMonitor.cs:318-358 | **Fails:** when the call fails, no reservation or instance comes back, or the tags do not form a dictionary. **Otherwise:** the fields come from the first instance, and the group name is the group tag. The node is always managed, because the placeholder `CheckIfManaged` (lines 366-370) returns true. The provider id is `ProviderId` of the instance's zone and id, non-empty iff the zone is known. The tag map is the instance's tags as a dictionary. |
| `SqsMonitor.EventIdsIdentifyEnvelope` | src/Nomad.NodeTermHandler/Services/SqsMonitor.cs:258-260 | Each mapper's event id is determined by the printed envelope id, and equal ids come only from equal printed ids. Autoscaling ids never equal state-change ids (line 228). |
| `SqsMonitor.AsgTerminationToInterruptionEvent` | src/Nomad.NodeTermHandler/Services/SqsMonitor.cs:244-296 | **Fails:** iff the detail does not decode or the node lookup fails. **Otherwise:** id from the envelope id, start time from the envelope time, address and name from the node, no pre-drain task, and a post-drain task that completes this detail's lifecycle action and deletes this message. |
| `SqsMonitor.IsDrainStateIff` | src/Nomad.NodeTermHandler/Services/SqsMonitor.cs:214-218 | `IsDrainState`: a state triggers a drain iff its lower-cased form is stopping, stopped, shutting-down or terminated. |
| `SqsMonitor.Ec2StateChangeToInterruptionEvent` | src/Nomad.NodeTermHandler/Services/SqsMonitor.cs:210-241 | **No event:** iff the state is not a drain state. **Event:** for a drain state, one exists iff the node lookup succeeds. Its id and start time come from the envelope, with no hooks and no private address. |
| `SqsMonitor.ProcessEventBridgeEvent` | src/Nomad.NodeTermHandler/Services/SqsMonitor.cs:143-176 | **"aws.autoscaling":** exactly one wrapper, holding the event or the mapper's error. **"aws.ec2" and "aws.health":** none. **Any other source, null included:** one error wrapper. No wrapper holds both an event and an error. |
| `SqsMonitor.DropSuggestions` | src/Nomad.NodeTermHandler/Services/SqsMonitor.cs:112-115 | The count of empty wrappers equals the list length iff every wrapper is empty. |
| `SqsMonitor.FailedEvents` | src/Nomad.NodeTermHandler/Services/SqsMonitor.cs:107-111 | The count of error wrappers is positive iff some wrapper carries an error. |
| `SqsMonitor.HandledEvents` | src/Nomad.NodeTermHandler/Services/SqsMonitor.cs:116-119 | An event is handed to the interruption action iff some wrapper carries it with no error. |
| `SqsMonitor.HandledEventsAppend` | src/Nomad.NodeTermHandler/Services/SqsMonitor.cs:105-120 | Handling is a filter that keeps list order. The events of a concatenation are the first list's events followed by the second's. |
| `SqsMonitor.ProcessInterruptionEvents` | src/Nomad.NodeTermHandler/Services/SqsMonitor.cs:100-131 | Deletes the message iff every wrapper is empty, the empty list included. Throws iff some wrapper has an error. Never both. |
| `SqsMonitor.HandleMessage` | src/Nomad.NodeTermHandler/Services/SqsMonitor.cs:63-85 | An undecodable message fails, is not deleted and hands over nothing. A decoded message is deleted iff its source is "aws.ec2" or "aws.health". It fails iff its source is any other than those two and "aws.autoscaling", or it is an autoscaling notice whose mapper throws. It hands the store the autoscaling mapper's event when there is one, and nothing else. |
| `SqsMonitor.AddAll` | src/Nomad.NodeTermHandler/Services/SqsMonitor.cs:138-141 | Handing events to the store tracks every one of them. Existing entries and the ignore set are unchanged, and nothing else is added. |
| `SqsMonitor.AddAllTracked` | src/Nomad.NodeTermHandler/Services/Store.cs:40-43 | Handing over events whose ids are all tracked changes nothing. |
| `SqsMonitor.ProcessBatch` | src/Nomad.NodeTermHandler/Services/SqsMonitor.cs:62-85 | The deleted handles are exactly those of the messages whose outcome deletes them, one per such message, in batch order (`DeletedHandles`, `DeletedHandlesCons`). The store ends as if every message's handled events, concatenated in batch order, were added to it one by one. The failure count is the number of failing messages (`FailedMessages`): at most the batch size, and equal to it iff every message fails. Tracked events and the ignore set are kept. |
| `SqsMonitor.MonitorIteration` | src/Nomad.NodeTermHandler/Services/SqsMonitor.cs:53-98 | The "none processed" exception is raised iff the batch is non-empty and every message failed. The loop backs off iff that happens or the receive fails. A failed receive changes nothing. |
| `SqsMonitor.HookCalls` | src/Nomad.NodeTermHandler/Services/SqsMonitor.cs:273-293 | The post-drain task completes the lifecycle action with "CONTINUE" and the detail's group, hook, token and instance. It deletes the message by its receipt handle only if that call succeeded. |
| `NomadDraining.SelectNode` | src/Nomad.NodeTermHandler/Services/NomadDrainingService.cs:73 | The node chosen is the first whose address equals the event's. None is chosen iff no address matches. |
| `NomadDraining.NodeActions` | src/Nomad.NodeTermHandler/Services/NomadDrainingService.cs:67-92 | Nothing is listed or drained iff the address is null or empty. A drain command for an id is issued iff the first node at the address has that id and status "ready". There is at most one, and hooks never run here. |
| `NomadDraining.HooksAroundCommands` | src/Nomad.NodeTermHandler/Services/NomadDrainingService.cs:65-94 | Hook runs placed around the node commands add no drain command. They stay first and last, and nothing between them is a hook run. |
| `NomadDraining.Drain` | src/Nomad.NodeTermHandler/Services/NomadDrainingService.cs:63-96 | Order is pre-drain hook (line 65), node commands, then post-drain hook (line 94), each hook run only when the event has one, with at most one drain command. Without an address only the hooks run. The event is processed afterwards whichever branch ran. |
| `NomadDraining.DrainLoopStep` | src/Nomad.NodeTermHandler/Services/NomadDrainingService.cs:41-52 | **No active event:** no action. **Otherwise:** the ready event is marked in progress, then drained. The store holds it claimed and processed, and it is never ready again. Every other entry is unchanged. |
| `Pipeline.ProcessedStaysProcessed` | src/Nomad.NodeTermHandler/Services/NomadDrainingService.cs:94-95 | No operation un-processes an event, and no operation drains a processed one. |
| `Pipeline.ProcessedNeverDrainedAgain` | src/Nomad.NodeTermHandler/Services/NomadDrainingService.cs:43-51 | Over any run of operations, a processed event that stays tracked is never drained. |
| `Pipeline.DrainedAtMostOnce` | src/Nomad.NodeTermHandler/Services/NomadDrainingService.cs:41-52 | An event drained by one loop step is not drained by any later step while its id stays tracked. |
| `Pipeline.RedeliveryAfterCollectionDrainsAgain` | src/Nomad.NodeTermHandler/Services/Store.cs:160-175 | Once its id is garbage-collected, an event can be drained again. The scenario: a store of processed events on its 7200th call, then a drain step that collects them all, then redelivery of a notice for one of them, then the next drain step. The run drains that notice's event. When the lifecycle acknowledgement fails, the post-drain task makes no delete call, so the message does come back. |
| `Pipeline.RedeliveryIsIdempotent` | src/Nomad.NodeTermHandler/Services/SqsMonitor.cs:63-85 | Receiving the same message twice within one batch tracks exactly what receiving it once tracks. |
| `Pipeline.AsgMessageHandled` | src/Nomad.NodeTermHandler/Services/SqsMonitor.cs:151-155 | An autoscaling message hands its event to the store if the mapper succeeds, and nothing otherwise. |
| `Pipeline.DuplicateNoticeTrackedOnce` | src/Nomad.NodeTermHandler/Services/SqsMonitor.cs:258-260 | Two deliveries of one notice with different receipts add nothing the first did not. The first event is the one tracked. |
| `Pipeline.Ec2MessagesDroppedUntracked` | src/Nomad.NodeTermHandler/Services/SqsMonitor.cs:157-159 | An "aws.ec2" message is deleted at once, tracks nothing and does not fail, whatever state it reports. |
| `Pipeline.FailedLookupLeavesMessage` | src/Nomad.NodeTermHandler/Services/SqsMonitor.cs:252-256 | A termination notice whose node lookup fails is neither deleted nor tracked, and counts as failed. A batch of it alone makes the monitor back off. |
| `Pipeline.StateChangeEventsNeverReachNomad` | src/Nomad.NodeTermHandler/Services/SqsMonitor.cs:226-238 | Draining a state-change event makes no Nomad call and runs no hook. |
| `Pipeline.DefaultTimeBreaksReadinessCheck` | src/Nomad.NodeTermHandler/Services/Store.cs:92 | An autoscaling event from an envelope without a time (ticks 0) makes the as-written readiness check fail for any positive grace, though by the intended arithmetic it is due. |
| `Pipeline.AsgTerminationEndToEnd` | src/Nomad.NodeTermHandler/Services/NomadDrainingService.cs:41-96 | A notice ingested into a fresh store is tracked alone and kept on the queue. Before the drain time the loop does nothing. From then on one step drains it, ending with the post-drain task, which completes the lifecycle action and then deletes this message. |

## Left out

- AWS SDK calls are not modelled: SQS receive and delete, EC2 `DescribeInstances`, and AutoScaling `CompleteLifecycleAction`. Their outcomes are inputs (`Lookups`, `received`, `ackSucceeds`) or recorded actions (`AwsCall`).
- The `nomad` CLI calls are not modelled either. Their outcomes are inputs (`listing`) or recorded actions (`DrainAction`).
- JSON decoding (Newtonsoft and `DetailConverter`) is not modelled. Decoded envelopes and details are given values, with `None` standing for a decode failure.
- Concurrency is not modelled:
  - `lock` blocks and the two concurrent loops: each store call is atomic, and interleavings are sequences of operations.
  - `Task.Delay` and cancellation tokens: back-off is a flag.
  - The un-awaited hook tasks: a hook is recorded as run, with its calls given by `SqsMonitor.HookCalls`.
- `DateTime.UtcNow` is the parameter `now`, read once per call. The source reads the clock once per event inside one scan.
- `EventStore.GetActiveEvent`: that no event is returned iff none is ready is proved only when the enumeration `order` covers every key. C# `Dictionary` order is an implementation detail, and an order is an input here.
- `EventStore.GetActiveEvent`: readiness uses the corrected unbounded drain time (see Findings). The same holds for `ShouldEventDrain`, for the drainable count of `LogPeriodically` (Store.cs:189), and for `NomadDraining.DrainLoopStep` and `Pipeline.Run`, which call it. In the source, an event whose drain time falls before `DateTime.MinValue` makes `GetActiveEvent` throw at Store.cs:92. The drain loop catches only `QueueDoesNotExistException` (NomadDrainingService.cs:56), so the loop ends there. The model instead treats that event as due.
- `Pipeline.DrainedAtMostOnce`: the guarantee holds only while the drained event's id stays tracked. Garbage collection removes processed events, and a notice redelivered afterwards is tracked and drained again (`Pipeline.RedeliveryAfterCollectionDrainsAgain`).
- `Pipeline.RedeliveryIsIdempotent`: covers two copies of a message in one batch. Copies in later batches behave the same only while the first copy's event is still tracked.
- `SqsMonitor.HookCalls`: if completing the lifecycle action throws, the task skips the delete and faults. That fault lands in an unobserved task and is not modelled beyond the skipped delete.
- `NomadDraining.DrainLoopStep`: models one iteration. The one-second wait after finding nothing and the outer `GetQueueUrl` / `QueueDoesNotExistException` setup are not modelled.
- `NomadDraining.NodeActions`: a drain command that exits with an error is recorded as issued. Its failure is caught, and only a log line follows.
- `SqsMonitor.ProcessInterruptionEvents`: `DeleteMessageAsync` is taken to succeed. A failed delete would throw and count the message as failed.
- Null keys in the event map cannot arise: every event id is built from a literal prefix. So `Dictionary`'s null-key exception is not modelled.
- Null elements are not modelled: a null tag list, null tags, null instances, and null entries in the Nomad node list. Lists in the model have no null elements. In `Drain`, a null node entry would be caught like any other listing failure.
- Case folding is ASCII only. `OrdinalIgnoreCase` also folds non-ASCII letters, but the compared patterns are ASCII literals.
- Unmodelled event fields: `Description`, `State`, `EndTime`, `NodeLabels` and the node-info `Tags` text. Also the helpers `TimeUntilEvent` and `IsRebalanceRecommendation` in `Models/InterruptionEvent.cs`, which the pipeline never calls.
- `CompleteLifecycleActionAsync` and `BeforeCompleteLifecycleAction` in `SqsMonitor.cs` are not modelled: the post-drain task calls the AWS client directly and never uses them.
- The drain service's `Cancel` callback is not modelled: it only logs. `Store.CancelInterruptionEvent` is modelled but nothing in the pipeline calls it.
- `Program.cs`, `HealthController.cs`, `Context.cs`, `SettingsEnricher.cs`, `LoggingExtensions.cs`, `Status.cs` and `IMonitor.cs` are not part of this model. They are bootstrap, HTTP and logging plumbing.
- Log lines and exception message texts are not modelled. Exceptions are kept by kind (`Models.Error`).

## Findings

| source | as written | input that shows it | evidently intended | confidence | as-written member | corrected member |
|---|---|---|---|---|---|---|
| src/Nomad.NodeTermHandler/Services/Store.cs:92 | `StartTime.Add(-grace)` throws when the result precedes `DateTime.MinValue`. `GetActiveEvent` then throws out of the drain loop, which catches only `QueueDoesNotExistException`, so the loop ends at the first throw. The event stays unprocessed, so after a restart and redelivery of the notice the same throw repeats. | An autoscaling envelope without a "time" field, so `StartTime` is `DateTime.MinValue` (ticks 0), with grace 60. | The drain time is compared without leaving the DateTime range, so such an event is simply due. | medium; not executed | `EventStore.ShouldEventDrainAsWritten`, shown by `Pipeline.DefaultTimeBreaksReadinessCheck` | `EventStore.TimeUntilDrain`, proved by `EventStore.ReadyExactlyFromDrainTime` |

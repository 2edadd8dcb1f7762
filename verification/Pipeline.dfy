/** The three components together: the monitor feeding the store, the drain loop consuming
    it. Any interleaving of the two loops and the other store calls is a sequence of `Op`s,
    each atomic. */
module Pipeline {
  import opened Models
  import opened EventStore
  import opened SqsMonitor
  import opened NomadDraining

  datatype Op =
    | Ingest(received: Result<seq<Received>, Error>)
    | Ignore(eventId: Option<string>)
    | Cancel(cancelledId: string)
    | MarkAll(nodeName: Option<string>)
    | DrainStep(order: seq<string>, now: int, listing: Option<seq<NomadNode>>)

  /** One operation: the new store and the event it drained, if any. */
  function Apply(s: Store, op: Op, grace: int): (r: (Store, Option<InterruptionEvent>))
    requires Valid(s)
    ensures Valid(r.0)
    ensures r.1.Some? ==> op.DrainStep?
  {
    match op
    case Ingest(received) => (MonitorIteration(s, received).store, None)
    case Ignore(id) => (IgnoreEvent(s, id), None)
    case Cancel(id) => (CancelInterruptionEvent(s, id), None)
    case MarkAll(node) => (MarkAllAsProcessed(s, node), None)
    case DrainStep(order, now, listing) =>
      var step := DrainLoopStep(s, order, now, grace, listing);
      (step.store, step.drained)
  }

  /** A run of operations: the final store and every event drained, in order. */
  function Run(s: Store, ops: seq<Op>, grace: int): (r: (Store, seq<InterruptionEvent>))
    requires Valid(s)
    ensures Valid(r.0)
    decreases |ops|
  {
    if |ops| == 0 then (s, [])
    else
      var (s1, d) := Apply(s, ops[0], grace);
      var (s2, ds) := Run(s1, ops[1..], grace);
      (s2, (if d.Some? then [d.value] else []) + ds)
  }

  /** The id stays tracked before and after every operation of the run. */
  predicate KeptThroughout(s: Store, ops: seq<Op>, k: string, grace: int)
    requires Valid(s)
    decreases |ops|
  {
    k in s.events && (|ops| == 0 || KeptThroughout(Apply(s, ops[0], grace).0, ops[1..], k, grace))
  }

  /** No single operation un-processes an event or drains a processed one. */
  lemma ProcessedStaysProcessed(s: Store, op: Op, k: string, grace: int)
    requires Valid(s)
    requires k in s.events && s.events[k].nodeProcessed
    ensures var (s1, d) := Apply(s, op, grace);
      && (k in s1.events ==> s1.events[k].nodeProcessed)
      && (d.Some? ==> d.value.eventId != k)
  {
  }

  /** Once processed, an event is never drained again while its id stays tracked: a
      processed id is only forgotten by cancellation or garbage collection. */
  lemma {:induction false} ProcessedNeverDrainedAgain(s: Store, ops: seq<Op>, k: string, grace: int)
    requires Valid(s)
    requires k in s.events && s.events[k].nodeProcessed
    requires KeptThroughout(s, ops, k, grace)
    ensures forall i :: 0 <= i < |Run(s, ops, grace).1| ==> Run(s, ops, grace).1[i].eventId != k
    decreases |ops|
  {
    if |ops| > 0 {
      var (s1, d) := Apply(s, ops[0], grace);
      ProcessedStaysProcessed(s, ops[0], k, grace);
      ProcessedNeverDrainedAgain(s1, ops[1..], k, grace);
    }
  }

  /** At most one drain per event: the drain loop's step marks what it drains processed, so
      no later step drains the same id again while it stays tracked. */
  lemma DrainedAtMostOnce(s: Store, order: seq<string>, now: int, grace: int,
                          listing: Option<seq<NomadNode>>, ops: seq<Op>)
    requires Valid(s)
    requires var step := DrainLoopStep(s, order, now, grace, listing);
      step.drained.Some? && KeptThroughout(step.store, ops, step.drained.value.eventId, grace)
    ensures var step := DrainLoopStep(s, order, now, grace, listing);
      forall i :: 0 <= i < |Run(step.store, ops, grace).1| ==>
        Run(step.store, ops, grace).1[i].eventId != step.drained.value.eventId
  {
    var step := DrainLoopStep(s, order, now, grace, listing);
    ProcessedNeverDrainedAgain(step.store, ops, step.drained.value.eventId, grace);
  }

  /** Redelivery: receiving the same message twice in a batch tracks what receiving it once
      tracks. */
  lemma RedeliveryIsIdempotent(s: Store, m: Received)
    ensures ProcessBatch(s, [m, m]).store == ProcessBatch(s, [m]).store
  {
    var o := HandleMessage(m);
    var s1 := AddAll(s, o.handled);
    assert [m, m][1..] == [m];
    assert ProcessBatch(s, [m]).store == ProcessBatch(s1, []).store;
    assert ProcessBatch(s, [m, m]).store == ProcessBatch(s1, [m]).store;
    AddAllTracked(s1, o.handled);
    assert ProcessBatch(s1, [m]).store == ProcessBatch(AddAll(s1, o.handled), []).store;
  }

  /** A drain step on the call that garbage-collects a store holding only processed events
      empties the store and drains nothing. */
  lemma CollectingStepEmptiesStore(s: Store, now: int, grace: int)
    requires Valid(s)
    requires s.callsSinceLastClean == CleaningPeriod - 1
    requires forall k :: k in s.events ==> s.events[k].nodeProcessed
    ensures var step := DrainLoopStep(s, [], now, grace, None);
      step.store.events == map[] && step.drained.None?
  {
  }

  /** A termination notice received into an empty store lands as its one event; the message
      stays on the queue and the monitor does not back off. */
  lemma NoticeIntoEmptyStore(s: Store, m: Message, env: Envelope, lookups: Lookups)
    requires Valid(s) && s.events == map[]
    requires env.source == Some("aws.autoscaling")
    requires AsgTerminationToInterruptionEvent(env, m, lookups).Success?
    ensures var e := AsgTerminationToInterruptionEvent(env, m, lookups).value;
      var it := MonitorIteration(s, Success([Received(m, Some(env), lookups)]));
      && it.store.events == map[e.eventId := e]
      && it.deleted == [] && !it.backoff
  {
    var e := AsgTerminationToInterruptionEvent(env, m, lookups).value;
    var rm := Received(m, Some(env), lookups);
    assert HandleMessage(rm) == MessageOutcome([e], false, false);
    assert ProcessBatch(s, [rm]).store == AddAll(s, [e]);
    DeletedHandlesCons([rm]);
    assert [rm][1..] == [];
  }

  /** A store holding one unclaimed, unprocessed, unignored event: the next drain step leaves
      it alone before its drain time, and from then on drains it, commanding the event's node
      and ending with its post-drain task, if it has one. */
  lemma LoneEventStep(s: Store, e: InterruptionEvent, now: int, grace: int, listing: Option<seq<NomadNode>>)
    requires Valid(s) && s.events == map[e.eventId := e]
    requires e.eventId !in s.ignored && !e.inProgress && !e.nodeProcessed
    ensures var step := DrainLoopStep(s, [e.eventId], now, grace, listing);
      && (now < DrainTime(e, grace) ==> step.drained.None? && step.actions == [])
      && (now >= DrainTime(e, grace) ==>
            && step.drained == Some(e.(inProgress := true, nodeProcessed := true))
            && step.actions == Drain(e.(inProgress := true), listing).actions
            && (forall id :: EnableNodeDrain(id) in step.actions <==> DrainsNode(e, listing, id))
            && (e.postDrainTask.CompleteLifecycleAndDelete? ==>
                  step.actions != [] && step.actions[|step.actions| - 1] == RunHook(e.postDrainTask)))
  {
    var a := GetActiveEvent(s, [e.eventId], now, grace);
    assert a.store.events == s.events;
    if now < DrainTime(e, grace) {
      assert !ReadyAt(a.store, e.eventId, now, grace);
    } else {
      assert ReadyAt(a.store, e.eventId, now, grace);
      ClaimKeepsDrainTarget(e, listing);
      if e.postDrainTask.CompleteLifecycleAndDelete? {
        DrainEndsWithPostTask(e.(inProgress := true), listing);
      }
    }
  }

  /** The post-drain task of a termination notice acknowledges its lifecycle action, then
      deletes the notice's own message. */
  lemma NoticePostTaskCalls(env: Envelope, m: Message, lookups: Lookups)
    requires AsgTerminationToInterruptionEvent(env, m, lookups).Success?
    ensures var e := AsgTerminationToInterruptionEvent(env, m, lookups).value;
      var d := lookups.asgDetail.value;
      HookCalls(e.postDrainTask, true) ==
        [CompleteLifecycleAction(d.autoScalingGroupName, d.lifecycleHookName, d.lifecycleActionToken,
                                 d.ec2InstanceId, LifecycleContinue),
         DeleteMessage(m.receiptHandle)]
  {
  }

  /** Marking an event in progress does not change which node its drain commands. */
  lemma ClaimKeepsDrainTarget(e: InterruptionEvent, listing: Option<seq<NomadNode>>)
    ensures forall id ::
      EnableNodeDrain(id) in Drain(e.(inProgress := true), listing).actions <==> DrainsNode(e, listing, id)
  {
    assert forall id :: DrainsNode(e.(inProgress := true), listing, id) == DrainsNode(e, listing, id);
  }

  /** An event with a post-drain task: its drain trace ends with running that task. */
  lemma DrainEndsWithPostTask(e: InterruptionEvent, listing: Option<seq<NomadNode>>)
    requires e.postDrainTask.CompleteLifecycleAndDelete?
    ensures var actions := Drain(e, listing).actions;
      actions != [] && actions[|actions| - 1] == RunHook(e.postDrainTask)
  {
    var actions := Drain(e, listing).actions;
    var post := HookActions(e.postDrainTask);
    assert post == [RunHook(e.postDrainTask)];
    assert actions[|actions| - 1] == actions[|actions| - |post|..][0];
  }

  /** A run is its first operation followed by the rest. */
  lemma RunCons(s: Store, ops: seq<Op>, grace: int)
    requires Valid(s) && |ops| > 0
    ensures var (s1, d) := Apply(s, ops[0], grace);
      Run(s, ops, grace).1 == (if d.Some? then [d.value] else []) + Run(s1, ops[1..], grace).1
  {
  }

  /** The bound of `DrainedAtMostOnce` is real. The message of a termination notice stays on
      the queue until its post-drain task acknowledges the lifecycle action, and is deleted only
      if that acknowledgement succeeds. If the store garbage-collects the drained event before
      the message comes back, the redelivered notice is tracked afresh and drained again: a
      drain step that collects a store of processed events, the redelivery, and the next step
      drain the event a second time. */
  lemma {:induction false} RedeliveryAfterCollectionDrainsAgain(s: Store, m: Message, env: Envelope,
                                                                lookups: Lookups, now: int, grace: int)
    requires Valid(s)
    requires s.callsSinceLastClean == CleaningPeriod - 1
    requires forall k :: k in s.events ==> s.events[k].nodeProcessed
    requires env.source == Some("aws.autoscaling")
    requires AsgTerminationToInterruptionEvent(env, m, lookups).Success?
    requires var e := AsgTerminationToInterruptionEvent(env, m, lookups).value;
      e.eventId in s.events && e.eventId !in s.ignored && now >= DrainTime(e, grace)
    ensures var e := AsgTerminationToInterruptionEvent(env, m, lookups).value;
      var ops := [DrainStep([], now, None), Ingest(Success([Received(m, Some(env), lookups)])),
                  DrainStep([e.eventId], now, None)];
      && Run(s, ops, grace).1 == [e.(inProgress := true, nodeProcessed := true)]
      && HookCalls(e.postDrainTask, false) == [HookCalls(e.postDrainTask, true)[0]]
  {
    var e := AsgTerminationToInterruptionEvent(env, m, lookups).value;
    var ops := [DrainStep([], now, None), Ingest(Success([Received(m, Some(env), lookups)])),
                DrainStep([e.eventId], now, None)];
    CollectingStepEmptiesStore(s, now, grace);
    var s1 := Apply(s, ops[0], grace).0;
    NoticeIntoEmptyStore(s1, m, env, lookups);
    var s2 := Apply(s1, ops[1], grace).0;
    assert s2.ignored == s.ignored;
    LoneEventStep(s2, e, now, grace, None);
    var s3 := Apply(s2, ops[2], grace).0;
    RunCons(s, ops, grace);
    RunCons(s1, ops[1..], grace);
    RunCons(s2, ops[1..][1..], grace);
    assert ops[1..][1..][1..] == [];
  }

  /** An autoscaling message hands the store its one event if the mapper succeeds, and
      nothing otherwise. */
  lemma AsgMessageHandled(m: Received)
    requires m.envelope.Some? && m.envelope.value.source == Some("aws.autoscaling")
    ensures var r := AsgTerminationToInterruptionEvent(m.envelope.value, m.message, m.lookups);
      HandleMessage(m).handled == (if r.Success? then [r.value] else [])
  {
  }

  /** Two deliveries of one termination notice (same envelope id, different receipts): the
      second delivery tracks nothing new, and the tracked event is the first one. */
  lemma DuplicateNoticeTrackedOnce(s: Store, m1: Received, m2: Received)
    requires m1.envelope.Some? && m2.envelope.Some?
    requires m1.envelope.value.source == Some("aws.autoscaling") && m2.envelope.value.source == Some("aws.autoscaling")
    requires m1.envelope.value.id == m2.envelope.value.id
    requires AsgTerminationToInterruptionEvent(m1.envelope.value, m1.message, m1.lookups).Success?
    ensures ProcessBatch(s, [m1, m2]).store == ProcessBatch(s, [m1]).store
    ensures var e := AsgTerminationToInterruptionEvent(m1.envelope.value, m1.message, m1.lookups).value;
      e.eventId !in s.events ==> ProcessBatch(s, [m1]).store.events[e.eventId] == e
  {
    var e1 := AsgTerminationToInterruptionEvent(m1.envelope.value, m1.message, m1.lookups).value;
    AsgMessageHandled(m1);
    AsgMessageHandled(m2);
    var h2 := HandleMessage(m2).handled;
    assert HandledAll([m1]) == [e1];
    assert [m1, m2][1..] == [m2];
    assert HandledAll([m2]) == h2 + [];
    assert HandledAll([m1, m2]) == [e1] + h2;
    var s1 := AddAll(s, [e1]);
    AddAllAppend(s, [e1], h2);
    AddAllTracked(s1, h2);
  }

  /** As written, an "aws.ec2" message is deleted at once and tracks nothing, whatever state
      it reports: the state-change mapper is never called. */
  lemma Ec2MessagesDroppedUntracked(m: Message, env: Envelope, lookups: Lookups)
    requires env.source == Some("aws.ec2")
    ensures HandleMessage(Received(m, Some(env), lookups)) == MessageOutcome([], true, false)
  {
  }

  /** A termination notice whose node lookup fails is left on the queue for redelivery, and a
      batch made only of such messages makes the monitor back off. */
  lemma FailedLookupLeavesMessage(s: Store, m: Message, env: Envelope, lookups: Lookups)
    requires env.source == Some("aws.autoscaling")
    requires GetNodeInfo(lookups.reservations).Failure?
    ensures HandleMessage(Received(m, Some(env), lookups)) == MessageOutcome([], false, true)
    ensures MonitorIteration(s, Success([Received(m, Some(env), lookups)])).backoff
  {
  }

  /** State-change events carry no private address, so draining one never reaches Nomad. */
  lemma StateChangeEventsNeverReachNomad(env: Envelope, lookups: Lookups, listing: Option<seq<NomadNode>>)
    requires Ec2StateChangeToInterruptionEvent(env, lookups).Success?
    requires Ec2StateChangeToInterruptionEvent(env, lookups).value.Some?
    ensures var e := Ec2StateChangeToInterruptionEvent(env, lookups).value.value;
      Drain(e.(inProgress := true), listing).actions == []
  {
  }

  /** An envelope without a "time" field decodes to `DateTime.MinValue`. The event it yields
      makes the as-written readiness check throw at every call for any positive grace period,
      while by the intended arithmetic it is simply due. */
  lemma DefaultTimeBreaksReadinessCheck(s: Store, env: Envelope, m: Message, lookups: Lookups, now: int, grace: int)
    requires env.time == 0 && grace > 0 && now >= 0
    requires AsgTerminationToInterruptionEvent(env, m, lookups).Success?
    ensures var e := AsgTerminationToInterruptionEvent(env, m, lookups).value;
      e.eventId !in s.ignored ==>
        && ShouldEventDrainAsWritten(s, e, now, grace).Failure?
        && ShouldEventDrain(s, e, now, grace)
  {
  }

  /** The autoscaling path end to end: one notice ingested into a fresh store is tracked alone
      and the message stays on the queue; the drain loop leaves it alone before its drain time;
      from then on one step drains it, ending with the post-drain task, whose calls complete
      the lifecycle action with "CONTINUE" and then delete this very message. */
  lemma AsgTerminationEndToEnd(m: Message, env: Envelope, lookups: Lookups, now: int, grace: int,
                               listing: Option<seq<NomadNode>>)
    requires env.source == Some("aws.autoscaling")
    requires AsgTerminationToInterruptionEvent(env, m, lookups).Success?
    ensures var e := AsgTerminationToInterruptionEvent(env, m, lookups).value;
      var d := lookups.asgDetail.value;
      var it := MonitorIteration(NewStore(), Success([Received(m, Some(env), lookups)]));
      var step := DrainLoopStep(it.store, [e.eventId], now, grace, listing);
      && it.store.events == map[e.eventId := e]
      && it.deleted == [] && !it.backoff
      && (now < DrainTime(e, grace) ==> step.drained.None? && step.actions == [])
      && (now >= DrainTime(e, grace) ==>
            && step.drained == Some(e.(inProgress := true, nodeProcessed := true))
            && step.actions != [] && step.actions[|step.actions| - 1] == RunHook(e.postDrainTask)
            && (forall id :: EnableNodeDrain(id) in step.actions <==> DrainsNode(e, listing, id)))
      && HookCalls(e.postDrainTask, true) ==
           [CompleteLifecycleAction(d.autoScalingGroupName, d.lifecycleHookName, d.lifecycleActionToken,
                                    d.ec2InstanceId, LifecycleContinue),
            DeleteMessage(m.receiptHandle)]
  {
    var e := AsgTerminationToInterruptionEvent(env, m, lookups).value;
    NoticeIntoEmptyStore(NewStore(), m, env, lookups);
    var it := MonitorIteration(NewStore(), Success([Received(m, Some(env), lookups)]));
    LoneEventStep(it.store, e, now, grace, listing);
    NoticePostTaskCalls(env, m, lookups);
  }
}

/** The queue monitor (Services/SqsMonitor.cs): classifying EventBridge envelopes into
    interruption events, deciding per message whether to delete it or leave it for redelivery,
    and the whole-batch failure rule. JSON decoding and the AWS calls are inputs: `Lookups`
    holds what they return for one message. */
module SqsMonitor {
  import opened Models
  import opened EventStore
  import Text

  const AsgTagName := "aws:autoscaling:groupName"
  const AsgEventIdPrefix := "asg-termination-event-"
  const StateChangeEventIdPrefix := "ec2-state-change-event-"
  const ProviderIdScheme := "aws:///"
  const MonitorName := "SqsMonitor"
  const LifecycleContinue := "CONTINUE"
  const InstanceStatesToDrain: seq<string> := ["stopping", "stopped", "shutting-down", "terminated"]

  /** A decoded EventBridge envelope; `time` is a DateTime in ticks. */
  datatype Envelope = Envelope(
    id: Option<string>,
    source: Option<string>,
    detailType: Option<string>,
    time: int,
    detail: Option<string>)

  /** A received queue message. */
  datatype Message = Message(messageId: Option<string>, receiptHandle: Option<string>, body: string)

  datatype AsgTerminationDetails = AsgTerminationDetails(
    ec2InstanceId: Option<string>,
    autoScalingGroupName: Option<string>,
    lifecycleHookName: Option<string>,
    lifecycleActionToken: Option<string>)

  datatype Ec2StateChangeDetail = Ec2StateChangeDetail(instanceId: Option<string>, state: Option<string>)

  datatype Tag = Tag(key: Option<string>, value: Option<string>)

  /** The parts of a described EC2 instance the monitor reads; `availabilityZone` is
      `Placement?.AvailabilityZone`. */
  datatype Ec2Instance = Ec2Instance(
    instanceId: Option<string>,
    availabilityZone: Option<string>,
    privateDnsName: Option<string>,
    privateIpAddress: Option<string>,
    tags: seq<Tag>)

  datatype NodeInfo = NodeInfo(
    asgName: Option<string>,
    instanceId: Option<string>,
    providerId: string,
    isManaged: bool,
    name: Option<string>,
    tags: map<string, Option<string>>,
    privateIpAddress: Option<string>)

  /** What the foreign calls made while mapping one message return: the two detail
      decodings (`None` when decoding threw or produced null) and the `DescribeInstances`
      response, a list of reservations each listing instances. */
  datatype Lookups = Lookups(
    asgDetail: Option<AsgTerminationDetails>,
    stateDetail: Option<Ec2StateChangeDetail>,
    reservations: Result<seq<seq<Ec2Instance>>, Error>)

  /** One `(InterruptionEvent?, Exception?)` pair produced by a mapper. */
  datatype Wrapper = Wrapper(event: Option<InterruptionEvent>, err: Option<Error>)

  // Node identity

  /** `FindTagValue`: the value of the first tag with this key, or null. */
  function FindTagValue(tags: seq<Tag>, key: string): (r: Option<string>)
    ensures (forall i :: 0 <= i < |tags| ==> tags[i].key != Some(key)) ==> r.None?
    ensures forall i :: (0 <= i < |tags| && tags[i].key == Some(key)
      && forall j :: 0 <= j < i ==> tags[j].key != Some(key)) ==> r == tags[i].value
  {
    if |tags| == 0 then None
    else if tags[0].key == Some(key) then tags[0].value
    else
      var r := FindTagValue(tags[1..], key);
      assert forall i :: 1 <= i < |tags| ==> tags[i] == tags[1..][i - 1];
      r
  }

  /** Tag keys `ToDictionary` accepts: none null and no two equal. */
  predicate TagKeysUsable(tags: seq<Tag>)
  {
    && (forall i :: 0 <= i < |tags| ==> tags[i].key.Some?)
    && (forall i, j :: 0 <= i < j < |tags| ==> tags[i].key != tags[j].key)
  }

  /** `instance.Tags.ToDictionary(tag => tag.Key, tag => tag.Value)`, which throws on a null
      or repeated key. */
  function TagsToDictionary(tags: seq<Tag>): (r: Option<map<string, Option<string>>>)
    ensures r.Some? <==> TagKeysUsable(tags)
    ensures r.Some? ==>
      && (forall i :: 0 <= i < |tags| ==> tags[i].key.value in r.value && r.value[tags[i].key.value] == tags[i].value)
      && (forall k :: k in r.value ==> exists i :: 0 <= i < |tags| && tags[i].key == Some(k))
  {
    if |tags| == 0 then Some(map[])
    else
      var rest := TagsToDictionary(tags[1..]);
      TagKeysUsableCons(tags);
      if tags[0].key.None? || rest.None? then None
      else if tags[0].key.value in rest.value then
        var i :| 0 <= i < |tags[1..]| && tags[1..][i].key == tags[0].key;
        assert tags[i + 1].key == tags[0].key;
        None
      else
        var m := rest.value[tags[0].key.value := tags[0].value];
        DictionaryCons(tags, rest.value);
        Some(m)
  }

  lemma TagKeysUsableCons(tags: seq<Tag>)
    requires |tags| > 0
    ensures TagKeysUsable(tags) <==>
      && tags[0].key.Some?
      && TagKeysUsable(tags[1..])
      && forall j :: 0 <= j < |tags[1..]| ==> tags[1..][j].key != tags[0].key
  {
  }

  lemma DictionaryCons(tags: seq<Tag>, rest: map<string, Option<string>>)
    requires |tags| > 0 && TagKeysUsable(tags) && tags[0].key.value !in rest
    requires forall i :: 0 <= i < |tags[1..]| ==> tags[1..][i].key.value in rest && rest[tags[1..][i].key.value] == tags[1..][i].value
    requires forall k :: k in rest ==> exists i :: 0 <= i < |tags[1..]| && tags[1..][i].key == Some(k)
    ensures var m := rest[tags[0].key.value := tags[0].value];
      && (forall i :: 0 <= i < |tags| ==> tags[i].key.value in m && m[tags[i].key.value] == tags[i].value)
      && (forall k :: k in m ==> exists i :: 0 <= i < |tags| && tags[i].key == Some(k))
  {
  }

  /** With usable keys, the first-match lookup and the dictionary agree. */
  lemma FindTagValueAgreesWithDictionary(tags: seq<Tag>, key: string)
    requires TagKeysUsable(tags)
    ensures var d := TagsToDictionary(tags).value;
      FindTagValue(tags, key) == (if key in d then d[key] else None)
  {
  }

  /** The provider id of an instance: `aws:///<zone>/<instance>` when the zone is known,
      otherwise empty. */
  function ProviderId(availabilityZone: Option<string>, instanceId: Option<string>): string
  {
    if availabilityZone.Some? then
      ProviderIdScheme + availabilityZone.value + "/" + Interpolate(instanceId)
    else ""
  }

  /** Index of the first occurrence of `c` in `s`. */
  function IndexOf(s: string, c: char): (r: Option<nat>)
    ensures r.None? <==> c !in s
    ensures r.Some? ==> r.value < |s| && s[r.value] == c && c !in s[..r.value]
  {
    if |s| == 0 then None
    else if s[0] == c then Some(0)
    else
      var r := IndexOf(s[1..], c);
      if r.None? then None
      else
        assert s[..r.value + 1] == [s[0]] + s[1..][..r.value];
        Some(r.value + 1)
  }

  /** Reads a provider id back into its zone and instance id. */
  function ParseProviderId(p: string): Option<(string, string)>
  {
    if |p| < |ProviderIdScheme| || p[..|ProviderIdScheme|] != ProviderIdScheme then None
    else
      var rest := p[|ProviderIdScheme|..];
      match IndexOf(rest, '/')
      case None => None
      case Some(i) => Some((rest[..i], rest[i + 1..]))
  }

  /** Provider ids lose nothing: a zone without '/' and the instance id are read back, and
      an unknown zone gives the empty id. */
  lemma ProviderIdRoundTrip(availabilityZone: Option<string>, instanceId: Option<string>)
    ensures availabilityZone.None? <==> ProviderId(availabilityZone, instanceId) == ""
    ensures availabilityZone.Some? && '/' !in availabilityZone.value ==>
      ParseProviderId(ProviderId(availabilityZone, instanceId)) == Some((availabilityZone.value, Interpolate(instanceId)))
  {
    if availabilityZone.Some? {
      var az := availabilityZone.value;
      var p := ProviderId(availabilityZone, instanceId);
      assert p[..|ProviderIdScheme|] == ProviderIdScheme;
      var rest := p[|ProviderIdScheme|..];
      assert rest == az + "/" + Interpolate(instanceId);
      if '/' !in az {
        assert rest[|az|] == '/';
        assert rest[..|az|] == az;
        assert rest[|az| + 1..] == Interpolate(instanceId);
      }
    }
  }

  /** `CheckIfManaged`: a placeholder that treats every instance as managed. */
  function CheckIfManaged(tags: seq<Tag>): bool
  {
    true
  }

  /** The body of `GetNodeInfo`, given the `DescribeInstances` response: the first instance of
      the first reservation, or an error when the call failed, no reservation or no instance
      came back, or the tags do not form a dictionary. */
  function GetNodeInfo(reservations: Result<seq<seq<Ec2Instance>>, Error>): (r: Result<NodeInfo, Error>)
    ensures reservations.Failure? ==> r.Failure?
    ensures reservations.Success? && |reservations.value| == 0 ==> r == Failure(NoReservations)
    ensures reservations.Success? && |reservations.value| > 0 && |reservations.value[0]| == 0 ==> r == Failure(NoInstance)
    ensures r.Success? <==>
      reservations.Success? && |reservations.value| > 0 && |reservations.value[0]| > 0
      && TagKeysUsable(reservations.value[0][0].tags)
    ensures r.Success? ==>
      var inst := reservations.value[0][0];
      && r.value.isManaged
      && r.value.instanceId == inst.instanceId
      && r.value.name == inst.privateDnsName
      && r.value.privateIpAddress == inst.privateIpAddress
      && r.value.asgName == FindTagValue(inst.tags, AsgTagName)
      && r.value.providerId == ProviderId(inst.availabilityZone, inst.instanceId)
      && (inst.availabilityZone.Some? <==> r.value.providerId != "")
      && r.value.tags == TagsToDictionary(inst.tags).value
  {
    match reservations
    case Failure(_) => Failure(DescribeInstancesFailed)
    case Success(rs) =>
      if |rs| == 0 then Failure(NoReservations)
      else if |rs[0]| == 0 then Failure(NoInstance)
      else
        var inst := rs[0][0];
        match TagsToDictionary(inst.tags)
        case None => Failure(TagDictionaryFailed)
        case Some(tagMap) =>
          ProviderIdRoundTrip(inst.availabilityZone, inst.instanceId);
          Success(NodeInfo(
            FindTagValue(inst.tags, AsgTagName),
            inst.instanceId,
            ProviderId(inst.availabilityZone, inst.instanceId),
            CheckIfManaged(inst.tags),
            inst.privateDnsName,
            tagMap,
            inst.privateIpAddress))
  }

  // Event construction

  function AsgEventId(envelopeId: Option<string>): string
  {
    AsgEventIdPrefix + Interpolate(envelopeId)
  }

  function StateChangeEventId(envelopeId: Option<string>): string
  {
    StateChangeEventIdPrefix + Interpolate(envelopeId)
  }

  /** Event ids are deterministic in the envelope id, which makes redelivery idempotent; they
      are also injective in it (a null id and an empty one print alike), and the two mappers'
      ids never collide. */
  lemma EventIdsIdentifyEnvelope(a: Option<string>, b: Option<string>)
    ensures AsgEventId(a) == AsgEventId(b) <==> Interpolate(a) == Interpolate(b)
    ensures StateChangeEventId(a) == StateChangeEventId(b) <==> Interpolate(a) == Interpolate(b)
    ensures AsgEventId(a) != StateChangeEventId(b)
  {
    if AsgEventId(a) == AsgEventId(b) {
      assert Interpolate(a) == AsgEventId(a)[|AsgEventIdPrefix|..];
      assert Interpolate(b) == AsgEventId(b)[|AsgEventIdPrefix|..];
    }
    if StateChangeEventId(a) == StateChangeEventId(b) {
      assert Interpolate(a) == StateChangeEventId(a)[|StateChangeEventIdPrefix|..];
      assert Interpolate(b) == StateChangeEventId(b)[|StateChangeEventIdPrefix|..];
    }
    assert AsgEventId(a)[0] == 'a' && StateChangeEventId(b)[0] == 'e';
  }

  /** `AsgTerminationToInterruptionEvent`: an event for the instance of the lifecycle detail,
      starting at the envelope time, whose post-drain task completes the lifecycle action and
      deletes this message. Throws when the detail does not decode or the node lookup fails. */
  function AsgTerminationToInterruptionEvent(env: Envelope, msg: Message, lookups: Lookups): (r: Result<InterruptionEvent, Error>)
    ensures lookups.asgDetail.None? ==> r == Failure(DeserializationFailed)
    ensures r.Success? <==> lookups.asgDetail.Some? && GetNodeInfo(lookups.reservations).Success?
    ensures r.Success? ==>
      var e := r.value;
      var d := lookups.asgDetail.value;
      var node := GetNodeInfo(lookups.reservations).value;
      && e.eventId == AsgEventId(env.id)
      && e.startTime == env.time
      && e.kind == "ASGTermination"
      && e.instanceId == d.ec2InstanceId
      && e.nodeName == node.name
      && e.privateIpAddress == node.privateIpAddress
      && e.isManaged
      && !e.inProgress && !e.nodeProcessed
      && e.preDrainTask == NoHook
      && e.postDrainTask == CompleteLifecycleAndDelete(
           d.autoScalingGroupName, d.lifecycleHookName, d.lifecycleActionToken, d.ec2InstanceId, msg.receiptHandle)
  {
    match lookups.asgDetail
    case None => Failure(DeserializationFailed)
    case Some(d) =>
      match GetNodeInfo(lookups.reservations)
      case Failure(err) => Failure(err)
      case Success(node) =>
        Success(InterruptionEvent(
          AsgEventId(env.id), "ASGTermination", MonitorName,
          node.name, node.privateIpAddress, node.isManaged, node.asgName,
          d.ec2InstanceId, Some(node.providerId), env.time,
          false, false,
          NoHook,
          CompleteLifecycleAndDelete(
            d.autoScalingGroupName, d.lifecycleHookName, d.lifecycleActionToken, d.ec2InstanceId, msg.receiptHandle)))
  }

  /** The reported state is one of the drain-triggering states, ignoring case. */
  predicate IsDrainState(state: Option<string>)
  {
    state.Some? &&
    exists i :: 0 <= i < |InstanceStatesToDrain| && Text.EqualsOrdinalIgnoreCase(InstanceStatesToDrain[i], state.value)
  }

  /** The case-insensitive match is lower-casing followed by membership in the state set. */
  lemma IsDrainStateIff(state: Option<string>)
    ensures IsDrainState(state) <==>
      state.Some? && Text.ToLower(state.value) in {"stopping", "stopped", "shutting-down", "terminated"}
  {
    if state.Some? {
      forall i | 0 <= i < |InstanceStatesToDrain|
        ensures Text.EqualsOrdinalIgnoreCase(InstanceStatesToDrain[i], state.value)
          <==> InstanceStatesToDrain[i] == Text.ToLower(state.value)
      {
        Text.IgnoreCaseIsLowerEquality(InstanceStatesToDrain[i], state.value);
      }
      var lower := Text.ToLower(state.value);
      if lower in {"stopping", "stopped", "shutting-down", "terminated"} {
        var i := if lower == "stopping" then 0 else if lower == "stopped" then 1
                 else if lower == "shutting-down" then 2 else 3;
        assert InstanceStatesToDrain[i] == lower;
      }
    }
  }

  /** `Ec2StateChangeToInterruptionEvent`: no event unless the state triggers a drain;
      otherwise an event for the instance with no hooks and no private address. Throws when
      the detail does not decode or the node lookup fails. */
  function Ec2StateChangeToInterruptionEvent(env: Envelope, lookups: Lookups): (r: Result<Option<InterruptionEvent>, Error>)
    ensures lookups.stateDetail.None? ==> r == Failure(DeserializationFailed)
    ensures r == Success(None) <==> lookups.stateDetail.Some? && !IsDrainState(lookups.stateDetail.value.state)
    ensures lookups.stateDetail.Some? && IsDrainState(lookups.stateDetail.value.state) ==>
      (r.Success? <==> GetNodeInfo(lookups.reservations).Success?)
    ensures r.Success? && r.value.Some? ==>
      var e := r.value.value;
      && e.eventId == StateChangeEventId(env.id)
      && e.startTime == env.time
      && e.kind == "StateChange"
      && e.instanceId == lookups.stateDetail.value.instanceId
      && e.privateIpAddress.None?
      && !e.inProgress && !e.nodeProcessed
      && e.preDrainTask == NoHook && e.postDrainTask == NoHook
  {
    match lookups.stateDetail
    case None => Failure(DeserializationFailed)
    case Some(d) =>
      if !IsDrainState(d.state) then Success(None)
      else
        match GetNodeInfo(lookups.reservations)
        case Failure(err) => Failure(err)
        case Success(node) =>
          Success(Some(InterruptionEvent(
            StateChangeEventId(env.id), "StateChange", MonitorName,
            node.name, None, node.isManaged, node.asgName,
            d.instanceId, Some(node.providerId), env.time,
            false, false, NoHook, NoHook)))
  }

  /** `ProcessEventBridgeEvent`: dispatch on the envelope source. Autoscaling messages give one
      wrapper (the event, or the mapper's error); "aws.ec2" and "aws.health" give none (the
      state-change mapper is never called); any other source gives one error wrapper. */
  function ProcessEventBridgeEvent(env: Envelope, msg: Message, lookups: Lookups): (r: seq<Wrapper>)
    ensures env.source == Some("aws.autoscaling") ==>
      |r| == 1 &&
      match AsgTerminationToInterruptionEvent(env, msg, lookups)
      case Success(e) => r[0] == Wrapper(Some(e), None)
      case Failure(err) => r[0] == Wrapper(None, Some(err))
    ensures env.source == Some("aws.ec2") || env.source == Some("aws.health") ==> r == []
    ensures env.source !in {Some("aws.autoscaling"), Some("aws.ec2"), Some("aws.health")} ==>
      r == [Wrapper(None, Some(UnsupportedSource(env.source)))]
    ensures forall i :: 0 <= i < |r| ==> r[i].event.Some? != r[i].err.Some?
  {
    if env.source == Some("aws.autoscaling") then
      match AsgTerminationToInterruptionEvent(env, msg, lookups)
      case Success(e) => [Wrapper(Some(e), None)]
      case Failure(err) => [Wrapper(None, Some(err))]
    else if env.source == Some("aws.ec2") || env.source == Some("aws.health") then []
    else [Wrapper(None, Some(UnsupportedSource(env.source)))]
  }

  // Wrapper handling

  /** Wrappers that carry neither event nor error: suggestions to drop the message. */
  function DropSuggestions(ws: seq<Wrapper>): (n: nat)
    ensures n <= |ws|
    ensures n == |ws| <==> forall i :: 0 <= i < |ws| ==> ws[i] == Wrapper(None, None)
  {
    if |ws| == 0 then 0
    else
      var rest := DropSuggestions(ws[1..]);
      assert forall i :: 1 <= i < |ws| ==> ws[i] == ws[1..][i - 1];
      (if ws[0] == Wrapper(None, None) then 1 else 0) + rest
  }

  /** Wrappers that carry an error. */
  function FailedEvents(ws: seq<Wrapper>): (n: nat)
    ensures n <= |ws|
    ensures n > 0 <==> exists i :: 0 <= i < |ws| && ws[i].err.Some?
  {
    if |ws| == 0 then 0
    else
      var rest := FailedEvents(ws[1..]);
      assert forall i :: 1 <= i < |ws| ==> ws[i] == ws[1..][i - 1];
      (if ws[0].err.Some? then 1 else 0) + rest
  }

  /** The events handed to the interruption action, in list order: those of wrappers with an
      event and no error. */
  function HandledEvents(ws: seq<Wrapper>): (r: seq<InterruptionEvent>)
    ensures |r| <= |ws|
    ensures forall e :: e in r <==> Wrapper(Some(e), None) in ws
  {
    if |ws| == 0 then []
    else
      var rest := HandledEvents(ws[1..]);
      assert forall w :: w in ws <==> w == ws[0] || w in ws[1..];
      if ws[0].err.None? && ws[0].event.Some? then [ws[0].event.value] + rest else rest
  }

  /** Each wrapper contributes on its own and in its own place: handling is a filter that
      keeps list order. */
  lemma {:induction false} HandledEventsAppend(a: seq<Wrapper>, b: seq<Wrapper>)
    ensures HandledEvents(a + b) == HandledEvents(a) + HandledEvents(b)
    decreases |a|
  {
    if |a| == 0 {
      assert a + b == b;
    } else {
      var ab := a + b;
      assert ab[0] == a[0];
      assert ab[1..] == a[1..] + b;
      HandledEventsAppend(a[1..], b);
      var head := if a[0].err.None? && a[0].event.Some? then [a[0].event.value] else [];
      assert HandledEvents(ab) == head + HandledEvents(ab[1..]);
      assert HandledEvents(a) == head + HandledEvents(a[1..]);
    }
  }

  /** How one message ends: the events handed to the store, whether it is deleted now, and
      whether it counts as failed (left on the queue for redelivery). */
  datatype MessageOutcome = MessageOutcome(handled: seq<InterruptionEvent>, deleteMessage: bool, failed: bool)

  /** `ProcessInterruptionEvents`: delete the message when every wrapper is empty (so also
      for no wrapper at all); throw when some wrapper carries an error. */
  function ProcessInterruptionEvents(ws: seq<Wrapper>): (r: MessageOutcome)
    ensures r.deleteMessage <==> forall i :: 0 <= i < |ws| ==> ws[i] == Wrapper(None, None)
    ensures r.failed <==> exists i :: 0 <= i < |ws| && ws[i].err.Some?
    ensures !(r.deleteMessage && r.failed)
    ensures r.handled == HandledEvents(ws)
  {
    MessageOutcome(HandledEvents(ws), DropSuggestions(ws) == |ws|, FailedEvents(ws) > 0)
  }

  // The monitor loop

  /** One received message: the message, its decoded envelope (`None` when `ProcessSQSMessage`
      threw), and what the lookups made while mapping it return. */
  datatype Received = Received(message: Message, envelope: Option<Envelope>, lookups: Lookups)

  /** The inner try of the monitor loop for one message. An undecodable message fails. A
      decoded one is deleted exactly when its source is "aws.ec2" or "aws.health"; it fails
      exactly when its source is unsupported or the autoscaling mapper throws; and it hands the
      store the autoscaling event, if the mapper built one, and nothing else. */
  function HandleMessage(m: Received): (r: MessageOutcome)
    ensures m.envelope.None? ==> r.failed && !r.deleteMessage && r.handled == []
    ensures m.envelope.Some? ==>
      var env := m.envelope.value;
      var mapped := AsgTerminationToInterruptionEvent(env, m.message, m.lookups);
      && (r.deleteMessage <==> env.source == Some("aws.ec2") || env.source == Some("aws.health"))
      && (r.failed <==>
            env.source !in {Some("aws.autoscaling"), Some("aws.ec2"), Some("aws.health")}
            || (env.source == Some("aws.autoscaling") && mapped.Failure?))
      && r.handled == (if env.source == Some("aws.autoscaling") && mapped.Success? then [mapped.value] else [])
  {
    match m.envelope
    case None => MessageOutcome([], false, true)
    case Some(env) =>
      var ws := ProcessEventBridgeEvent(env, m.message, m.lookups);
      assert |ws| == 1 ==> ws[1..] == [];
      ProcessInterruptionEvents(ws)
  }

  /** The interruption action, `Store.AddInterruptionEvent`, applied to each event in order. */
  function AddAll(s: Store, es: seq<InterruptionEvent>): (r: Store)
    ensures forall i :: 0 <= i < |es| ==> es[i].eventId in r.events
    ensures forall k :: k in s.events ==> k in r.events && r.events[k] == s.events[k]
    ensures forall k :: k in r.events ==> k in s.events || exists i :: 0 <= i < |es| && es[i].eventId == k
    ensures r.ignored == s.ignored
    ensures Valid(s) ==> Valid(r)
    decreases |es|
  {
    if |es| == 0 then s
    else
      var r := AddAll(AddInterruptionEvent(s, es[0]), es[1..]);
      assert forall i :: 1 <= i < |es| ==> es[i] == es[1..][i - 1];
      r
  }

  /** Adding events whose ids are all tracked already changes nothing. */
  lemma {:induction false} AddAllTracked(s: Store, es: seq<InterruptionEvent>)
    requires forall i :: 0 <= i < |es| ==> es[i].eventId in s.events
    ensures AddAll(s, es) == s
    decreases |es|
  {
    if |es| > 0 {
      AddAllTracked(s, es[1..]);
    }
  }

  /** Handing over two lists in turn is handing over their concatenation. */
  lemma {:induction false} AddAllAppend(s: Store, a: seq<InterruptionEvent>, b: seq<InterruptionEvent>)
    ensures AddAll(s, a + b) == AddAll(AddAll(s, a), b)
    decreases |a|
  {
    if |a| == 0 {
      assert a + b == b;
    } else {
      assert (a + b)[0] == a[0];
      assert (a + b)[1..] == a[1..] + b;
      AddAllAppend(AddInterruptionEvent(s, a[0]), a[1..], b);
    }
  }

  /** Shifting a set of indices by one keeps its size. */
  lemma ShiftKeepsSize(a: set<int>)
    ensures |set i | i in a :: i + 1| == |a|
    decreases |a|
  {
    if exists x :: x in a {
      var x :| x in a;
      ShiftKeepsSize(a - {x});
      var rest := set i | i in a - {x} :: i + 1;
      var all := set i | i in a :: i + 1;
      forall y | y in all ensures y in rest + {x + 1} {
        var i :| i in a && y == i + 1;
        if i != x {
          assert i in a - {x};
        }
      }
      forall y | y in rest + {x + 1} ensures y in all {
        if y != x + 1 {
          var i :| i in a - {x} && y == i + 1;
        }
      }
      assert all == rest + {x + 1};
      assert x + 1 !in rest;
    } else {
      assert a == {};
      assert (set i | i in a :: i + 1) == {};
    }
  }

  /** One of the two flags of an outcome: whether it deletes the message, or whether it
      failed. */
  predicate Flag(o: MessageOutcome, deleting: bool)
  {
    if deleting then o.deleteMessage else o.failed
  }

  /** The raised flags of a list, counted head first. */
  lemma CountCons(f: seq<bool>)
    requires |f| > 0
    ensures |set i | 0 <= i < |f| && f[i]| == (if f[0] then 1 else 0) + |set i | 0 <= i < |f[1..]| && f[1..][i]|
  {
    var tail := set i | 0 <= i < |f[1..]| && f[1..][i];
    var shifted := set i | i in tail :: i + 1;
    ShiftKeepsSize(tail);
    var head: set<int> := if f[0] then {0} else {};
    var all := set i | 0 <= i < |f| && f[i];
    forall i | i in all ensures i in head + shifted {
      if i > 0 {
        assert f[1..][i - 1] == f[i];
        assert i - 1 in tail;
      }
    }
    assert all == head + shifted;
  }

  /** The flag of every message of a batch. */
  function Flags(msgs: seq<Received>, deleting: bool): (f: seq<bool>)
    ensures |f| == |msgs|
    ensures forall i :: 0 <= i < |msgs| ==> f[i] == Flag(HandleMessage(msgs[i]), deleting)
  {
    seq(|msgs|, i requires 0 <= i < |msgs| => Flag(HandleMessage(msgs[i]), deleting))
  }

  /** The positions of the flagged messages are the raised positions of their flags. */
  lemma FlaggedPositions(msgs: seq<Received>, deleting: bool)
    ensures (set i | 0 <= i < |msgs| && Flag(HandleMessage(msgs[i]), deleting))
      == (set i | 0 <= i < |Flags(msgs, deleting)| && Flags(msgs, deleting)[i])
  {
    var f := Flags(msgs, deleting);
    assert forall i :: 0 <= i < |msgs| ==> (Flag(HandleMessage(msgs[i]), deleting) <==> f[i]);
  }

  /** The messages of a batch whose outcome raises a flag, counted head first. */
  lemma FlaggedCons(msgs: seq<Received>, deleting: bool)
    requires |msgs| > 0
    ensures |set i | 0 <= i < |msgs| && Flag(HandleMessage(msgs[i]), deleting)|
      == (if Flag(HandleMessage(msgs[0]), deleting) then 1 else 0)
         + |set i | 0 <= i < |msgs[1..]| && Flag(HandleMessage(msgs[1..][i]), deleting)|
  {
    CountCons(Flags(msgs, deleting));
    FlaggedPositions(msgs, deleting);
    FlaggedPositions(msgs[1..], deleting);
    FlagsTail(msgs, deleting);
  }

  /** The flags of a batch without its head are the flags of the rest of the batch. */
  lemma FlagsTail(msgs: seq<Received>, deleting: bool)
    requires |msgs| > 0
    ensures Flags(msgs, deleting)[1..] == Flags(msgs[1..], deleting)
  {
    var f := Flags(msgs, deleting);
    forall i | 0 <= i < |msgs| - 1 ensures f[1..][i] == Flags(msgs[1..], deleting)[i] {
      assert msgs[1..][i] == msgs[i + 1];
    }
  }

  /** The elements of `xs` at the raised positions of `flags`, in order. */
  function Select<T(!new)>(flags: seq<bool>, xs: seq<T>): (r: seq<T>)
    requires |flags| == |xs|
    ensures |r| == |set i | 0 <= i < |flags| && flags[i]|
    ensures forall x :: x in r <==> exists i :: 0 <= i < |xs| && flags[i] && xs[i] == x
    decreases |xs|
  {
    if |xs| == 0 then []
    else
      var rest := Select(flags[1..], xs[1..]);
      CountCons(flags);
      assert forall x :: x in rest ==> exists i :: 0 <= i < |xs| && flags[i] && xs[i] == x by {
        forall x | x in rest ensures exists i :: 0 <= i < |xs| && flags[i] && xs[i] == x {
          var j :| 0 <= j < |xs[1..]| && flags[1..][j] && xs[1..][j] == x;
          assert flags[j + 1] && xs[j + 1] == x;
        }
      }
      assert forall i :: 1 <= i < |xs| && flags[i] ==> xs[i] in rest by {
        forall i | 1 <= i < |xs| && flags[i] ensures xs[i] in rest {
          assert flags[1..][i - 1] && xs[1..][i - 1] == xs[i];
        }
      }
      (if flags[0] then [xs[0]] else []) + rest
  }

  /** The receipt handle of every message of a batch. */
  function Handles(msgs: seq<Received>): (r: seq<Option<string>>)
    ensures |r| == |msgs| && forall i :: 0 <= i < |msgs| ==> r[i] == msgs[i].message.receiptHandle
  {
    seq(|msgs|, i requires 0 <= i < |msgs| => msgs[i].message.receiptHandle)
  }

  /** The receipt handles of the messages whose outcome deletes them, in batch order: one per
      such message, and a handle appears exactly when a deleted message carries it. */
  function DeletedHandles(msgs: seq<Received>): (r: seq<Option<string>>)
    ensures |r| == |set i | 0 <= i < |msgs| && Flag(HandleMessage(msgs[i]), true)|
    ensures forall h :: h in r <==>
      exists i :: 0 <= i < |msgs| && HandleMessage(msgs[i]).deleteMessage && msgs[i].message.receiptHandle == h
  {
    FlaggedPositions(msgs, true);
    Select(Flags(msgs, true), Handles(msgs))
  }

  /** The deleted handles of a batch, head first. */
  lemma DeletedHandlesCons(msgs: seq<Received>)
    requires |msgs| > 0
    ensures DeletedHandles(msgs)
      == (if HandleMessage(msgs[0]).deleteMessage then [msgs[0].message.receiptHandle] else [])
         + DeletedHandles(msgs[1..])
  {
    FlagsTail(msgs, true);
    assert Handles(msgs)[1..] == Handles(msgs[1..]);
  }

  /** The number of messages of the batch that fail. */
  function FailedMessages(msgs: seq<Received>): (n: nat)
    ensures n == |set i | 0 <= i < |msgs| && Flag(HandleMessage(msgs[i]), false)|
    ensures n <= |msgs|
    ensures n == |msgs| <==> forall i :: 0 <= i < |msgs| ==> HandleMessage(msgs[i]).failed
    decreases |msgs|
  {
    if |msgs| == 0 then 0
    else
      var rest := FailedMessages(msgs[1..]);
      assert forall i :: 1 <= i < |msgs| ==> msgs[i] == msgs[1..][i - 1];
      FlaggedCons(msgs, false);
      (if HandleMessage(msgs[0]).failed then 1 else 0) + rest
  }

  /** The events every message of the batch hands to the store, in batch order. */
  function HandledAll(msgs: seq<Received>): (r: seq<InterruptionEvent>)
    ensures forall e :: e in r <==> exists i :: 0 <= i < |msgs| && e in HandleMessage(msgs[i]).handled
    decreases |msgs|
  {
    if |msgs| == 0 then []
    else
      var rest := HandledAll(msgs[1..]);
      assert forall i :: 1 <= i < |msgs| ==> msgs[i] == msgs[1..][i - 1];
      HandleMessage(msgs[0]).handled + rest
  }

  /** What one batch does: the store after the interruption actions, the receipt handles
      deleted immediately (in order), and the number of failed messages. */
  datatype Pass = Pass(store: Store, deleted: seq<Option<string>>, failedCount: nat)

  function ProcessBatch(s: Store, msgs: seq<Received>): (r: Pass)
    ensures r.deleted == DeletedHandles(msgs)
    ensures r.store == AddAll(s, HandledAll(msgs))
    ensures r.failedCount == FailedMessages(msgs)
    ensures forall k :: k in s.events ==> k in r.store.events && r.store.events[k] == s.events[k]
    ensures r.store.ignored == s.ignored
    ensures Valid(s) ==> Valid(r.store)
    decreases |msgs|
  {
    if |msgs| == 0 then Pass(s, [], 0)
    else
      var o := HandleMessage(msgs[0]);
      var rest := ProcessBatch(AddAll(s, o.handled), msgs[1..]);
      DeletedHandlesCons(msgs);
      assert HandledAll(msgs) == o.handled + HandledAll(msgs[1..]);
      AddAllAppend(s, o.handled, HandledAll(msgs[1..]));
      Pass(rest.store,
           (if o.deleteMessage then [msgs[0].message.receiptHandle] else []) + rest.deleted,
           (if o.failed then 1 else 0) + rest.failedCount)
  }

  /** One iteration of `Monitor`. `noneProcessed` is the "none of the waiting queue events
      could be processed" exception; it is caught by the loop's own handler, like a failed
      receive, so both only make the loop back off before the next poll. */
  datatype Iteration = Iteration(store: Store, deleted: seq<Option<string>>, noneProcessed: bool, backoff: bool)

  function MonitorIteration(s: Store, received: Result<seq<Received>, Error>): (r: Iteration)
    ensures r.noneProcessed <==>
      received.Success? && |received.value| > 0
      && forall i :: 0 <= i < |received.value| ==> HandleMessage(received.value[i]).failed
    ensures r.backoff <==> received.Failure? || r.noneProcessed
    ensures received.Failure? ==> r.store == s && r.deleted == []
    ensures forall k :: k in s.events ==> k in r.store.events && r.store.events[k] == s.events[k]
    ensures r.store.ignored == s.ignored
    ensures Valid(s) ==> Valid(r.store)
  {
    match received
    case Failure(_) => Iteration(s, [], false, true)
    case Success(msgs) =>
      var p := ProcessBatch(s, msgs);
      var noneProcessed := |msgs| > 0 && p.failedCount == |msgs|;
      Iteration(p.store, p.deleted, noneProcessed, noneProcessed)
  }

  // The post-drain task

  /** The AWS calls a hook makes. */
  datatype AwsCall =
    | CompleteLifecycleAction(
        autoScalingGroupName: Option<string>,
        lifecycleHookName: Option<string>,
        lifecycleActionToken: Option<string>,
        instanceId: Option<string>,
        lifecycleActionResult: string)
    | DeleteMessage(receiptHandle: Option<string>)

  /** Running a hook: complete the lifecycle action with "CONTINUE", then, only if that call
      succeeded, delete the message. */
  function HookCalls(h: Hook, ackSucceeds: bool): (r: seq<AwsCall>)
    ensures h.NoHook? <==> r == []
    ensures h.CompleteLifecycleAndDelete? ==>
      && r[0] == CompleteLifecycleAction(h.autoScalingGroupName, h.lifecycleHookName,
                                         h.lifecycleActionToken, h.instanceId, LifecycleContinue)
      && (|r| == 2 <==> ackSucceeds) && |r| <= 2
      && (ackSucceeds ==> r[1] == DeleteMessage(h.receiptHandle))
  {
    match h
    case NoHook => []
    case CompleteLifecycleAndDelete(asg, hook, token, instance, receipt) =>
      [CompleteLifecycleAction(asg, hook, token, instance, LifecycleContinue)]
      + (if ackSucceeds then [DeleteMessage(receipt)] else [])
  }
}

/** Data shared by the event store, the queue monitor and the drain service
    (Models/InterruptionEvent.cs, Models/NomadNode.cs). */
module Models {

  /** A C# reference that may be null: `None` plays the part of null. */
  datatype Option<+T> = None | Some(value: T)

  /** An operation that either produces a value or throws. */
  datatype Result<+T, +E> = Success(value: T) | Failure(error: E)

  /** The exceptions the pipeline raises, by kind; their message texts are not modelled. */
  datatype Error =
    | DeserializationFailed
    | DescribeInstancesFailed
    | NoReservations
    | NoInstance
    | TagDictionaryFailed
    | UnsupportedSource(source: Option<string>)
    | DateTimeOutOfRange

  /** `string.IsNullOrEmpty`. */
  predicate IsNullOrEmpty(s: Option<string>)
  {
    s.None? || s.value == ""
  }

  /** What C# string interpolation prints for a possibly-null string: null prints as nothing. */
  function Interpolate(s: Option<string>): string
  {
    if s.None? then "" else s.value
  }

  /** The deferred `PreDrainTask` / `PostDrainTask` of an event, as data instead of a closure.
      `NoHook` is a null task. `CompleteLifecycleAndDelete` is the task the autoscaling mapper
      binds: acknowledge the lifecycle hook with the detail's group, hook, token and instance,
      then delete the queue message with the receipt handle it arrived with. */
  datatype Hook =
    | NoHook
    | CompleteLifecycleAndDelete(
        autoScalingGroupName: Option<string>,
        lifecycleHookName: Option<string>,
        lifecycleActionToken: Option<string>,
        instanceId: Option<string>,
        receiptHandle: Option<string>)

  /** An interruption event, with the fields the pipeline sets or reads. `startTime` is a
      DateTime in ticks (100 ns units since 0001-01-01). The event id is never null: every
      event is built by a mapper that derives it from a literal prefix. */
  datatype InterruptionEvent = InterruptionEvent(
    eventId: string,
    kind: string,
    monitor: string,
    nodeName: Option<string>,
    privateIpAddress: Option<string>,
    isManaged: bool,
    autoScalingGroupName: Option<string>,
    instanceId: Option<string>,
    providerId: Option<string>,
    startTime: int,
    inProgress: bool,
    nodeProcessed: bool,
    preDrainTask: Hook,
    postDrainTask: Hook)

  /** One entry of `nomad node status -json`. */
  datatype NomadNode = NomadNode(
    address: Option<string>,
    id: Option<string>,
    drain: bool,
    status: Option<string>)
}

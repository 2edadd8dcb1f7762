/** The in-memory interruption-event ledger (Services/Store.cs), as pure state transformers.
    Each operation is atomic: the locks of the source are not modelled. The wall clock is the
    parameter `now` (DateTime ticks) and the configured grace period is `grace` (seconds). */
module EventStore {
  import opened Models

  /** Calls of `GetActiveEvent` between two garbage collections. */
  const CleaningPeriod: nat := 7200
  /** Calls of `GetActiveEvent` between two statistics lines. */
  const LoggingPeriod: nat := 1800
  /** `TimeSpan.FromSeconds(1).Ticks`. */
  const TicksPerSecond: int := 10_000_000
  /** `DateTime.MaxValue.Ticks`; `DateTime.MinValue.Ticks` is 0. */
  const MaxDateTimeTicks: int := 3_155_378_975_999_999_999

  datatype Store = Store(
    events: map<string, InterruptionEvent>,
    ignored: set<string>,
    atLeastOneEvent: bool,
    callsSinceLastClean: nat,
    callsSinceLastLog: nat)

  /** What the statistics pass reports. */
  datatype Stats = Stats(size: nat, drainable: nat)

  /** The invariant every operation keeps: each event is filed under its own id, the two
      counters stay below their periods, and a tracked event that is not ignored has set the
      sticky flag. */
  ghost predicate Valid(s: Store)
  {
    && (forall k :: k in s.events ==> s.events[k].eventId == k)
    && s.callsSinceLastClean < CleaningPeriod
    && s.callsSinceLastLog < LoggingPeriod
    && (forall k :: k in s.events && k !in s.ignored ==> s.atLeastOneEvent)
  }

  function NewStore(): (s: Store)
    ensures Valid(s)
    ensures s.events == map[] && s.ignored == {} && !s.atLeastOneEvent
  {
    Store(map[], {}, false, 0, 0)
  }

  /** Removes the event with this id, if tracked. */
  function CancelInterruptionEvent(s: Store, eventId: string): (r: Store)
    ensures eventId !in r.events
    ensures forall k :: k != eventId ==> (k in r.events <==> k in s.events)
    ensures forall k :: k in r.events ==> r.events[k] == s.events[k]
    ensures r.(events := s.events) == s
    ensures Valid(s) ==> Valid(r)
  {
    s.(events := s.events - {eventId})
  }

  /** Tracks a new event. An id already tracked is left as it is, whatever the flags of the
      new copy; a new id that is not ignored sets the sticky flag. */
  function AddInterruptionEvent(s: Store, e: InterruptionEvent): (r: Store)
    ensures e.eventId in s.events ==> r == s
    ensures e.eventId !in s.events ==>
      && r.events.Keys == s.events.Keys + {e.eventId}
      && r.events[e.eventId] == e
      && (forall k :: k in s.events ==> r.events[k] == s.events[k])
      && r.atLeastOneEvent == (s.atLeastOneEvent || e.eventId !in s.ignored)
      && r.(events := s.events, atLeastOneEvent := s.atLeastOneEvent) == s
    ensures s.atLeastOneEvent ==> r.atLeastOneEvent
    ensures Valid(s) ==> Valid(r)
  {
    if e.eventId in s.events then s
    else
      s.(events := s.events[e.eventId := e],
         atLeastOneEvent := if e.eventId !in s.ignored then true else s.atLeastOneEvent)
  }

  /** The instant from which an event may be drained: its start time minus the grace period. */
  function DrainTime(e: InterruptionEvent, grace: int): int
  {
    e.startTime - grace * TicksPerSecond
  }

  /** Time left until the event may be drained; zero or less means it is due. */
  function TimeUntilDrain(e: InterruptionEvent, now: int, grace: int): (r: int)
    ensures r <= 0 <==> now >= DrainTime(e, grace)
  {
    (e.startTime - grace * TicksPerSecond) - now
  }

  /** `TimeUntilDrain` as the source computes it: `DateTime.Add` throws when the drain time
      falls outside the DateTime range, which a start time of `DateTime.MinValue` (the value a
      message without a "time" field decodes to) does for any positive grace period. */
  function TimeUntilDrainAsWritten(e: InterruptionEvent, now: int, grace: int): (r: Result<int, Error>)
    ensures r.Failure? <==> !(0 <= DrainTime(e, grace) <= MaxDateTimeTicks)
    ensures r.Success? ==> r.value == TimeUntilDrain(e, now, grace)
  {
    var drainTime := e.startTime - grace * TicksPerSecond;
    if drainTime < 0 || drainTime > MaxDateTimeTicks then Failure(DateTimeOutOfRange)
    else Success(drainTime - now)
  }

  /** `ShouldEventDrain`: not ignored, not claimed, not processed, and due. */
  predicate ShouldEventDrain(s: Store, e: InterruptionEvent, now: int, grace: int)
  {
    e.eventId !in s.ignored && !e.inProgress && !e.nodeProcessed && TimeUntilDrain(e, now, grace) <= 0
  }

  /** `ShouldEventDrain` with the as-written time computation. The conditions are evaluated
      left to right, so only an unignored, unclaimed, unprocessed event reaches `DateTime.Add`. */
  function ShouldEventDrainAsWritten(s: Store, e: InterruptionEvent, now: int, grace: int): (r: Result<bool, Error>)
    ensures r.Failure? <==>
      e.eventId !in s.ignored && !e.inProgress && !e.nodeProcessed && !(0 <= DrainTime(e, grace) <= MaxDateTimeTicks)
    ensures r.Success? ==> r.value == ShouldEventDrain(s, e, now, grace)
  {
    if e.eventId in s.ignored || e.inProgress || e.nodeProcessed then Success(false)
    else
      match TimeUntilDrainAsWritten(e, now, grace)
      case Failure(err) => Failure(err)
      case Success(t) => Success(t <= 0)
  }

  /** The tracked event filed under `k` is drain-ready. */
  predicate ReadyAt(s: Store, k: string, now: int, grace: int)
  {
    k in s.events && ShouldEventDrain(s, s.events[k], now, grace)
  }

  /** `ShouldDrainNode`: some tracked event is drain-ready. */
  predicate ShouldDrainNode(s: Store, now: int, grace: int)
  {
    exists k :: k in s.events && ShouldEventDrain(s, s.events[k], now, grace)
  }

  /** The scan of `GetActiveEvent`: the first drain-ready event in the enumeration `order`
      of the dictionary. */
  function FirstReady(s: Store, order: seq<string>, now: int, grace: int): (r: Option<InterruptionEvent>)
    ensures r.None? <==> forall i :: 0 <= i < |order| ==> !ReadyAt(s, order[i], now, grace)
    ensures r.Some? ==>
      exists i :: 0 <= i < |order| && ReadyAt(s, order[i], now, grace) && s.events[order[i]] == r.value
        && forall j :: 0 <= j < i ==> !ReadyAt(s, order[j], now, grace)
  {
    if |order| == 0 then None
    else if ReadyAt(s, order[0], now, grace) then Some(s.events[order[0]])
    else
      var r := FirstReady(s, order[1..], now, grace);
      if r.Some? then
        var i :| 0 <= i < |order[1..]| && ReadyAt(s, order[1..][i], now, grace) && s.events[order[1..][i]] == r.value
          && forall j :: 0 <= j < i ==> !ReadyAt(s, order[1..][j], now, grace);
        assert order[1..][i] == order[i + 1];
        assert forall j :: 0 <= j < i + 1 ==> !ReadyAt(s, order[j], now, grace) by {
          forall j | 0 <= j < i + 1
            ensures !ReadyAt(s, order[j], now, grace)
          {
            if j > 0 {
              assert order[j] == order[1..][j - 1];
            }
          }
        }
        r
      else
        assert forall i :: 0 <= i < |order| ==> !ReadyAt(s, order[i], now, grace) by {
          forall i | 0 <= i < |order|
            ensures !ReadyAt(s, order[i], now, grace)
          {
            if i > 0 {
              assert order[i] == order[1..][i - 1];
            }
          }
        }
        r
  }

  /** `CleanPeriodically`: counts the call; on the `CleaningPeriod`-th call removes exactly
      the processed events and restarts the count. */
  function CleanPeriodically(s: Store): (r: Store)
    ensures s.callsSinceLastClean + 1 < CleaningPeriod ==>
      r == s.(callsSinceLastClean := s.callsSinceLastClean + 1)
    ensures s.callsSinceLastClean + 1 >= CleaningPeriod ==>
      && r.callsSinceLastClean == 0
      && (forall k :: k in r.events <==> k in s.events && !s.events[k].nodeProcessed)
      && (forall k :: k in r.events ==> r.events[k] == s.events[k])
      && r.(events := s.events, callsSinceLastClean := s.callsSinceLastClean) == s
    ensures Valid(s) ==> Valid(r)
  {
    var calls := s.callsSinceLastClean + 1;
    if calls < CleaningPeriod then s.(callsSinceLastClean := calls)
    else
      var kept := map k | k in s.events && !s.events[k].nodeProcessed :: s.events[k];
      s.(events := kept, callsSinceLastClean := 0)
  }

  /** `LogPeriodically`: counts the call; on the `LoggingPeriod`-th call reports the store
      size and the number of drain-ready events and restarts the count. Never touches events. */
  function LogPeriodically(s: Store, now: int, grace: int): (r: (Store, Option<Stats>))
    ensures r.0.(callsSinceLastLog := s.callsSinceLastLog) == s
    ensures r.1.Some? <==> s.callsSinceLastLog + 1 >= LoggingPeriod
    ensures r.1.None? ==> r.0.callsSinceLastLog == s.callsSinceLastLog + 1
    ensures r.1.Some? ==>
      && r.0.callsSinceLastLog == 0
      && r.1.value.size == |s.events|
      && r.1.value.drainable <= r.1.value.size
      && (r.1.value.drainable > 0 <==> ShouldDrainNode(s, now, grace))
    ensures Valid(s) ==> Valid(r.0)
  {
    var calls := s.callsSinceLastLog + 1;
    if calls < LoggingPeriod then (s.(callsSinceLastLog := calls), None)
    else
      var drainable := set k | k in s.events && ShouldEventDrain(s, s.events[k], now, grace);
      DrainableCount(s, drainable, now, grace);
      (s.(callsSinceLastLog := 0), Some(Stats(|s.events|, |drainable|)))
  }

  lemma DrainableCount(s: Store, drainable: set<string>, now: int, grace: int)
    requires drainable == set k | k in s.events && ShouldEventDrain(s, s.events[k], now, grace)
    ensures |drainable| <= |s.events|
    ensures |drainable| > 0 <==> ShouldDrainNode(s, now, grace)
  {
    assert s.events.Keys == drainable + (s.events.Keys - drainable);
    if ShouldDrainNode(s, now, grace) {
      var k :| k in s.events && ShouldEventDrain(s, s.events[k], now, grace);
      assert k in drainable;
    }
  }

  /** What one `GetActiveEvent` call produces. */
  datatype Active = Active(store: Store, event: Option<InterruptionEvent>, stats: Option<Stats>)

  /** `GetActiveEvent`: run both maintenance passes, then return the first drain-ready event
      in enumeration order. The event is returned, not claimed: no flag of any event changes. */
  function GetActiveEvent(s: Store, order: seq<string>, now: int, grace: int): (r: Active)
    ensures r.event.Some? ==>
      exists k :: ReadyAt(r.store, k, now, grace) && r.store.events[k] == r.event.value
    ensures (forall k :: k in r.store.events ==> k in order) ==>
      (r.event.None? <==> !ShouldDrainNode(r.store, now, grace))
    ensures forall k :: k in r.store.events ==> k in s.events && r.store.events[k] == s.events[k]
    ensures forall k :: k in s.events && !s.events[k].nodeProcessed ==> k in r.store.events
    ensures r.store.ignored == s.ignored && r.store.atLeastOneEvent == s.atLeastOneEvent
    ensures Valid(s) ==> Valid(r.store)
  {
    var cleaned := CleanPeriodically(s);
    var (logged, stats) := LogPeriodically(cleaned, now, grace);
    var found := FirstReady(logged, order, now, grace);
    FirstReadyComplete(logged, order, now, grace);
    Active(logged, found, stats)
  }

  /** When the enumeration visits every key, the scan misses no drain-ready event. */
  lemma FirstReadyComplete(s: Store, order: seq<string>, now: int, grace: int)
    ensures (forall k :: k in s.events ==> k in order) ==>
      (FirstReady(s, order, now, grace).None? <==> !ShouldDrainNode(s, now, grace))
  {
  }

  /** `MarkAllAsProcessed`: every event of the node becomes processed; keys and every other
      field stay as they were. */
  function MarkAllAsProcessed(s: Store, nodeName: Option<string>): (r: Store)
    ensures r.events.Keys == s.events.Keys
    ensures forall k :: k in s.events ==>
      r.events[k].nodeProcessed == (s.events[k].nodeProcessed || s.events[k].nodeName == nodeName)
    ensures forall k :: k in s.events ==>
      r.events[k].(nodeProcessed := s.events[k].nodeProcessed) == s.events[k]
    ensures r.(events := s.events) == s
    ensures Valid(s) ==> Valid(r)
  {
    var marked := map k | k in s.events ::
      if s.events[k].nodeName == nodeName then s.events[k].(nodeProcessed := true) else s.events[k];
    s.(events := marked)
  }

  /** `IgnoreEvent`: a null or empty id is dropped; any other id joins the ignore set for good. */
  function IgnoreEvent(s: Store, eventId: Option<string>): (r: Store)
    ensures IsNullOrEmpty(eventId) ==> r == s
    ensures !IsNullOrEmpty(eventId) ==> r.ignored == s.ignored + {eventId.value}
    ensures s.ignored <= r.ignored
    ensures r.(ignored := s.ignored) == s
    ensures Valid(s) ==> Valid(r)
  {
    if IsNullOrEmpty(eventId) then s else s.(ignored := s.ignored + {eventId.value})
  }

  /** `ShouldUncordonNode`: never before an unignored event was seen; otherwise exactly when no
      unignored tracked event names the node. The source's separate empty-store answer is the
      special case where no event is tracked at all. */
  function ShouldUncordonNode(s: Store, nodeName: Option<string>): (r: bool)
    ensures !s.atLeastOneEvent ==> !r
    ensures s.atLeastOneEvent && |s.events| == 0 ==> r
    ensures s.atLeastOneEvent ==>
      (r <==> forall k :: k in s.events && k !in s.ignored ==> s.events[k].nodeName != nodeName)
  {
    if !s.atLeastOneEvent then false
    else if |s.events| == 0 then true
    else !exists k :: k in s.events && k !in s.ignored && s.events[k].nodeName == nodeName
  }

  // Properties relating the operations

  /** An event nobody has touched is drain-ready exactly from its drain time on, and then
      stays drain-ready as time passes. */
  lemma ReadyExactlyFromDrainTime(s: Store, e: InterruptionEvent, now: int, later: int, grace: int)
    requires e.eventId !in s.ignored && !e.inProgress && !e.nodeProcessed
    requires now <= later
    ensures ShouldEventDrain(s, e, now, grace) <==> now >= DrainTime(e, grace)
    ensures ShouldEventDrain(s, e, now, grace) ==> ShouldEventDrain(s, e, later, grace)
  {
  }

  /** Redelivery: adding a second copy of an event id already added changes nothing. */
  lemma AddIsIdempotent(s: Store, e: InterruptionEvent, copy: InterruptionEvent)
    requires copy.eventId == e.eventId
    ensures AddInterruptionEvent(AddInterruptionEvent(s, e), copy) == AddInterruptionEvent(s, e)
  {
  }

  /** An ignored id is never drain-ready, whatever the time, so `GetActiveEvent` never returns
      it and `ShouldDrainNode` never counts it. */
  lemma IgnoredNeverReady(s: Store, eventId: string, order: seq<string>, now: int, grace: int)
    requires Valid(s)
    ensures var r := IgnoreEvent(s, Some(eventId));
      eventId != "" ==>
        && !ReadyAt(r, eventId, now, grace)
        && (var a := GetActiveEvent(r, order, now, grace);
            a.event.Some? ==> a.event.value.eventId != eventId)
  {
  }

  /** After `MarkAllAsProcessed(n)` no event of node `n` is drain-ready at any time. */
  lemma MarkedNodeNeverReady(s: Store, nodeName: Option<string>, k: string, now: int, grace: int)
    requires k in s.events && s.events[k].nodeName == nodeName
    ensures !ReadyAt(MarkAllAsProcessed(s, nodeName), k, now, grace)
  {
  }

  /** `ShouldDrainNode` and `GetActiveEvent` agree: the collection pass only removes processed
      events, which are never drain-ready, so it cannot change the answer. */
  lemma ShouldDrainAgreesWithGetActive(s: Store, order: seq<string>, now: int, grace: int)
    requires forall k :: k in s.events ==> k in order
    ensures ShouldDrainNode(s, now, grace) <==> GetActiveEvent(s, order, now, grace).event.Some?
  {
  }

  /** The sticky flag: a store that never saw an event never asks for an uncordon. */
  lemma NewStoreNeverUncordons(nodeName: Option<string>)
    ensures !ShouldUncordonNode(NewStore(), nodeName)
  {
  }

  /** Tracking a new unignored event for a node blocks that node's uncordon until the event
      is gone or ignored. */
  lemma AddBlocksUncordon(s: Store, e: InterruptionEvent)
    requires e.eventId !in s.events && e.eventId !in s.ignored
    ensures !ShouldUncordonNode(AddInterruptionEvent(s, e), e.nodeName)
  {
  }

  /** `n` consecutive `CleanPeriodically` calls, as `n` calls of `GetActiveEvent` make them. */
  function CleanTimes(s: Store, n: nat): Store
    decreases n
  {
    if n == 0 then s else CleanTimes(CleanPeriodically(s), n - 1)
  }

  /** Cleaning never adds or alters an event, and never removes an unprocessed one. */
  lemma {:induction false} CleaningOnlyDropsProcessed(s: Store, n: nat)
    ensures forall k :: k in CleanTimes(s, n).events ==> k in s.events && CleanTimes(s, n).events[k] == s.events[k]
    ensures forall k :: k in s.events && !s.events[k].nodeProcessed ==> k in CleanTimes(s, n).events
    ensures s.callsSinceLastClean + n < CleaningPeriod ==> CleanTimes(s, n).events == s.events
    decreases n
  {
    if n > 0 {
      CleaningOnlyDropsProcessed(CleanPeriodically(s), n - 1);
    }
  }

  /** Within one cleaning period every processed event is collected, while every unprocessed
      event, however old, survives unchanged. */
  lemma {:induction false} CollectedWithinOnePeriod(s: Store, n: nat)
    requires Valid(s)
    requires s.callsSinceLastClean + n >= CleaningPeriod
    ensures forall k :: k in CleanTimes(s, n).events ==> !CleanTimes(s, n).events[k].nodeProcessed
    ensures forall k :: k in s.events && !s.events[k].nodeProcessed ==>
      k in CleanTimes(s, n).events && CleanTimes(s, n).events[k] == s.events[k]
    decreases n
  {
    var c := CleanPeriodically(s);
    assert CleanTimes(s, n) == CleanTimes(c, n - 1);
    CleaningOnlyDropsProcessed(c, n - 1);
    CleaningOnlyDropsProcessed(s, n);
    if s.callsSinceLastClean + 1 < CleaningPeriod {
      CollectedWithinOnePeriod(c, n - 1);
    }
  }
}

/** The drain service (Services/NomadDrainingService.cs): what one `Drain` call does, as a
    trace of abstract actions plus the updated event, and one step of the `ExecuteAsync` loop.
    The `nomad` CLI is an input: `listing` is what `node status -json` decodes to, `None` when
    the call or its decoding threw or produced null. */
module NomadDraining {
  import opened Models
  import opened EventStore

  const ReadyStatus := "ready"

  /** The side effects of a drain, in the order they happen. */
  datatype DrainAction =
    | RunHook(hook: Hook)
    | ListNomadNodes
    | EnableNodeDrain(nodeId: string)

  datatype Drained = Drained(actions: seq<DrainAction>, event: InterruptionEvent)

  /** No two drain commands in one trace. */
  predicate SingleDrain(s: seq<DrainAction>)
  {
    forall i, j :: 0 <= i < j < |s| ==> !(s[i].EnableNodeDrain? && s[j].EnableNodeDrain?)
  }

  /** `FirstOrDefault(n => n.Address == address)`. */
  function SelectNode(nodes: seq<NomadNode>, address: Option<string>): (r: Option<NomadNode>)
    ensures r.None? <==> forall i :: 0 <= i < |nodes| ==> nodes[i].address != address
    ensures r.Some? ==>
      exists i :: 0 <= i < |nodes| && nodes[i] == r.value && nodes[i].address == address
        && forall j :: 0 <= j < i ==> nodes[j].address != address
  {
    if |nodes| == 0 then None
    else if nodes[0].address == address then Some(nodes[0])
    else
      var r := SelectNode(nodes[1..], address);
      assert forall i :: 1 <= i < |nodes| ==> nodes[i] == nodes[1..][i - 1];
      if r.Some? then
        var i :| 0 <= i < |nodes[1..]| && nodes[1..][i] == r.value && nodes[1..][i].address == address
          && forall j :: 0 <= j < i ==> nodes[1..][j].address != address;
        assert nodes[i + 1] == r.value;
        r
      else r
  }

  /** A hook runs only when there is one. */
  function HookActions(h: Hook): (r: seq<DrainAction>)
    ensures h.NoHook? <==> r == []
    ensures |r| <= 1 && forall a :: a in r ==> a == RunHook(h)
  {
    if h.NoHook? then [] else [RunHook(h)]
  }

  /** The node `Drain` would drain, if any: the first at the event's address, with an id,
      reported "ready". */
  predicate DrainsNode(e: InterruptionEvent, listing: Option<seq<NomadNode>>, id: string)
  {
    && !IsNullOrEmpty(e.privateIpAddress)
    && listing.Some?
    && var n := SelectNode(listing.value, e.privateIpAddress);
       n.Some? && n.value.id == Some(id) && n.value.status == Some(ReadyStatus)
  }

  /** The guarded part of `Drain`: with an address, list the nodes and drain the first node at
      that address if it has an id and is "ready". A failed listing ends the part, caught. */
  function NodeActions(e: InterruptionEvent, listing: Option<seq<NomadNode>>): (r: seq<DrainAction>)
    ensures IsNullOrEmpty(e.privateIpAddress) <==> r == []
    ensures forall a :: a in r ==> !a.RunHook?
    ensures forall id :: EnableNodeDrain(id) in r <==> DrainsNode(e, listing, id)
    ensures SingleDrain(r)
  {
    if IsNullOrEmpty(e.privateIpAddress) then []
    else
      [ListNomadNodes] +
      match listing
      case None => []
      case Some(nodes) =>
        match SelectNode(nodes, e.privateIpAddress)
        case None => []
        case Some(n) => if n.id.Some? && n.status == Some(ReadyStatus) then [EnableNodeDrain(n.id.value)] else []
  }

  /** `Drain`: pre-drain hook, then at most one drain command, then post-drain hook; the
      event is processed afterwards whichever branch ran. */
  function Drain(e: InterruptionEvent, listing: Option<seq<NomadNode>>): (r: Drained)
    ensures r.event == e.(nodeProcessed := true)
    ensures IsNullOrEmpty(e.privateIpAddress) ==> r.actions == HookActions(e.preDrainTask) + HookActions(e.postDrainTask)
    ensures forall id :: EnableNodeDrain(id) in r.actions <==> DrainsNode(e, listing, id)
    ensures SingleDrain(r.actions)
    ensures var pre := HookActions(e.preDrainTask);
      var post := HookActions(e.postDrainTask);
      && |pre| + |post| <= |r.actions|
      && r.actions[..|pre|] == pre
      && r.actions[|r.actions| - |post|..] == post
      && forall i :: |pre| <= i < |r.actions| - |post| ==> !r.actions[i].RunHook?
  {
    var pre := HookActions(e.preDrainTask);
    var mid := NodeActions(e, listing);
    var post := HookActions(e.postDrainTask);
    HooksAroundCommands(pre, mid, post);
    Drained(pre + mid + post, e.(nodeProcessed := true))
  }

  /** Hook runs added on either side of a trace add no drain command. */
  lemma HooksKeepSingleDrain(h: seq<DrainAction>, s: seq<DrainAction>)
    requires forall a :: a in h ==> a.RunHook?
    requires SingleDrain(s)
    ensures SingleDrain(h + s) && SingleDrain(s + h)
  {
    assert forall i :: 0 <= i < |h| ==> (h + s)[i] == h[i] && h[i] in h;
    assert forall i :: |h| <= i < |h + s| ==> (h + s)[i] == s[i - |h|];
    assert forall i :: 0 <= i < |s| ==> (s + h)[i] == s[i];
    assert forall i :: |s| <= i < |s + h| ==> (s + h)[i] == h[i - |s|] && h[i - |s|] in h;
  }

  /** Hook runs around a stretch of node commands holding at most one drain command. */
  lemma HooksAroundCommands(pre: seq<DrainAction>, mid: seq<DrainAction>, post: seq<DrainAction>)
    requires forall a :: a in pre ==> a.RunHook?
    requires forall a :: a in post ==> a.RunHook?
    requires forall a :: a in mid ==> !a.RunHook?
    requires SingleDrain(mid)
    ensures var actions := pre + mid + post;
      && (forall id :: EnableNodeDrain(id) in actions <==> EnableNodeDrain(id) in mid)
      && SingleDrain(actions)
      && actions[..|pre|] == pre
      && actions[|actions| - |post|..] == post
      && (forall i :: |pre| <= i < |actions| - |post| ==> !actions[i].RunHook?)
  {
  }

  /** One step of the drain loop. */
  datatype Step = Step(store: Store, actions: seq<DrainAction>, drained: Option<InterruptionEvent>)

  /** `ExecuteAsync`, one iteration: ask the store for an active event; with none, do nothing;
      with one, mark it in progress, then drain it. The event object is shared with the store,
      so the store sees both updates. */
  function DrainLoopStep(s: Store, order: seq<string>, now: int, grace: int, listing: Option<seq<NomadNode>>): (r: Step)
    requires Valid(s)
    ensures var a := GetActiveEvent(s, order, now, grace);
      && (r.drained.None? <==> a.event.None?)
      && (a.event.None? ==> r.store == a.store && r.actions == [])
      && (a.event.Some? ==>
            var e := a.event.value;
            && ReadyAt(a.store, e.eventId, now, grace)
            && r.drained == Some(e.(inProgress := true, nodeProcessed := true))
            && r.actions == Drain(e.(inProgress := true), listing).actions
            && r.store.events.Keys == a.store.events.Keys
            && r.store.events[e.eventId] == r.drained.value
            && (forall k :: k in a.store.events && k != e.eventId ==> r.store.events[k] == a.store.events[k])
            && r.store.(events := a.store.events) == a.store)
    ensures Valid(r.store)
    ensures r.drained.Some? ==> forall t :: !ReadyAt(r.store, r.drained.value.eventId, t, grace)
  {
    var a := GetActiveEvent(s, order, now, grace);
    match a.event
    case None => Step(a.store, [], None)
    case Some(e) =>
      var claimed := e.(inProgress := true);
      var d := Drain(claimed, listing);
      Step(a.store.(events := a.store.events[e.eventId := d.event]), d.actions, Some(d.event))
  }
}

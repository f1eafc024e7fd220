/**
 * The event collector: the node-level router between the messaging layer and
 * the local dispatchers. It asks the event service to start or stop
 * streaming a dispatcher's span, and it routes every inbound event feed to
 * the dispatcher the feed names.
 */
module Collector {
  import opened Wrappers
  import opened Uuid
  import opened Eventpb
  import opened Messaging
  import opened Dispatchers

  /** What the inbound handler ends in: a returned error value, or a runtime panic. */
  datatype RecvResult = Returned(err: Option<Error>) | Panicked

  /** The request that starts streaming `span` from `startTs` to dispatcher `id`. */
  function RegisterRequestMessage(serverId: ServerId, id: DispatcherId, span: TableSpan, startTs: Ts): (r: TargetMessage)
    ensures r.to == serverId && r.topic == EventServiceTopic && r.msgType == TypeRegisterDispatcherRequest
    ensures r.message.RegisterRequestPayload?
    ensures Parse(r.message.request.dispatcherId) == Some(id)
    ensures r.message.request.tableSpan == span && r.message.request.serverId == serverId.String()
    ensures !r.message.request.remove && r.message.request.startTs == startTs
  {
    ParseEncode(id);
    TargetMessage(serverId, EventServiceTopic, TypeRegisterDispatcherRequest,
      RegisterRequestPayload(RegisterDispatcherRequest(Encode(id), span, false, startTs, serverId.String())))
  }

  /** The request that stops streaming to dispatcher `id`; its start timestamp is left at zero. */
  function RemoveRequestMessage(serverId: ServerId, id: DispatcherId, span: TableSpan): (r: TargetMessage)
    ensures r.to == serverId && r.topic == EventServiceTopic && r.msgType == TypeRegisterDispatcherRequest
    ensures r.message.RegisterRequestPayload?
    ensures Parse(r.message.request.dispatcherId) == Some(id)
    ensures r.message.request.tableSpan == span && r.message.request.serverId == serverId.String()
    ensures r.message.request.remove && r.message.request.startTs == 0
  {
    ParseEncode(id);
    TargetMessage(serverId, EventServiceTopic, TypeRegisterDispatcherRequest,
      RegisterRequestPayload(RegisterDispatcherRequest(Encode(id), span, true, 0, serverId.String())))
  }

  /** Every dispatcher in the registry is recorded under its own id. */
  predicate KeyedById(registry: map<DispatcherId, Dispatcher>)
  {
    forall id | id in registry :: registry[id].id == id
  }

  /**
   * The dispatcher an inbound message is delivered to, if any: only an event
   * feed whose dispatcher text parses to a registered id has one.
   */
  function Target(registry: map<DispatcherId, Dispatcher>, msg: TargetMessage): (r: Option<Dispatcher>)
    ensures r.Some? <==>
      && msg.message.EventFeedPayload?
      && Parse(msg.message.feed.dispatcherId).Some?
      && Parse(msg.message.feed.dispatcherId).value in registry
    ensures r.Some? ==> r.value == registry[Parse(msg.message.feed.dispatcherId).value]
    ensures r.Some? && KeyedById(registry) ==> Parse(msg.message.feed.dispatcherId) == Some(r.value.id)
  {
    if !msg.message.EventFeedPayload? then None
    else match Parse(msg.message.feed.dispatcherId)
      case None => None
      case Some(id) => if id in registry then Some(registry[id]) else None
  }

  function TargetSet(registry: map<DispatcherId, Dispatcher>, msg: TargetMessage): set<Dispatcher>
  {
    match Target(registry, msg)
    case None => {}
    case Some(d) => {d}
  }

  function PushCalls(events: seq<TxnEvent>): seq<Call>
  {
    seq(|events|, i requires 0 <= i < |events| => Call.PushEvent(events[i]))
  }

  lemma PushCallsStep(events: seq<TxnEvent>, i: nat)
    requires i < |events|
    ensures PushCalls(events[..i + 1]) == PushCalls(events[..i]) + [Call.PushEvent(events[i])]
    ensures events[..i + 1] == events[..i] + [events[i]]
  {
  }

  function InitCalls(feed: EventFeed): seq<Call>
  {
    if feed.tableInfo.Some? then [Call.InitTableInfo(feed.tableInfo.value)] else []
  }

  /** The calls one feed makes on its dispatcher: table info, then every event, then the resolved timestamp. */
  function FeedCalls(feed: EventFeed): (r: seq<Call>)
    ensures |r| == |InitCalls(feed)| + |feed.txnEvents| + 1
    ensures feed.tableInfo.Some? ==> r[0] == Call.InitTableInfo(feed.tableInfo.value)
    ensures r[|InitCalls(feed)|..|r| - 1] == PushCalls(feed.txnEvents)
    ensures r[|r| - 1] == Call.UpdateResolvedTs(feed.resolvedTs)
  {
    InitCalls(feed) + PushCalls(feed.txnEvents) + [Call.UpdateResolvedTs(feed.resolvedTs)]
  }

  lemma {:induction false} PushedPushCalls(events: seq<TxnEvent>)
    ensures Pushed(PushCalls(events)) == events
  {
    if events != [] {
      var n := |events| - 1;
      assert PushCalls(events)[..n] == PushCalls(events[..n]);
      PushedPushCalls(events[..n]);
      assert events[..n] + [events[n]] == events;
    }
  }

  lemma {:induction false} NoResolvedInPushCalls(events: seq<TxnEvent>, initial: Ts)
    ensures ResolvedAfter(PushCalls(events), initial) == initial
  {
    if events != [] {
      var n := |events| - 1;
      assert PushCalls(events)[..n] == PushCalls(events[..n]);
      NoResolvedInPushCalls(events[..n], initial);
    }
  }

  lemma {:induction false} NoTableInfoInPushCalls(events: seq<TxnEvent>, initial: Option<TableInfo>)
    ensures TableInfoAfter(PushCalls(events), initial) == initial
  {
    if events != [] {
      var n := |events| - 1;
      assert PushCalls(events)[..n] == PushCalls(events[..n]);
      NoTableInfoInPushCalls(events[..n], initial);
    }
  }

  /** The feed's events are appended to the dispatcher's log, in feed order. */
  lemma FeedPushes(h: seq<Call>, feed: EventFeed)
    ensures Pushed(h + FeedCalls(feed)) == Pushed(h) + feed.txnEvents
  {
    var init, pushes, last := InitCalls(feed), PushCalls(feed.txnEvents), [Call.UpdateResolvedTs(feed.resolvedTs)];
    assert h + FeedCalls(feed) == (h + init) + pushes + last;
    assert Pushed((h + init) + pushes + last) == Pushed((h + init) + pushes) by {
      PushedConcat((h + init) + pushes, last);
      assert last[..0] == [];
    }
    assert Pushed((h + init) + pushes) == Pushed(h + init) + feed.txnEvents by {
      PushedConcat(h + init, pushes);
      PushedPushCalls(feed.txnEvents);
    }
    assert Pushed(h + init) == Pushed(h) by {
      PushedConcat(h, init);
      if init != [] { assert init[..0] == []; }
    }
  }

  /** The dispatcher's resolved timestamp becomes the feed's. */
  lemma FeedResolves(h: seq<Call>, feed: EventFeed, initial: Ts)
    ensures ResolvedAfter(h + FeedCalls(feed), initial) == feed.resolvedTs
  {
    var rest := h + InitCalls(feed) + PushCalls(feed.txnEvents);
    assert h + FeedCalls(feed) == rest + [Call.UpdateResolvedTs(feed.resolvedTs)];
  }

  /** The dispatcher's table info is replaced exactly when the feed carries one. */
  lemma FeedTableInfo(h: seq<Call>, feed: EventFeed, initial: Option<TableInfo>)
    ensures TableInfoAfter(h + FeedCalls(feed), initial) ==
      if feed.tableInfo.Some? then feed.tableInfo else TableInfoAfter(h, initial)
  {
    var init, pushes, last := InitCalls(feed), PushCalls(feed.txnEvents), [Call.UpdateResolvedTs(feed.resolvedTs)];
    assert h + FeedCalls(feed) == (h + init) + pushes + last;
    assert TableInfoAfter((h + init) + pushes + last, initial) == TableInfoAfter((h + init) + pushes, initial) by {
      assert ((h + init) + pushes + last)[..|(h + init) + pushes + last| - 1] == (h + init) + pushes;
    }
    assert TableInfoAfter((h + init) + pushes, initial) == TableInfoAfter(h + init, initial) by {
      TableInfoAfterConcat(h + init, pushes, initial);
      NoTableInfoInPushCalls(feed.txnEvents, TableInfoAfter(h + init, initial));
    }
    if init != [] {
      assert (h + init)[..|h + init| - 1] == h;
    } else {
      assert h + init == h;
    }
  }

  /**
   * What one feed does to a dispatcher whose past calls are `h`: the feed's
   * events are appended to its log in feed order, its resolved timestamp
   * becomes the feed's, and its table info is replaced only when the feed
   * carries one.
   */
  lemma FeedEffect(h: seq<Call>, feed: EventFeed, initialTs: Ts, initialInfo: Option<TableInfo>)
    ensures Pushed(h + FeedCalls(feed)) == Pushed(h) + feed.txnEvents
    ensures ResolvedAfter(h + FeedCalls(feed), initialTs) == feed.resolvedTs
    ensures TableInfoAfter(h + FeedCalls(feed), initialInfo) ==
      if feed.tableInfo.Some? then feed.tableInfo else TableInfoAfter(h, initialInfo)
  {
    FeedPushes(h, feed);
    FeedResolves(h, feed, initialTs);
    FeedTableInfo(h, feed, initialInfo);
  }

  /**
   * The resolved timestamp is updated exactly once per feed, as the feed's
   * last call, after every one of its events has been pushed.
   */
  lemma FeedCallsOrder(feed: EventFeed)
    ensures var calls := FeedCalls(feed);
      && calls[|calls| - 1] == Call.UpdateResolvedTs(feed.resolvedTs)
      && (forall i | 0 <= i < |calls| - 1 :: !calls[i].UpdateResolvedTs?)
      && Pushed(calls) == feed.txnEvents
  {
    PushedFeedCalls(feed);
  }

  lemma PushedFeedCalls(feed: EventFeed)
    ensures Pushed(FeedCalls(feed)) == feed.txnEvents
  {
    FeedPushes([], feed);
    assert [] + FeedCalls(feed) == FeedCalls(feed);
  }

  /** The calls a sequence of feeds makes on one dispatcher, in delivery order. */
  function FeedsCalls(feeds: seq<EventFeed>): seq<Call>
  {
    if feeds == [] then [] else FeedsCalls(feeds[..|feeds| - 1]) + FeedCalls(feeds[|feeds| - 1])
  }

  function AllEvents(feeds: seq<EventFeed>): seq<TxnEvent>
  {
    if feeds == [] then [] else AllEvents(feeds[..|feeds| - 1]) + feeds[|feeds| - 1].txnEvents
  }

  /**
   * Across several feeds for one dispatcher, the events it receives are the
   * feeds' events concatenated in delivery order.
   */
  lemma {:induction false} FeedsPreserveOrder(feeds: seq<EventFeed>)
    ensures Pushed(FeedsCalls(feeds)) == AllEvents(feeds)
  {
    if feeds != [] {
      var n := |feeds| - 1;
      FeedsPreserveOrder(feeds[..n]);
      PushedConcat(FeedsCalls(feeds[..n]), FeedCalls(feeds[n]));
      PushedFeedCalls(feeds[n]);
    }
  }

  /**
   * While a feed's table info and events are handed over, the dispatcher's
   * resolved timestamp stays where it was; only the feed's last call moves it.
   */
  lemma WatermarkHeldDuringFeed(h: seq<Call>, feed: EventFeed, initialTs: Ts)
    ensures ResolvedAfter(h + InitCalls(feed) + PushCalls(feed.txnEvents), initialTs) == ResolvedAfter(h, initialTs)
  {
    ResolvedAfterConcat(h, InitCalls(feed) + PushCalls(feed.txnEvents), initialTs);
    ResolvedAfterConcat(InitCalls(feed), PushCalls(feed.txnEvents), ResolvedAfter(h, initialTs));
    assert (h + InitCalls(feed)) + PushCalls(feed.txnEvents) == h + (InitCalls(feed) + PushCalls(feed.txnEvents));
    NoResolvedInPushCalls(feed.txnEvents, ResolvedAfter(InitCalls(feed), ResolvedAfter(h, initialTs)));
    if feed.tableInfo.Some? {
      assert InitCalls(feed)[..0] == [];
    }
  }

  /** After a run of feeds, the dispatcher's resolved timestamp is the last feed's. */
  lemma FeedsWatermark(h: seq<Call>, feeds: seq<EventFeed>, initialTs: Ts)
    requires feeds != []
    ensures ResolvedAfter(h + FeedsCalls(feeds), initialTs) == feeds[|feeds| - 1].resolvedTs
  {
    var n := |feeds| - 1;
    assert h + FeedsCalls(feeds) == (h + FeedsCalls(feeds[..n])) + FeedCalls(feeds[n]);
    FeedResolves(h + FeedsCalls(feeds[..n]), feeds[n], initialTs);
  }

  /**
   * The collector sets the watermark to whatever the feed carries, without a
   * guard: the watermark goes back exactly when the feed's resolved
   * timestamp is below the current one.
   */
  lemma WatermarkRegressesIff(h: seq<Call>, feed: EventFeed, initialTs: Ts)
    ensures ResolvedAfter(h + FeedCalls(feed), initialTs) < ResolvedAfter(h, initialTs)
        <==> feed.resolvedTs < ResolvedAfter(h, initialTs)
  {
    FeedEffect(h, feed, initialTs, None);
  }

  /** The text a request carries parses back to the dispatcher it was built for. */
  lemma RequestNamesDispatcher(serverId: ServerId, id: DispatcherId, span: TableSpan, startTs: Ts)
    ensures Parse(RegisterRequestMessage(serverId, id, span, startTs).message.request.dispatcherId) == Some(id)
    ensures Parse(RemoveRequestMessage(serverId, id, span).message.request.dispatcherId) == Some(id)
  {
    ParseEncode(id);
  }

  /** Requests for different dispatchers carry different dispatcher texts. */
  lemma RequestsDistinguishDispatchers(serverId: ServerId, a: DispatcherId, b: DispatcherId, span: TableSpan, startTs: Ts)
    requires a != b
    ensures RegisterRequestMessage(serverId, a, span, startTs).message.request.dispatcherId !=
            RegisterRequestMessage(serverId, b, span, startTs).message.request.dispatcherId
  {
    if Encode(a) == Encode(b) {
      EncodeInjective(a, b);
    }
  }

  /**
   * A removal request goes where the registration went and names the same
   * dispatcher, span and server; it differs only in the removal flag and in
   * leaving the start timestamp at zero.
   */
  lemma RemoveMirrorsRegister(serverId: ServerId, id: DispatcherId, span: TableSpan, startTs: Ts)
    ensures var reg, rem := RegisterRequestMessage(serverId, id, span, startTs), RemoveRequestMessage(serverId, id, span);
      && rem == reg.(message := RegisterRequestPayload(reg.message.request.(remove := true, startTs := 0)))
      && !reg.message.request.remove && reg.message.request.startTs == startTs
      && reg.to == serverId && reg.topic == EventServiceTopic && reg.msgType == TypeRegisterDispatcherRequest
      && reg.message.request.dispatcherId == Encode(id)
      && reg.message.request.tableSpan == span
      && reg.message.request.serverId == serverId.String()
  {
  }

  /**
   * A feed that carries the dispatcher text of a registration request is
   * delivered to the dispatcher registered under that id; in a registry that
   * keys every dispatcher by its own id, that is the dispatcher with that id.
   */
  lemma FeedRoutesToRegistered(registry: map<DispatcherId, Dispatcher>, serverId: ServerId, id: DispatcherId,
                               span: TableSpan, startTs: Ts, feed: EventFeed, to: ServerId, topic: Topic, t: IOType)
    requires feed.dispatcherId == RegisterRequestMessage(serverId, id, span, startTs).message.request.dispatcherId
    ensures Target(registry, TargetMessage(to, topic, t, EventFeedPayload(feed))) ==
      if id in registry then Some(registry[id]) else None
    ensures KeyedById(registry) && id in registry ==>
      Target(registry, TargetMessage(to, topic, t, EventFeedPayload(feed))).value.id == id
  {
    RequestNamesDispatcher(serverId, id, span, startTs);
  }

  /** Pushes each event to the dispatcher, in order. */
  method PushEvents(d: Dispatcher, events: seq<TxnEvent>)
    modifies d
    ensures d.history == old(d.history) + PushCalls(events)
    ensures d.events == old(d.events) + events
    ensures d.resolvedTs == old(d.resolvedTs) && d.tableInfo == old(d.tableInfo)
  {
    for i := 0 to |events|
      invariant d.history == old(d.history) + PushCalls(events[..i])
      invariant d.events == old(d.events) + events[..i]
      invariant d.resolvedTs == old(d.resolvedTs) && d.tableInfo == old(d.tableInfo)
    {
      d.PushEvent(events[i]);
      PushCallsStep(events, i);
    }
    assert events[..|events|] == events;
  }

  /**
   * The found branch of the inbound handler: the feed's table info (which
   * only the per-table variant accepts), then each of its events in order,
   * then its resolved timestamp.
   */
  method DeliverFeed(d: Dispatcher, feed: EventFeed) returns (r: RecvResult)
    requires d.Valid()
    modifies d
    ensures d.Valid()
    ensures feed.tableInfo.Some? && d.kind != TableEventDispatcher ==> r == Panicked && unchanged(d)
    ensures feed.tableInfo.None? || d.kind == TableEventDispatcher ==>
      && r == Returned(None)
      && d.history == old(d.history) + FeedCalls(feed)
      && d.events == old(d.events) + feed.txnEvents
      && d.resolvedTs == feed.resolvedTs
      && d.tableInfo == (if feed.tableInfo.Some? then feed.tableInfo else old(d.tableInfo))
  {
    if feed.tableInfo.Some? {
      if d.kind != TableEventDispatcher {
        // the type assertion to the per-table variant fails
        return Panicked;
      }
      d.InitTableInfo(feed.tableInfo.value);
    }
    PushEvents(d, feed.txnEvents);
    ghost var pushed := d.history;
    d.UpdateResolvedTs(feed.resolvedTs);
    assert d.history == old(d.history) + FeedCalls(feed) by {
      assert pushed == old(d.history) + InitCalls(feed) + PushCalls(feed.txnEvents);
      assert d.history == pushed + [Call.UpdateResolvedTs(feed.resolvedTs)];
    }
    assert d.Valid() by {
      FeedEffect(old(d.history), feed, d.initialResolvedTs, None);
    }
    return Returned(None);
  }

  class EventCollector {
    const serverId: ServerId
    const globalMemoryQuota: Int64
    /** The messaging centre, injected instead of looked up as a global service. */
    const messageCenter: MessageCenter
    var dispatcherMap: map<DispatcherId, Dispatcher>

    ghost predicate Valid()
      reads this, dispatcherMap.Values
    {
      && KeyedById(dispatcherMap)
      && forall id | id in dispatcherMap :: dispatcherMap[id].Valid()
    }

    /** Creates the collector and binds its inbound handler to the event-feed topic. */
    constructor (globalMemoryQuota: Int64, serverId: ServerId, messageCenter: MessageCenter)
      modifies messageCenter
      ensures this.serverId == serverId && this.globalMemoryQuota == globalMemoryQuota
      ensures this.messageCenter == messageCenter
      ensures dispatcherMap == map[] && Valid()
      ensures messageCenter.handlers == old(messageCenter.handlers)[EventFeedTopic := this]
      ensures messageCenter.outbox == old(messageCenter.outbox)
    {
      this.serverId := serverId;
      this.globalMemoryQuota := globalMemoryQuota;
      this.messageCenter := messageCenter;
      dispatcherMap := map[];
      new;
      messageCenter.RegisterHandler(EventFeedTopic, this);
    }

    /**
     * Sends one registration request for `d` and returns the send's error,
     * without retrying; the registry is left alone.
     */
    method RegisterDispatcher(d: Dispatcher, startTs: Ts) returns (err: Option<Error>)
      modifies messageCenter
      ensures messageCenter.outbox ==
        old(messageCenter.outbox) + [SendAttempt(RegisterRequestMessage(serverId, d.id, d.tableSpan, startTs), err)]
      ensures messageCenter.handlers == old(messageCenter.handlers)
      ensures dispatcherMap == old(dispatcherMap)
    {
      err := messageCenter.SendEvent(RegisterRequestMessage(serverId, d.id, d.tableSpan, startTs));
      if err.Some? {
        return err;
      }
      return None;
    }

    /**
     * Sends one removal request for `d` and returns the send's error,
     * without retrying; the registry is left alone.
     */
    method RemoveDispatcher(d: Dispatcher) returns (err: Option<Error>)
      modifies messageCenter
      ensures messageCenter.outbox ==
        old(messageCenter.outbox) + [SendAttempt(RemoveRequestMessage(serverId, d.id, d.tableSpan), err)]
      ensures messageCenter.handlers == old(messageCenter.handlers)
      ensures dispatcherMap == old(dispatcherMap)
    {
      err := messageCenter.SendEvent(RemoveRequestMessage(serverId, d.id, d.tableSpan));
      if err.Some? {
        return err;
      }
      return None;
    }

    /**
     * The inbound handler: rejects a payload that is not an event feed or
     * whose dispatcher id does not parse, drops a feed for an unknown
     * dispatcher, and otherwise hands the feed's table info, events and
     * resolved timestamp to the dispatcher, in that order.
     */
    method RecvEventsMessage(msg: TargetMessage) returns (r: RecvResult)
      requires Valid()
      modifies TargetSet(dispatcherMap, msg)
      ensures Valid() && dispatcherMap == old(dispatcherMap)
      ensures !msg.message.EventFeedPayload? ==>
        r == Returned(Some(AppError(ErrorTypeInvalidMessage, "invalid heartbeat response message")))
      ensures msg.message.EventFeedPayload? && Parse(msg.message.feed.dispatcherId).None? ==>
        r == Returned(Some(AppError(ErrorTypeInvalidMessage, "invalid dispatcher id: " + msg.message.feed.dispatcherId)))
      ensures msg.message.EventFeedPayload? && Parse(msg.message.feed.dispatcherId).Some? &&
              Parse(msg.message.feed.dispatcherId).value !in dispatcherMap
              ==> r == Returned(None)
      ensures Target(dispatcherMap, msg).None? ==> unchanged(dispatcherMap.Values)
      ensures Target(dispatcherMap, msg).Some? ==>
        var d, feed := Target(dispatcherMap, msg).value, msg.message.feed;
        if feed.tableInfo.Some? && d.kind != TableEventDispatcher then
          r == Panicked && unchanged(d)
        else
          && r == Returned(None)
          && d.history == old(d.history) + FeedCalls(feed)
          && d.events == old(d.events) + feed.txnEvents
          && d.resolvedTs == feed.resolvedTs
          && d.tableInfo == (if feed.tableInfo.Some? then feed.tableInfo else old(d.tableInfo))
    {
      if !msg.message.EventFeedPayload? {
        return Returned(Some(AppError(ErrorTypeInvalidMessage, "invalid heartbeat response message")));
      }
      var feed := msg.message.feed;
      var parsed := Parse(feed.dispatcherId);
      if parsed.None? {
        return Returned(Some(AppError(ErrorTypeInvalidMessage, "invalid dispatcher id: " + feed.dispatcherId)));
      }
      if parsed.value in dispatcherMap {
        r := DeliverFeed(dispatcherMap[parsed.value], feed);
        return r;
      }
      return Returned(None);
    }
  }
}

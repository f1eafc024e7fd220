/**
 * Clients of the collector: one dispatcher is registered and removed; a
 * registered dispatcher is fed; and a registered dispatcher is left alone by
 * a feed for an unknown id and by a malformed id. Every assertion follows from the contracts
 * alone.
 */
module Scenario {
  import opened Wrappers
  import opened Uuid
  import opened Eventpb
  import opened Messaging
  import opened Dispatchers
  import opened Collector

  method RegisterThenRemove()
  {
    var center := new MessageCenter();
    var n1 := ServerId("n1");
    var c := new EventCollector(1048576, n1, center);
    assert center.handlers[EventFeedTopic] == c;

    var u1: DispatcherId := [1, 0, 0, 0, 0, 0, 0, 0, 0, 0, 0, 0, 0, 0, 0, 1];
    var d1 := new Dispatcher(u1, TableSpan(1), TableEventDispatcher, 0);

    var err := c.RegisterDispatcher(d1, 100);
    assert |center.outbox| == 1;
    var request := center.outbox[0].message;
    assert request.to == n1 && request.topic == EventServiceTopic;
    assert !request.message.request.remove && request.message.request.startTs == 100;
    assert Parse(request.message.request.dispatcherId) == Some(u1);
    assert c.dispatcherMap == map[];

    err := c.RemoveDispatcher(d1);
    assert |center.outbox| == 2;
    var removal := center.outbox[1].message;
    assert removal.to == n1 && removal.message.request.remove && removal.message.request.startTs == 0;
    assert removal.message.request.dispatcherId == request.message.request.dispatcherId;
  }

  method FeedRegistered()
  {
    var center := new MessageCenter();
    var n1 := ServerId("n1");
    var c := new EventCollector(1048576, n1, center);

    var u1: DispatcherId := [1, 0, 0, 0, 0, 0, 0, 0, 0, 0, 0, 0, 0, 0, 0, 1];
    var d1 := new Dispatcher(u1, TableSpan(1), TableEventDispatcher, 0);

    // The layer that owns the dispatcher records it under its id.
    c.dispatcherMap := c.dispatcherMap[u1 := d1];

    var e1, e2 := TxnEvent(105), TxnEvent(110);
    ParseEncode(u1);
    var feed := EventFeed(Encode(u1), None, [e1, e2], 110);
    var r := c.RecvEventsMessage(TargetMessage(n1, EventFeedTopic, TypeEventFeed, EventFeedPayload(feed)));
    assert r == Returned(None);
    assert d1.events == [e1, e2] && d1.resolvedTs == 110;
    assert d1.history == [Call.PushEvent(e1), Call.PushEvent(e2), Call.UpdateResolvedTs(110)];
  }

  method FeedUnknownOrMalformed()
  {
    var center := new MessageCenter();
    var n1 := ServerId("n1");
    var c := new EventCollector(1048576, n1, center);

    var u1: DispatcherId := [1, 0, 0, 0, 0, 0, 0, 0, 0, 0, 0, 0, 0, 0, 0, 1];
    var u2: DispatcherId := [2, 0, 0, 0, 0, 0, 0, 0, 0, 0, 0, 0, 0, 0, 0, 2];
    var d1 := new Dispatcher(u1, TableSpan(1), TableEventDispatcher, 110);
    c.dispatcherMap := c.dispatcherMap[u1 := d1];

    ParseEncode(u2);
    var stray := EventFeed(Encode(u2), None, [TxnEvent(200)], 200);
    var r := c.RecvEventsMessage(TargetMessage(n1, EventFeedTopic, TypeEventFeed, EventFeedPayload(stray)));
    assert r == Returned(None);
    assert d1.events == [] && d1.resolvedTs == 110;

    r := c.RecvEventsMessage(TargetMessage(n1, EventFeedTopic, TypeEventFeed, EventFeedPayload(EventFeed("not-an-id", None, [], 0))));
    assert r.err.Some? && r.err.value.errorType == ErrorTypeInvalidMessage;
    assert d1.events == [] && d1.resolvedTs == 110;
  }
}

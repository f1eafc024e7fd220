# Event collector model

A Dafny model of the event collector of a change-data-capture node. The collector sits between the
messaging layer and the node's dispatchers (one per table span, plus the table-trigger dispatcher). It
does three things:

- It asks the local event service to start streaming a dispatcher's table span from a start
  timestamp (`RegisterDispatcher`), or to stop (`RemoveDispatcher`). Each builds one
  `RegisterDispatcherRequest` and sends it once. The send's error is returned as is.
- It handles inbound event feeds (`RecvEventsMessage`). The payload must be an event feed and its
  dispatcher id must parse. A feed for an id that is not in the registry is dropped without error.
  Otherwise the dispatcher gets the feed's table info (if the feed carries one), then every
  transaction event in feed order, then the feed's resolved timestamp.
- It holds the node's server id, the global memory quota and the registry `dispatcherMap`, all set up
  by `NewEventCollector`. The constructor also binds the collector's handler to the event-feed topic.

Files, one module each:

- `wrappers.dfy`: `Option`.
- `uuid.dfy`: dispatcher ids as 16 bytes. `Encode` writes the canonical text form of RFC 4122,
  section 3 (8-4-4-4-12 lower-case hex digits). `Parse` reads the 36-character form with digits of
  either case.
- `eventpb.dfy`: the wire records. Spans, table infos and transaction events are opaque values.
- `messaging.dfy`: addressed messages, errors, and a `MessageCenter` class. It keeps the handler bound
  to each topic and an outbox of every send attempted, with that send's outcome.
- `dispatcher.dfy`: a `Dispatcher` class holding its event log, resolved timestamp and optional table
  info. It also keeps a ghost history of the calls it received, and `Valid()` ties the state to that
  history.
- `event_collector.dfy`: the `EventCollector` class, the request builders and the lemmas about feeds.
- `scenario.dfy`: clients that register and remove a dispatcher, feed a registered dispatcher, and
  send a feed for an unknown id and one with a malformed id. Every assertion in them follows from the
  contracts alone.

The model follows the code as written. In particular:

- The collector passes the feed's resolved timestamp on to the dispatcher without a guard, so a
  dispatcher's resolved timestamp can go backwards. `WatermarkRegressesIff` states exactly when.
- The collector hands the table info over through an unchecked type assertion to the per-table
  dispatcher. On a table-trigger dispatcher with a non-nil table info this panics, before any event
  is pushed. The model returns `Panicked` and changes nothing.
- Registering or removing a dispatcher only sends a request; the collector's code never inserts into
  or deletes from `dispatcherMap`. The model leaves the registry as a field that the owning layer
  writes, as the scenario does, and its invariant asks that every dispatcher be stored under its
  own id.
- The error for a payload that is not an event feed carries the reason text
  "invalid heartbeat response message", word for word as in the code.

## Model

| member | source | states |
|---|---|---|
| Collector.RegisterRequestMessage | downstreamadapter/eventcollector/event_collector.go:52-63 | the registration request goes to the collector's own server id on the event-service topic as a register-dispatcher request; its id text parses back to the dispatcher's id; it carries the span, the server id's text, `Remove` false and the given start timestamp |
| Collector.RemoveRequestMessage | downstreamadapter/eventcollector/event_collector.go:72-83 | the removal request has the same destination, topic and type; its id text parses back to the dispatcher's id; it carries the span, the server id's text, `Remove` true and a zero start timestamp |
| Collector.Target | downstreamadapter/eventcollector/event_collector.go:101-114 | a message has a target exactly when it is an event feed whose id text parses to a registered id; the target is the dispatcher stored under that id, and in a registry keyed by dispatcher id it is the dispatcher with that id |
| Collector.FeedCalls | downstreamadapter/eventcollector/event_collector.go:139-160 | a feed makes one call per event plus one, and one more when it carries a table info; the table info comes first, the events follow in feed order, and the resolved-timestamp update is last |
| Collector.WatermarkHeldDuringFeed | downstreamadapter/eventcollector/event_collector.go:139-160 | while a feed's table info and events are handed over, the resolved timestamp stays where it was |
| Collector.FeedsWatermark | downstreamadapter/eventcollector/event_collector.go:160 | after a run of feeds, the resolved timestamp is the last feed's |
| Uuid.Parse | downstreamadapter/eventcollector/event_collector.go:108-112 | only a 36-character text with dashes at 8, 13, 18 and 23 and hexadecimal digits everywhere else parses; its exact language is stated by `ParseAccepts` |
| Collector.EventCollector.constructor | downstreamadapter/eventcollector/event_collector.go:41-49 | server id and quota equal the arguments; the registry is empty; the collector is bound as the event-feed topic's handler and nothing is sent |
| Collector.EventCollector.RegisterDispatcher | downstreamadapter/eventcollector/event_collector.go:51-69 | exactly one send is attempted, of the registration request for the dispatcher's id and span with `startTs`; the send's error (or none) is returned; the registry is unchanged |
| Collector.EventCollector.RemoveDispatcher | downstreamadapter/eventcollector/event_collector.go:71-89 | exactly one send is attempted, of the removal request for the dispatcher's id and span; the send's error (or none) is returned; the registry is unchanged |
| Collector.RemoveMirrorsRegister | downstreamadapter/eventcollector/event_collector.go:52-83 | a removal request equals the registration request except that `Remove` is true and `StartTs` is zero; both go to the collector's own server id on the event-service topic as register-dispatcher requests, with the id's canonical text, the span and the server id's text |
| Collector.RequestNamesDispatcher | downstreamadapter/eventcollector/event_collector.go:57-77 | the dispatcher id text in a registration or removal request parses back to that dispatcher's id |
| Collector.RequestsDistinguishDispatchers | downstreamadapter/eventcollector/event_collector.go:57 | requests for different dispatchers carry different id texts |
| Collector.FeedRoutesToRegistered | downstreamadapter/eventcollector/event_collector.go:108-114 | a feed that carries the id text of a registration request is routed to the dispatcher registered under that id, and to nothing when none is; in a registry keyed by dispatcher id, that is the dispatcher with that id |
| Collector.EventCollector.RecvEventsMessage | downstreamadapter/eventcollector/event_collector.go:101-162 | not an event feed: invalid-message error; id does not parse: invalid-message error naming the id; id not registered: no error; none of these change any dispatcher or the registry; otherwise only the target dispatcher changes, as `DeliverFeed` states |
| Collector.DeliverFeed | downstreamadapter/eventcollector/event_collector.go:139-160 | table info on a trigger dispatcher panics with no change; otherwise the history grows by the feed's calls in order (table info, then events, then resolved timestamp), the event log grows by the feed's events, the resolved timestamp becomes the feed's, and the table info is replaced only when the feed has one |
| Collector.PushEvents | downstreamadapter/eventcollector/event_collector.go:142-144 | every event is pushed once, in order, and nothing else about the dispatcher changes |
| Collector.FeedEffect | downstreamadapter/eventcollector/event_collector.go:139-160 | after any history, one feed appends its events to the dispatcher's log, sets its resolved timestamp to the feed's, and replaces its table info exactly when the feed carries one |
| Collector.FeedPushes | downstreamadapter/eventcollector/event_collector.go:142-144 | a feed appends its events to the pushed log, in feed order |
| Collector.FeedResolves | downstreamadapter/eventcollector/event_collector.go:160 | after a feed the resolved timestamp is the feed's, whatever it was before |
| Collector.FeedTableInfo | downstreamadapter/eventcollector/event_collector.go:139-141 | the table info changes exactly when the feed carries one |
| Collector.FeedCallsOrder | downstreamadapter/eventcollector/event_collector.go:139-160 | a feed updates the resolved timestamp exactly once, as its last call, after all of its events |
| Collector.FeedsPreserveOrder | downstreamadapter/eventcollector/event_collector.go:142-144 | over a run of feeds to one dispatcher, its events are the feeds' events concatenated in delivery order |
| Collector.WatermarkRegressesIff | downstreamadapter/eventcollector/event_collector.go:160 | the watermark goes back after a feed if and only if the feed's resolved timestamp is below the current one |
| Dispatchers.Dispatcher.PushEvent | downstreamadapter/eventcollector/event_collector.go:144 | the event is appended to the log and recorded in the history; resolved timestamp and table info are unchanged |
| Dispatchers.Dispatcher.UpdateResolvedTs | downstreamadapter/eventcollector/event_collector.go:160 | the resolved timestamp becomes the argument and is recorded in the history; log and table info are unchanged |
| Dispatchers.Dispatcher.InitTableInfo | downstreamadapter/eventcollector/event_collector.go:140 | only on the per-table variant; the table info becomes the argument and is recorded in the history |
| Messaging.MessageCenter.SendEvent | downstreamadapter/eventcollector/event_collector.go:52-63 | exactly one attempt is appended to the outbox, with the message and the error returned |
| Messaging.MessageCenter.RegisterHandler | downstreamadapter/eventcollector/event_collector.go:47 | the topic is bound to the given handler and nothing is sent |
| Uuid.Encode | downstreamadapter/eventcollector/event_collector.go:57 | the text of an id is 36 characters long |
| Uuid.EncodeLayout | downstreamadapter/eventcollector/event_collector.go:57 | dashes stand at 8, 13, 18 and 23, and byte k's high and low nibbles stand at its two digit positions, in lower case |
| Uuid.ParseAccepts | downstreamadapter/eventcollector/event_collector.go:108 | a text parses to an id if and only if, with capitals lowered, it is that id's canonical text |
| Uuid.ParseSound | downstreamadapter/eventcollector/event_collector.go:108-112 | whatever parses is the canonical text, up to case, of the id it yields |
| Uuid.ParseComplete | downstreamadapter/eventcollector/event_collector.go:108-112 | the canonical text of an id, in any case, parses to that id |
| Uuid.ParseEncode | downstreamadapter/eventcollector/event_collector.go:57 | the text written for an id parses back to that id |
| Uuid.EncodeInjective | downstreamadapter/eventcollector/event_collector.go:57 | distinct ids have distinct texts |

## Left out

- The global service lookup of the message centre is replaced by a centre passed to the constructor. Logging is not modelled.
- Whether a send is delivered is not modelled. `SendEvent` may return any outcome, and it records that outcome.
- The commented-out code is not modelled: the memory-quota pause, the speed-ratio feedback, the table-trigger branch, the sync-point injection and the memory accounting. It has no active behaviour. `globalMemoryQuota` is stored and never read, as in the code.
- Concurrent calls of the handler and locking of the registry are not modelled. The model covers one call at a time.
- The contents of table spans, table infos and transaction events are not modelled. They are opaque values.
- Uuid.Parse: only the 36-character form is modelled. The library also accepts a 32-digit form without dashes, a `urn:uuid:` prefix and a braced form, and the model rejects those.
- Go strings are byte strings and the model's are character sequences. The two agree on every text the model accepts, since those are all ASCII.
- The definition of `messaging.ServerId` is not part of this model. `String()` is modelled as a fixed text per server id.
- The topic names and message-type tags are not part of this model. They are enumerations.
- A nil event-feed pointer inside a message would make the handler fault on a field access. That case is not modelled; any other payload type is `OtherPayload`.
- A nil message passed to the handler, and a nil dispatcher stored in the registry, would also make the handler fault. Messages are values and registry entries are non-null objects, so neither case is modelled.
- The dispatcher package is not part of this model. Its `PushEvent`, `UpdateResolvedTs` and `InitTableInfo` are modelled as recording what they receive. Whatever else they do downstream, including any guard on the resolved timestamp, is not modelled.
- The registry is never written by the collector's code. Insertion and eviction belong to the owning layer and are not modelled as operations.
- `coordinator/task.go` is a one-method interface with no behaviour and is not modelled.

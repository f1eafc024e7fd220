/**
 * The wire records exchanged between the event collector and the event
 * service. Table spans, table infos and transaction events are protocol
 * buffer messages whose contents the collector never looks at; they are
 * modelled as opaque values that are only passed along and compared.
 */
module Eventpb {
  import opened Wrappers

  /** An unsigned 64-bit timestamp (`uint64`). */
  type Ts = x: int | 0 <= x < 0x1_0000_0000_0000_0000

  /** A table key range; only its identity matters here. */
  datatype TableSpan = TableSpan(handle: nat)

  /** A table schema; only its identity matters here. */
  datatype TableInfo = TableInfo(handle: nat)

  /** One transaction event; only its identity matters here. */
  datatype TxnEvent = TxnEvent(handle: nat)

  /** The control message asking the event service to start or stop streaming a span to a dispatcher. */
  datatype RegisterDispatcherRequest = RegisterDispatcherRequest(
    dispatcherId: string,
    tableSpan: TableSpan,
    remove: bool,
    startTs: Ts,
    serverId: string)

  /**
   * One inbound batch for one dispatcher. `tableInfo` is the protocol
   * buffer's nullable pointer: None stands for nil.
   */
  datatype EventFeed = EventFeed(
    dispatcherId: string,
    tableInfo: Option<TableInfo>,
    txnEvents: seq<TxnEvent>,
    resolvedTs: Ts)
}

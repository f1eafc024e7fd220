/**
 * The dispatcher as the event collector drives it: an object identified by a
 * dispatcher id, bound to one table span, that receives transaction events,
 * resolved-timestamp updates and (the per-table variant only) table infos.
 *
 * Besides its state, each dispatcher keeps a ghost history of the calls it
 * received, in order, so that contracts can speak about the order of pushes
 * and updates, not only about their end result.
 */
module Dispatchers {
  import opened Wrappers
  import opened Uuid
  import opened Eventpb

  /** The two variants: a per-table dispatcher and the table-trigger dispatcher. */
  datatype Kind = TableEventDispatcher | TableTriggerEventDispatcher

  /** One call on a dispatcher. */
  datatype Call =
    | InitTableInfo(info: TableInfo)
    | PushEvent(event: TxnEvent)
    | UpdateResolvedTs(ts: Ts)

  /** The events pushed in a history, in push order. */
  function Pushed(h: seq<Call>): seq<TxnEvent>
  {
    if h == [] then []
    else Pushed(h[..|h| - 1]) + (if h[|h| - 1].PushEvent? then [h[|h| - 1].event] else [])
  }

  /** The resolved timestamp after a history, starting from `initial`: the last update wins. */
  function ResolvedAfter(h: seq<Call>, initial: Ts): Ts
  {
    if h == [] then initial
    else if h[|h| - 1].UpdateResolvedTs? then h[|h| - 1].ts
    else ResolvedAfter(h[..|h| - 1], initial)
  }

  /** The table info after a history, starting from `initial`: the last initialisation wins. */
  function TableInfoAfter(h: seq<Call>, initial: Option<TableInfo>): Option<TableInfo>
  {
    if h == [] then initial
    else if h[|h| - 1].InitTableInfo? then Some(h[|h| - 1].info)
    else TableInfoAfter(h[..|h| - 1], initial)
  }

  lemma {:induction false} PushedConcat(a: seq<Call>, b: seq<Call>)
    ensures Pushed(a + b) == Pushed(a) + Pushed(b)
  {
    if b == [] {
      assert a + b == a;
    } else {
      var b' := b[..|b| - 1];
      assert (a + b)[..|a + b| - 1] == a + b';
      PushedConcat(a, b');
    }
  }

  lemma {:induction false} ResolvedAfterConcat(a: seq<Call>, b: seq<Call>, initial: Ts)
    ensures ResolvedAfter(a + b, initial) == ResolvedAfter(b, ResolvedAfter(a, initial))
  {
    if b == [] {
      assert a + b == a;
    } else {
      var b' := b[..|b| - 1];
      assert (a + b)[..|a + b| - 1] == a + b';
      ResolvedAfterConcat(a, b', initial);
    }
  }

  lemma {:induction false} TableInfoAfterConcat(a: seq<Call>, b: seq<Call>, initial: Option<TableInfo>)
    ensures TableInfoAfter(a + b, initial) == TableInfoAfter(b, TableInfoAfter(a, initial))
  {
    if b == [] {
      assert a + b == a;
    } else {
      var b' := b[..|b| - 1];
      assert (a + b)[..|a + b| - 1] == a + b';
      TableInfoAfterConcat(a, b', initial);
    }
  }

  class Dispatcher {
    const id: DispatcherId
    const tableSpan: TableSpan
    const kind: Kind
    /** The transaction events pushed so far, in push order. */
    var events: seq<TxnEvent>
    var resolvedTs: Ts
    var tableInfo: Option<TableInfo>

    ghost const initialResolvedTs: Ts
    /** Every call received so far, oldest first. */
    ghost var history: seq<Call>

    /** The state is what the history leads to. */
    ghost predicate Valid()
      reads this
    {
      && events == Pushed(history)
      && resolvedTs == ResolvedAfter(history, initialResolvedTs)
      && tableInfo == TableInfoAfter(history, None)
    }

    constructor (id: DispatcherId, tableSpan: TableSpan, kind: Kind, startTs: Ts)
      ensures this.id == id && this.tableSpan == tableSpan && this.kind == kind
      ensures events == [] && resolvedTs == startTs && tableInfo == None && history == []
      ensures Valid()
    {
      this.id := id;
      this.tableSpan := tableSpan;
      this.kind := kind;
      events := [];
      resolvedTs := startTs;
      tableInfo := None;
      initialResolvedTs := startTs;
      history := [];
    }

    method PushEvent(e: TxnEvent)
      modifies this
      ensures history == old(history) + [Call.PushEvent(e)]
      ensures events == old(events) + [e]
      ensures resolvedTs == old(resolvedTs) && tableInfo == old(tableInfo)
    {
      events := events + [e];
      history := history + [Call.PushEvent(e)];
    }

    method UpdateResolvedTs(ts: Ts)
      modifies this
      ensures history == old(history) + [Call.UpdateResolvedTs(ts)]
      ensures resolvedTs == ts
      ensures events == old(events) && tableInfo == old(tableInfo)
    {
      resolvedTs := ts;
      history := history + [Call.UpdateResolvedTs(ts)];
    }

    /** Only the per-table variant has this method. */
    method InitTableInfo(info: TableInfo)
      requires kind == TableEventDispatcher
      modifies this
      ensures history == old(history) + [Call.InitTableInfo(info)]
      ensures tableInfo == Some(info)
      ensures events == old(events) && resolvedTs == old(resolvedTs)
    {
      tableInfo := Some(info);
      history := history + [Call.InitTableInfo(info)];
    }
  }
}

/**
 * The part of the messaging layer the event collector uses: addressed
 * messages, the errors they produce, and a message centre that records the
 * handlers bound to topics and every send attempted through it.
 */
module Messaging {
  import opened Wrappers
  import opened Eventpb

  /** A signed 64-bit integer (`int64`). */
  type Int64 = x: int | -0x8000_0000_0000_0000 <= x < 0x8000_0000_0000_0000

  /** A cluster node; its text form is what `String()` renders. */
  datatype ServerId = ServerId(text: string) {
    function String(): string
    {
      text
    }
  }

  datatype Topic = EventServiceTopic | EventFeedTopic

  /** The message-kind tag of an addressed message. */
  datatype IOType = TypeRegisterDispatcherRequest | TypeEventFeed

  /**
   * The typed payload of an addressed message. `OtherPayload` stands for
   * every payload type other than the two the collector knows.
   */
  datatype Payload =
    | RegisterRequestPayload(request: RegisterDispatcherRequest)
    | EventFeedPayload(feed: EventFeed)
    | OtherPayload

  datatype TargetMessage = TargetMessage(to: ServerId, topic: Topic, msgType: IOType, message: Payload)

  datatype ErrorType = ErrorTypeInvalidMessage

  /** Errors: the application error of the collector, or a failure reported by the transport. */
  datatype Error =
    | AppError(errorType: ErrorType, reason: string)
    | TransportError(detail: string)

  /** One call of `SendEvent`: the message handed over and the error it returned, if any. */
  datatype SendAttempt = SendAttempt(message: TargetMessage, err: Option<Error>)

  class MessageCenter {
    /** The object whose handler is bound to each topic. */
    var handlers: map<Topic, object>
    /** Every send attempted, oldest first. */
    var outbox: seq<SendAttempt>

    constructor ()
      ensures handlers == map[] && outbox == []
    {
      handlers := map[];
      outbox := [];
    }

    method RegisterHandler(topic: Topic, handler: object)
      modifies this
      ensures handlers == old(handlers)[topic := handler]
      ensures outbox == old(outbox)
    {
      handlers := handlers[topic := handler];
    }

    /**
     * Hands one message to the transport. Whether delivery succeeds is the
     * transport's choice and is not modelled: any outcome may come back, and
     * it is recorded with the message.
     */
    method SendEvent(m: TargetMessage) returns (err: Option<Error>)
      modifies this
      ensures outbox == old(outbox) + [SendAttempt(m, err)]
      ensures handlers == old(handlers)
    {
      err :| true;
      outbox := outbox + [SendAttempt(m, err)];
    }
  }
}

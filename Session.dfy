/** The per-connection state the commands read and write, and the message
    handler they hand the transaction to. Only the fields the modelled
    commands touch are here: the greeting flag, whether a sender is set, the
    recipient count, the data-mode flag and the replies sent so far. */
module Session {

  /** The session's flags at one moment. */
  datatype Flags = Flags(hasSeenHelo: bool, hasMailFrom: bool, recipientCount: nat, dataMode: bool)

  /** The message body as the DATA stream pipeline delivers it to the handler;
      the pipeline itself is outside this model. */
  type Body = seq<bv8>

  /** What the message handler does with a call: return normally (accept) or
      throw a RejectException whose message is a full SMTP reply line. */
  datatype HandlerResult = Accept | Reject(response: string)

  /** An exception that leaves a command's execute instead of a reply. */
  datatype Escape = StringIndexOutOfBounds | RejectException(response: string)

  /** How a command's execute ends: by returning, or by an exception. */
  datatype Completion = Normal | Escaped(exception: Escape)

  /** One call the session made on its message handler. A data call also
      records the session as the handler saw it: its flags and how many
      replies had gone out before the call. */
  datatype HandlerCall = FromCall(address: string) | DataCall(body: Body, flags: Flags, repliesSent: nat)

  /** The MessageHandler interface, left abstract: each decision is a
      function of the calls it has already seen and of the new argument. The
      handler records every call, so that "the handler is not called" can be
      stated. */
  class MessageHandler {
    var calls: seq<HandlerCall>
    const fromPolicy: (seq<HandlerCall>, string) -> HandlerResult
    const dataPolicy: (seq<HandlerCall>, Body) -> HandlerResult

    constructor (fromPolicy: (seq<HandlerCall>, string) -> HandlerResult,
                 dataPolicy: (seq<HandlerCall>, Body) -> HandlerResult)
      ensures calls == []
      ensures this.fromPolicy == fromPolicy && this.dataPolicy == dataPolicy
    {
      calls := [];
      this.fromPolicy := fromPolicy;
      this.dataPolicy := dataPolicy;
    }

    /** from(): called after a valid MAIL FROM. */
    method From(address: string) returns (r: HandlerResult)
      modifies this
      ensures r == fromPolicy(old(calls), address)
      ensures calls == old(calls) + [FromCall(address)]
    {
      r := fromPolicy(calls, address);
      calls := calls + [FromCall(address)];
    }

    /** data(): called with the message body by the session `sess`; the
        log records that session's flags and replies at the moment of the
        call. */
    method Data(body: Body, sess: Session) returns (r: HandlerResult)
      modifies this
      ensures r == dataPolicy(old(calls), body)
      ensures calls == old(calls) + [DataCall(body, sess.Snapshot(), |sess.replies|)]
    {
      r := dataPolicy(calls, body);
      calls := calls + [DataCall(body, sess.Snapshot(), |sess.replies|)];
    }
  }

  class Session {
    var hasSeenHelo: bool
    var hasMailFrom: bool
    var recipientCount: nat
    var dataMode: bool
    /** Every reply sent on this connection, in order. */
    var replies: seq<string>
    /** The flags at the moment each reply was sent. */
    ghost var trace: seq<Flags>

    /** A recipient needs a sender; one flag snapshot per reply. */
    ghost predicate Valid()
      reads this
    {
      && |trace| == |replies|
      && (recipientCount > 0 ==> hasMailFrom)
    }

    function Snapshot(): Flags
      reads this
    {
      Flags(hasSeenHelo, hasMailFrom, recipientCount, dataMode)
    }

    /** A freshly accepted connection: nothing said yet. */
    constructor ()
      ensures Valid()
      ensures Snapshot() == Flags(false, false, 0, false)
      ensures replies == []
    {
      hasSeenHelo, hasMailFrom, recipientCount, dataMode := false, false, 0, false;
      replies := [];
      trace := [];
    }

    /** sendResponse: write one reply to the client. */
    method SendResponse(response: string)
      modifies this
      ensures replies == old(replies) + [response]
      ensures trace == old(trace) + [old(Snapshot())]
      ensures Snapshot() == old(Snapshot())
    {
      replies := replies + [response];
      trace := trace + [Snapshot()];
    }

    method SetHasMailFrom(value: bool)
      modifies this
      ensures Snapshot() == old(Snapshot()).(hasMailFrom := value)
      ensures replies == old(replies) && trace == old(trace)
    {
      hasMailFrom := value;
    }

    method SetHasSeenHelo(value: bool)
      modifies this
      ensures Snapshot() == old(Snapshot()).(hasSeenHelo := value)
      ensures replies == old(replies) && trace == old(trace)
    {
      hasSeenHelo := value;
    }

    method SetDataMode(value: bool)
      modifies this
      ensures Snapshot() == old(Snapshot()).(dataMode := value)
      ensures replies == old(replies) && trace == old(trace)
    {
      dataMode := value;
    }

    /** What an accepted RCPT TO leaves behind for the commands modelled
        here: one more recipient, which needs a sender. RCPT itself is not
        part of this model. */
    method AddRecipient()
      requires hasMailFrom
      modifies this
      ensures Snapshot() == old(Snapshot()).(recipientCount := old(recipientCount) + 1)
      ensures replies == old(replies) && trace == old(trace)
    {
      recipientCount := recipientCount + 1;
    }

    /** resetMessageState (src/ tree): forget the sender and the recipients,
        keep the greeting. */
    method ResetMessageState()
      modifies this
      ensures Snapshot() == old(Snapshot()).(hasMailFrom := false, recipientCount := 0)
      ensures replies == old(replies) && trace == old(trace)
    {
      hasMailFrom, recipientCount := false, 0;
    }

    /** reset(true) (smtp/ tree): forget the sender, the recipients and data
        mode, keep the greeting. */
    method ResetKeepingHelo()
      modifies this
      ensures Snapshot() == old(Snapshot()).(hasMailFrom := false, recipientCount := 0, dataMode := false)
      ensures replies == old(replies) && trace == old(trace)
    {
      hasMailFrom, recipientCount, dataMode := false, 0, false;
    }
  }
}

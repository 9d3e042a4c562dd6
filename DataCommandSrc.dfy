/** DATA as the src/ tree implements it (section 4.1.1.4 of RFC 5321): both
    guards, the 354 go-ahead, the body to the handler, then "250 Ok" or the
    handler's reject text, and in both cases the transaction is forgotten
    after that final reply. */
module DataCommandSrc {
  import opened Session

  /** The end-of-data sequence CR LF . CR LF. */
  const SmtpTerminator: string := ['\r', '\n', '.', '\r', '\n']

  const NeedMail := "503 Error: need MAIL command"
  const NeedRcpt := "503 Error: need RCPT command"
  const StartMailInput := "354 End data with <CR><LF>.<CR><LF>"
  const Accepted := "250 Ok"

  /** The final reply for the handler's decision on the body. */
  function FinalReply(decision: HandlerResult): (reply: string)
    ensures decision.Accept? ==> reply == Accepted
    ensures decision.Reject? ==> reply == decision.response
  {
    match decision
    case Accept => Accepted
    case Reject(response) => response
  }

  /** execute. `body` stands for what the handler reads from the decoded
      stream; a reject from the handler is caught and relayed. */
  method Execute(commandString: string, sess: Session, handler: MessageHandler, body: Body)
    requires sess.Valid()
    modifies sess, handler
    ensures sess.Valid()
    ensures sess.hasSeenHelo == old(sess.hasSeenHelo) && sess.dataMode == old(sess.dataMode)
    // no sender: one reply, nothing else happens
    ensures !old(sess.hasMailFrom) ==>
      sess.replies == old(sess.replies) + [NeedMail]
      && sess.Snapshot() == old(sess.Snapshot()) && handler.calls == old(handler.calls)
    // a sender but no recipient
    ensures old(sess.hasMailFrom) && old(sess.recipientCount) == 0 ==>
      sess.replies == old(sess.replies) + [NeedRcpt]
      && sess.Snapshot() == old(sess.Snapshot()) && handler.calls == old(handler.calls)
    // both guards pass: 354, then the body to the handler with the flags
    // untouched, one final reply, reset
    ensures old(sess.hasMailFrom) && old(sess.recipientCount) > 0 ==>
      var decision := handler.dataPolicy(old(handler.calls), body);
      && handler.calls == old(handler.calls) + [DataCall(body, old(sess.Snapshot()), |old(sess.replies)| + 1)]
      && sess.replies == old(sess.replies) + [StartMailInput, FinalReply(decision)]
      && !sess.hasMailFrom && sess.recipientCount == 0
      // the final reply went out while the transaction was still set
      && sess.trace[|old(sess.replies)| + 1] == old(sess.Snapshot())
  {
    if !sess.hasMailFrom {
      sess.SendResponse(NeedMail);
      return;
    } else if sess.recipientCount == 0 {
      sess.SendResponse(NeedRcpt);
      return;
    }
    sess.SendResponse(StartMailInput);
    var decision := handler.Data(body, sess);
    match decision {
      case Accept =>
        sess.SendResponse(Accepted);
      case Reject(response) =>
        sess.SendResponse(response);
    }
    sess.ResetMessageState();
  }
}

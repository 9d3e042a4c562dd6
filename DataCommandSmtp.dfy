/** DATA as the smtp/ tree implements it: the same guards and 354 go-ahead,
    but data mode is switched on after the 354, the session is reset before
    "250 Ok" is sent, and a reject from the handler is not caught, so it
    leaves execute with neither the reset nor the 250. */
module DataCommandSmtp {
  import opened Session

  /** The end-of-data sequence CR LF . CR LF. */
  const SmtpTerminator: string := ['\r', '\n', '.', '\r', '\n']

  const NeedMail := "503 Error: need MAIL command"
  const NeedRcpt := "503 Error: need RCPT command"
  const StartMailInput := "354 End data with <CR><LF>.<CR><LF>"
  const Accepted := "250 Ok"

  method Execute(commandString: string, sess: Session, handler: MessageHandler, body: Body)
    returns (completion: Completion)
    requires sess.Valid()
    modifies sess, handler
    ensures sess.Valid()
    ensures sess.hasSeenHelo == old(sess.hasSeenHelo)
    // a guard fails: one 503 reply, data mode not entered, nothing else changes
    ensures !old(sess.hasMailFrom) ==>
      completion == Normal && sess.replies == old(sess.replies) + [NeedMail]
      && sess.Snapshot() == old(sess.Snapshot()) && handler.calls == old(handler.calls)
    ensures old(sess.hasMailFrom) && old(sess.recipientCount) == 0 ==>
      completion == Normal && sess.replies == old(sess.replies) + [NeedRcpt]
      && sess.Snapshot() == old(sess.Snapshot()) && handler.calls == old(handler.calls)
    // both guards pass: 354 goes out before data mode is set; the handler
    // is called after the 354, in data mode
    ensures old(sess.hasMailFrom) && old(sess.recipientCount) > 0 ==>
      && handler.calls == old(handler.calls) + [DataCall(body, old(sess.Snapshot()).(dataMode := true), |old(sess.replies)| + 1)]
      && |sess.replies| > |old(sess.replies)|
      && sess.replies[..|old(sess.replies)| + 1] == old(sess.replies) + [StartMailInput]
      && sess.trace[|old(sess.replies)|] == old(sess.Snapshot())
    // the handler accepts: reset (greeting kept), then 250 from the reset session
    ensures old(sess.hasMailFrom) && old(sess.recipientCount) > 0
            && handler.dataPolicy(old(handler.calls), body).Accept? ==>
      && completion == Normal
      && sess.replies == old(sess.replies) + [StartMailInput, Accepted]
      && sess.Snapshot() == Flags(old(sess.hasSeenHelo), false, 0, false)
      && sess.trace[|old(sess.replies)| + 1] == sess.Snapshot()
    // the handler rejects: the exception escapes, the session stays in data mode
    ensures old(sess.hasMailFrom) && old(sess.recipientCount) > 0
            && handler.dataPolicy(old(handler.calls), body).Reject? ==>
      && completion == Escaped(RejectException(handler.dataPolicy(old(handler.calls), body).response))
      && sess.replies == old(sess.replies) + [StartMailInput]
      && sess.Snapshot() == old(sess.Snapshot()).(dataMode := true)
  {
    if !sess.hasMailFrom {
      sess.SendResponse(NeedMail);
      return Normal;
    } else if sess.recipientCount == 0 {
      sess.SendResponse(NeedRcpt);
      return Normal;
    }
    sess.SendResponse(StartMailInput);
    sess.SetDataMode(true);
    var decision := handler.Data(body, sess);
    if decision.Reject? {
      return Escaped(RejectException(decision.response));
    }
    sess.ResetKeepingHelo();
    sess.SendResponse(Accepted);
    return Normal;
  }
}

/** EHLO (smtp/ tree): the extended greeting, section 4.1.1.1 of RFC 5321. */
module EhloCommand {
  import opened Session
  import BaseCommand

  const SyntaxError := "501 Syntax: EHLO hostname"

  /** The two-line greeting: the server's host name on a continuation line,
      then the 8BITMIME extension on the final line. */
  function Greeting(hostName: string): string {
    "250-" + hostName + "\r\n" + "250 8BITMIME"
  }

  /** The reply to a second greeting, naming the host the client gave. */
  function Duplicate(remoteHost: string): string {
    "503 " + remoteHost + " Duplicate EHLO"
  }

  /** execute: a syntax error for fewer than two tokens; the greeting the
      first time; a 503 every later time. `hostName` is the server's
      configured host name. Exactly one reply, and the greeting flag is never
      cleared. */
  method Execute(commandString: string, sess: Session, hostName: string)
    requires sess.Valid()
    modifies sess
    ensures sess.Valid()
    ensures sess.hasMailFrom == old(sess.hasMailFrom) && sess.recipientCount == old(sess.recipientCount)
    ensures sess.dataMode == old(sess.dataMode)
    ensures old(sess.hasSeenHelo) ==> sess.hasSeenHelo
    ensures |BaseCommand.Tokens(commandString)| < 2 ==>
      sess.replies == old(sess.replies) + [SyntaxError] && sess.hasSeenHelo == old(sess.hasSeenHelo)
    ensures |BaseCommand.Tokens(commandString)| >= 2 && !old(sess.hasSeenHelo) ==>
      sess.replies == old(sess.replies) + [Greeting(hostName)] && sess.hasSeenHelo
    ensures |BaseCommand.Tokens(commandString)| >= 2 && old(sess.hasSeenHelo) ==>
      sess.replies == old(sess.replies) + [Duplicate(BaseCommand.Tokens(commandString)[1])] && sess.hasSeenHelo
  {
    var args := BaseCommand.GetArgs(commandString);
    if |args| < 2 {
      sess.SendResponse(SyntaxError);
      return;
    }
    if !sess.hasSeenHelo {
      sess.SetHasSeenHelo(true);
      sess.SendResponse(Greeting(hostName));
    } else {
      var remoteHost := args[1];
      sess.SendResponse(Duplicate(remoteHost));
    }
  }
}

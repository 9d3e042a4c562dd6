/** Whole exchanges: what the server's commands write, read back by the
    client, and the conversations of the DATA tests replayed on the model. */
module Conversation {
  import opened Wrappers
  import opened JavaStrings
  import opened Session
  import EmailUtils
  import BaseCommand
  import MailCommand
  import DataCommandSrc
  import EhloCommand
  import opened SMTPClient

  lemma Code250()
    ensures IntToString(250) == "250"
  {
    assert NatToString(250) == NatToString(25) + ['0'];
    assert NatToString(25) == NatToString(2) + ['5'];
  }

  lemma GreetingLines(hostName: string)
    ensures FormatReply(250, [hostName, "8BITMIME"]) == ["250-" + hostName, "250 8BITMIME"]
  {
    Code250();
    assert [hostName, "8BITMIME"][1..] == ["8BITMIME"];
    assert FormatReply(250, ["8BITMIME"]) == [IntToString(250) + " " + "8BITMIME"];
    assert "250" + " " + "8BITMIME" == "250 8BITMIME";
    assert "250" + "-" + hostName == "250-" + hostName;
  }

  /** The EHLO greeting, written with the CR LF that ends every reply, is
      a two-line reply in the format the client reads: "250-" then "250 ". */
  lemma EhloGreetingOnTheWire(hostName: string)
    ensures Frame(EhloCommand.Greeting(hostName)) == Transmit(FormatReply(250, [hostName, "8BITMIME"]))
  {
    Code250();
    var lines := FormatReply(250, [hostName, "8BITMIME"]);
    GreetingLines(hostName);
    assert Transmit(lines[1..][1..]) == "";
  }

  /** The client reads the greeting of the server as one successful 250
      reply whose message is the host name and the extension on two lines. */
  lemma EhloGreetingReadBack(hostName: string)
    requires NoLineBreak(hostName)
    ensures ReadReply(ReadLines(Frame(EhloCommand.Greeting(hostName))))
      == (Ok(Response(250, hostName + "\n" + "8BITMIME")), 2)
    ensures IsSuccess(Response(250, hostName + "\n" + "8BITMIME"))
  {
    EhloGreetingOnTheWire(hostName);
    Code250();
    var lines := FormatReply(250, [hostName, "8BITMIME"]);
    GreetingLines(hostName);
    assert NoLineBreak(lines[0]) by {
      forall i | 0 <= i < |lines[0]|
        ensures !IsLineBreak(lines[0][i])
      {
        if i >= 4 {
          assert lines[0][i] == hostName[i - 4];
        }
      }
    }
    assert NoLineBreak(lines[1]);
    ReadLinesOfTransmit(lines);
    ReadFormattedReply(250, [hostName, "8BITMIME"], []);
    assert lines + [] == lines;
  }

  // ---- the DATA tests on the model ----

  /** An address parser that finds one address in anything. */
  function AcceptAll(address: string): EmailUtils.AddressParse {
    EmailUtils.Parsed(1)
  }

  /** A message handler that accepts every sender and every body. */
  method AcceptingHandler() returns (handler: MessageHandler)
    ensures fresh(handler) && handler.calls == []
    ensures forall calls, a :: handler.fromPolicy(calls, a) == Accept
    ensures forall calls, b :: handler.dataPolicy(calls, b) == Accept
  {
    handler := new MessageHandler((calls, a) => Accept, (calls, b) => Accept);
  }

  const ClientHost := "foo.com"
  const Sender := "success@subethamail.org"

  /** "EHLO" and a host name are two tokens. */
  lemma GreetingTokens(host: string)
    requires BaseCommand.IsToken(host)
    ensures BaseCommand.Tokens("EHLO " + host) == ["EHLO", host]
  {
    assert Join(["EHLO", host], [' ']) == "EHLO " + host;
    assert BaseCommand.IsToken("EHLO");
    BaseCommand.TokensOfJoin(["EHLO", host], ' ');
  }

  /** Proof helpers, not part of the model: a list of replies extended by
      one or two more, written as one list display. Stating these on a
      generic element type keeps the solver away from the reply texts. */
  lemma OneThenOne<T>(before: seq<T>, a: T, b: T)
    requires before == [a]
    ensures before + [b] == [a, b]
  {
  }

  lemma TwoThenOne<T>(before: seq<T>, a: T, b: T, c: T)
    requires before == [a, b]
    ensures before + [c] == [a, b, c]
  {
  }

  lemma TwoThenTwo<T>(before: seq<T>, a: T, b: T, c: T, d: T)
    requires before == [a, b]
    ensures before + [c, d] == [a, b, c, d]
  {
  }

  /** The greeting, then MAIL FROM with an address, accepted. */
  method GreetAndMail(sess: Session, handler: MessageHandler, hostName: string, greet: string, mail: string, address: string)
    requires sess.Valid() && sess.Snapshot() == Flags(false, false, 0, false) && sess.replies == []
    requires handler.calls == [] && forall calls, a :: handler.fromPolicy(calls, a) == Accept
    requires Opening(greet, mail, address)
    modifies sess, handler
    ensures sess.Valid() && sess.Snapshot() == Flags(true, true, 0, false)
    ensures sess.replies == [EhloCommand.Greeting(hostName), MailCommand.Accepted]
    ensures handler.calls == [FromCall(address)]
  {
    EhloCommand.Execute(greet, sess, hostName);
    ghost var greeted := sess.replies;
    assert sess.Snapshot() == Flags(true, false, 0, false);
    MailAccepted(sess, handler, mail, address);
    OneThenOne(greeted, EhloCommand.Greeting(hostName), MailCommand.Accepted);
  }

  /** A greeting with a host name, then MAIL FROM with a valid `address`. */
  predicate Opening(greet: string, mail: string, address: string) {
    && |BaseCommand.Tokens(greet)| >= 2
    && MailCommand.WellFormed(mail)
    && EmailUtils.ExtractEmailAddress(MailCommand.Arguments(mail), 5) == Ok(address)
    && EmailUtils.IsValidEmailAddress(address, AcceptAll)
  }

  /** The conversation the DATA tests open with: "EHLO foo.com", then
      "MAIL FROM: success@subethamail.org". */
  lemma OpeningCommands()
    ensures Opening("EHLO " + ClientHost, "MAIL FROM: " + Sender, Sender)
  {
    assert BaseCommand.IsToken(ClientHost);
    GreetingTokens(ClientHost);
    assert Sender[0] == 's' && Sender[|Sender| - 1] == 'g';
    MailCommand.UnbracketedSender(Sender);
    SenderIsValid();
  }

  /** MAIL FROM with a valid address on a session with no sender, accepted. */
  method MailAccepted(sess: Session, handler: MessageHandler, commandString: string, address: string)
    requires sess.Valid() && !sess.hasMailFrom
    requires forall calls, a :: handler.fromPolicy(calls, a) == Accept
    requires MailCommand.WellFormed(commandString)
    requires EmailUtils.ExtractEmailAddress(MailCommand.Arguments(commandString), 5) == Ok(address)
    requires EmailUtils.IsValidEmailAddress(address, AcceptAll)
    modifies sess, handler
    ensures sess.Valid() && sess.Snapshot() == old(sess.Snapshot()).(hasMailFrom := true)
    ensures sess.replies == old(sess.replies) + [MailCommand.Accepted]
    ensures handler.calls == old(handler.calls) + [FromCall(address)]
  {
    var c := MailCommand.Execute(commandString, sess, handler, AcceptAll);
  }

  lemma SenderIsValid()
    ensures EmailUtils.IsValidEmailAddress(Sender, AcceptAll)
  {
    assert AcceptAll(Sender) == EmailUtils.Parsed(1);
  }

  /** DATA before MAIL: the greeting, then the 503 asking for MAIL. */
  method NeedMail(hostName: string) returns (replies: seq<string>)
    ensures replies == [EhloCommand.Greeting(hostName), DataCommandSrc.NeedMail]
  {
    var sess := new Session();
    var handler := AcceptingHandler();
    GreetingTokens(ClientHost);
    EhloCommand.Execute("EHLO " + ClientHost, sess, hostName);
    DataCommandSrc.Execute("DATA", sess, handler, []);
    replies := sess.replies;
  }

  /** DATA after MAIL but before RCPT: the 503 asking for RCPT. */
  method NeedRcpt(hostName: string, greet: string, mail: string, address: string) returns (replies: seq<string>)
    requires Opening(greet, mail, address)
    ensures replies == [EhloCommand.Greeting(hostName), MailCommand.Accepted, DataCommandSrc.NeedRcpt]
  {
    var sess := new Session();
    var handler := AcceptingHandler();
    GreetAndMail(sess, handler, hostName, greet, mail, address);
    ghost var early := sess.replies;
    assert sess.hasMailFrom && sess.recipientCount == 0;
    DataCommandSrc.Execute("DATA", sess, handler, []);
    TwoThenOne(early, EhloCommand.Greeting(hostName), MailCommand.Accepted, DataCommandSrc.NeedRcpt);
    replies := sess.replies;
  }

  /** DATA after MAIL and one recipient: the 354 go-ahead, then the final
      250 for the body, and the transaction is over. */
  method DataAccepted(hostName: string, greet: string, mail: string, address: string, body: Body)
    returns (replies: seq<string>, flags: Flags)
    requires Opening(greet, mail, address)
    ensures replies == [EhloCommand.Greeting(hostName), MailCommand.Accepted,
                        DataCommandSrc.StartMailInput, DataCommandSrc.Accepted]
    ensures flags == Flags(true, false, 0, false)
  {
    var sess := new Session();
    var handler := AcceptingHandler();
    GreetAndMail(sess, handler, hostName, greet, mail, address);
    ghost var early := sess.replies;
    RecipientAndData(sess, handler, body);
    TwoThenTwo(early, EhloCommand.Greeting(hostName), MailCommand.Accepted,
      DataCommandSrc.StartMailInput, DataCommandSrc.Accepted);
    replies, flags := sess.replies, sess.Snapshot();
  }

  /** One recipient, then DATA with a body the handler accepts: 354, 250,
      and the sender and recipients are forgotten. */
  method RecipientAndData(sess: Session, handler: MessageHandler, body: Body)
    requires sess.Valid() && sess.Snapshot() == Flags(true, true, 0, false)
    requires forall calls, b :: handler.dataPolicy(calls, b) == Accept
    modifies sess, handler
    ensures sess.Valid() && sess.Snapshot() == Flags(true, false, 0, false)
    ensures sess.replies == old(sess.replies) + [DataCommandSrc.StartMailInput, DataCommandSrc.Accepted]
  {
    sess.AddRecipient();
    assert sess.hasMailFrom && sess.recipientCount == 1;
    assert handler.dataPolicy(handler.calls, body) == Accept;
    DataCommandSrc.Execute("DATA", sess, handler, body);
  }
}

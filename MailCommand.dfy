/** MAIL FROM (src/ tree): set the sender of the transaction, section
    4.1.1.2 of RFC 5321. */
module MailCommand {
  import opened Wrappers
  import opened JavaStrings
  import opened Session
  import EmailUtils
  import BaseCommand

  const SenderAlreadySpecified := "503 Sender already specified."
  const MissingAddress := "501 Syntax: MAIL FROM: <address>"
  const Accepted := "250 Ok"

  /** The 501 reply for arguments that do not start with FROM:, echoing them. */
  function ParameterError(args: string): string {
    "501 Syntax: MAIL FROM: <address>  Error in parameters: \"" + args + "\""
  }

  /** The 553 reply for an address the parser refuses. */
  function InvalidAddress(address: string): string {
    "553 <" + address + "> Invalid email address."
  }

  /** The argument text after the verb, as execute computes it. */
  function Arguments(commandString: string): string {
    BaseCommand.GetArgPredicate(Some(commandString))
  }

  /** The command gets past both syntax checks. */
  predicate WellFormed(commandString: string) {
    Trim(commandString) != "MAIL FROM:" && StartsWith(ToUpper(Arguments(commandString)), "FROM:")
  }

  /** execute: one reply per call, except when a "<" address lacks its ">"
      and substring's exception leaves execute with no reply. Only a valid
      address reaches the handler, and only the handler's acceptance sets the
      sender. */
  method Execute(commandString: string, sess: Session, handler: MessageHandler,
                 parse: string -> EmailUtils.AddressParse)
    returns (completion: Completion)
    requires sess.Valid()
    modifies sess, handler
    ensures sess.Valid()
    ensures sess.hasSeenHelo == old(sess.hasSeenHelo) && sess.dataMode == old(sess.dataMode)
    ensures sess.recipientCount == old(sess.recipientCount)
    // a sender is set only by an accepted MAIL, and never cleared here
    ensures old(sess.hasMailFrom) ==> sess.hasMailFrom
    // sender already set
    ensures old(sess.hasMailFrom) ==>
      completion == Normal && sess.replies == old(sess.replies) + [SenderAlreadySpecified]
      && handler.calls == old(handler.calls)
    // "MAIL FROM:" with nothing after it
    ensures !old(sess.hasMailFrom) && Trim(commandString) == "MAIL FROM:" ==>
      completion == Normal && sess.replies == old(sess.replies) + [MissingAddress]
      && !sess.hasMailFrom && handler.calls == old(handler.calls)
    // arguments not starting with FROM: in any case
    ensures !old(sess.hasMailFrom) && Trim(commandString) != "MAIL FROM:"
            && !StartsWith(ToUpper(Arguments(commandString)), "FROM:") ==>
      completion == Normal && sess.replies == old(sess.replies) + [ParameterError(Arguments(commandString))]
      && !sess.hasMailFrom && handler.calls == old(handler.calls)
    // the address cannot be cut out of its brackets
    ensures !old(sess.hasMailFrom) && WellFormed(commandString)
            && EmailUtils.ExtractEmailAddress(Arguments(commandString), 5).Err? ==>
      completion == Escaped(StringIndexOutOfBounds) && sess.replies == old(sess.replies)
      && !sess.hasMailFrom && handler.calls == old(handler.calls)
    // an address the parser refuses
    ensures !old(sess.hasMailFrom) && WellFormed(commandString)
            && EmailUtils.ExtractEmailAddress(Arguments(commandString), 5).Ok? ==>
      var address := EmailUtils.ExtractEmailAddress(Arguments(commandString), 5).value;
      !EmailUtils.IsValidEmailAddress(address, parse) ==>
        completion == Normal && sess.replies == old(sess.replies) + [InvalidAddress(address)]
        && !sess.hasMailFrom && handler.calls == old(handler.calls)
    // a valid address goes to the handler, which accepts or rejects it
    ensures !old(sess.hasMailFrom) && WellFormed(commandString)
            && EmailUtils.ExtractEmailAddress(Arguments(commandString), 5).Ok? ==>
      var address := EmailUtils.ExtractEmailAddress(Arguments(commandString), 5).value;
      var decision := handler.fromPolicy(old(handler.calls), address);
      EmailUtils.IsValidEmailAddress(address, parse) ==>
        && completion == Normal
        && handler.calls == old(handler.calls) + [FromCall(address)]
        && sess.hasMailFrom == decision.Accept?
        && sess.replies == old(sess.replies) + [if decision.Accept? then Accepted else decision.response]
  {
    if sess.hasMailFrom {
      sess.SendResponse(SenderAlreadySpecified);
      return Normal;
    }
    if Trim(commandString) == "MAIL FROM:" {
      sess.SendResponse(MissingAddress);
      return Normal;
    }
    var args := Arguments(commandString);
    if !StartsWith(ToUpper(args), "FROM:") {
      sess.SendResponse(ParameterError(Arguments(commandString)));
      return Normal;
    }
    completion := ExtractAndOffer(args, sess, handler, parse);
  }

  /** What execute does once both syntax checks pass: cut the address out
      of the arguments at offset 5, validate it, and offer a valid one to the
      handler. */
  method ExtractAndOffer(args: string, sess: Session, handler: MessageHandler,
                         parse: string -> EmailUtils.AddressParse)
    returns (completion: Completion)
    requires sess.Valid() && !sess.hasMailFrom
    modifies sess, handler
    ensures sess.Valid()
    ensures sess.hasSeenHelo == old(sess.hasSeenHelo) && sess.dataMode == old(sess.dataMode)
    ensures sess.recipientCount == old(sess.recipientCount)
    ensures EmailUtils.ExtractEmailAddress(args, 5).Err? ==>
      completion == Escaped(StringIndexOutOfBounds) && sess.replies == old(sess.replies)
      && !sess.hasMailFrom && handler.calls == old(handler.calls)
    ensures EmailUtils.ExtractEmailAddress(args, 5).Ok? ==>
      var address := EmailUtils.ExtractEmailAddress(args, 5).value;
      !EmailUtils.IsValidEmailAddress(address, parse) ==>
        completion == Normal && sess.replies == old(sess.replies) + [InvalidAddress(address)]
        && !sess.hasMailFrom && handler.calls == old(handler.calls)
    ensures EmailUtils.ExtractEmailAddress(args, 5).Ok? ==>
      var address := EmailUtils.ExtractEmailAddress(args, 5).value;
      var decision := handler.fromPolicy(old(handler.calls), address);
      EmailUtils.IsValidEmailAddress(address, parse) ==>
        && completion == Normal
        && handler.calls == old(handler.calls) + [FromCall(address)]
        && sess.hasMailFrom == decision.Accept?
        && sess.replies == old(sess.replies) + [if decision.Accept? then Accepted else decision.response]
  {
    var extracted := EmailUtils.ExtractEmailAddress(args, 5);
    if extracted.Err? {
      return Escaped(StringIndexOutOfBounds);
    }
    var emailAddress := extracted.value;
    if EmailUtils.IsValidEmailAddress(emailAddress, parse) {
      OfferSender(emailAddress, sess, handler);
    } else {
      sess.SendResponse(InvalidAddress(emailAddress));
    }
    return Normal;
  }

  /** A valid sender goes to the handler: when it accepts, the sender is set
      and 250 sent; when it rejects, its text is sent verbatim and the
      sender stays unset. */
  method OfferSender(address: string, sess: Session, handler: MessageHandler)
    requires sess.Valid() && !sess.hasMailFrom
    modifies sess, handler
    ensures sess.Valid()
    ensures sess.hasSeenHelo == old(sess.hasSeenHelo) && sess.dataMode == old(sess.dataMode)
    ensures sess.recipientCount == old(sess.recipientCount)
    ensures handler.calls == old(handler.calls) + [FromCall(address)]
    ensures var decision := handler.fromPolicy(old(handler.calls), address);
      && sess.hasMailFrom == decision.Accept?
      && sess.replies == old(sess.replies) + [if decision.Accept? then Accepted else decision.response]
  {
    var decision := handler.From(address);
    match decision {
      case Accept =>
        sess.SetHasMailFrom(true);
        sess.SendResponse(Accepted);
      case Reject(response) =>
        sess.SendResponse(response);
    }
  }

  /** Once past both syntax checks the arguments are at least "FROM:" long,
      so the offset 5 handed to extractEmailAddress is never out of range:
      the only way extraction fails is a "<" with no ">". */
  lemma ExtractionFailsOnlyOnMissingBracket(commandString: string)
    requires WellFormed(commandString)
    ensures var args := Arguments(commandString);
      EmailUtils.ExtractEmailAddress(args, 5).Err? <==>
        (EmailUtils.Bracketed(Trim(args[5..])) && '>' !in Trim(args[5..]))
  {
  }

  /** The arguments of a command line are the text after its four-letter
      verb with the padding removed. */
  lemma ArgumentsOfPadded(verb: string, pad: string, body: string)
    requires |verb| == 4 && AllTrimmable(pad)
    requires |body| > 0 && !IsTrimmable(body[0]) && !IsTrimmable(body[|body| - 1])
    ensures Arguments(verb + pad + body) == body
  {
    assert (verb + pad + body)[4..] == pad + body;
    TrimOfPadded(pad, body);
  }

  lemma TrimOfUnpadded(s: string)
    requires |s| > 0 && !IsTrimmable(s[0]) && !IsTrimmable(s[|s| - 1])
    ensures Trim(s) == s
  {
    TrimOfPadded("", s);
    assert "" + s == s;
  }

  lemma ArgumentsOfNullReversePath()
    ensures Arguments("MAIL FROM:<>") == "FROM:<>"
  {
    assert "MAIL FROM:<>" == "MAIL" + " " + "FROM:<>";
    ArgumentsOfPadded("MAIL", " ", "FROM:<>");
  }

  lemma ExtractOfNullReversePath()
    ensures EmailUtils.ExtractEmailAddress("FROM:<>", 5) == Ok("")
  {
    assert "FROM:<>"[5..] == "<>";
    TrimOfUnpadded("<>");
    EmailUtils.CloseOfBracketed("", "");
    assert "<" + "" + ">" + "" == "<>";
  }

  /** A command line with no space at either end, other than "MAIL FROM:",
      whose arguments start with "FROM:" passes both syntax checks. */
  lemma WellFormedOf(commandString: string, rest: string)
    requires |commandString| > 0 && |commandString| != |"MAIL FROM:"|
    requires !IsTrimmable(commandString[0]) && !IsTrimmable(commandString[|commandString| - 1])
    requires Arguments(commandString) == "FROM:" + rest
    ensures WellFormed(commandString)
  {
    TrimOfUnpadded(commandString);
    UpperOfFrom(rest);
  }

  lemma NullReversePathIsWellFormed()
    ensures WellFormed("MAIL FROM:<>")
  {
    ArgumentsOfNullReversePath();
    assert "FROM:<>" == "FROM:" + "<>";
    WellFormedOf("MAIL FROM:<>", "<>");
  }

  lemma UpperOfFrom(rest: string)
    ensures StartsWith(ToUpper("FROM:" + rest), "FROM:")
  {
    assert ToUpper("FROM:" + rest)[..5] == "FROM:";
  }

  /** The null reverse-path: "MAIL FROM:<>" extracts the empty address, which
      is valid whatever the parser says, so it reaches the handler. */
  lemma NullReversePath(parse: string -> EmailUtils.AddressParse)
    ensures WellFormed("MAIL FROM:<>")
    ensures EmailUtils.ExtractEmailAddress(Arguments("MAIL FROM:<>"), 5) == Ok("")
    ensures EmailUtils.IsValidEmailAddress("", parse)
  {
    NullReversePathIsWellFormed();
    ArgumentsOfNullReversePath();
    ExtractOfNullReversePath();
  }

  lemma ArgumentsOfSender(address: string)
    requires |address| > 0 && !IsTrimmable(address[|address| - 1])
    ensures Arguments("MAIL FROM: " + address) == "FROM: " + address
  {
    var args := "FROM: " + address;
    assert "MAIL FROM: " + address == "MAIL" + " " + args;
    ArgumentsOfPadded("MAIL", " ", args);
  }

  lemma SenderLineIsWellFormed(address: string)
    requires |address| > 0 && !IsTrimmable(address[|address| - 1])
    ensures WellFormed("MAIL FROM: " + address)
  {
    ArgumentsOfSender(address);
    assert "FROM: " + address == "FROM:" + (" " + address);
    WellFormedOf("MAIL FROM: " + address, " " + address);
  }

  lemma ExtractOfSender(address: string)
    requires |address| > 0 && !IsTrimmable(address[0]) && !IsTrimmable(address[|address| - 1])
    requires address[0] != '<'
    ensures EmailUtils.ExtractEmailAddress("FROM: " + address, 5) == Ok(address)
  {
    assert ("FROM: " + address)[5..] == " " + address;
    TrimOfPadded(" ", address);
    assert !EmailUtils.Bracketed(address);
  }

  /** "MAIL FROM: " and an address without brackets: both syntax checks
      pass and the address is extracted as it was given. */
  lemma UnbracketedSender(address: string)
    requires |address| > 0 && !IsTrimmable(address[0]) && !IsTrimmable(address[|address| - 1])
    requires address[0] != '<'
    ensures WellFormed("MAIL FROM: " + address)
    ensures EmailUtils.ExtractEmailAddress(Arguments("MAIL FROM: " + address), 5) == Ok(address)
  {
    SenderLineIsWellFormed(address);
    ArgumentsOfSender(address);
    ExtractOfSender(address);
  }

  lemma ArgumentsOfLowerCaseBareFrom()
    ensures Arguments("mail from:") == "from:"
  {
    assert "mail from:" == "mail" + " " + "from:";
    ArgumentsOfPadded("mail", " ", "from:");
  }

  lemma UpperCaseBareFromIsMalformed()
    ensures !WellFormed("MAIL FROM:")
  {
    TrimOfUnpadded("MAIL FROM:");
  }

  lemma UpperOfLowerFrom()
    ensures ToUpper("from:") == "FROM:"
  {
    assert ToUpper("from:") == [ToUpperChar('f')] + ToUpper("rom:");
    assert ToUpper("rom:") == [ToUpperChar('r')] + ToUpper("om:");
    assert ToUpper("om:") == [ToUpperChar('o')] + ToUpper("m:");
    assert ToUpper("m:") == [ToUpperChar('m')] + ToUpper(":");
  }

  lemma LowerCaseBareFromIsWellFormed()
    ensures WellFormed("mail from:")
  {
    TrimOfUnpadded("mail from:");
    assert "mail from:" != "MAIL FROM:" by {
      assert "mail from:"[0] != "MAIL FROM:"[0];
    }
    ArgumentsOfLowerCaseBareFrom();
    UpperOfLowerFrom();
  }

  lemma ExtractOfLowerCaseBareFrom()
    ensures EmailUtils.ExtractEmailAddress(Arguments("mail from:"), 5) == Ok("")
  {
    ArgumentsOfLowerCaseBareFrom();
    assert "from:"[5..] == "";
  }

  /** The exact-match syntax check is case-sensitive while the FROM: check is
      not: "mail from:" with no address passes both and extracts the empty
      address, which is valid, so it is handed to the handler as the null
      sender instead of drawing the 501 that "MAIL FROM:" gets. */
  lemma LowerCaseBareFromIsNullSender()
    ensures !WellFormed("MAIL FROM:")
    ensures WellFormed("mail from:")
    ensures EmailUtils.ExtractEmailAddress(Arguments("mail from:"), 5) == Ok("")
  {
    UpperCaseBareFromIsMalformed();
    LowerCaseBareFromIsWellFormed();
    ExtractOfLowerCaseBareFrom();
  }
}

# subethasmtp: the command-level SMTP conversation

This project models the part of the subethasmtp server and client that holds the SMTP conversation at the level of command lines and reply lines:

- the argument helpers every command inherits: the argument text after the verb, whitespace tokenising, joining with a delimiter, and the help table;
- address extraction and validation;
- the EHLO, MAIL FROM and DATA commands. DATA appears in both of its historical variants:
  - the `src/` tree catches a rejection and always resets the transaction;
  - the `smtp/` tree sets data mode, resets before its final 250, and lets a rejection escape;
- the client's reading of a reply, which may span several lines (section 4.2.1 of RFC 5321), and its framing of the commands it sends.

The modules are:

- `JavaStrings`: the parts of `java.lang.String` and `Integer` that the code relies on. `trim` removes characters up to U+0020. `indexOf`, ASCII upper-casing, `toString` and `parseInt` are here too.
- `EmailUtils` models `EmailUtils.java`. `BaseCommand` models `smtp/.../server/BaseCommand.java`. Its `getArgs` and `getTokenizedString` are loops proved against `Tokens` and `Join`, and the static help map is a class with a `map` field.
- `Session` holds the per-connection state the commands touch, plus the message handler.
  - The session's flags are the greeting, the sender, the recipient count and data mode. It also keeps the list of replies sent so far.
  - A ghost trace records the flags at the moment each reply went out. This is what lets the two DATA variants' order of reset and reply be stated.
  - The handler is abstract. Its accept or reject decision is a function of the calls it has already received, and it logs every call.
- `MailCommand`, `DataCommandSrc`, `DataCommandSmtp` and `EhloCommand` are one `Execute` method per command file. Each method states the replies it sends and the session state it leaves, branch by branch.
  - An exception that leaves `execute` is a `Completion` value of `Escaped`.
- `SMTPClient` models the client.
  - `readLine` is `ReadLines`.
  - The loop of `receive` is specified by `Gather` and `ReadReply`. It is implemented by `Client.GatherLines`, with the same `done` flag, and `Client.Receive` parses the code of the last line.
  - The module also proves the format/parse round trip.
- `Conversation` joins the two ends. The EHLO greeting written by the server is read back by the client as one 250 reply. The module also replays the conversations of `DataTest` on the model.

Three behaviours of the code differ from what RFC 5321 leads a reader to expect. The model follows the code:

- Section 4.2 of RFC 5321 gives every command exactly one reply. MAIL FROM does not always send one. `MAIL FROM:<x` with no `>` makes `substring` throw, and the exception leaves `execute` with no reply.
- Section 4.1.1 of RFC 5321 separates the verb from its arguments with a space. The code does not look for that space: `getArgPredicate` drops the first four characters, whatever they are.
- Section 4.1.1.4 of RFC 5321 has the server answer the end of the data with success or failure. The `smtp/` variant of DATA does not relay a rejection and does not reset on it. The exception leaves `execute` after the 354 reply.

## Model

| member | source | states |
|---|---|---|
| EmailUtils.IsValidEmailAddress | src/org/subethamail/smtp/util/EmailUtils.java:14-34 | the empty address is valid; a non-empty one is valid iff the parser returns at least one address without throwing |
| EmailUtils.ExtractEmailAddress | src/org/subethamail/smtp/util/EmailUtils.java:39-46 | fails iff the offset is outside the string or a `<`-text has no `>`; unbracketed text comes back trimmed; bracketed text yields the `>`-free text that `<`…`>` encloses at the front |
| EmailUtils.UnbracketedIsTrimmed | src/org/subethamail/smtp/util/EmailUtils.java:41-45 | an unbracketed address is extracted with no leading or trailing whitespace |
| EmailUtils.ExtractBracketed | src/org/subethamail/smtp/util/EmailUtils.java:41-43 | `prefix + pad + "<" + a + ">" + tail` extracts exactly `a` at offset `|prefix|` when `a` has no `>` |
| EmailUtils.CloseOfBracketed | src/org/subethamail/smtp/util/EmailUtils.java:42-43 | in `"<" + a + ">" + tail` the `<` is at 0, the first `>` right after `a`, and the text between is `a` |
| BaseCommand.GetArgPredicate | smtp/src/org/subethamail/smtp/server/BaseCommand.java:65-71 | "" for null or fewer than four characters; otherwise a trimming of the text after the first four, with no whitespace at either end |
| BaseCommand.Tokens | smtp/src/org/subethamail/smtp/server/BaseCommand.java:115-119 | the tokens StringTokenizer hands out with its default delimiters: every one non-empty and free of space, tab, CR, LF and form feed, in input order; `TokensSplit`, `TokensOfToken` and `TokensOfJoin` pin it down |
| BaseCommand.GetArgs | smtp/src/org/subethamail/smtp/server/BaseCommand.java:112-122 | the loop returns exactly `Tokens(commandString)`: the delimiter-free, non-empty tokens in input order |
| BaseCommand.WordEnd | smtp/src/org/subethamail/smtp/server/BaseCommand.java:116-118 | the scan from a non-delimiter stops at the next delimiter or the end: the token it ends is exactly the run `WordLength` measures |
| BaseCommand.TokensSplit | smtp/src/org/subethamail/smtp/server/BaseCommand.java:115-119 | a delimiter splits the token list: tokens of `a + [d] + b` are those of `a` then those of `b` |
| BaseCommand.TokensOfToken | smtp/src/org/subethamail/smtp/server/BaseCommand.java:115-119 | a single token tokenises to itself |
| BaseCommand.TokensOfJoin | smtp/src/org/subethamail/smtp/server/BaseCommand.java:112-122 | tokens joined by one delimiter are tokenised back to the same list |
| BaseCommand.StringBuilder.Append | smtp/src/org/subethamail/smtp/server/BaseCommand.java:104-107 | append adds the text at the end of the builder |
| BaseCommand.GetTokenizedString | smtp/src/org/subethamail/smtp/server/BaseCommand.java:100-110 | the builder ends up as its old contents followed by the items with `delim` between consecutive items and none trailing |
| BaseCommand.IsValidEmailAddress | smtp/src/org/subethamail/smtp/server/BaseCommand.java:78-98 | decides exactly as the EmailUtils version; the empty address is valid |
| BaseCommand.ExtractEmailAddress | smtp/src/org/subethamail/smtp/server/BaseCommand.java:124-131 | equal on every input to the EmailUtils version |
| BaseCommand.HelpTable.constructor | smtp/src/org/subethamail/smtp/server/BaseCommand.java:25 | the help map starts empty |
| BaseCommand.HelpTable.GetHelp | smtp/src/org/subethamail/smtp/server/BaseCommand.java:51-58 | succeeds iff the upper-cased name is a key, with that entry; otherwise CommandException |
| BaseCommand.HelpTable.SetHelp | smtp/src/org/subethamail/smtp/server/BaseCommand.java:46-49 | stores under the upper-cased name; afterwards every casing of the name finds the new entry and every other name finds what it found before |
| BaseCommand.GetHelpIgnoresCase | smtp/src/org/subethamail/smtp/server/BaseCommand.java:48-54 | two names equal up to case get the same answer |
| BaseCommand.GetHelpUnregistered | smtp/src/org/subethamail/smtp/server/BaseCommand.java:54-56 | a name matching no key in any casing raises CommandException |
| JavaStrings.Trim | src/org/subethamail/smtp/util/EmailUtils.java:41 | the result is a slice of the input with only characters <= U+0020 cut at the ends, and none left at either end |
| JavaStrings.IndexOf | src/org/subethamail/smtp/util/EmailUtils.java:42-43 | -1 iff the character is absent, otherwise its first position |
| JavaStrings.TrimOfPadded | smtp/src/org/subethamail/smtp/server/BaseCommand.java:70 | whitespace in front of a text with non-space ends is removed and nothing else |
| JavaStrings.UpperOfEqualsIgnoreCase | smtp/src/org/subethamail/smtp/server/BaseCommand.java:48-54 | names equal ignoring case have the same upper-cased key |
| JavaStrings.JoinSnoc | smtp/src/org/subethamail/smtp/server/BaseCommand.java:102-109 | one more item adds one delimiter and the item at the end |
| JavaStrings.ParseIntToString | src/org/subethamail/smtp/client/SMTPClient.java:130-132 | parseInt inverts the decimal form of every integer |
| JavaStrings.ThreeDigitCode | src/org/subethamail/smtp/client/SMTPClient.java:130 | a code in 100..999 prints as three digits, the first being its class |
| Session.MessageHandler.From | smtp/src/org/subethamail/smtp/MessageHandler.java:26 | returns the handler's decision on the address and logs the call |
| Session.MessageHandler.Data | smtp/src/org/subethamail/smtp/MessageHandler.java:49 | returns the handler's decision on the body and logs the call together with the calling session's flags and number of replies at that moment, read from the session itself |
| Session.Session.SendResponse | src/org/subethamail/smtp/command/MailCommand.java:33 | appends one reply, records the flags at that moment, changes no flag |
| Session.Session.SetHasMailFrom | src/org/subethamail/smtp/command/MailCommand.java:58 | sets the sender flag only |
| Session.Session.SetHasSeenHelo | smtp/src/org/subethamail/smtp/command/EhloCommand.java:40 | sets the greeting flag only |
| Session.Session.SetDataMode | smtp/src/org/subethamail/smtp/command/DataCommand.java:46 | sets the data-mode flag only |
| Session.Session.AddRecipient | src/test/java/org/subethamail/smtp/command/DataTest.java:54-55 | one more recipient, nothing else |
| Session.Session.ResetMessageState | src/org/subethamail/smtp/command/DataCommand.java:73 | clears sender and recipients, keeps the greeting |
| Session.Session.ResetKeepingHelo | smtp/src/org/subethamail/smtp/command/DataCommand.java:55 | clears sender, recipients and data mode, keeps the greeting |
| MailCommand.Execute | src/org/subethamail/smtp/command/MailCommand.java:29-71 | sender set: 503, nothing changes; exact "MAIL FROM:": 501; no FROM: prefix in any case: 501 echoing the arguments; unextractable address: the exception escapes with no reply; invalid address: 553 and the handler is not called; valid: the handler decides, the sender is set iff it accepts, with reply 250 or its rejection text verbatim; other flags never change |
| MailCommand.WellFormed | src/org/subethamail/smtp/command/MailCommand.java:37-44 | the two syntax checks: the trimmed line is not exactly "MAIL FROM:" (case-sensitive) and the upper-cased arguments start with "FROM:" |
| MailCommand.ExtractAndOffer | src/org/subethamail/smtp/command/MailCommand.java:52-69 | past the syntax checks: an extraction failure escapes with no reply and no handler call; an invalid address draws 553 naming it, without a handler call; a valid one goes to the handler, whose decision alone sets the sender |
| MailCommand.OfferSender | src/org/subethamail/smtp/command/MailCommand.java:55-64 | the handler is called once with the address; the sender is set iff it accepts; the reply is 250 on accept and the rejection text on reject; the other flags stay |
| MailCommand.WellFormedOf | src/org/subethamail/smtp/command/MailCommand.java:37-44 | a line with non-space ends, not of the bare length, whose arguments start "FROM:" passes both syntax checks |
| MailCommand.SenderLineIsWellFormed | src/org/subethamail/smtp/command/MailCommand.java:37-44 | "MAIL FROM: " followed by an address with a non-space end passes both syntax checks |
| MailCommand.ExtractOfSender | src/org/subethamail/smtp/command/MailCommand.java:52 | from "FROM: a" at offset 5 an unbracketed address with non-space ends is extracted unchanged |
| MailCommand.UnbracketedSender | src/org/subethamail/smtp/command/MailCommand.java:37-52 | "MAIL FROM: a" with `a` unbracketed and with non-space ends passes both checks and extracts exactly `a` |
| MailCommand.ExtractionFailsOnlyOnMissingBracket | src/org/subethamail/smtp/command/MailCommand.java:43-52 | past the syntax checks, extraction at offset 5 fails iff the address text starts with `<` and has no `>` |
| MailCommand.ArgumentsOfPadded | src/org/subethamail/smtp/command/MailCommand.java:43 | the arguments of `verb + whitespace + text` are the text |
| MailCommand.TrimOfUnpadded | src/org/subethamail/smtp/command/MailCommand.java:37 | a command line with non-space ends is its own trimming |
| MailCommand.UpperOfFrom | src/org/subethamail/smtp/command/MailCommand.java:44 | arguments starting "FROM:" pass the prefix check |
| MailCommand.NullReversePath | src/org/subethamail/smtp/command/MailCommand.java:37-57 | "MAIL FROM:<>" passes both checks, extracts the empty address, which is valid for every parser, so it reaches the handler |
| MailCommand.LowerCaseBareFromIsNullSender | src/org/subethamail/smtp/command/MailCommand.java:37-53 | "MAIL FROM:" draws the 501, but "mail from:" passes both checks and extracts the empty address |
| DataCommandSrc.FinalReply | src/org/subethamail/smtp/command/DataCommand.java:57-71 | 250 Ok on accept, the rejection text verbatim on reject |
| DataCommandSrc.Execute | src/org/subethamail/smtp/command/DataCommand.java:34-74 | no sender: need-MAIL 503 only, nothing else changes; no recipient: need-RCPT 503 only; otherwise 354, then the body to the handler, which sees the flags unchanged and the 354 already sent, one final reply, then sender and recipients cleared with the greeting kept; the final reply was sent before the reset |
| DataCommandSmtp.Execute | smtp/src/org/subethamail/smtp/command/DataCommand.java:30-57 | the same guards with nothing changed; on success 354 goes out first with the flags as they were, then the handler gets the body with the 354 already sent and data mode on; on accept the session is reset (greeting kept) before 250 is sent; on reject the exception escapes after the 354 only, with data mode on and nothing reset |
| EhloCommand.Execute | smtp/src/org/subethamail/smtp/command/EhloCommand.java:21-49 | fewer than two tokens: 501 with the greeting flag unchanged; first greeting: the two-line 250 greeting and the flag set; later greetings: 503 naming the second token; the flag is never cleared and no other flag changes |
| SMTPClient.IsSuccess | src/org/subethamail/smtp/client/SMTPClient.java:60-63 | success is a code from 100 to 399; `IsSuccessByFirstDigit` states it as the reply class |
| SMTPClient.ResponseToString | src/org/subethamail/smtp/client/SMTPClient.java:66 | the decimal code, a space, the message; `ToStringRoundTrip` reads it back |
| SMTPClient.IsSuccessByFirstDigit | src/org/subethamail/smtp/client/SMTPClient.java:60-63 | for a three-digit code, success holds iff its first digit is 1, 2 or 3 |
| SMTPClient.ToStringRoundTrip | src/org/subethamail/smtp/client/SMTPClient.java:66 | toString of a one-line response is the line a server writes for it, and reading that line back gives the same response |
| SMTPClient.Frame | src/org/subethamail/smtp/client/SMTPClient.java:105 | the message followed by exactly CR LF |
| SMTPClient.ReadLines | src/org/subethamail/smtp/client/SMTPClient.java:120 | readLine never returns a CR or an LF |
| SMTPClient.ReadLinesOfFrame | src/org/subethamail/smtp/client/SMTPClient.java:102-107 | a framed line without breaks is read back as itself, and the rest of the stream is untouched |
| SMTPClient.ReadLinesOfTransmit | src/org/subethamail/smtp/client/SMTPClient.java:102-107 | lines sent one after another with send's framing are read back as the same lines |
| SMTPClient.Gather | src/org/subethamail/smtp/client/SMTPClient.java:117-128 | the loop reads lines while the fourth character is `-` and stops at the first line where it is not; it fails only at the end of the stream or on a line shorter than four characters |
| SMTPClient.ReadReply | src/org/subethamail/smtp/client/SMTPClient.java:112-133 | a reply's code is the parseInt value of the first three characters of its final line; a bad code is reported with those characters |
| SMTPClient.LineTexts | src/org/subethamail/smtp/client/SMTPClient.java:122 | the text of each line from index 4 |
| SMTPClient.GatheredText | src/org/subethamail/smtp/client/SMTPClient.java:122-127 | the message is the lines' texts from index 4 joined with "\n", no trailing newline |
| SMTPClient.FormatReply | smtp/src/org/subethamail/smtp/command/EhloCommand.java:41-42 | one line per text, each the code then `-`, except the last, which has a space; `FormatReplyShape` and `ReadFormattedReply` state what the client makes of it |
| SMTPClient.FormatReplyShape | smtp/src/org/subethamail/smtp/command/EhloCommand.java:41-42 | in a formatted reply every line starts with the code; every line but the last is a continuation |
| SMTPClient.GatherFormatted | src/org/subethamail/smtp/client/SMTPClient.java:118-128 | the loop over a formatted reply reads exactly its lines and gathers the texts joined with "\n" |
| SMTPClient.ReadFormattedReply | src/org/subethamail/smtp/client/SMTPClient.java:112-133 | round trip: a reply formatted with code c and texts t1..tn reads back as (c, t1 + "\n" + … + tn), using n lines, whatever follows |
| SMTPClient.SplitLines | src/org/subethamail/smtp/client/SMTPClient.java:122-127 | the parts of a message split at "\n" hold no "\n" |
| SMTPClient.SplitJoin | src/org/subethamail/smtp/client/SMTPClient.java:122-127 | splitting the joined texts at "\n" gives back the texts when none holds "\n" |
| SMTPClient.ReplyDeterminesLines | src/org/subethamail/smtp/client/SMTPClient.java:112-133 | the response read back determines the formatted lines the server wrote |
| SMTPClient.Client.constructor | src/org/subethamail/smtp/client/SMTPClient.java:76-86 | nothing written yet; the reader will return the lines of what the server writes |
| SMTPClient.Client.Send | src/org/subethamail/smtp/client/SMTPClient.java:102-107 | the message and CR LF are appended to what was written; the reader is untouched |
| SMTPClient.Client.Receive | src/org/subethamail/smtp/client/SMTPClient.java:112-133 | the loop returns `ReadReply` of the pending lines and consumes exactly the lines it reads |
| SMTPClient.Client.GatherLines | src/org/subethamail/smtp/client/SMTPClient.java:117-128 | the line loop returns `Gather` of the pending lines and consumes exactly the lines it used |
| SMTPClient.Client.SendReceive | src/org/subethamail/smtp/client/SMTPClient.java:142-146 | send, then the reply read as by receive |
| SMTPClient.Client.ReceiveAndCheck | src/org/subethamail/smtp/client/SMTPClient.java:149-154 | no failure iff the reply reads and is a success; an unsuccessful reply fails with that response |
| SMTPClient.Client.SendAndCheck | src/org/subethamail/smtp/client/SMTPClient.java:157-161 | send, then as receiveAndCheck |
| Conversation.EhloGreetingOnTheWire | smtp/src/org/subethamail/smtp/command/EhloCommand.java:41-42 | the framed greeting is the two-line reply "250-host" and "250 8BITMIME" |
| Conversation.EhloGreetingReadBack | smtp/src/org/subethamail/smtp/command/EhloCommand.java:41-42 | the client reads the framed greeting as one successful 250 reply with the message "host\n8BITMIME", using two lines |
| Conversation.GreetingTokens | smtp/src/org/subethamail/smtp/command/EhloCommand.java:23-24 | "EHLO " followed by a token tokenises to the verb and that token |
| Conversation.OpeningCommands | src/test/java/org/subethamail/smtp/command/DataTest.java:33-37 | "EHLO foo.com" has a host name, and "MAIL FROM: success@subethamail.org" passes both checks and extracts that address |
| Conversation.GreetAndMail | src/test/java/org/subethamail/smtp/command/DataTest.java:48-52 | a greeting, then an accepted MAIL: replies greeting and 250, the greeting flag and the sender set |
| Conversation.MailAccepted | src/test/java/org/subethamail/smtp/command/DataTest.java:36-37 | a valid address with an accepting handler gets 250 and sets the sender |
| Conversation.NeedMail | src/test/java/org/subethamail/smtp/command/DataTest.java:17-26 | greeting then DATA: the second reply is "503 Error: need MAIL command" |
| Conversation.NeedRcpt | src/test/java/org/subethamail/smtp/command/DataTest.java:29-41 | greeting, MAIL, DATA: the third reply is "503 Error: need RCPT command" |
| Conversation.DataAccepted | src/test/java/org/subethamail/smtp/command/DataTest.java:44-59 | greeting, MAIL, one recipient, DATA: the 354 the test expects, then, once the body is in, 250; the transaction is over with the greeting kept |
| Conversation.RecipientAndData | src/test/java/org/subethamail/smtp/command/DataTest.java:54-58 | with a greeting and a sender, one recipient then DATA with an accepting handler: 354 then 250, and the sender and recipients are cleared with the greeting kept |

## Left out

- Both `SMTPServer` files and `ServerThread` are left out: listening sockets, threads, the admission semaphore and the connection watchdog are I/O and concurrency.
- `SharedTmpFileInputStream` is left out. It is a file-system wrapper.
- The DATA stream pipeline is left out: the buffering, the terminator-detecting and dot-unstuffing streams, the Received header and the `available()`/`read()` drain loop. The body reaches the handler as an opaque byte sequence. `SmtpTerminator` records the terminator constant only.
- AUTH, HELO, RSET and RCPT are not part of this model, because their code is not among the sources. The `DataTest` replays start with EHLO in place of HELO. They record an accepted RCPT with `Session.Session.AddRecipient`.
- The `Session` and `ConnectionContext` classes are not part of this model; only the fields the commands touch are kept. The model assumes three things about them:
  - `resetMessageState` and `reset(true)` clear the sender and the recipients, `reset(true)` also clears data mode, and both keep the greeting.
  - The `smtp/` tree's `getHasSender` is the same flag as `getHasMailFrom`.
  - A reply is written followed by CR LF, as the client's `send` does.
- The `src/` tree's own `BaseCommand` is not part of this model. `MailCommand` uses `BaseCommand.GetArgPredicate` from the `smtp/` tree.
- What happens to an exception that escapes `execute` (a `Completion` of `Escaped`) is left out. That happens in the server loop, which is not part of this model.
- `EmailUtils.IsValidEmailAddress` takes javax.mail's `InternetAddress.parse` as a parameter and does not interpret it.
- `JavaStrings.ToUpper` upper-cases ASCII letters only, where `toUpperCase` maps all of Unicode.
- `JavaStrings.ParseInt` accepts ASCII digits only, where `parseInt` accepts all Unicode digits.
- JavaStrings: string positions and lengths count Unicode characters, where Java's `length()`, `substring` and `charAt` count UTF-16 code units. The two differ on characters above U+FFFF, which Java counts as two. So `getArgPredicate`'s `length() < 4` and `substring(4)`, and `receive`'s `charAt(3)`, `substring(0, 3)` and `substring(4)`, are modelled for text without such characters only. The client reader's decoding of bytes into characters is not modelled either: `ReadLines` starts from characters.
- IOException, TooMuchDataException and the handler's other exceptions are left out. So are the socket, the reader and writer setup and `close()`. The client's `hostPort` and `toString` are left out too.
- The `getHelp()` getter of the whole map, the `BaseCommand` constructors and `getName` are left out. They only store and return fields.
- `Practice` is a command-line driver and is left out.
- EmailUtils.ExtractBracketed: requires the text after the `>` to be empty or to end in a non-space character. Otherwise trimming would also cut that tail, and the tail does not affect the extracted address anyway.

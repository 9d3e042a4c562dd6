/** The client end of the conversation: how a command goes onto the wire and
    how a reply, possibly spread over several lines (section 4.2.1 of
    RFC 5321), is read back into a code and a message. */
module SMTPClient {
  import opened Wrappers
  import opened JavaStrings

  /** The result of one exchange: the reply code and the reply text, the
      texts of a multi-line reply separated by "\n". */
  datatype Response = Response(code: int, message: string)

  /** isSuccess: a 1yz, 2yz or 3yz reply. */
  function IsSuccess(r: Response): bool {
    r.code >= 100 && r.code < 400
  }

  /** Response.toString: the code in decimal, a space, the message. */
  function ResponseToString(r: Response): string {
    IntToString(r.code) + " " + r.message
  }

  /** The reply classes that count as success are exactly those whose first
      digit is 1, 2 or 3. */
  lemma IsSuccessByFirstDigit(r: Response)
    requires 100 <= r.code <= 999
    ensures IsSuccess(r) <==> '1' <= IntToString(r.code)[0] <= '3'
  {
    ThreeDigitCode(r.code);
  }

  // ---- lines on the wire ----

  predicate IsLineBreak(c: char) {
    c == '\r' || c == '\n'
  }

  predicate NoLineBreak(s: string) {
    forall i :: 0 <= i < |s| ==> !IsLineBreak(s[i])
  }

  /** What send writes for one command: the text and exactly CR LF. */
  function Frame(msg: string): (wire: string)
    ensures |wire| == |msg| + 2 && wire[..|msg|] == msg && wire[|msg|..] == "\r\n"
  {
    msg + "\r\n"
  }

  /** The length of the line at the start of `s`: up to the first CR or LF. */
  function LineLength(s: string): (n: nat)
    ensures n <= |s| && NoLineBreak(s[..n])
    ensures n < |s| ==> IsLineBreak(s[n])
  {
    if |s| > 0 && !IsLineBreak(s[0]) then
      var n := 1 + LineLength(s[1..]);
      assert s[..n] == [s[0]] + s[1..][..n - 1];
      n
    else 0
  }

  /** The lines BufferedReader.readLine returns from `s`, in order: each
      ends at LF, CR or CR LF, the terminator not included; text after the
      last terminator is one more line; then readLine returns null. */
  function ReadLines(s: string): (lines: seq<string>)
    ensures forall k :: 0 <= k < |lines| ==> NoLineBreak(lines[k])
    decreases |s|
  {
    if |s| == 0 then []
    else
      var n := LineLength(s);
      if n == |s| then [s]
      else
        var next := if s[n] == '\r' && n + 1 < |s| && s[n + 1] == '\n' then n + 2 else n + 1;
        [s[..n]] + ReadLines(s[next..])
  }

  /** The text of `lines` sent one after another, each with its CR LF. */
  function Transmit(lines: seq<string>): (wire: string)
    ensures |lines| > 0 ==> wire == Frame(lines[0]) + Transmit(lines[1..])
  {
    if |lines| == 0 then "" else Frame(lines[0]) + Transmit(lines[1..])
  }

  lemma {:induction false} LineLengthOf(msg: string, rest: string)
    requires NoLineBreak(msg) && |rest| > 0 && IsLineBreak(rest[0])
    ensures LineLength(msg + rest) == |msg|
  {
    if |msg| > 0 {
      assert (msg + rest)[1..] == msg[1..] + rest;
      LineLengthOf(msg[1..], rest);
    }
  }

  /** A framed command is read back as exactly one line, itself. */
  lemma ReadLinesOfFrame(msg: string, rest: string)
    requires NoLineBreak(msg)
    ensures ReadLines(Frame(msg) + rest) == [msg] + ReadLines(rest)
  {
    var s := Frame(msg) + rest;
    assert s == msg + ("\r\n" + rest);
    LineLengthOf(msg, "\r\n" + rest);
    assert s[..|msg|] == msg;
    assert s[|msg| + 2..] == rest;
  }

  /** Lines sent with send's framing are read back as the same lines. */
  lemma {:induction false} ReadLinesOfTransmit(lines: seq<string>)
    requires forall k :: 0 <= k < |lines| ==> NoLineBreak(lines[k])
    ensures ReadLines(Transmit(lines)) == lines
  {
    if |lines| > 0 {
      ReadLinesOfTransmit(lines[1..]);
      ReadLinesOfFrame(lines[0], Transmit(lines[1..]));
    }
  }

  // ---- reply assembly ----

  /** Why receive fails: readLine returned null (the dereference throws), a
      line too short for substring(4), or a code parseInt refuses. */
  datatype ReceiveError = EndOfStream | LineTooShort(line: string) | BadCode(code: string)

  /** The loop of receive, run over the lines the reader will return: the
      texts gathered, the final line and the number of lines read; or the
      failure and the number of lines read before it. */
  datatype Gathered = Complete(text: string, last: string, used: nat) | Stopped(error: ReceiveError, used: nat)

  /** A line is a continuation when its fourth character is '-'. */
  predicate IsContinuation(line: string) {
    |line| >= 4 && line[3] == '-'
  }

  function Gather(lines: seq<string>): (g: Gathered)
    ensures g.used <= |lines|
    // it stops at the first line that is not a continuation
    ensures g.Complete? ==>
      && 1 <= g.used && g.last == lines[g.used - 1]
      && |g.last| >= 4 && g.last[3] != '-'
      && forall k :: 0 <= k < g.used - 1 ==> IsContinuation(lines[k])
    // it only fails at the last line it read, or having read them all
    ensures g.Stopped? ==>
      && (g.error.EndOfStream? ==> g.used == |lines|)
      && (g.error.LineTooShort? ==> 1 <= g.used && g.error.line == lines[g.used - 1] && |g.error.line| < 4)
      && !g.error.BadCode?
      && forall k :: 0 <= k < g.used - (if g.error.EndOfStream? then 0 else 1) ==> IsContinuation(lines[k])
  {
    if |lines| == 0 then Stopped(EndOfStream, 0)
    else if |lines[0]| < 4 then Stopped(LineTooShort(lines[0]), 1)
    else if lines[0][3] == '-' then
      match Gather(lines[1..])
      case Complete(t, l, u) => Complete(lines[0][4..] + "\n" + t, l, u + 1)
      case Stopped(e, u) => Stopped(e, u + 1)
    else Complete(lines[0][4..], lines[0], 1)
  }

  /** What receive returns for the lines the reader will return, and how
      many of them it reads. */
  function ReadReply(lines: seq<string>): (r: (Result<Response, ReceiveError>, nat))
    ensures r.1 <= |lines|
    // the code is the value of the first three characters of the final line
    ensures r.0.Ok? ==> r.1 >= 1 && |lines[r.1 - 1]| >= 4 && ParseInt(lines[r.1 - 1][..3]) == Some(r.0.value.code)
    ensures r.0.Err? && r.0.error.BadCode? ==> r.1 >= 1 && |lines[r.1 - 1]| >= 4 && r.0.error.code == lines[r.1 - 1][..3] && ParseInt(r.0.error.code).None?
  {
    match Gather(lines)
    case Stopped(e, u) => (Err(e), u)
    case Complete(t, l, u) =>
      match ParseInt(l[..3])
      case None => (Err(BadCode(l[..3])), u)
      case Some(c) => (Ok(Response(c, t)), u)
  }

  /** The text of each line from its fifth character on. */
  function LineTexts(lines: seq<string>): (texts: seq<string>)
    requires forall k :: 0 <= k < |lines| ==> |lines[k]| >= 4
    ensures |texts| == |lines|
    ensures forall k :: 0 <= k < |lines| ==> texts[k] == lines[k][4..]
  {
    seq(|lines|, k requires 0 <= k < |lines| => lines[k][4..])
  }

  /** The message is the texts of the lines read, joined with "\n" and with
      no newline after the last. */
  lemma {:induction false} GatheredText(lines: seq<string>)
    requires Gather(lines).Complete?
    ensures var g := Gather(lines);
      && (forall k :: 0 <= k < g.used ==> |lines[k]| >= 4)
      && g.text == Join(LineTexts(lines[..g.used]), "\n")
  {
    var g := Gather(lines);
    if lines[0][3] == '-' {
      var h := Gather(lines[1..]);
      GatheredText(lines[1..]);
      assert lines[..g.used] == [lines[0]] + lines[1..][..h.used];
      assert LineTexts(lines[..g.used]) == [lines[0][4..]] + LineTexts(lines[1..][..h.used]);
      assert LineTexts(lines[..g.used])[1..] == LineTexts(lines[1..][..h.used]);
    } else {
      assert LineTexts(lines[..1]) == [lines[0][4..]];
    }
  }

  /** A reply as a server writes it: every text on its own line after the
      code, '-' after the code on every line but the last, ' ' on the last. */
  function FormatReply(code: int, texts: seq<string>): (lines: seq<string>)
    ensures |lines| == |texts|
  {
    if |texts| == 0 then []
    else if |texts| == 1 then [IntToString(code) + " " + texts[0]]
    else [IntToString(code) + "-" + texts[0]] + FormatReply(code, texts[1..])
  }

  /** The lines of a formatted reply are continuations up to the last. */
  lemma {:induction false} FormatReplyShape(code: int, texts: seq<string>)
    requires 100 <= code <= 999
    ensures var lines := FormatReply(code, texts);
      forall k :: 0 <= k < |lines| ==>
        && |lines[k]| >= 4 && lines[k][..3] == IntToString(code) && lines[k][4..] == texts[k]
        && (IsContinuation(lines[k]) <==> k < |lines| - 1)
  {
    ThreeDigitCode(code);
    if |texts| > 1 {
      FormatReplyShape(code, texts[1..]);
    }
  }

  lemma {:induction false} GatherFormatted(code: int, texts: seq<string>, rest: seq<string>)
    requires 100 <= code <= 999 && |texts| > 0
    ensures Gather(FormatReply(code, texts) + rest)
      == Complete(Join(texts, "\n"), IntToString(code) + " " + texts[|texts| - 1], |texts|)
  {
    ThreeDigitCode(code);
    var lines := FormatReply(code, texts) + rest;
    if |texts| > 1 {
      assert lines[1..] == FormatReply(code, texts[1..]) + rest;
      GatherFormatted(code, texts[1..], rest);
      assert texts[1..][|texts[1..]| - 1] == texts[|texts| - 1];
    }
  }

  /** Round trip: whatever follows, a formatted reply is read back as its
      code and its texts joined with "\n", and receive reads exactly its
      lines. */
  lemma ReadFormattedReply(code: int, texts: seq<string>, rest: seq<string>)
    requires 100 <= code <= 999 && |texts| > 0
    ensures ReadReply(FormatReply(code, texts) + rest) == (Ok(Response(code, Join(texts, "\n"))), |texts|)
  {
    GatherFormatted(code, texts, rest);
    ThreeDigitCode(code);
    ParseIntToString(code);
    assert (IntToString(code) + " " + texts[|texts| - 1])[..3] == IntToString(code);
  }

  /** The message split at each "\n". */
  function SplitLines(m: string): (parts: seq<string>)
    ensures |parts| >= 1
    ensures forall k :: 0 <= k < |parts| ==> '\n' !in parts[k]
    decreases |m|
  {
    var k := IndexOf(m, '\n');
    if k == -1 then [m] else [m[..k]] + SplitLines(m[k + 1..])
  }

  /** Splitting the message at "\n" gives back the texts, when none of them
      holds a "\n". */
  lemma {:induction false} SplitJoin(texts: seq<string>)
    requires |texts| > 0
    requires forall k :: 0 <= k < |texts| ==> '\n' !in texts[k]
    ensures SplitLines(Join(texts, "\n")) == texts
  {
    if |texts| > 1 {
      var m := Join(texts, "\n");
      var t := texts[0];
      assert m == t + "\n" + Join(texts[1..], "\n");
      assert m[|t|] == '\n' && m[..|t|] == t;
      assert IndexOf(m, '\n') == |t|;
      assert m[|t| + 1..] == Join(texts[1..], "\n");
      SplitJoin(texts[1..]);
    }
  }

  /** The reply a client reads back determines the lines the server wrote. */
  lemma ReplyDeterminesLines(code: int, texts: seq<string>)
    requires 100 <= code <= 999 && |texts| > 0
    requires forall k :: 0 <= k < |texts| ==> '\n' !in texts[k]
    ensures var r := ReadReply(FormatReply(code, texts)).0;
      r.Ok? && FormatReply(r.value.code, SplitLines(r.value.message)) == FormatReply(code, texts)
  {
    ReadFormattedReply(code, texts, []);
    assert FormatReply(code, texts) + [] == FormatReply(code, texts);
    SplitJoin(texts);
  }

  /** toString of a one-line response is the line a server writes for it,
      and sending that line reads back the same response. */
  lemma ToStringRoundTrip(r: Response)
    requires 100 <= r.code <= 999 && NoLineBreak(r.message)
    ensures FormatReply(r.code, [r.message]) == [ResponseToString(r)]
    ensures ReadReply(ReadLines(Frame(ResponseToString(r)))) == (Ok(r), 1)
  {
    ThreeDigitCode(r.code);
    var line := ResponseToString(r);
    assert NoLineBreak(line) by {
      assert line == IntToString(r.code) + " " + r.message;
      assert forall i :: 0 <= i < |line| ==> line[i] in IntToString(r.code) || line[i] == ' ' || line[i] in r.message;
    }
    ReadLinesOfFrame(line, "");
    assert Frame(line) + "" == Frame(line);
    ReadFormattedReply(r.code, [r.message], []);
    assert FormatReply(r.code, [r.message]) + [] == [line];
  }

  // ---- the client ----

  /** Why a check fails: the reply could not be read, or it is not a
      success (SMTPException, carrying the response). */
  datatype Failure = ReadFailed(error: ReceiveError) | SMTPException(response: Response)

  /** One connection seen from the client: what it has written, and the
      lines its reader has still to return. */
  class Client {
    var written: string
    var incoming: seq<string>

    /** A connection over which the server will write `serverOutput`. */
    constructor (serverOutput: string)
      ensures written == "" && incoming == ReadLines(serverOutput)
    {
      written := "";
      incoming := ReadLines(serverOutput);
    }

    /** send: the message followed by exactly CR LF. */
    method Send(msg: string)
      modifies this
      ensures written == old(written) + Frame(msg)
      ensures incoming == old(incoming)
    {
      written := written + (msg + "\r\n");
    }

    /** receive: read lines while the fourth character is '-', gathering the
        text of each line from its fifth character, separated by "\n"; the
        code is parsed from the last line read. */
    method Receive() returns (r: Result<Response, ReceiveError>)
      modifies this
      ensures r == ReadReply(old(incoming)).0
      ensures incoming == old(incoming)[ReadReply(old(incoming)).1..]
      ensures written == old(written)
    {
      var g := GatherLines();
      match g
      case Stopped(e, u) =>
        r := Err(e);
      case Complete(builder, line, u) =>
        var code := ParseInt(line[..3]);
        if code.None? {
          return Err(BadCode(line[..3]));
        }
        r := Ok(Response(code.value, builder));
    }

    /** The line loop of receive: read lines while the fourth character is
        '-', up to and including the first line that ends the reply. */
    method GatherLines() returns (g: Gathered)
      modifies this
      ensures g == Gather(old(incoming))
      ensures incoming == old(incoming)[g.used..]
      ensures written == old(written)
    {
      ghost var lines := incoming;
      var builder := "";
      var line := "";
      var done := false;
      var read := 0;
      while !done
        invariant 0 <= read <= |lines| && incoming == lines[read..]
        invariant written == old(written)
        invariant !done ==> Gather(lines) == Shift(builder, read, Gather(incoming))
        invariant done ==> |line| >= 4 && Gather(lines) == Complete(builder, line, read)
        decreases |incoming|, !done
      {
        if |incoming| == 0 {
          return Stopped(EndOfStream, read);
        }
        GatherStep(incoming);
        line := incoming[0];
        incoming := incoming[1..];
        read := read + 1;
        assert incoming == lines[read..];
        if |line| < 4 {
          return Stopped(LineTooShort(line), read);
        }
        if line[3] == '-' {
          ShiftTwice(builder, line[4..] + "\n", read - 1, Gather(incoming));
          builder := builder + (line[4..] + "\n");
        } else {
          builder := builder + line[4..];
          done := true;
        }
      }
      g := Complete(builder, line, read);
    }

    /** sendReceive: send, then receive. */
    method SendReceive(msg: string) returns (r: Result<Response, ReceiveError>)
      modifies this
      ensures written == old(written) + Frame(msg)
      ensures r == ReadReply(old(incoming)).0
      ensures incoming == old(incoming)[ReadReply(old(incoming)).1..]
    {
      Send(msg);
      r := Receive();
    }

    /** receiveAndCheck: receive, and fail with the response when it is not
        a success. */
    method ReceiveAndCheck() returns (failure: Option<Failure>)
      modifies this
      ensures written == old(written)
      ensures incoming == old(incoming)[ReadReply(old(incoming)).1..]
      ensures ReadReply(old(incoming)).0.Err? ==> failure == Some(ReadFailed(ReadReply(old(incoming)).0.error))
      ensures ReadReply(old(incoming)).0.Ok? ==>
        var resp := ReadReply(old(incoming)).0.value;
        failure == (if IsSuccess(resp) then None else Some(SMTPException(resp)))
    {
      var r := Receive();
      if r.Err? {
        return Some(ReadFailed(r.error));
      }
      if !IsSuccess(r.value) {
        return Some(SMTPException(r.value));
      }
      return None;
    }

    /** sendAndCheck: send, then receiveAndCheck. */
    method SendAndCheck(msg: string) returns (failure: Option<Failure>)
      modifies this
      ensures written == old(written) + Frame(msg)
      ensures incoming == old(incoming)[ReadReply(old(incoming)).1..]
      ensures ReadReply(old(incoming)).0.Err? ==> failure == Some(ReadFailed(ReadReply(old(incoming)).0.error))
      ensures ReadReply(old(incoming)).0.Ok? ==>
        var resp := ReadReply(old(incoming)).0.value;
        failure == (if IsSuccess(resp) then None else Some(SMTPException(resp)))
    {
      Send(msg);
      failure := ReceiveAndCheck();
    }
  }

  /** The loop state `g` of the remaining lines, seen from the start: the
      text gathered so far in front, the lines read so far added. */
  function Shift(gathered: string, read: nat, g: Gathered): Gathered {
    match g
    case Complete(t, l, u) => Complete(gathered + t, l, u + read)
    case Stopped(e, u) => Stopped(e, u + read)
  }

  /** One turn of the loop of receive. */
  lemma GatherStep(lines: seq<string>)
    requires |lines| > 0
    ensures |lines[0]| < 4 ==> Gather(lines) == Stopped(LineTooShort(lines[0]), 1)
    ensures IsContinuation(lines[0]) ==> Gather(lines) == Shift(lines[0][4..] + "\n", 1, Gather(lines[1..]))
    ensures |lines[0]| >= 4 && lines[0][3] != '-' ==> Gather(lines) == Complete(lines[0][4..], lines[0], 1)
  {
  }

  lemma ShiftTwice(a: string, b: string, i: nat, g: Gathered)
    ensures Shift(a, i, Shift(b, 1, g)) == Shift(a + b, i + 1, g)
  {
    match g
    case Complete(t, l, u) =>
      assert a + (b + t) == (a + b) + t;
    case Stopped(e, u) =>
  }
}

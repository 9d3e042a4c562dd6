/** The helpers every command inherits from
    org.subethamail.smtp.server.BaseCommand: the argument text after the verb,
    whitespace tokenising, joining with a delimiter, address extraction and
    validation, and the process-wide help table. */
module BaseCommand {
  import opened Wrappers
  import opened JavaStrings
  import EmailUtils

  // ---- getArgPredicate ----

  /** getArgPredicate: the command line without its four-letter verb, trimmed;
      the empty string for a null line or one shorter than four chars. */
  function GetArgPredicate(commandString: Option<string>): (r: string)
    ensures commandString.None? || |commandString.value| < 4 ==> r == ""
    ensures commandString.Some? && |commandString.value| >= 4 ==>
      IsTrimmingOf(r, commandString.value[4..])
    ensures NoEdgeSpace(r)
  {
    match commandString
    case None => ""
    case Some(s) => if |s| < 4 then "" else Trim(s[4..])
  }

  // ---- getArgs: java.util.StringTokenizer with its default delimiters ----

  /** The default delimiter set of StringTokenizer: space, tab, newline,
      carriage return and form feed. */
  predicate IsDelimiter(c: char) {
    c == ' ' || c == '\t' || c == '\n' || c == '\r' || c == 12 as char
  }

  /** A token: non-empty and free of delimiters. */
  predicate IsToken(t: string) {
    |t| > 0 && forall i :: 0 <= i < |t| ==> !IsDelimiter(t[i])
  }

  /** Length of the run of non-delimiters at the start of `s`. */
  function WordLength(s: string): (n: nat)
    ensures n <= |s|
    ensures forall i :: 0 <= i < n ==> !IsDelimiter(s[i])
    ensures n < |s| ==> IsDelimiter(s[n])
  {
    if |s| > 0 && !IsDelimiter(s[0]) then 1 + WordLength(s[1..]) else 0
  }

  /** The tokens StringTokenizer returns, in input order: the maximal runs of
      non-delimiters. */
  function Tokens(s: string): (ts: seq<string>)
    ensures forall k :: 0 <= k < |ts| ==> IsToken(ts[k])
    decreases |s|
  {
    if s == [] then []
    else if IsDelimiter(s[0]) then Tokens(s[1..])
    else
      var n := WordLength(s);
      [s[..n]] + Tokens(s[n..])
  }

  lemma WordLengthIs(s: string, n: nat)
    requires n <= |s|
    requires forall i :: 0 <= i < n ==> !IsDelimiter(s[i])
    requires n == |s| || IsDelimiter(s[n])
    ensures WordLength(s) == n
  {
  }

  /** getArgs: the tokens of the command line, collected one at a time as
      StringTokenizer hands them out. */
  method GetArgs(commandString: string) returns (args: seq<string>)
    ensures args == Tokens(commandString)
    ensures forall k :: 0 <= k < |args| ==> IsToken(args[k])
  {
    var s := commandString;
    args := [];
    var i := 0;
    while i < |s|
      invariant 0 <= i <= |s|
      invariant args + Tokens(s[i..]) == Tokens(s)
    {
      if IsDelimiter(s[i]) {
        assert s[i..][1..] == s[i + 1..];
        i := i + 1;
      } else {
        var j := WordEnd(s, i);
        TokensStep(s, i, j);
        args := args + [s[i..j]];
        i := j;
      }
    }
  }

  /** The end of the token that starts at `i`: the next delimiter, or the end. */
  method WordEnd(s: string, i: nat) returns (j: nat)
    requires i < |s| && !IsDelimiter(s[i])
    ensures i < j <= |s| && j - i == WordLength(s[i..])
  {
    j := i + 1;
    while j < |s| && !IsDelimiter(s[j])
      invariant i < j <= |s|
      invariant forall k :: i <= k < j ==> !IsDelimiter(s[k])
    {
      j := j + 1;
    }
    WordLengthIs(s[i..], j - i);
  }

  lemma TokensStep(s: string, i: nat, j: nat)
    requires i < j <= |s| && !IsDelimiter(s[i]) && j - i == WordLength(s[i..])
    ensures Tokens(s[i..]) == [s[i..j]] + Tokens(s[j..])
  {
    assert s[i..][..j - i] == s[i..j];
    assert s[i..][j - i..] == s[j..];
  }

  /** Tokenising is split by any single delimiter. */
  lemma {:induction false} TokensSplit(a: string, d: char, b: string)
    requires IsDelimiter(d)
    ensures Tokens(a + [d] + b) == Tokens(a) + Tokens(b)
    decreases |a|
  {
    var s := a + [d] + b;
    if a == [] {
      assert s[1..] == b;
    } else if IsDelimiter(a[0]) {
      assert s[1..] == a[1..] + [d] + b;
      TokensSplit(a[1..], d, b);
    } else {
      var n := WordLength(a);
      WordLengthIs(s, n);
      assert s[..n] == a[..n];
      assert s[n..] == a[n..] + [d] + b;
      TokensSplit(a[n..], d, b);
    }
  }

  /** A single token tokenises to itself. */
  lemma TokensOfToken(w: string)
    requires IsToken(w)
    ensures Tokens(w) == [w]
  {
    WordLengthIs(w, |w|);
    assert w[..|w|] == w;
    assert w[|w|..] == [];
  }

  // ---- getTokenizedString ----

  /** Tokens joined with a single delimiter tokenise back to themselves: the
      EHLO/MAIL arguments a client joins with spaces are the ones getArgs
      recovers. */
  lemma {:induction false} TokensOfJoin(items: seq<string>, d: char)
    requires IsDelimiter(d)
    requires forall k :: 0 <= k < |items| ==> IsToken(items[k])
    ensures Tokens(Join(items, [d])) == items
  {
    if |items| == 1 {
      TokensOfToken(items[0]);
    } else if |items| > 1 {
      TokensSplit(items[0], d, Join(items[1..], [d]));
      TokensOfToken(items[0]);
      TokensOfJoin(items[1..], d);
    }
  }

  /** java.lang.StringBuilder, as far as append goes. */
  class StringBuilder {
    var contents: string

    constructor (initial: string)
      ensures contents == initial
    {
      contents := initial;
    }

    method Append(s: string)
      modifies this
      ensures contents == old(contents) + s
    {
      contents := contents + s;
    }
  }

  /** getTokenizedString: append the items to the caller's builder, `delim`
      after every item but the last; what the builder held stays in front. */
  method GetTokenizedString(sb: StringBuilder, items: seq<string>, delim: string)
    modifies sb
    ensures sb.contents == old(sb.contents) + Join(items, delim)
  {
    var i := 0;
    while i < |items|
      invariant 0 <= i <= |items|
      invariant sb.contents == old(sb.contents) + Join(items[..i], delim) + (if 0 < i < |items| then delim else "")
    {
      sb.Append(items[i]);
      if i > 0 {
        JoinSnoc(items[..i], items[i], delim);
      }
      assert items[..i + 1] == items[..i] + [items[i]];
      if i + 1 < |items| {
        sb.Append(delim);
      }
      i := i + 1;
    }
    assert items[..i] == items;
  }

  // ---- address helpers ----

  /** BaseCommand's own copy of isValidEmailAddress; it decides exactly as
      EmailUtils does. */
  function IsValidEmailAddress(address: string, parse: string -> EmailUtils.AddressParse): (valid: bool)
    ensures valid == EmailUtils.IsValidEmailAddress(address, parse)
    ensures address == [] ==> valid
  {
    if |address| == 0 then true
    else
      match parse(address)
      case AddressException => false
      case Parsed(n) => n > 0
  }

  /** BaseCommand's own copy of extractEmailAddress; it strips brackets
      exactly as EmailUtils does. */
  function ExtractEmailAddress(args: string, subcommandOffset: int): (r: Result<string, EmailUtils.IndexError>)
    ensures r == EmailUtils.ExtractEmailAddress(args, subcommandOffset)
  {
    if subcommandOffset < 0 || subcommandOffset > |args| then Err(EmailUtils.StringIndexOutOfBounds)
    else
      var address := Trim(args[subcommandOffset..]);
      if IndexOf(address, '<') == 0 then
        var close := IndexOf(address, '>');
        if close < 0 then Err(EmailUtils.StringIndexOutOfBounds) else Ok(address[1..close])
      else Ok(address)
  }

  // ---- help table ----

  /** A command's help entry; only its name takes part in the lookup. */
  datatype HelpMessage = HelpMessage(name: string, help: string, argumentDescription: string)

  /** Raised by getHelp for a name that was never registered. */
  datatype CommandException = CommandException

  /** The static helpMessageMap shared by all commands: keys are stored
      upper-cased, and lookups upper-case the name asked for. */
  class HelpTable {
    var messages: map<string, HelpMessage>

    constructor ()
      ensures messages == map[]
    {
      messages := map[];
    }

    /** getHelp: the entry registered under the upper-cased name, or
        CommandException when there is none. */
    function GetHelp(commandName: string): (r: Result<HelpMessage, CommandException>)
      reads this
      ensures r.Ok? <==> ToUpper(commandName) in messages
      ensures r.Ok? ==> r.value == messages[ToUpper(commandName)]
    {
      var key := ToUpper(commandName);
      if key in messages then Ok(messages[key]) else Err(CommandException)
    }

    /** setHelp: register `helpMessage` under its upper-cased name, replacing
        any entry for the same name in another casing and keeping the rest. */
    method SetHelp(helpMessage: HelpMessage)
      modifies this
      ensures messages == old(messages)[ToUpper(helpMessage.name) := helpMessage]
      ensures forall n :: EqualsIgnoreCase(n, helpMessage.name) ==> GetHelp(n) == Ok(helpMessage)
      ensures forall n :: !EqualsIgnoreCase(n, helpMessage.name) ==> GetHelp(n) == old(GetHelp(n))
    {
      messages := messages[ToUpper(helpMessage.name) := helpMessage];
      forall n | EqualsIgnoreCase(n, helpMessage.name) ensures ToUpper(n) == ToUpper(helpMessage.name) {
        UpperOfEqualsIgnoreCase(n, helpMessage.name);
      }
    }
  }

  /** Lookups do not see the case of the name asked for. */
  lemma GetHelpIgnoresCase(table: HelpTable, a: string, b: string)
    requires EqualsIgnoreCase(a, b)
    ensures table.GetHelp(a) == table.GetHelp(b)
  {
    UpperOfEqualsIgnoreCase(a, b);
  }

  /** A name nobody registered in any casing raises CommandException. */
  lemma GetHelpUnregistered(table: HelpTable, name: string)
    requires forall key :: key in table.messages ==> !EqualsIgnoreCase(key, name)
    ensures table.GetHelp(name) == Err(CommandException)
  {
    var key := ToUpper(name);
    if key in table.messages {
      assert EqualsIgnoreCase(key, name);
    }
  }
}

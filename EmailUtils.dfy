/** The address helpers of org.subethamail.smtp.util.EmailUtils. */
module EmailUtils {
  import opened Wrappers
  import opened JavaStrings

  /** What javax.mail's InternetAddress.parse(address, true) does with a
      string: it returns some number of addresses or throws an
      AddressException. The parser itself is foreign code and stays abstract:
      every validity check takes it as a parameter. */
  datatype AddressParse = Parsed(count: nat) | AddressException

  /** The runtime exception String.substring raises on a bad index. */
  datatype IndexError = StringIndexOutOfBounds

  /** isValidEmailAddress: the empty address (the null reverse-path of
      "MAIL FROM:<>") is valid; any other address is valid exactly when the
      parser returns at least one address without throwing. */
  function IsValidEmailAddress(address: string, parse: string -> AddressParse): (valid: bool)
    ensures address == [] ==> valid
    ensures address != [] ==> (valid <==> parse(address).Parsed? && parse(address).count > 0)
  {
    if |address| == 0 then true
    else
      match parse(address)
      case AddressException => false
      case Parsed(n) => n != 0
  }

  /** The text of `args` from `offset` on, trimmed, is a "<...>" form. */
  predicate Bracketed(t: string) {
    IndexOf(t, '<') == 0
  }

  /** extractEmailAddress: take the text after `offset`, trim it, and when it
      starts with '<' keep only what lies between that '<' and the first '>'.
      substring throws when `offset` is outside the string and when a
      bracketed text has no '>'; both are the Err result. */
  function ExtractEmailAddress(args: string, offset: int): (r: Result<string, IndexError>)
    ensures r.Ok? <==>
      0 <= offset <= |args| && (Bracketed(Trim(args[offset..])) ==> '>' in Trim(args[offset..]))
    ensures r.Ok? && !Bracketed(Trim(args[offset..])) ==> r.value == Trim(args[offset..])
    ensures r.Ok? && Bracketed(Trim(args[offset..])) ==>
      var t := Trim(args[offset..]);
      '>' !in r.value && |r.value| + 2 <= |t| && t[..|r.value| + 2] == "<" + r.value + ">"
  {
    if offset < 0 || offset > |args| then Err(StringIndexOutOfBounds)
    else
      var address := Trim(args[offset..]);
      if IndexOf(address, '<') == 0 then
        var close := IndexOf(address, '>');
        if close < 0 then Err(StringIndexOutOfBounds)
        else
          BracketedSlice(address, close);
          Ok(address[1..close])
      else Ok(address)
  }

  /** The text between a leading '<' and the first '>' holds no '>', and the
      two brackets enclose it at the front. */
  lemma BracketedSlice(t: string, close: int)
    requires 0 < close < |t| && t[0] == '<' && t[close] == '>' && '>' !in t[..close]
    ensures '>' !in t[1..close]
    ensures t[..close + 1] == "<" + t[1..close] + ">"
  {
    forall i | 0 <= i < close
      ensures t[i] != '>'
    {
      assert t[..close][i] == t[i];
    }
    assert t[..close + 1] == [t[0]] + t[1..close] + [t[close]];
  }

  /** An address given without brackets comes back with no surrounding
      whitespace. */
  lemma UnbracketedIsTrimmed(args: string, offset: int)
    requires 0 <= offset <= |args|
    requires !Bracketed(Trim(args[offset..]))
    ensures ExtractEmailAddress(args, offset).Ok?
    ensures NoEdgeSpace(ExtractEmailAddress(args, offset).value)
  {
  }

  /** Wrapping an address without '>' in brackets, with any amount of
      trimmable padding, gives the address back: extraction inverts the
      "<address>" form of the MAIL and RCPT arguments. */
  lemma {:induction false} ExtractBracketed(prefix: string, pad: string, address: string, tail: string)
    requires AllTrimmable(pad) && '>' !in address
    requires tail == [] || !IsTrimmable(tail[|tail| - 1])
    ensures ExtractEmailAddress(prefix + pad + "<" + address + ">" + tail, |prefix|) == Ok(address)
  {
    var args := prefix + pad + "<" + address + ">" + tail;
    var body := "<" + address + ">" + tail;
    assert args == prefix + (pad + body);
    assert args[|prefix|..] == pad + body;
    TrimOfPadded(pad, body);
    CloseOfBracketed(address, tail);
  }

  lemma CloseOfBracketed(address: string, tail: string)
    requires '>' !in address
    ensures IndexOf("<" + address + ">" + tail, '<') == 0
    ensures IndexOf("<" + address + ">" + tail, '>') == 1 + |address|
    ensures ("<" + address + ">" + tail)[1..1 + |address|] == address
  {
    var body := "<" + address + ">" + tail;
    assert body[1 + |address|] == '>';
    assert body[..1 + |address|] == "<" + address;
    IndexOfIs(body, '>', 1 + |address|);
  }

  lemma IndexOfIs(s: string, c: char, k: nat)
    requires k < |s| && s[k] == c && c !in s[..k]
    ensures IndexOf(s, c) == k
  {
  }
}

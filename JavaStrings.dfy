/** The parts of java.lang.String and java.lang.Integer that the SMTP
    commands and the client rely on: trim(), indexOf(char), startsWith,
    toUpperCase, Integer.toString and Integer.parseInt. */
module JavaStrings {
  import opened Wrappers

  /** String.trim() removes every leading and trailing char whose code is at
      most U+0020 (space and all control characters). */
  predicate IsTrimmable(c: char) {
    c <= ' '
  }

  ghost predicate AllTrimmable(s: string) {
    forall i :: 0 <= i < |s| ==> IsTrimmable(s[i])
  }

  /** Neither the first nor the last char of `s` would be removed by trim(). */
  predicate NoEdgeSpace(s: string) {
    s == [] || (!IsTrimmable(s[0]) && !IsTrimmable(s[|s| - 1]))
  }

  /** `r` is `s` with only trimmable chars cut from its two ends. */
  ghost predicate IsTrimmingOf(r: string, s: string) {
    exists i, j :: 0 <= i <= j <= |s| && s[i..j] == r && AllTrimmable(s[..i]) && AllTrimmable(s[j..])
  }

  /** Number of trimmable chars at the start of `s`. */
  function LeadingSpace(s: string): (n: nat)
    ensures n <= |s| && AllTrimmable(s[..n])
    ensures n < |s| ==> !IsTrimmable(s[n])
  {
    if |s| > 0 && IsTrimmable(s[0]) then
      var k := LeadingSpace(s[1..]);
      assert s[..k + 1] == [s[0]] + s[1..][..k];
      k + 1
    else
      0
  }

  /** Number of trimmable chars at the end of `s`. */
  function TrailingSpace(s: string): (n: nat)
    ensures n <= |s| && AllTrimmable(s[|s| - n..])
    ensures n < |s| ==> !IsTrimmable(s[|s| - n - 1])
  {
    if |s| > 0 && IsTrimmable(s[|s| - 1]) then
      var p := s[..|s| - 1];
      var k := TrailingSpace(p);
      assert s[|s| - (k + 1)..] == p[|p| - k..] + [s[|s| - 1]];
      k + 1
    else
      0
  }

  /** String.trim(). The two ensures together fix the result: the only
      substring of `s` that is surrounded by trimmable chars and has no
      trimmable char at either end. */
  function Trim(s: string): (r: string)
    ensures NoEdgeSpace(r)
    ensures IsTrimmingOf(r, s)
    ensures |r| <= |s|
  {
    var i := LeadingSpace(s);
    var t := s[i..];
    var j := i + (|t| - TrailingSpace(t));
    assert s[i..j] == t[..|t| - TrailingSpace(t)];
    assert s[j..] == t[|t| - TrailingSpace(t)..];
    s[i..j]
  }

  /** String.indexOf(char): the first position of `c`, or -1. */
  function IndexOf(s: string, c: char): (r: int)
    ensures -1 <= r < |s|
    ensures r == -1 <==> c !in s
    ensures 0 <= r ==> s[r] == c && c !in s[..r]
  {
    if |s| == 0 then -1
    else if s[0] == c then 0
    else
      var k := IndexOf(s[1..], c);
      assert s == [s[0]] + s[1..];
      if k < 0 then -1
      else
        assert s[..k + 1] == [s[0]] + s[1..][..k];
        k + 1
  }

  function StartsWith(s: string, prefix: string): bool {
    |prefix| <= |s| && s[..|prefix|] == prefix
  }

  /** Upper-casing of one char; only the ASCII letters are mapped. */
  function ToUpperChar(c: char): char {
    if 'a' <= c <= 'z' then (c as int - 32) as char else c
  }

  /** String.toUpperCase(), char by char. */
  function ToUpper(s: string): (r: string)
    ensures |r| == |s|
    ensures forall i :: 0 <= i < |s| ==> r[i] == ToUpperChar(s[i])
  {
    if s == [] then [] else [ToUpperChar(s[0])] + ToUpper(s[1..])
  }

  /** Two names that differ only in the case of their letters. */
  predicate EqualsIgnoreCase(a: string, b: string) {
    |a| == |b| && forall i :: 0 <= i < |a| ==> ToUpperChar(a[i]) == ToUpperChar(b[i])
  }

  lemma UpperOfEqualsIgnoreCase(a: string, b: string)
    requires EqualsIgnoreCase(a, b)
    ensures ToUpper(a) == ToUpper(b)
  {
    assert forall i :: 0 <= i < |a| ==> ToUpper(a)[i] == ToUpper(b)[i];
  }

  /** trim() removes exactly the padding in front of a text that starts and
      ends with a non-trimmable char. */
  lemma {:induction false} TrimOfPadded(pad: string, body: string)
    requires AllTrimmable(pad)
    requires |body| > 0 && !IsTrimmable(body[0]) && !IsTrimmable(body[|body| - 1])
    ensures Trim(pad + body) == body
  {
    var s := pad + body;
    LeadingSpaceOfPadded(pad, body);
    assert s[|pad|..] == body;
  }

  lemma {:induction false} LeadingSpaceOfPadded(pad: string, body: string)
    requires AllTrimmable(pad)
    requires |body| > 0 && !IsTrimmable(body[0])
    ensures LeadingSpace(pad + body) == |pad|
  {
    if |pad| > 0 {
      assert (pad + body)[1..] == pad[1..] + body;
      LeadingSpaceOfPadded(pad[1..], body);
    } else {
      assert pad + body == body;
    }
  }

  // ---- joining ----

  /** The items with `delim` between consecutive ones and nowhere else. */
  function Join(items: seq<string>, delim: string): (r: string)
  {
    if |items| == 0 then ""
    else if |items| == 1 then items[0]
    else items[0] + delim + Join(items[1..], delim)
  }

  /** Adding an item at the end adds one delimiter and the item. */
  lemma {:induction false} JoinSnoc(items: seq<string>, x: string, delim: string)
    requires |items| > 0
    ensures Join(items + [x], delim) == Join(items, delim) + delim + x
  {
    if |items| > 1 {
      assert (items + [x])[1..] == items[1..] + [x];
      JoinSnoc(items[1..], x, delim);
    } else {
      assert (items + [x])[1..] == [x];
    }
  }

  // ---- decimal integers ----

  predicate IsDigit(c: char) {
    '0' <= c <= '9'
  }

  predicate AllDigits(s: string) {
    forall i :: 0 <= i < |s| ==> IsDigit(s[i])
  }

  function DigitChar(d: nat): (c: char)
    requires d < 10
    ensures IsDigit(c)
  {
    ('0' as int + d) as char
  }

  /** The value of a string of ASCII digits, most significant first. */
  function DigitsValue(s: string): nat
    requires AllDigits(s)
  {
    if s == [] then 0 else DigitsValue(s[..|s| - 1]) * 10 + (s[|s| - 1] as int - '0' as int)
  }

  /** Integer.toString for a non-negative value. */
  function NatToString(n: nat): (s: string)
    ensures |s| >= 1 && AllDigits(s)
  {
    if n < 10 then [DigitChar(n)] else NatToString(n / 10) + [DigitChar(n % 10)]
  }

  /** Integer.toString: a minus sign for negative values, then the digits. */
  function IntToString(i: int): string {
    if i < 0 then "-" + NatToString(-i) else NatToString(i)
  }

  /** Integer.parseInt over a short string: an optional sign and at least one
      ASCII digit; anything else is a NumberFormatException (None). */
  function ParseInt(s: string): Option<int> {
    if |s| == 0 then None
    else if s[0] == '-' || s[0] == '+' then
      if |s| == 1 || !AllDigits(s[1..]) then None
      else if s[0] == '-' then Some(0 - DigitsValue(s[1..]))
      else Some(DigitsValue(s[1..]))
    else if !AllDigits(s) then None
    else Some(DigitsValue(s))
  }

  lemma {:induction false} DigitsOfNat(n: nat)
    ensures DigitsValue(NatToString(n)) == n
  {
    if n >= 10 {
      DigitsOfNat(n / 10);
      var s := NatToString(n);
      assert s[..|s| - 1] == NatToString(n / 10);
    }
  }

  /** Integer.parseInt inverts Integer.toString. */
  lemma ParseIntToString(i: int)
    ensures ParseInt(IntToString(i)) == Some(i)
  {
    if i < 0 {
      DigitsOfNat(-i);
      assert IntToString(i)[1..] == NatToString(-i);
    } else {
      DigitsOfNat(i);
    }
  }

  /** A reply code in 100..999 prints as exactly three digits. */
  lemma ThreeDigitCode(code: int)
    requires 100 <= code <= 999
    ensures |IntToString(code)| == 3 && AllDigits(IntToString(code))
    ensures IntToString(code)[0] == DigitChar(code / 100)
  {
    assert NatToString(code) == NatToString(code / 10) + [DigitChar(code % 10)];
    assert NatToString(code / 10) == NatToString(code / 100) + [DigitChar(code / 10 % 10)];
  }
}

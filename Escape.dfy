/** url.QueryEscape and url.QueryUnescape (query-component mode). */
module Escape {
  import opened Wrappers
  import opened Text

  /** Bytes QueryEscape leaves as they are: letters, digits and "-_.~". */
  predicate Unreserved(c: byte)
  {
    ('A' <= c <= 'Z') || ('a' <= c <= 'z') || ('0' <= c <= '9') || c == '-' || c == '_' || c == '.' || c == '~'
  }

  /** Bytes that can occur in the output of QueryEscape. */
  predicate EscapedByte(c: byte)
  {
    Unreserved(c) || c == '%' || c == '+'
  }

  /** Upper-case hexadecimal digit of a nibble. */
  function HexDigit(d: int): (c: byte)
    requires 0 <= d < 16
    ensures Unreserved(c)
  {
    if d < 10 then ('0' as int + d) as char else ('A' as int + d - 10) as char
  }

  predicate IsHex(c: byte)
  {
    ('0' <= c <= '9') || ('a' <= c <= 'f') || ('A' <= c <= 'F')
  }

  function Unhex(c: byte): (d: int)
    requires IsHex(c)
    ensures 0 <= d < 16
  {
    if '0' <= c <= '9' then c as int - '0' as int
    else if 'a' <= c <= 'f' then c as int - 'a' as int + 10
    else c as int - 'A' as int + 10
  }

  function EscapeByte(c: byte): Str
  {
    if Unreserved(c) then [c]
    else if c == ' ' then "+"
    else ['%', HexDigit(c as int / 16), HexDigit(c as int % 16)]
  }

  /** url.QueryEscape: every byte but the unreserved ones is escaped, a space as '+'. */
  function QueryEscape(s: Str): (r: Str)
    ensures forall i | 0 <= i < |r| :: EscapedByte(r[i])
    ensures |s| <= |r| <= 3 * |s|
  {
    if |s| == 0 then [] else EscapeByte(s[0]) + QueryEscape(s[1..])
  }

  /** url.QueryUnescape: "%XY" becomes the byte 0xXY, '+' a space; a '%' without
      two hex digits after it is an EscapeError holding at most three bytes from it. */
  function QueryUnescape(s: Str): Result<Str, Error>
    decreases |s|
  {
    if |s| == 0 then Success([])
    else if s[0] == '%' then
      if |s| >= 3 && IsHex(s[1]) && IsHex(s[2]) then
        var rest :- QueryUnescape(s[3..]);
        Success([(16 * Unhex(s[1]) + Unhex(s[2])) as char] + rest)
      else
        Failure(EscapeError(s[..if |s| < 3 then |s| else 3]))
    else
      var rest :- QueryUnescape(s[1..]);
      Success([if s[0] == '+' then ' ' else s[0]] + rest)
  }

  lemma UnescapeByte(c: byte, t: Str)
    ensures QueryUnescape(EscapeByte(c) + t) ==
      match QueryUnescape(t)
      case Success(u) => Success([c] + u)
      case Failure(e) => Failure(e)
  {
    var e := EscapeByte(c);
    if Unreserved(c) {
      assert (e + t)[1..] == t;
    } else if c == ' ' {
      assert (e + t)[1..] == t;
    } else {
      assert (e + t)[3..] == t;
      assert 16 * Unhex(HexDigit(c as int / 16)) + Unhex(HexDigit(c as int % 16)) == c as int;
    }
  }

  /** Unescaping undoes escaping, for every byte string. */
  lemma {:induction false} EscapeRoundTrip(s: Str)
    ensures QueryUnescape(QueryEscape(s)) == Success(s)
    decreases |s|
  {
    if |s| > 0 {
      EscapeRoundTrip(s[1..]);
      UnescapeByte(s[0], QueryEscape(s[1..]));
      assert [s[0]] + s[1..] == s;
    }
  }

  /** Nothing QueryEscape produces is a comma, a colon, a separator of a query or a semicolon. */
  lemma EscapedHasNoReserved(s: Str)
    ensures ',' !in QueryEscape(s) && ':' !in QueryEscape(s)
    ensures '&' !in QueryEscape(s) && '=' !in QueryEscape(s) && ';' !in QueryEscape(s)
  {
  }
}

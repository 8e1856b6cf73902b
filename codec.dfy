/** The textual encoding a token's fields get before they are put on the wire.
    PyJWT uses base64url over JSON; this model replaces that with a simpler invertible
    encoding that has the two properties the request path depends on: an encoded field
    never contains a space (so `split(" ")` cannot cut a token apart) or one of the
    separators `.` and `,` the token layout uses, and decoding inverts encoding. */
module Codec {
  import opened Wrappers

  /** Characters that never appear in an encoded field. */
  predicate Plain(c: char) { c != ' ' && c != '.' && c != ',' }

  predicate AllPlain(s: string) { forall i :: 0 <= i < |s| ==> Plain(s[i]) }

  /** The escape for one character: `' '`, `.`, `,` and the escape mark `~` get a
      two-character escape, every other character stands for itself. */
  function EscapeChar(c: char): (e: string)
    ensures AllPlain(e) && 1 <= |e| <= 2
  {
    if c == ' ' then "~s"
    else if c == '.' then "~d"
    else if c == ',' then "~c"
    else if c == '~' then "~~"
    else [c]
  }

  function Escape(s: string): (e: string)
    ensures AllPlain(e) && |s| <= |e|
    decreases |s|
  {
    if |s| == 0 then "" else EscapeChar(s[0]) + Escape(s[1..])
  }

  /** The character an escape sequence `~x` stands for, if `x` names one. */
  function Unescaped(x: char): Option<char> {
    if x == 's' then Some(' ')
    else if x == 'd' then Some('.')
    else if x == 'c' then Some(',')
    else if x == '~' then Some('~')
    else None
  }

  /** Decoding fails on a dangling `~` and on `~` followed by a letter that names nothing. */
  function Unescape(e: string): Option<string>
    decreases |e|
  {
    if |e| == 0 then Some("")
    else if e[0] == '~' then
      if |e| < 2 then None
      else
        match (Unescaped(e[1]), Unescape(e[2..]))
        case (Some(c), Some(r)) => Some([c] + r)
        case _ => None
    else
      match Unescape(e[1..])
      case Some(r) => Some([e[0]] + r)
      case None => None
  }

  lemma UnescapeChar(c: char, rest: string)
    ensures Unescape(EscapeChar(c) + rest) ==
      match Unescape(rest) case Some(r) => Some([c] + r) case None => None
  {
  }

  /** Decoding an encoded field gives the field back. */
  lemma {:induction false} UnescapeEscape(s: string)
    ensures Unescape(Escape(s)) == Some(s)
    decreases |s|
  {
    if |s| > 0 {
      UnescapeEscape(s[1..]);
      UnescapeChar(s[0], Escape(s[1..]));
      assert [s[0]] + s[1..] == s;
    }
  }

  /** Text without the escape mark decodes to itself. */
  lemma {:induction false} UnescapeUnmarked(e: string)
    requires '~' !in e
    ensures Unescape(e) == Some(e)
    decreases |e|
  {
    if |e| > 0 {
      assert '~' !in e[1..] by {
        forall i | 0 <= i < |e[1..]| ensures e[1..][i] != '~' { assert e[1..][i] == e[i + 1]; }
      }
      UnescapeUnmarked(e[1..]);
      assert [e[0]] + e[1..] == e;
    }
  }

  // ---- decimal integers (a JSON number) ----

  predicate IsDigit(c: char) { '0' <= c <= '9' }

  function DigitChar(d: nat): (c: char)
    requires d < 10
    ensures IsDigit(c) && Plain(c)
  {
    "0123456789"[d]
  }

  function DigitValue(c: char): nat
    requires IsDigit(c)
  {
    (c as int - '0' as int)
  }

  lemma DigitRoundTrip(d: nat)
    requires d < 10
    ensures DigitValue(DigitChar(d)) == d
  {
  }

  /** The decimal digits of `n`, most significant first, without leading zeros. */
  function NatText(n: nat): (t: string)
    ensures 1 <= |t| && AllPlain(t)
    ensures forall i :: 0 <= i < |t| ==> IsDigit(t[i])
    decreases n
  {
    if n < 10 then [DigitChar(n)] else NatText(n / 10) + [DigitChar(n % 10)]
  }

  /** The value of a non-empty string of decimal digits; leading zeros are accepted. */
  function ParseNat(t: string): Option<nat>
    decreases |t|
  {
    if |t| == 0 || !IsDigit(t[|t| - 1]) then None
    else if |t| == 1 then Some(DigitValue(t[0]))
    else
      match ParseNat(t[..|t| - 1])
      case Some(v) => Some(10 * v + DigitValue(t[|t| - 1]))
      case None => None
  }

  lemma {:induction false} ParseNatText(n: nat)
    ensures ParseNat(NatText(n)) == Some(n)
    decreases n
  {
    var t := NatText(n);
    if n < 10 {
      DigitRoundTrip(n);
    } else {
      ParseNatText(n / 10);
      DigitRoundTrip(n % 10);
      assert t[..|t| - 1] == NatText(n / 10);
    }
  }

  /** A decimal integer with an optional leading minus sign. */
  function IntText(i: int): (t: string)
    ensures 1 <= |t| && AllPlain(t)
  {
    if i < 0 then "-" + NatText(-i) else NatText(i)
  }

  function ParseInt(t: string): Option<int> {
    if |t| > 0 && t[0] == '-' then
      match ParseNat(t[1..]) case Some(v) => Some(0 - v as int) case None => None
    else
      match ParseNat(t) case Some(v) => Some(v as int) case None => None
  }

  /** Reading back a written integer gives the integer. */
  lemma ParseIntText(i: int)
    ensures ParseInt(IntText(i)) == Some(i)
  {
    if i < 0 {
      var t := NatText(-i);
      ParseNatText(-i);
      assert ("-" + t)[1..] == t;
    } else {
      var t := NatText(i);
      ParseNatText(i);
      assert IsDigit(t[0]);
    }
  }
}

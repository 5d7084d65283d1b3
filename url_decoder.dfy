/** Percent-decoding as `java.net.URLDecoder.decode(s, UTF_8)` does it (`+` becomes a space,
    `%XY` becomes the character with code XY), the strict escape rule `java.net.URI` enforces on a
    whole link, and `Escape`, a percent-encoder that `Decode` inverts. */
module UrlDecoder {
  import opened Wrappers
  import opened Text

  /** The two `IllegalArgumentException`s the decoder throws. */
  datatype DecodeError = IllegalHexCharacters | IncompleteTrailingEscape

  predicate IsHexDigit(c: char)
  {
    '0' <= c <= '9' || 'a' <= c <= 'f' || 'A' <= c <= 'F'
  }

  function HexValue(c: char): (v: nat)
    requires IsHexDigit(c)
    ensures v < 16
  {
    if '0' <= c <= '9' then c as int - '0' as int
    else if 'a' <= c <= 'f' then c as int - 'a' as int + 10
    else c as int - 'A' as int + 10
  }

  /** The value of the two characters after a `%`: `Integer.parseInt(.., 16)` on them, which also
      accepts a leading sign, and the decoder's refusal of a negative value. So `%+1` is the
      character U+0001, `%-0` is U+0000 and `%-5` is refused. */
  function EscapeValue(c1: char, c2: char): (r: Option<nat>)
    ensures r.Some? ==> r.value < 256
    ensures IsHexDigit(c1) && IsHexDigit(c2) ==> r == Some(16 * HexValue(c1) + HexValue(c2))
  {
    if IsHexDigit(c1) && IsHexDigit(c2) then Some(16 * HexValue(c1) + HexValue(c2))
    else if c1 == '+' && IsHexDigit(c2) then Some(HexValue(c2))
    else if c1 == '-' && IsHexDigit(c2) && HexValue(c2) == 0 then Some(0)
    else None
  }

  function Cons(c: char, r: Result<string, DecodeError>): Result<string, DecodeError>
  {
    match r
    case Success(t) => Success([c] + t)
    case Failure(e) => Failure(e)
  }

  /** `URLDecoder.decode` when `plusAsSpace` holds; `java.net.URI`'s own decoding of a component
      (which leaves `+` alone) when it does not. Each escaped byte becomes one character. */
  function Decode(s: string, plusAsSpace: bool): (r: Result<string, DecodeError>)
    ensures r.Success? ==> |r.value| <= |s|
    decreases |s|
  {
    if |s| == 0 then Success("")
    else if s[0] == '%' then
      if |s| < 3 then Failure(IncompleteTrailingEscape)
      else
        match EscapeValue(s[1], s[2])
        case None => Failure(IllegalHexCharacters)
        case Some(v) => Cons(v as char, Decode(s[3..], plusAsSpace))
    else
      Cons(if s[0] == '+' && plusAsSpace then ' ' else s[0], Decode(s[1..], plusAsSpace))
  }

  /** Every `%` is followed by two hexadecimal digits: the rule `java.net.URI` applies to every
      component of a link ("Malformed escape pair" otherwise). */
  predicate WellFormed(s: string)
    decreases |s|
  {
    if |s| == 0 then true
    else if s[0] == '%' then |s| >= 3 && IsHexDigit(s[1]) && IsHexDigit(s[2]) && WellFormed(s[3..])
    else WellFormed(s[1..])
  }

  lemma {:induction false} NoPercentWellFormed(s: string)
    requires '%' !in s
    ensures WellFormed(s)
    decreases |s|
  {
    if |s| > 0 {
      assert s[0] in s;
      assert forall c :: c in s[1..] ==> c in s;
      NoPercentWellFormed(s[1..]);
    }
  }

  lemma {:induction false} WellFormedConcat(a: string, b: string)
    requires WellFormed(a) && WellFormed(b)
    ensures WellFormed(a + b)
    decreases |a|
  {
    if |a| == 0 {
      assert a + b == b;
    } else if a[0] == '%' {
      assert (a + b)[3..] == a[3..] + b;
      assert (a + b)[1] == a[1] && (a + b)[2] == a[2];
      WellFormedConcat(a[3..], b);
    } else {
      assert (a + b)[1..] == a[1..] + b;
      WellFormedConcat(a[1..], b);
    }
  }

  /** A well-formed component always decodes; this is why, once `java.net.URI` has accepted a
      link, the decoder can only fail on text that was decoded once already. */
  lemma {:induction false} WellFormedDecodes(s: string, plusAsSpace: bool)
    requires WellFormed(s)
    ensures Decode(s, plusAsSpace).Success?
    decreases |s|
  {
    if |s| > 0 {
      if s[0] == '%' {
        WellFormedDecodes(s[3..], plusAsSpace);
      } else {
        WellFormedDecodes(s[1..], plusAsSpace);
      }
    }
  }

  /** Text without `%` (and without `+` when it would become a space) decodes to itself. */
  lemma {:induction false} DecodePlain(s: string, plusAsSpace: bool)
    requires '%' !in s
    requires plusAsSpace ==> '+' !in s
    ensures Decode(s, plusAsSpace) == Success(s)
    decreases |s|
  {
    if |s| > 0 {
      assert s[0] in s;
      assert forall c :: c in s[1..] ==> c in s;
      DecodePlain(s[1..], plusAsSpace);
      assert [s[0]] + s[1..] == s;
    }
  }

  /** The characters an encoder may leave as they are. */
  predicate Unreserved(c: char)
  {
    'a' <= c <= 'z' || 'A' <= c <= 'Z' || '0' <= c <= '9' || c == '-' || c == '_' || c == '.' || c == '~'
  }

  function HexDigit(d: nat): (c: char)
    requires d < 16
    ensures IsHexDigit(c) && HexValue(c) == d
  {
    if d < 10 then ('0' as int + d) as char else ('A' as int + d - 10) as char
  }

  function EscapeChar(c: char): string
  {
    if c as int < 128 && !Unreserved(c) then ['%', HexDigit(c as int / 16), HexDigit(c as int % 16)]
    else [c]
  }

  /** Percent-encodes every ASCII character that is not unreserved; other characters are kept. */
  function Escape(s: string): string
    decreases |s|
  {
    if |s| == 0 then "" else EscapeChar(s[0]) + Escape(s[1..])
  }

  /** The delimiters of a share-link: none of them survives `Escape`. */
  const Delimiters := "&=#?/@:,+[] "

  /** The characters `Escape` writes: unreserved ones, `%`, hexadecimal digits and non-ASCII ones. */
  predicate EscapeOutput(x: char)
  {
    Unreserved(x) || x == '%' || IsHexDigit(x) || x as int >= 128
  }

  lemma EscapeOutputNotDelimiter(x: char)
    requires EscapeOutput(x)
    ensures x !in Delimiters
  {
  }

  lemma EscapeCharAvoidsDelimiters(c: char)
    ensures NoneOf(EscapeChar(c), Delimiters) && WellFormed(EscapeChar(c))
  {
    var e := EscapeChar(c);
    forall i | 0 <= i < |e| ensures e[i] !in Delimiters {
      assert EscapeOutput(e[i]);
      EscapeOutputNotDelimiter(e[i]);
    }
    if c as int < 128 && !Unreserved(c) {
      assert e[3..] == "";
    }
  }

  lemma {:induction false} EscapeAvoidsDelimiters(s: string)
    ensures NoneOf(Escape(s), Delimiters)
    ensures WellFormed(Escape(s))
    decreases |s|
  {
    if |s| > 0 {
      EscapeAvoidsDelimiters(s[1..]);
      EscapeCharAvoidsDelimiters(s[0]);
      NoneOfConcat(EscapeChar(s[0]), Escape(s[1..]), Delimiters);
      WellFormedConcat(EscapeChar(s[0]), Escape(s[1..]));
    }
  }

  /** Decoding undoes escaping, whether or not `+` is read as a space. */
  lemma {:induction false} DecodeEscape(s: string, plusAsSpace: bool)
    ensures Decode(Escape(s), plusAsSpace) == Success(s)
    decreases |s|
  {
    if |s| > 0 {
      DecodeEscape(s[1..], plusAsSpace);
      DecodeEscapeChar(s[0], Escape(s[1..]), plusAsSpace);
      assert [s[0]] + s[1..] == s;
    }
  }

  /** An escaped character in front decodes back to that character. */
  lemma DecodeEscapeChar(c: char, rest: string, plusAsSpace: bool)
    ensures Decode(EscapeChar(c) + rest, plusAsSpace) == Cons(c, Decode(rest, plusAsSpace))
  {
    var e := EscapeChar(c) + rest;
    if c as int < 128 && !Unreserved(c) {
      assert e[3..] == rest;
      assert (16 * (c as int / 16) + c as int % 16) as char == c;
    } else {
      assert e[1..] == rest;
    }
  }
}

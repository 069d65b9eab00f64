/**
 * java.net.URLEncoder.encode and java.net.URLDecoder.decode with UTF-8, the
 * form encoding the gateway puts around the return_to parameter, and the
 * percent-decoding java.net.URI applies in getAuthority and getPath.
 */
module UrlCodec {
  import opened Wrappers

  const HexUpper: string := "0123456789ABCDEF"

  /** The characters URLEncoder copies unchanged. */
  predicate Unreserved(c: char) {
    ('a' <= c <= 'z') || ('A' <= c <= 'Z') || ('0' <= c <= '9')
    || c == '-' || c == '_' || c == '.' || c == '*'
  }

  predicate IsAscii(s: string) {
    forall k :: 0 <= k < |s| ==> s[k] as int < 0x80
  }

  predicate IsByte(b: int) {
    0 <= b < 256
  }

  /** The UTF-8 encoding of one Unicode scalar value. */
  function Utf8(c: char): (r: seq<int>)
    ensures 1 <= |r| <= 4
    ensures forall k :: 0 <= k < |r| ==> IsByte(r[k])
    ensures |r| == 1 <==> c as int < 0x80
    ensures c as int < 0x80 ==> r == [c as int]
  {
    var n := c as int;
    if n < 0x80 then [n]
    else if n < 0x800 then [0xC0 + n / 64, 0x80 + n % 64]
    else if n < 0x10000 then [0xE0 + n / 4096, 0x80 + (n / 64) % 64, 0x80 + n % 64]
    else [0xF0 + n / 262144, 0x80 + (n / 4096) % 64, 0x80 + (n / 64) % 64, 0x80 + n % 64]
  }

  /** "%XY" with upper-case hexadecimal digits. */
  function Escape(b: int): (r: string)
    requires IsByte(b)
    ensures |r| == 3 && r[0] == '%' && Unreserved(r[1]) && Unreserved(r[2])
  {
    ['%', HexUpper[b / 16], HexUpper[b % 16]]
  }

  function EscapeAll(bs: seq<int>): (r: string)
    requires forall k :: 0 <= k < |bs| ==> IsByte(bs[k])
    ensures forall k :: 0 <= k < |r| ==> r[k] == '%' || Unreserved(r[k])
  {
    if bs == [] then "" else Escape(bs[0]) + EscapeAll(bs[1..])
  }

  function EncodeChar(c: char): (r: string)
    ensures forall k :: 0 <= k < |r| ==> r[k] == '%' || r[k] == '+' || Unreserved(r[k])
  {
    if Unreserved(c) then [c]
    else if c == ' ' then "+"
    else EscapeAll(Utf8(c))
  }

  /**
   * URLEncoder.encode(s, UTF_8). Its output uses only the unreserved
   * characters, '+' and '%': never '&', '=', '?', '#' or '/'.
   */
  function Encode(s: string): (r: string)
    ensures forall k :: 0 <= k < |r| ==> r[k] == '%' || r[k] == '+' || Unreserved(r[k])
  {
    if s == "" then "" else EncodeChar(s[0]) + Encode(s[1..])
  }

  /** Text made of unreserved characters only is encoded as itself. */
  lemma {:induction false} EncodeUnreserved(s: string)
    requires forall k :: 0 <= k < |s| ==> Unreserved(s[k])
    ensures Encode(s) == s
  {
    if s != "" {
      EncodeUnreserved(s[1..]);
      assert s == [s[0]] + s[1..];
    }
  }

  /** A path of one unreserved segment: only its slash is escaped, as %2F. */
  lemma EncodeSlashSegment(s: string)
    requires forall k :: 0 <= k < |s| ==> Unreserved(s[k])
    ensures Encode("/" + s) == "%2F" + s
  {
    EncodeSlash();
    var t := "/" + s;
    assert t[0] == '/' && t[1..] == s;
    EncodeUnreserved(s);
  }

  lemma EncodeMyReviews(s: string)
    requires s == "/my-reviews"
    ensures Encode(s) == "%2Fmy-reviews"
  {
    var segment := s[1..];
    assert s == "/" + segment;
    assert forall k :: 0 <= k < |segment| ==> Unreserved(segment[k]);
    EncodeSlashSegment(segment);
    assert "%2F" + segment == "%2Fmy-reviews";
  }

  /** URLEncoder writes '/' as %2F. */
  lemma EncodeSlash()
    ensures EncodeChar('/') == "%2F"
  {
    assert Utf8('/') == [0x2F];
    assert Escape(0x2F) == "%2F";
    assert EscapeAll([0x2F]) == Escape(0x2F) + EscapeAll([]);
  }

  /** Character.digit(c, 16) on ASCII characters. */
  function HexValue(c: char): (r: Option<int>)
    ensures r.Some? ==> 0 <= r.value < 16
  {
    if '0' <= c <= '9' then Some(c as int - '0' as int)
    else if 'a' <= c <= 'f' then Some(c as int - 'a' as int + 10)
    else if 'A' <= c <= 'F' then Some(c as int - 'A' as int + 10)
    else None
  }

  /**
   * Integer.parseInt over the two characters after a '%', radix 16, as
   * URLDecoder calls it: a leading sign is accepted, and a negative value is
   * refused. None stands for the exception.
   */
  function EscapedByte(c1: char, c2: char): (r: Option<int>)
    ensures r.Some? ==> IsByte(r.value)
  {
    match HexValue(c2)
    case None => None
    case Some(d2) =>
      if c1 == '+' then Some(d2)
      else if c1 == '-' then (if d2 == 0 then Some(0) else None)
      else
        match HexValue(c1)
        case None => None
        case Some(d1) => Some(16 * d1 + d2)
  }

  /** One decoded byte as a character; bytes from 0x80 up stand for U+FFFD. */
  function ByteChar(b: int): (c: char)
    requires IsByte(b)
    ensures b < 0x80 ==> c as int == b
  {
    if b < 0x80 then b as char else 0xFFFD as char
  }

  function Prepend(c: char, r: Option<string>): Option<string> {
    match r
    case Some(t) => Some([c] + t)
    case None => None
  }

  /**
   * URLDecoder.decode(s, UTF_8): '+' is a space, "%XY" a byte, and a '%'
   * without two following characters, or with a pair Integer.parseInt
   * refuses, makes it throw (None).
   */
  function Decode(s: string): (r: Option<string>)
  {
    if s == "" then Some("")
    else if s[0] == '+' then Prepend(' ', Decode(s[1..]))
    else if s[0] == '%' then
      if 2 < |s| then
        match EscapedByte(s[1], s[2])
        case None => None
        case Some(b) => Prepend(ByteChar(b), Decode(s[3..]))
      else None
    else Prepend(s[0], Decode(s[1..]))
  }

  lemma HexUpperValue(d: int)
    requires 0 <= d < 16
    ensures HexValue(HexUpper[d]) == Some(d)
  {
  }

  lemma DecodeEncodedChar(c: char, t: string)
    requires c as int < 0x80
    ensures Decode(EncodeChar(c) + t) == Prepend(c, Decode(t))
  {
    var e := EncodeChar(c) + t;
    if Unreserved(c) {
      assert e[0] == c && e[1..] == t;
    } else if c == ' ' {
      assert e[0] == '+' && e[1..] == t;
    } else {
      DecodeEscapedChar(c, t);
    }
  }

  /** A character URLEncoder escapes comes back from its %XY form. */
  lemma DecodeEscapedChar(c: char, t: string)
    requires c as int < 0x80 && !Unreserved(c) && c != ' '
    ensures Decode(EncodeChar(c) + t) == Prepend(c, Decode(t))
  {
    var b := c as int;
    assert EncodeChar(c) == Escape(b) by {
      assert Utf8(c) == [b];
      assert EscapeAll([b]) == Escape(b) + EscapeAll([]);
    }
    var e := Escape(b) + t;
    assert e[0] == '%' && e[1] == HexUpper[b / 16] && e[2] == HexUpper[b % 16] && e[3..] == t;
    EscapedByteOfEscape(b);
  }

  /** The two digits of an escape parse back to its byte. */
  lemma EscapedByteOfEscape(b: int)
    requires IsByte(b)
    ensures EscapedByte(HexUpper[b / 16], HexUpper[b % 16]) == Some(b)
  {
    HexUpperValue(b / 16);
    HexUpperValue(b % 16);
    assert HexUpper[b / 16] != '+' && HexUpper[b / 16] != '-';
  }

  /** Decoding inverts encoding on ASCII text. */
  lemma {:induction false} DecodeEncode(s: string)
    requires IsAscii(s)
    ensures Decode(Encode(s)) == Some(s)
  {
    if s != "" {
      DecodeEncode(s[1..]);
      DecodeEncodedChar(s[0], Encode(s[1..]));
      assert [s[0]] + s[1..] == s;
    }
  }

  /**
   * This model reads every byte from 0x80 up as U+FFFD (multi-byte UTF-8
   * decoding is not modelled), so distinct non-ASCII escapes can decode alike.
   */
  lemma DecodeNotInjective()
    ensures Decode("%C3%A9") == Decode("%FF%FF")
  {
    assert EscapedByte('C', '3') == Some(0xC3);
    assert EscapedByte('A', '9') == Some(0xA9);
    assert EscapedByte('F', 'F') == Some(0xFF);
  }

  /** java.net.URI.decode: "%XY" is a byte, anything else is copied. */
  function DecodeEscapes(s: string): (r: string)
    ensures |r| <= |s|
    ensures '%' !in s ==> r == s
  {
    if s == "" then ""
    else if s[0] == '%' && 2 < |s| && HexValue(s[1]).Some? && HexValue(s[2]).Some? then
      [ByteChar(16 * HexValue(s[1]).value + HexValue(s[2]).value)] + DecodeEscapes(s[3..])
    else [s[0]] + DecodeEscapes(s[1..])
  }
}

/** `encodeURIComponent` and `decodeURIComponent` (section 19.2.6 of
    ECMA-262), whose escapes are the percent-encoding of section 2.1 of
    RFC 3986 over UTF-8 octets. */
module UriCodec {
  import opened Wrappers
  import opened Text
  import opened Utf8

  /** The characters `encodeURIComponent` copies unchanged: ASCII letters,
      decimal digits and the marks - _ . ! ~ * ' ( ). */
  predicate Unescaped(c: char)
  {
    IsAsciiUpper(c) || IsAsciiLower(c) || IsDigit(c) || c in "-_.!~*'()"
  }

  /** The upper-case hexadecimal digit the encoder writes. */
  function HexDigit(v: int): (c: char)
    requires 0 <= v < 16
  {
    if v < 10 then ('0' as int + v) as char else ('A' as int + v - 10) as char
  }

  /** The value of a hexadecimal digit of either case, as the decoder reads it. */
  function HexValue(c: char): (r: Option<int>)
    ensures r.Some? ==> 0 <= r.value < 16
  {
    if '0' <= c <= '9' then Some(c as int - '0' as int)
    else if 'A' <= c <= 'F' then Some(c as int - 'A' as int + 10)
    else if 'a' <= c <= 'f' then Some(c as int - 'a' as int + 10)
    else None
  }

  /** "%XY" for one octet. */
  function Escape(b: Byte): string
  {
    ['%', HexDigit(b / 16), HexDigit(b % 16)]
  }

  function Escapes(bytes: seq<Byte>): (s: string)
    ensures |s| == 3 * |bytes|
    ensures forall i :: 0 <= i < |s| ==> s[i] as int < 0x80
  {
    if bytes == [] then [] else Escape(bytes[0]) + Escapes(bytes[1..])
  }

  /** One character of the input: itself when unreserved, otherwise the
      escapes of its UTF-8 octets. */
  function EncodeChar(c: char): (s: string)
    ensures forall i :: 0 <= i < |s| ==> s[i] as int < 0x80
  {
    if Unescaped(c) then [c] else Escapes(EncodeScalar(c))
  }

  /** `encodeURIComponent`. Its output is plain ASCII, and it is empty exactly
      when the input is. */
  function EncodeURIComponent(s: string): (r: string)
    ensures forall i :: 0 <= i < |r| ==> r[i] as int < 0x80
    ensures r == [] <==> s == []
  {
    if s == [] then [] else EncodeChar(s[0]) + EncodeURIComponent(s[1..])
  }

  function Prepend(c: char, r: Option<string>): Option<string>
  {
    match r
    case None => None
    case Some(t) => Some([c] + t)
  }

  /** The octet of one "%XY" escape at the start of `s`. */
  function ParseEscape(s: string): (r: Option<Byte>)
  {
    if |s| >= 3 && s[0] == '%' && HexValue(s[1]).Some? && HexValue(s[2]).Some?
    then Some(HexValue(s[1]).value * 16 + HexValue(s[2]).value)
    else None
  }

  /** The octets of `n` consecutive escapes at the start of `s`. */
  function ParseEscapes(s: string, n: nat): (r: Option<seq<Byte>>)
    ensures r.Some? ==> |r.value| == n && 3 * n <= |s|
  {
    if n == 0 then Some([])
    else match ParseEscape(s)
      case None => None
      case Some(b) =>
        match ParseEscapes(s[3..], n - 1)
        case None => None
        case Some(rest) => Some([b] + rest)
  }

  /** `decodeURIComponent`; None is the URIError it throws on a truncated or
      non-hexadecimal escape and on octets that are not well-formed UTF-8. */
  function DecodeURIComponent(s: string): Option<string>
    decreases |s|
  {
    if s == [] then Some([])
    else if s[0] != '%' then Prepend(s[0], DecodeURIComponent(s[1..]))
    else match ParseEscape(s)
      case None => None
      case Some(b) =>
        var n := LeadingOnes(b);
        if n == 0 then Prepend(b as char, DecodeURIComponent(s[3..]))
        else if n == 1 || n > 4 then None
        else match ParseEscapes(s, n)
          case None => None
          case Some(octets) =>
            match DecodeScalar(octets)
            case None => None
            case Some(c) => Prepend(c, DecodeURIComponent(s[3 * n..]))
  }

  lemma ParseEscapeOf(b: Byte, rest: string)
    ensures ParseEscape(Escape(b) + rest) == Some(b)
  {
    var s := Escape(b) + rest;
    assert s[0] == '%' && s[1] == HexDigit(b / 16) && s[2] == HexDigit(b % 16);
  }

  lemma {:induction false} ParseEscapesOf(bytes: seq<Byte>, rest: string)
    ensures ParseEscapes(Escapes(bytes) + rest, |bytes|) == Some(bytes)
  {
    if bytes != [] {
      var s := Escapes(bytes) + rest;
      assert s == Escape(bytes[0]) + (Escapes(bytes[1..]) + rest);
      ParseEscapeOf(bytes[0], Escapes(bytes[1..]) + rest);
      assert s[3..] == Escapes(bytes[1..]) + rest;
      ParseEscapesOf(bytes[1..], rest);
      assert [bytes[0]] + bytes[1..] == bytes;
    }
  }

  /** Decoding consumes exactly the encoding of one character. */
  lemma DecodeEncodeChar(c: char, rest: string)
    ensures DecodeURIComponent(EncodeChar(c) + rest) == Prepend(c, DecodeURIComponent(rest))
  {
    var s := EncodeChar(c) + rest;
    if Unescaped(c) {
      assert s[0] == c && s[1..] == rest;
    } else {
      var bytes := EncodeScalar(c);
      EncodeLeadingOnes(c);
      DecodeEncode(c);
      assert s == Escape(bytes[0]) + (Escapes(bytes[1..]) + rest);
      ParseEscapeOf(bytes[0], Escapes(bytes[1..]) + rest);
      assert s[0] == '%';
      if |bytes| == 1 {
        assert s[3..] == rest;
      } else {
        ParseEscapesOf(bytes, rest);
        assert s[3 * |bytes|..] == rest;
      }
    }
  }

  /** The percent layer of a shared link is lossless. */
  lemma {:induction false} DecodeEncodeURIComponent(s: string)
    ensures DecodeURIComponent(EncodeURIComponent(s)) == Some(s)
  {
    if s != [] {
      DecodeEncodeURIComponent(s[1..]);
      DecodeEncodeChar(s[0], EncodeURIComponent(s[1..]));
      assert [s[0]] + s[1..] == s;
    }
  }

  /** Malformed input makes the decoder fail: a lone "%", a non-hexadecimal
      escape, a truncated two-octet sequence, an overlong form and a stray
      continuation octet. */
  lemma MalformedEscapesRejected()
    ensures DecodeURIComponent("%") == None
    ensures DecodeURIComponent("%G0") == None
    ensures DecodeURIComponent("%C3") == None
    ensures DecodeURIComponent("%C0%80") == None
    ensures DecodeURIComponent("%80") == None
  {
  }
}

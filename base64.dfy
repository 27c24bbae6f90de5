/** `btoa` and `atob`: the base64 encoding of section 4 of RFC 4648 over
    "binary strings" (one character per octet), with `atob` following the
    forgiving-base64 decode of the WHATWG Infra standard. */
module Base64 {
  import opened Wrappers
  import opened Utf8

  type Sextet = v: int | 0 <= v < 64

  /** The character for a 6-bit group (Table 1 of RFC 4648). */
  function Alphabet(v: Sextet): char
  {
    if v < 26 then ('A' as int + v) as char
    else if v < 52 then ('a' as int + v - 26) as char
    else if v < 62 then ('0' as int + v - 52) as char
    else if v == 62 then '+'
    else '/'
  }

  /** The 6-bit group of a character of the alphabet. */
  function AlphabetIndex(c: char): Option<Sextet>
  {
    if 'A' <= c <= 'Z' then Some(c as int - 'A' as int)
    else if 'a' <= c <= 'z' then Some(c as int - 'a' as int + 26)
    else if '0' <= c <= '9' then Some(c as int - '0' as int + 52)
    else if c == '+' then Some(62)
    else if c == '/' then Some(63)
    else None
  }

  /** Octets cut into 6-bit groups, three octets to four groups; a final one
      or two octets give two or three groups, the missing bits zero. */
  function Sextets(b: seq<Byte>): (v: seq<Sextet>)
    ensures |v| == 4 * (|b| / 3) + (if |b| % 3 == 0 then 0 else |b| % 3 + 1)
  {
    if |b| == 0 then []
    else if |b| == 1 then [b[0] / 4, (b[0] % 4) * 16]
    else if |b| == 2 then [b[0] / 4, (b[0] % 4) * 16 + b[1] / 16, (b[1] % 16) * 4]
    else
      [b[0] / 4, (b[0] % 4) * 16 + b[1] / 16, (b[1] % 16) * 4 + b[2] / 64, b[2] % 64]
      + Sextets(b[3..])
  }

  /** 6-bit groups back to octets; a final group of two or three yields one or
      two octets and its leftover bits are discarded. */
  function FromSextets(v: seq<Sextet>): seq<Byte>
    requires |v| % 4 != 1
  {
    if |v| == 0 then []
    else if |v| == 2 then [v[0] as int * 4 + v[1] / 16]
    else if |v| == 3 then [v[0] as int * 4 + v[1] / 16, (v[1] as int % 16) * 16 + v[2] / 4]
    else
      [v[0] as int * 4 + v[1] / 16, (v[1] as int % 16) * 16 + v[2] / 4, (v[2] as int % 4) * 64 + v[3]]
      + FromSextets(v[4..])
  }

  function Chars(v: seq<Sextet>): (s: string)
    ensures |s| == |v|
  {
    if v == [] then [] else [Alphabet(v[0])] + Chars(v[1..])
  }

  lemma {:induction false} CharsAt(v: seq<Sextet>, i: nat)
    requires i < |v|
    ensures Chars(v)[i] == Alphabet(v[i])
  {
    if i > 0 {
      CharsAt(v[1..], i - 1);
    }
  }

  /** The groups of a string of alphabet characters; None when some character
      is outside the alphabet. */
  function Groups(s: string): (r: Option<seq<Sextet>>)
    ensures r.Some? ==> |r.value| == |s|
  {
    if s == [] then Some([])
    else match (AlphabetIndex(s[0]), Groups(s[1..]))
      case (Some(v), Some(rest)) => Some([v] + rest)
      case _ => None
  }

  /** "=" characters that fill the output to a multiple of four. */
  function Padding(n: nat): string
  {
    if n % 3 == 1 then "==" else if n % 3 == 2 then "=" else ""
  }

  predicate IsBinary(s: string)
  {
    forall i :: 0 <= i < |s| ==> s[i] as int < 0x100
  }

  function OctetsOf(s: string): (b: seq<Byte>)
    requires IsBinary(s)
    ensures |b| == |s|
  {
    if s == [] then [] else [s[0] as int] + OctetsOf(s[1..])
  }

  function StringOf(b: seq<Byte>): (s: string)
    ensures |s| == |b|
  {
    if b == [] then [] else [b[0] as char] + StringOf(b[1..])
  }

  /** `btoa`; None is the InvalidCharacterError it throws on a character above
      U+00FF. */
  function Btoa(s: string): Option<string>
  {
    if IsBinary(s) then Some(Chars(Sextets(OctetsOf(s))) + Padding(|s|)) else None
  }

  /** ASCII whitespace: TAB, LF, FF, CR and SPACE. */
  predicate IsAsciiWhitespace(c: char)
  {
    c == '\t' || c == '\n' || c == '\U{C}' || c == '\r' || c == ' '
  }

  function RemoveWhitespace(s: string): (r: string)
    ensures |r| <= |s|
  {
    if s == [] then []
    else if IsAsciiWhitespace(s[0]) then RemoveWhitespace(s[1..])
    else [s[0]] + RemoveWhitespace(s[1..])
  }

  /** One or two trailing "=" removed. */
  function StripPadding(s: string): string
  {
    if |s| >= 2 && s[|s| - 2..] == "==" then s[..|s| - 2]
    else if |s| >= 1 && s[|s| - 1] == '=' then s[..|s| - 1]
    else s
  }

  /** `atob`; None is the InvalidCharacterError it throws when the forgiving
      decode fails (a length of 1 modulo 4 once padding is gone, or a
      character outside the alphabet). */
  function Atob(s: string): Option<string>
  {
    var data := RemoveWhitespace(s);
    var data := if |data| % 4 == 0 then StripPadding(data) else data;
    if |data| % 4 == 1 then None
    else match Groups(data)
      case None => None
      case Some(v) => Some(StringOf(FromSextets(v)))
  }

  lemma {:induction false} FromSextetsOfSextets(b: seq<Byte>)
    ensures |Sextets(b)| % 4 != 1
    ensures FromSextets(Sextets(b)) == b
  {
    if |b| >= 3 {
      FromSextetsOfSextets(b[3..]);
      var v := Sextets(b);
      assert v[4..] == Sextets(b[3..]);
      assert [b[0], b[1], b[2]] + b[3..] == b;
    }
  }

  lemma AlphabetIndexOf(v: Sextet)
    ensures AlphabetIndex(Alphabet(v)) == Some(v)
  {
  }

  lemma {:induction false} GroupsOfChars(v: seq<Sextet>)
    ensures Groups(Chars(v)) == Some(v)
  {
    if v != [] {
      GroupsOfChars(v[1..]);
      AlphabetIndexOf(v[0]);
      assert Chars(v)[1..] == Chars(v[1..]);
      assert [v[0]] + v[1..] == v;
    }
  }

  lemma {:induction false} StringOfOctets(s: string)
    requires IsBinary(s)
    ensures StringOf(OctetsOf(s)) == s
  {
    if s != [] {
      StringOfOctets(s[1..]);
      assert [s[0]] + s[1..] == s;
    }
  }

  /** Base64 output holds no whitespace, so the decoder's first step keeps it. */
  lemma {:induction false} RemoveWhitespaceOfChars(v: seq<Sextet>, pad: string)
    requires forall i :: 0 <= i < |pad| ==> pad[i] == '='
    ensures RemoveWhitespace(Chars(v) + pad) == Chars(v) + pad
  {
    if v == [] {
      assert Chars(v) + pad == pad;
      RemoveWhitespaceOfPad(pad);
    } else {
      RemoveWhitespaceOfChars(v[1..], pad);
      assert (Chars(v) + pad)[1..] == Chars(v[1..]) + pad;
    }
  }

  lemma {:induction false} RemoveWhitespaceOfPad(pad: string)
    requires forall i :: 0 <= i < |pad| ==> pad[i] == '='
    ensures RemoveWhitespace(pad) == pad
  {
    if pad != [] {
      RemoveWhitespaceOfPad(pad[1..]);
      assert [pad[0]] + pad[1..] == pad;
    }
  }

  /** Removing the padding of an encoding leaves exactly its alphabet
      characters. */
  lemma StripPaddingOfEncoding(v: seq<Sextet>, n: nat)
    requires |v| == 4 * (n / 3) + (if n % 3 == 0 then 0 else n % 3 + 1)
    ensures |Chars(v) + Padding(n)| % 4 == 0
    ensures StripPadding(Chars(v) + Padding(n)) == Chars(v)
  {
    var enc := Chars(v) + Padding(n);
    if n % 3 == 0 {
      assert enc == Chars(v);
      if enc != [] {
        CharsAt(v, |v| - 1);
      }
    } else if n % 3 == 1 {
      assert enc[|enc| - 2..] == "==";
      assert enc[..|enc| - 2] == Chars(v);
    } else {
      CharsAt(v, |v| - 1);
      assert enc[|enc| - 2] == Alphabet(v[|v| - 1]);
      assert enc[|enc| - 1] == '=';
      assert enc[..|enc| - 1] == Chars(v);
    }
  }

  /** `atob` undoes `btoa` on every binary string. */
  lemma AtobBtoa(s: string)
    requires IsBinary(s)
    ensures Btoa(s).Some? && Atob(Btoa(s).value) == Some(s)
  {
    var b := OctetsOf(s);
    var v := Sextets(b);
    var pad := Padding(|s|);
    var enc := Chars(v) + pad;
    assert Btoa(s) == Some(enc);
    RemoveWhitespaceOfChars(v, pad);
    StripPaddingOfEncoding(v, |s|);
    FromSextetsOfSextets(b);
    GroupsOfChars(v);
    StringOfOctets(s);
  }
}

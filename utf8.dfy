/** UTF-8 as RFC 3629 defines it, on Unicode scalar values. It is the octet
    layer under `encodeURIComponent` and `decodeURIComponent`. */
module Utf8 {
  import opened Wrappers

  type Byte = b: int | 0 <= b < 0x100

  /** The UTF-8 form of one scalar value (section 3 of RFC 3629): the value's
      bits, six at a time, behind a lead octet that announces the length. */
  function EncodeScalar(c: char): (bytes: seq<Byte>)
    ensures 1 <= |bytes| <= 4
    ensures |bytes| == 1 <==> c as int < 0x80
  {
    var v := c as int;
    var t1 := v / 64;
    var t2 := t1 / 64;
    var t3 := t2 / 64;
    if v < 0x80 then [v]
    else if v < 0x800 then [0xC0 + t1, 0x80 + v % 64]
    else if v < 0x10000 then [0xE0 + t2, 0x80 + t1 % 64, 0x80 + v % 64]
    else [0xF0 + t3, 0x80 + t2 % 64, 0x80 + t1 % 64, 0x80 + v % 64]
  }

  /** The number of leading 1 bits of an octet. */
  function LeadingOnes(b: Byte): (n: nat)
    ensures n <= 8
  {
    if b < 0x80 then 0
    else if b < 0xC0 then 1
    else if b < 0xE0 then 2
    else if b < 0xF0 then 3
    else if b < 0xF8 then 4
    else if b < 0xFC then 5
    else if b < 0xFE then 6
    else if b < 0xFF then 7
    else 8
  }

  predicate IsContinuation(b: Byte) { 0x80 <= b < 0xC0 }

  /** The scalar value a complete octet sequence stands for, or None when the
      sequence is not well-formed UTF-8: a wrong lead octet, a missing
      continuation octet, an overlong form, a surrogate or a value beyond
      U+10FFFF. */
  function DecodeScalar(o: seq<Byte>): Option<char>
  {
    if |o| == 1 && o[0] < 0x80 then Some(o[0] as char)
    else if |o| == 2 && LeadingOnes(o[0]) == 2 && IsContinuation(o[1]) then
      var v: int := (o[0] as int - 0xC0) * 64 + (o[1] as int - 0x80);
      if 0x80 <= v then Some(v as char) else None
    else if |o| == 3 && LeadingOnes(o[0]) == 3 && IsContinuation(o[1]) && IsContinuation(o[2]) then
      var v: int := ((o[0] as int - 0xE0) * 64 + (o[1] as int - 0x80)) * 64 + (o[2] as int - 0x80);
      if 0x800 <= v && !(0xD800 <= v <= 0xDFFF) then Some(v as char) else None
    else if |o| == 4 && LeadingOnes(o[0]) == 4 && IsContinuation(o[1])
      && IsContinuation(o[2]) && IsContinuation(o[3]) then
      var v: int := (((o[0] as int - 0xF0) * 64 + (o[1] as int - 0x80)) * 64 + (o[2] as int - 0x80)) * 64 + (o[3] as int - 0x80);
      if 0x10000 <= v <= 0x10FFFF then Some(v as char) else None
    else None
  }

  lemma DivMod64(q: int, r: int)
    requires 0 <= r < 64
    ensures (q * 64 + r) / 64 == q && (q * 64 + r) % 64 == r
  {
  }

  /** The lead octet of an encoding announces its length: no leading 1 bit for
      a single octet, otherwise as many 1 bits as there are octets. */
  lemma EncodeLeadingOnes(c: char)
    ensures LeadingOnes(EncodeScalar(c)[0]) == if c as int < 0x80 then 0 else |EncodeScalar(c)|
    ensures forall i :: 1 <= i < |EncodeScalar(c)| ==> IsContinuation(EncodeScalar(c)[i])
  {
  }

  /** Decoding undoes encoding. */
  lemma DecodeEncode(c: char)
    ensures DecodeScalar(EncodeScalar(c)) == Some(c)
  {
    var v := c as int;
    assert v == (v / 64) * 64 + v % 64;
    assert v / 64 == (v / 64 / 64) * 64 + (v / 64) % 64;
    assert v / 64 / 64 == (v / 64 / 64 / 64) * 64 + (v / 64 / 64) % 64;
  }

  /** Every well-formed sequence is the encoding of the scalar it decodes to,
      so UTF-8 has exactly one form per scalar value. */
  lemma EncodeDecode(o: seq<Byte>, c: char)
    requires DecodeScalar(o) == Some(c)
    ensures EncodeScalar(c) == o
  {
    var v := c as int;
    if |o| == 2 {
      DivMod64(o[0] as int - 0xC0, o[1] - 0x80);
    } else if |o| == 3 {
      var hi := (o[0] as int - 0xE0) * 64 + (o[1] as int - 0x80);
      DivMod64(hi, o[2] - 0x80);
      DivMod64(o[0] as int - 0xE0, o[1] - 0x80);
    } else if |o| == 4 {
      var mid := (o[0] as int - 0xF0) * 64 + (o[1] as int - 0x80);
      var hi := mid * 64 + (o[2] as int - 0x80);
      DivMod64(hi, o[3] - 0x80);
      DivMod64(mid, o[2] - 0x80);
      DivMod64(o[0] as int - 0xF0, o[1] - 0x80);
    }
  }
}

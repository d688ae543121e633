/** UTF-8 (RFC 3629): what `str::bytes` yields and what `String::from_utf8` accepts. */
module Utf8 {
  import opened Wrappers

  /** The octets of one scalar value (section 3 of RFC 3629). */
  function EncodeChar(c: char): (bs: seq<Byte>)
    ensures 1 <= |bs| <= 4
  {
    var u := c as int;
    if u < 0x80 then [u]
    else if u < 0x800 then [0xC0 + u / 0x40, 0x80 + u % 0x40]
    else if u < 0x1_0000 then [0xE0 + u / 0x40 / 0x40, 0x80 + u / 0x40 % 0x40, 0x80 + u % 0x40]
    else [0xF0 + u / 0x40 / 0x40 / 0x40, 0x80 + u / 0x40 / 0x40 % 0x40, 0x80 + u / 0x40 % 0x40, 0x80 + u % 0x40]
  }

  function Encode(s: string): seq<Byte> {
    if s == [] then [] else EncodeChar(s[0]) + Encode(s[1..])
  }

  /** The forms of section 3 of RFC 3629: how many octets, with which leads, carrying which bits. */
  lemma EncodeCharExactly(c: char)
    ensures var u, bs := c as int, EncodeChar(c);
            if u < 0x80 then bs == [u]
            else if u < 0x800 then
              |bs| == 2 && 0xC0 <= bs[0] < 0xE0 && 0x80 <= bs[1] < 0xC0 && u == 0x40 * (bs[0] as int - 0xC0) + (bs[1] as int - 0x80)
            else if u < 0x1_0000 then
              && |bs| == 3 && 0xE0 <= bs[0] < 0xF0 && 0x80 <= bs[1] < 0xC0 && 0x80 <= bs[2] < 0xC0
              && u == 0x1000 * (bs[0] as int - 0xE0) + 0x40 * (bs[1] as int - 0x80) + (bs[2] as int - 0x80)
            else
              && |bs| == 4 && 0xF0 <= bs[0] < 0xF8 && 0x80 <= bs[1] < 0xC0 && 0x80 <= bs[2] < 0xC0 && 0x80 <= bs[3] < 0xC0
              && u == 0x40000 * (bs[0] as int - 0xF0) + 0x1000 * (bs[1] as int - 0x80) + 0x40 * (bs[2] as int - 0x80) + (bs[3] as int - 0x80)
  {
  }

  predicate IsScalar(u: int) {
    0 <= u < 0xD800 || 0xE000 <= u < 0x11_0000
  }

  predicate IsContinuation(b: Byte) {
    0x80 <= b < 0xC0
  }

  /** The scalar value `u`, unless it is out of range, a surrogate or overlong (below `least`). */
  function Scalar(u: int, least: int): (r: Option<char>)
    ensures r.Some? ==> r.value as int == u >= least
  {
    if least <= u && IsScalar(u) then Some(u as char) else None
  }

  function Decode2(a: Byte, b: Byte): (r: Option<char>)
    requires 0xC0 <= a < 0xE0 && IsContinuation(b)
    ensures r.Some? ==> EncodeChar(r.value) == [a, b]
  {
    Scalar((a - 0xC0) * 0x40 + (b - 0x80), 0x80)
  }

  function Decode3(a: Byte, b: Byte, c: Byte): (r: Option<char>)
    requires 0xE0 <= a < 0xF0 && IsContinuation(b) && IsContinuation(c)
    ensures r.Some? ==> EncodeChar(r.value) == [a, b, c]
  {
    Scalar(((a - 0xE0) * 0x40 + (b - 0x80)) * 0x40 + (c - 0x80), 0x800)
  }

  function Decode4(a: Byte, b: Byte, c: Byte, d: Byte): (r: Option<char>)
    requires 0xF0 <= a < 0xF8 && IsContinuation(b) && IsContinuation(c) && IsContinuation(d)
    ensures r.Some? ==> EncodeChar(r.value) == [a, b, c, d]
  {
    var bc := ((a - 0xF0) * 0x40 + (b - 0x80)) * 0x40 + (c - 0x80);
    assert bc / 0x40 == (a - 0xF0) * 0x40 + (b - 0x80);
    Scalar(bc * 0x40 + (d - 0x80), 0x1_0000)
  }

  /** The leading scalar value. */
  function DecodeChar(bs: seq<Byte>): (r: Option<char>)
    requires bs != []
    ensures r.Some? ==> EncodeChar(r.value) <= bs
  {
    var b := bs[0];
    if b < 0x80 then Some(b as char)
    else if 0xC0 <= b < 0xE0 then
      if |bs| >= 2 && IsContinuation(bs[1]) then Decode2(b, bs[1]) else None
    else if 0xE0 <= b < 0xF0 then
      if |bs| >= 3 && IsContinuation(bs[1]) && IsContinuation(bs[2]) then
        Decode3(b, bs[1], bs[2])
      else None
    else if 0xF0 <= b < 0xF8 then
      if |bs| >= 4 && IsContinuation(bs[1]) && IsContinuation(bs[2]) && IsContinuation(bs[3]) then
        Decode4(b, bs[1], bs[2], bs[3])
      else None
    else None
  }

  /** `String::from_utf8`. */
  function Decode(bs: seq<Byte>): (r: Option<string>)
    ensures r.Some? ==> Encode(r.value) == bs
  {
    if bs == [] then Some([])
    else match DecodeChar(bs)
      case None => None
      case Some(c) =>
        match Decode(bs[|EncodeChar(c)|..])
        case None => None
        case Some(rest) =>
          assert ([c] + rest)[1..] == rest;
          Some([c] + rest)
  }

  lemma DecodeEncodedChar(c: char, tail: seq<Byte>)
    ensures DecodeChar(EncodeChar(c) + tail) == Some(c)
  {
    var u := c as int;
    assert IsScalar(u);
    assert u == u / 0x40 * 0x40 + u % 0x40;
  }

  /** Every string survives the trip through its octets. */
  lemma {:induction false} DecodeEncode(s: string)
    ensures Decode(Encode(s)) == Some(s)
  {
    if s != [] {
      DecodeEncodedChar(s[0], Encode(s[1..]));
      DecodeEncode(s[1..]);
      assert Encode(s)[|EncodeChar(s[0])|..] == Encode(s[1..]);
      assert s == [s[0]] + s[1..];
    }
  }

  /** On ASCII text the octets are the code points. */
  lemma {:induction false} EncodeAscii(s: string)
    requires forall i :: 0 <= i < |s| ==> s[i] as int < 0x80
    ensures |Encode(s)| == |s| && forall i :: 0 <= i < |s| ==> Encode(s)[i] == s[i] as int
  {
    if s != [] {
      EncodeAscii(s[1..]);
    }
  }
}

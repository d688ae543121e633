/**
 Standard base64 (section 4 of RFC 4648), strict: the standard alphabet, canonical padding and
 zero trailing bits. `Decode` is what the `STANDARD` engine of the `base64` crate accepts.
 */
module Base64 {
  import opened Wrappers

  const PAD: Byte := 61

  /** The alphabet: `A`-`Z`, `a`-`z`, `0`-`9`, `+`, `/`. */
  function Symbol(v: nat): (b: Byte)
    requires v < 64
    ensures Sextet(b) == Some(v) && b != PAD && !IsAsciiWhitespace(b)
  {
    if v < 26 then 65 + v
    else if v < 52 then 97 + (v - 26)
    else if v < 62 then 48 + (v - 52)
    else if v == 62 then 43 else 47
  }

  function Sextet(b: Byte): (r: Option<nat>)
    ensures r.Some? ==> r.value < 64
  {
    if 65 <= b <= 90 then Some(b - 65)
    else if 97 <= b <= 122 then Some(b - 97 + 26)
    else if 48 <= b <= 57 then Some(b - 48 + 52)
    else if b == 43 then Some(62) else if b == 47 then Some(63) else None
  }

  lemma SymbolOfSextet(b: Byte)
    ensures Sextet(b).Some? ==> Symbol(Sextet(b).value) == b
  {
  }

  // -------------------------------------------------------------------------
  // The canonical encoding
  // -------------------------------------------------------------------------

  /** Three octets, cut into four sextets. */
  function Sextets(x: Byte, y: Byte, z: Byte): (v: (nat, nat, nat, nat))
    ensures v.0 < 64 && v.1 < 64 && v.2 < 64 && v.3 < 64
  {
    (x / 4, x % 4 * 16 + y / 16, y % 16 * 4 + z / 64, z % 64)
  }

  /** Four sextets, glued into three octets. */
  function Octets(v: (nat, nat, nat, nat)): (t: (Byte, Byte, Byte))
    requires v.0 < 64 && v.1 < 64 && v.2 < 64 && v.3 < 64
    ensures Sextets(t.0, t.1, t.2) == v
  {
    (v.0 * 4 + v.1 / 16, v.1 % 16 * 16 + v.2 / 4, v.2 % 4 * 64 + v.3)
  }

  lemma OctetsOfSextets(x: Byte, y: Byte, z: Byte)
    ensures Octets(Sextets(x, y, z)) == (x, y, z)
  {
  }

  function EncodeQuad(x: Byte, y: Byte, z: Byte): (q: seq<Byte>)
    ensures |q| == 4
  {
    var v := Sextets(x, y, z);
    [Symbol(v.0), Symbol(v.1), Symbol(v.2), Symbol(v.3)]
  }

  /** The last one or two octets: short of a group, hence padded. */
  function EncodeTail(bytes: seq<Byte>): (q: seq<Byte>)
    requires 1 <= |bytes| <= 2
    ensures |q| == 4
  {
    if |bytes| == 1 then
      EncodeQuad(bytes[0], 0, 0)[..2] + [PAD, PAD]
    else
      EncodeQuad(bytes[0], bytes[1], 0)[..3] + [PAD]
  }

  function Encode(bytes: seq<Byte>): (s: seq<Byte>)
    ensures |s| == (|bytes| + 2) / 3 * 4
  {
    if bytes == [] then []
    else if |bytes| < 3 then EncodeTail(bytes)
    else
      var rest := bytes[3..];
      assert |bytes| == |rest| + 3;
      EncodeQuad(bytes[0], bytes[1], bytes[2]) + Encode(rest)
  }

  /** Table 1 of RFC 4648, character by character. */
  lemma AlphabetExactly(v: nat)
    requires v < 64
    ensures Symbol(v) as char ==
              if v < 26 then ('A' as int + v) as char
              else if v < 52 then ('a' as int + v - 26) as char
              else if v < 62 then ('0' as int + v - 52) as char
              else if v == 62 then '+' else '/'
    ensures PAD as char == '='
  {
  }

  /** The 24 bits of three octets, most significant first, are those of their four sextets. */
  lemma BitsInOrder(x: Byte, y: Byte, z: Byte)
    ensures var v := Sextets(x, y, z);
            0x40000 * v.0 + 0x1000 * v.1 + 0x40 * v.2 + v.3 == 0x10000 * x + 0x100 * y + z
  {
  }

  /** The encoding group by group: three octets at a time, and what is left padded with zero bits and `=`. */
  lemma EncodeGroups(bytes: seq<Byte>, x: Byte, y: Byte, z: Byte)
    ensures Encode([x, y, z] + bytes) == EncodeQuad(x, y, z) + Encode(bytes)
    ensures Encode([x, y]) == EncodeQuad(x, y, 0)[..3] + ['=' as int]
    ensures Encode([x]) == EncodeQuad(x, 0, 0)[..2] + ['=' as int, '=' as int]
    ensures EncodeQuad(x, y, z) ==
              var v := Sextets(x, y, z); [Symbol(v.0), Symbol(v.1), Symbol(v.2), Symbol(v.3)]
    ensures Encode([]) == []
  {
    hide Symbol, Sextets;
    assert ([x, y, z] + bytes)[3..] == bytes;
  }

  // -------------------------------------------------------------------------
  // The strict decoder
  // -------------------------------------------------------------------------

  /** The sextets of four symbols, when all four are in the alphabet. */
  function ReadQuad(a: Byte, b: Byte, c: Byte, d: Byte): (r: Option<(Byte, Byte, Byte)>)
    ensures r.Some? ==> EncodeQuad(r.value.0, r.value.1, r.value.2) == [a, b, c, d]
  {
    SymbolOfSextet(a);
    SymbolOfSextet(b);
    SymbolOfSextet(c);
    SymbolOfSextet(d);
    match (Sextet(a), Sextet(b), Sextet(c), Sextet(d))
    case (Some(v), Some(w), Some(x), Some(y)) => Some(Octets((v, w, x, y)))
    case _ => None
  }

  /**
   The last four symbols: the only place for padding. A padded group reads like the group with
   zero sextets in place of the padding, and the octets past the data must then be zero.
   */
  function DecodeLast(q: seq<Byte>): Option<seq<Byte>>
    requires |q| == 4
  {
    var zero := Symbol(0);
    if q[3] != PAD then
      match ReadQuad(q[0], q[1], q[2], q[3])
      case Some(t) => Some([t.0, t.1, t.2])
      case None => None
    else if q[2] != PAD then
      match ReadQuad(q[0], q[1], q[2], zero)
      case Some(t) => if t.2 == 0 then Some([t.0, t.1]) else None
      case None => None
    else
      match ReadQuad(q[0], q[1], zero, zero)
      case Some(t) => if t.1 == 0 then Some([t.0]) else None
      case None => None
  }

  function Decode(s: seq<Byte>): Option<seq<Byte>> {
    if s == [] then Some([])
    else if |s| < 4 then None
    else if |s| == 4 then DecodeLast(s)
    else match ReadQuad(s[0], s[1], s[2], s[3])
      case None => None
      case Some(t) =>
        match Decode(s[4..])
        case None => None
        case Some(rest) => Some([t.0, t.1, t.2] + rest)
  }

  lemma ReadEncodedQuad(x: Byte, y: Byte, z: Byte)
    ensures var q := EncodeQuad(x, y, z); ReadQuad(q[0], q[1], q[2], q[3]) == Some((x, y, z))
  {
    OctetsOfSextets(x, y, z);
  }

  lemma DecodeEncodedTail(bytes: seq<Byte>)
    requires 1 <= |bytes| <= 2
    ensures DecodeLast(EncodeTail(bytes)) == Some(bytes)
  {
    var y := if |bytes| == 2 then bytes[1] else 0;
    var q := EncodeQuad(bytes[0], y, 0);
    ReadEncodedQuad(bytes[0], y, 0);
    assert q[3] == Symbol(0) && q[2] != PAD;
    if |bytes| == 1 {
      assert q[2] == Symbol(0);
      assert EncodeTail(bytes) == [q[0], q[1], PAD, PAD];
      assert bytes == [bytes[0]];
    } else {
      assert EncodeTail(bytes) == [q[0], q[1], q[2], PAD];
      assert bytes == [bytes[0], bytes[1]];
    }
  }

  lemma {:induction false} DecodeEncode(bytes: seq<Byte>)
    ensures Decode(Encode(bytes)) == Some(bytes)
  {
    if 1 <= |bytes| < 3 {
      DecodeEncodedTail(bytes);
    } else if |bytes| >= 3 {
      var q, rest := EncodeQuad(bytes[0], bytes[1], bytes[2]), Encode(bytes[3..]);
      DecodeEncode(bytes[3..]);
      DecodeEncodedQuad(bytes[0], bytes[1], bytes[2], rest, bytes[3..]);
      assert bytes == [bytes[0], bytes[1], bytes[2]] + bytes[3..];
    }
  }

  lemma DecodeEncodedQuad(x: Byte, y: Byte, z: Byte, rest: seq<Byte>, bytes: seq<Byte>)
    requires Decode(rest) == Some(bytes)
    ensures Decode(EncodeQuad(x, y, z) + rest) == Some([x, y, z] + bytes)
  {
    var q := EncodeQuad(x, y, z);
    ReadEncodedQuad(x, y, z);
    assert (q + rest)[4..] == rest;
    assert q[3] != PAD;
    if rest == [] {
      assert q + rest == q && [x, y, z] + bytes == [x, y, z];
    }
  }

  lemma EncodeDecodedLast(q: seq<Byte>)
    requires |q| == 4
    ensures DecodeLast(q).Some? ==> Encode(DecodeLast(q).value) == q
  {
    if DecodeLast(q).Some? {
      var b := DecodeLast(q).value;
      if q[3] != PAD {
        assert b[3..] == [];
        assert Encode(b) == EncodeQuad(b[0], b[1], b[2]) + [];
      } else if q[2] != PAD {
        assert EncodeQuad(b[0], b[1], 0) == [q[0], q[1], q[2], Symbol(0)];
        assert q == q[..3] + [PAD];
      } else {
        assert Octets(Sextets(b[0], 0, 0)) == (b[0], 0, 0);
        assert q == q[..2] + [PAD, PAD];
      }
    }
  }

  lemma {:induction false} EncodeDecode(s: seq<Byte>)
    ensures Decode(s).Some? ==> Encode(Decode(s).value) == s
  {
    if |s| == 4 {
      EncodeDecodedLast(s);
    } else if |s| > 4 && Decode(s).Some? {
      EncodeDecode(s[4..]);
      var t, rest := ReadQuad(s[0], s[1], s[2], s[3]).value, Decode(s[4..]).value;
      assert ([t.0, t.1, t.2] + rest)[3..] == rest;
      assert s == [s[0], s[1], s[2], s[3]] + s[4..];
    }
  }

  /** Strict decoding inverts encoding, and accepts nothing else. */
  lemma DecodeIff(s: seq<Byte>, bytes: seq<Byte>)
    ensures Decode(s) == Some(bytes) <==> s == Encode(bytes)
  {
    DecodeEncode(bytes);
    EncodeDecode(s);
  }

  // -------------------------------------------------------------------------
  // White space
  // -------------------------------------------------------------------------

  /** `u8::is_ascii_whitespace`: space, tab, LF, FF, CR (not VT). */
  predicate IsAsciiWhitespace(b: Byte) {
    b in {32, 9, 10, 12, 13}
  }

  function Strip(s: seq<Byte>): (r: seq<Byte>)
    ensures |r| <= |s|
  {
    if s == [] then []
    else
      var last := s[|s| - 1];
      Strip(s[..|s| - 1]) + if IsAsciiWhitespace(last) then [] else [last]
  }

  lemma {:induction false} StripFixpoint(s: seq<Byte>)
    requires forall b :: b in s ==> !IsAsciiWhitespace(b)
    ensures Strip(s) == s
  {
    if s != [] {
      StripFixpoint(s[..|s| - 1]);
      assert s == s[..|s| - 1] + [s[|s| - 1]];
    }
  }

  lemma {:induction false} EncodeHasNoWhitespace(bytes: seq<Byte>)
    ensures forall b :: b in Encode(bytes) ==> !IsAsciiWhitespace(b)
  {
    if |bytes| >= 3 {
      EncodeHasNoWhitespace(bytes[3..]);
    }
  }

  /** How many `=` end `s`. */
  function TrailingPads(s: seq<Byte>): (n: nat)
    ensures n <= |s|
  {
    if s == [] || s[|s| - 1] != PAD then 0 else 1 + TrailingPads(s[..|s| - 1])
  }

  lemma {:induction false} TrailingPadsSuffix(a: seq<Byte>, b: seq<Byte>)
    requires TrailingPads(b) < |b|
    ensures TrailingPads(a + b) == TrailingPads(b)
  {
    if b[|b| - 1] == PAD {
      TrailingPadsSuffix(a, b[..|b| - 1]);
      assert (a + b)[..|a + b| - 1] == a + b[..|b| - 1];
    }
  }

  lemma EncodeTailPads(bytes: seq<Byte>)
    requires 1 <= |bytes| <= 2
    ensures TrailingPads(EncodeTail(bytes)) == 3 - |bytes|
  {
    var q := EncodeTail(bytes);
    if |bytes| == 1 {
      assert q[..3][..2] == q[..2];
      assert TrailingPads(q[..2]) == 0;
      assert TrailingPads(q[..3]) == 1;
    } else {
      assert TrailingPads(q[..3]) == 0;
    }
  }

  /** The padding of a canonical encoding makes up the last group of three. */
  lemma {:induction false} EncodePads(bytes: seq<Byte>)
    ensures TrailingPads(Encode(bytes)) == (3 - |bytes| % 3) % 3
  {
    hide EncodeQuad, EncodeTail;
    if 1 <= |bytes| < 3 {
      EncodeTailPads(bytes);
    } else if |bytes| >= 3 {
      var tail := bytes[3..];
      var rest := Encode(tail);
      EncodePads(tail);
      assert |tail| % 3 == |bytes| % 3;
      assert Encode(bytes) == EncodeQuad(bytes[0], bytes[1], bytes[2]) + rest;
      EncodedQuadPads(bytes[0], bytes[1], bytes[2], rest);
    }
  }

  lemma EncodedQuadPads(x: Byte, y: Byte, z: Byte, rest: seq<Byte>)
    requires rest == [] || TrailingPads(rest) < |rest|
    ensures TrailingPads(EncodeQuad(x, y, z) + rest) == TrailingPads(rest)
  {
    var q := EncodeQuad(x, y, z);
    if rest == [] {
      assert q + rest == q;
    } else {
      TrailingPadsSuffix(q, rest);
    }
  }
}

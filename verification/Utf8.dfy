/** Reading UTF-8 back: the syntax of section 4 of RFC 3629. */
module Utf8 {
  import opened Text

  predicate IsTail(b: Byte) {
    0x80 <= b <= 0xBF
  }

  predicate Tails(bytes: seq<Byte>, count: nat) {
    |bytes| > count && forall i :: 0 < i <= count ==> IsTail(bytes[i])
  }

  /** The payload bits of a continuation byte. */
  function Low(b: Byte): int {
    b - 0x80
  }

  datatype Front = Bad | Good(scalar: Scalar, width: nat)

  function Accept(c: int, least: nat, width: nat): Front {
    if least <= c <= 0x10_FFFF && !(0xD800 <= c <= 0xDFFF) then Good(c, width) else Bad
  }

  /** The scalar value at the front of a byte string; no overlong form and no surrogate. */
  function DecodeFront(bytes: seq<Byte>): (r: Front)
    requires bytes != []
    ensures r.Good? ==> 1 <= r.width <= |bytes|
  {
    var b := bytes[0] as int;
    if b < 0x80 then Good(b, 1)
    else if b < 0xC0 then Bad
    else if b < 0xE0 && Tails(bytes, 1) then Accept((b - 0xC0) * 0x40 + Low(bytes[1]), 0x80, 2)
    else if 0xE0 <= b < 0xF0 && Tails(bytes, 2) then
      Accept((b - 0xE0) * 0x1000 + Low(bytes[1]) * 0x40 + Low(bytes[2]), 0x800, 3)
    else if 0xF0 <= b < 0xF8 && Tails(bytes, 3) then
      Accept((b - 0xF0) * 0x4_0000 + Low(bytes[1]) * 0x1000 + Low(bytes[2]) * 0x40 + Low(bytes[3]), 0x1_0000, 4)
    else Bad
  }

  /** A scalar value in UTF-16. */
  function Units(c: Scalar): Str {
    if c < 0x1_0000 then [c] else [0xD800 + (c - 0x1_0000) / 0x400, 0xDC00 + (c - 0x1_0000) % 0x400]
  }

  function Decode(bytes: seq<Byte>): Option<Str> {
    if bytes == [] then Some([])
    else
      match DecodeFront(bytes)
      case Bad => None
      case Good(c, width) =>
        match Decode(bytes[width..])
        case None => None
        case Some(rest) => Some(Units(c) + rest)
  }

  /** The string with every unpaired surrogate replaced by U+FFFD. */
  function Repaired(s: Str): Str {
    if s == [] then []
    else if StartsWithPair(s) then s[..2] + Repaired(s[2..])
    else [FirstScalar(s)] + Repaired(s[1..])
  }

  lemma DecodeScalar(c: Scalar, rest: seq<Byte>)
    ensures EncodeScalar(c) + rest != [] && DecodeFront(EncodeScalar(c) + rest) == Good(c, |EncodeScalar(c)|)
  {
    var bytes := EncodeScalar(c) + rest;
    if 0x80 <= c < 0x800 {
      assert bytes[0] == 0xC0 + c / 0x40 && bytes[1] == 0x80 + c % 0x40;
    } else if 0x800 <= c {
      DecodeLong(c, rest);
    }
  }

  lemma DecodeLong(c: Scalar, rest: seq<Byte>)
    requires 0x800 <= c
    ensures DecodeFront(EncodeScalar(c) + rest) == Good(c, |EncodeScalar(c)|)
  {
    var bytes := EncodeScalar(c) + rest;
    ThreeBytes(c);
    FourBytes(c);
    if c < 0x1_0000 {
      assert bytes[0] == 0xE0 + c / 0x1000 && bytes[1] == 0x80 + c / 0x40 % 0x40 && bytes[2] == 0x80 + c % 0x40;
    } else {
      assert bytes[0] == 0xF0 + c / 0x4_0000 && bytes[1] == 0x80 + c / 0x1000 % 0x40;
      assert bytes[2] == 0x80 + c / 0x40 % 0x40 && bytes[3] == 0x80 + c % 0x40;
    }
  }

  lemma ThreeBytes(c: nat)
    ensures c / 0x1000 * 0x1000 + c / 0x40 % 0x40 * 0x40 + c % 0x40 == c
  {
    assert c / 0x40 / 0x40 == c / 0x1000;
  }

  lemma FourBytes(c: nat)
    ensures c / 0x4_0000 * 0x4_0000 + c / 0x1000 % 0x40 * 0x1000 + c / 0x40 % 0x40 * 0x40 + c % 0x40 == c
  {
    assert c / 0x1000 / 0x40 == c / 0x4_0000;
    ThreeBytes(c);
  }

  lemma UnitsOfFirst(s: Str)
    requires s != []
    ensures Repaired(s) == Units(FirstScalar(s)) + Repaired(s[FirstUnits(s)..])
  {
    if StartsWithPair(s) {
      var high: int, low: int := s[0] - 0xD800, s[1] - 0xDC00;
      assert (high * 0x400 + low) / 0x400 == high && (high * 0x400 + low) % 0x400 == low;
      assert s[..2] == [s[0], s[1]];
    }
  }

  /** Decoding what was encoded gives the string back, unpaired surrogates apart. */
  lemma {:induction false} DecodeEncode(s: Str)
    ensures Decode(Encode(s)) == Some(Repaired(s))
  {
    if s != [] {
      var rest := s[FirstUnits(s)..];
      DecodeEncode(rest);
      var c := FirstScalar(s);
      DecodeScalar(c, Encode(rest));
      assert (EncodeScalar(c) + Encode(rest))[|EncodeScalar(c)|..] == Encode(rest);
      UnitsOfFirst(s);
    }
  }
}

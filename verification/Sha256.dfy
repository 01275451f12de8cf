/**
 SHA-256 as FIPS 180-4 defines it, and the collector's own implementation, which reads
 the padded message byte by byte without building it.
 */
module Sha256 {
  import opened Text
  import opened Words

  // --- FIPS 180-4 ---

  /** The round constants of section 4.2.2, sixteen at a time. */
  const K0: seq<Word> := [
    0x428a2f98, 0x71374491, 0xb5c0fbcf, 0xe9b5dba5, 0x3956c25b, 0x59f111f1, 0x923f82a4, 0xab1c5ed5,
    0xd807aa98, 0x12835b01, 0x243185be, 0x550c7dc3, 0x72be5d74, 0x80deb1fe, 0x9bdc06a7, 0xc19bf174]
  const K1: seq<Word> := [
    0xe49b69c1, 0xefbe4786, 0x0fc19dc6, 0x240ca1cc, 0x2de92c6f, 0x4a7484aa, 0x5cb0a9dc, 0x76f988da,
    0x983e5152, 0xa831c66d, 0xb00327c8, 0xbf597fc7, 0xc6e00bf3, 0xd5a79147, 0x06ca6351, 0x14292967]
  const K2: seq<Word> := [
    0x27b70a85, 0x2e1b2138, 0x4d2c6dfc, 0x53380d13, 0x650a7354, 0x766a0abb, 0x81c2c92e, 0x92722c85,
    0xa2bfe8a1, 0xa81a664b, 0xc24b8b70, 0xc76c51a3, 0xd192e819, 0xd6990624, 0xf40e3585, 0x106aa070]
  const K3: seq<Word> := [
    0x19a4c116, 0x1e376c08, 0x2748774c, 0x34b0bcb5, 0x391c0cb3, 0x4ed8aa4a, 0x5b9cca4f, 0x682e6ff3,
    0x748f82ee, 0x78a5636f, 0x84c87814, 0x8cc70208, 0x90befffa, 0xa4506ceb, 0xbef9a3f7, 0xc67178f2]

  const K: seq<Word> := K0 + K1 + K2 + K3

  datatype Hash = Hash(a: Word, b: Word, c: Word, d: Word, e: Word, f: Word, g: Word, h: Word)

  /** The initial hash value of section 5.3.3. */
  const INITIAL := Hash(0x6a09e667, 0xbb67ae85, 0x3c6ef372, 0xa54ff53a, 0x510e527f, 0x9b05688c, 0x1f83d9ab, 0x5be0cd19)

  /** The functions of section 4.1.2. */
  function Ch(x: Word, y: Word, z: Word): Word {
    Xor(And(x, y), And(Not(x), z))
  }

  function Maj(x: Word, y: Word, z: Word): Word {
    Xor(Xor(And(x, y), And(x, z)), And(y, z))
  }

  function BigSigma0(x: Word): Word {
    Xor(Xor(Rotr(2, x), Rotr(13, x)), Rotr(22, x))
  }

  function BigSigma1(x: Word): Word {
    Xor(Xor(Rotr(6, x), Rotr(11, x)), Rotr(25, x))
  }

  function SmallSigma0(x: Word): Word {
    Xor(Xor(Rotr(7, x), Rotr(18, x)), Shr(3, x))
  }

  function SmallSigma1(x: Word): Word {
    Xor(Xor(Rotr(17, x), Rotr(19, x)), Shr(10, x))
  }

  /** The `width` low bytes of a number, most significant first. */
  function BigEndian(n: nat, width: nat): (r: seq<Byte>)
    ensures |r| == width
  {
    if width == 0 then [] else BigEndian(n / 256, width - 1) + [n % 256]
  }

  /** Section 5.1.1, in bytes: the number of zero bytes after the 0x80 byte. */
  function ZeroBytes(length: nat): nat {
    (119 - length % 64) % 64
  }

  /** It leaves eight bytes of the last block for the length. */
  lemma ZeroBytesFit(length: nat)
    ensures (length + 1 + ZeroBytes(length) + 8) % 64 == 0
  {
    var r := length % 64;
    assert length == 64 * (length / 64) + r;
    assert ZeroBytes(length) == if r <= 55 then 55 - r else 119 - r;
  }

  /** It is the least number that does. */
  lemma ZeroBytesLeast(length: nat, k: nat)
    requires (length + 1 + k + 8) % 64 == 0
    ensures ZeroBytes(length) <= k
  {
    var r := length % 64;
    assert length == 64 * (length / 64) + r;
    assert ZeroBytes(length) == if r <= 55 then 55 - r else 119 - r;
    assert (r + 1 + k + 8) % 64 == 0;
  }

  function Zeros(n: nat): seq<Byte> {
    seq(n, _ => 0)
  }

  function Padded(message: seq<Byte>): (r: seq<Byte>)
    ensures |r| % 64 == 0 && |r| >= |message| + 9
  {
    ZeroBytesFit(|message|);
    message + [0x80] + Zeros(ZeroBytes(|message|)) + BigEndian(8 * |message|, 8)
  }

  /** A block of 64 bytes. */
  type Block = b: seq<Byte> | |b| == 64 witness seq(64, _ => 0)

  function FromBytes(b0: int, b1: int, b2: int, b3: int): Word
    requires 0 <= b0 < 256 && 0 <= b1 < 256 && 0 <= b2 < 256 && 0 <= b3 < 256
  {
    b0 * 0x100_0000 + b1 * 0x1_0000 + b2 * 0x100 + b3
  }

  function WordAt(block: Block, t: nat): Word
    requires t < 16
  {
    FromBytes(block[4 * t], block[4 * t + 1], block[4 * t + 2], block[4 * t + 3])
  }

  /** The message schedule of section 6.2.2, step 1. */
  function Schedule(block: Block, t: nat): Word
    requires t < 64
    decreases t
  {
    if t < 16 then WordAt(block, t)
    else (SmallSigma1(Schedule(block, t - 2)) + Schedule(block, t - 7)
          + SmallSigma0(Schedule(block, t - 15)) + Schedule(block, t - 16)) % MODULUS
  }

  /** One round of step 3. */
  function Round(s: Hash, k: Word, w: Word): Hash {
    var t1 := (s.h + BigSigma1(s.e) + Ch(s.e, s.f, s.g) + k + w) % MODULUS;
    var t2 := Plus(BigSigma0(s.a), Maj(s.a, s.b, s.c));
    Hash(Plus(t1, t2), s.a, s.b, s.c, Plus(s.d, t1), s.e, s.f, s.g)
  }

  function Rounds(block: Block, s: Hash, t: nat): Hash
    requires t <= 64
  {
    if t == 0 then s else Round(Rounds(block, s, t - 1), K[t - 1], Schedule(block, t - 1))
  }

  /** Step 4. */
  function AddHash(s: Hash, r: Hash): Hash {
    Hash(Plus(s.a, r.a), Plus(s.b, r.b), Plus(s.c, r.c), Plus(s.d, r.d),
         Plus(s.e, r.e), Plus(s.f, r.f), Plus(s.g, r.g), Plus(s.h, r.h))
  }

  function BlockAt(padded: seq<Byte>, i: nat): Block
    requires 64 * i + 64 <= |padded|
  {
    padded[64 * i..64 * i + 64]
  }

  /** The hash value after `i` blocks. */
  function HashValue(padded: seq<Byte>, i: nat): Hash
    requires 64 * i <= |padded|
  {
    if i == 0 then INITIAL
    else
      var s := HashValue(padded, i - 1);
      AddHash(s, Rounds(BlockAt(padded, i - 1), s, 64))
  }

  function HashBytes(s: Hash): seq<Byte> {
    BigEndian(s.a, 4) + BigEndian(s.b, 4) + BigEndian(s.c, 4) + BigEndian(s.d, 4)
    + BigEndian(s.e, 4) + BigEndian(s.f, 4) + BigEndian(s.g, 4) + BigEndian(s.h, 4)
  }

  function Digest(message: seq<Byte>): seq<Byte> {
    var padded := Padded(message);
    HashBytes(HashValue(padded, |padded| / 64))
  }

  // --- Hexadecimal ---

  function Hex(bytes: seq<Byte>): Str {
    if bytes == [] then []
    else
      var last := bytes[|bytes| - 1];
      Hex(bytes[..|bytes| - 1]) + [HexDigit(last / 16), HexDigit(last % 16)]
  }

  lemma {:induction false} HexConcat(a: seq<Byte>, b: seq<Byte>)
    ensures Hex(a + b) == Hex(a) + Hex(b)
    decreases |b|
  {
    if b == [] {
      assert a + b == a && Hex(a) + [] == Hex(a);
    } else {
      var front := b[..|b| - 1];
      assert (a + b)[..|a + b| - 1] == a + front;
      HexConcat(a, front);
      ConcatAssociates(Hex(a), Hex(front), [HexDigit(b[|b| - 1] / 16), HexDigit(b[|b| - 1] % 16)]);
    }
  }

  /** The digits of a number's low `4 * width` bits, most significant first. */
  function HexDigits(n: nat, width: nat): Str {
    if width == 0 then [] else HexDigits(n / 16, width - 1) + [HexDigit(n % 16)]
  }

  lemma {:induction false} HexOfBigEndian(n: nat, width: nat)
    ensures HexDigits(n, 2 * width) == Hex(BigEndian(n, width))
  {
    if width > 0 {
      HexOfBigEndian(n / 256, width - 1);
      var bytes := BigEndian(n, width);
      assert bytes[..|bytes| - 1] == BigEndian(n / 256, width - 1);
      assert n / 16 / 16 == n / 256 && (n % 256) / 16 == n / 16 % 16 && (n % 256) % 16 == n % 16;
      assert HexDigits(n, 2 * width) == HexDigits(n / 16, 2 * width - 1) + [HexDigit(n % 16)];
      assert HexDigits(n / 16, 2 * width - 1) == HexDigits(n / 16 / 16, 2 * width - 2) + [HexDigit(n / 16 % 16)];
    }
  }

  lemma AndStep(n: nat, mask: nat, width: nat)
    requires mask % 2 == 1
    ensures BitAnd(n, mask, width + 1) == n % 2 + 2 * BitAnd(n / 2, mask / 2, width)
  {
  }

  lemma AndFifteen(n: nat)
    ensures BitAnd(n, 0xf, 32) == n % 16
  {
    hide BitAnd;
    AndStep(n, 15, 31);
    AndStep(n / 2, 7, 30);
    AndStep(n / 2 / 2, 3, 29);
    AndStep(n / 2 / 2 / 2, 1, 28);
    AndZero(n / 2 / 2 / 2 / 2, 28);
    assert n == 2 * (n / 2) + n % 2;
  }

  lemma NextNibble(n: Word)
    ensures JsShiftRight(n, 4) == n / 16
  {
    assert Pow2(4) == 16;
  }

  lemma LowNibble(n: Word)
    ensures JsAnd(n, 0xf) == n % 16
  {
    hide BitAnd, Pow2;
    AndFifteen(n);
  }

  method Hexadecimal(value: int, width: nat) returns (encoded: Str)
    ensures encoded == HexDigits(ToUint32(value), width)
  {
    encoded := [];
    hide JsAnd, JsShiftRight;
    var remaining: Word := ToUint32(value);
    for index := 0 to width
      invariant HexDigits(remaining, width - index) + encoded == HexDigits(ToUint32(value), width)
    {
      LowNibble(remaining);
      NextNibble(remaining);
      ConcatAssociates(HexDigits(remaining / 16, width - index - 1), [HexDigit(remaining % 16)], encoded);
      encoded := [HexDigit(JsAnd(remaining, 0xf))] + encoded;
      remaining := JsShiftRight(remaining, 4);
    }
  }

  // --- The collector's implementation ---

  /** The two halves of the length field: the bit length, whatever the byte length. */
  lemma LengthSplits(byteLength: nat)
    requires byteLength <= MAX_SAFE_INTEGER
    ensures
      var high, low := byteLength / 0x2000_0000, ToUint32(byteLength * 8);
      high < MODULUS && high * MODULUS + low == 8 * byteLength
  {
    var high, rest := byteLength / 0x2000_0000, byteLength % 0x2000_0000;
    assert byteLength * 8 == high * MODULUS + rest * 8;
  }

  lemma BigEndianStep(n: nat, width: nat)
    ensures BigEndian(n, width + 1) == BigEndian(n / 256, width) + [n % 256]
  {
  }

  lemma BigEndianWord(n: Word)
    ensures BigEndian(n, 4) == [n / 0x100_0000 % 256, n / 0x1_0000 % 256, n / 0x100 % 256, n % 256]
  {
    hide BigEndian;
    BigEndianStep(n, 3);
    BigEndianStep(n / 256, 2);
    BigEndianStep(n / 256 / 256, 1);
    BigEndianStep(n / 256 / 256 / 256, 0);
    assert n / 256 / 256 == n / 0x1_0000 && n / 256 / 256 / 256 == n / 0x100_0000;
  }

  lemma Peel(x: nat, low: nat, width: nat)
    ensures BigEndian(256 * x + low, width + 1) == BigEndian(x + low / 256, width) + [low % 256]
  {
    BigEndianStep(256 * x + low, width);
    assert (256 * x + low) / 256 == x + low / 256 && (256 * x + low) % 256 == low % 256;
  }

  lemma BigEndianHalves(high: nat, low: Word)
    ensures BigEndian(high * MODULUS + low, 8) == BigEndian(high, 4) + BigEndian(low, 4)
  {
    hide BigEndian;
    Peel(high * 0x100_0000, low, 7);
    Peel(high * 0x1_0000, low / 256, 6);
    Peel(high * 0x100, low / 256 / 256, 5);
    Peel(high, low / 256 / 256 / 256, 4);
    Peel(0, low, 3);
    Peel(0, low / 256, 2);
    Peel(0, low / 256 / 256, 1);
    Peel(0, low / 256 / 256 / 256, 0);
    assert low / 256 / 256 / 256 / 256 == 0;
    NoBytes(0);
    var t0, t1, t2, t3: seq<Byte> := [low / 256 / 256 / 256 % 256], [low / 256 / 256 % 256], [low / 256 % 256], [low % 256];
    assert BigEndian(low, 4) == t0 + t1 + t2 + t3;
    assert BigEndian(high, 4) + t0 + t1 + t2 + t3 == BigEndian(high, 4) + (t0 + t1 + t2 + t3);
  }

  lemma NoBytes(n: nat)
    ensures BigEndian(n, 0) == []
  {
  }

  lemma ShiftBytes(n: Word)
    ensures JsShiftRight(n, 24) == n / 0x100_0000 && JsShiftRight(n, 16) == n / 0x1_0000
    ensures JsShiftRight(n, 8) == n / 0x100
  {
    assert Pow2(8) == 0x100;
    assert Pow2(16) == 0x1_0000 by {
      assert Pow2(12) == 0x1000;
    }
    assert Pow2(24) == 0x100_0000 by {
      assert Pow2(20) == 0x10_0000;
    }
  }

  /** The length field, a byte array: stores keep the low eight bits. */
  method LengthField(byteLength: nat) returns (lengthBytes: array<Byte>)
    requires byteLength <= MAX_SAFE_INTEGER
    ensures fresh(lengthBytes) && lengthBytes.Length == 8
    ensures lengthBytes[..] == BigEndian(8 * byteLength, 8)
  {
    hide BigEndian, JsShiftRight;
    lengthBytes := new Byte[8];
    var bitLengthHigh := byteLength / 0x2000_0000;
    var bitLengthLow := ToUint32(byteLength * 8);
    LengthSplits(byteLength);
    ShiftBytes(bitLengthHigh);
    ShiftBytes(bitLengthLow);
    lengthBytes[0] := JsShiftRight(bitLengthHigh, 24) % 256;
    lengthBytes[1] := JsShiftRight(bitLengthHigh, 16) % 256;
    lengthBytes[2] := JsShiftRight(bitLengthHigh, 8) % 256;
    lengthBytes[3] := bitLengthHigh % 256;
    lengthBytes[4] := JsShiftRight(bitLengthLow, 24) % 256;
    lengthBytes[5] := JsShiftRight(bitLengthLow, 16) % 256;
    lengthBytes[6] := JsShiftRight(bitLengthLow, 8) % 256;
    lengthBytes[7] := bitLengthLow % 256;
    BigEndianWord(bitLengthHigh);
    BigEndianWord(bitLengthLow);
    BigEndianHalves(bitLengthHigh, bitLengthLow);
    assert lengthBytes[..] == BigEndian(bitLengthHigh, 4) + BigEndian(bitLengthLow, 4);
  }

  /** The byte at a position of the padded message. */
  function PaddedByte(bytes: seq<Byte>, lengthBytes: seq<Byte>, paddedBytes: nat, position: nat): Byte
    requires |lengthBytes| == 8 && position < paddedBytes && 8 <= paddedBytes
  {
    if position < |bytes| then bytes[position]
    else if position == |bytes| then 0x80
    else if position >= paddedBytes - 8 then lengthBytes[position - (paddedBytes - 8)]
    else 0
  }

  lemma PaddedLength(bytes: seq<Byte>)
    ensures ((|bytes| + 9 + 63) / 64) * 64 == |Padded(bytes)|
  {
    var n, q, r := |bytes|, |bytes| / 64, |bytes| % 64;
    assert n == 64 * q + r;
    assert ZeroBytes(n) == if r <= 55 then 55 - r else 119 - r;
    assert |Padded(bytes)| == n + 1 + ZeroBytes(n) + 8;
    assert (n + 9 + 63) / 64 == if r <= 55 then q + 1 else q + 2;
  }

  lemma PaddedByteAgrees(bytes: seq<Byte>, position: nat)
    requires position < |Padded(bytes)|
    ensures PaddedByte(bytes, BigEndian(8 * |bytes|, 8), |Padded(bytes)|, position) == Padded(bytes)[position]
  {
    hide BigEndian, ZeroBytes;
  }

  /** `value << 8 | byte` appends a byte to a number of at most three. */
  lemma AppendByte(value: int, byte: Byte)
    requires ToUint32(value) < 0x100_0000
    ensures ToUint32(JsOr(JsShiftLeft(value, 8), byte)) == ToUint32(value) * 256 + byte
  {
    hide BitOr, Pow2;
    Pow2Of32();
    var u := ToUint32(value);
    OrIsOr(JsShiftLeft(value, 8), byte);
    SameWord(u * Pow2(8));
    assert u * Pow2(8) == u * 256;
    OrOfDisjointAdds(u, 8, byte, 32);
  }

  lemma XorOfThree(a: int, b: int, c: int)
    ensures ToUint32(JsXor(JsXor(a, b), c)) == Xor(Xor(ToUint32(a), ToUint32(b)), ToUint32(c))
  {
    hide Xor, JsXor;
    XorIsXor(a, b);
    XorIsXor(JsXor(a, b), c);
  }

  function Before15(x: Word): int {
    JsXor(JsXor(RotateRight(x, 7), RotateRight(x, 18)), JsShiftRight(x, 3))
  }

  function Before2(x: Word): int {
    JsXor(JsXor(RotateRight(x, 17), RotateRight(x, 19)), JsShiftRight(x, 10))
  }

  function Upper(e: Word): int {
    JsXor(JsXor(RotateRight(e, 6), RotateRight(e, 11)), RotateRight(e, 25))
  }

  function Lower(a: Word): int {
    JsXor(JsXor(RotateRight(a, 2), RotateRight(a, 13)), RotateRight(a, 22))
  }

  function Choice(e: Word, f: Word, g: Word): int {
    JsXor(JsAnd(e, f), JsAnd(JsNot(e), g))
  }

  function Majority(a: Word, b: Word, c: Word): int {
    JsXor(JsXor(JsAnd(a, b), JsAnd(a, c)), JsAnd(b, c))
  }

  lemma SmallSigmas(x: Word)
    ensures ToUint32(Before15(x)) == SmallSigma0(x) && ToUint32(Before2(x)) == SmallSigma1(x)
  {
    hide Xor, JsXor, RotateRight, Rotr, JsShiftRight, Shr;
    XorOfThree(RotateRight(x, 7), RotateRight(x, 18), JsShiftRight(x, 3));
    XorOfThree(RotateRight(x, 17), RotateRight(x, 19), JsShiftRight(x, 10));
    RotateRightIsRotr(x, 7);
    RotateRightIsRotr(x, 18);
    RotateRightIsRotr(x, 17);
    RotateRightIsRotr(x, 19);
    ShiftRightIsShr(x, 3);
    ShiftRightIsShr(x, 10);
  }

  lemma BigSigmas(x: Word)
    ensures ToUint32(Lower(x)) == BigSigma0(x) && ToUint32(Upper(x)) == BigSigma1(x)
  {
    hide Xor, JsXor, RotateRight, Rotr;
    XorOfThree(RotateRight(x, 6), RotateRight(x, 11), RotateRight(x, 25));
    XorOfThree(RotateRight(x, 2), RotateRight(x, 13), RotateRight(x, 22));
    RotateRightIsRotr(x, 6);
    RotateRightIsRotr(x, 11);
    RotateRightIsRotr(x, 25);
    RotateRightIsRotr(x, 2);
    RotateRightIsRotr(x, 13);
    RotateRightIsRotr(x, 22);
  }

  lemma ChoiceIsCh(x: Word, y: Word, z: Word)
    ensures ToUint32(Choice(x, y, z)) == Ch(x, y, z)
  {
    hide Xor, JsXor, And, JsAnd, JsNot, Not;
    XorIsXor(JsAnd(x, y), JsAnd(JsNot(x), z));
    AndIsAnd(x, y);
    AndIsAnd(JsNot(x), z);
    NotIsNot(x);
  }

  lemma MajorityIsMaj(x: Word, y: Word, z: Word)
    ensures ToUint32(Majority(x, y, z)) == Maj(x, y, z)
  {
    hide Xor, JsXor, And, JsAnd;
    XorOfThree(JsAnd(x, y), JsAnd(x, z), JsAnd(y, z));
    AndIsAnd(x, y);
    AndIsAnd(x, z);
    AndIsAnd(y, z);
  }

  lemma ScheduleStep(block: Block, t: nat)
    requires 16 <= t < 64
    ensures ToUint32(Schedule(block, t - 16) + Before15(Schedule(block, t - 15)) + Schedule(block, t - 7)
                     + Before2(Schedule(block, t - 2))) == Schedule(block, t)
  {
    hide Before15, Before2, SmallSigma0, SmallSigma1;
    var w15, w2 := Schedule(block, t - 15), Schedule(block, t - 2);
    SmallSigmas(w15);
    SmallSigmas(w2);
    SumOfThree(Schedule(block, t - 16) + Schedule(block, t - 7), Before15(w15), Before2(w2));
  }

  /** The schedule of the block that starts at `block`, read from the unpadded message. */
  method FillWords(bytes: seq<Byte>, lengthBytes: array<Byte>, paddedBytes: nat, block: nat, words: array<Word>)
    requires lengthBytes.Length == 8 && lengthBytes[..] == BigEndian(8 * |bytes|, 8) && words.Length == 64
    requires paddedBytes == |Padded(bytes)| && block % 64 == 0 && block + 64 <= paddedBytes
    modifies words
    ensures forall t :: 0 <= t < 64 ==> words[t] == Schedule(BlockAt(Padded(bytes), block / 64), t)
  {
    hide Padded, BigEndian, Schedule, BlockAt;
    ghost var data := BlockAt(Padded(bytes), block / 64);
    for word := 0 to 16
      invariant forall t :: 0 <= t < word ==> words[t] == Schedule(data, t)
    {
      var value := ReadWord(bytes, lengthBytes, paddedBytes, block, word);
      FirstWords(data, word);
      words[word] := ToUint32(value);
    }
    ExtendWords(words, data);
  }

  lemma FirstWords(block: Block, t: nat)
    requires t < 16
    ensures Schedule(block, t) == WordAt(block, t)
  {
  }

  method ExtendWords(words: array<Word>, ghost data: Block)
    requires words.Length == 64 && forall t :: 0 <= t < 16 ==> words[t] == Schedule(data, t)
    modifies words
    ensures forall t :: 0 <= t < 64 ==> words[t] == Schedule(data, t)
  {
    hide Schedule, Before15, Before2;
    for word := 16 to 64
      invariant forall t :: 0 <= t < word ==> words[t] == Schedule(data, t)
    {
      ScheduleStep(data, word);
      words[word] := ToUint32(words[word - 16] + Before15(words[word - 15]) + words[word - 7] + Before2(words[word - 2]));
    }
  }

  method ReadWord(bytes: seq<Byte>, lengthBytes: array<Byte>, paddedBytes: nat, block: nat, word: nat) returns (value: int)
    requires lengthBytes.Length == 8 && lengthBytes[..] == BigEndian(8 * |bytes|, 8) && word < 16
    requires paddedBytes == |Padded(bytes)| && block % 64 == 0 && block + 64 <= paddedBytes
    ensures ToUint32(value) == WordAt(BlockAt(Padded(bytes), block / 64), word)
  {
    hide Padded, BigEndian, JsOr, JsShiftLeft, PaddedByte;
    value := 0;
    ghost var data := BlockAt(Padded(bytes), block / 64);
    for offset := 0 to 4
      invariant ToUint32(value) == Partial(data, word, offset)
    {
      var position := block + word * 4 + offset;
      PaddedByteAgrees(bytes, position);
      var byte := PaddedByte(bytes, lengthBytes[..], paddedBytes, position);
      AppendByte(value, byte);
      value := JsOr(JsShiftLeft(value, 8), byte);
    }
  }

  /** The number made of the first bytes of a word. */
  ghost function Partial(block: Block, t: nat, count: nat): (r: nat)
    requires t < 16 && count <= 4
    ensures count < 4 ==> r < 0x100_0000
    ensures count == 4 ==> r == WordAt(block, t)
  {
    var b0, b1, b2, b3 := block[4 * t] as int, block[4 * t + 1] as int, block[4 * t + 2] as int, block[4 * t + 3] as int;
    if count == 0 then 0
    else if count == 1 then b0
    else if count == 2 then b0 * 256 + b1
    else if count == 3 then (b0 * 256 + b1) * 256 + b2
    else ((b0 * 256 + b1) * 256 + b2) * 256 + b3
  }

  lemma FirstTerm(s: Hash, k: Word, w: Word)
    ensures ToUint32(s.h + Upper(s.e) + Choice(s.e, s.f, s.g) + k + w)
         == (s.h + BigSigma1(s.e) + Ch(s.e, s.f, s.g) + k + w) % MODULUS
  {
    hide Upper, Lower, Choice, BigSigma0, BigSigma1, Ch;
    BigSigmas(s.e);
    ChoiceIsCh(s.e, s.f, s.g);
    SumOfWords(Upper(s.e), Choice(s.e, s.f, s.g));
    SumOfThree(s.h + k + w, Upper(s.e), Choice(s.e, s.f, s.g));
  }

  lemma SumOfThree(a: int, b: int, c: int)
    ensures ToUint32(a + b + c) == (a + ToUint32(b) + ToUint32(c)) % MODULUS
  {
  }

  lemma SecondTerm(s: Hash)
    ensures ToUint32(Lower(s.a) + Majority(s.a, s.b, s.c)) == Plus(BigSigma0(s.a), Maj(s.a, s.b, s.c))
  {
    hide Upper, Lower, Majority, BigSigma0, BigSigma1, Maj;
    BigSigmas(s.a);
    MajorityIsMaj(s.a, s.b, s.c);
    SumOfWords(Lower(s.a), Majority(s.a, s.b, s.c));
  }

  lemma RoundStep(s: Hash, k: Word, w: Word)
    ensures
      var first := ToUint32(s.h + Upper(s.e) + Choice(s.e, s.f, s.g) + k + w);
      var second := ToUint32(Lower(s.a) + Majority(s.a, s.b, s.c));
      Round(s, k, w) == Hash(ToUint32(first + second), s.a, s.b, s.c, ToUint32(s.d + first), s.e, s.f, s.g)
  {
    hide Upper, Lower, Choice, Majority, BigSigma0, BigSigma1, Ch, Maj;
    FirstTerm(s, k, w);
    SecondTerm(s);
  }

  lemma AddHashSums(s: Hash, r: Hash)
    ensures AddHash(s, r) == Hash(ToUint32(s.a + r.a), ToUint32(s.b + r.b), ToUint32(s.c + r.c), ToUint32(s.d + r.d),
                                  ToUint32(s.e + r.e), ToUint32(s.f + r.f), ToUint32(s.g + r.g), ToUint32(s.h + r.h))
  {
  }

  /** The 64 rounds and the final addition for one block. */
  method Compress(words: array<Word>, state: Hash, ghost block: Block) returns (next: Hash)
    requires words.Length == 64 && forall t :: 0 <= t < 64 ==> words[t] == Schedule(block, t)
    ensures next == AddHash(state, Rounds(block, state, 64))
  {
    hide Upper, Lower, Choice, Majority, Round, Schedule, ToUint32, AddHash;
    var a: Word, b: Word, c: Word, d: Word := state.a, state.b, state.c, state.d;
    var e: Word, f: Word, g: Word, h: Word := state.e, state.f, state.g, state.h;
    for round := 0 to 64
      invariant Hash(a, b, c, d, e, f, g, h) == Rounds(block, state, round)
    {
      RoundStep(Hash(a, b, c, d, e, f, g, h), K[round], words[round]);
      var first: int := ToUint32(h + Upper(e) + Choice(e, f, g) + K[round] + words[round]);
      var second: int := ToUint32(Lower(a) + Majority(a, b, c));
      h := g;
      g := f;
      f := e;
      e := ToUint32(d + first);
      d := c;
      c := b;
      b := a;
      a := ToUint32(first + second);
    }
    AddHashSums(state, Hash(a, b, c, d, e, f, g, h));
    next := Hash(ToUint32(state.a + a), ToUint32(state.b + b), ToUint32(state.c + c), ToUint32(state.d + d),
                 ToUint32(state.e + e), ToUint32(state.f + f), ToUint32(state.g + g), ToUint32(state.h + h));
  }

  /** The lower-case hexadecimal SHA-256 digest, for every message. */
  method Sha256Fallback(bytes: seq<Byte>) returns (digest: Str)
    requires |bytes| <= MAX_SAFE_INTEGER
    ensures digest == Hex(Digest(bytes))
  {
    hide Padded, BigEndian, Hex, HexDigits, Rounds, AddHash;
    var words := new Word[64];
    var byteLength := |bytes|;
    var paddedBytes := ((byteLength + 9 + 63) / 64) * 64;
    PaddedLength(bytes);
    var lengthBytes := LengthField(byteLength);
    var state := INITIAL;
    var block := 0;
    while block < paddedBytes
      invariant block % 64 == 0 && block <= paddedBytes
      invariant lengthBytes[..] == BigEndian(8 * |bytes|, 8)
      invariant state == HashValue(Padded(bytes), block / 64)
    {
      FillWords(bytes, lengthBytes, paddedBytes, block, words);
      state := Compress(words, state, BlockAt(Padded(bytes), block / 64));
      block := block + 64;
    }
    digest := HexStates(state);
  }

  lemma HexWord(w: Word)
    ensures HexDigits(w, 8) == Hex(BigEndian(w, 4))
  {
    HexOfBigEndian(w, 4);
  }

  method HexStates(s: Hash) returns (digest: Str)
    ensures digest == Hex(HashBytes(s))
  {
    hide BigEndian, HexDigits, Hex;
    NoHex();
    digest := [];
    var states := [s.a, s.b, s.c, s.d, s.e, s.f, s.g, s.h];
    for index := 0 to |states|
      invariant digest == Hex(StateBytes(states, index))
    {
      var word := Hexadecimal(states[index], 8);
      digest := digest + word;
      HexWord(states[index]);
      HexConcat(StateBytes(states, index), BigEndian(states[index], 4));
    }
    AllStates(s);
  }

  lemma NoHex()
    ensures Hex([]) == []
  {
  }

  ghost function StateBytes(states: seq<Word>, count: nat): seq<Byte>
    requires count <= |states|
  {
    if count == 0 then [] else StateBytes(states, count - 1) + BigEndian(states[count - 1], 4)
  }

  lemma AllStates(s: Hash)
    ensures StateBytes([s.a, s.b, s.c, s.d, s.e, s.f, s.g, s.h], 8) == HashBytes(s)
  {
    hide BigEndian;
    var states := [s.a, s.b, s.c, s.d, s.e, s.f, s.g, s.h];
    var a, b := BigEndian(s.a, 4), BigEndian(s.b, 4);
    assert StateBytes(states, 1) == a;
    assert StateBytes(states, 2) == a + b;
    assert StateBytes(states, 4) == a + b + BigEndian(s.c, 4) + BigEndian(s.d, 4);
    assert StateBytes(states, 6) == StateBytes(states, 4) + BigEndian(s.e, 4) + BigEndian(s.f, 4);
  }
}

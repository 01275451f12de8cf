/**
 The chunk checksum: a bit-by-bit CRC-32, linear in the message and without a kernel
 shorter than five bytes.
 */
module Crc32 {
  import opened Text
  import opened Words

  const POLYNOMIAL: Word := 0xedb88320

  /** One bit step. */
  function Step(x: Word): Word {
    Xor(x / 2, if x % 2 == 1 then POLYNOMIAL else 0)
  }

  function Steps(x: Word, n: nat): Word {
    if n == 0 then x else Step(Steps(x, n - 1))
  }

  function FeedByte(x: Word, byte: Byte): Word {
    Steps(Xor(x, byte), 8)
  }

  function Feed(x: Word, bytes: seq<Byte>): Word {
    if bytes == [] then x else FeedByte(Feed(x, bytes[..|bytes| - 1]), bytes[|bytes| - 1])
  }

  function Checksum(bytes: seq<Byte>): Word {
    Xor(Feed(0xffffffff, bytes), 0xffffffff)
  }

  // --- Exclusive or ---

  lemma {:induction false} BitXorAssociates(a: nat, b: nat, c: nat, width: nat)
    ensures BitXor(BitXor(a, b, width), c, width) == BitXor(a, BitXor(b, c, width), width)
  {
    if width > 0 {
      BitXorAssociates(a / 2, b / 2, c / 2, width - 1);
      assert BitXor(a, b, width) / 2 == BitXor(a / 2, b / 2, width - 1);
      assert BitXor(b, c, width) / 2 == BitXor(b / 2, c / 2, width - 1);
    }
  }

  lemma {:induction false} BitXorLaws(a: nat, b: nat, width: nat)
    ensures BitXor(a, b, width) == BitXor(b, a, width)
    ensures BitXor(a, a, width) == 0
    ensures a < Pow2(width) ==> BitXor(a, 0, width) == a
  {
    if width > 0 {
      BitXorLaws(a / 2, b / 2, width - 1);
    }
  }

  lemma XorLaws(a: Word, b: Word, c: Word)
    ensures Xor(a, b) == Xor(b, a) && Xor(Xor(a, b), c) == Xor(a, Xor(b, c)) && Xor(a, a) == 0 && Xor(a, 0) == a
  {
    hide BitXor, Pow2;
    Pow2Of32();
    BitXorLaws(a, b, 32);
    BitXorAssociates(a, b, c, 32);
  }

  lemma XorCancels(a: Word, b: Word)
    ensures Xor(Xor(a, b), b) == a
    ensures Xor(a, b) == 0 ==> a == b
  {
    hide Xor;
    XorLaws(a, b, b);
    XorLaws(b, 0, 0);
    XorLaws(a, 0, 0);
    XorLaws(0, b, b);
  }

  /** Regroup a sum of four terms. */
  lemma XorSwap(a: Word, b: Word, c: Word, d: Word)
    ensures Xor(Xor(a, b), Xor(c, d)) == Xor(Xor(a, c), Xor(b, d))
  {
    hide Xor;
    XorLaws(a, b, Xor(c, d));
    XorLaws(b, c, d);
    XorLaws(c, b, d);
    XorLaws(a, c, Xor(b, d));
  }

  lemma XorHalves(a: Word, b: Word)
    ensures Xor(a, b) / 2 == Xor(a / 2, b / 2)
    ensures Xor(a, b) % 2 == if a % 2 != b % 2 then 1 else 0
  {
    Pow2Of32();
    assert Pow2(31) == 0x8000_0000;
    BitXorWider(a / 2, b / 2, 31);
  }

  lemma {:induction false} BitXorWider(a: nat, b: nat, width: nat)
    requires a < Pow2(width) && b < Pow2(width)
    ensures BitXor(a, b, width + 1) == BitXor(a, b, width)
  {
    if width > 0 {
      BitXorWider(a / 2, b / 2, width - 1);
    } else {
      assert a == b == 0;
    }
  }

  // --- The step is linear and has no kernel ---

  lemma StepLinear(x: Word, y: Word)
    ensures Step(Xor(x, y)) == Xor(Step(x), Step(y))
  {
    hide Xor;
    XorHalves(x, y);
    var p := if x % 2 == 1 then POLYNOMIAL else 0;
    var q := if y % 2 == 1 then POLYNOMIAL else 0;
    XorSwap(x / 2, p, y / 2, q);
    XorLaws(p, q, 0);
    XorLaws(q, p, 0);
  }

  lemma {:induction false} StepsLinear(x: Word, y: Word, n: nat)
    ensures Steps(Xor(x, y), n) == Xor(Steps(x, n), Steps(y, n))
  {
    hide Xor, Step;
    if n > 0 {
      StepsLinear(x, y, n - 1);
      StepLinear(Steps(x, n - 1), Steps(y, n - 1));
    }
  }

  /** The polynomial's top bit tells an odd state from an even one afterwards. */
  lemma StepKernel(x: Word)
    requires Step(x) == 0
    ensures x == 0
  {
    hide Xor;
    XorCancels(x / 2, if x % 2 == 1 then POLYNOMIAL else 0);
  }

  lemma {:induction false} StepsKernel(x: Word, n: nat)
    requires Steps(x, n) == 0
    ensures x == 0
  {
    hide Step;
    if n > 0 {
      StepKernel(Steps(x, n - 1));
      StepsKernel(x, n - 1);
    }
  }

  lemma StepsInjective(x: Word, y: Word, n: nat)
    requires Steps(x, n) == Steps(y, n)
    ensures x == y
  {
    hide Xor, Step, Steps;
    StepsLinear(x, y, n);
    XorLaws(Steps(x, n), 0, 0);
    StepsKernel(Xor(x, y), n);
    XorCancels(x, y);
  }

  /** Even states shift down. */
  lemma StepOfEven(v: Word)
    requires 2 * v < MODULUS
    ensures Step(2 * v) == v
  {
    hide Xor;
    XorLaws(v, 0, 0);
  }

  lemma ShiftByteOut(v: nat)
    requires v < 0x100_0000
    ensures Steps(256 * v, 8) == v
  {
    hide Step;
    StepOfEven(128 * v);
    StepOfEven(64 * v);
    StepOfEven(32 * v);
    StepOfEven(16 * v);
    StepOfEven(8 * v);
    StepOfEven(4 * v);
    StepOfEven(2 * v);
    StepOfEven(v);
    assert Steps(256 * v, 0) == 256 * v;
    assert Steps(256 * v, 1) == 128 * v;
    assert Steps(256 * v, 2) == 64 * v;
    assert Steps(256 * v, 4) == 16 * v;
    assert Steps(256 * v, 6) == 4 * v;
  }

  // --- The register is linear in the message ---

  function XorBytes(a: seq<Byte>, b: seq<Byte>): (d: seq<Byte>)
    requires |a| == |b|
    ensures |d| == |a| && forall i :: 0 <= i < |d| ==> d[i] == Xor(a[i], b[i])
  {
    SmallXors();
    seq(|a|, i requires 0 <= i < |a| => Xor(a[i], b[i]) as int)
  }

  lemma SmallXors()
    ensures forall a: Byte, b: Byte :: Xor(a, b) < 256
  {
    forall a: Byte, b: Byte
      ensures Xor(a, b) < 256
    {
      XorBound(a, b, 8);
      assert Pow2(8) == 256;
    }
  }

  lemma {:induction false} BitXorBound(a: nat, b: nat, k: nat, width: nat)
    requires a < Pow2(k) && b < Pow2(k)
    ensures BitXor(a, b, width) < Pow2(k)
    decreases width
  {
    if width > 0 && k > 0 {
      BitXorBound(a / 2, b / 2, k - 1, width - 1);
    } else if width > 0 {
      BitXorBound(0, 0, 0, width - 1);
    }
  }

  lemma XorBound(a: Word, b: Word, k: nat)
    requires a < Pow2(k) && b < Pow2(k)
    ensures Xor(a, b) < Pow2(k)
  {
    BitXorBound(a, b, k, 32);
  }

  lemma {:induction false} FeedLinear(x: Word, y: Word, a: seq<Byte>, b: seq<Byte>)
    requires |a| == |b|
    ensures Xor(Feed(x, a), Feed(y, b)) == Feed(Xor(x, y), XorBytes(a, b))
  {
    hide Xor, Steps;
    if a != [] {
      var n := |a| - 1;
      FeedLinear(x, y, a[..n], b[..n]);
      assert XorBytes(a, b)[..n] == XorBytes(a[..n], b[..n]);
      var p, q := Feed(x, a[..n]), Feed(y, b[..n]);
      XorSwap(p, a[n], q, b[n]);
      StepsLinear(Xor(p, a[n]), Xor(q, b[n]), 8);
    }
  }

  /** Equal checksums mean that the difference of the messages feeds to zero from zero. */
  lemma ChecksumDifference(a: seq<Byte>, b: seq<Byte>)
    requires |a| == |b|
    ensures Checksum(a) == Checksum(b) <==> Feed(0, XorBytes(a, b)) == 0
  {
    hide Xor, Feed;
    var p, q := Feed(0xffffffff, a), Feed(0xffffffff, b);
    FeedLinear(0xffffffff, 0xffffffff, a, b);
    XorLaws(0xffffffff, 0, 0);
    XorLaws(p, 0, 0);
    XorCancels(p, q);
    XorCancels(p, 0xffffffff);
    XorCancels(q, 0xffffffff);
  }

  // --- Bursts ---

  lemma {:induction false} FeedZeros(bytes: seq<Byte>)
    requires forall i :: 0 <= i < |bytes| ==> bytes[i] == 0
    ensures Feed(0, bytes) == 0
  {
    hide Steps;
    if bytes != [] {
      FeedZeros(bytes[..|bytes| - 1]);
      XorLaws(0, 0, 0);
      ShiftByteOut(0);
    }
  }

  /** Zero bytes at the end keep a register that is not zero from becoming zero. */
  lemma {:induction false} ZerosKeep(x: Word, bytes: seq<Byte>)
    requires forall i :: 0 <= i < |bytes| ==> bytes[i] == 0
    requires Feed(x, bytes) == 0
    ensures x == 0
  {
    hide Steps;
    if bytes != [] {
      var front := bytes[..|bytes| - 1];
      XorLaws(Feed(x, front), 0, 0);
      StepsKernel(Feed(x, front), 8);
      ZerosKeep(x, front);
    }
  }

  lemma {:induction false} FeedConcat(x: Word, a: seq<Byte>, b: seq<Byte>)
    ensures Feed(x, a + b) == Feed(Feed(x, a), b)
    decreases |b|
  {
    if b == [] {
      assert a + b == a;
    } else {
      assert (a + b)[..|a + b| - 1] == a + b[..|b| - 1];
      FeedConcat(x, a, b[..|b| - 1]);
    }
  }

  /** A register below 2^24 after a byte tells the register before it. */
  lemma BeforeByte(x: Word, byte: Byte, v: nat, k: nat)
    requires FeedByte(x, byte) == v && v < Pow2(k) && v < 0x100_0000
    ensures x == Xor(256 * v, byte) && x < Pow2(k + 8)
  {
    hide Xor, Steps, Pow2;
    Powers();
    PowerPlus8(k);
    PowerGrows(8, k + 8);
    ShiftByteOut(v);
    StepsInjective(Xor(x, byte), 256 * v, 8);
    XorCancels(x, byte);
    XorBound(256 * v, byte, k + 8);
  }

  lemma {:induction false} PowerGrows(a: nat, b: nat)
    requires a <= b
    ensures Pow2(a) <= Pow2(b)
    decreases b - a
  {
    if a < b {
      PowerGrows(a, b - 1);
    }
  }

  lemma PowerPlus8(k: nat)
    ensures Pow2(k + 8) == 256 * Pow2(k)
  {
    assert Pow2(k + 2) == 4 * Pow2(k);
    assert Pow2(k + 4) == 16 * Pow2(k);
    assert Pow2(k + 6) == 64 * Pow2(k);
  }

  /** A register that becomes a number below 256 on a byte, from zero, was fed nothing. */
  lemma FromZero(byte: Byte, v: nat)
    requires FeedByte(0, byte) == v && v < 0x100_0000
    ensures byte == 0 && v == 0
  {
    hide Xor, Steps, Pow2;
    Powers();
    BeforeByte(0, byte, v, 24);
    XorCancels(256 * v, byte);
    assert 256 * v == byte;
  }

  /** Four bytes feed zero to zero only when they are all zero. */
  lemma FourByteKernel(d0: Byte, d1: Byte, d2: Byte, d3: Byte)
    requires FeedByte(FeedByte(FeedByte(FeedByte(0, d0), d1), d2), d3) == 0
    ensures d0 == d1 == d2 == d3 == 0
  {
    hide FeedByte, Xor, Pow2;
    Powers();
    var t1 := FeedByte(0, d0);
    var t2 := FeedByte(t1, d1);
    var t3 := FeedByte(t2, d2);
    BeforeByte(t3, d3, 0, 0);
    BeforeByte(t2, d2, t3, 8);
    BeforeByte(t1, d1, t2, 16);
    FromZero(d0, t1);
    XorCancels(256 * t2, d1);
    XorCancels(256 * t3, d2);
    XorLaws(0, d3, 0);
    XorLaws(d3, 0, 0);
  }

  lemma Powers()
    ensures Pow2(0) == 1 && Pow2(8) == 256 && Pow2(16) == 0x1_0000 && Pow2(24) == 0x100_0000
  {
    assert Pow2(8) == 256;
    assert Pow2(12) == 4096;
    assert Pow2(16) == 0x1_0000;
    assert Pow2(20) == 0x10_0000;
  }

  /** Two messages of the same length that differ only within four consecutive bytes have
      different checksums. */
  lemma BurstDetected(a: seq<Byte>, b: seq<Byte>, start: nat)
    requires |a| == |b| && a != b
    requires forall i :: 0 <= i < |a| && !(start <= i < start + 4) ==> a[i] == b[i]
    ensures Checksum(a) != Checksum(b)
  {
    hide Checksum, Feed, Xor;
    ChecksumDifference(a, b);
    var d := XorBytes(a, b);
    DifferenceZeros(a, b);
    var changed :| 0 <= changed < |a| && a[changed] != b[changed];
    assert start <= changed < start + 4 && d[changed] != 0;
    if Feed(0, d) == 0 {
      WindowKernel(d, start);
    }
  }

  lemma DifferenceZeros(a: seq<Byte>, b: seq<Byte>)
    requires |a| == |b|
    ensures forall i :: 0 <= i < |a| ==> (XorBytes(a, b)[i] == 0 <==> a[i] == b[i])
  {
    hide Xor;
    forall i | 0 <= i < |a|
      ensures XorBytes(a, b)[i] == 0 <==> a[i] == b[i]
    {
      XorCancels(a[i], b[i]);
      XorLaws(a[i], 0, 0);
    }
  }

  predicate AllZero(bytes: seq<Byte>) {
    forall i :: 0 <= i < |bytes| ==> bytes[i] == 0
  }

  lemma SurroundedWindow(before: seq<Byte>, window: seq<Byte>, after: seq<Byte>)
    requires AllZero(before) && AllZero(after) && |window| == 4
    requires Feed(0, before + window + after) == 0
    ensures window[0] == window[1] == window[2] == window[3] == 0
  {
    hide FeedByte, Feed;
    FeedConcat(0, before + window, after);
    FeedConcat(0, before, window);
    FeedZeros(before);
    ZerosKeep(Feed(0, window), after);
    FeedFour(0, window);
    FourByteKernel(window[0], window[1], window[2], window[3]);
  }

  /** A difference confined to four bytes of a message feeds to zero only when it is zero. */
  lemma WindowKernel(d: seq<Byte>, start: nat)
    requires forall i :: 0 <= i < |d| && !(start <= i < start + 4) ==> d[i] == 0
    requires Feed(0, d) == 0
    ensures AllZero(d)
  {
    hide Feed;
    var tail: seq<Byte> := [0, 0, 0, 0];
    var padded := d + tail;
    var from := if start <= |d| then start else |d|;
    FeedConcat(0, d, tail);
    FeedZeros(tail);
    var before, window, after := padded[..from], padded[from..from + 4], padded[from + 4..];
    assert padded == before + window + after;
    SurroundedWindow(before, window, after);
    forall i | 0 <= i < |d|
      ensures d[i] == 0
    {
      if from <= i < from + 4 {
        assert d[i] == padded[i] == window[i - from];
      }
    }
  }

  lemma FeedFour(x: Word, w: seq<Byte>)
    requires |w| == 4
    ensures Feed(x, w) == FeedByte(FeedByte(FeedByte(FeedByte(x, w[0]), w[1]), w[2]), w[3])
  {
    hide FeedByte;
    assert w[..3][..2] == w[..2] && w[..2][..1] == w[..1] && w[..1][..0] == [];
    assert Feed(x, w[..1]) == FeedByte(x, w[0]);
    assert Feed(x, w[..2]) == FeedByte(Feed(x, w[..1]), w[1]);
    assert Feed(x, w[..3]) == FeedByte(Feed(x, w[..2]), w[2]);
  }

  // --- Five bytes are not covered ---

  /** A register fed its own low byte shifts down by it. */
  lemma FeedOwnByte(t: Word)
    ensures FeedByte(t, t % 256) == t / 256
  {
    hide Steps, Xor;
    XorLow(t / 256, t % 256);
    XorCancels(256 * (t / 256), t % 256);
    ShiftByteOut(t / 256);
  }

  lemma XorLow(q: nat, byte: Byte)
    requires q < 0x100_0000
    ensures Xor(256 * q, byte) == 256 * q + byte
  {
    hide Pow2, BitXor;
    Powers();
    Pow2Of32();
    assert q * Pow2(8) == 256 * q;
    XorOfDisjointAdds(q, 8, byte, 32);
  }

  lemma {:induction false} XorOfDisjointAdds(q: nat, k: nat, b: nat, width: nat)
    requires k <= width && b < Pow2(k) && q * Pow2(k) < Pow2(width)
    ensures BitXor(q * Pow2(k), b, width) == q * Pow2(k) + b
    decreases width
  {
    if width == 0 {
      assert k == 0 && b == 0 && Pow2(0) == 1;
    } else if k == 0 {
      BitXorLaws(q, 0, width);
    } else {
      var p := Pow2(k - 1);
      assert q * Pow2(k) == 2 * (q * p);
      XorOfDisjointAdds(q, k - 1, b / 2, width - 1);
    }
  }

  /** Any byte other than zero starts a five-byte difference that feeds to zero. */
  lemma FiveByteKernel(d0: Byte) returns (d: seq<Byte>)
    ensures |d| == 5 && d[0] == d0 && Feed(0, d) == 0
  {
    hide FeedByte, Xor;
    var t := FeedByte(0, d0);
    var w: seq<Byte> := [t % 256, t / 256 % 256, t / 256 / 256 % 256, t / 256 / 256 / 256 % 256];
    FeedOwnByte(t);
    FeedOwnByte(t / 256);
    FeedOwnByte(t / 256 / 256);
    FeedOwnByte(t / 256 / 256 / 256);
    FeedFour(t, w);
    FeedConcat(0, [d0], w);
    assert Feed(0, [d0]) == t by {
      assert [d0][..0] == [];
    }
    d := [d0] + w;
  }

  /** Four bytes are the most: every message has, at every place, another one that
      differs within five consecutive bytes and has the same checksum. */
  lemma FiveByteBurstMissed(message: seq<Byte>, start: nat) returns (other: seq<Byte>)
    requires start + 5 <= |message|
    ensures |other| == |message| && other != message && Checksum(other) == Checksum(message)
    ensures forall i :: 0 <= i < |message| && !(start <= i < start + 5) ==> other[i] == message[i]
  {
    hide Checksum, Feed, Xor;
    var d := FiveByteKernel(1);
    var before: seq<Byte>, after: seq<Byte> := seq(start, _ => 0), seq(|message| - start - 5, _ => 0);
    var difference := before + d + after;
    FeedConcat(0, before + d, after);
    FeedConcat(0, before, d);
    FeedZeros(before);
    FeedZeros(after);
    other := XorBytes(message, difference);
    forall i | 0 <= i < |message|
      ensures XorBytes(message, other)[i] == difference[i]
      ensures difference[i] == 0 ==> other[i] == message[i]
    {
      XorLaws(message[i], message[i], difference[i]);
      XorLaws(0, difference[i], 0);
      XorLaws(difference[i], 0, 0);
      XorLaws(message[i], 0, 0);
    }
    assert XorBytes(message, other) == difference;
    ChecksumDifference(message, other);
    assert difference[start] == 1;
    XorHalves(message[start], 1);
    assert other[start] != message[start];
  }

  // --- The collector's loop ---

  lemma {:induction false} AndOnes(a: nat, width: nat)
    requires a < Pow2(width)
    ensures BitAnd(a, Pow2(width) - 1, width) == a
    ensures BitAnd(a, 0, width) == 0
  {
    if width > 0 {
      AndOnes(a / 2, width - 1);
      assert (Pow2(width) - 1) / 2 == Pow2(width - 1) - 1 && (Pow2(width) - 1) % 2 == 1;
    }
  }

  lemma LowBit(a: int)
    ensures JsAnd(a, 1) == ToUint32(a) % 2
  {
    var u := ToUint32(a);
    assert BitAnd(u, 1, 32) == u % 2 + 2 * BitAnd(u / 2, 0, 31);
    AndZero(u / 2, 31);
  }

  lemma MaskedPolynomial(bit: int)
    requires bit == 0 || bit == 1
    ensures ToUint32(JsAnd(POLYNOMIAL, -bit)) == if bit == 1 then POLYNOMIAL else 0
  {
    hide BitAnd, Pow2;
    Pow2Of32();
    AndOnes(POLYNOMIAL, 32);
    AndIsAnd(POLYNOMIAL, -bit);
  }

  lemma JsStep(crc: int)
    ensures ToUint32(JsXor(JsShiftRight(crc, 1), JsAnd(POLYNOMIAL, -JsAnd(crc, 1)))) == Step(ToUint32(crc))
  {
    hide Xor, JsXor, JsAnd, JsShiftRight, Pow2;
    LowBit(crc);
    MaskedPolynomial(ToUint32(crc) % 2);
    XorIsXor(JsShiftRight(crc, 1), JsAnd(POLYNOMIAL, -JsAnd(crc, 1)));
    HalfWord(crc);
  }

  lemma HalfWord(crc: int)
    ensures JsShiftRight(crc, 1) == ToUint32(crc) / 2 && ToUint32(JsShiftRight(crc, 1)) == ToUint32(crc) / 2
  {
    assert Pow2(1) == 2;
  }

  method Compute(bytes: seq<Byte>) returns (checksum: Word)
    ensures checksum == Checksum(bytes)
  {
    hide Xor, JsXor, JsAnd, JsShiftRight, Step;
    var crc: int := 0xffffffff;
    for index := 0 to |bytes|
      invariant ToUint32(crc) == Feed(0xffffffff, bytes[..index])
    {
      assert bytes[..index + 1][..index] == bytes[..index];
      ghost var start := Xor(ToUint32(crc), bytes[index]);
      XorIsXor(crc, bytes[index]);
      crc := JsXor(crc, bytes[index]);
      for bit := 0 to 8
        invariant ToUint32(crc) == Steps(start, bit)
      {
        JsStep(crc);
        crc := JsXor(JsShiftRight(crc, 1), JsAnd(POLYNOMIAL, -JsAnd(crc, 1)));
      }
    }
    assert bytes[..|bytes|] == bytes;
    XorIsXor(crc, 0xffffffff);
    checksum := ToUint32(JsXor(crc, 0xffffffff));
  }
}

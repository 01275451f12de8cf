/**
 Strings as the collector sees them: sequences of 16-bit code units that may
 hold unpaired surrogates, and their UTF-8 encoding.
 */
module Text {

  type CodeUnit = u: int | 0 <= u < 0x1_0000
  type Byte = b: int | 0 <= b < 0x100
  type Str = seq<CodeUnit>

  datatype Option<+T> = None | Some(value: T)

  const MAX_SAFE_INTEGER := 9_007_199_254_740_991
  const REPLACEMENT := 0xFFFD

  predicate IsSafeInteger(n: int) {
    -MAX_SAFE_INTEGER <= n <= MAX_SAFE_INTEGER
  }

  /** A lower-case hexadecimal digit. */
  function HexDigit(n: int): CodeUnit
    requires 0 <= n < 16
  {
    if n < 10 then 48 + n else 87 + n
  }

  predicate IsHigh(u: CodeUnit) {
    0xD800 <= u <= 0xDBFF
  }

  predicate IsLow(u: CodeUnit) {
    0xDC00 <= u <= 0xDFFF
  }

  /** The code units of an ASCII literal; anything else becomes U+FFFD. */
  function Ascii(s: string): (r: Str)
    ensures |r| == |s|
    ensures forall i :: 0 <= i < |s| && s[i] as int < 0x80 ==> r[i] == s[i] as int
  {
    seq(|s|, i requires 0 <= i < |s| => if s[i] as int < 0x80 then s[i] as int else REPLACEMENT)
  }

  // --- UTF-8, section 3 of RFC 3629 ---

  type Scalar = c: int | 0 <= c <= 0x10_FFFF && !(0xD800 <= c <= 0xDFFF)

  /** The scalar value at the front of a string: a surrogate pair is one scalar,
      an unpaired surrogate reads as U+FFFD. */
  function FirstScalar(s: Str): (c: Scalar)
    requires s != []
  {
    if StartsWithPair(s) then 0x1_0000 + (s[0] - 0xD800) * 0x400 + (s[1] - 0xDC00)
    else if IsHigh(s[0]) || IsLow(s[0]) then REPLACEMENT
    else s[0]
  }

  predicate StartsWithPair(s: Str) {
    |s| >= 2 && IsHigh(s[0]) && IsLow(s[1])
  }

  function FirstUnits(s: Str): (n: nat)
    requires s != []
    ensures 1 <= n <= |s|
  {
    if StartsWithPair(s) then 2 else 1
  }

  function EncodeScalar(c: Scalar): (bytes: seq<Byte>) {
    if c < 0x80 then [c]
    else if c < 0x800 then [0xC0 + c / 0x40, 0x80 + c % 0x40]
    else if c < 0x1_0000 then [0xE0 + c / 0x1000, 0x80 + c / 0x40 % 0x40, 0x80 + c % 0x40]
    else [0xF0 + c / 0x4_0000, 0x80 + c / 0x1000 % 0x40, 0x80 + c / 0x40 % 0x40, 0x80 + c % 0x40]
  }

  /** The UTF-8 encoding of a string. */
  function Encode(s: Str): seq<Byte> {
    if s == [] then [] else EncodeScalar(FirstScalar(s)) + Encode(s[FirstUnits(s)..])
  }

  /** Number of bytes in the UTF-8 encoding. */
  function Utf8Length(s: Str): nat {
    |Encode(s)|
  }

  /** A surrogate pair straddles the boundary between `a` and `b`. */
  predicate Splits(a: Str, b: Str) {
    a != [] && b != [] && IsHigh(a[|a| - 1]) && IsLow(b[0])
  }

  lemma EncodeStep(s: Str)
    requires s != []
    ensures Encode(s) == EncodeScalar(FirstScalar(s)) + Encode(s[FirstUnits(s)..])
  {
  }

  /** Joining the halves of a pair at a boundary saves two bytes. */
  lemma SplitPairSavesTwo(a: Str, b: Str)
    requires |a| == 1 && Splits(a, b)
    ensures Utf8Length(a + b) == Utf8Length(a) + Utf8Length(b) - 2
  {
    assert StartsWithPair(a + b) && (a + b)[2..] == b[1..];
    assert Utf8Length(a + b) == 4 + Utf8Length(b[1..]);
    assert !StartsWithPair(b);
    assert Utf8Length(b) == 3 + Utf8Length(b[1..]);
    assert Encode(a) == EncodeScalar(REPLACEMENT) + Encode(a[1..]);
  }

  lemma FrontOfConcat(a: Str, b: Str)
    requires a != [] && !(|a| == 1 && Splits(a, b))
    ensures FirstUnits(a + b) == FirstUnits(a)
    ensures FirstScalar(a + b) == FirstScalar(a)
    ensures (a + b)[FirstUnits(a)..] == a[FirstUnits(a)..] + b
    ensures Splits(a[FirstUnits(a)..], b) <==> Splits(a, b)
  {
    assert StartsWithPair(a + b) <==> StartsWithPair(a);
  }

  /** Encoding is a homomorphism except where a boundary splits a pair: encoded
      apart, the two halves cost three bytes each instead of four together. */
  lemma {:induction false} EncodeConcat(a: Str, b: Str)
    ensures !Splits(a, b) ==> Encode(a + b) == Encode(a) + Encode(b)
    ensures Utf8Length(a + b) == Utf8Length(a) + Utf8Length(b) - (if Splits(a, b) then 2 else 0)
  {
    if a == [] {
      assert a + b == b;
    } else if |a| == 1 && Splits(a, b) {
      SplitPairSavesTwo(a, b);
    } else {
      hide Encode, EncodeScalar, FirstScalar, FirstUnits;
      FrontOfConcat(a, b);
      EncodeStep(a);
      EncodeStep(a + b);
      EncodeConcat(a[FirstUnits(a)..], b);
      ConcatAssociates(EncodeScalar(FirstScalar(a)), Encode(a[FirstUnits(a)..]), Encode(b));
    }
  }

  lemma ConcatAssociates<T>(a: seq<T>, b: seq<T>, c: seq<T>)
    ensures (a + b) + c == a + (b + c)
  {
  }

  lemma {:induction false} AsciiLength(s: Str)
    requires forall i :: 0 <= i < |s| ==> s[i] < 0x80
    ensures Encode(s) == s
  {
    if s != [] {
      AsciiLength(s[1..]);
      assert s == [s[0]] + s[1..];
    }
  }

  // --- utf8LengthWithinLimit ---

  datatype Measure = Measured(bytes: nat) | OverLimit | TypeError

  /** Width in bytes of the scalar at `index`, as the loop of the source decides it,
      together with the number of code units it consumes. */
  function WidthAt(value: Str, index: nat): (r: (nat, nat))
    requires index < |value|
    ensures r.0 == |EncodeScalar(FirstScalar(value[index..]))|
    ensures r.1 == FirstUnits(value[index..])
  {
    var codeUnit := value[index];
    if IsHigh(codeUnit) && index + 1 < |value| then
      if IsLow(value[index + 1]) then (4, 2) else (3, 1)
    else if codeUnit <= 0x7F then (1, 1)
    else if codeUnit <= 0x7FF then (2, 1)
    else (3, 1)
  }

  /** The counting loop returns the exact encoded length when it fits the limit
      and stops early otherwise. */
  method Utf8LengthWithinLimit(value: Str, maximumBytes: int) returns (r: Measure)
    ensures r ==
      if !IsSafeInteger(maximumBytes) || maximumBytes < 0 then TypeError
      else if Utf8Length(value) <= maximumBytes then Measured(Utf8Length(value))
      else OverLimit
  {
    if !IsSafeInteger(maximumBytes) || maximumBytes < 0 {
      return TypeError;
    }
    var bytes := 0;
    var index := 0;
    while index < |value|
      invariant 0 <= index <= |value|
      invariant 0 <= bytes <= maximumBytes
      invariant Utf8Length(value) == bytes + Utf8Length(value[index..])
    {
      var (width, units) := WidthAt(value, index);
      assert value[index..][units..] == value[index + units..];
      if bytes > maximumBytes - width {
        return OverLimit;
      }
      bytes := bytes + width;
      index := index + units;
    }
    return Measured(bytes);
  }
}

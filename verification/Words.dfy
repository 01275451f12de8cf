/**
 JavaScript's 32-bit operators on numbers, with their signed results, and the words they
 stand for: integers modulo 2^32.
 */
module Words {

  const MODULUS: int := 0x1_0000_0000

  type Word = n: int | 0 <= n < 0x1_0000_0000

  function Pow2(n: nat): (p: nat)
    ensures p >= 1
  {
    if n == 0 then 1 else 2 * Pow2(n - 1)
  }

  // --- Bitwise operations on the low `width` bits of naturals ---

  function BitAnd(a: nat, b: nat, width: nat): (r: nat)
    ensures r < Pow2(width)
  {
    if width == 0 then 0 else (if a % 2 == 1 && b % 2 == 1 then 1 else 0) + 2 * BitAnd(a / 2, b / 2, width - 1)
  }

  function BitOr(a: nat, b: nat, width: nat): (r: nat)
    ensures r < Pow2(width)
  {
    if width == 0 then 0 else (if a % 2 == 1 || b % 2 == 1 then 1 else 0) + 2 * BitOr(a / 2, b / 2, width - 1)
  }

  function BitXor(a: nat, b: nat, width: nat): (r: nat)
    ensures r < Pow2(width)
  {
    if width == 0 then 0 else (if a % 2 != b % 2 then 1 else 0) + 2 * BitXor(a / 2, b / 2, width - 1)
  }

  lemma Pow2Of32()
    ensures Pow2(32) == MODULUS && Pow2(8) == 256
  {
    assert Pow2(8) == 256;
    assert Pow2(16) == 65536 by {
      assert Pow2(12) == 4096;
    }
    assert Pow2(24) == 0x100_0000 by {
      assert Pow2(20) == 0x10_0000;
    }
    assert Pow2(28) == 0x1000_0000;
  }

  function And(a: Word, b: Word): Word {
    Pow2Of32();
    BitAnd(a, b, 32)
  }

  function Or(a: Word, b: Word): Word {
    Pow2Of32();
    BitOr(a, b, 32)
  }

  function Xor(a: Word, b: Word): Word {
    Pow2Of32();
    BitXor(a, b, 32)
  }

  function Not(a: Word): Word {
    MODULUS - 1 - a
  }

  function Plus(a: Word, b: Word): Word {
    (a + b) % MODULUS
  }

  /** Right shift and right rotation of a word. */
  function Shr(n: nat, x: Word): Word {
    ShiftedDown(x, Pow2(n));
    x / Pow2(n)
  }

  function Rotr(n: nat, x: Word): Word
    requires n <= 32
  {
    Or(Shr(n, x), (x * Pow2(32 - n)) % MODULUS)
  }

  lemma ShiftedDown(x: nat, p: nat)
    requires p >= 1
    ensures 0 <= x / p <= x
  {
    var q := x / p;
    assert x == q * p + x % p;
    TimesGrows(q, p);
  }

  lemma {:induction false} TimesGrows(q: nat, p: nat)
    requires p >= 1
    ensures q * p >= q
  {
    if p > 1 {
      TimesGrows(q, p - 1);
      assert q * p == q * (p - 1) + q;
    }
  }

  // --- JavaScript numbers ---

  function ToUint32(n: int): Word {
    n % MODULUS
  }

  function ToInt32(n: int): int {
    if n % MODULUS >= 0x8000_0000 then n % MODULUS - MODULUS else n % MODULUS
  }

  lemma SameWord(n: int)
    ensures ToUint32(ToInt32(n)) == ToUint32(n)
  {
  }

  /** `>>>`, `<<`, `|`, `^`, `&` and `~`: all but the first have signed results. */
  function JsShiftRight(a: int, bits: nat): int {
    ToUint32(a) / Pow2(bits)
  }

  function JsShiftLeft(a: int, bits: nat): int {
    ToInt32(ToUint32(a) * Pow2(bits))
  }

  function JsOr(a: int, b: int): int {
    ToInt32(Or(ToUint32(a), ToUint32(b)))
  }

  function JsXor(a: int, b: int): int {
    ToInt32(Xor(ToUint32(a), ToUint32(b)))
  }

  function JsAnd(a: int, b: int): int {
    ToInt32(And(ToUint32(a), ToUint32(b)))
  }

  function JsNot(a: int): int {
    -ToInt32(a) - 1
  }

  // --- The operators compute on words ---

  lemma OrIsOr(a: int, b: int)
    ensures ToUint32(JsOr(a, b)) == Or(ToUint32(a), ToUint32(b))
  {
    SameWord(Or(ToUint32(a), ToUint32(b)));
  }

  lemma XorIsXor(a: int, b: int)
    ensures ToUint32(JsXor(a, b)) == Xor(ToUint32(a), ToUint32(b))
  {
    SameWord(Xor(ToUint32(a), ToUint32(b)));
  }

  lemma AndIsAnd(a: int, b: int)
    ensures ToUint32(JsAnd(a, b)) == And(ToUint32(a), ToUint32(b))
  {
    SameWord(And(ToUint32(a), ToUint32(b)));
  }

  lemma NotIsNot(a: int)
    ensures ToUint32(JsNot(a)) == Not(ToUint32(a))
  {
  }

  lemma ShiftRightIsShr(a: int, bits: nat)
    ensures JsShiftRight(a, bits) == Shr(bits, ToUint32(a))
    ensures ToUint32(JsShiftRight(a, bits)) == Shr(bits, ToUint32(a))
  {
    ShiftedDown(ToUint32(a), Pow2(bits));
  }

  lemma SumOfWords(a: int, b: int)
    ensures ToUint32(a + b) == Plus(ToUint32(a), ToUint32(b))
  {
  }

  function RotateRight(value: int, bits: nat): int
    requires 0 < bits < 32
  {
    JsOr(JsShiftRight(value, bits), JsShiftLeft(value, 32 - bits))
  }

  lemma RotateRightIsRotr(value: int, bits: nat)
    requires 0 < bits < 32
    ensures ToUint32(RotateRight(value, bits)) == Rotr(bits, ToUint32(value))
  {
    hide Or, Shr, Pow2;
    OrIsOr(JsShiftRight(value, bits), JsShiftLeft(value, 32 - bits));
    ShiftRightIsShr(value, bits);
    SameWord(ToUint32(value) * Pow2(32 - bits));
  }

  /** Operands without common bits: `|` adds. */
  lemma {:induction false} OrOfDisjointAdds(q: nat, k: nat, b: nat, width: nat)
    requires k <= width && b < Pow2(k) && q * Pow2(k) < Pow2(width)
    ensures q * Pow2(k) + b < Pow2(width)
    ensures BitOr(q * Pow2(k), b, width) == q * Pow2(k) + b
    decreases width
  {
    if width == 0 {
      assert k == 0 && b == 0 && Pow2(0) == 1;
    } else if k == 0 {
      OrWithZero(q, width);
    } else {
      var p := Pow2(k - 1);
      assert q * Pow2(k) == 2 * (q * p);
      OrOfDisjointAdds(q, k - 1, b / 2, width - 1);
      assert (q * Pow2(k)) / 2 == q * p && (q * Pow2(k)) % 2 == 0;
    }
  }

  lemma {:induction false} OrWithZero(a: nat, width: nat)
    requires a < Pow2(width)
    ensures BitOr(a, 0, width) == a
  {
    if width > 0 {
      OrWithZero(a / 2, width - 1);
    }
  }

  lemma {:induction false} AndZero(n: nat, width: nat)
    ensures BitAnd(n, 0, width) == 0
  {
    if width > 0 {
      AndZero(n / 2, width - 1);
    }
  }
}

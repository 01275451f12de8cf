/** Decimal text of integers, as `String(n)` and template literals print it. */
module Decimal {
  import opened Text

  predicate IsDigit(u: CodeUnit) {
    48 <= u <= 57
  }

  function Digits(n: nat): (r: Str)
    ensures r != [] && forall i :: 0 <= i < |r| ==> IsDigit(r[i])
  {
    if n < 10 then [48 + n] else Digits(n / 10) + [48 + n % 10]
  }

  /** The number a digit string denotes. */
  function ValueOf(digits: Str): nat
    requires forall i :: 0 <= i < |digits| ==> IsDigit(digits[i])
  {
    if digits == [] then 0
    else
      var last := digits[|digits| - 1];
      assert IsDigit(last);
      10 * ValueOf(digits[..|digits| - 1]) + (last - 48) as nat
  }

  lemma {:induction false} DigitsDenote(n: nat)
    ensures ValueOf(Digits(n)) == n
    ensures |Digits(n)| > 1 ==> Digits(n)[0] != 48
  {
    if n < 10 {
      assert [48 + n][..0] == [];
    } else {
      DigitsDenote(n / 10);
      assert Digits(n)[..|Digits(n)| - 1] == Digits(n / 10);
    }
  }

  /** Decimal text of a possibly negative integer. */
  function IntText(n: int): (r: Str)
    ensures r != [] && forall i :: 0 <= i < |r| ==> r[i] == 45 || IsDigit(r[i])
  {
    if n < 0 then [45] + Digits(-n) else Digits(n)
  }

  lemma IntTextInjective(m: int, n: int)
    requires IntText(m) == IntText(n)
    ensures m == n
  {
    DigitsDenote(if m < 0 then -m else m);
    DigitsDenote(if n < 0 then -n else n);
    if m < 0 && n < 0 {
      assert IntText(m)[1..] == Digits(-m) && IntText(n)[1..] == Digits(-n);
    }
  }
}

/** Where the constants of the digest and the checksum come from. */
module HashConstants {
  import opened Words
  import Crc32
  import Sha256

  /** The first 64 primes, sixteen at a time. */
  const PRIMES0: seq<nat> := [2, 3, 5, 7, 11, 13, 17, 19, 23, 29, 31, 37, 41, 43, 47, 53]
  const PRIMES1: seq<nat> := [59, 61, 67, 71, 73, 79, 83, 89, 97, 101, 103, 107, 109, 113, 127, 131]
  const PRIMES2: seq<nat> := [137, 139, 149, 151, 157, 163, 167, 173, 179, 181, 191, 193, 197, 199, 211, 223]
  const PRIMES3: seq<nat> := [227, 229, 233, 239, 241, 251, 257, 263, 269, 271, 277, 281, 283, 293, 307, 311]

  const PRIMES: seq<nat> := PRIMES0 + PRIMES1 + PRIMES2 + PRIMES3

  const SCALE: nat := 0x1_0000_0000

  /** The whole part of the cube root of a number below 343. */
  function WholeCubeRoot(p: nat): nat {
    if p < 8 then 1 else if p < 27 then 2 else if p < 64 then 3 else if p < 125 then 4 else if p < 216 then 5 else 6
  }

  /** `k` is the first 32 bits of the fraction of the cube root of `p`: with the whole part
      in front it is the cube root scaled by 2^32 and rounded down. */
  predicate CubeRootFraction(p: nat, k: nat) {
    var c := WholeCubeRoot(p) * SCALE + k;
    k < SCALE && c * c * c <= p * SCALE * SCALE * SCALE < (c + 1) * (c + 1) * (c + 1)
  }

  /** The whole part of the square root of a number below 25. */
  function WholeSquareRoot(p: nat): nat {
    if p < 4 then 1 else if p < 9 then 2 else if p < 16 then 3 else 4
  }

  predicate SquareRootFraction(p: nat, k: nat) {
    var c := WholeSquareRoot(p) * SCALE + k;
    k < SCALE && c * c <= p * SCALE * SCALE < (c + 1) * (c + 1)
  }

  lemma Cubes0()
    ensures CubeRootFraction(2, 0x428a2f98) && CubeRootFraction(3, 0x71374491)
    ensures CubeRootFraction(5, 0xb5c0fbcf) && CubeRootFraction(7, 0xe9b5dba5)
    ensures CubeRootFraction(11, 0x3956c25b) && CubeRootFraction(13, 0x59f111f1)
    ensures CubeRootFraction(17, 0x923f82a4) && CubeRootFraction(19, 0xab1c5ed5)
    ensures CubeRootFraction(23, 0xd807aa98) && CubeRootFraction(29, 0x12835b01)
    ensures CubeRootFraction(31, 0x243185be) && CubeRootFraction(37, 0x550c7dc3)
    ensures CubeRootFraction(41, 0x72be5d74) && CubeRootFraction(43, 0x80deb1fe)
    ensures CubeRootFraction(47, 0x9bdc06a7) && CubeRootFraction(53, 0xc19bf174)
  {
  }

  lemma Cubes1()
    ensures CubeRootFraction(59, 0xe49b69c1) && CubeRootFraction(61, 0xefbe4786)
    ensures CubeRootFraction(67, 0x0fc19dc6) && CubeRootFraction(71, 0x240ca1cc)
    ensures CubeRootFraction(73, 0x2de92c6f) && CubeRootFraction(79, 0x4a7484aa)
    ensures CubeRootFraction(83, 0x5cb0a9dc) && CubeRootFraction(89, 0x76f988da)
    ensures CubeRootFraction(97, 0x983e5152) && CubeRootFraction(101, 0xa831c66d)
    ensures CubeRootFraction(103, 0xb00327c8) && CubeRootFraction(107, 0xbf597fc7)
    ensures CubeRootFraction(109, 0xc6e00bf3) && CubeRootFraction(113, 0xd5a79147)
    ensures CubeRootFraction(127, 0x06ca6351) && CubeRootFraction(131, 0x14292967)
  {
  }

  lemma Cubes2()
    ensures CubeRootFraction(137, 0x27b70a85) && CubeRootFraction(139, 0x2e1b2138)
    ensures CubeRootFraction(149, 0x4d2c6dfc) && CubeRootFraction(151, 0x53380d13)
    ensures CubeRootFraction(157, 0x650a7354) && CubeRootFraction(163, 0x766a0abb)
    ensures CubeRootFraction(167, 0x81c2c92e) && CubeRootFraction(173, 0x92722c85)
    ensures CubeRootFraction(179, 0xa2bfe8a1) && CubeRootFraction(181, 0xa81a664b)
    ensures CubeRootFraction(191, 0xc24b8b70) && CubeRootFraction(193, 0xc76c51a3)
    ensures CubeRootFraction(197, 0xd192e819) && CubeRootFraction(199, 0xd6990624)
    ensures CubeRootFraction(211, 0xf40e3585) && CubeRootFraction(223, 0x106aa070)
  {
  }

  lemma Cubes3()
    ensures CubeRootFraction(227, 0x19a4c116) && CubeRootFraction(229, 0x1e376c08)
    ensures CubeRootFraction(233, 0x2748774c) && CubeRootFraction(239, 0x34b0bcb5)
    ensures CubeRootFraction(241, 0x391c0cb3) && CubeRootFraction(251, 0x4ed8aa4a)
    ensures CubeRootFraction(257, 0x5b9cca4f) && CubeRootFraction(263, 0x682e6ff3)
    ensures CubeRootFraction(269, 0x748f82ee) && CubeRootFraction(271, 0x78a5636f)
    ensures CubeRootFraction(277, 0x84c87814) && CubeRootFraction(281, 0x8cc70208)
    ensures CubeRootFraction(283, 0x90befffa) && CubeRootFraction(293, 0xa4506ceb)
    ensures CubeRootFraction(307, 0xbef9a3f7) && CubeRootFraction(311, 0xc67178f2)
  {
  }

  lemma Squares()
    ensures SquareRootFraction(2, 0x6a09e667) && SquareRootFraction(3, 0xbb67ae85)
    ensures SquareRootFraction(5, 0x3c6ef372) && SquareRootFraction(7, 0xa54ff53a)
    ensures SquareRootFraction(11, 0x510e527f) && SquareRootFraction(13, 0x9b05688c)
    ensures SquareRootFraction(17, 0x1f83d9ab) && SquareRootFraction(19, 0x5be0cd19)
  {
  }

  lemma Block0(t: nat)
    requires t < 16
    ensures CubeRootFraction(PRIMES0[t], Sha256.K0[t])
  {
    hide CubeRootFraction;
    Cubes0();
  }

  lemma Block1(t: nat)
    requires t < 16
    ensures CubeRootFraction(PRIMES1[t], Sha256.K1[t])
  {
    hide CubeRootFraction;
    Cubes1();
  }

  lemma Block2(t: nat)
    requires t < 16
    ensures CubeRootFraction(PRIMES2[t], Sha256.K2[t])
  {
    hide CubeRootFraction;
    Cubes2();
  }

  lemma Block3(t: nat)
    requires t < 16
    ensures CubeRootFraction(PRIMES3[t], Sha256.K3[t])
  {
    hide CubeRootFraction;
    Cubes3();
  }

  lemma FourRows<T>(a: seq<T>, b: seq<T>, c: seq<T>, d: seq<T>, t: nat)
    requires |a| == |b| == |c| == |d| == 16 && t < 64
    ensures |a + b + c + d| == 64
    ensures (a + b + c + d)[t] == if t < 16 then a[t] else if t < 32 then b[t - 16] else if t < 48 then c[t - 32] else d[t - 48]
  {
  }

  /** Every round constant is the fraction of the cube root of its prime. */
  lemma RoundConstantsAreCubeRoots(t: nat)
    requires t < 64
    ensures |Sha256.K| == |PRIMES| == 64 && CubeRootFraction(PRIMES[t], Sha256.K[t])
  {
    hide CubeRootFraction;
    FourRows(PRIMES0, PRIMES1, PRIMES2, PRIMES3, t);
    FourRows(Sha256.K0, Sha256.K1, Sha256.K2, Sha256.K3, t);
    if t < 16 {
      Block0(t);
    } else if t < 32 {
      Block1(t - 16);
    } else if t < 48 {
      Block2(t - 32);
    } else {
      Block3(t - 48);
    }
  }

  /** Every word of the initial hash is the fraction of the square root of its prime. */
  lemma InitialHashIsSquareRoots()
    ensures SquareRootFraction(PRIMES0[0], Sha256.INITIAL.a)
    ensures SquareRootFraction(PRIMES0[1], Sha256.INITIAL.b)
    ensures SquareRootFraction(PRIMES0[2], Sha256.INITIAL.c)
    ensures SquareRootFraction(PRIMES0[3], Sha256.INITIAL.d)
    ensures SquareRootFraction(PRIMES0[4], Sha256.INITIAL.e)
    ensures SquareRootFraction(PRIMES0[5], Sha256.INITIAL.f)
    ensures SquareRootFraction(PRIMES0[6], Sha256.INITIAL.g)
    ensures SquareRootFraction(PRIMES0[7], Sha256.INITIAL.h)
  {
    hide SquareRootFraction;
    Squares();
  }

  /** The polynomial of the checksum is the generator of IEEE 802.3, whose exponents below
      32 are these, with the lowest exponent in the highest bit. */
  lemma PolynomialTerms()
    ensures Crc32.POLYNOMIAL ==
      Pow2(31 - 26) + Pow2(31 - 23) + Pow2(31 - 22) + Pow2(31 - 16) + Pow2(31 - 12) + Pow2(31 - 11) + Pow2(31 - 10)
      + Pow2(31 - 8) + Pow2(31 - 7) + Pow2(31 - 5) + Pow2(31 - 4) + Pow2(31 - 2) + Pow2(31 - 1) + Pow2(31 - 0)
  {
    assert Pow2(5) == 0x20;
    assert Pow2(8) == 0x100;
    assert Pow2(9) == 0x200;
    assert Pow2(15) == 0x8000;
    assert Pow2(19) == 0x80000;
    assert Pow2(20) == 0x100000;
    assert Pow2(21) == 0x200000;
    assert Pow2(23) == 0x800000;
    assert Pow2(24) == 0x1000000;
    assert Pow2(26) == 0x4000000;
    assert Pow2(27) == 0x8000000;
    assert Pow2(29) == 0x20000000;
    assert Pow2(30) == 0x40000000;
    assert Pow2(31) == 0x80000000;
  }
}

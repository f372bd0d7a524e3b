/** Where the constants of FIPS 180-4 come from: fractions of square and cube roots of the
    first primes. The tables that the source spells out are these numbers. */
module Roots {
  import opened Sha2
  import Sha1
  import Sha256
  import Sha512
  import HashTypes

  const PRIMES: seq<Row> := [
    Row(2, 3, 5, 7), Row(11, 13, 17, 19), Row(23, 29, 31, 37), Row(41, 43, 47, 53),
    Row(59, 61, 67, 71), Row(73, 79, 83, 89), Row(97, 101, 103, 107), Row(109, 113, 127, 131),
    Row(137, 139, 149, 151), Row(157, 163, 167, 173), Row(179, 181, 191, 193), Row(197, 199, 211, 223),
    Row(227, 229, 233, 239), Row(241, 251, 257, 263), Row(269, 271, 277, 281), Row(283, 293, 307, 311),
    Row(313, 317, 331, 337), Row(347, 349, 353, 359), Row(367, 373, 379, 383), Row(389, 397, 401, 409)
  ]

  function Prime(t: nat): nat {
    if t / 4 < |PRIMES| then Pick(PRIMES[t / 4], t % 4) else 0
  }

  function Square(n: nat): nat {
    n * n
  }

  function Cube(n: nat): nat {
    n * n * n
  }

  /** k of m parts is the fraction of p's square root, rounded down. */
  ghost predicate SquareRootFraction(k: nat, m: nat, p: nat) {
    k < m && exists whole: nat :: Square(whole * m + k) <= p * Square(m) < Square(whole * m + k + 1)
  }

  ghost predicate CubeRootFraction(k: nat, m: nat, p: nat) {
    k < m && exists whole: nat :: Cube(whole * m + k) <= p * Cube(m) < Cube(whole * m + k + 1)
  }

  const WORD64: nat := 0x1_0000_0000_0000_0000

  // ---- checking the tables entry by entry ----

  /** No small divisor, in a list that rises. */
  predicate IsPrime(before: nat, p: nat) {
    && 1 < p < 23 * 23 && before < p
    && (p % 2 != 0 || p == 2) && (p % 3 != 0 || p == 3) && (p % 5 != 0 || p == 5) && (p % 7 != 0 || p == 7)
    && (p % 11 != 0 || p == 11) && (p % 13 != 0 || p == 13) && (p % 17 != 0 || p == 17) && (p % 19 != 0 || p == 19)
  }

  /** A row of the table, after the prime before it. */
  predicate PrimeRow(before: nat, row: Row) {
    IsPrime(before, row.a) && IsPrime(row.a, row.b) && IsPrime(row.b, row.c) && IsPrime(row.c, row.d)
  }

  predicate IsCube(p: nat, k: nat) {
    var n := Whole(p) * WORD64 + k;
    k < WORD64 && Cube(n) <= p * Cube(WORD64) < Cube(n + 1)
  }

  predicate CubeRow(ps: Row, ks: Row) {
    IsCube(ps.a, ks.a) && IsCube(ps.b, ks.b) && IsCube(ps.c, ks.c) && IsCube(ps.d, ks.d)
  }

  predicate TopRow(wide: Row, narrow: Row) {
    && narrow.a == wide.a / 0x1_0000_0000 && narrow.b == wide.b / 0x1_0000_0000
    && narrow.c == wide.c / 0x1_0000_0000 && narrow.d == wide.d / 0x1_0000_0000
  }

  predicate PrimesFit(r: nat) {
    r < |PRIMES| == 20 && PrimeRow(if r == 0 then 1 else PRIMES[r - 1].d, PRIMES[r])
  }

  predicate CubesFit(r: nat) {
    r < |PRIMES| == |Sha512.ROUND_CONSTANTS| == 20 && CubeRow(PRIMES[r], Sha512.ROUND_CONSTANTS[r])
  }

  predicate TopsFit(r: nat) {
    && r < |Sha256.ROUND_CONSTANTS| == 16 && |Sha512.ROUND_CONSTANTS| == 20
    && TopRow(Sha512.ROUND_CONSTANTS[r], Sha256.ROUND_CONSTANTS[r])
  }

  lemma {:induction false} Primes0()
    ensures PrimesFit(0) && PrimesFit(1) && PrimesFit(2) && PrimesFit(3) && PrimesFit(4)
    ensures PrimesFit(5) && PrimesFit(6) && PrimesFit(7) && PrimesFit(8) && PrimesFit(9)
  {
  }

  lemma {:induction false} Primes1()
    ensures PrimesFit(10) && PrimesFit(11) && PrimesFit(12) && PrimesFit(13) && PrimesFit(14)
    ensures PrimesFit(15) && PrimesFit(16) && PrimesFit(17) && PrimesFit(18) && PrimesFit(19)
  {
  }

  lemma {:induction false} Tops0()
    ensures TopsFit(0) && TopsFit(1) && TopsFit(2) && TopsFit(3)
  {
  }

  lemma {:induction false} Tops1()
    ensures TopsFit(4) && TopsFit(5) && TopsFit(6) && TopsFit(7)
  {
  }

  lemma {:induction false} Tops2()
    ensures TopsFit(8) && TopsFit(9) && TopsFit(10) && TopsFit(11)
  {
  }

  lemma {:induction false} Tops3()
    ensures TopsFit(12) && TopsFit(13) && TopsFit(14) && TopsFit(15)
  {
  }

  lemma {:induction false} Cubes0()
    ensures CubesFit(0) && CubesFit(1)
  {
  }

  lemma {:induction false} Cubes1()
    ensures CubesFit(2) && CubesFit(3)
  {
  }

  lemma {:induction false} Cubes2()
    ensures CubesFit(4) && CubesFit(5)
  {
  }

  lemma {:induction false} Cubes3()
    ensures CubesFit(6) && CubesFit(7)
  {
  }

  lemma {:induction false} Cubes4()
    ensures CubesFit(8) && CubesFit(9)
  {
  }

  lemma {:induction false} Cubes5()
    ensures CubesFit(10) && CubesFit(11)
  {
  }

  lemma {:induction false} Cubes6()
    ensures CubesFit(12) && CubesFit(13)
  {
  }

  lemma {:induction false} Cubes7()
    ensures CubesFit(14) && CubesFit(15)
  {
  }

  lemma {:induction false} Cubes8()
    ensures CubesFit(16) && CubesFit(17)
  {
  }

  lemma {:induction false} Cubes9()
    ensures CubesFit(18) && CubesFit(19)
  {
  }

  lemma {:induction false} AllCubes(r: nat)
    requires r < 20
    ensures CubesFit(r)
  {
    hide CubesFit;
    Cubes0();
    Cubes1();
    Cubes2();
    Cubes3();
    Cubes4();
    Cubes5();
    Cubes6();
    Cubes7();
    Cubes8();
    Cubes9();
  }

  lemma {:induction false} CubeWitness(p: nat, k: nat)
    requires IsCube(p, k)
    ensures CubeRootFraction(k, WORD64, p)
  {
  }

  function Whole(p: nat): nat {
    if p < 8 then 1 else if p < 27 then 2 else if p < 64 then 3 else if p < 125 then 4
    else if p < 216 then 5 else if p < 343 then 6 else 7
  }

  /** The table lists primes: no divisor up to the root, and every entry above the last. */
  lemma {:induction false} PrimesArePrime(r: nat)
    requires r < 20
    ensures |PRIMES| == 20 && PrimeRow(if r == 0 then 1 else PRIMES[r - 1].d, PRIMES[r])
  {
    hide PrimeRow;
    Primes0();
    Primes1();
    assert PrimesFit(r);
  }

  /** SHA-512's round constants: the first 64 bits of the fractions of the cube roots of the
      first eighty primes. */
  lemma {:induction false} Sha512Constants(t: nat)
    requires t < 80
    ensures CubeRootFraction(Sha512.K(t), WORD64, Prime(t))
  {
    hide IsCube, CubeRootFraction;
    AllCubes(t / 4);
    CubeWitness(Prime(t), Sha512.K(t));
  }

  /** SHA-256's: the first 32 bits, for the first sixty-four primes. */
  lemma {:induction false} Sha256Constants(t: nat)
    requires t < 64
    ensures Sha256.K(t) == Sha512.K(t) / 0x1_0000_0000
  {
    Tops0();
    Tops1();
    Tops2();
    Tops3();
    assert TopsFit(t / 4);
  }

  function WholeRoot(p: nat): nat {
    if p < 4 then 1 else if p < 9 then 2 else if p < 16 then 3 else if p < 25 then 4
    else if p < 36 then 5 else if p < 49 then 6 else 7
  }

  predicate IsSquare(p: nat, k: nat) {
    var n := WholeRoot(p) * WORD64 + k;
    k < WORD64 && Square(n) <= p * Square(WORD64) < Square(n + 1)
  }

  lemma {:induction false} SquareWitness(p: nat, k: nat)
    requires IsSquare(p, k)
    ensures SquareRootFraction(k, WORD64, p)
  {
  }

  predicate StartFits(is384: bool, i: nat) {
    i < 8 && IsSquare(Prime(if is384 then 8 + i else i), HashTypes.Sha512Start(is384)[i])
  }

  lemma {:induction false} Starts512()
    ensures StartFits(false, 0) && StartFits(false, 1) && StartFits(false, 2) && StartFits(false, 3)
  {
  }

  lemma {:induction false} MoreStarts512()
    ensures StartFits(false, 4) && StartFits(false, 5) && StartFits(false, 6) && StartFits(false, 7)
  {
  }

  lemma {:induction false} Starts384()
    ensures StartFits(true, 0) && StartFits(true, 1) && StartFits(true, 2) && StartFits(true, 3)
  {
  }

  lemma {:induction false} MoreStarts384()
    ensures StartFits(true, 4) && StartFits(true, 5) && StartFits(true, 6) && StartFits(true, 7)
  {
  }

  /** The start of SHA-512 and SHA-384: the first 64 bits of the fractions of the square roots
      of the first and of the second eight primes. */
  lemma {:induction false} Sha512Starts(is384: bool, i: nat)
    requires i < 8
    ensures SquareRootFraction(HashTypes.Sha512Start(is384)[i], WORD64, Prime(if is384 then 8 + i else i))
  {
    hide IsSquare, SquareRootFraction, Prime, HashTypes.Sha512Start;
    Starts512();
    MoreStarts512();
    Starts384();
    MoreStarts384();
    assert StartFits(is384, i);
    SquareWitness(Prime(if is384 then 8 + i else i), HashTypes.Sha512Start(is384)[i]);
  }

  /** SHA-256 starts from the first 32 bits of the former, SHA-224 from the second 32 bits of
      the latter. */
  lemma {:induction false} Sha256Starts(i: nat)
    requires i < 8
    ensures HashTypes.Sha256Start(false)[i] == HashTypes.Sha512Start(false)[i] / 0x1_0000_0000
    ensures HashTypes.Sha256Start(true)[i] == HashTypes.Sha512Start(true)[i] % 0x1_0000_0000
  {
  }

  /** SHA-1's round constants: the square roots of 2, 3, 5 and 10, to 30 bits. */
  lemma {:induction false} Sha1Constants(t: nat)
    requires t < 80
    ensures var n := if t < 20 then 2 else if t < 40 then 3 else if t < 60 then 5 else 10;
      Square(Sha1.K(t)) <= n * Square(0x4000_0000) < Square(Sha1.K(t) + 1)
  {
  }

  /** SHA-1's start: the bytes, least significant first, count up, down, and in step. */
  lemma {:induction false} Sha1Starts()
    ensures var h := HashTypes.Sha1Start();
      && h[0] == Little(0x01, 0x22) && h[1] == Little(0x89, 0x22)
      && h[2] == Little(0xFE, -0x22) && h[3] == Little(0x76, -0x22) && h[4] == Little(0xF0, -0x0F)
  {
  }

  /** Four bytes in arithmetic progression, least significant first. */
  function Little(b: int, step: int): int {
    b + (b + step) * 0x100 + (b + 2 * step) * 0x1_0000 + (b + 3 * step) * 0x100_0000
  }
}

/**
 Where the constants of the two hash functions come from (sections 4.2.2 and 5.3.3 of FIPS 180-4 for
 SHA-256): fractions of roots of primes, as inequalities of integers.
 */
module ShaConstants {
  import Sha1
  import Sha256

  // The first sixty-four primes.
  const PRIMES: seq<nat> :=
    [2, 3, 5, 7, 11, 13, 17, 19] +
    [23, 29, 31, 37, 41, 43, 47, 53] +
    [59, 61, 67, 71, 73, 79, 83, 89] +
    [97, 101, 103, 107, 109, 113, 127, 131] +
    [137, 139, 149, 151, 157, 163, 167, 173] +
    [179, 181, 191, 193, 197, 199, 211, 223] +
    [227, 229, 233, 239, 241, 251, 257, 263] +
    [269, 271, 277, 281, 283, 293, 307, 311]

  function Square(x: nat): nat { x * x }
  function Cube(x: nat): nat { x * x * x }

  // k is the first 32 bits of the fraction of the cube root of p: a is the whole part of the root,
  // and a * 2^32 + k that of the root times 2^32.
  predicate CubeRootFraction(k: nat, p: nat, a: nat) {
    && k < 0x1_0000_0000
    && Cube(a) <= p < Cube(a + 1)
    && Cube(a * 0x1_0000_0000 + k) <= p * 0x1_0000_0000_0000_0000_0000_0000 < Cube(a * 0x1_0000_0000 + k + 1)
  }

  predicate SquareRootFraction(k: nat, p: nat, a: nat) {
    && k < 0x1_0000_0000
    && Square(a) <= p < Square(a + 1)
    && Square(a * 0x1_0000_0000 + k) <= p * 0x1_0000_0000_0000_0000 < Square(a * 0x1_0000_0000 + k + 1)
  }

  predicate CubeAt(i: nat, a: nat)
    requires i < 64
  {
    CubeRootFraction(Sha256.K[i] as nat, PRIMES[i], a)
  }

  lemma Cubes0()
    ensures CubeAt(0, 1) && CubeAt(1, 1) && CubeAt(2, 1) && CubeAt(3, 1)
    ensures CubeAt(4, 2) && CubeAt(5, 2) && CubeAt(6, 2) && CubeAt(7, 2)
  {
  }

  lemma Cubes8()
    ensures CubeAt(8, 2) && CubeAt(9, 3) && CubeAt(10, 3) && CubeAt(11, 3)
    ensures CubeAt(12, 3) && CubeAt(13, 3) && CubeAt(14, 3) && CubeAt(15, 3)
  {
  }

  lemma Cubes16()
    ensures CubeAt(16, 3) && CubeAt(17, 3) && CubeAt(18, 4) && CubeAt(19, 4)
    ensures CubeAt(20, 4) && CubeAt(21, 4) && CubeAt(22, 4) && CubeAt(23, 4)
  {
  }

  lemma Cubes24()
    ensures CubeAt(24, 4) && CubeAt(25, 4) && CubeAt(26, 4) && CubeAt(27, 4)
    ensures CubeAt(28, 4) && CubeAt(29, 4) && CubeAt(30, 5) && CubeAt(31, 5)
  {
  }

  lemma Cubes32()
    ensures CubeAt(32, 5) && CubeAt(33, 5) && CubeAt(34, 5) && CubeAt(35, 5)
    ensures CubeAt(36, 5) && CubeAt(37, 5) && CubeAt(38, 5) && CubeAt(39, 5)
  {
  }

  lemma Cubes40()
    ensures CubeAt(40, 5) && CubeAt(41, 5) && CubeAt(42, 5) && CubeAt(43, 5)
    ensures CubeAt(44, 5) && CubeAt(45, 5) && CubeAt(46, 5) && CubeAt(47, 6)
  {
  }

  lemma Cubes48()
    ensures CubeAt(48, 6) && CubeAt(49, 6) && CubeAt(50, 6) && CubeAt(51, 6)
    ensures CubeAt(52, 6) && CubeAt(53, 6) && CubeAt(54, 6) && CubeAt(55, 6)
  {
  }

  lemma Cubes56()
    ensures CubeAt(56, 6) && CubeAt(57, 6) && CubeAt(58, 6) && CubeAt(59, 6)
    ensures CubeAt(60, 6) && CubeAt(61, 6) && CubeAt(62, 6) && CubeAt(63, 6)
  {
  }

  // K[i] is the first 32 bits of the fraction of the cube root of the i-th prime.
  lemma CubeRoots(i: nat) returns (a: nat)
    requires i < 64
    ensures CubeAt(i, a)
  {
    hide CubeAt;
    a := if i < 4 then 1 else if i < 9 then 2 else if i < 18 then 3 else if i < 30 then 4 else if i < 47 then 5 else 6;
    if i < 8 {
      Cubes0();
      assert i == 0 || i == 1 || i == 2 || i == 3 || i == 4 || i == 5 || i == 6 || i == 7;
    } else if i < 16 {
      Cubes8();
      assert i == 8 || i == 9 || i == 10 || i == 11 || i == 12 || i == 13 || i == 14 || i == 15;
    } else if i < 24 {
      Cubes16();
      assert i == 16 || i == 17 || i == 18 || i == 19 || i == 20 || i == 21 || i == 22 || i == 23;
    } else if i < 32 {
      Cubes24();
      assert i == 24 || i == 25 || i == 26 || i == 27 || i == 28 || i == 29 || i == 30 || i == 31;
    } else if i < 40 {
      Cubes32();
      assert i == 32 || i == 33 || i == 34 || i == 35 || i == 36 || i == 37 || i == 38 || i == 39;
    } else if i < 48 {
      Cubes40();
      assert i == 40 || i == 41 || i == 42 || i == 43 || i == 44 || i == 45 || i == 46 || i == 47;
    } else if i < 56 {
      Cubes48();
      assert i == 48 || i == 49 || i == 50 || i == 51 || i == 52 || i == 53 || i == 54 || i == 55;
    } else {
      Cubes56();
      assert i == 56 || i == 57 || i == 58 || i == 59 || i == 60 || i == 61 || i == 62 || i == 63;
    }
  }

  predicate SquareAt(i: nat, a: nat)
    requires i < 8
  {
    SquareRootFraction(Sha256.START[i] as nat, PRIMES[i], a)
  }

  // START[i] is the first 32 bits of the fraction of the square root of the i-th prime.
  lemma SquareRoots(i: nat) returns (a: nat)
    requires i < 8
    ensures SquareAt(i, a)
  {
    assert SquareAt(0, 1) && SquareAt(1, 1) && SquareAt(2, 2) && SquareAt(3, 2) && SquareAt(4, 3) && SquareAt(5, 3) && SquareAt(6, 4) && SquareAt(7, 4);
    hide SquareAt;
    a := if i < 2 then 1 else if i < 4 then 2 else if i < 6 then 3 else 4;
    assert i == 0 || i == 1 || i == 2 || i == 3 || i == 4 || i == 5 || i == 6 || i == 7;
  }

  // Those of SHA-1 are the square roots of 2, 3, 5 and 10, times 2^30.
  lemma Sha1Roots(t: nat)
    requires t < 80
    ensures var k, n := Sha1.K(t) as nat, if t < 20 then 2 else if t < 40 then 3 else if t < 60 then 5 else 10;
      Square(k) <= n * 0x1000_0000_0000_0000 < Square(k + 1)
  {
  }

  // Four bytes in equal steps, as a number with the first byte least significant.
  function Stepped(first: int, step: int): int {
    first + (first + step) * 0x100 + (first + 2 * step) * 0x1_0000 + (first + 3 * step) * 0x100_0000
  }

  // And it starts with bytes that count up from 0x01 to 0xEF, down from 0xFE to 0x10, and down from 0xF0.
  lemma Sha1Start()
    ensures var r := Sha1.Start();
      r.a as int == Stepped(0x01, 0x22) && r.b as int == Stepped(0x89, 0x22) &&
      r.c as int == Stepped(0xFE, -0x22) && r.d as int == Stepped(0x76, -0x22) && r.e as int == Stepped(0xF0, -0x0F)
  {
  }
}

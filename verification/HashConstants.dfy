/**
 Where the words of SHA-256 and SHA-512 come from (sections 4.2.2, 4.2.3, 5.3.3 and 5.3.5 of FIPS 180-4): the first
 32 or 64 bits after the binary point of the cube roots and square roots of the first primes.
 */
module HashConstants {
  import opened Bytes
  import opened Primes
  import AppSha512
  import Sha256
  import Sha512

  function Cube(n: nat): nat { n * n * n }

  function Square(n: nat): nat { n * n }

  /** The integer cube root. */
  function CubeRoot(n: nat): (c: nat)
    ensures Cube(c) <= n < Cube(c + 1)
  {
    if n == 0 then 0 else
      var c := CubeRoot(n - 1);
      CubeRises(c + 1);
      if Cube(c + 1) <= n then c + 1 else c
  }

  /** The integer square root. */
  function SquareRoot(n: nat): (c: nat)
    ensures Square(c) <= n < Square(c + 1)
  {
    if n == 0 then 0 else
      var c := SquareRoot(n - 1);
      if Square(c + 1) <= n then c + 1 else c
  }

  lemma CubeRises(c: nat)
    ensures Cube(c) < Cube(c + 1)
  {
    var x, y := c * c, (c + 1) * (c + 1);
    assert y == x + 2 * c + 1;
    Larger(x, y, c);
  }

  lemma Larger(x: nat, y: nat, k: nat)
    requires x < y
    ensures x * k < y * (k + 1)
  {}

  /** `x / unit` is the cube root of `p`, rounded down to a multiple of 1 / unit. */
  predicate CubeBits(p: nat, unit: nat, x: nat) {
    Cube(x) <= p * Cube(unit) < Cube(x + 1)
  }

  predicate SquareBits(p: nat, unit: nat, x: nat) {
    Square(x) <= p * Square(unit) < Square(x + 1)
  }

  lemma CubesApart(c: nat, d: nat, p: nat)
    requires Cube(c) <= p < Cube(c + 1) && Cube(d) <= p < Cube(d + 1)
    ensures c == d
  {
    hide Cube;
    if c < d { CubesOrdered(c + 1, d); } else if d < c { CubesOrdered(d + 1, c); }
  }

  lemma {:induction false} CubesOrdered(c: nat, d: nat)
    requires c <= d
    ensures Cube(c) <= Cube(d)
    decreases d - c
  {
    hide Cube;
    if c < d {
      CubesOrdered(c, d - 1);
      CubeRises(d - 1);
    }
  }

  lemma SquaresApart(c: nat, d: nat, p: nat)
    requires Square(c) <= p < Square(c + 1) && Square(d) <= p < Square(d + 1)
    ensures c == d
  {
    hide Square;
    if c < d { SquaresOrdered(c + 1, d); } else if d < c { SquaresOrdered(d + 1, c); }
  }

  lemma SquaresOrdered(c: nat, d: nat)
    requires c <= d
    ensures Square(c) <= Square(d)
  {
    MulMonotone(c, d, c);
    MulMonotone(c, d, d);
  }

  lemma BitsUnique(p: nat, unit: nat, x: nat, y: nat)
    requires CubeBits(p, unit, x) && CubeBits(p, unit, y)
    ensures x == y
  {
    hide Cube;
    CubesApart(x, y, p * Cube(unit));
  }

  // ----- SHA-256 --------------------------------------------------------------------------------------------

  const UNIT32: nat := 0x1_0000_0000

  function Num32(x: bv32): nat { x as nat }

  /** Constant `t` is the start of the fractional part of the cube root of prime `t`. */
  predicate Cubic256(t: nat)
    requires t < 64
  {
    CubeBits(Prime(t), UNIT32, CubeRoot(Prime(t)) * UNIT32 + Num32(Sha256.K(t)))
  }

  lemma Cubic256By(t: nat, c: nat, p: nat, k: bv32)
    requires t < 64
    ensures (Prime(t) == p && Sha256.K(t) == k && Cube(c) <= p < Cube(c + 1)
             && CubeBits(p, UNIT32, c * UNIT32 + Num32(k))) ==> Cubic256(t)
  {
    hide Prime, Sha256.K, CubeBits, Num32;
    if Cube(c) <= p < Cube(c + 1) { CubesApart(CubeRoot(p), c, p); }
  }

  lemma Words256From0()
    ensures Sha256.K(0) == 0x428a2f98 && Sha256.K(1) == 0x71374491
    ensures Sha256.K(2) == 0xb5c0fbcf && Sha256.K(3) == 0xe9b5dba5
    ensures Sha256.K(4) == 0x3956c25b && Sha256.K(5) == 0x59f111f1
    ensures Sha256.K(6) == 0x923f82a4 && Sha256.K(7) == 0xab1c5ed5
  {}

  lemma Cubes256From0()
    ensures Cubic256(0) && Cubic256(1) && Cubic256(2) && Cubic256(3)
    ensures Cubic256(4) && Cubic256(5) && Cubic256(6) && Cubic256(7)
  {
    hide Cubic256, CubeRoot, Prime, Sha256.K;
    Row0();
    Words256From0();
    Cubic256By(0, 1, 2, 0x428a2f98);
    Cubic256By(1, 1, 3, 0x71374491);
    Cubic256By(2, 1, 5, 0xb5c0fbcf);
    Cubic256By(3, 1, 7, 0xe9b5dba5);
    Cubic256By(4, 2, 11, 0x3956c25b);
    Cubic256By(5, 2, 13, 0x59f111f1);
    Cubic256By(6, 2, 17, 0x923f82a4);
    Cubic256By(7, 2, 19, 0xab1c5ed5);
  }

  lemma Words256From8()
    ensures Sha256.K(8) == 0xd807aa98 && Sha256.K(9) == 0x12835b01
    ensures Sha256.K(10) == 0x243185be && Sha256.K(11) == 0x550c7dc3
    ensures Sha256.K(12) == 0x72be5d74 && Sha256.K(13) == 0x80deb1fe
    ensures Sha256.K(14) == 0x9bdc06a7 && Sha256.K(15) == 0xc19bf174
  {}

  lemma Cubes256From8()
    ensures Cubic256(8) && Cubic256(9) && Cubic256(10) && Cubic256(11)
    ensures Cubic256(12) && Cubic256(13) && Cubic256(14) && Cubic256(15)
  {
    hide Cubic256, CubeRoot, Prime, Sha256.K;
    Row1();
    Words256From8();
    Cubic256By(8, 2, 23, 0xd807aa98);
    Cubic256By(9, 3, 29, 0x12835b01);
    Cubic256By(10, 3, 31, 0x243185be);
    Cubic256By(11, 3, 37, 0x550c7dc3);
    Cubic256By(12, 3, 41, 0x72be5d74);
    Cubic256By(13, 3, 43, 0x80deb1fe);
    Cubic256By(14, 3, 47, 0x9bdc06a7);
    Cubic256By(15, 3, 53, 0xc19bf174);
  }

  lemma Words256From16()
    ensures Sha256.K(16) == 0xe49b69c1 && Sha256.K(17) == 0xefbe4786
    ensures Sha256.K(18) == 0x0fc19dc6 && Sha256.K(19) == 0x240ca1cc
    ensures Sha256.K(20) == 0x2de92c6f && Sha256.K(21) == 0x4a7484aa
    ensures Sha256.K(22) == 0x5cb0a9dc && Sha256.K(23) == 0x76f988da
  {}

  lemma Cubes256From16()
    ensures Cubic256(16) && Cubic256(17) && Cubic256(18) && Cubic256(19)
    ensures Cubic256(20) && Cubic256(21) && Cubic256(22) && Cubic256(23)
  {
    hide Cubic256, CubeRoot, Prime, Sha256.K;
    Row2();
    Words256From16();
    Cubic256By(16, 3, 59, 0xe49b69c1);
    Cubic256By(17, 3, 61, 0xefbe4786);
    Cubic256By(18, 4, 67, 0x0fc19dc6);
    Cubic256By(19, 4, 71, 0x240ca1cc);
    Cubic256By(20, 4, 73, 0x2de92c6f);
    Cubic256By(21, 4, 79, 0x4a7484aa);
    Cubic256By(22, 4, 83, 0x5cb0a9dc);
    Cubic256By(23, 4, 89, 0x76f988da);
  }

  lemma Words256From24()
    ensures Sha256.K(24) == 0x983e5152 && Sha256.K(25) == 0xa831c66d
    ensures Sha256.K(26) == 0xb00327c8 && Sha256.K(27) == 0xbf597fc7
    ensures Sha256.K(28) == 0xc6e00bf3 && Sha256.K(29) == 0xd5a79147
    ensures Sha256.K(30) == 0x06ca6351 && Sha256.K(31) == 0x14292967
  {}

  lemma Cubes256From24()
    ensures Cubic256(24) && Cubic256(25) && Cubic256(26) && Cubic256(27)
    ensures Cubic256(28) && Cubic256(29) && Cubic256(30) && Cubic256(31)
  {
    hide Cubic256, CubeRoot, Prime, Sha256.K;
    Row3();
    Words256From24();
    Cubic256By(24, 4, 97, 0x983e5152);
    Cubic256By(25, 4, 101, 0xa831c66d);
    Cubic256By(26, 4, 103, 0xb00327c8);
    Cubic256By(27, 4, 107, 0xbf597fc7);
    Cubic256By(28, 4, 109, 0xc6e00bf3);
    Cubic256By(29, 4, 113, 0xd5a79147);
    Cubic256By(30, 5, 127, 0x06ca6351);
    Cubic256By(31, 5, 131, 0x14292967);
  }

  lemma Words256From32()
    ensures Sha256.K(32) == 0x27b70a85 && Sha256.K(33) == 0x2e1b2138
    ensures Sha256.K(34) == 0x4d2c6dfc && Sha256.K(35) == 0x53380d13
    ensures Sha256.K(36) == 0x650a7354 && Sha256.K(37) == 0x766a0abb
    ensures Sha256.K(38) == 0x81c2c92e && Sha256.K(39) == 0x92722c85
  {}

  lemma Cubes256From32()
    ensures Cubic256(32) && Cubic256(33) && Cubic256(34) && Cubic256(35)
    ensures Cubic256(36) && Cubic256(37) && Cubic256(38) && Cubic256(39)
  {
    hide Cubic256, CubeRoot, Prime, Sha256.K;
    Row4();
    Words256From32();
    Cubic256By(32, 5, 137, 0x27b70a85);
    Cubic256By(33, 5, 139, 0x2e1b2138);
    Cubic256By(34, 5, 149, 0x4d2c6dfc);
    Cubic256By(35, 5, 151, 0x53380d13);
    Cubic256By(36, 5, 157, 0x650a7354);
    Cubic256By(37, 5, 163, 0x766a0abb);
    Cubic256By(38, 5, 167, 0x81c2c92e);
    Cubic256By(39, 5, 173, 0x92722c85);
  }

  lemma Words256From40()
    ensures Sha256.K(40) == 0xa2bfe8a1 && Sha256.K(41) == 0xa81a664b
    ensures Sha256.K(42) == 0xc24b8b70 && Sha256.K(43) == 0xc76c51a3
    ensures Sha256.K(44) == 0xd192e819 && Sha256.K(45) == 0xd6990624
    ensures Sha256.K(46) == 0xf40e3585 && Sha256.K(47) == 0x106aa070
  {}

  lemma Cubes256From40()
    ensures Cubic256(40) && Cubic256(41) && Cubic256(42) && Cubic256(43)
    ensures Cubic256(44) && Cubic256(45) && Cubic256(46) && Cubic256(47)
  {
    hide Cubic256, CubeRoot, Prime, Sha256.K;
    Row5();
    Words256From40();
    Cubic256By(40, 5, 179, 0xa2bfe8a1);
    Cubic256By(41, 5, 181, 0xa81a664b);
    Cubic256By(42, 5, 191, 0xc24b8b70);
    Cubic256By(43, 5, 193, 0xc76c51a3);
    Cubic256By(44, 5, 197, 0xd192e819);
    Cubic256By(45, 5, 199, 0xd6990624);
    Cubic256By(46, 5, 211, 0xf40e3585);
    Cubic256By(47, 6, 223, 0x106aa070);
  }

  lemma Words256From48()
    ensures Sha256.K(48) == 0x19a4c116 && Sha256.K(49) == 0x1e376c08
    ensures Sha256.K(50) == 0x2748774c && Sha256.K(51) == 0x34b0bcb5
    ensures Sha256.K(52) == 0x391c0cb3 && Sha256.K(53) == 0x4ed8aa4a
    ensures Sha256.K(54) == 0x5b9cca4f && Sha256.K(55) == 0x682e6ff3
  {}

  lemma Cubes256From48()
    ensures Cubic256(48) && Cubic256(49) && Cubic256(50) && Cubic256(51)
    ensures Cubic256(52) && Cubic256(53) && Cubic256(54) && Cubic256(55)
  {
    hide Cubic256, CubeRoot, Prime, Sha256.K;
    Row6();
    Words256From48();
    Cubic256By(48, 6, 227, 0x19a4c116);
    Cubic256By(49, 6, 229, 0x1e376c08);
    Cubic256By(50, 6, 233, 0x2748774c);
    Cubic256By(51, 6, 239, 0x34b0bcb5);
    Cubic256By(52, 6, 241, 0x391c0cb3);
    Cubic256By(53, 6, 251, 0x4ed8aa4a);
    Cubic256By(54, 6, 257, 0x5b9cca4f);
    Cubic256By(55, 6, 263, 0x682e6ff3);
  }

  lemma Words256From56()
    ensures Sha256.K(56) == 0x748f82ee && Sha256.K(57) == 0x78a5636f
    ensures Sha256.K(58) == 0x84c87814 && Sha256.K(59) == 0x8cc70208
    ensures Sha256.K(60) == 0x90befffa && Sha256.K(61) == 0xa4506ceb
    ensures Sha256.K(62) == 0xbef9a3f7 && Sha256.K(63) == 0xc67178f2
  {}

  lemma Cubes256From56()
    ensures Cubic256(56) && Cubic256(57) && Cubic256(58) && Cubic256(59)
    ensures Cubic256(60) && Cubic256(61) && Cubic256(62) && Cubic256(63)
  {
    hide Cubic256, CubeRoot, Prime, Sha256.K;
    Row7();
    Words256From56();
    Cubic256By(56, 6, 269, 0x748f82ee);
    Cubic256By(57, 6, 271, 0x78a5636f);
    Cubic256By(58, 6, 277, 0x84c87814);
    Cubic256By(59, 6, 281, 0x8cc70208);
    Cubic256By(60, 6, 283, 0x90befffa);
    Cubic256By(61, 6, 293, 0xa4506ceb);
    Cubic256By(62, 6, 307, 0xbef9a3f7);
    Cubic256By(63, 6, 311, 0xc67178f2);
  }

  /** Each round constant of SHA-256 is the start of the fractional part of the cube root of its prime. */
  lemma RoundConstants256(t: nat)
    requires t < 64
    ensures Cubic256(t)
  {
    hide Cubic256;
    if t < 8 {
      Cubes256From0();
    } else if t < 16 {
      Cubes256From8();
    } else if t < 24 {
      Cubes256From16();
    } else if t < 32 {
      Cubes256From24();
    } else if t < 40 {
      Cubes256From32();
    } else if t < 48 {
      Cubes256From40();
    } else if t < 56 {
      Cubes256From48();
    } else {
      Cubes256From56();
    }
  }

  /** Starting word `h` is the start of the fractional part of the square root of prime `i`. */
  predicate Squared256(i: nat, h: bv32)
    requires i < 80
  {
    SquareBits(Prime(i), UNIT32, SquareRoot(Prime(i)) * UNIT32 + Num32(h))
  }

  lemma Squared256By(i: nat, h: bv32, c: nat, p: nat)
    requires i < 80
    ensures (Prime(i) == p && Square(c) <= p < Square(c + 1)
             && SquareBits(p, UNIT32, c * UNIT32 + Num32(h))) ==> Squared256(i, h)
  {
    hide Prime, SquareBits, Num32;
    if Square(c) <= p < Square(c + 1) { SquaresApart(SquareRoot(p), c, p); }
  }

  /** The eight words that SHA-256 starts from, in order. */
  lemma InitialWords256()
    ensures var s := Sha256.Initial();
            && Squared256(0, s.a) && Squared256(1, s.b) && Squared256(2, s.c) && Squared256(3, s.d)
            && Squared256(4, s.e) && Squared256(5, s.f) && Squared256(6, s.g) && Squared256(7, s.h)
  {
    hide Squared256, SquareRoot;
    Row0();
    Squared256By(0, 0x6a09e667, 1, 2);
    Squared256By(1, 0xbb67ae85, 1, 3);
    Squared256By(2, 0x3c6ef372, 2, 5);
    Squared256By(3, 0xa54ff53a, 2, 7);
    Squared256By(4, 0x510e527f, 3, 11);
    Squared256By(5, 0x9b05688c, 3, 13);
    Squared256By(6, 0x1f83d9ab, 4, 17);
    Squared256By(7, 0x5be0cd19, 4, 19);
  }

  // ----- SHA-512 --------------------------------------------------------------------------------------------

  const UNIT64: nat := 0x1_0000_0000_0000_0000

  function Num64(x: bv64): nat { x as nat }

  /** Constant `t` is the start of the fractional part of the cube root of prime `t`. */
  predicate Cubic512(v: Sha512.Version, t: nat)
    requires t < 80
  {
    CubeBits(Prime(t), UNIT64, CubeRoot(Prime(t)) * UNIT64 + Num64(Sha512.K(v, t)))
  }

  lemma Cubic512By(t: nat, c: nat, p: nat, k: bv64)
    requires t < 80
    ensures (Prime(t) == p && Sha512.K(Sha512.Standard, t) == k && Cube(c) <= p < Cube(c + 1)
             && CubeBits(p, UNIT64, c * UNIT64 + Num64(k))) ==> Cubic512(Sha512.Standard, t)
  {
    hide Prime, Sha512.K, CubeBits, Num64;
    if Cube(c) <= p < Cube(c + 1) { CubesApart(CubeRoot(p), c, p); }
  }

  lemma Words512From0()
    ensures Sha512.K(Sha512.Standard, 0) == 0x428a2f98d728ae22 && Sha512.K(Sha512.Standard, 1) == 0x7137449123ef65cd
    ensures Sha512.K(Sha512.Standard, 2) == 0xb5c0fbcfec4d3b2f && Sha512.K(Sha512.Standard, 3) == 0xe9b5dba58189dbbc
    ensures Sha512.K(Sha512.Standard, 4) == 0x3956c25bf348b538 && Sha512.K(Sha512.Standard, 5) == 0x59f111f1b605d019
    ensures Sha512.K(Sha512.Standard, 6) == 0x923f82a4af194f9b && Sha512.K(Sha512.Standard, 7) == 0xab1c5ed5da6d8118
  {}

  lemma Cubes512From0()
    ensures Cubic512(Sha512.Standard, 0) && Cubic512(Sha512.Standard, 1)
    ensures Cubic512(Sha512.Standard, 2) && Cubic512(Sha512.Standard, 3)
    ensures Cubic512(Sha512.Standard, 4) && Cubic512(Sha512.Standard, 5)
    ensures Cubic512(Sha512.Standard, 6) && Cubic512(Sha512.Standard, 7)
  {
    hide Cubic512, CubeRoot, Prime, Sha512.K;
    Row0();
    Words512From0();
    Cubic512By(0, 1, 2, 0x428a2f98d728ae22);
    Cubic512By(1, 1, 3, 0x7137449123ef65cd);
    Cubic512By(2, 1, 5, 0xb5c0fbcfec4d3b2f);
    Cubic512By(3, 1, 7, 0xe9b5dba58189dbbc);
    Cubic512By(4, 2, 11, 0x3956c25bf348b538);
    Cubic512By(5, 2, 13, 0x59f111f1b605d019);
    Cubic512By(6, 2, 17, 0x923f82a4af194f9b);
    Cubic512By(7, 2, 19, 0xab1c5ed5da6d8118);
  }

  lemma Words512From8()
    ensures Sha512.K(Sha512.Standard, 8) == 0xd807aa98a3030242 && Sha512.K(Sha512.Standard, 9) == 0x12835b0145706fbe
    ensures Sha512.K(Sha512.Standard, 10) == 0x243185be4ee4b28c && Sha512.K(Sha512.Standard, 11) == 0x550c7dc3d5ffb4e2
    ensures Sha512.K(Sha512.Standard, 12) == 0x72be5d74f27b896f && Sha512.K(Sha512.Standard, 13) == 0x80deb1fe3b1696b1
    ensures Sha512.K(Sha512.Standard, 14) == 0x9bdc06a725c71235 && Sha512.K(Sha512.Standard, 15) == 0xc19bf174cf692694
  {}

  lemma Cubes512From8()
    ensures Cubic512(Sha512.Standard, 8) && Cubic512(Sha512.Standard, 9)
    ensures Cubic512(Sha512.Standard, 10) && Cubic512(Sha512.Standard, 11)
    ensures Cubic512(Sha512.Standard, 12) && Cubic512(Sha512.Standard, 13)
    ensures Cubic512(Sha512.Standard, 14) && Cubic512(Sha512.Standard, 15)
  {
    hide Cubic512, CubeRoot, Prime, Sha512.K;
    Row1();
    Words512From8();
    Cubic512By(8, 2, 23, 0xd807aa98a3030242);
    Cubic512By(9, 3, 29, 0x12835b0145706fbe);
    Cubic512By(10, 3, 31, 0x243185be4ee4b28c);
    Cubic512By(11, 3, 37, 0x550c7dc3d5ffb4e2);
    Cubic512By(12, 3, 41, 0x72be5d74f27b896f);
    Cubic512By(13, 3, 43, 0x80deb1fe3b1696b1);
    Cubic512By(14, 3, 47, 0x9bdc06a725c71235);
    Cubic512By(15, 3, 53, 0xc19bf174cf692694);
  }

  lemma Words512From16()
    ensures Sha512.K(Sha512.Standard, 16) == 0xe49b69c19ef14ad2 && Sha512.K(Sha512.Standard, 17) == 0xefbe4786384f25e3
    ensures Sha512.K(Sha512.Standard, 18) == 0x0fc19dc68b8cd5b5 && Sha512.K(Sha512.Standard, 19) == 0x240ca1cc77ac9c65
    ensures Sha512.K(Sha512.Standard, 20) == 0x2de92c6f592b0275 && Sha512.K(Sha512.Standard, 21) == 0x4a7484aa6ea6e483
    ensures Sha512.K(Sha512.Standard, 22) == 0x5cb0a9dcbd41fbd4 && Sha512.K(Sha512.Standard, 23) == 0x76f988da831153b5
  {}

  lemma Cubes512From16()
    ensures Cubic512(Sha512.Standard, 16) && Cubic512(Sha512.Standard, 17)
    ensures Cubic512(Sha512.Standard, 18) && Cubic512(Sha512.Standard, 19)
    ensures Cubic512(Sha512.Standard, 20) && Cubic512(Sha512.Standard, 21)
    ensures Cubic512(Sha512.Standard, 22) && Cubic512(Sha512.Standard, 23)
  {
    hide Cubic512, CubeRoot, Prime, Sha512.K;
    Row2();
    Words512From16();
    Cubic512By(16, 3, 59, 0xe49b69c19ef14ad2);
    Cubic512By(17, 3, 61, 0xefbe4786384f25e3);
    Cubic512By(18, 4, 67, 0x0fc19dc68b8cd5b5);
    Cubic512By(19, 4, 71, 0x240ca1cc77ac9c65);
    Cubic512By(20, 4, 73, 0x2de92c6f592b0275);
    Cubic512By(21, 4, 79, 0x4a7484aa6ea6e483);
    Cubic512By(22, 4, 83, 0x5cb0a9dcbd41fbd4);
    Cubic512By(23, 4, 89, 0x76f988da831153b5);
  }

  lemma Words512From24()
    ensures Sha512.K(Sha512.Standard, 24) == 0x983e5152ee66dfab && Sha512.K(Sha512.Standard, 25) == 0xa831c66d2db43210
    ensures Sha512.K(Sha512.Standard, 26) == 0xb00327c898fb213f && Sha512.K(Sha512.Standard, 27) == 0xbf597fc7beef0ee4
    ensures Sha512.K(Sha512.Standard, 28) == 0xc6e00bf33da88fc2 && Sha512.K(Sha512.Standard, 29) == 0xd5a79147930aa725
    ensures Sha512.K(Sha512.Standard, 30) == 0x06ca6351e003826f && Sha512.K(Sha512.Standard, 31) == 0x142929670a0e6e70
  {}

  lemma Cubes512From24()
    ensures Cubic512(Sha512.Standard, 24) && Cubic512(Sha512.Standard, 25)
    ensures Cubic512(Sha512.Standard, 26) && Cubic512(Sha512.Standard, 27)
    ensures Cubic512(Sha512.Standard, 28) && Cubic512(Sha512.Standard, 29)
    ensures Cubic512(Sha512.Standard, 30) && Cubic512(Sha512.Standard, 31)
  {
    hide Cubic512, CubeRoot, Prime, Sha512.K;
    Row3();
    Words512From24();
    Cubic512By(24, 4, 97, 0x983e5152ee66dfab);
    Cubic512By(25, 4, 101, 0xa831c66d2db43210);
    Cubic512By(26, 4, 103, 0xb00327c898fb213f);
    Cubic512By(27, 4, 107, 0xbf597fc7beef0ee4);
    Cubic512By(28, 4, 109, 0xc6e00bf33da88fc2);
    Cubic512By(29, 4, 113, 0xd5a79147930aa725);
    Cubic512By(30, 5, 127, 0x06ca6351e003826f);
    Cubic512By(31, 5, 131, 0x142929670a0e6e70);
  }

  lemma Words512From32()
    ensures Sha512.K(Sha512.Standard, 32) == 0x27b70a8546d22ffc && Sha512.K(Sha512.Standard, 33) == 0x2e1b21385c26c926
    ensures Sha512.K(Sha512.Standard, 34) == 0x4d2c6dfc5ac42aed && Sha512.K(Sha512.Standard, 35) == 0x53380d139d95b3df
    ensures Sha512.K(Sha512.Standard, 36) == 0x650a73548baf63de && Sha512.K(Sha512.Standard, 37) == 0x766a0abb3c77b2a8
    ensures Sha512.K(Sha512.Standard, 38) == 0x81c2c92e47edaee6 && Sha512.K(Sha512.Standard, 39) == 0x92722c851482353b
  {}

  lemma Cubes512From32()
    ensures Cubic512(Sha512.Standard, 32) && Cubic512(Sha512.Standard, 33)
    ensures Cubic512(Sha512.Standard, 34) && Cubic512(Sha512.Standard, 35)
    ensures Cubic512(Sha512.Standard, 36) && Cubic512(Sha512.Standard, 37)
    ensures Cubic512(Sha512.Standard, 38) && Cubic512(Sha512.Standard, 39)
  {
    hide Cubic512, CubeRoot, Prime, Sha512.K;
    Row4();
    Words512From32();
    Cubic512By(32, 5, 137, 0x27b70a8546d22ffc);
    Cubic512By(33, 5, 139, 0x2e1b21385c26c926);
    Cubic512By(34, 5, 149, 0x4d2c6dfc5ac42aed);
    Cubic512By(35, 5, 151, 0x53380d139d95b3df);
    Cubic512By(36, 5, 157, 0x650a73548baf63de);
    Cubic512By(37, 5, 163, 0x766a0abb3c77b2a8);
    Cubic512By(38, 5, 167, 0x81c2c92e47edaee6);
    Cubic512By(39, 5, 173, 0x92722c851482353b);
  }

  lemma Words512From40()
    ensures Sha512.K(Sha512.Standard, 40) == 0xa2bfe8a14cf10364 && Sha512.K(Sha512.Standard, 41) == 0xa81a664bbc423001
    ensures Sha512.K(Sha512.Standard, 42) == 0xc24b8b70d0f89791 && Sha512.K(Sha512.Standard, 43) == 0xc76c51a30654be30
    ensures Sha512.K(Sha512.Standard, 44) == 0xd192e819d6ef5218 && Sha512.K(Sha512.Standard, 45) == 0xd69906245565a910
    ensures Sha512.K(Sha512.Standard, 46) == 0xf40e35855771202a && Sha512.K(Sha512.Standard, 47) == 0x106aa07032bbd1b8
  {}

  lemma Cubes512From40()
    ensures Cubic512(Sha512.Standard, 40) && Cubic512(Sha512.Standard, 41)
    ensures Cubic512(Sha512.Standard, 42) && Cubic512(Sha512.Standard, 43)
    ensures Cubic512(Sha512.Standard, 44) && Cubic512(Sha512.Standard, 45)
    ensures Cubic512(Sha512.Standard, 46) && Cubic512(Sha512.Standard, 47)
  {
    hide Cubic512, CubeRoot, Prime, Sha512.K;
    Row5();
    Words512From40();
    Cubic512By(40, 5, 179, 0xa2bfe8a14cf10364);
    Cubic512By(41, 5, 181, 0xa81a664bbc423001);
    Cubic512By(42, 5, 191, 0xc24b8b70d0f89791);
    Cubic512By(43, 5, 193, 0xc76c51a30654be30);
    Cubic512By(44, 5, 197, 0xd192e819d6ef5218);
    Cubic512By(45, 5, 199, 0xd69906245565a910);
    Cubic512By(46, 5, 211, 0xf40e35855771202a);
    Cubic512By(47, 6, 223, 0x106aa07032bbd1b8);
  }

  lemma Words512From48()
    ensures Sha512.K(Sha512.Standard, 48) == 0x19a4c116b8d2d0c8 && Sha512.K(Sha512.Standard, 49) == 0x1e376c085141ab53
    ensures Sha512.K(Sha512.Standard, 50) == 0x2748774cdf8eeb99 && Sha512.K(Sha512.Standard, 51) == 0x34b0bcb5e19b48a8
    ensures Sha512.K(Sha512.Standard, 52) == 0x391c0cb3c5c95a63 && Sha512.K(Sha512.Standard, 53) == 0x4ed8aa4ae3418acb
    ensures Sha512.K(Sha512.Standard, 54) == 0x5b9cca4f7763e373 && Sha512.K(Sha512.Standard, 55) == 0x682e6ff3d6b2b8a3
  {}

  lemma Cubes512From48()
    ensures Cubic512(Sha512.Standard, 48) && Cubic512(Sha512.Standard, 49)
    ensures Cubic512(Sha512.Standard, 50) && Cubic512(Sha512.Standard, 51)
    ensures Cubic512(Sha512.Standard, 52) && Cubic512(Sha512.Standard, 53)
    ensures Cubic512(Sha512.Standard, 54) && Cubic512(Sha512.Standard, 55)
  {
    hide Cubic512, CubeRoot, Prime, Sha512.K;
    Row6();
    Words512From48();
    Cubic512By(48, 6, 227, 0x19a4c116b8d2d0c8);
    Cubic512By(49, 6, 229, 0x1e376c085141ab53);
    Cubic512By(50, 6, 233, 0x2748774cdf8eeb99);
    Cubic512By(51, 6, 239, 0x34b0bcb5e19b48a8);
    Cubic512By(52, 6, 241, 0x391c0cb3c5c95a63);
    Cubic512By(53, 6, 251, 0x4ed8aa4ae3418acb);
    Cubic512By(54, 6, 257, 0x5b9cca4f7763e373);
    Cubic512By(55, 6, 263, 0x682e6ff3d6b2b8a3);
  }

  lemma Words512From56()
    ensures Sha512.K(Sha512.Standard, 56) == 0x748f82ee5defb2fc && Sha512.K(Sha512.Standard, 57) == 0x78a5636f43172f60
    ensures Sha512.K(Sha512.Standard, 58) == 0x84c87814a1f0ab72 && Sha512.K(Sha512.Standard, 59) == 0x8cc702081a6439ec
    ensures Sha512.K(Sha512.Standard, 60) == 0x90befffa23631e28 && Sha512.K(Sha512.Standard, 61) == 0xa4506cebde82bde9
    ensures Sha512.K(Sha512.Standard, 62) == 0xbef9a3f7b2c67915 && Sha512.K(Sha512.Standard, 63) == 0xc67178f2e372532b
  {}

  lemma Cubes512From56()
    ensures Cubic512(Sha512.Standard, 56) && Cubic512(Sha512.Standard, 57)
    ensures Cubic512(Sha512.Standard, 58) && Cubic512(Sha512.Standard, 59)
    ensures Cubic512(Sha512.Standard, 60) && Cubic512(Sha512.Standard, 61)
    ensures Cubic512(Sha512.Standard, 62) && Cubic512(Sha512.Standard, 63)
  {
    hide Cubic512, CubeRoot, Prime, Sha512.K;
    Row7();
    Words512From56();
    Cubic512By(56, 6, 269, 0x748f82ee5defb2fc);
    Cubic512By(57, 6, 271, 0x78a5636f43172f60);
    Cubic512By(58, 6, 277, 0x84c87814a1f0ab72);
    Cubic512By(59, 6, 281, 0x8cc702081a6439ec);
    Cubic512By(60, 6, 283, 0x90befffa23631e28);
    Cubic512By(61, 6, 293, 0xa4506cebde82bde9);
    Cubic512By(62, 6, 307, 0xbef9a3f7b2c67915);
    Cubic512By(63, 6, 311, 0xc67178f2e372532b);
  }

  lemma Words512From64()
    ensures Sha512.K(Sha512.Standard, 64) == 0xca273eceea26619c && Sha512.K(Sha512.Standard, 65) == 0xd186b8c721c0c207
    ensures Sha512.K(Sha512.Standard, 66) == 0xeada7dd6cde0eb1e && Sha512.K(Sha512.Standard, 67) == 0xf57d4f7fee6ed178
    ensures Sha512.K(Sha512.Standard, 68) == 0x06f067aa72176fba && Sha512.K(Sha512.Standard, 69) == 0x0a637dc5a2c898a6
    ensures Sha512.K(Sha512.Standard, 70) == 0x113f9804bef90dae && Sha512.K(Sha512.Standard, 71) == 0x1b710b35131c471b
  {}

  lemma Cubes512From64()
    ensures Cubic512(Sha512.Standard, 64) && Cubic512(Sha512.Standard, 65)
    ensures Cubic512(Sha512.Standard, 66) && Cubic512(Sha512.Standard, 67)
    ensures Cubic512(Sha512.Standard, 68) && Cubic512(Sha512.Standard, 69)
    ensures Cubic512(Sha512.Standard, 70) && Cubic512(Sha512.Standard, 71)
  {
    hide Cubic512, CubeRoot, Prime, Sha512.K;
    Row8();
    Words512From64();
    Cubic512By(64, 6, 313, 0xca273eceea26619c);
    Cubic512By(65, 6, 317, 0xd186b8c721c0c207);
    Cubic512By(66, 6, 331, 0xeada7dd6cde0eb1e);
    Cubic512By(67, 6, 337, 0xf57d4f7fee6ed178);
    Cubic512By(68, 7, 347, 0x06f067aa72176fba);
    Cubic512By(69, 7, 349, 0x0a637dc5a2c898a6);
    Cubic512By(70, 7, 353, 0x113f9804bef90dae);
    Cubic512By(71, 7, 359, 0x1b710b35131c471b);
  }

  lemma Words512From72()
    ensures Sha512.K(Sha512.Standard, 72) == 0x28db77f523047d84 && Sha512.K(Sha512.Standard, 73) == 0x32caab7b40c72493
    ensures Sha512.K(Sha512.Standard, 74) == 0x3c9ebe0a15c9bebc && Sha512.K(Sha512.Standard, 75) == 0x431d67c49c100d4c
    ensures Sha512.K(Sha512.Standard, 76) == 0x4cc5d4becb3e42b6 && Sha512.K(Sha512.Standard, 77) == 0x597f299cfc657e2a
    ensures Sha512.K(Sha512.Standard, 78) == 0x5fcb6fab3ad6faec && Sha512.K(Sha512.Standard, 79) == 0x6c44198c4a475817
  {}

  lemma Cubes512From72()
    ensures Cubic512(Sha512.Standard, 72) && Cubic512(Sha512.Standard, 73)
    ensures Cubic512(Sha512.Standard, 74) && Cubic512(Sha512.Standard, 75)
    ensures Cubic512(Sha512.Standard, 76) && Cubic512(Sha512.Standard, 77)
    ensures Cubic512(Sha512.Standard, 78) && Cubic512(Sha512.Standard, 79)
  {
    hide Cubic512, CubeRoot, Prime, Sha512.K;
    Row9();
    Words512From72();
    Cubic512By(72, 7, 367, 0x28db77f523047d84);
    Cubic512By(73, 7, 373, 0x32caab7b40c72493);
    Cubic512By(74, 7, 379, 0x3c9ebe0a15c9bebc);
    Cubic512By(75, 7, 383, 0x431d67c49c100d4c);
    Cubic512By(76, 7, 389, 0x4cc5d4becb3e42b6);
    Cubic512By(77, 7, 397, 0x597f299cfc657e2a);
    Cubic512By(78, 7, 401, 0x5fcb6fab3ad6faec);
    Cubic512By(79, 7, 409, 0x6c44198c4a475817);
  }

  /** Each round constant of SHA-512 is the start of the fractional part of the cube root of its prime. */
  lemma RoundConstants512(t: nat)
    requires t < 80
    ensures Cubic512(Sha512.Standard, t)
  {
    hide Cubic512;
    if t < 8 {
      Cubes512From0();
    } else if t < 16 {
      Cubes512From8();
    } else if t < 24 {
      Cubes512From16();
    } else if t < 32 {
      Cubes512From24();
    } else if t < 40 {
      Cubes512From32();
    } else if t < 48 {
      Cubes512From40();
    } else if t < 56 {
      Cubes512From48();
    } else if t < 64 {
      Cubes512From56();
    } else if t < 72 {
      Cubes512From64();
    } else {
      Cubes512From72();
    }
  }

  /** Of the app's eighty round constants two are not: those of the primes 167 and 173. */
  lemma AppConstants512(t: nat)
    requires t < 80
    ensures Cubic512(Sha512.App, t) <==> t != 38 && t != 39
  {
    hide Sha512.K, CubeRoot, CubeBits, Num64;
    RoundConstants512(t);
    AppSha512.ConstantsDiffer(t);
    var c := CubeRoot(Prime(t)) * UNIT64;
    if Cubic512(Sha512.App, t) {
      BitsUnique(Prime(t), UNIT64, c + Num64(Sha512.K(Sha512.App, t)), c + Num64(Sha512.K(Sha512.Standard, t)));
      SameWord(Sha512.K(Sha512.App, t), Sha512.K(Sha512.Standard, t));
    }
  }

  lemma SameWord(x: bv64, y: bv64)
    requires Num64(x) == Num64(y)
    ensures x == y
  {
    hide Num64;
    BackFromNum(x);
    BackFromNum(y);
  }

  lemma BackFromNum(x: bv64)
    ensures Num64(x) < UNIT64 && Num64(x) as bv64 == x
  {}

  /** Starting word `h` is the start of the fractional part of the square root of prime `i`. */
  predicate Squared512(i: nat, h: bv64)
    requires i < 80
  {
    SquareBits(Prime(i), UNIT64, SquareRoot(Prime(i)) * UNIT64 + Num64(h))
  }

  lemma Squared512By(i: nat, h: bv64, c: nat, p: nat)
    requires i < 80
    ensures (Prime(i) == p && Square(c) <= p < Square(c + 1)
             && SquareBits(p, UNIT64, c * UNIT64 + Num64(h))) ==> Squared512(i, h)
  {
    hide Prime, SquareBits, Num64;
    if Square(c) <= p < Square(c + 1) { SquaresApart(SquareRoot(p), c, p); }
  }

  /** The eight words that SHA-512 starts from, in order. */
  lemma InitialWords512()
    ensures var s := Sha512.Initial();
            && Squared512(0, s.a) && Squared512(1, s.b) && Squared512(2, s.c) && Squared512(3, s.d)
            && Squared512(4, s.e) && Squared512(5, s.f) && Squared512(6, s.g) && Squared512(7, s.h)
  {
    hide Squared512, SquareRoot;
    Row0();
    Squared512By(0, 0x6a09e667f3bcc908, 1, 2);
    Squared512By(1, 0xbb67ae8584caa73b, 1, 3);
    Squared512By(2, 0x3c6ef372fe94f82b, 2, 5);
    Squared512By(3, 0xa54ff53a5f1d36f1, 2, 7);
    Squared512By(4, 0x510e527fade682d1, 3, 11);
    Squared512By(5, 0x9b05688c2b3e6c1f, 3, 13);
    Squared512By(6, 0x1f83d9abfb41bd6b, 4, 17);
    Squared512By(7, 0x5be0cd19137e2179, 4, 19);
  }
}

/** The first eighty primes, in order. */
module Primes {
  import opened ModArith

  const PRIMES: seq<seq<nat>> := [
    [2, 3, 5, 7, 11, 13, 17, 19],
    [23, 29, 31, 37, 41, 43, 47, 53],
    [59, 61, 67, 71, 73, 79, 83, 89],
    [97, 101, 103, 107, 109, 113, 127, 131],
    [137, 139, 149, 151, 157, 163, 167, 173],
    [179, 181, 191, 193, 197, 199, 211, 223],
    [227, 229, 233, 239, 241, 251, 257, 263],
    [269, 271, 277, 281, 283, 293, 307, 311],
    [313, 317, 331, 337, 347, 349, 353, 359],
    [367, 373, 379, 383, 389, 397, 401, 409]
  ]

  function Prime(t: nat): nat
    requires t < 80
  {
    assert |PRIMES| == 10 && forall r :: 0 <= r < 10 ==> |PRIMES[r]| == 8;
    PRIMES[t / 8][t % 8]
  }

  /** No prime up to 19 divides the number. */
  predicate Sieved(n: nat) {
    && n % 2 != 0 && n % 3 != 0 && n % 5 != 0 && n % 7 != 0
    && n % 11 != 0 && n % 13 != 0 && n % 17 != 0 && n % 19 != 0
  }

  // ----- the test decides, below 23 squared --------------------------------------------------------------

  /** A prime factor of a number from 2 to 22. */
  function FactorOf(d: nat): (e: nat)
    requires 2 <= d <= 22
    ensures e in {2, 3, 5, 7, 11, 13, 17, 19} && d % e == 0
  {
    if d % 2 == 0 then 2 else if d % 3 == 0 then 3 else if d % 5 == 0 then 5 else if d % 7 == 0 then 7 else d
  }

  lemma SievedLacks(n: nat, e: nat)
    requires e in {2, 3, 5, 7, 11, 13, 17, 19} && n % e == 0
    ensures !Sieved(n)
  {}

  lemma Divides(n: nat, q: nat, d: nat, e: nat)
    requires e > 0 && n == q * d && d % e == 0
    ensures n % e == 0
  {
    var r := d / e;
    assert d == r * e && n == (q * r) * e by { Associate(q, r, e); }
    ModUnique(e, n, q * r, 0);
  }

  lemma SmallFactor(n: nat, d: nat)
    requires 2 <= d <= 22 && n % d == 0
    ensures !Sieved(n)
  {
    hide Sieved, FactorOf;
    var e := FactorOf(d);
    assert n == (n / d) * d;
    Divides(n, n / d, d, e);
    SievedLacks(n, e);
  }

  /** A number below 529 that is not prime has a factor up to 22. */
  lemma LowFactor(n: nat, d: nat)
    requires n < 529 && 1 < d < n && n % d == 0
    ensures exists e :: 2 <= e <= 22 && n % e == 0
  {
    var q := n / d;
    assert n == q * d;
    if d >= 23 {
      if q >= 23 { BothLarge(q, d); }
      ModUnique(q, n, d, 0);
    }
  }

  lemma BothLarge(q: nat, d: nat)
    requires q >= 23 && d >= 23
    ensures q * d >= 529
  {}

  lemma SievedIsPrime(n: nat)
    requires 1 < n < 529 && Sieved(n)
    ensures IsPrime(n)
  {
    hide Sieved;
    if !IsPrime(n) {
      var d: nat :| 1 < d < n && n % d == 0;
      LowFactor(n, d);
      var e: nat :| 2 <= e <= 22 && n % e == 0;
      SmallFactor(n, e);
    }
  }

  lemma PrimeIsSieved(n: nat)
    requires IsPrime(n) && n > 19
    ensures Sieved(n)
  {
    assert n % 2 != 0 && n % 3 != 0 && n % 5 != 0 && n % 7 != 0;
    assert n % 11 != 0 && n % 13 != 0 && n % 17 != 0 && n % 19 != 0;
  }

  lemma FirstPrimes()
    ensures IsPrime(2) && IsPrime(3) && IsPrime(5) && IsPrime(7)
    ensures IsPrime(11) && IsPrime(13) && IsPrime(17) && IsPrime(19)
  {}

  lemma FirstOthers(n: nat)
    requires n < 23 && n !in {2, 3, 5, 7, 11, 13, 17, 19}
    ensures !IsPrime(n)
  {
    if n > 1 {
      var e := FactorOf(n);
      assert 1 < e < n;
    }
  }

  // ----- the list is the primes in order -----------------------------------------------------------------

  lemma Row0()
    ensures Prime(0) == 2 && Prime(1) == 3 && Prime(2) == 5 && Prime(3) == 7
    ensures Prime(4) == 11 && Prime(5) == 13 && Prime(6) == 17 && Prime(7) == 19
  {}

  lemma Row1()
    ensures Prime(8) == 23 && Prime(9) == 29 && Prime(10) == 31 && Prime(11) == 37
    ensures Prime(12) == 41 && Prime(13) == 43 && Prime(14) == 47 && Prime(15) == 53
  {}

  lemma Row2()
    ensures Prime(16) == 59 && Prime(17) == 61 && Prime(18) == 67 && Prime(19) == 71
    ensures Prime(20) == 73 && Prime(21) == 79 && Prime(22) == 83 && Prime(23) == 89
  {}

  lemma Row3()
    ensures Prime(24) == 97 && Prime(25) == 101 && Prime(26) == 103 && Prime(27) == 107
    ensures Prime(28) == 109 && Prime(29) == 113 && Prime(30) == 127 && Prime(31) == 131
  {}

  lemma Row4()
    ensures Prime(32) == 137 && Prime(33) == 139 && Prime(34) == 149 && Prime(35) == 151
    ensures Prime(36) == 157 && Prime(37) == 163 && Prime(38) == 167 && Prime(39) == 173
  {}

  lemma Row5()
    ensures Prime(40) == 179 && Prime(41) == 181 && Prime(42) == 191 && Prime(43) == 193
    ensures Prime(44) == 197 && Prime(45) == 199 && Prime(46) == 211 && Prime(47) == 223
  {}

  lemma Row6()
    ensures Prime(48) == 227 && Prime(49) == 229 && Prime(50) == 233 && Prime(51) == 239
    ensures Prime(52) == 241 && Prime(53) == 251 && Prime(54) == 257 && Prime(55) == 263
  {}

  lemma Row7()
    ensures Prime(56) == 269 && Prime(57) == 271 && Prime(58) == 277 && Prime(59) == 281
    ensures Prime(60) == 283 && Prime(61) == 293 && Prime(62) == 307 && Prime(63) == 311
  {}

  lemma Row8()
    ensures Prime(64) == 313 && Prime(65) == 317 && Prime(66) == 331 && Prime(67) == 337
    ensures Prime(68) == 347 && Prime(69) == 349 && Prime(70) == 353 && Prime(71) == 359
  {}

  lemma Row9()
    ensures Prime(72) == 367 && Prime(73) == 373 && Prime(74) == 379 && Prime(75) == 383
    ensures Prime(76) == 389 && Prime(77) == 397 && Prime(78) == 401 && Prime(79) == 409
  {}

  lemma Sieve4(m: nat)
    requires 4 <= m < 8
    ensures Sieved(6 * m - 1) ==> 6 * m - 1 in {23, 29, 41}
    ensures Sieved(6 * m + 1) ==> 6 * m + 1 in {31, 37, 43}
  {}

  lemma Sieve8(m: nat)
    requires 8 <= m < 12
    ensures Sieved(6 * m - 1) ==> 6 * m - 1 in {47, 53, 59}
    ensures Sieved(6 * m + 1) ==> 6 * m + 1 in {61, 67}
  {}

  lemma Sieve12(m: nat)
    requires 12 <= m < 16
    ensures Sieved(6 * m - 1) ==> 6 * m - 1 in {71, 83, 89}
    ensures Sieved(6 * m + 1) ==> 6 * m + 1 in {73, 79}
  {}

  lemma Sieve16(m: nat)
    requires 16 <= m < 20
    ensures Sieved(6 * m - 1) ==> 6 * m - 1 in {101, 107, 113}
    ensures Sieved(6 * m + 1) ==> 6 * m + 1 in {97, 103, 109}
  {}

  lemma Sieve20(m: nat)
    requires 20 <= m < 24
    ensures Sieved(6 * m - 1) ==> 6 * m - 1 in {131, 137}
    ensures Sieved(6 * m + 1) ==> 6 * m + 1 in {127, 139}
  {}

  lemma Sieve24(m: nat)
    requires 24 <= m < 28
    ensures Sieved(6 * m - 1) ==> 6 * m - 1 in {149}
    ensures Sieved(6 * m + 1) ==> 6 * m + 1 in {151, 157, 163}
  {}

  lemma Sieve28(m: nat)
    requires 28 <= m < 32
    ensures Sieved(6 * m - 1) ==> 6 * m - 1 in {167, 173, 179}
    ensures Sieved(6 * m + 1) ==> 6 * m + 1 in {181}
  {}

  lemma Sieve32(m: nat)
    requires 32 <= m < 36
    ensures Sieved(6 * m - 1) ==> 6 * m - 1 in {191, 197}
    ensures Sieved(6 * m + 1) ==> 6 * m + 1 in {193, 199, 211}
  {}

  lemma Sieve36(m: nat)
    requires 36 <= m < 40
    ensures Sieved(6 * m - 1) ==> 6 * m - 1 in {227, 233}
    ensures Sieved(6 * m + 1) ==> 6 * m + 1 in {223, 229}
  {}

  lemma Sieve40(m: nat)
    requires 40 <= m < 44
    ensures Sieved(6 * m - 1) ==> 6 * m - 1 in {239, 251, 257}
    ensures Sieved(6 * m + 1) ==> 6 * m + 1 in {241}
  {}

  lemma Sieve44(m: nat)
    requires 44 <= m < 48
    ensures Sieved(6 * m - 1) ==> 6 * m - 1 in {263, 269, 281}
    ensures Sieved(6 * m + 1) ==> 6 * m + 1 in {271, 277, 283}
  {}

  lemma Sieve48(m: nat)
    requires 48 <= m < 52
    ensures Sieved(6 * m - 1) ==> 6 * m - 1 in {293}
    ensures Sieved(6 * m + 1) ==> 6 * m + 1 in {307}
  {}

  lemma Sieve52(m: nat)
    requires 52 <= m < 56
    ensures Sieved(6 * m - 1) ==> 6 * m - 1 in {311, 317}
    ensures Sieved(6 * m + 1) ==> 6 * m + 1 in {313, 331}
  {}

  lemma Sieve56(m: nat)
    requires 56 <= m < 60
    ensures Sieved(6 * m - 1) ==> 6 * m - 1 in {347, 353}
    ensures Sieved(6 * m + 1) ==> 6 * m + 1 in {337, 349}
  {}

  lemma Sieve60(m: nat)
    requires 60 <= m < 64
    ensures Sieved(6 * m - 1) ==> 6 * m - 1 in {359}
    ensures Sieved(6 * m + 1) ==> 6 * m + 1 in {367, 373, 379}
  {}

  lemma Sieve64(m: nat)
    requires 64 <= m < 68
    ensures Sieved(6 * m - 1) ==> 6 * m - 1 in {383, 389, 401}
    ensures Sieved(6 * m + 1) ==> 6 * m + 1 in {397}
  {}

  lemma Sieve68(m: nat)
    requires 68 <= m < 69
    ensures Sieved(6 * m - 1) ==> 6 * m - 1 in {}
    ensures Sieved(6 * m + 1) ==> 6 * m + 1 in {409}
  {}

  lemma Passed1()
    ensures Sieved(23) && Sieved(29) && Sieved(31) && Sieved(37)
    ensures Sieved(41) && Sieved(43) && Sieved(47) && Sieved(53)
  {}

  lemma Passed2()
    ensures Sieved(59) && Sieved(61) && Sieved(67) && Sieved(71)
    ensures Sieved(73) && Sieved(79) && Sieved(83) && Sieved(89)
  {}

  lemma Passed3()
    ensures Sieved(97) && Sieved(101) && Sieved(103) && Sieved(107)
    ensures Sieved(109) && Sieved(113) && Sieved(127) && Sieved(131)
  {}

  lemma Passed4()
    ensures Sieved(137) && Sieved(139) && Sieved(149) && Sieved(151)
    ensures Sieved(157) && Sieved(163) && Sieved(167) && Sieved(173)
  {}

  lemma Passed5()
    ensures Sieved(179) && Sieved(181) && Sieved(191) && Sieved(193)
    ensures Sieved(197) && Sieved(199) && Sieved(211) && Sieved(223)
  {}

  lemma Passed6()
    ensures Sieved(227) && Sieved(229) && Sieved(233) && Sieved(239)
    ensures Sieved(241) && Sieved(251) && Sieved(257) && Sieved(263)
  {}

  lemma Passed7()
    ensures Sieved(269) && Sieved(271) && Sieved(277) && Sieved(281)
    ensures Sieved(283) && Sieved(293) && Sieved(307) && Sieved(311)
  {}

  lemma Passed8()
    ensures Sieved(313) && Sieved(317) && Sieved(331) && Sieved(337)
    ensures Sieved(347) && Sieved(349) && Sieved(353) && Sieved(359)
  {}

  lemma Passed9()
    ensures Sieved(367) && Sieved(373) && Sieved(379) && Sieved(383)
    ensures Sieved(389) && Sieved(397) && Sieved(401) && Sieved(409)
  {}

  /** The numbers of the list. */
  predicate Listed(n: nat) {
    n in {2, 3, 5, 7, 11, 13, 17, 19, 23, 29, 31, 37, 41, 43, 47, 53, 59, 61, 67, 71, 73, 79, 83, 89, 97, 101, 103,
          107, 109, 113, 127, 131, 137, 139, 149, 151, 157, 163, 167, 173, 179, 181, 191, 193, 197, 199, 211, 223,
          227, 229, 233, 239, 241, 251, 257, 263, 269, 271, 277, 281, 283, 293, 307, 311, 313, 317, 331, 337, 347,
          349, 353, 359, 367, 373, 379, 383, 389, 397, 401, 409}
  }

  lemma RowOf(t: nat)
    requires t < 80
    ensures Listed(Prime(t)) && (t > 0 ==> Prime(t - 1) < Prime(t))
  {
    hide Prime;
    if t < 8 {
      Row0();
    } else if t < 16 {
      Row0();
      Row1();
    } else if t < 24 {
      Row1();
      Row2();
    } else if t < 32 {
      Row2();
      Row3();
    } else if t < 40 {
      Row3();
      Row4();
    } else if t < 48 {
      Row4();
      Row5();
    } else if t < 56 {
      Row5();
      Row6();
    } else if t < 64 {
      Row6();
      Row7();
    } else if t < 72 {
      Row7();
      Row8();
    } else {
      Row8();
      Row9();
    }
  }

  lemma ListedIsSieved(n: nat)
    requires Listed(n)
    ensures n <= 19 || Sieved(n)
  {
    hide Sieved;
    Passed1();
    Passed2();
    Passed3();
    Passed4();
    Passed5();
    Passed6();
    Passed7();
    Passed8();
    Passed9();
  }

  /** The list rises, and holds primes only. */
  lemma PrimesRise(t: nat)
    requires t < 80
    ensures IsPrime(Prime(t)) && (t > 0 ==> Prime(t - 1) < Prime(t))
  {
    hide IsPrime, Sieved, Prime, Listed;
    RowOf(t);
    var n := Prime(t);
    ListedIsSieved(n);
    ListedRange(n);
    if n > 19 { SievedIsPrime(n); } else { FirstPrimes(); }
  }

  lemma ListedRange(n: nat)
    requires Listed(n)
    ensures 1 < n < 529 && (n <= 19 ==> n in {2, 3, 5, 7, 11, 13, 17, 19})
  {}

  lemma SievedMod6(n: nat)
    requires Sieved(n)
    ensures n % 6 == 1 || n % 6 == 5
  {
    assert n % 2 != 0 && n % 3 != 0;
    hide Sieved;
    Mod6(n / 6, n % 6);
  }

  lemma Mod6(q: nat, r: nat)
    requires r < 6 && (6 * q + r) % 2 != 0 && (6 * q + r) % 3 != 0
    ensures r == 1 || r == 5
  {
    ModUnique(2, 6 * q + r, 3 * q + r / 2, r % 2);
    ModUnique(3, 6 * q + r, 2 * q + r / 3, r % 3);
  }

  lemma SievedIsListed(m: nat)
    requires 4 <= m <= 68
    ensures Sieved(6 * m - 1) ==> Listed(6 * m - 1)
    ensures Sieved(6 * m + 1) ==> Listed(6 * m + 1)
  {
    hide Sieved;
    if m < 8 {
      Sieve4(m);
    } else if m < 12 {
      Sieve8(m);
    } else if m < 16 {
      Sieve12(m);
    } else if m < 20 {
      Sieve16(m);
    } else if m < 24 {
      Sieve20(m);
    } else if m < 28 {
      Sieve24(m);
    } else if m < 32 {
      Sieve28(m);
    } else if m < 36 {
      Sieve32(m);
    } else if m < 40 {
      Sieve36(m);
    } else if m < 44 {
      Sieve40(m);
    } else if m < 48 {
      Sieve44(m);
    } else if m < 52 {
      Sieve48(m);
    } else if m < 56 {
      Sieve52(m);
    } else if m < 60 {
      Sieve56(m);
    } else if m < 64 {
      Sieve60(m);
    } else if m < 68 {
      Sieve64(m);
    } else {
      Sieve68(m);
    }
  }

  lemma ListedAt(n: nat) returns (t: nat)
    requires Listed(n)
    ensures t < 80 && Prime(t) == n
  {
    hide Prime;
    Row0();
    Row1();
    Row2();
    Row3();
    Row4();
    Row5();
    Row6();
    Row7();
    Row8();
    Row9();
    t :| t < 80 && Prime(t) == n;
  }

  /** The list leaves out no prime up to its last. */
  lemma NoneMissing(n: nat)
    requires IsPrime(n) && n <= 409
    ensures exists t: nat :: t < 80 && Prime(t) == n
  {
    hide IsPrime, Sieved, Prime, Listed;
    if n < 23 {
      FirstMissing(n);
    } else {
      PrimeIsSieved(n);
      SievedMod6(n);
      var m := if n % 6 == 1 then n / 6 else n / 6 + 1;
      SievedIsListed(m);
    }
    var t := ListedAt(n);
  }

  lemma FirstMissing(n: nat)
    requires IsPrime(n) && n < 23
    ensures Listed(n)
  {
    if n !in {2, 3, 5, 7, 11, 13, 17, 19} { FirstOthers(n); }
  }
}

/**
 The 32-bit word functions of section 4.1.2 of FIPS 180-4, and the same formulas as the app
 evaluates them: on wider integers, masked back to 32 bits. Every variable of the app's loop
 holds a masked value, so it is stored here in 32 bits; Dafny proves that storing loses nothing.
 */
module Sha256Words {

  type Word = bv32

  // ----- FIPS 180-4, on 32-bit words: ROTR^n(x) is (x >> n) | (x << (32 - n)) -----------------

  function Ch(x: Word, y: Word, z: Word): Word { (x & y) ^ (!x & z) }

  function Maj(x: Word, y: Word, z: Word): Word { (x & y) ^ (x & z) ^ (y & z) }

  function BigSigma0(x: Word): Word {
    ((x >> 2) | (x << 30)) ^ ((x >> 13) | (x << 19)) ^ ((x >> 22) | (x << 10))
  }

  function BigSigma1(x: Word): Word {
    ((x >> 6) | (x << 26)) ^ ((x >> 11) | (x << 21)) ^ ((x >> 25) | (x << 7))
  }

  function SmallSigma0(x: Word): Word {
    ((x >> 7) | (x << 25)) ^ ((x >> 18) | (x << 14)) ^ (x >> 3)
  }

  function SmallSigma1(x: Word): Word {
    ((x >> 17) | (x << 15)) ^ ((x >> 19) | (x << 13)) ^ (x >> 10)
  }

  function Add2(x: Word, y: Word): Word { x + y }

  function Add4(a: Word, b: Word, c: Word, d: Word): Word { a + b + c + d }

  function Add5(a: Word, b: Word, c: Word, d: Word, e: Word): Word { a + b + c + d + e }

  function ShiftRight(x: Word, n: bv6): Word
    requires n <= 32
  {
    x >> n
  }

  function LowByte(x: Word): bv8 { (x & 0xff) as bv8 }

  // ----- the app, on 64-bit integers -------------------------------------------------------

  function DartCh(e: Word, f: Word, g: Word): Word {
    (((e as bv64) & (f as bv64)) ^ (!(e as bv64) & (g as bv64))) as Word
  }

  function DartMaj(a: Word, b: Word, c: Word): Word {
    (((a as bv64) & (b as bv64)) ^ ((a as bv64) & (c as bv64)) ^ ((b as bv64) & (c as bv64))) as Word
  }

  function DartBigSigma0(x: Word): Word {
    (((((x as bv64) >> 2) | ((x as bv64) << 30)) & 0xffff_ffff)
     ^ ((((x as bv64) >> 13) | ((x as bv64) << 19)) & 0xffff_ffff)
     ^ ((((x as bv64) >> 22) | ((x as bv64) << 10)) & 0xffff_ffff)) as Word
  }

  function DartBigSigma1(x: Word): Word {
    (((((x as bv64) >> 6) | ((x as bv64) << 26)) & 0xffff_ffff)
     ^ ((((x as bv64) >> 11) | ((x as bv64) << 21)) & 0xffff_ffff)
     ^ ((((x as bv64) >> 25) | ((x as bv64) << 7)) & 0xffff_ffff)) as Word
  }

  function DartSmallSigma0(x: Word): Word {
    (((((x as bv64) >> 7) | ((x as bv64) << 25)) & 0xffff_ffff)
     ^ ((((x as bv64) >> 18) | ((x as bv64) << 14)) & 0xffff_ffff)
     ^ ((x as bv64) >> 3)) as Word
  }

  function DartSmallSigma1(x: Word): Word {
    (((((x as bv64) >> 17) | ((x as bv64) << 15)) & 0xffff_ffff)
     ^ ((((x as bv64) >> 19) | ((x as bv64) << 13)) & 0xffff_ffff)
     ^ ((x as bv64) >> 10)) as Word
  }

  function DartAdd2(a: Word, b: Word): Word {
    (((a as bv64) + (b as bv64)) & 0xffff_ffff) as Word
  }

  function DartAdd4(a: Word, b: Word, c: Word, d: Word): Word {
    (((a as bv64) + (b as bv64) + (c as bv64) + (d as bv64)) & 0xffff_ffff) as Word
  }

  function DartAdd5(a: Word, b: Word, c: Word, d: Word, e: Word): Word {
    (((a as bv64) + (b as bv64) + (c as bv64) + (d as bv64) + (e as bv64)) & 0xffff_ffff) as Word
  }

  // ----- agreement -------------------------------------------------------------------------

  lemma ChAgrees(x: Word, y: Word, z: Word)
    ensures DartCh(x, y, z) == Ch(x, y, z)
  {}

  lemma MajAgrees(x: Word, y: Word, z: Word)
    ensures DartMaj(x, y, z) == Maj(x, y, z)
  {}

  lemma BigSigma0Agrees(x: Word)
    ensures DartBigSigma0(x) == BigSigma0(x)
  {}

  lemma BigSigma1Agrees(x: Word)
    ensures DartBigSigma1(x) == BigSigma1(x)
  {}

  lemma SmallSigma0Agrees(x: Word)
    ensures DartSmallSigma0(x) == SmallSigma0(x)
  {}

  lemma SmallSigma1Agrees(x: Word)
    ensures DartSmallSigma1(x) == SmallSigma1(x)
  {}

  lemma Add2Agrees(a: Word, b: Word)
    ensures DartAdd2(a, b) == Add2(a, b)
  {}

  /** The app adds the four schedule terms in the opposite order. */
  lemma Add4Agrees(a: Word, b: Word, c: Word, d: Word)
    ensures DartAdd4(d, c, b, a) == Add4(a, b, c, d)
  {}

  lemma Add5Agrees(a: Word, b: Word, c: Word, d: Word, e: Word)
    ensures DartAdd5(a, b, c, d, e) == Add5(a, b, c, d, e)
  {}
}

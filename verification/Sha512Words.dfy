/**
 The 64-bit word functions of section 4.1.3 of FIPS 180-4, and the same formulas as the app
 evaluates them: on wider integers, masked back to 64 bits. Every variable of the app's loop
 holds a masked value, so it is stored here in 64 bits; Dafny proves that storing loses nothing.
 */
module Sha512Words {

  type Word = bv64

  // ----- FIPS 180-4, on 64-bit words: ROTR^n(x) is (x >> n) | (x << (64 - n)) -----------------

  function Ch(x: Word, y: Word, z: Word): Word { (x & y) ^ (!x & z) }

  function Maj(x: Word, y: Word, z: Word): Word { (x & y) ^ (x & z) ^ (y & z) }

  function BigSigma0(x: Word): Word {
    ((x >> 28) | (x << 36)) ^ ((x >> 34) | (x << 30)) ^ ((x >> 39) | (x << 25))
  }

  function BigSigma1(x: Word): Word {
    ((x >> 14) | (x << 50)) ^ ((x >> 18) | (x << 46)) ^ ((x >> 41) | (x << 23))
  }

  function SmallSigma0(x: Word): Word {
    ((x >> 1) | (x << 63)) ^ ((x >> 8) | (x << 56)) ^ (x >> 7)
  }

  function SmallSigma1(x: Word): Word {
    ((x >> 19) | (x << 45)) ^ ((x >> 61) | (x << 3)) ^ (x >> 6)
  }

  function Add2(x: Word, y: Word): Word { x + y }

  function Add4(a: Word, b: Word, c: Word, d: Word): Word { a + b + c + d }

  function Add5(a: Word, b: Word, c: Word, d: Word, e: Word): Word { a + b + c + d + e }

  function ShiftRight(x: Word, n: bv7): Word
    requires n <= 64
  {
    x >> n
  }

  function LowByte(x: Word): bv8 { (x & 0xff) as bv8 }

  // ----- the app, on 128-bit integers -------------------------------------------------------

  function DartCh(e: Word, f: Word, g: Word): Word {
    (((e as bv128) & (f as bv128)) ^ ((!(e as bv128) & 0xffff_ffff_ffff_ffff) & (g as bv128))) as Word
  }

  function DartMaj(a: Word, b: Word, c: Word): Word {
    (((a as bv128) & (b as bv128)) ^ ((a as bv128) & (c as bv128)) ^ ((b as bv128) & (c as bv128))) as Word
  }

  function DartBigSigma0(x: Word): Word {
    (((((x as bv128) >> 28) | ((x as bv128) << 36)) & 0xffff_ffff_ffff_ffff)
     ^ ((((x as bv128) >> 34) | ((x as bv128) << 30)) & 0xffff_ffff_ffff_ffff)
     ^ ((((x as bv128) >> 39) | ((x as bv128) << 25)) & 0xffff_ffff_ffff_ffff)) as Word
  }

  function DartBigSigma1(x: Word): Word {
    (((((x as bv128) >> 14) | ((x as bv128) << 50)) & 0xffff_ffff_ffff_ffff)
     ^ ((((x as bv128) >> 18) | ((x as bv128) << 46)) & 0xffff_ffff_ffff_ffff)
     ^ ((((x as bv128) >> 41) | ((x as bv128) << 23)) & 0xffff_ffff_ffff_ffff)) as Word
  }

  function DartSmallSigma0(x: Word): Word {
    (((((x as bv128) >> 1) | ((x as bv128) << 63)) & 0xffff_ffff_ffff_ffff)
     ^ ((((x as bv128) >> 8) | ((x as bv128) << 56)) & 0xffff_ffff_ffff_ffff)
     ^ ((x as bv128) >> 7)) as Word
  }

  function DartSmallSigma1(x: Word): Word {
    (((((x as bv128) >> 19) | ((x as bv128) << 45)) & 0xffff_ffff_ffff_ffff)
     ^ ((((x as bv128) >> 61) | ((x as bv128) << 3)) & 0xffff_ffff_ffff_ffff)
     ^ ((x as bv128) >> 6)) as Word
  }

  function DartAdd2(a: Word, b: Word): Word {
    (((a as bv128) + (b as bv128)) & 0xffff_ffff_ffff_ffff) as Word
  }

  function DartAdd4(a: Word, b: Word, c: Word, d: Word): Word {
    (((a as bv128) + (b as bv128) + (c as bv128) + (d as bv128)) & 0xffff_ffff_ffff_ffff) as Word
  }

  function DartAdd5(a: Word, b: Word, c: Word, d: Word, e: Word): Word {
    (((a as bv128) + (b as bv128) + (c as bv128) + (d as bv128) + (e as bv128)) & 0xffff_ffff_ffff_ffff) as Word
  }

  // ----- agreement -------------------------------------------------------------------------

  lemma ChAgrees(x: Word, y: Word, z: Word)
    ensures DartCh(x, y, z) == Ch(x, y, z)
  {}

  lemma MajAgrees(x: Word, y: Word, z: Word)
    ensures DartMaj(x, y, z) == Maj(x, y, z)
  {}

  lemma BigSigma0Agrees(x: Word)
    ensures DartBigSigma0(x) == BigSigma0(x)
  {}

  lemma BigSigma1Agrees(x: Word)
    ensures DartBigSigma1(x) == BigSigma1(x)
  {}

  lemma SmallSigma0Agrees(x: Word)
    ensures DartSmallSigma0(x) == SmallSigma0(x)
  {}

  lemma SmallSigma1Agrees(x: Word)
    ensures DartSmallSigma1(x) == SmallSigma1(x)
  {}

  lemma Add2Agrees(a: Word, b: Word)
    ensures DartAdd2(a, b) == Add2(a, b)
  {}

  /** The app adds the four schedule terms in the opposite order. */
  lemma Add4Agrees(a: Word, b: Word, c: Word, d: Word)
    ensures DartAdd4(d, c, b, a) == Add4(a, b, c, d)
  {}

  lemma Add5Agrees(a: Word, b: Word, c: Word, d: Word, e: Word)
    ensures DartAdd5(a, b, c, d, e) == Add5(a, b, c, d, e)
  {}
}

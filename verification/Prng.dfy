/** The xorshift32 generator, in the 64-bit form of the app and the 32-bit form of the script. */
module Prng {
  import opened Bytes

  const TWO_32: nat := 0x1_0000_0000

  // ----- words and numbers ---------------------------------------------------------------

  function Bits(n: nat): bv32
    requires n < TWO_32
  {
    n as bv32
  }

  /** The low 32 bits of an integer, as both `n & 0xFFFFFFFF` and JavaScript's ToInt32 take them. */
  function Low32(n: int): bv32 {
    Bits(n % TWO_32)
  }

  function Widen(b: bv32): bv64 { b as bv64 }

  function Int(b: bv32): nat { b as nat }

  function Int64(b: bv64): nat { b as nat }

  /** A 32-bit pattern read as a signed JavaScript int32. */
  function Signed(b: bv32): int {
    if b < 0x8000_0000 then Int(b) else Int(b) - TWO_32
  }

  function Xor32(a: bv32, b: bv32): bv32 { a ^ b }

  function Shl13(b: bv32): bv32 { b << 13 }

  function Shr17(b: bv32): bv32 { b >> 17 }

  function Shl5(b: bv32): bv32 { b << 5 }

  // ----- the app's form ------------------------------------------------------------------

  function DartStep(state: bv64): bv64 {
    var x0 := state & 0xFFFF_FFFF;
    DartMix(if x0 == 0 then 0x1234_5678 else x0)
  }

  function DartMix(x1: bv64): bv64 {
    var x2 := x1 ^ ((x1 << 13) & 0xFFFF_FFFF);
    var x3 := x2 ^ ((x2 >> 17) & 0xFFFF_FFFF);
    var x4 := x3 ^ ((x3 << 5) & 0xFFFF_FFFF);
    x4 & 0xFFFF_FFFF
  }

  /** The generator on Dart's int; only its low 32 bits matter. */
  function Xorshift32(state: int): nat {
    Int64(DartStep(Widen(Low32(state))))
  }

  // ----- the script's form ---------------------------------------------------------------

  /** `x ^= y >>> 0` in JavaScript: the right side is unsigned, the result a signed int32. */
  function JsXorAssign(x: int, y: bv32): int {
    Signed(Xor32(Low32(x), Low32(Int(y))))
  }

  function JsXorshift32(state: int): nat {
    var x0 := Int(Low32(state));
    var x1: int := if x0 == 0 then 0x1234_5678 else x0;
    var x2 := JsXorAssign(x1, Shl13(Low32(x1)));
    var x3 := JsXorAssign(x2, Shr17(Low32(x2)));
    var x4 := JsXorAssign(x3, Shl5(Low32(x3)));
    Int(Low32(x4))
  }

  // ----- the common 32-bit map and its inverse -------------------------------------------

  /** The state with which the generator really starts: zero is replaced. */
  function Start(n: int): bv32 {
    if Low32(n) == 0 then 0x1234_5678 else Low32(n)
  }

  function Mix(x: bv32): bv32 {
    var a := x ^ (x << 13);
    var b := a ^ (a >> 17);
    b ^ (b << 5)
  }

  function Unmix(y: bv32): bv32 {
    var b := y ^ (y << 5) ^ (y << 10) ^ (y << 15) ^ (y << 20) ^ (y << 25) ^ (y << 30);
    var a := b ^ (b >> 17);
    a ^ (a << 13) ^ (a << 26)
  }

  lemma MixBijective(x: bv32)
    ensures Unmix(Mix(x)) == x && Mix(Unmix(x)) == x
    ensures Mix(x) == 0 <==> x == 0
  {}

  function Mix13(x: bv32): bv32 { x ^ (x << 13) }

  function Mix17(x: bv32): bv32 { x ^ (x >> 17) }

  function Mix5(x: bv32): bv32 { x ^ (x << 5) }

  lemma Mix13Split(x: bv32)
    ensures Xor32(x, Shl13(x)) == Mix13(x)
  {
    calc {
      Xor32(x, Shl13(x));
      { hide Xor32; }
      Xor32(x, x << 13);
      x ^ (x << 13);
      Mix13(x);
    }
  }

  lemma Mix17Split(x: bv32)
    ensures Xor32(x, Shr17(x)) == Mix17(x)
  {
    calc {
      Xor32(x, Shr17(x));
      { hide Xor32; }
      Xor32(x, x >> 17);
      x ^ (x >> 17);
      Mix17(x);
    }
  }

  lemma Mix5Split(x: bv32)
    ensures Xor32(x, Shl5(x)) == Mix5(x)
  {
    calc {
      Xor32(x, Shl5(x));
      { hide Xor32; }
      Xor32(x, x << 5);
      x ^ (x << 5);
      Mix5(x);
    }
  }

  lemma MixBySteps(x: bv32)
    ensures var a := Xor32(x, Shl13(x)); var b := Xor32(a, Shr17(a)); Mix(x) == Xor32(b, Shl5(b))
  {
    hide Xor32, Shl13, Shr17, Shl5;
    calc {
      Mix5(Mix17(Mix13(x)));
      { hide Mix17, Mix5; }
      Mix5(Mix17(x ^ (x << 13)));
      { hide Mix13, Mix5; }
      Mix5((x ^ (x << 13)) ^ ((x ^ (x << 13)) >> 17));
      Mix(x);
    }
    hide Mix, Mix13, Mix17, Mix5;
    Mix13Split(x);
    Mix17Split(Mix13(x));
    Mix5Split(Mix17(Mix13(x)));
  }

  // ----- the app's form is `Mix` -----------------------------------------------------------

  lemma DartMixIsMix(x: bv32)
    ensures DartMix(Widen(x)) == Widen(Mix(x))
    ensures Widen(x) & 0xFFFF_FFFF == Widen(x)
    ensures Widen(x) == 0 <==> x == 0
  {}

  lemma DartStepIsMix(x: bv32)
    ensures DartStep(Widen(x)) == Widen(Mix(if x == 0 then 0x1234_5678 else x))
  {
    DartMixIsMix(x);
    DartMixIsMix(0x1234_5678);
  }

  lemma WideInt(b: bv32)
    ensures Int64(Widen(b)) == Int(b)
  {}

  // ----- the script's form is `Mix` --------------------------------------------------------

  lemma SmallMod(n: int)
    ensures 0 <= n < TWO_32 ==> n % TWO_32 == n
    ensures n < 0 <= n + TWO_32 ==> n % TWO_32 == n + TWO_32
  {}

  lemma BitsOfInt(b: bv32)
    ensures Int(b) < TWO_32
    ensures Bits(Int(b)) == b
  {}

  lemma SignedRange(b: bv32)
    ensures Signed(b) == Int(b) || (Signed(b) == Int(b) - TWO_32 && Signed(b) < 0)
  {
    BitsOfInt(b);
  }

  lemma Low32RoundTrip(b: bv32)
    ensures Low32(Int(b)) == b
    ensures Low32(Signed(b)) == b
  {
    BitsOfInt(b);
    SignedRange(b);
    SmallMod(Int(b));
    SmallMod(Signed(b));
  }

  lemma IntConstants()
    ensures Int(0) == 0 && Int(0x1234_5678) == 0x1234_5678
  {}

  lemma JsStart(state: int)
    ensures (if Int(Low32(state)) == 0 then 0x1234_5678 else Int(Low32(state))) == Int(Start(state))
  {
    hide Low32, Int, Bits;
    BitsOfInt(Low32(state));
    BitsOfInt(0);
    IntConstants();
  }

  lemma JsAssign(x: int, y: bv32)
    ensures Low32(JsXorAssign(x, y)) == Xor32(Low32(x), y)
  {
    hide Low32, Int, Signed, Xor32;
    Low32RoundTrip(y);
    Low32RoundTrip(Xor32(Low32(x), y));
  }

  lemma JsIsMix(state: int)
    ensures JsXorshift32(state) == Int(Mix(Start(state)))
  {
    hide Low32, Int, Start, Mix, JsXorAssign, Xor32, Shl13, Shr17, Shl5;
    JsStart(state);
    Low32RoundTrip(Start(state));
    var x1: int := Int(Start(state));
    JsAssign(x1, Shl13(Low32(x1)));
    var x2 := JsXorAssign(x1, Shl13(Low32(x1)));
    JsAssign(x2, Shr17(Low32(x2)));
    var x3 := JsXorAssign(x2, Shr17(Low32(x2)));
    JsAssign(x3, Shl5(Low32(x3)));
    MixBySteps(Start(state));
  }

  /** The two implementations agree on every state, and both are one step of `Mix`. */
  lemma DartEqualsJs(state: int)
    ensures Xorshift32(state) == JsXorshift32(state) == Int(Mix(Start(state)))
  {
    hide Low32, Widen, Int, Int64, Mix, DartStep, JsXorshift32;
    DartStepIsMix(Low32(state));
    WideInt(Mix(Start(state)));
    JsIsMix(state);
  }

  // ----- bijection -------------------------------------------------------------------------

  /** Every integer within 32 bits survives the conversion to bits, shown bit by bit. */
  lemma {:induction false} IntOfBits(n: nat, w: nat) returns (b: bv32)
    requires w <= 32 && n < Pow2(w)
    ensures Int(b) == n
    decreases w
  {
    if w == 0 {
      b := 0;
    } else {
      var h := IntOfBits(n / 2, w - 1);
      Pow2Bound(w - 1);
      HighBitClear(h);
      ShiftIn(h);
      b := if n % 2 == 0 then h << 1 else (h << 1) | 1;
    }
  }

  lemma Pow2Bound(w: nat)
    requires w <= 31
    ensures Pow2(w) <= 0x8000_0000 && Pow2(32) == TWO_32
  {
    assert Pow2(8) == 0x100;
    assert Pow2(16) == 0x1_0000;
    assert Pow2(24) == 0x100_0000;
    assert Pow2(31) == 0x8000_0000;
    Pow2Mono(w, 31);
  }

  lemma HighBitClear(h: bv32)
    ensures Int(h) < 0x8000_0000 ==> h < 0x8000_0000
  {
    var low := h & 0x7fff_ffff;
    assert h >= 0x8000_0000 ==> h == 0x8000_0000 + low;
  }

  lemma ShiftIn(h: bv32)
    requires h < 0x8000_0000
    ensures Int(h << 1) == 2 * Int(h) && Int((h << 1) | 1) == 2 * Int(h) + 1
  {}

  lemma StartNonzero(n: int)
    ensures Start(n) != 0
    ensures Low32(n) != 0 ==> Start(n) == Low32(n)
  {}

  /**
   The generator never returns 0, stays within 32 bits, and maps two states to one value
   only when it starts from the same nonzero 32-bit state; every nonzero value is reached.
   */
  lemma XorshiftBijective(s: int, t: int)
    ensures 0 < Xorshift32(s) < TWO_32
    ensures Xorshift32(s) == Xorshift32(t) <==> Start(s) == Start(t)
    ensures 0 < s < TWO_32 ==> Xorshift32(Int(Unmix(Low32(s)))) == s
  {
    hide *;
    DartEqualsJs(s);
    DartEqualsJs(t);
    MixBijective(Start(s));
    MixBijective(Start(t));
    StartNonzero(s);
    BitsOfInt(Mix(Start(s)));
    BitsOfInt(Mix(Start(t)));
    BitsOfInt(0);
    IntConstants();
    if 0 < s < TWO_32 {
      Pow2Bound(31);
      var b := IntOfBits(s, 32);
      Low32RoundTrip(b);
      BitsOfInt(b);
      MixBijective(b);
      var u := Unmix(b);
      MixBijective(u);
      Low32RoundTrip(u);
      DartEqualsJs(Int(u));
      StartNonzero(Int(u));
    }
  }
}

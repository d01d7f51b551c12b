/**
 SHA-512: the definition of section 6.4.2 of FIPS 180-4, and the app's in-place loops. The app writes only the
 low 64 bits of the 128-bit length, and two of its eighty round constants are not the defined ones.
 */
module Sha512 {
  import opened Sha512Words
  import BigEndian

  datatype Hash = Hash(a: Word, b: Word, c: Word, d: Word, e: Word, f: Word, g: Word, h: Word)

  // ----- FIPS 180-4 ------------------------------------------------------------------------

  /** The constants, in rows of eight. */
  const TABLE: seq<seq<Word>> := [
    [0x428a2f98d728ae22, 0x7137449123ef65cd, 0xb5c0fbcfec4d3b2f, 0xe9b5dba58189dbbc,
     0x3956c25bf348b538, 0x59f111f1b605d019, 0x923f82a4af194f9b, 0xab1c5ed5da6d8118],
    [0xd807aa98a3030242, 0x12835b0145706fbe, 0x243185be4ee4b28c, 0x550c7dc3d5ffb4e2,
     0x72be5d74f27b896f, 0x80deb1fe3b1696b1, 0x9bdc06a725c71235, 0xc19bf174cf692694],
    [0xe49b69c19ef14ad2, 0xefbe4786384f25e3, 0x0fc19dc68b8cd5b5, 0x240ca1cc77ac9c65,
     0x2de92c6f592b0275, 0x4a7484aa6ea6e483, 0x5cb0a9dcbd41fbd4, 0x76f988da831153b5],
    [0x983e5152ee66dfab, 0xa831c66d2db43210, 0xb00327c898fb213f, 0xbf597fc7beef0ee4,
     0xc6e00bf33da88fc2, 0xd5a79147930aa725, 0x06ca6351e003826f, 0x142929670a0e6e70],
    [0x27b70a8546d22ffc, 0x2e1b21385c26c926, 0x4d2c6dfc5ac42aed, 0x53380d139d95b3df,
     0x650a73548baf63de, 0x766a0abb3c77b2a8, 0x81c2c92e47edaee6, 0x92722c851482353b],
    [0xa2bfe8a14cf10364, 0xa81a664bbc423001, 0xc24b8b70d0f89791, 0xc76c51a30654be30,
     0xd192e819d6ef5218, 0xd69906245565a910, 0xf40e35855771202a, 0x106aa07032bbd1b8],
    [0x19a4c116b8d2d0c8, 0x1e376c085141ab53, 0x2748774cdf8eeb99, 0x34b0bcb5e19b48a8,
     0x391c0cb3c5c95a63, 0x4ed8aa4ae3418acb, 0x5b9cca4f7763e373, 0x682e6ff3d6b2b8a3],
    [0x748f82ee5defb2fc, 0x78a5636f43172f60, 0x84c87814a1f0ab72, 0x8cc702081a6439ec,
     0x90befffa23631e28, 0xa4506cebde82bde9, 0xbef9a3f7b2c67915, 0xc67178f2e372532b],
    [0xca273eceea26619c, 0xd186b8c721c0c207, 0xeada7dd6cde0eb1e, 0xf57d4f7fee6ed178,
     0x06f067aa72176fba, 0x0a637dc5a2c898a6, 0x113f9804bef90dae, 0x1b710b35131c471b],
    [0x28db77f523047d84, 0x32caab7b40c72493, 0x3c9ebe0a15c9bebc, 0x431d67c49c100d4c,
     0x4cc5d4becb3e42b6, 0x597f299cfc657e2a, 0x5fcb6fab3ad6faec, 0x6c44198c4a475817]
  ]

  /** The fifth row as the app has it. */
  const APP_ROW: seq<Word> := [
    0x27b70a8546d22ffc, 0x2e1b21385c26c926, 0x4d2c6dfc5ac42aed, 0x53380d139d95b3df,
    0x650a73548baf63de, 0x766a0abb3c77b2a8, 0x81c2c92e47867871, 0x92722c851298a5e5
  ]

  /** Whose constants. */
  datatype Version = Standard | App

  function K(v: Version, t: nat): Word
    requires t < 80
  {
    assert |TABLE| == 10 && |APP_ROW| == 8 && forall r :: 0 <= r < 10 ==> |TABLE[r]| == 8;
    if v.App? && t / 8 == 4 then APP_ROW[t % 8] else TABLE[t / 8][t % 8]
  }

  function Initial(): Hash {
    Hash(0x6a09e667f3bcc908, 0xbb67ae8584caa73b, 0x3c6ef372fe94f82b, 0xa54ff53a5f1d36f1,
         0x510e527fade682d1, 0x9b05688c2b3e6c1f, 0x1f83d9abfb41bd6b, 0x5be0cd19137e2179)
  }

  /** Zero bits appended after the 1 bit: the least k with l + 1 + k = 896 modulo 1024. */
  function ZeroBits(l: nat): (k: nat)
    ensures (l + 1 + k) % 1024 == 896 && k < 1024
  {
    (896 - (l + 1)) % 1024
  }

  function Zeros(n: nat): seq<bv8> { seq(n, _ => 0) }

  /** Section 5.1.2: seven of the zero bits share the byte of the 1 bit. */
  function Pad(m: seq<bv8>): seq<bv8> {
    m + [0x80] + Zeros(ZeroBits(8 * |m|) / 8) + BigEndian.Encode(8 * |m|, 16)
  }

  function WordOf(b0: bv8, b1: bv8, b2: bv8, b3: bv8, b4: bv8, b5: bv8, b6: bv8, b7: bv8): Word {
    ((b0 as Word) << 56) | ((b1 as Word) << 48) | ((b2 as Word) << 40) | ((b3 as Word) << 32) | ((b4 as Word) << 24)
      | ((b5 as Word) << 16) | ((b6 as Word) << 8) | (b7 as Word)
  }

  function WordAt(b: seq<bv8>, i: nat): Word
    requires i + 8 <= |b|
  {
    WordOf(b[i], b[i + 1], b[i + 2], b[i + 3], b[i + 4], b[i + 5], b[i + 6], b[i + 7])
  }

  /** The first `n` words of the block at byte `at`. */
  function Words(b: seq<bv8>, at: nat, n: nat): (w: seq<Word>)
    requires at + 8 * n <= |b|
    ensures |w| == n
  {
    if n == 0 then [] else Words(b, at, n - 1) + [WordAt(b, at + 8 * (n - 1))]
  }

  /** The message schedule, extended to `t` words. */
  function Schedule(block: seq<Word>, t: nat): (w: seq<Word>)
    requires |block| == 16 && 16 <= t <= 80
    ensures |w| == t
  {
    if t == 16 then block else
      var w := Schedule(block, t - 1);
      w + [Add4(SmallSigma1(w[t - 3]), w[t - 8], SmallSigma0(w[t - 16]), w[t - 17])]
  }

  function Round(s: Hash, k: Word, w: Word): Hash {
    var t1 := Add5(s.h, BigSigma1(s.e), Ch(s.e, s.f, s.g), k, w);
    var t2 := Add2(BigSigma0(s.a), Maj(s.a, s.b, s.c));
    Hash(Add2(t1, t2), s.a, s.b, s.c, Add2(s.d, t1), s.e, s.f, s.g)
  }

  function Rounds(v: Version, s: Hash, w: seq<Word>, t: nat): Hash
    requires |w| == 80 && t <= 80
  {
    if t == 0 then s else Round(Rounds(v, s, w, t - 1), K(v, t - 1), w[t - 1])
  }

  function AddHash(x: Hash, y: Hash): Hash {
    Hash(Add2(x.a, y.a), Add2(x.b, y.b), Add2(x.c, y.c), Add2(x.d, y.d),
         Add2(x.e, y.e), Add2(x.f, y.f), Add2(x.g, y.g), Add2(x.h, y.h))
  }

  function Compress(v: Version, s: Hash, block: seq<Word>): Hash
    requires |block| == 16
  {
    AddHash(s, Rounds(v, s, Schedule(block, 80), 80))
  }

  /** The hash value after the first `n` blocks of a padded message. */
  function HashBlocks(v: Version, p: seq<bv8>, n: nat): Hash
    requires 128 * n <= |p|
  {
    if n == 0 then Initial() else Compress(v, HashBlocks(v, p, n - 1), Words(p, 128 * (n - 1), 16))
  }

  /** Byte `i` of a word, most significant first. */
  function ByteOfWord(x: Word, i: nat): bv8
    requires i < 8
  {
    LowByte(ShiftRight(x, ((7 - i) * 8) as bv7))
  }

  function WordBytes(x: Word): (b: seq<bv8>)
    ensures |b| == 8
  {
    seq(8, i requires 0 <= i < 8 => ByteOfWord(x, i))
  }

  function AllBytes(ws: seq<Word>): (b: seq<bv8>)
    ensures |b| == 8 * |ws|
  {
    if ws == [] then [] else AllBytes(ws[..|ws| - 1]) + WordBytes(ws[|ws| - 1])
  }

  function HashBytes(s: Hash): (b: seq<bv8>)
    ensures |b| == 64
  {
    AllBytes([s.a, s.b, s.c, s.d, s.e, s.f, s.g, s.h])
  }

  function Digest(m: seq<bv8>): (b: seq<bv8>)
    ensures |b| == 64
  {
    HashBytes(HashBlocks(Standard, Pad(m), |Pad(m)| / 128))
  }

  // ----- the app ---------------------------------------------------------------------------

  lemma PadLength(m: seq<bv8>)
    ensures |Pad(m)| == (|m| + 17 + 127) / 128 * 128
    ensures |Pad(m)| == |m| + 1 + ZeroBits(8 * |m|) / 8 + 16
  {
    var z := ZeroBits(8 * |m|);
    var q := (8 * |m| + 1 + z) / 1024;
    assert 8 * |m| + 1 + z == 1024 * q + 896;
    var y := z / 8;
    assert z == 8 * y + 7;
    assert |m| + 17 + y == 128 * (q + 1);
    assert (|m| + 17 + 127) / 128 == q + 1;
  }

  /** The app's padding: only the low 8 bytes of the 16-byte length field are written. */
  function AppPad(m: seq<bv8>): seq<bv8> {
    (m + [0x80] + Zeros(ZeroBits(8 * |m|) / 8 + 8)) + BigEndian.Encode(8 * |m|, 8)
  }

  function AppDigest(m: seq<bv8>): (b: seq<bv8>)
    ensures |b| == 64
  {
    HashBytes(HashBlocks(App, AppPad(m), |AppPad(m)| / 128))
  }

  lemma AppPadLength(m: seq<bv8>)
    ensures |AppPad(m)| == |Pad(m)| == |m| + 1 + ZeroBits(8 * |m|) / 8 + 16
  {}

  method PadMessage(data: seq<bv8>) returns (padded: array<bv8>)
    ensures fresh(padded) && padded[..] == AppPad(data)
  {
    hide BigEndian.ByteOf, BigEndian.Encode, BigEndian.Pow256;
    var length := |data|;
    var bitLength := length * 8;
    var paddedLength := (length + 17 + 127) / 128 * 128;
    PadLength(data);
    padded := new bv8[paddedLength](_ => 0);
    forall i | 0 <= i < length { padded[i] := data[i]; }
    padded[length] := 0x80;
    ghost var z := ZeroBits(bitLength) / 8;
    ghost var head := data + [0x80] + Zeros(z + 8);
    WriteLength(padded, bitLength, head);
  }

  method WriteLength(padded: array<bv8>, bitLength: nat, ghost head: seq<bv8>)
    requires padded.Length == |head| + 8 && padded[..] == head + Zeros(8)
    modifies padded
    ensures padded[..] == head + BigEndian.Encode(bitLength, 8)
  {
    hide BigEndian.ByteOf, BigEndian.Encode, BigEndian.Pow256;
    var paddedLength := padded.Length;
    LowBytesOfNone(bitLength);
    for b := 0 to 8
      invariant padded[..|head|] == head
      invariant padded[paddedLength - b..] == BigEndian.Encode(bitLength, b)
    {
      BigEndian.EncodeFront(bitLength, b);
      ghost var i, low := paddedLength - 1 - b, padded[paddedLength - b..];
      padded[paddedLength - 1 - b] := BigEndian.ByteOf(bitLength, b);
      assert padded[i + 1..] == low;
      assert padded[i..] == [padded[i]] + padded[i + 1..];
    }
    assert padded[..] == padded[..|head|] + padded[|head|..];
  }

  lemma PadIs(m: seq<bv8>, l: nat, z: nat)
    requires l == 8 * |m| && l < 0x1_0000_0000_0000_0000 && z == ZeroBits(l) / 8
    ensures Pad(m) == (m + [0x80] + Zeros(z + 8)) + BigEndian.Encode(l, 8)
  {
    PadSplit(m);
    hide *;
    LengthField(l);
    ZerosJoin(z, 8);
    Regroup(m + [0x80], Zeros(z), Zeros(8), BigEndian.Encode(l, 8));
  }

  /**
   Among the messages that FIPS 180-4 defines a digest for, below 2^128 bits, the app pads as defined
   exactly those below 2^64 bits.
   */
  lemma AppPadIff(m: seq<bv8>)
    requires 8 * |m| < BigEndian.Pow256(16)
    ensures AppPad(m) == Pad(m) <==> 8 * |m| < 0x1_0000_0000_0000_0000
  {
    var l, z := 8 * |m|, ZeroBits(8 * |m|) / 8;
    hide ZeroBits, Zeros, BigEndian.Encode, BigEndian.Pow256;
    PadSplit(m);
    if l < 0x1_0000_0000_0000_0000 { PadIs(m, l, z); }
    if AppPad(m) == Pad(m) {
      FieldOf(m + [0x80], z, BigEndian.Encode(l, 8), BigEndian.Encode(l, 16));
      LongLength(l);
    }
  }

  /** Equal paddings have zeros in the upper half of the length field. */
  lemma FieldOf(head: seq<bv8>, z: nat, low: seq<bv8>, whole: seq<bv8>)
    requires |low| == 8 && |whole| == 16 && (head + Zeros(z + 8)) + low == (head + Zeros(z)) + whole
    ensures whole[..8] == Zeros(8)
  {
    var a, b := (head + Zeros(z + 8)) + low, (head + Zeros(z)) + whole;
    forall i | 0 <= i < 8 ensures whole[i] == 0 {
      assert b[|head| + z + i] == whole[i];
      assert a[|head| + z + i] == Zeros(z + 8)[z + i];
    }
  }

  lemma LongLength(l: nat)
    requires l < BigEndian.Pow256(16) && BigEndian.Encode(l, 16)[..8] == Zeros(8)
    ensures l < 0x1_0000_0000_0000_0000
  {
    hide BigEndian.Encode;
    assert BigEndian.Pow256(4) == 0x1_0000_0000;
    assert BigEndian.Pow256(8) == 0x1_0000_0000_0000_0000;
    BigEndian.ZeroFront(l, 8, 8);
  }

  lemma PadSplit(m: seq<bv8>)
    ensures Pad(m) == (m + [0x80] + Zeros(ZeroBits(8 * |m|) / 8)) + BigEndian.Encode(8 * |m|, 16)
  {}

  lemma ZerosJoin(a: nat, b: nat)
    ensures Zeros(a) + Zeros(b) == Zeros(a + b)
  {}

  lemma Regroup(a: seq<bv8>, b: seq<bv8>, c: seq<bv8>, d: seq<bv8>)
    ensures (a + b) + (c + d) == (a + (b + c)) + d
  {}

  lemma LowBytesOfNone(n: nat)
    ensures BigEndian.Encode(n, 0) == []
  {}

  lemma LengthField(n: nat)
    requires n < 0x1_0000_0000_0000_0000
    ensures BigEndian.Encode(n, 16) == Zeros(8) + BigEndian.Encode(n, 8)
  {
    assert BigEndian.Pow256(4) == 0x1_0000_0000;
    assert BigEndian.Pow256(8) == 0x1_0000_0000_0000_0000;
    BigEndian.EncodeZeros(n, 8, 8);
  }

  /** One step of the app's word loop: `(word << 8) | byte` on a wide integer. */
  function Push(word: bv128, byte: bv8): bv128 {
    (word << 8) | (byte as bv128)
  }

  function PushAll(b: seq<bv8>, i: nat, n: nat): bv128
    requires i + n <= |b|
  {
    if n == 0 then 0 else Push(PushAll(b, i, n - 1), b[i + n - 1])
  }

  function Wide(x: Word): bv128 { x as bv128 }

  lemma PushEight(b0: bv8, b1: bv8, b2: bv8, b3: bv8, b4: bv8, b5: bv8, b6: bv8, b7: bv8)
    ensures Push(Push(Push(Push(Push(Push(Push(Push(0, b0), b1), b2), b3), b4), b5), b6), b7)
         == Wide(WordOf(b0, b1, b2, b3, b4, b5, b6, b7))
  {}

  lemma PushTwo(b: seq<bv8>, i: nat, n: nat)
    requires i + n + 2 <= |b|
    ensures PushAll(b, i, 0) == 0
    ensures PushAll(b, i, n + 2) == Push(Push(PushAll(b, i, n), b[i + n]), b[i + n + 1])
  {
    hide Push;
  }

  lemma PushWord(b: seq<bv8>, i: nat)
    requires i + 8 <= |b|
    ensures PushAll(b, i, 8) == Wide(WordAt(b, i))
  {
    hide Push, PushAll, WordOf, Wide;
    PushTwo(b, i, 0);
    PushTwo(b, i, 2);
    PushTwo(b, i, 4);
    PushTwo(b, i, 6);
    PushEight(b[i], b[i + 1], b[i + 2], b[i + 3], b[i + 4], b[i + 5], b[i + 6], b[i + 7]);
  }

  method LoadWord(view: array<bv8>, i: nat) returns (word: Word)
    requires i + 8 <= view.Length
    ensures word == WordAt(view[..], i)
  {
    hide Push, WordAt, Wide, Narrow;
    var wide: bv128 := 0;
    for b := 0 to 8
      invariant wide == PushAll(view[..], i, b)
    {
      wide := Push(wide, view[i + b]);
    }
    PushWord(view[..], i);
    word := Narrow(wide, WordAt(view[..], i));
  }

  /** Keeps the word of a wide integer that holds one. */
  function Narrow(wide: bv128, ghost x: Word): (r: Word)
    requires wide == Wide(x)
    ensures r == x
  {
    wide as Word
  }

  method LoadBlock(view: array<bv8>, i: nat, w: array<Word>)
    requires i + 128 <= view.Length && w.Length == 80
    modifies w
    ensures w[..16] == Words(view[..], i, 16)
  {
    hide WordAt, WordOf;
    for t := 0 to 16
      invariant w[..t] == Words(view[..], i, t)
    {
      w[t] := LoadWord(view, i + t * 8);
      assert w[..t + 1] == w[..t] + [w[t]];
    }
  }

  method ExtendSchedule(w: array<Word>)
    requires w.Length == 80
    modifies w
    ensures w[..] == Schedule(old(w[..16]), 80)
  {
    hide SmallSigma0, SmallSigma1, Add4, DartSmallSigma0, DartSmallSigma1, DartAdd4;
    ghost var block := w[..16];
    for t := 16 to 80
      invariant w[..t] == Schedule(block, t)
    {
      ghost var sofar := w[..t];
      var s0 := DartSmallSigma0(w[t - 15]);
      var s1 := DartSmallSigma1(w[t - 2]);
      SmallSigma0Agrees(w[t - 15]);
      SmallSigma1Agrees(w[t - 2]);
      Add4Agrees(s1, w[t - 7], s0, w[t - 16]);
      w[t] := DartAdd4(w[t - 16], s0, w[t - 7], s1);
      assert w[..t + 1] == sofar + [w[t]];
    }
    assert w[..] == w[..80];
  }

  lemma RoundAgrees(s: Hash, k: Word, w: Word)
    ensures var temp1 := DartAdd5(s.h, DartBigSigma1(s.e), DartCh(s.e, s.f, s.g), k, w);
            var temp2 := DartAdd2(DartBigSigma0(s.a), DartMaj(s.a, s.b, s.c));
            Round(s, k, w) == Hash(DartAdd2(temp1, temp2), s.a, s.b, s.c, DartAdd2(s.d, temp1), s.e, s.f, s.g)
  {
    hide DartAdd5, DartAdd2, DartBigSigma0, DartBigSigma1, DartCh, DartMaj, Add5, Add2, BigSigma0, BigSigma1, Ch, Maj;
    BigSigma1Agrees(s.e);
    BigSigma0Agrees(s.a);
    ChAgrees(s.e, s.f, s.g);
    MajAgrees(s.a, s.b, s.c);
    Add5Agrees(s.h, BigSigma1(s.e), Ch(s.e, s.f, s.g), k, w);
    var t1 := Add5(s.h, BigSigma1(s.e), Ch(s.e, s.f, s.g), k, w);
    Add2Agrees(BigSigma0(s.a), Maj(s.a, s.b, s.c));
    Add2Agrees(t1, Add2(BigSigma0(s.a), Maj(s.a, s.b, s.c)));
    Add2Agrees(s.d, t1);
  }

  method RunRounds(start: Hash, w: array<Word>) returns (end: Hash)
    requires w.Length == 80
    ensures end == Rounds(App, start, w[..], 80)
  {
    hide DartAdd5, DartAdd2, DartBigSigma0, DartBigSigma1, DartCh, DartMaj, Round, K;
    var a, b, c, d, e, f, g, h := start.a, start.b, start.c, start.d, start.e, start.f, start.g, start.h;
    for t := 0 to 80
      invariant Hash(a, b, c, d, e, f, g, h) == Rounds(App, start, w[..], t)
    {
      RoundAgrees(Hash(a, b, c, d, e, f, g, h), K(App, t), w[t]);
      var s1 := DartBigSigma1(e);
      var ch := DartCh(e, f, g);
      var temp1 := DartAdd5(h, s1, ch, K(App, t), w[t]);
      var s0 := DartBigSigma0(a);
      var maj := DartMaj(a, b, c);
      var temp2 := DartAdd2(s0, maj);
      h := g;
      g := f;
      f := e;
      e := DartAdd2(d, temp1);
      d := c;
      c := b;
      b := a;
      a := DartAdd2(temp1, temp2);
    }
    end := Hash(a, b, c, d, e, f, g, h);
  }

  lemma AddHashAgrees(x: Hash, y: Hash)
    ensures AddHash(x, y) == Hash(DartAdd2(x.a, y.a), DartAdd2(x.b, y.b), DartAdd2(x.c, y.c), DartAdd2(x.d, y.d),
                                  DartAdd2(x.e, y.e), DartAdd2(x.f, y.f), DartAdd2(x.g, y.g), DartAdd2(x.h, y.h))
  {
    hide DartAdd2, Add2;
    Add2Agrees(x.a, y.a); Add2Agrees(x.b, y.b); Add2Agrees(x.c, y.c); Add2Agrees(x.d, y.d);
    Add2Agrees(x.e, y.e); Add2Agrees(x.f, y.f); Add2Agrees(x.g, y.g); Add2Agrees(x.h, y.h);
  }

  lemma WordBytesMore(x: Word, b: nat)
    requires b < 8
    ensures WordBytes(x)[..b + 1] == WordBytes(x)[..b] + [ByteOfWord(x, b)]
  {
    hide ByteOfWord;
    assert WordBytes(x)[b] == ByteOfWord(x, b);
  }

  lemma AllBytesMore(ws: seq<Word>, i: nat)
    requires i < |ws|
    ensures AllBytes(ws[..i + 1]) == AllBytes(ws[..i]) + WordBytes(ws[i])[..8]
  {
    hide WordBytes;
    assert ws[..i + 1][..i] == ws[..i];
    assert WordBytes(ws[i])[..8] == WordBytes(ws[i]);
  }

  lemma AllBytesNone(ws: seq<Word>)
    ensures AllBytes(ws[..0]) == []
  {}

  method StoreWords(hashes: seq<Word>) returns (out: array<bv8>)
    requires |hashes| == 8
    ensures out[..] == AllBytes(hashes)
  {
    hide ByteOfWord, WordBytes, AllBytes;
    out := new bv8[64](_ => 0);
    AllBytesNone(hashes);
    for wIdx := 0 to 8
      invariant out[..wIdx * 8] == AllBytes(hashes[..wIdx])
    {
      var val := hashes[wIdx];
      ghost var done := out[..wIdx * 8];
      assert WordBytes(val)[..0] == [];
      for b := 0 to 8
        invariant out[..wIdx * 8 + b] == done + WordBytes(val)[..b]
      {
        ghost var front := out[..wIdx * 8 + b];
        out[wIdx * 8 + b] := ByteOfWord(val, b);
        WordBytesMore(val, b);
        assert out[..wIdx * 8 + b] == front;
        assert out[..wIdx * 8 + b + 1] == front + [ByteOfWord(val, b)];
      }
      AllBytesMore(hashes, wIdx);
    }
    assert hashes[..8] == hashes && out[..64] == out[..];
  }

  /** The app's loops compute the digest of its padding with its constants. */
  method ComputeDigest(data: seq<bv8>) returns (out: seq<bv8>)
    ensures out == AppDigest(data)
  {
    hide *;
    var hs := Initial();
    var padded := PadMessage(data);
    PadBlocks(data);
    var w := new Word[80];
    var i, n := 0, 0;
    HashNone(padded[..]);
    while i < padded.Length
      invariant i == 128 * n && i <= padded.Length
      invariant hs == HashBlocks(App, padded[..], n)
      invariant padded[..] == AppPad(data) && padded.Length % 128 == 0
    {
      LoadBlock(padded, i, w);
      ghost var block := w[..16];
      ExtendSchedule(w);
      var s := RunRounds(hs, w);
      AddHashAgrees(hs, s);
      HashMore(padded[..], n);
      hs := Hash(DartAdd2(hs.a, s.a), DartAdd2(hs.b, s.b), DartAdd2(hs.c, s.c), DartAdd2(hs.d, s.d),
                 DartAdd2(hs.e, s.e), DartAdd2(hs.f, s.f), DartAdd2(hs.g, s.g), DartAdd2(hs.h, s.h));
      i := i + 128;
      n := n + 1;
    }
    var bytes := StoreWords([hs.a, hs.b, hs.c, hs.d, hs.e, hs.f, hs.g, hs.h]);
    out := bytes[..];
    HashBytesIs(hs);
    DigestIs(data, n);
  }

  lemma HashBytesIs(s: Hash)
    ensures HashBytes(s) == AllBytes([s.a, s.b, s.c, s.d, s.e, s.f, s.g, s.h])
  {}

  lemma PadBlocks(m: seq<bv8>)
    ensures |AppPad(m)| % 128 == 0
  {
    hide AppPad, Pad, ZeroBits;
    PadLength(m);
    AppPadLength(m);
    WholeBlocks((|m| + 17 + 127) / 128);
  }

  lemma WholeBlocks(n: nat)
    ensures n * 128 % 128 == 0
  {}

  lemma HashNone(p: seq<bv8>)
    ensures HashBlocks(App, p, 0) == Initial()
  {}

  lemma HashMore(p: seq<bv8>, n: nat)
    requires 128 * (n + 1) <= |p|
    ensures var s := HashBlocks(App, p, n);
            HashBlocks(App, p, n + 1) == AddHash(s, Rounds(App, s, Schedule(Words(p, 128 * n, 16), 80), 80))
  {}

  lemma DigestIs(m: seq<bv8>, n: nat)
    requires 128 * n == |AppPad(m)|
    ensures AppDigest(m) == HashBytes(HashBlocks(App, AppPad(m), n))
  {
    assert |AppPad(m)| / 128 == n;
  }

  // ----- block after block -------------------------------------------------------------------

  /** The blocks in order, each compressed into the hash value that the ones before it gave. */
  function Chain(v: Version, s: Hash, p: seq<bv8>): Hash
    requires |p| % 128 == 0
    decreases |p|
  {
    if p == [] then s else Chain(v, Compress(v, s, Words(p, 0, 16)), p[128..])
  }

  lemma {:induction false} WordsWithin(p: seq<bv8>, q: seq<bv8>, r: seq<bv8>, n: nat)
    requires 8 * n <= |q|
    ensures Words(p + q + r, |p|, n) == Words(q, 0, n)
  {
    if n > 0 {
      WordsWithin(p, q, r, n - 1);
      var i := 8 * (n - 1);
      assert (p + q + r)[|p| + i..|p| + i + 8] == q[i..i + 8];
      WordIn(p + q + r, |p| + i);
      WordIn(q, i);
    }
  }

  lemma WordIn(b: seq<bv8>, i: nat)
    requires i + 8 <= |b|
    ensures WordAt(b, i) == WordAt(b[i..i + 8], 0)
  {}

  lemma {:induction false} ChainMore(v: Version, s: Hash, p: seq<bv8>, q: seq<bv8>)
    requires |p| % 128 == 0 && |q| == 128
    ensures Chain(v, s, p + q) == Compress(v, Chain(v, s, p), Words(q, 0, 16))
    decreases |p|
  {
    hide Compress, Words;
    if p == [] {
      assert p + q == q && q[128..] == [];
    } else {
      WordsWithin([], p[..128], p[128..] + q, 16);
      WordsWithin([], p[..128], p[128..], 16);
      assert [] + p[..128] + (p[128..] + q) == p + q && [] + p[..128] + p[128..] == p;
      assert (p + q)[128..] == p[128..] + q;
      ChainMore(v, Compress(v, s, Words(p, 0, 16)), p[128..], q);
    }
  }

  lemma {:induction false} ChainIs(v: Version, p: seq<bv8>, n: nat)
    requires 128 * n <= |p|
    ensures HashBlocks(v, p, n) == Chain(v, Initial(), p[..128 * n])
  {
    hide Compress, Words;
    if n > 0 {
      var q, r := p[..128 * (n - 1)], p[128 * (n - 1)..128 * n];
      ChainIs(v, p, n - 1);
      ChainMore(v, Initial(), q, r);
      assert p[..128 * n] == q + r && p == q + r + p[128 * n..];
      WordsWithin(q, r, p[128 * n..], 16);
    }
  }

  /** Either digest of any message is that of its padding, block after block from the starting words. */
  lemma DigestChains(m: seq<bv8>)
    ensures |Pad(m)| % 128 == 0 && Digest(m) == HashBytes(Chain(Standard, Initial(), Pad(m)))
    ensures |AppPad(m)| % 128 == 0 && AppDigest(m) == HashBytes(Chain(App, Initial(), AppPad(m)))
  {
    hide HashBytes, Pad, AppPad, Chain;
    PadBlocks(m);
    AppPadLength(m);
    var n := |Pad(m)| / 128;
    ChainIs(Standard, Pad(m), n);
    ChainIs(App, AppPad(m), n);
    assert Pad(m)[..128 * n] == Pad(m) && AppPad(m)[..128 * n] == AppPad(m);
  }
}

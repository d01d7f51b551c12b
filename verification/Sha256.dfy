/**
 SHA-256: the definition of section 6.2.2 of FIPS 180-4, and the app's in-place loops proved
 to compute it.
 */
module Sha256 {
  import opened Sha256Words
  import BigEndian

  datatype Hash = Hash(a: Word, b: Word, c: Word, d: Word, e: Word, f: Word, g: Word, h: Word)

  // ----- FIPS 180-4 ------------------------------------------------------------------------

  /** The constants, in rows of eight. */
  const TABLE: seq<seq<Word>> := [
    [0x428a2f98, 0x71374491, 0xb5c0fbcf, 0xe9b5dba5, 0x3956c25b, 0x59f111f1, 0x923f82a4, 0xab1c5ed5],
    [0xd807aa98, 0x12835b01, 0x243185be, 0x550c7dc3, 0x72be5d74, 0x80deb1fe, 0x9bdc06a7, 0xc19bf174],
    [0xe49b69c1, 0xefbe4786, 0x0fc19dc6, 0x240ca1cc, 0x2de92c6f, 0x4a7484aa, 0x5cb0a9dc, 0x76f988da],
    [0x983e5152, 0xa831c66d, 0xb00327c8, 0xbf597fc7, 0xc6e00bf3, 0xd5a79147, 0x06ca6351, 0x14292967],
    [0x27b70a85, 0x2e1b2138, 0x4d2c6dfc, 0x53380d13, 0x650a7354, 0x766a0abb, 0x81c2c92e, 0x92722c85],
    [0xa2bfe8a1, 0xa81a664b, 0xc24b8b70, 0xc76c51a3, 0xd192e819, 0xd6990624, 0xf40e3585, 0x106aa070],
    [0x19a4c116, 0x1e376c08, 0x2748774c, 0x34b0bcb5, 0x391c0cb3, 0x4ed8aa4a, 0x5b9cca4f, 0x682e6ff3],
    [0x748f82ee, 0x78a5636f, 0x84c87814, 0x8cc70208, 0x90befffa, 0xa4506ceb, 0xbef9a3f7, 0xc67178f2]
  ]

  function K(t: nat): Word
    requires t < 64
  {
    assert |TABLE| == 8 && forall r :: 0 <= r < 8 ==> |TABLE[r]| == 8;
    TABLE[t / 8][t % 8]
  }

  function Initial(): Hash {
    Hash(0x6a09e667, 0xbb67ae85, 0x3c6ef372, 0xa54ff53a,
         0x510e527f, 0x9b05688c, 0x1f83d9ab, 0x5be0cd19)
  }

  /** Zero bits appended after the 1 bit: the least k with l + 1 + k = 448 modulo 512. */
  function ZeroBits(l: nat): (k: nat)
    ensures (l + 1 + k) % 512 == 448 && k < 512
  {
    (448 - (l + 1)) % 512
  }

  function Zeros(n: nat): seq<bv8> { seq(n, _ => 0) }

  /** Section 5.1.1: seven of the zero bits share the byte of the 1 bit. */
  function Pad(m: seq<bv8>): seq<bv8> {
    m + [0x80] + Zeros(ZeroBits(8 * |m|) / 8) + BigEndian.Encode(8 * |m|, 8)
  }

  function WordOf(b0: bv8, b1: bv8, b2: bv8, b3: bv8): Word {
    ((b0 as Word) << 24) | ((b1 as Word) << 16) | ((b2 as Word) << 8) | (b3 as Word)
  }

  function WordAt(b: seq<bv8>, i: nat): Word
    requires i + 4 <= |b|
  {
    WordOf(b[i], b[i + 1], b[i + 2], b[i + 3])
  }

  /** The first `n` words of the block at byte `at`. */
  function Words(b: seq<bv8>, at: nat, n: nat): (w: seq<Word>)
    requires at + 4 * n <= |b|
    ensures |w| == n
  {
    if n == 0 then [] else Words(b, at, n - 1) + [WordAt(b, at + 4 * (n - 1))]
  }

  /** The message schedule, extended to `t` words. */
  function Schedule(block: seq<Word>, t: nat): (w: seq<Word>)
    requires |block| == 16 && 16 <= t <= 64
    ensures |w| == t
  {
    if t == 16 then block else
      var w := Schedule(block, t - 1);
      w + [Add4(SmallSigma1(w[t - 3]), w[t - 8], SmallSigma0(w[t - 16]), w[t - 17])]
  }

  function Round(s: Hash, k: Word, w: Word): Hash {
    var t1 := Add5(s.h, BigSigma1(s.e), Ch(s.e, s.f, s.g), k, w);
    var t2 := Add2(BigSigma0(s.a), Maj(s.a, s.b, s.c));
    Hash(Add2(t1, t2), s.a, s.b, s.c, Add2(s.d, t1), s.e, s.f, s.g)
  }

  function Rounds(s: Hash, w: seq<Word>, t: nat): Hash
    requires |w| == 64 && t <= 64
  {
    if t == 0 then s else Round(Rounds(s, w, t - 1), K(t - 1), w[t - 1])
  }

  function AddHash(x: Hash, y: Hash): Hash {
    Hash(Add2(x.a, y.a), Add2(x.b, y.b), Add2(x.c, y.c), Add2(x.d, y.d),
         Add2(x.e, y.e), Add2(x.f, y.f), Add2(x.g, y.g), Add2(x.h, y.h))
  }

  function Compress(s: Hash, block: seq<Word>): Hash
    requires |block| == 16
  {
    AddHash(s, Rounds(s, Schedule(block, 64), 64))
  }

  /** The hash value after the first `n` blocks of a padded message. */
  function HashBlocks(p: seq<bv8>, n: nat): Hash
    requires 64 * n <= |p|
  {
    if n == 0 then Initial() else Compress(HashBlocks(p, n - 1), Words(p, 64 * (n - 1), 16))
  }

  /** Byte `i` of a word, most significant first. */
  function ByteOfWord(x: Word, i: nat): bv8
    requires i < 4
  {
    LowByte(ShiftRight(x, ((3 - i) * 8) as bv6))
  }

  function WordBytes(x: Word): (b: seq<bv8>)
    ensures |b| == 4
  {
    seq(4, i requires 0 <= i < 4 => ByteOfWord(x, i))
  }

  function AllBytes(ws: seq<Word>): (b: seq<bv8>)
    ensures |b| == 4 * |ws|
  {
    if ws == [] then [] else AllBytes(ws[..|ws| - 1]) + WordBytes(ws[|ws| - 1])
  }

  function HashBytes(s: Hash): (b: seq<bv8>)
    ensures |b| == 32
  {
    AllBytes([s.a, s.b, s.c, s.d, s.e, s.f, s.g, s.h])
  }

  function Digest(m: seq<bv8>): (b: seq<bv8>)
    ensures |b| == 32
  {
    HashBytes(HashBlocks(Pad(m), |Pad(m)| / 64))
  }

  // ----- the app ---------------------------------------------------------------------------

  lemma PadLength(m: seq<bv8>)
    ensures |Pad(m)| == (|m| + 9 + 63) / 64 * 64
    ensures |Pad(m)| == |m| + 1 + ZeroBits(8 * |m|) / 8 + 8
  {
    var z := ZeroBits(8 * |m|);
    var q := (8 * |m| + 1 + z) / 512;
    assert 8 * |m| + 1 + z == 512 * q + 448;
    var y := z / 8;
    assert z == 8 * y + 7;
    assert |m| + 9 + y == 64 * (q + 1);
    assert (|m| + 9 + 63) / 64 == q + 1;
  }

  /** Big-endian store of a 64-bit integer, lowest byte last. */
  method SetUint64(view: array<bv8>, at: nat, value: nat)
    requires at + 8 == view.Length
    modifies view
    ensures view[..] == old(view[..at]) + BigEndian.Encode(value, 8)
  {
    hide BigEndian.ByteOf, BigEndian.Encode;
    var b := 0;
    assert BigEndian.Encode(value, 0) == [];
    while b < 8
      invariant 0 <= b <= 8
      invariant view[..at + 8 - b] == old(view[..at + 8 - b])
      invariant view[at + 8 - b..] == BigEndian.Encode(value, b)
    {
      BigEndian.EncodeFront(value, b);
      view[at + 7 - b] := BigEndian.ByteOf(value, b);
      assert view[at + 7 - b..] == [view[at + 7 - b]] + view[at + 8 - b..];
      b := b + 1;
    }
    assert view[..] == view[..at] + view[at..];
  }

  method PadMessage(data: seq<bv8>) returns (padded: array<bv8>)
    ensures fresh(padded) && padded[..] == Pad(data)
  {
    var length := |data|;
    var paddedLength := (length + 9 + 63) / 64 * 64;
    PadLength(data);
    padded := new bv8[paddedLength](_ => 0);
    forall i | 0 <= i < length { padded[i] := data[i]; }
    padded[length] := 0x80;
    var z := ZeroBits(8 * length) / 8;
    assert padded[..paddedLength - 8] == data + [0x80] + Zeros(z);
    SetUint64(padded, paddedLength - 8, 8 * length);
  }

  method LoadBlock(view: array<bv8>, i: nat, w: array<Word>)
    requires i + 64 <= view.Length && w.Length == 64
    modifies w
    ensures w[..16] == Words(view[..], i, 16)
  {
    hide WordAt, WordOf;
    for t := 0 to 16
      invariant w[..t] == Words(view[..], i, t)
    {
      w[t] := WordAt(view[..], i + t * 4);
      assert w[..t + 1] == w[..t] + [w[t]];
    }
  }

  method ExtendSchedule(w: array<Word>)
    requires w.Length == 64
    modifies w
    ensures w[..] == Schedule(old(w[..16]), 64)
  {
    hide SmallSigma0, SmallSigma1, Add4, DartSmallSigma0, DartSmallSigma1, DartAdd4;
    ghost var block := w[..16];
    for t := 16 to 64
      invariant w[..t] == Schedule(block, t)
    {
      ghost var sofar := w[..t];
      var s0 := DartSmallSigma0(w[t - 15]);
      var s1 := DartSmallSigma1(w[t - 2]);
      SmallSigma0Agrees(w[t - 15]);
      SmallSigma1Agrees(w[t - 2]);
      Add4Agrees(s1, w[t - 7], s0, w[t - 16]);
      w[t] := DartAdd4(w[t - 16], s0, w[t - 7], s1);
      assert w[..t + 1] == sofar + [w[t]];
    }
    assert w[..] == w[..64];
  }

  lemma RoundAgrees(s: Hash, k: Word, w: Word)
    ensures var temp1 := DartAdd5(s.h, DartBigSigma1(s.e), DartCh(s.e, s.f, s.g), k, w);
            var temp2 := DartAdd2(DartBigSigma0(s.a), DartMaj(s.a, s.b, s.c));
            Round(s, k, w) == Hash(DartAdd2(temp1, temp2), s.a, s.b, s.c, DartAdd2(s.d, temp1), s.e, s.f, s.g)
  {
    hide DartAdd5, DartAdd2, DartBigSigma0, DartBigSigma1, DartCh, DartMaj, Add5, Add2, BigSigma0, BigSigma1, Ch, Maj;
    BigSigma1Agrees(s.e);
    BigSigma0Agrees(s.a);
    ChAgrees(s.e, s.f, s.g);
    MajAgrees(s.a, s.b, s.c);
    Add5Agrees(s.h, BigSigma1(s.e), Ch(s.e, s.f, s.g), k, w);
    var t1 := Add5(s.h, BigSigma1(s.e), Ch(s.e, s.f, s.g), k, w);
    Add2Agrees(BigSigma0(s.a), Maj(s.a, s.b, s.c));
    Add2Agrees(t1, Add2(BigSigma0(s.a), Maj(s.a, s.b, s.c)));
    Add2Agrees(s.d, t1);
  }

  method RunRounds(start: Hash, w: array<Word>) returns (end: Hash)
    requires w.Length == 64
    ensures end == Rounds(start, w[..], 64)
  {
    hide DartAdd5, DartAdd2, DartBigSigma0, DartBigSigma1, DartCh, DartMaj, Round, K;
    var a, b, c, d, e, f, g, h := start.a, start.b, start.c, start.d, start.e, start.f, start.g, start.h;
    for t := 0 to 64
      invariant Hash(a, b, c, d, e, f, g, h) == Rounds(start, w[..], t)
    {
      RoundAgrees(Hash(a, b, c, d, e, f, g, h), K(t), w[t]);
      var s1 := DartBigSigma1(e);
      var ch := DartCh(e, f, g);
      var temp1 := DartAdd5(h, s1, ch, K(t), w[t]);
      var s0 := DartBigSigma0(a);
      var maj := DartMaj(a, b, c);
      var temp2 := DartAdd2(s0, maj);
      h := g;
      g := f;
      f := e;
      e := DartAdd2(d, temp1);
      d := c;
      c := b;
      b := a;
      a := DartAdd2(temp1, temp2);
    }
    end := Hash(a, b, c, d, e, f, g, h);
  }

  lemma AddHashAgrees(x: Hash, y: Hash)
    ensures AddHash(x, y) == Hash(DartAdd2(x.a, y.a), DartAdd2(x.b, y.b), DartAdd2(x.c, y.c), DartAdd2(x.d, y.d),
                                  DartAdd2(x.e, y.e), DartAdd2(x.f, y.f), DartAdd2(x.g, y.g), DartAdd2(x.h, y.h))
  {
    hide DartAdd2, Add2;
    Add2Agrees(x.a, y.a); Add2Agrees(x.b, y.b); Add2Agrees(x.c, y.c); Add2Agrees(x.d, y.d);
    Add2Agrees(x.e, y.e); Add2Agrees(x.f, y.f); Add2Agrees(x.g, y.g); Add2Agrees(x.h, y.h);
  }

  /** The app's digest, on every byte list, is the digest FIPS 180-4 defines. */
  method ComputeDigest(data: seq<bv8>) returns (out: seq<bv8>)
    ensures out == Digest(data)
  {
    hide *;
    var hs := Initial();
    var padded := PadMessage(data);
    PadBlocks(data);
    var w := new Word[64];
    var i, n := 0, 0;
    HashNone(padded[..]);
    while i < padded.Length
      invariant i == 64 * n && i <= padded.Length
      invariant hs == HashBlocks(padded[..], n)
      invariant padded[..] == Pad(data) && padded.Length % 64 == 0
    {
      LoadBlock(padded, i, w);
      ghost var block := w[..16];
      ExtendSchedule(w);
      var s := RunRounds(hs, w);
      AddHashAgrees(hs, s);
      HashMore(padded[..], n);
      hs := Hash(DartAdd2(hs.a, s.a), DartAdd2(hs.b, s.b), DartAdd2(hs.c, s.c), DartAdd2(hs.d, s.d),
                 DartAdd2(hs.e, s.e), DartAdd2(hs.f, s.f), DartAdd2(hs.g, s.g), DartAdd2(hs.h, s.h));
      i := i + 64;
      n := n + 1;
    }
    out := HashBytes(hs);
    DigestIs(data, n);
  }

  lemma PadBlocks(m: seq<bv8>)
    ensures |Pad(m)| % 64 == 0
  {
    hide Pad, ZeroBits;
    PadLength(m);
    WholeBlocks((|m| + 9 + 63) / 64);
  }

  lemma WholeBlocks(n: nat)
    ensures n * 64 % 64 == 0
  {}

  lemma HashNone(p: seq<bv8>)
    ensures HashBlocks(p, 0) == Initial()
  {}

  lemma HashMore(p: seq<bv8>, n: nat)
    requires 64 * (n + 1) <= |p|
    ensures var s := HashBlocks(p, n);
            HashBlocks(p, n + 1) == AddHash(s, Rounds(s, Schedule(Words(p, 64 * n, 16), 64), 64))
  {}

  lemma DigestIs(m: seq<bv8>, n: nat)
    requires 64 * n == |Pad(m)|
    ensures Digest(m) == HashBytes(HashBlocks(Pad(m), n))
  {
    assert |Pad(m)| / 64 == n;
  }

  // ----- block after block -------------------------------------------------------------------

  /** The blocks in order, each compressed into the hash value that the ones before it gave. */
  function Chain(s: Hash, p: seq<bv8>): Hash
    requires |p| % 64 == 0
    decreases |p|
  {
    if p == [] then s else Chain(Compress(s, Words(p, 0, 16)), p[64..])
  }

  lemma {:induction false} WordsWithin(p: seq<bv8>, q: seq<bv8>, r: seq<bv8>, n: nat)
    requires 4 * n <= |q|
    ensures Words(p + q + r, |p|, n) == Words(q, 0, n)
  {
    if n > 0 {
      WordsWithin(p, q, r, n - 1);
      var i := 4 * (n - 1);
      assert (p + q + r)[|p| + i..|p| + i + 4] == q[i..i + 4];
      WordIn(p + q + r, |p| + i);
      WordIn(q, i);
    }
  }

  lemma WordIn(b: seq<bv8>, i: nat)
    requires i + 4 <= |b|
    ensures WordAt(b, i) == WordAt(b[i..i + 4], 0)
  {}

  lemma {:induction false} ChainMore(s: Hash, p: seq<bv8>, q: seq<bv8>)
    requires |p| % 64 == 0 && |q| == 64
    ensures Chain(s, p + q) == Compress(Chain(s, p), Words(q, 0, 16))
    decreases |p|
  {
    hide Compress, Words;
    if p == [] {
      assert p + q == q && q[64..] == [];
    } else {
      WordsWithin([], p[..64], p[64..] + q, 16);
      WordsWithin([], p[..64], p[64..], 16);
      assert [] + p[..64] + (p[64..] + q) == p + q && [] + p[..64] + p[64..] == p;
      assert (p + q)[64..] == p[64..] + q;
      ChainMore(Compress(s, Words(p, 0, 16)), p[64..], q);
    }
  }

  lemma {:induction false} ChainIs(p: seq<bv8>, n: nat)
    requires 64 * n <= |p|
    ensures HashBlocks(p, n) == Chain(Initial(), p[..64 * n])
  {
    hide Compress, Words;
    if n > 0 {
      var q, r := p[..64 * (n - 1)], p[64 * (n - 1)..64 * n];
      ChainIs(p, n - 1);
      ChainMore(Initial(), q, r);
      assert p[..64 * n] == q + r && p == q + r + p[64 * n..];
      WordsWithin(q, r, p[64 * n..], 16);
    }
  }

  /** The digest of any message is that of its padding, block after block from the starting words. */
  lemma DigestChains(m: seq<bv8>)
    ensures |Pad(m)| % 64 == 0 && Digest(m) == HashBytes(Chain(Initial(), Pad(m)))
  {
    hide HashBytes, Pad, Chain;
    PadBlocks(m);
    var n := |Pad(m)| / 64;
    ChainIs(Pad(m), n);
    assert Pad(m)[..64 * n] == Pad(m);
  }
}

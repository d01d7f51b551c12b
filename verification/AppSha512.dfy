/**
 The app's SHA-512 is not the one of FIPS 180-4: two round constants differ, and no message that fits one block
 keeps its digest.
 */
module AppSha512 {
  import opened Sha512
  import opened Sha512Words
  import BigEndian

  /** The two constants that differ. */
  lemma ConstantsDiffer(t: nat)
    requires t < 80
    ensures K(App, t) == K(Standard, t) <==> t != 38 && t != 39
  {
    if t / 8 == 4 {
      RowsDiffer(t % 8);
    }
  }

  lemma RowsDiffer(i: nat)
    requires i < 8
    ensures APP_ROW[i] == TABLE[4][i] <==> i != 6 && i != 7
  {}

  /** A round loses nothing: given the constant and the word, its input can be told from its output. */
  lemma RoundInjective(x: Hash, y: Hash, k: Word, w: Word)
    requires Round(x, k, w) == Round(y, k, w)
    ensures x == y
  {
    hide Add5, Add2, BigSigma0, BigSigma1, Ch, Maj;
    var s1, ch := BigSigma1(x.e), Ch(x.e, x.f, x.g);
    var t1, u1 := Add5(x.h, s1, ch, k, w), Add5(y.h, s1, ch, k, w);
    var t2 := Add2(BigSigma0(x.a), Maj(x.a, x.b, x.c));
    CancelRight(t1, u1, t2);
    CancelRight(x.d, y.d, t1);
    CancelFirst(x.h, y.h, s1, ch, k, w);
  }

  function Sub2(x: Word, y: Word): Word { x - y }

  function Sub5(x: Word, a: Word, b: Word, c: Word, d: Word): Word { x - a - b - c - d }

  lemma SubAdd2(a: Word, b: Word)
    ensures Sub2(Add2(a, b), b) == a && Sub2(Add2(a, b), a) == b
  {}

  lemma SubAdd5(a: Word, b: Word, c: Word, d: Word, e: Word)
    ensures Sub5(Add5(a, b, c, d, e), b, c, d, e) == a && Sub5(Add5(a, b, c, d, e), a, b, c, e) == d
  {}

  lemma CancelRight(a: Word, b: Word, c: Word)
    requires Add2(a, c) == Add2(b, c)
    ensures a == b
  {
    hide Add2, Sub2;
    SubAdd2(a, c);
    SubAdd2(b, c);
  }

  lemma CancelLeft(c: Word, a: Word, b: Word)
    requires Add2(c, a) == Add2(c, b)
    ensures a == b
  {
    hide Add2, Sub2;
    SubAdd2(c, a);
    SubAdd2(c, b);
  }

  lemma CancelFirst(a: Word, b: Word, p: Word, q: Word, k: Word, w: Word)
    requires Add5(a, p, q, k, w) == Add5(b, p, q, k, w)
    ensures a == b
  {
    hide Add5, Sub5;
    SubAdd5(a, p, q, k, w);
    SubAdd5(b, p, q, k, w);
  }

  lemma CancelConstant(h: Word, p: Word, q: Word, k: Word, l: Word, w: Word)
    requires Add5(h, p, q, k, w) == Add5(h, p, q, l, w)
    ensures k == l
  {
    hide Add5, Sub5;
    SubAdd5(h, p, q, k, w);
    SubAdd5(h, p, q, l, w);
  }

  /** Different constants take one state to states that differ in their first word. */
  lemma RoundTellsConstants(s: Hash, k: Word, l: Word, w: Word)
    requires k != l
    ensures Round(s, k, w).a != Round(s, l, w).a
  {
    hide Add5, Add2, BigSigma0, BigSigma1, Ch, Maj;
    var p, q := BigSigma1(s.e), Ch(s.e, s.f, s.g);
    var t2 := Add2(BigSigma0(s.a), Maj(s.a, s.b, s.c));
    if Round(s, k, w).a == Round(s, l, w).a {
      CancelRight(Add5(s.h, p, q, k, w), Add5(s.h, p, q, l, w), t2);
      CancelConstant(s.h, p, q, k, l, w);
    }
  }

  /** One block from one state: the same state up to round 38, different ones ever after. */
  lemma {:induction false} RoundsDiffer(s: Hash, w: seq<Word>, t: nat)
    requires |w| == 80 && t <= 80
    ensures Rounds(App, s, w, t) == Rounds(Standard, s, w, t) <==> t <= 38
    ensures t == 39 ==> Rounds(App, s, w, t).a != Rounds(Standard, s, w, t).a
  {
    hide Round, K;
    if t > 0 {
      RoundsDiffer(s, w, t - 1);
      ConstantsDiffer(t - 1);
      var x, y := Rounds(App, s, w, t - 1), Rounds(Standard, s, w, t - 1);
      if t == 39 {
        RoundTellsConstants(x, K(App, 38), K(Standard, 38), w[38]);
      } else if t == 40 {
        FirstBecomesSecond(x, K(App, 39), w[39]);
        FirstBecomesSecond(y, K(Standard, 39), w[39]);
      } else if t > 40 && Rounds(App, s, w, t) == Rounds(Standard, s, w, t) {
        RoundInjective(x, y, K(App, t - 1), w[t - 1]);
      }
    }
  }

  lemma FirstBecomesSecond(s: Hash, k: Word, w: Word)
    ensures Round(s, k, w).b == s.a
  {}

  lemma AddHashCancel(s: Hash, x: Hash, y: Hash)
    requires AddHash(s, x) == AddHash(s, y)
    ensures x == y
  {
    hide Add2;
    CancelLeft(s.a, x.a, y.a);
    CancelLeft(s.b, x.b, y.b);
    CancelLeft(s.c, x.c, y.c);
    CancelLeft(s.d, x.d, y.d);
    CancelLeft(s.e, x.e, y.e);
    CancelLeft(s.f, x.f, y.f);
    CancelLeft(s.g, x.g, y.g);
    CancelLeft(s.h, x.h, y.h);
  }

  /** No block is compressed alike. */
  lemma CompressDiffers(s: Hash, block: seq<Word>)
    requires |block| == 16
    ensures Compress(App, s, block) != Compress(Standard, s, block)
  {
    hide AddHash, Rounds, Schedule;
    var w := Schedule(block, 80);
    RoundsDiffer(s, w, 80);
    if Compress(App, s, block) == Compress(Standard, s, block) {
      AddHashCancel(s, Rounds(App, s, w, 80), Rounds(Standard, s, w, 80));
    }
  }

  // ----- digests ----------------------------------------------------------------------------

  lemma BytesAre(x: Word)
    ensures ByteOfWord(x, 0) == LowByte(ShiftRight(x, 56)) && ByteOfWord(x, 1) == LowByte(ShiftRight(x, 48))
    ensures ByteOfWord(x, 2) == LowByte(ShiftRight(x, 40)) && ByteOfWord(x, 3) == LowByte(ShiftRight(x, 32))
    ensures ByteOfWord(x, 4) == LowByte(ShiftRight(x, 24)) && ByteOfWord(x, 5) == LowByte(ShiftRight(x, 16))
    ensures ByteOfWord(x, 6) == LowByte(ShiftRight(x, 8)) && ByteOfWord(x, 7) == LowByte(ShiftRight(x, 0))
  {
    hide LowByte, ShiftRight;
  }

  lemma EightBytes(x: Word)
    ensures ((((x >> 56) & 0xff) as bv8 as Word) << 56) | ((((x >> 48) & 0xff) as bv8 as Word) << 48)
            | ((((x >> 40) & 0xff) as bv8 as Word) << 40) | ((((x >> 32) & 0xff) as bv8 as Word) << 32)
            | ((((x >> 24) & 0xff) as bv8 as Word) << 24) | ((((x >> 16) & 0xff) as bv8 as Word) << 16)
            | ((((x >> 8) & 0xff) as bv8 as Word) << 8) | ((x & 0xff) as bv8 as Word) == x
  {}

  lemma WordOfCuts(x: Word)
    ensures WordOf(((x >> 56) & 0xff) as bv8, ((x >> 48) & 0xff) as bv8, ((x >> 40) & 0xff) as bv8,
                   ((x >> 32) & 0xff) as bv8, ((x >> 24) & 0xff) as bv8, ((x >> 16) & 0xff) as bv8,
                   ((x >> 8) & 0xff) as bv8, (x & 0xff) as bv8) == x
  {
    EightBytes(x);
  }

  lemma Cuts(x: Word)
    ensures LowByte(ShiftRight(x, 56)) == ((x >> 56) & 0xff) as bv8
    ensures LowByte(ShiftRight(x, 48)) == ((x >> 48) & 0xff) as bv8
    ensures LowByte(ShiftRight(x, 40)) == ((x >> 40) & 0xff) as bv8
    ensures LowByte(ShiftRight(x, 32)) == ((x >> 32) & 0xff) as bv8
    ensures LowByte(ShiftRight(x, 24)) == ((x >> 24) & 0xff) as bv8
    ensures LowByte(ShiftRight(x, 16)) == ((x >> 16) & 0xff) as bv8
    ensures LowByte(ShiftRight(x, 8)) == ((x >> 8) & 0xff) as bv8
    ensures LowByte(ShiftRight(x, 0)) == (x & 0xff) as bv8
  {}

  lemma WordFromBytes(x: Word)
    ensures WordOf(ByteOfWord(x, 0), ByteOfWord(x, 1), ByteOfWord(x, 2), ByteOfWord(x, 3),
                   ByteOfWord(x, 4), ByteOfWord(x, 5), ByteOfWord(x, 6), ByteOfWord(x, 7)) == x
  {
    hide WordOf, ByteOfWord, LowByte, ShiftRight;
    BytesAre(x);
    Cuts(x);
    WordOfCuts(x);
  }

  lemma WordAtBytes(x: Word)
    ensures WordAt(WordBytes(x), 0) == x
  {
    hide WordOf, ByteOfWord;
    WordFromBytes(x);
  }

  lemma {:induction false} BytesTellWords(x: seq<Word>, y: seq<Word>)
    requires |x| == |y| && AllBytes(x) == AllBytes(y)
    ensures x == y
  {
    hide WordBytes, WordAt;
    if |x| > 0 {
      var n := |x| - 1;
      var a, b := AllBytes(x), AllBytes(y);
      assert a[..8 * n] == AllBytes(x[..n]) && b[..8 * n] == AllBytes(y[..n]);
      assert a[8 * n..] == WordBytes(x[n]) && b[8 * n..] == WordBytes(y[n]);
      BytesTellWords(x[..n], y[..n]);
      WordAtBytes(x[n]);
      WordAtBytes(y[n]);
      assert x == x[..n] + [x[n]] && y == y[..n] + [y[n]];
    }
  }

  lemma HashBytesInjective(x: Hash, y: Hash)
    requires HashBytes(x) == HashBytes(y)
    ensures x == y
  {
    hide AllBytes;
    var xs, ys := [x.a, x.b, x.c, x.d, x.e, x.f, x.g, x.h], [y.a, y.b, y.c, y.d, y.e, y.f, y.g, y.h];
    BytesTellWords(xs, ys);
    assert xs[0] == ys[0] && xs[1] == ys[1] && xs[2] == ys[2] && xs[3] == ys[3];
    assert xs[4] == ys[4] && xs[5] == ys[5] && xs[6] == ys[6] && xs[7] == ys[7];
  }

  /** The place of the last block of a padded message. */
  function LastBlock(m: seq<bv8>): (n: nat)
    ensures 128 * (n + 1) == |Pad(m)|
  {
    PadLength(m);
    (|m| + 17 + 127) / 128 - 1
  }

  /** The digests can agree only where the hash values before the last block do not. */
  lemma DigestsAgreeOnlyIf(m: seq<bv8>)
    requires 8 * |m| < 0x1_0000_0000_0000_0000 && AppDigest(m) == Digest(m)
    ensures HashBlocks(App, Pad(m), LastBlock(m)) != HashBlocks(Standard, Pad(m), LastBlock(m))
  {
    hide Pad, AppPad, HashBytes, Compress, BigEndian.Pow256;
    var p, n := Pad(m), LastBlock(m);
    PadsAlike(m);
    assert |p| / 128 == n + 1;
    HashBytesInjective(HashBlocks(App, p, n + 1), HashBlocks(Standard, p, n + 1));
    CompressDiffers(HashBlocks(App, p, n), Words(p, 128 * n, 16));
  }

  lemma PadsAlike(m: seq<bv8>)
    requires 8 * |m| < 0x1_0000_0000_0000_0000
    ensures AppPad(m) == Pad(m)
  {
    hide ZeroBits, Zeros, BigEndian.Encode;
    PadIs(m, 8 * |m|, ZeroBits(8 * |m|) / 8);
  }

  /** No message that fits one block, a key seed among them, has its SHA-512 digest in the app. */
  lemma ShortDigestsDiffer(m: seq<bv8>)
    requires |m| <= 111
    ensures AppDigest(m) != Digest(m)
  {
    hide Pad, AppDigest, Digest;
    assert LastBlock(m) == 0;
    if AppDigest(m) == Digest(m) { DigestsAgreeOnlyIf(m); }
  }
}

/**
 The example of FIPS 180-4 for SHA-256: the digest of "abc", from the padding over the message
 schedule and the 64 rounds to the bytes, in groups of eight.
 */
module Abc256 {
  import opened Sha256Words
  import BigEndian
  import C = HashConstants
  import S = Sha256

  const ABC: seq<bv8> := [0x61, 0x62, 0x63]

  function Block(): (b: seq<Word>)
    ensures |b| == 16
  {
    S.PadLength(ABC);
    S.Words(S.Pad(ABC), 0, 16)
  }

  /** Word `t` of the schedule. */
  function W(t: nat): Word
    requires t < 64
  {
    S.Schedule(Block(), 64)[t]
  }

  /** The state after `t` rounds. */
  function State(t: nat): S.Hash
    requires t <= 64
  {
    S.Rounds(S.Initial(), S.Schedule(Block(), 64), t)
  }

  // ----- the padded block --------------------------------------------------------------------------------

  lemma Length()
    ensures BigEndian.Encode(24, 8) == S.Zeros(7) + [24]
  {
    hide BigEndian.Encode, BigEndian.Pow256;
    assert BigEndian.Pow256(1) == 256 by { OneByte(); }
    BigEndian.EncodeZeros(24, 1, 7);
    BigEndian.EncodeMore(24, 0);
    BigEndian.EncodeNone(0);
  }

  lemma OneByte()
    ensures BigEndian.Pow256(1) == 256
  {
    assert BigEndian.Pow256(0) == 1;
  }

  lemma Padded()
    ensures S.Pad(ABC) == ABC + [0x80] + S.Zeros(59) + [24]
  {
    hide BigEndian.Encode;
    Length();
  }

  lemma {:induction false} WordsAt(b: seq<bv8>, n: nat, i: nat)
    requires 4 * n <= |b| && i < n
    ensures S.Words(b, 0, n)[i] == S.WordAt(b, 4 * i)
  {
    hide S.WordAt;
    if i + 1 < n { WordsAt(b, n - 1, i); }
  }

  lemma {:induction false} ScheduleStart(b: seq<Word>, n: nat)
    requires |b| == 16 && 16 <= n <= 64
    ensures S.Schedule(b, n)[..16] == b
  {
    hide Add4, SmallSigma0, SmallSigma1;
    if n > 16 { ScheduleStart(b, n - 1); }
  }

  lemma BlockWord(i: nat)
    requires i < 16
    ensures 64 == |S.Pad(ABC)| && W(i) == S.WordAt(S.Pad(ABC), 4 * i)
  {
    hide S.WordAt, S.Schedule, S.Pad;
    Padded();
    var p := S.Pad(ABC);
    ScheduleStart(Block(), 64);
    WordsAt(p, 16, i);
    assert S.Schedule(Block(), 64)[..16][i] == W(i);
  }

  lemma LiteralWords()
    ensures S.WordOf(0x61, 0x62, 0x63, 0x80) == 0x61626380
    ensures S.WordOf(0, 0, 0, 0) == 0 && S.WordOf(0, 0, 0, 24) == 24
  {}

  /** The padded message, word by word. */
  lemma BlockIs(i: nat)
    requires i < 16
    ensures W(i) == if i == 0 then 0x61626380 else if i < 15 then 0 else 24
  {
    hide S.WordOf, S.Pad, W;
    BlockWord(i);
    Padded();
    LiteralWords();
  }

  // ----- the schedule ------------------------------------------------------------------------------------

  function Next(a: Word, b: Word, c: Word, d: Word): Word { Add4(SmallSigma1(a), b, SmallSigma0(c), d) }

  /** Each later word of the schedule is the mix of four before it. */
  lemma {:induction false} ScheduleStep(b: seq<Word>, t: nat, n: nat)
    requires |b| == 16 && 16 <= t < n <= 64
    ensures var w := S.Schedule(b, n);
            w[t] == Next(w[t - 2], w[t - 7], w[t - 15], w[t - 16])
    decreases n
  {
    hide Add4, SmallSigma0, SmallSigma1;
    if t + 1 < n { ScheduleStep(b, t, n - 1); }
  }

  lemma WordIs(t: nat, a: Word, b: Word, c: Word, d: Word, r: Word)
    requires 16 <= t < 64
    requires W(t - 2) == a && W(t - 7) == b && W(t - 15) == c && W(t - 16) == d && Next(a, b, c, d) == r
    ensures W(t) == r
  {
    hide Next, S.Schedule;
    ScheduleStep(Block(), t, 64);
  }

  lemma WordsFrom0()
    ensures W(0) == 0x61626380 && W(1) == 0 && W(2) == 0 && W(3) == 0
    ensures W(4) == 0 && W(5) == 0 && W(6) == 0 && W(7) == 0
  {
    hide W;
    BlockIs(0);
    BlockIs(1);
    BlockIs(2);
    BlockIs(3);
    BlockIs(4);
    BlockIs(5);
    BlockIs(6);
    BlockIs(7);
  }

  lemma WordsFrom8()
    ensures W(8) == 0 && W(9) == 0 && W(10) == 0 && W(11) == 0
    ensures W(12) == 0 && W(13) == 0 && W(14) == 0 && W(15) == 24
  {
    hide W;
    BlockIs(8);
    BlockIs(9);
    BlockIs(10);
    BlockIs(11);
    BlockIs(12);
    BlockIs(13);
    BlockIs(14);
    BlockIs(15);
  }

  lemma WordsFrom16()
    ensures W(16) == 0x61626380 && W(17) == 0x000f0000 && W(18) == 0x7da86405 && W(19) == 0x600003c6
    ensures W(20) == 0x3e9d7b78 && W(21) == 0x0183fc00 && W(22) == 0x12dcbfdb && W(23) == 0xe2e2c38e
  {
    hide W;
    WordsFrom0();
    WordsFrom8();
    WordIs(16, 0, 0, 0, 0x61626380, 0x61626380);
    WordIs(17, 24, 0, 0, 0, 0x000f0000);
    WordIs(18, 0x61626380, 0, 0, 0, 0x7da86405);
    WordIs(19, 0x000f0000, 0, 0, 0, 0x600003c6);
    WordIs(20, 0x7da86405, 0, 0, 0, 0x3e9d7b78);
    WordIs(21, 0x600003c6, 0, 0, 0, 0x0183fc00);
    WordIs(22, 0x3e9d7b78, 24, 0, 0, 0x12dcbfdb);
    WordIs(23, 0x0183fc00, 0x61626380, 0, 0, 0xe2e2c38e);
  }

  lemma WordsFrom24()
    ensures W(24) == 0xc8215c1a && W(25) == 0xb73679a2 && W(26) == 0xe5bc3909 && W(27) == 0x32663c5b
    ensures W(28) == 0x9d209d67 && W(29) == 0xec8726cb && W(30) == 0x702138a4 && W(31) == 0xd3b7973b
  {
    hide W;
    WordsFrom8();
    WordsFrom16();
    WordIs(24, 0x12dcbfdb, 0x000f0000, 0, 0, 0xc8215c1a);
    WordIs(25, 0xe2e2c38e, 0x7da86405, 0, 0, 0xb73679a2);
    WordIs(26, 0xc8215c1a, 0x600003c6, 0, 0, 0xe5bc3909);
    WordIs(27, 0xb73679a2, 0x3e9d7b78, 0, 0, 0x32663c5b);
    WordIs(28, 0xe5bc3909, 0x0183fc00, 0, 0, 0x9d209d67);
    WordIs(29, 0x32663c5b, 0x12dcbfdb, 0, 0, 0xec8726cb);
    WordIs(30, 0x9d209d67, 0xe2e2c38e, 24, 0, 0x702138a4);
    WordIs(31, 0xec8726cb, 0xc8215c1a, 0x61626380, 24, 0xd3b7973b);
  }

  lemma WordsFrom32()
    ensures W(32) == 0x93f5997f && W(33) == 0x3b68ba73 && W(34) == 0xaff4ffc1 && W(35) == 0xf10a5c62
    ensures W(36) == 0x0a8b3996 && W(37) == 0x72af830a && W(38) == 0x9409e33e && W(39) == 0x24641522
  {
    hide W;
    WordsFrom16();
    WordsFrom24();
    WordIs(32, 0x702138a4, 0xb73679a2, 0x000f0000, 0x61626380, 0x93f5997f);
    WordIs(33, 0xd3b7973b, 0xe5bc3909, 0x7da86405, 0x000f0000, 0x3b68ba73);
    WordIs(34, 0x93f5997f, 0x32663c5b, 0x600003c6, 0x7da86405, 0xaff4ffc1);
    WordIs(35, 0x3b68ba73, 0x9d209d67, 0x3e9d7b78, 0x600003c6, 0xf10a5c62);
    WordIs(36, 0xaff4ffc1, 0xec8726cb, 0x0183fc00, 0x3e9d7b78, 0x0a8b3996);
    WordIs(37, 0xf10a5c62, 0x702138a4, 0x12dcbfdb, 0x0183fc00, 0x72af830a);
    WordIs(38, 0x0a8b3996, 0xd3b7973b, 0xe2e2c38e, 0x12dcbfdb, 0x9409e33e);
    WordIs(39, 0x72af830a, 0x93f5997f, 0xc8215c1a, 0xe2e2c38e, 0x24641522);
  }

  lemma WordsFrom40()
    ensures W(40) == 0x9f47bf94 && W(41) == 0xf0a64f5a && W(42) == 0x3e246a79 && W(43) == 0x27333ba3
    ensures W(44) == 0x0c4763f2 && W(45) == 0x840abf27 && W(46) == 0x7a290d5d && W(47) == 0x065c43da
  {
    hide W;
    WordsFrom24();
    WordsFrom32();
    WordIs(40, 0x9409e33e, 0x3b68ba73, 0xb73679a2, 0xc8215c1a, 0x9f47bf94);
    WordIs(41, 0x24641522, 0xaff4ffc1, 0xe5bc3909, 0xb73679a2, 0xf0a64f5a);
    WordIs(42, 0x9f47bf94, 0xf10a5c62, 0x32663c5b, 0xe5bc3909, 0x3e246a79);
    WordIs(43, 0xf0a64f5a, 0x0a8b3996, 0x9d209d67, 0x32663c5b, 0x27333ba3);
    WordIs(44, 0x3e246a79, 0x72af830a, 0xec8726cb, 0x9d209d67, 0x0c4763f2);
    WordIs(45, 0x27333ba3, 0x9409e33e, 0x702138a4, 0xec8726cb, 0x840abf27);
    WordIs(46, 0x0c4763f2, 0x24641522, 0xd3b7973b, 0x702138a4, 0x7a290d5d);
    WordIs(47, 0x840abf27, 0x9f47bf94, 0x93f5997f, 0xd3b7973b, 0x065c43da);
  }

  lemma WordsFrom48()
    ensures W(48) == 0xfb3e89cb && W(49) == 0xcc7617db && W(50) == 0xb9e66c34 && W(51) == 0xa9993667
    ensures W(52) == 0x84badedd && W(53) == 0xc21462bc && W(54) == 0x1487472c && W(55) == 0xb20f7a99
  {
    hide W;
    WordsFrom32();
    WordsFrom40();
    WordIs(48, 0x7a290d5d, 0xf0a64f5a, 0x3b68ba73, 0x93f5997f, 0xfb3e89cb);
    WordIs(49, 0x065c43da, 0x3e246a79, 0xaff4ffc1, 0x3b68ba73, 0xcc7617db);
    WordIs(50, 0xfb3e89cb, 0x27333ba3, 0xf10a5c62, 0xaff4ffc1, 0xb9e66c34);
    WordIs(51, 0xcc7617db, 0x0c4763f2, 0x0a8b3996, 0xf10a5c62, 0xa9993667);
    WordIs(52, 0xb9e66c34, 0x840abf27, 0x72af830a, 0x0a8b3996, 0x84badedd);
    WordIs(53, 0xa9993667, 0x7a290d5d, 0x9409e33e, 0x72af830a, 0xc21462bc);
    WordIs(54, 0x84badedd, 0x065c43da, 0x24641522, 0x9409e33e, 0x1487472c);
    WordIs(55, 0xc21462bc, 0xfb3e89cb, 0x9f47bf94, 0x24641522, 0xb20f7a99);
  }

  lemma WordsFrom56()
    ensures W(56) == 0xef57b9cd && W(57) == 0xebe6b238 && W(58) == 0x9fe3095e && W(59) == 0x78bc8d4b
    ensures W(60) == 0xa43fcf15 && W(61) == 0x668b2ff8 && W(62) == 0xeeaba2cc && W(63) == 0x12b1edeb
  {
    hide W;
    WordsFrom40();
    WordsFrom48();
    WordIs(56, 0x1487472c, 0xcc7617db, 0xf0a64f5a, 0x9f47bf94, 0xef57b9cd);
    WordIs(57, 0xb20f7a99, 0xb9e66c34, 0x3e246a79, 0xf0a64f5a, 0xebe6b238);
    WordIs(58, 0xef57b9cd, 0xa9993667, 0x27333ba3, 0x3e246a79, 0x9fe3095e);
    WordIs(59, 0xebe6b238, 0x84badedd, 0x0c4763f2, 0x27333ba3, 0x78bc8d4b);
    WordIs(60, 0x9fe3095e, 0xc21462bc, 0x840abf27, 0x0c4763f2, 0xa43fcf15);
    WordIs(61, 0x78bc8d4b, 0x1487472c, 0x7a290d5d, 0x840abf27, 0x668b2ff8);
    WordIs(62, 0xa43fcf15, 0xb20f7a99, 0x065c43da, 0x7a290d5d, 0xeeaba2cc);
    WordIs(63, 0x668b2ff8, 0xef57b9cd, 0xfb3e89cb, 0x065c43da, 0x12b1edeb);
  }

  // ----- the rounds --------------------------------------------------------------------------------------

  /** A round from the eight words takes constant `k` and word `w` to `x` and `y` in the first and fifth place. */
  predicate RoundIs(a: Word, b: Word, c: Word, d: Word, e: Word, f: Word, g: Word, h: Word, k: Word, w: Word,
                    x: Word, y: Word)
  {
    var t := Add5(h, BigSigma1(e), Ch(e, f, g), k, w);
    x == Add2(t, Add2(BigSigma0(a), Maj(a, b, c))) && y == Add2(d, t)
  }

  lemma StateIs(t: nat, a: Word, b: Word, c: Word, d: Word, e: Word, f: Word, g: Word, h: Word, k: Word, w: Word,
                x: Word, y: Word)
    requires t < 64 && State(t) == S.Hash(a, b, c, d, e, f, g, h)
    requires S.K(t) == k
    requires W(t) == w && RoundIs(a, b, c, d, e, f, g, h, k, w, x, y)
    ensures State(t + 1) == S.Hash(x, a, b, c, y, e, f, g)
  {
    hide Add5, Add2, BigSigma0, BigSigma1, Ch, Maj, S.Schedule, S.Initial, S.K;
  }

  lemma StateAfter8()
    ensures State(8) == S.Hash(0x85a07b5f, 0xe5030380, 0x2b4209f5, 0x04409a6a, 0x0c657a79, 0x9b27a401, 0x714260ad,
                               0x43ada245)
  {
    hide W, State, S.K;
    Start();
    C.Words256From0();
    WordsFrom0();
    StateIs(0, 0x6a09e667, 0xbb67ae85, 0x3c6ef372, 0xa54ff53a, 0x510e527f, 0x9b05688c, 0x1f83d9ab, 0x5be0cd19,
               0x428a2f98, 0x61626380, 0x5d6aebcd, 0xfa2a4622);
    StateIs(1, 0x5d6aebcd, 0x6a09e667, 0xbb67ae85, 0x3c6ef372, 0xfa2a4622, 0x510e527f, 0x9b05688c, 0x1f83d9ab,
               0x71374491, 0, 0x5a6ad9ad, 0x78ce7989);
    StateIs(2, 0x5a6ad9ad, 0x5d6aebcd, 0x6a09e667, 0xbb67ae85, 0x78ce7989, 0xfa2a4622, 0x510e527f, 0x9b05688c,
               0xb5c0fbcf, 0, 0xc8c347a7, 0xf92939eb);
    StateIs(3, 0xc8c347a7, 0x5a6ad9ad, 0x5d6aebcd, 0x6a09e667, 0xf92939eb, 0x78ce7989, 0xfa2a4622, 0x510e527f,
               0xe9b5dba5, 0, 0xd550f666, 0x24e00850);
    StateIs(4, 0xd550f666, 0xc8c347a7, 0x5a6ad9ad, 0x5d6aebcd, 0x24e00850, 0xf92939eb, 0x78ce7989, 0xfa2a4622,
               0x3956c25b, 0, 0x04409a6a, 0x43ada245);
    StateIs(5, 0x04409a6a, 0xd550f666, 0xc8c347a7, 0x5a6ad9ad, 0x43ada245, 0x24e00850, 0xf92939eb, 0x78ce7989,
               0x59f111f1, 0, 0x2b4209f5, 0x714260ad);
    StateIs(6, 0x2b4209f5, 0x04409a6a, 0xd550f666, 0xc8c347a7, 0x714260ad, 0x43ada245, 0x24e00850, 0xf92939eb,
               0x923f82a4, 0, 0xe5030380, 0x9b27a401);
    StateIs(7, 0xe5030380, 0x2b4209f5, 0x04409a6a, 0xd550f666, 0x9b27a401, 0x714260ad, 0x43ada245, 0x24e00850,
               0xab1c5ed5, 0, 0x85a07b5f, 0x0c657a79);
  }

  lemma StateAfter16()
    ensures State(16) == S.Hash(0xb0fa238e, 0xc0645fde, 0xd932eb16, 0x87912990, 0x07590dcd, 0x0b92f20c, 0x745a48de,
                                0x1e578218)
  {
    hide W, State, S.K;
    StateAfter8();
    C.Words256From8();
    WordsFrom8();
    StateIs(8, 0x85a07b5f, 0xe5030380, 0x2b4209f5, 0x04409a6a, 0x0c657a79, 0x9b27a401, 0x714260ad, 0x43ada245,
               0xd807aa98, 0, 0x8e04ecb9, 0x32ca2d8c);
    StateIs(9, 0x8e04ecb9, 0x85a07b5f, 0xe5030380, 0x2b4209f5, 0x32ca2d8c, 0x0c657a79, 0x9b27a401, 0x714260ad,
               0x12835b01, 0, 0x8c87346b, 0x1cc92596);
    StateIs(10, 0x8c87346b, 0x8e04ecb9, 0x85a07b5f, 0xe5030380, 0x1cc92596, 0x32ca2d8c, 0x0c657a79, 0x9b27a401,
                0x243185be, 0, 0x4798a3f4, 0x436b23e8);
    StateIs(11, 0x4798a3f4, 0x8c87346b, 0x8e04ecb9, 0x85a07b5f, 0x436b23e8, 0x1cc92596, 0x32ca2d8c, 0x0c657a79,
                0x550c7dc3, 0, 0xf71fc5a9, 0x816fd6e9);
    StateIs(12, 0xf71fc5a9, 0x4798a3f4, 0x8c87346b, 0x8e04ecb9, 0x816fd6e9, 0x436b23e8, 0x1cc92596, 0x32ca2d8c,
                0x72be5d74, 0, 0x87912990, 0x1e578218);
    StateIs(13, 0x87912990, 0xf71fc5a9, 0x4798a3f4, 0x8c87346b, 0x1e578218, 0x816fd6e9, 0x436b23e8, 0x1cc92596,
                0x80deb1fe, 0, 0xd932eb16, 0x745a48de);
    StateIs(14, 0xd932eb16, 0x87912990, 0xf71fc5a9, 0x4798a3f4, 0x745a48de, 0x1e578218, 0x816fd6e9, 0x436b23e8,
                0x9bdc06a7, 0, 0xc0645fde, 0x0b92f20c);
    StateIs(15, 0xc0645fde, 0xd932eb16, 0x87912990, 0xf71fc5a9, 0x0b92f20c, 0x745a48de, 0x1e578218, 0x816fd6e9,
                0xc19bf174, 24, 0xb0fa238e, 0x07590dcd);
  }

  lemma StateAfter24()
    ensures State(24) == S.Hash(0xc5d53d8d, 0xa7a3623f, 0xc2606d6d, 0x9dc68b63, 0xaa47c347, 0x49f5114a, 0xe1257970,
                                0x8ada8930)
  {
    hide W, State, S.K;
    StateAfter16();
    C.Words256From16();
    WordsFrom16();
    StateIs(16, 0xb0fa238e, 0xc0645fde, 0xd932eb16, 0x87912990, 0x07590dcd, 0x0b92f20c, 0x745a48de, 0x1e578218,
                0xe49b69c1, 0x61626380, 0x21da9a9b, 0x8034229c);
    StateIs(17, 0x21da9a9b, 0xb0fa238e, 0xc0645fde, 0xd932eb16, 0x8034229c, 0x07590dcd, 0x0b92f20c, 0x745a48de,
                0xefbe4786, 0x000f0000, 0xc2fbd9d1, 0x846ee454);
    StateIs(18, 0xc2fbd9d1, 0x21da9a9b, 0xb0fa238e, 0xc0645fde, 0x846ee454, 0x8034229c, 0x07590dcd, 0x0b92f20c,
                0x0fc19dc6, 0x7da86405, 0xfe777bbf, 0xcc899961);
    StateIs(19, 0xfe777bbf, 0xc2fbd9d1, 0x21da9a9b, 0xb0fa238e, 0xcc899961, 0x846ee454, 0x8034229c, 0x07590dcd,
                0x240ca1cc, 0x600003c6, 0xe1f20c33, 0xb0638179);
    StateIs(20, 0xe1f20c33, 0xfe777bbf, 0xc2fbd9d1, 0x21da9a9b, 0xb0638179, 0xcc899961, 0x846ee454, 0x8034229c,
                0x2de92c6f, 0x3e9d7b78, 0x9dc68b63, 0x8ada8930);
    StateIs(21, 0x9dc68b63, 0xe1f20c33, 0xfe777bbf, 0xc2fbd9d1, 0x8ada8930, 0xb0638179, 0xcc899961, 0x846ee454,
                0x4a7484aa, 0x0183fc00, 0xc2606d6d, 0xe1257970);
    StateIs(22, 0xc2606d6d, 0x9dc68b63, 0xe1f20c33, 0xfe777bbf, 0xe1257970, 0x8ada8930, 0xb0638179, 0xcc899961,
                0x5cb0a9dc, 0x12dcbfdb, 0xa7a3623f, 0x49f5114a);
    StateIs(23, 0xa7a3623f, 0xc2606d6d, 0x9dc68b63, 0xe1f20c33, 0x49f5114a, 0xe1257970, 0x8ada8930, 0xb0638179,
                0x76f988da, 0xe2e2c38e, 0xc5d53d8d, 0xaa47c347);
  }

  lemma StateAfter32()
    ensures State(32) == S.Hash(0x73b33bf5, 0xea992a22, 0xa0060b30, 0x363482c9, 0xba591112, 0x0109ab3a, 0xade79437,
                                0x6112a3b7)
  {
    hide W, State, S.K;
    StateAfter24();
    C.Words256From24();
    WordsFrom24();
    StateIs(24, 0xc5d53d8d, 0xa7a3623f, 0xc2606d6d, 0x9dc68b63, 0xaa47c347, 0x49f5114a, 0xe1257970, 0x8ada8930,
                0x983e5152, 0xc8215c1a, 0x1c2c2838, 0x2823ef91);
    StateIs(25, 0x1c2c2838, 0xc5d53d8d, 0xa7a3623f, 0xc2606d6d, 0x2823ef91, 0xaa47c347, 0x49f5114a, 0xe1257970,
                0xa831c66d, 0xb73679a2, 0xcde8037d, 0x14383d8e);
    StateIs(26, 0xcde8037d, 0x1c2c2838, 0xc5d53d8d, 0xa7a3623f, 0x14383d8e, 0x2823ef91, 0xaa47c347, 0x49f5114a,
                0xb00327c8, 0xe5bc3909, 0xb62ec4bc, 0xc74c6516);
    StateIs(27, 0xb62ec4bc, 0xcde8037d, 0x1c2c2838, 0xc5d53d8d, 0xc74c6516, 0x14383d8e, 0x2823ef91, 0xaa47c347,
                0xbf597fc7, 0x32663c5b, 0x77d37528, 0xedffbff8);
    StateIs(28, 0x77d37528, 0xb62ec4bc, 0xcde8037d, 0x1c2c2838, 0xedffbff8, 0xc74c6516, 0x14383d8e, 0x2823ef91,
                0xc6e00bf3, 0x9d209d67, 0x363482c9, 0x6112a3b7);
    StateIs(29, 0x363482c9, 0x77d37528, 0xb62ec4bc, 0xcde8037d, 0x6112a3b7, 0xedffbff8, 0xc74c6516, 0x14383d8e,
                0xd5a79147, 0xec8726cb, 0xa0060b30, 0xade79437);
    StateIs(30, 0xa0060b30, 0x363482c9, 0x77d37528, 0xb62ec4bc, 0xade79437, 0x6112a3b7, 0xedffbff8, 0xc74c6516,
                0x06ca6351, 0x702138a4, 0xea992a22, 0x0109ab3a);
    StateIs(31, 0xea992a22, 0xa0060b30, 0x363482c9, 0x77d37528, 0x0109ab3a, 0xade79437, 0x6112a3b7, 0xedffbff8,
                0x14292967, 0xd3b7973b, 0x73b33bf5, 0xba591112);
  }

  lemma StateAfter40()
    ensures State(40) == S.Hash(0x79ea687a, 0x6dc57a8a, 0x34df1604, 0x41a65cb1, 0x1efbc0a0, 0xf0781bc8, 0xa507a53d,
                                0x0772a26b)
  {
    hide W, State, S.K;
    StateAfter32();
    C.Words256From32();
    WordsFrom32();
    StateIs(32, 0x73b33bf5, 0xea992a22, 0xa0060b30, 0x363482c9, 0xba591112, 0x0109ab3a, 0xade79437, 0x6112a3b7,
                0x27b70a85, 0x93f5997f, 0x98e12507, 0x9cd9f5f6);
    StateIs(33, 0x98e12507, 0x73b33bf5, 0xea992a22, 0xa0060b30, 0x9cd9f5f6, 0xba591112, 0x0109ab3a, 0xade79437,
                0x2e1b2138, 0x3b68ba73, 0xfe604df5, 0x59249dd3);
    StateIs(34, 0xfe604df5, 0x98e12507, 0x73b33bf5, 0xea992a22, 0x59249dd3, 0x9cd9f5f6, 0xba591112, 0x0109ab3a,
                0x4d2c6dfc, 0xaff4ffc1, 0xa9a7738c, 0x085f3833);
    StateIs(35, 0xa9a7738c, 0xfe604df5, 0x98e12507, 0x73b33bf5, 0x085f3833, 0x59249dd3, 0x9cd9f5f6, 0xba591112,
                0x53380d13, 0xf10a5c62, 0x65a0cfe4, 0xf4b002d6);
    StateIs(36, 0x65a0cfe4, 0xa9a7738c, 0xfe604df5, 0x98e12507, 0xf4b002d6, 0x085f3833, 0x59249dd3, 0x9cd9f5f6,
                0x650a7354, 0x0a8b3996, 0x41a65cb1, 0x0772a26b);
    StateIs(37, 0x41a65cb1, 0x65a0cfe4, 0xa9a7738c, 0xfe604df5, 0x0772a26b, 0xf4b002d6, 0x085f3833, 0x59249dd3,
                0x766a0abb, 0x72af830a, 0x34df1604, 0xa507a53d);
    StateIs(38, 0x34df1604, 0x41a65cb1, 0x65a0cfe4, 0xa9a7738c, 0xa507a53d, 0x0772a26b, 0xf4b002d6, 0x085f3833,
                0x81c2c92e, 0x9409e33e, 0x6dc57a8a, 0xf0781bc8);
    StateIs(39, 0x6dc57a8a, 0x34df1604, 0x41a65cb1, 0x65a0cfe4, 0xf0781bc8, 0xa507a53d, 0x0772a26b, 0xf4b002d6,
                0x92722c85, 0x24641522, 0x79ea687a, 0x1efbc0a0);
  }

  lemma StateAfter48()
    ensures State(48) == S.Hash(0x4172328d, 0xa14c14b0, 0x72ab4b91, 0x26628815, 0xfecf0bc6, 0xd57b94a9, 0xb7755da1,
                                0xa80f11f0)
  {
    hide W, State, S.K;
    StateAfter40();
    C.Words256From40();
    WordsFrom40();
    StateIs(40, 0x79ea687a, 0x6dc57a8a, 0x34df1604, 0x41a65cb1, 0x1efbc0a0, 0xf0781bc8, 0xa507a53d, 0x0772a26b,
                0xa2bfe8a1, 0x9f47bf94, 0xd6670766, 0x26352d63);
    StateIs(41, 0xd6670766, 0x79ea687a, 0x6dc57a8a, 0x34df1604, 0x26352d63, 0x1efbc0a0, 0xf0781bc8, 0xa507a53d,
                0xa81a664b, 0xf0a64f5a, 0xdf46652f, 0x838b2711);
    StateIs(42, 0xdf46652f, 0xd6670766, 0x79ea687a, 0x6dc57a8a, 0x838b2711, 0x26352d63, 0x1efbc0a0, 0xf0781bc8,
                0xc24b8b70, 0x3e246a79, 0x17aa0dfe, 0xdecd4715);
    StateIs(43, 0x17aa0dfe, 0xdf46652f, 0xd6670766, 0x79ea687a, 0xdecd4715, 0x838b2711, 0x26352d63, 0x1efbc0a0,
                0xc76c51a3, 0x27333ba3, 0x9d4baf93, 0xfda24c2e);
    StateIs(44, 0x9d4baf93, 0x17aa0dfe, 0xdf46652f, 0xd6670766, 0xfda24c2e, 0xdecd4715, 0x838b2711, 0x26352d63,
                0xd192e819, 0x0c4763f2, 0x26628815, 0xa80f11f0);
    StateIs(45, 0x26628815, 0x9d4baf93, 0x17aa0dfe, 0xdf46652f, 0xa80f11f0, 0xfda24c2e, 0xdecd4715, 0x838b2711,
                0xd6990624, 0x840abf27, 0x72ab4b91, 0xb7755da1);
    StateIs(46, 0x72ab4b91, 0x26628815, 0x9d4baf93, 0x17aa0dfe, 0xb7755da1, 0xa80f11f0, 0xfda24c2e, 0xdecd4715,
                0xf40e3585, 0x7a290d5d, 0xa14c14b0, 0xd57b94a9);
    StateIs(47, 0xa14c14b0, 0x72ab4b91, 0x26628815, 0x9d4baf93, 0xd57b94a9, 0xb7755da1, 0xa80f11f0, 0xfda24c2e,
                0x106aa070, 0x065c43da, 0x4172328d, 0xfecf0bc6);
  }

  lemma StateAfter56()
    ensures State(56) == S.Hash(0x38cc9913, 0x3ec45cdb, 0xf5702fdb, 0x101fd28f, 0x54cb266b, 0xe50e1b4f, 0x9f4787c3,
                                0x529e7d00)
  {
    hide W, State, S.K;
    StateAfter48();
    C.Words256From48();
    WordsFrom48();
    StateIs(48, 0x4172328d, 0xa14c14b0, 0x72ab4b91, 0x26628815, 0xfecf0bc6, 0xd57b94a9, 0xb7755da1, 0xa80f11f0,
                0x19a4c116, 0xfb3e89cb, 0x05757ceb, 0xbd714038);
    StateIs(49, 0x05757ceb, 0x4172328d, 0xa14c14b0, 0x72ab4b91, 0xbd714038, 0xfecf0bc6, 0xd57b94a9, 0xb7755da1,
                0x1e376c08, 0xcc7617db, 0xf11bfaa8, 0x6e5c390c);
    StateIs(50, 0xf11bfaa8, 0x05757ceb, 0x4172328d, 0xa14c14b0, 0x6e5c390c, 0xbd714038, 0xfecf0bc6, 0xd57b94a9,
                0x2748774c, 0xb9e66c34, 0x7a0508a1, 0x52f1ccf7);
    StateIs(51, 0x7a0508a1, 0xf11bfaa8, 0x05757ceb, 0x4172328d, 0x52f1ccf7, 0x6e5c390c, 0xbd714038, 0xfecf0bc6,
                0x34b0bcb5, 0xa9993667, 0x886e7a22, 0x49231c1e);
    StateIs(52, 0x886e7a22, 0x7a0508a1, 0xf11bfaa8, 0x05757ceb, 0x49231c1e, 0x52f1ccf7, 0x6e5c390c, 0xbd714038,
                0x391c0cb3, 0x84badedd, 0x101fd28f, 0x529e7d00);
    StateIs(53, 0x101fd28f, 0x886e7a22, 0x7a0508a1, 0xf11bfaa8, 0x529e7d00, 0x49231c1e, 0x52f1ccf7, 0x6e5c390c,
                0x4ed8aa4a, 0xc21462bc, 0xf5702fdb, 0x9f4787c3);
    StateIs(54, 0xf5702fdb, 0x101fd28f, 0x886e7a22, 0x7a0508a1, 0x9f4787c3, 0x529e7d00, 0x49231c1e, 0x52f1ccf7,
                0x5b9cca4f, 0x1487472c, 0x3ec45cdb, 0xe50e1b4f);
    StateIs(55, 0x3ec45cdb, 0xf5702fdb, 0x101fd28f, 0x886e7a22, 0xe50e1b4f, 0x9f4787c3, 0x529e7d00, 0x49231c1e,
                0x682e6ff3, 0xb20f7a99, 0x38cc9913, 0x54cb266b);
  }

  lemma StateAfter64()
    ensures State(64) == S.Hash(0x506e3058, 0xd39a2165, 0x04d24d6c, 0xb85e2ce9, 0x5ef50f24, 0xfb121210, 0x948d25b6,
                                0x961f4894)
  {
    hide W, State, S.K;
    StateAfter56();
    C.Words256From56();
    WordsFrom56();
    StateIs(56, 0x38cc9913, 0x3ec45cdb, 0xf5702fdb, 0x101fd28f, 0x54cb266b, 0xe50e1b4f, 0x9f4787c3, 0x529e7d00,
                0x748f82ee, 0xef57b9cd, 0xfcd1887b, 0x9b5e906c);
    StateIs(57, 0xfcd1887b, 0x38cc9913, 0x3ec45cdb, 0xf5702fdb, 0x9b5e906c, 0x54cb266b, 0xe50e1b4f, 0x9f4787c3,
                0x78a5636f, 0xebe6b238, 0xc062d46f, 0x7e44008e);
    StateIs(58, 0xc062d46f, 0xfcd1887b, 0x38cc9913, 0x3ec45cdb, 0x7e44008e, 0x9b5e906c, 0x54cb266b, 0xe50e1b4f,
                0x84c87814, 0x9fe3095e, 0xffb70472, 0x6d83bfc6);
    StateIs(59, 0xffb70472, 0xc062d46f, 0xfcd1887b, 0x38cc9913, 0x6d83bfc6, 0x7e44008e, 0x9b5e906c, 0x54cb266b,
                0x8cc70208, 0x78bc8d4b, 0xb6ae8fff, 0xb21bad3d);
    StateIs(60, 0xb6ae8fff, 0xffb70472, 0xc062d46f, 0xfcd1887b, 0xb21bad3d, 0x6d83bfc6, 0x7e44008e, 0x9b5e906c,
                0x90befffa, 0xa43fcf15, 0xb85e2ce9, 0x961f4894);
    StateIs(61, 0xb85e2ce9, 0xb6ae8fff, 0xffb70472, 0xc062d46f, 0x961f4894, 0xb21bad3d, 0x6d83bfc6, 0x7e44008e,
                0xa4506ceb, 0x668b2ff8, 0x04d24d6c, 0x948d25b6);
    StateIs(62, 0x04d24d6c, 0xb85e2ce9, 0xb6ae8fff, 0xffb70472, 0x948d25b6, 0x961f4894, 0xb21bad3d, 0x6d83bfc6,
                0xbef9a3f7, 0xeeaba2cc, 0xd39a2165, 0xfb121210);
    StateIs(63, 0xd39a2165, 0x04d24d6c, 0xb85e2ce9, 0xb6ae8fff, 0xfb121210, 0x948d25b6, 0x961f4894, 0xb21bad3d,
                0xc67178f2, 0x12b1edeb, 0x506e3058, 0x5ef50f24);
  }

  lemma Start()
    ensures State(0) == S.Hash(0x6a09e667, 0xbb67ae85, 0x3c6ef372, 0xa54ff53a, 0x510e527f, 0x9b05688c, 0x1f83d9ab,
                               0x5be0cd19)
  {}

  // ----- the digest --------------------------------------------------------------------------------------

  lemma Sum()
    ensures S.AddHash(S.Hash(0x6a09e667, 0xbb67ae85, 0x3c6ef372, 0xa54ff53a, 0x510e527f, 0x9b05688c, 0x1f83d9ab,
                             0x5be0cd19),
                      S.Hash(0x506e3058, 0xd39a2165, 0x04d24d6c, 0xb85e2ce9, 0x5ef50f24, 0xfb121210, 0x948d25b6,
                             0x961f4894))
             == S.Hash(0xba7816bf, 0x8f01cfea, 0x414140de, 0x5dae2223, 0xb00361a3, 0x96177a9c, 0xb410ff61, 0xf20015ad)
  {}

  lemma BytesOf(x: Word, b0: bv8, b1: bv8, b2: bv8, b3: bv8)
    requires LowByte(ShiftRight(x, 24)) == b0 && LowByte(ShiftRight(x, 16)) == b1
    requires LowByte(ShiftRight(x, 8)) == b2 && LowByte(ShiftRight(x, 0)) == b3
    ensures S.WordBytes(x) == [b0, b1, b2, b3]
  {
    hide LowByte, ShiftRight;
  }

  lemma FirstBytes()
    ensures S.WordBytes(0xba7816bf) == [0xba, 0x78, 0x16, 0xbf]
    ensures S.WordBytes(0x8f01cfea) == [0x8f, 0x01, 0xcf, 0xea]
    ensures S.WordBytes(0x414140de) == [0x41, 0x41, 0x40, 0xde]
    ensures S.WordBytes(0x5dae2223) == [0x5d, 0xae, 0x22, 0x23]
  {
    hide S.WordBytes;
    BytesOf(0xba7816bf, 0xba, 0x78, 0x16, 0xbf);
    BytesOf(0x8f01cfea, 0x8f, 0x01, 0xcf, 0xea);
    BytesOf(0x414140de, 0x41, 0x41, 0x40, 0xde);
    BytesOf(0x5dae2223, 0x5d, 0xae, 0x22, 0x23);
  }

  lemma LastBytes()
    ensures S.WordBytes(0xb00361a3) == [0xb0, 0x03, 0x61, 0xa3]
    ensures S.WordBytes(0x96177a9c) == [0x96, 0x17, 0x7a, 0x9c]
    ensures S.WordBytes(0xb410ff61) == [0xb4, 0x10, 0xff, 0x61]
    ensures S.WordBytes(0xf20015ad) == [0xf2, 0x00, 0x15, 0xad]
  {
    hide S.WordBytes;
    BytesOf(0xb00361a3, 0xb0, 0x03, 0x61, 0xa3);
    BytesOf(0x96177a9c, 0x96, 0x17, 0x7a, 0x9c);
    BytesOf(0xb410ff61, 0xb4, 0x10, 0xff, 0x61);
    BytesOf(0xf20015ad, 0xf2, 0x00, 0x15, 0xad);
  }

  lemma {:induction false} AllBytesMore(ws: seq<Word>, x: Word)
    ensures S.AllBytes(ws + [x]) == S.AllBytes(ws) + S.WordBytes(x)
  {
    hide S.WordBytes;
    assert (ws + [x])[..|ws|] == ws;
  }

  lemma FourWords(a: Word, b: Word, c: Word, d: Word)
    ensures S.AllBytes([a, b, c, d]) == S.WordBytes(a) + S.WordBytes(b) + S.WordBytes(c) + S.WordBytes(d)
  {
    hide S.WordBytes, S.AllBytes;
    AllBytesMore([], a);
    AllBytesMore([a], b);
    AllBytesMore([a, b], c);
    AllBytesMore([a, b, c], d);
    NoBytes();
    assert [a] + [b] == [a, b] && [a, b] + [c] == [a, b, c] && [a, b, c] + [d] == [a, b, c, d];
    assert [] + [a] == [a];
  }

  lemma NoBytes()
    ensures S.AllBytes([]) == []
  {}

  lemma EightWords(s: S.Hash)
    ensures S.HashBytes(s) == S.WordBytes(s.a) + S.WordBytes(s.b) + S.WordBytes(s.c) + S.WordBytes(s.d)
                              + S.WordBytes(s.e) + S.WordBytes(s.f) + S.WordBytes(s.g) + S.WordBytes(s.h)
  {
    hide S.WordBytes, S.AllBytes;
    var w := [s.a, s.b, s.c, s.d];
    FourWords(s.a, s.b, s.c, s.d);
    AllBytesMore(w, s.e);
    AllBytesMore(w + [s.e], s.f);
    AllBytesMore(w + [s.e, s.f], s.g);
    AllBytesMore(w + [s.e, s.f, s.g], s.h);
    assert w + [s.e] + [s.f] == w + [s.e, s.f] && w + [s.e, s.f] + [s.g] == w + [s.e, s.f, s.g];
    assert w + [s.e, s.f, s.g] + [s.h] == [s.a, s.b, s.c, s.d, s.e, s.f, s.g, s.h];
  }

  lemma DigestOfBlock()
    ensures S.Digest(ABC) == S.HashBytes(S.AddHash(S.Initial(), State(64)))
  {
    hide S.HashBytes, S.AddHash, S.Pad, S.Rounds, S.Schedule, S.Initial;
    BlockWord(0);
    S.HashNone(S.Pad(ABC));
    S.HashMore(S.Pad(ABC), 0);
    S.DigestIs(ABC, 1);
  }

  /** What FIPS 180-4 gives for its one-block example. */
  lemma AbcDigest()
    ensures S.Digest(ABC)
         == [0xba, 0x78, 0x16, 0xbf] + [0x8f, 0x01, 0xcf, 0xea] + [0x41, 0x41, 0x40, 0xde] + [0x5d, 0xae, 0x22, 0x23]
            + [0xb0, 0x03, 0x61, 0xa3] + [0x96, 0x17, 0x7a, 0x9c] + [0xb4, 0x10, 0xff, 0x61] + [0xf2, 0x00, 0x15, 0xad]
  {
    hide S.HashBytes, S.AddHash, S.Digest, S.WordBytes, S.Initial;
    DigestOfBlock();
    StateAfter64();
    Start();
    Sum();
    EightWords(S.Hash(0xba7816bf, 0x8f01cfea, 0x414140de, 0x5dae2223, 0xb00361a3, 0x96177a9c, 0xb410ff61,
                      0xf20015ad));
    FirstBytes();
    LastBytes();
  }}

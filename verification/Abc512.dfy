/**
 The digest of "abc" by the app's SHA-512, from the padding over the message
 schedule and the 80 rounds to the bytes, in groups of eight.
 */
module Abc512 {
  import opened Sha512Words
  import AppSha512
  import BigEndian
  import C = HashConstants
  import S = Sha512

  const ABC: seq<bv8> := [0x61, 0x62, 0x63]

  function Block(): (b: seq<Word>)
    ensures |b| == 16
  {
    S.PadLength(ABC);
    S.Words(S.AppPad(ABC), 0, 16)
  }

  /** Word `t` of the schedule. */
  function W(t: nat): Word
    requires t < 80
  {
    S.Schedule(Block(), 80)[t]
  }

  /** The state after `t` rounds. */
  function State(t: nat): S.Hash
    requires t <= 80
  {
    S.Rounds(S.App, S.Initial(), S.Schedule(Block(), 80), t)
  }

  // ----- the padded block --------------------------------------------------------------------------------

  lemma Length()
    ensures BigEndian.Encode(24, 8) == S.Zeros(7) + [24]
  {
    hide BigEndian.Encode, BigEndian.Pow256;
    assert BigEndian.Pow256(1) == 256 by { OneByte(); }
    BigEndian.EncodeZeros(24, 1, 7);
    BigEndian.EncodeMore(24, 0);
    BigEndian.EncodeNone(0);
  }

  lemma OneByte()
    ensures BigEndian.Pow256(1) == 256
  {
    assert BigEndian.Pow256(0) == 1;
  }

  lemma Padded()
    ensures S.AppPad(ABC) == ABC + [0x80] + S.Zeros(123) + [24]
  {
    hide BigEndian.Encode;
    Length();
  }

  lemma {:induction false} WordsAt(b: seq<bv8>, n: nat, i: nat)
    requires 8 * n <= |b| && i < n
    ensures S.Words(b, 0, n)[i] == S.WordAt(b, 8 * i)
  {
    hide S.WordAt;
    if i + 1 < n { WordsAt(b, n - 1, i); }
  }

  lemma {:induction false} ScheduleStart(b: seq<Word>, n: nat)
    requires |b| == 16 && 16 <= n <= 80
    ensures S.Schedule(b, n)[..16] == b
  {
    hide Add4, SmallSigma0, SmallSigma1;
    if n > 16 { ScheduleStart(b, n - 1); }
  }

  lemma BlockWord(i: nat)
    requires i < 16
    ensures 128 == |S.AppPad(ABC)| && W(i) == S.WordAt(S.AppPad(ABC), 8 * i)
  {
    hide S.WordAt, S.Schedule, S.AppPad;
    Padded();
    var p := S.AppPad(ABC);
    ScheduleStart(Block(), 80);
    WordsAt(p, 16, i);
    assert S.Schedule(Block(), 80)[..16][i] == W(i);
  }

  lemma LiteralWords()
    ensures S.WordOf(0x61, 0x62, 0x63, 0x80, 0, 0, 0, 0) == 0x6162638000000000
    ensures S.WordOf(0, 0, 0, 0, 0, 0, 0, 0) == 0 && S.WordOf(0, 0, 0, 0, 0, 0, 0, 24) == 24
  {}

  /** The padded message, word by word. */
  lemma BlockIs(i: nat)
    requires i < 16
    ensures W(i) == if i == 0 then 0x6162638000000000 else if i < 15 then 0 else 24
  {
    hide S.WordOf, S.AppPad, W;
    BlockWord(i);
    Padded();
    LiteralWords();
  }

  // ----- the schedule ------------------------------------------------------------------------------------

  function Next(a: Word, b: Word, c: Word, d: Word): Word { Add4(SmallSigma1(a), b, SmallSigma0(c), d) }

  /** Each later word of the schedule is the mix of four before it. */
  lemma {:induction false} ScheduleStep(b: seq<Word>, t: nat, n: nat)
    requires |b| == 16 && 16 <= t < n <= 80
    ensures var w := S.Schedule(b, n);
            w[t] == Next(w[t - 2], w[t - 7], w[t - 15], w[t - 16])
    decreases n
  {
    hide Add4, SmallSigma0, SmallSigma1;
    if t + 1 < n { ScheduleStep(b, t, n - 1); }
  }

  lemma WordIs(t: nat, a: Word, b: Word, c: Word, d: Word, r: Word)
    requires 16 <= t < 80
    requires W(t - 2) == a && W(t - 7) == b && W(t - 15) == c && W(t - 16) == d && Next(a, b, c, d) == r
    ensures W(t) == r
  {
    hide Next, S.Schedule;
    ScheduleStep(Block(), t, 80);
  }

  lemma WordsFrom0()
    ensures W(0) == 0x6162638000000000 && W(1) == 0
    ensures W(2) == 0 && W(3) == 0
    ensures W(4) == 0 && W(5) == 0
    ensures W(6) == 0 && W(7) == 0
  {
    hide W;
    BlockIs(0);
    BlockIs(1);
    BlockIs(2);
    BlockIs(3);
    BlockIs(4);
    BlockIs(5);
    BlockIs(6);
    BlockIs(7);
  }

  lemma WordsFrom8()
    ensures W(8) == 0 && W(9) == 0
    ensures W(10) == 0 && W(11) == 0
    ensures W(12) == 0 && W(13) == 0
    ensures W(14) == 0 && W(15) == 24
  {
    hide W;
    BlockIs(8);
    BlockIs(9);
    BlockIs(10);
    BlockIs(11);
    BlockIs(12);
    BlockIs(13);
    BlockIs(14);
    BlockIs(15);
  }

  lemma WordsFrom16()
    ensures W(16) == 0x6162638000000000 && W(17) == 0x00030000000000c0
    ensures W(18) == 0x0a9699a24c700003 && W(19) == 0x00000c0060000603
    ensures W(20) == 0x549ef62639858996 && W(21) == 0x00c0003300003c00
    ensures W(22) == 0x1497007a8a0e9dbc && W(23) == 0x62e56500cc0780f0
  {
    hide W;
    WordsFrom0();
    WordsFrom8();
    WordIs(16, 0, 0, 0, 0x6162638000000000, 0x6162638000000000);
    WordIs(17, 24, 0, 0, 0, 0x00030000000000c0);
    WordIs(18, 0x6162638000000000, 0, 0, 0, 0x0a9699a24c700003);
    WordIs(19, 0x00030000000000c0, 0, 0, 0, 0x00000c0060000603);
    WordIs(20, 0x0a9699a24c700003, 0, 0, 0, 0x549ef62639858996);
    WordIs(21, 0x00000c0060000603, 0, 0, 0, 0x00c0003300003c00);
    WordIs(22, 0x549ef62639858996, 24, 0, 0, 0x1497007a8a0e9dbc);
    WordIs(23, 0x00c0003300003c00, 0x6162638000000000, 0, 0, 0x62e56500cc0780f0);
  }

  lemma WordsFrom24()
    ensures W(24) == 0x7760dd475a538797 && W(25) == 0xf1554b711c1c0003
    ensures W(26) == 0xca2993a4345d9ff2 && W(27) == 0x5e0e66b5c783dd32
    ensures W(28) == 0xe25a625d00494b62 && W(29) == 0x9f44486fb1e4fbd2
    ensures W(30) == 0xb31b8c2b06085f2f && W(31) == 0x0e987660934142f6
  {
    hide W;
    WordsFrom8();
    WordsFrom16();
    WordIs(24, 0x1497007a8a0e9dbc, 0x00030000000000c0, 0, 0, 0x7760dd475a538797);
    WordIs(25, 0x62e56500cc0780f0, 0x0a9699a24c700003, 0, 0, 0xf1554b711c1c0003);
    WordIs(26, 0x7760dd475a538797, 0x00000c0060000603, 0, 0, 0xca2993a4345d9ff2);
    WordIs(27, 0xf1554b711c1c0003, 0x549ef62639858996, 0, 0, 0x5e0e66b5c783dd32);
    WordIs(28, 0xca2993a4345d9ff2, 0x00c0003300003c00, 0, 0, 0xe25a625d00494b62);
    WordIs(29, 0x5e0e66b5c783dd32, 0x1497007a8a0e9dbc, 0, 0, 0x9f44486fb1e4fbd2);
    WordIs(30, 0xe25a625d00494b62, 0x62e56500cc0780f0, 24, 0, 0xb31b8c2b06085f2f);
    WordIs(31, 0x9f44486fb1e4fbd2, 0x7760dd475a538797, 0x6162638000000000, 24, 0x0e987660934142f6);
  }

  lemma WordsFrom32()
    ensures W(32) == 0xa4af2cfd09fbb924 && W(33) == 0xad289e2e0bd53186
    ensures W(34) == 0x3c74563aa2f9673e && W(35) == 0x6ccdcd14cc14b53f
    ensures W(36) == 0xc3f925b337f22bde && W(37) == 0x5bcc77a75ad95b54
    ensures W(38) == 0x3ec2257adca09a52 && W(39) == 0x28246960001fc5eb
  {
    hide W;
    WordsFrom16();
    WordsFrom24();
    WordIs(32, 0xb31b8c2b06085f2f, 0xf1554b711c1c0003, 0x00030000000000c0, 0x6162638000000000, 0xa4af2cfd09fbb924);
    WordIs(33, 0x0e987660934142f6, 0xca2993a4345d9ff2, 0x0a9699a24c700003, 0x00030000000000c0, 0xad289e2e0bd53186);
    WordIs(34, 0xa4af2cfd09fbb924, 0x5e0e66b5c783dd32, 0x00000c0060000603, 0x0a9699a24c700003, 0x3c74563aa2f9673e);
    WordIs(35, 0xad289e2e0bd53186, 0xe25a625d00494b62, 0x549ef62639858996, 0x00000c0060000603, 0x6ccdcd14cc14b53f);
    WordIs(36, 0x3c74563aa2f9673e, 0x9f44486fb1e4fbd2, 0x00c0003300003c00, 0x549ef62639858996, 0xc3f925b337f22bde);
    WordIs(37, 0x6ccdcd14cc14b53f, 0xb31b8c2b06085f2f, 0x1497007a8a0e9dbc, 0x00c0003300003c00, 0x5bcc77a75ad95b54);
    WordIs(38, 0xc3f925b337f22bde, 0x0e987660934142f6, 0x62e56500cc0780f0, 0x1497007a8a0e9dbc, 0x3ec2257adca09a52);
    WordIs(39, 0x5bcc77a75ad95b54, 0xa4af2cfd09fbb924, 0x7760dd475a538797, 0x62e56500cc0780f0, 0x28246960001fc5eb);
  }

  lemma WordsFrom40()
    ensures W(40) == 0x04e33a75ce2be88a && W(41) == 0x7d5314b3c359e0e7
    ensures W(42) == 0xaef7a285ff251266 && W(43) == 0x0b8472581deea04f
    ensures W(44) == 0xb174e26eddc7b033 && W(45) == 0x5d63bae58ddd88de
    ensures W(46) == 0x4c044007b744ccbb && W(47) == 0xe6a9aa4d74dc7d43
  {
    hide W;
    WordsFrom24();
    WordsFrom32();
    WordIs(40, 0x3ec2257adca09a52, 0xad289e2e0bd53186, 0xf1554b711c1c0003, 0x7760dd475a538797, 0x04e33a75ce2be88a);
    WordIs(41, 0x28246960001fc5eb, 0x3c74563aa2f9673e, 0xca2993a4345d9ff2, 0xf1554b711c1c0003, 0x7d5314b3c359e0e7);
    WordIs(42, 0x04e33a75ce2be88a, 0x6ccdcd14cc14b53f, 0x5e0e66b5c783dd32, 0xca2993a4345d9ff2, 0xaef7a285ff251266);
    WordIs(43, 0x7d5314b3c359e0e7, 0xc3f925b337f22bde, 0xe25a625d00494b62, 0x5e0e66b5c783dd32, 0x0b8472581deea04f);
    WordIs(44, 0xaef7a285ff251266, 0x5bcc77a75ad95b54, 0x9f44486fb1e4fbd2, 0xe25a625d00494b62, 0xb174e26eddc7b033);
    WordIs(45, 0x0b8472581deea04f, 0x3ec2257adca09a52, 0xb31b8c2b06085f2f, 0x9f44486fb1e4fbd2, 0x5d63bae58ddd88de);
    WordIs(46, 0xb174e26eddc7b033, 0x28246960001fc5eb, 0x0e987660934142f6, 0xb31b8c2b06085f2f, 0x4c044007b744ccbb);
    WordIs(47, 0x5d63bae58ddd88de, 0x04e33a75ce2be88a, 0xa4af2cfd09fbb924, 0x0e987660934142f6, 0xe6a9aa4d74dc7d43);
  }

  lemma WordsFrom48()
    ensures W(48) == 0xebeaf1237248019c && W(49) == 0x361e80b2d00f3193
    ensures W(50) == 0x2e9839125df3b175 && W(51) == 0x3319629293ad5363
    ensures W(52) == 0x9cbc5d89ac1b89d5 && W(53) == 0x275e23ffeeca50b7
    ensures W(54) == 0x3b80d680bf69ef58 && W(55) == 0x0d0696933945a125
  {
    hide W;
    WordsFrom32();
    WordsFrom40();
    WordIs(48, 0x4c044007b744ccbb, 0x7d5314b3c359e0e7, 0xad289e2e0bd53186, 0xa4af2cfd09fbb924, 0xebeaf1237248019c);
    WordIs(49, 0xe6a9aa4d74dc7d43, 0xaef7a285ff251266, 0x3c74563aa2f9673e, 0xad289e2e0bd53186, 0x361e80b2d00f3193);
    WordIs(50, 0xebeaf1237248019c, 0x0b8472581deea04f, 0x6ccdcd14cc14b53f, 0x3c74563aa2f9673e, 0x2e9839125df3b175);
    WordIs(51, 0x361e80b2d00f3193, 0xb174e26eddc7b033, 0xc3f925b337f22bde, 0x6ccdcd14cc14b53f, 0x3319629293ad5363);
    WordIs(52, 0x2e9839125df3b175, 0x5d63bae58ddd88de, 0x5bcc77a75ad95b54, 0xc3f925b337f22bde, 0x9cbc5d89ac1b89d5);
    WordIs(53, 0x3319629293ad5363, 0x4c044007b744ccbb, 0x3ec2257adca09a52, 0x5bcc77a75ad95b54, 0x275e23ffeeca50b7);
    WordIs(54, 0x9cbc5d89ac1b89d5, 0xe6a9aa4d74dc7d43, 0x28246960001fc5eb, 0x3ec2257adca09a52, 0x3b80d680bf69ef58);
    WordIs(55, 0x275e23ffeeca50b7, 0xebeaf1237248019c, 0x04e33a75ce2be88a, 0x28246960001fc5eb, 0x0d0696933945a125);
  }

  lemma WordsFrom56()
    ensures W(56) == 0x7533eabcb786ff00 && W(57) == 0xb89826cee6fbf0e5
    ensures W(58) == 0x249b4fbcad623e9f && W(59) == 0x4aea9df2b02d6f1e
    ensures W(60) == 0x2cc57475a55e8d8f && W(61) == 0xb2574ae938d8be89
    ensures W(62) == 0xc1b35a57b16d6aea && W(63) == 0xcc4918b5949206bb
  {
    hide W;
    WordsFrom40();
    WordsFrom48();
    WordIs(56, 0x3b80d680bf69ef58, 0x361e80b2d00f3193, 0x7d5314b3c359e0e7, 0x04e33a75ce2be88a, 0x7533eabcb786ff00);
    WordIs(57, 0x0d0696933945a125, 0x2e9839125df3b175, 0xaef7a285ff251266, 0x7d5314b3c359e0e7, 0xb89826cee6fbf0e5);
    WordIs(58, 0x7533eabcb786ff00, 0x3319629293ad5363, 0x0b8472581deea04f, 0xaef7a285ff251266, 0x249b4fbcad623e9f);
    WordIs(59, 0xb89826cee6fbf0e5, 0x9cbc5d89ac1b89d5, 0xb174e26eddc7b033, 0x0b8472581deea04f, 0x4aea9df2b02d6f1e);
    WordIs(60, 0x249b4fbcad623e9f, 0x275e23ffeeca50b7, 0x5d63bae58ddd88de, 0xb174e26eddc7b033, 0x2cc57475a55e8d8f);
    WordIs(61, 0x4aea9df2b02d6f1e, 0x3b80d680bf69ef58, 0x4c044007b744ccbb, 0x5d63bae58ddd88de, 0xb2574ae938d8be89);
    WordIs(62, 0x2cc57475a55e8d8f, 0x0d0696933945a125, 0xe6a9aa4d74dc7d43, 0x4c044007b744ccbb, 0xc1b35a57b16d6aea);
    WordIs(63, 0xb2574ae938d8be89, 0x7533eabcb786ff00, 0xebeaf1237248019c, 0xe6a9aa4d74dc7d43, 0xcc4918b5949206bb);
  }

  lemma WordsFrom64()
    ensures W(64) == 0x5099c3add79f90ec && W(65) == 0x5ea81d78e7660bf1
    ensures W(66) == 0xebee6267405ac2a9 && W(67) == 0xb01f21926108a4ab
    ensures W(68) == 0x786433dd2fe65556 && W(69) == 0xc54a6eaa24a0552c
    ensures W(70) == 0xb3c8f1530bdbaa9e && W(71) == 0xbb8abfe56f469338
  {
    hide W;
    WordsFrom48();
    WordsFrom56();
    WordIs(64, 0xc1b35a57b16d6aea, 0xb89826cee6fbf0e5, 0x361e80b2d00f3193, 0xebeaf1237248019c, 0x5099c3add79f90ec);
    WordIs(65, 0xcc4918b5949206bb, 0x249b4fbcad623e9f, 0x2e9839125df3b175, 0x361e80b2d00f3193, 0x5ea81d78e7660bf1);
    WordIs(66, 0x5099c3add79f90ec, 0x4aea9df2b02d6f1e, 0x3319629293ad5363, 0x2e9839125df3b175, 0xebee6267405ac2a9);
    WordIs(67, 0x5ea81d78e7660bf1, 0x2cc57475a55e8d8f, 0x9cbc5d89ac1b89d5, 0x3319629293ad5363, 0xb01f21926108a4ab);
    WordIs(68, 0xebee6267405ac2a9, 0xb2574ae938d8be89, 0x275e23ffeeca50b7, 0x9cbc5d89ac1b89d5, 0x786433dd2fe65556);
    WordIs(69, 0xb01f21926108a4ab, 0xc1b35a57b16d6aea, 0x3b80d680bf69ef58, 0x275e23ffeeca50b7, 0xc54a6eaa24a0552c);
    WordIs(70, 0x786433dd2fe65556, 0xcc4918b5949206bb, 0x0d0696933945a125, 0x3b80d680bf69ef58, 0xb3c8f1530bdbaa9e);
    WordIs(71, 0xc54a6eaa24a0552c, 0x5099c3add79f90ec, 0x7533eabcb786ff00, 0x0d0696933945a125, 0xbb8abfe56f469338);
  }

  lemma WordsFrom72()
    ensures W(72) == 0xf63d4265cc1c5a78 && W(73) == 0xbe8355ea73129afb
    ensures W(74) == 0x49e2db8ebdcfbeb5 && W(75) == 0x82269d4a883a3d99
    ensures W(76) == 0xfdf53df3011f362b && W(77) == 0x464af5671d71c12e
    ensures W(78) == 0xe449b68198ec611c && W(79) == 0x92aeeed1a7bcf7d2
  {
    hide W;
    WordsFrom56();
    WordsFrom64();
    WordIs(72, 0xb3c8f1530bdbaa9e, 0x5ea81d78e7660bf1, 0xb89826cee6fbf0e5, 0x7533eabcb786ff00, 0xf63d4265cc1c5a78);
    WordIs(73, 0xbb8abfe56f469338, 0xebee6267405ac2a9, 0x249b4fbcad623e9f, 0xb89826cee6fbf0e5, 0xbe8355ea73129afb);
    WordIs(74, 0xf63d4265cc1c5a78, 0xb01f21926108a4ab, 0x4aea9df2b02d6f1e, 0x249b4fbcad623e9f, 0x49e2db8ebdcfbeb5);
    WordIs(75, 0xbe8355ea73129afb, 0x786433dd2fe65556, 0x2cc57475a55e8d8f, 0x4aea9df2b02d6f1e, 0x82269d4a883a3d99);
    WordIs(76, 0x49e2db8ebdcfbeb5, 0xc54a6eaa24a0552c, 0xb2574ae938d8be89, 0x2cc57475a55e8d8f, 0xfdf53df3011f362b);
    WordIs(77, 0x82269d4a883a3d99, 0xb3c8f1530bdbaa9e, 0xc1b35a57b16d6aea, 0xb2574ae938d8be89, 0x464af5671d71c12e);
    WordIs(78, 0xfdf53df3011f362b, 0xbb8abfe56f469338, 0xcc4918b5949206bb, 0xc1b35a57b16d6aea, 0xe449b68198ec611c);
    WordIs(79, 0x464af5671d71c12e, 0xf63d4265cc1c5a78, 0x5099c3add79f90ec, 0xcc4918b5949206bb, 0x92aeeed1a7bcf7d2);
  }

  // ----- the rounds --------------------------------------------------------------------------------------

  /** A round from the eight words takes constant `k` and word `w` to `x` and `y` in the first and fifth place. */
  predicate RoundIs(a: Word, b: Word, c: Word, d: Word, e: Word, f: Word, g: Word, h: Word, k: Word, w: Word,
                    x: Word, y: Word)
  {
    var t := Add5(h, BigSigma1(e), Ch(e, f, g), k, w);
    x == Add2(t, Add2(BigSigma0(a), Maj(a, b, c))) && y == Add2(d, t)
  }

  lemma StateIs(t: nat, a: Word, b: Word, c: Word, d: Word, e: Word, f: Word, g: Word, h: Word, k: Word, w: Word,
                x: Word, y: Word)
    requires t < 80 && State(t) == S.Hash(a, b, c, d, e, f, g, h)
    requires (if t / 8 == 4 then S.K(S.App, t) else S.K(S.Standard, t)) == k
    requires W(t) == w && RoundIs(a, b, c, d, e, f, g, h, k, w, x, y)
    ensures State(t + 1) == S.Hash(x, a, b, c, y, e, f, g)
  {
    hide Add5, Add2, BigSigma0, BigSigma1, Ch, Maj, S.Schedule, S.Initial;
    assert t / 8 != 4 ==> S.K(S.App, t) == S.K(S.Standard, t);
  }

  lemma AppRow()
    ensures S.K(S.App, 32) == 0x27b70a8546d22ffc && S.K(S.App, 33) == 0x2e1b21385c26c926
    ensures S.K(S.App, 34) == 0x4d2c6dfc5ac42aed && S.K(S.App, 35) == 0x53380d139d95b3df
    ensures S.K(S.App, 36) == 0x650a73548baf63de && S.K(S.App, 37) == 0x766a0abb3c77b2a8
    ensures S.K(S.App, 38) == 0x81c2c92e47867871 && S.K(S.App, 39) == 0x92722c851298a5e5
  {}

  lemma StateAfter8()
    ensures State(8) == S.Hash(0x8093d195e0054fa3, 0xc4875b0c7abc076b, 0xaf573b02403e89cd, 0xb680953951604860,
                               0x86f67263a0f0ec0a, 0x5a6c781f54dcc00c, 0x96f60209b6dc35ba, 0x745aca4a342ed2e2)
  {
    hide W, State, S.K;
    Start();
    C.Words512From0();
    WordsFrom0();
    StateIs(0, 0x6a09e667f3bcc908, 0xbb67ae8584caa73b, 0x3c6ef372fe94f82b, 0xa54ff53a5f1d36f1, 0x510e527fade682d1,
               0x9b05688c2b3e6c1f, 0x1f83d9abfb41bd6b, 0x5be0cd19137e2179, 0x428a2f98d728ae22, 0x6162638000000000,
               0xf6afceb8bcfcddf5, 0x58cb02347ab51f91);
    StateIs(1, 0xf6afceb8bcfcddf5, 0x6a09e667f3bcc908, 0xbb67ae8584caa73b, 0x3c6ef372fe94f82b, 0x58cb02347ab51f91,
               0x510e527fade682d1, 0x9b05688c2b3e6c1f, 0x1f83d9abfb41bd6b, 0x7137449123ef65cd, 0, 0x1320f8c9fb872cc0,
               0xc3d4ebfd48650ffa);
    StateIs(2, 0x1320f8c9fb872cc0, 0xf6afceb8bcfcddf5, 0x6a09e667f3bcc908, 0xbb67ae8584caa73b, 0xc3d4ebfd48650ffa,
               0x58cb02347ab51f91, 0x510e527fade682d1, 0x9b05688c2b3e6c1f, 0xb5c0fbcfec4d3b2f, 0, 0xebcffc07203d91f3,
               0xdfa9b239f2697812);
    StateIs(3, 0xebcffc07203d91f3, 0x1320f8c9fb872cc0, 0xf6afceb8bcfcddf5, 0x6a09e667f3bcc908, 0xdfa9b239f2697812,
               0xc3d4ebfd48650ffa, 0x58cb02347ab51f91, 0x510e527fade682d1, 0xe9b5dba58189dbbc, 0, 0x5a83cb3e80050e82,
               0x0b47b4bb1928990e);
    StateIs(4, 0x5a83cb3e80050e82, 0xebcffc07203d91f3, 0x1320f8c9fb872cc0, 0xf6afceb8bcfcddf5, 0x0b47b4bb1928990e,
               0xdfa9b239f2697812, 0xc3d4ebfd48650ffa, 0x58cb02347ab51f91, 0x3956c25bf348b538, 0, 0xb680953951604860,
               0x745aca4a342ed2e2);
    StateIs(5, 0xb680953951604860, 0x5a83cb3e80050e82, 0xebcffc07203d91f3, 0x1320f8c9fb872cc0, 0x745aca4a342ed2e2,
               0x0b47b4bb1928990e, 0xdfa9b239f2697812, 0xc3d4ebfd48650ffa, 0x59f111f1b605d019, 0, 0xaf573b02403e89cd,
               0x96f60209b6dc35ba);
    StateIs(6, 0xaf573b02403e89cd, 0xb680953951604860, 0x5a83cb3e80050e82, 0xebcffc07203d91f3, 0x96f60209b6dc35ba,
               0x745aca4a342ed2e2, 0x0b47b4bb1928990e, 0xdfa9b239f2697812, 0x923f82a4af194f9b, 0, 0xc4875b0c7abc076b,
               0x5a6c781f54dcc00c);
    StateIs(7, 0xc4875b0c7abc076b, 0xaf573b02403e89cd, 0xb680953951604860, 0x5a83cb3e80050e82, 0x5a6c781f54dcc00c,
               0x96f60209b6dc35ba, 0x745aca4a342ed2e2, 0x0b47b4bb1928990e, 0xab1c5ed5da6d8118, 0, 0x8093d195e0054fa3,
               0x86f67263a0f0ec0a);
  }

  lemma StateAfter16()
    ensures State(16) == S.Hash(0x0ae07c86b1181c75, 0xfa967eed85a08028, 0x44249631255d2ca0, 0x5e41214388186c14,
                                0xa77b7c035dd4c161, 0x874bfe5f6aae9f2f, 0x860acf9effba6f61, 0xcdf3bff2883fc9d9)
  {
    hide W, State, S.K;
    StateAfter8();
    C.Words512From8();
    WordsFrom8();
    StateIs(8, 0x8093d195e0054fa3, 0xc4875b0c7abc076b, 0xaf573b02403e89cd, 0xb680953951604860, 0x86f67263a0f0ec0a,
               0x5a6c781f54dcc00c, 0x96f60209b6dc35ba, 0x745aca4a342ed2e2, 0xd807aa98a3030242, 0, 0xf1eca5544cb89225,
               0xd0403c398fc40002);
    StateIs(9, 0xf1eca5544cb89225, 0x8093d195e0054fa3, 0xc4875b0c7abc076b, 0xaf573b02403e89cd, 0xd0403c398fc40002,
               0x86f67263a0f0ec0a, 0x5a6c781f54dcc00c, 0x96f60209b6dc35ba, 0x12835b0145706fbe, 0, 0x81782d4a5db48f03,
               0x00091f460be46c52);
    StateIs(10, 0x81782d4a5db48f03, 0xf1eca5544cb89225, 0x8093d195e0054fa3, 0xc4875b0c7abc076b, 0x00091f460be46c52,
                0xd0403c398fc40002, 0x86f67263a0f0ec0a, 0x5a6c781f54dcc00c, 0x243185be4ee4b28c, 0, 0x69854c4aa0f25b59,
                0xd375471bde1ba3f4);
    StateIs(11, 0x69854c4aa0f25b59, 0x81782d4a5db48f03, 0xf1eca5544cb89225, 0x8093d195e0054fa3, 0xd375471bde1ba3f4,
                0x00091f460be46c52, 0xd0403c398fc40002, 0x86f67263a0f0ec0a, 0x550c7dc3d5ffb4e2, 0, 0xdb0a9963f80c2eaa,
                0x475975b91a7a462c);
    StateIs(12, 0xdb0a9963f80c2eaa, 0x69854c4aa0f25b59, 0x81782d4a5db48f03, 0xf1eca5544cb89225, 0x475975b91a7a462c,
                0xd375471bde1ba3f4, 0x00091f460be46c52, 0xd0403c398fc40002, 0x72be5d74f27b896f, 0, 0x5e41214388186c14,
                0xcdf3bff2883fc9d9);
    StateIs(13, 0x5e41214388186c14, 0xdb0a9963f80c2eaa, 0x69854c4aa0f25b59, 0x81782d4a5db48f03, 0xcdf3bff2883fc9d9,
                0x475975b91a7a462c, 0xd375471bde1ba3f4, 0x00091f460be46c52, 0x80deb1fe3b1696b1, 0, 0x44249631255d2ca0,
                0x860acf9effba6f61);
    StateIs(14, 0x44249631255d2ca0, 0x5e41214388186c14, 0xdb0a9963f80c2eaa, 0x69854c4aa0f25b59, 0x860acf9effba6f61,
                0xcdf3bff2883fc9d9, 0x475975b91a7a462c, 0xd375471bde1ba3f4, 0x9bdc06a725c71235, 0, 0xfa967eed85a08028,
                0x874bfe5f6aae9f2f);
    StateIs(15, 0xfa967eed85a08028, 0x44249631255d2ca0, 0x5e41214388186c14, 0xdb0a9963f80c2eaa, 0x874bfe5f6aae9f2f,
                0x860acf9effba6f61, 0xcdf3bff2883fc9d9, 0x475975b91a7a462c, 0xc19bf174cf692694, 24,
                0x0ae07c86b1181c75, 0xa77b7c035dd4c161);
  }

  lemma StateAfter24()
    ensures State(24) == S.Hash(0x4f6877b58fe55484, 0x3e2644567b709a78, 0xda34d6673d452dcf, 0x8dc5ae65569d3855,
                                0xc66005f87db55233, 0x0ac2b11da8f571c6, 0x8e30ff09ad488753, 0x4bb9e66d1145bfdc)
  {
    hide W, State, S.K;
    StateAfter16();
    C.Words512From16();
    WordsFrom16();
    StateIs(16, 0x0ae07c86b1181c75, 0xfa967eed85a08028, 0x44249631255d2ca0, 0x5e41214388186c14, 0xa77b7c035dd4c161,
                0x874bfe5f6aae9f2f, 0x860acf9effba6f61, 0xcdf3bff2883fc9d9, 0xe49b69c19ef14ad2, 0x6162638000000000,
                0xcaf81a425d800537, 0x2deecc6b39d64d78);
    StateIs(17, 0xcaf81a425d800537, 0x0ae07c86b1181c75, 0xfa967eed85a08028, 0x44249631255d2ca0, 0x2deecc6b39d64d78,
                0xa77b7c035dd4c161, 0x874bfe5f6aae9f2f, 0x860acf9effba6f61, 0xefbe4786384f25e3, 0x00030000000000c0,
                0x4725be249ad19e6b, 0xf47e8353f8047455);
    StateIs(18, 0x4725be249ad19e6b, 0xcaf81a425d800537, 0x0ae07c86b1181c75, 0xfa967eed85a08028, 0xf47e8353f8047455,
                0x2deecc6b39d64d78, 0xa77b7c035dd4c161, 0x874bfe5f6aae9f2f, 0x0fc19dc68b8cd5b5, 0x0a9699a24c700003,
                0x3c4b4104168e3edb, 0x29695fd88d81dbd0);
    StateIs(19, 0x3c4b4104168e3edb, 0x4725be249ad19e6b, 0xcaf81a425d800537, 0x0ae07c86b1181c75, 0x29695fd88d81dbd0,
                0xf47e8353f8047455, 0x2deecc6b39d64d78, 0xa77b7c035dd4c161, 0x240ca1cc77ac9c65, 0x00000c0060000603,
                0x9a3fb4d38ab6cf06, 0xf14998dd5f70767e);
    StateIs(20, 0x9a3fb4d38ab6cf06, 0x3c4b4104168e3edb, 0x4725be249ad19e6b, 0xcaf81a425d800537, 0xf14998dd5f70767e,
                0x29695fd88d81dbd0, 0xf47e8353f8047455, 0x2deecc6b39d64d78, 0x2de92c6f592b0275, 0x549ef62639858996,
                0x8dc5ae65569d3855, 0x4bb9e66d1145bfdc);
    StateIs(21, 0x8dc5ae65569d3855, 0x9a3fb4d38ab6cf06, 0x3c4b4104168e3edb, 0x4725be249ad19e6b, 0x4bb9e66d1145bfdc,
                0xf14998dd5f70767e, 0x29695fd88d81dbd0, 0xf47e8353f8047455, 0x4a7484aa6ea6e483, 0x00c0003300003c00,
                0xda34d6673d452dcf, 0x8e30ff09ad488753);
    StateIs(22, 0xda34d6673d452dcf, 0x8dc5ae65569d3855, 0x9a3fb4d38ab6cf06, 0x3c4b4104168e3edb, 0x8e30ff09ad488753,
                0x4bb9e66d1145bfdc, 0xf14998dd5f70767e, 0x29695fd88d81dbd0, 0x5cb0a9dcbd41fbd4, 0x1497007a8a0e9dbc,
                0x3e2644567b709a78, 0x0ac2b11da8f571c6);
    StateIs(23, 0x3e2644567b709a78, 0xda34d6673d452dcf, 0x8dc5ae65569d3855, 0x9a3fb4d38ab6cf06, 0x0ac2b11da8f571c6,
                0x8e30ff09ad488753, 0x4bb9e66d1145bfdc, 0xf14998dd5f70767e, 0x76f988da831153b5, 0x62e56500cc0780f0,
                0x4f6877b58fe55484, 0xc66005f87db55233);
  }

  lemma StateAfter32()
    ensures State(32) == S.Hash(0xff4d3f1f0d46a736, 0x4c4fbbb75f1873a6, 0x74bf40f869094c63, 0xe62349090f47d30a,
                                0x3cd388e119e8162e, 0x73e025d91b9efea3, 0xf0aec2fe1437f085, 0x0fcdf99710f21584)
  {
    hide W, State, S.K;
    StateAfter24();
    C.Words512From24();
    WordsFrom24();
    StateIs(24, 0x4f6877b58fe55484, 0x3e2644567b709a78, 0xda34d6673d452dcf, 0x8dc5ae65569d3855, 0xc66005f87db55233,
                0x0ac2b11da8f571c6, 0x8e30ff09ad488753, 0x4bb9e66d1145bfdc, 0x983e5152ee66dfab, 0x7760dd475a538797,
                0x9aff71163fa3a940, 0xd3ecf13769180e6f);
    StateIs(25, 0x9aff71163fa3a940, 0x4f6877b58fe55484, 0x3e2644567b709a78, 0xda34d6673d452dcf, 0xd3ecf13769180e6f,
                0xc66005f87db55233, 0x0ac2b11da8f571c6, 0x8e30ff09ad488753, 0xa831c66d2db43210, 0xf1554b711c1c0003,
                0x0bc5f791f8e6816b, 0x6ddf1fd7edcce336);
    StateIs(26, 0x0bc5f791f8e6816b, 0x9aff71163fa3a940, 0x4f6877b58fe55484, 0x3e2644567b709a78, 0x6ddf1fd7edcce336,
                0xd3ecf13769180e6f, 0xc66005f87db55233, 0x0ac2b11da8f571c6, 0xb00327c898fb213f, 0xca2993a4345d9ff2,
                0x884c3bc27bc4f941, 0xe6e48c9a8e948365);
    StateIs(27, 0x884c3bc27bc4f941, 0x0bc5f791f8e6816b, 0x9aff71163fa3a940, 0x4f6877b58fe55484, 0xe6e48c9a8e948365,
                0x6ddf1fd7edcce336, 0xd3ecf13769180e6f, 0xc66005f87db55233, 0xbf597fc7beef0ee4, 0x5e0e66b5c783dd32,
                0xeab4a9e5771b8d09, 0x09068a4e255a0dac);
    StateIs(28, 0xeab4a9e5771b8d09, 0x884c3bc27bc4f941, 0x0bc5f791f8e6816b, 0x9aff71163fa3a940, 0x09068a4e255a0dac,
                0xe6e48c9a8e948365, 0x6ddf1fd7edcce336, 0xd3ecf13769180e6f, 0xc6e00bf33da88fc2, 0xe25a625d00494b62,
                0xe62349090f47d30a, 0x0fcdf99710f21584);
    StateIs(29, 0xe62349090f47d30a, 0xeab4a9e5771b8d09, 0x884c3bc27bc4f941, 0x0bc5f791f8e6816b, 0x0fcdf99710f21584,
                0x09068a4e255a0dac, 0xe6e48c9a8e948365, 0x6ddf1fd7edcce336, 0xd5a79147930aa725, 0x9f44486fb1e4fbd2,
                0x74bf40f869094c63, 0xf0aec2fe1437f085);
    StateIs(30, 0x74bf40f869094c63, 0xe62349090f47d30a, 0xeab4a9e5771b8d09, 0x884c3bc27bc4f941, 0xf0aec2fe1437f085,
                0x0fcdf99710f21584, 0x09068a4e255a0dac, 0xe6e48c9a8e948365, 0x06ca6351e003826f, 0xb31b8c2b06085f2f,
                0x4c4fbbb75f1873a6, 0x73e025d91b9efea3);
    StateIs(31, 0x4c4fbbb75f1873a6, 0x74bf40f869094c63, 0xe62349090f47d30a, 0xeab4a9e5771b8d09, 0x73e025d91b9efea3,
                0xf0aec2fe1437f085, 0x0fcdf99710f21584, 0x09068a4e255a0dac, 0x142929670a0e6e70, 0x0e987660934142f6,
                0xff4d3f1f0d46a736, 0x3cd388e119e8162e);
  }

  lemma StateAfter40()
    ensures State(40) == S.Hash(0x19684290c90816fa, 0xb3bb8542b2d03770, 0x002bb8e4cd989567, 0x88df85b0bbe77514,
                                0xade1fcf27103db41, 0xb49596c20f847169, 0x66adcfa249ac7bbd, 0x8fbfd0162bbf4675)
  {
    hide W, State, S.K;
    StateAfter32();
    AppRow();
    WordsFrom32();
    StateIs(32, 0xff4d3f1f0d46a736, 0x4c4fbbb75f1873a6, 0x74bf40f869094c63, 0xe62349090f47d30a, 0x3cd388e119e8162e,
                0x73e025d91b9efea3, 0xf0aec2fe1437f085, 0x0fcdf99710f21584, 0x27b70a8546d22ffc, 0xa4af2cfd09fbb924,
                0xa0509015ca08c8d4, 0xe1034573654a106f);
    StateIs(33, 0xa0509015ca08c8d4, 0xff4d3f1f0d46a736, 0x4c4fbbb75f1873a6, 0x74bf40f869094c63, 0xe1034573654a106f,
                0x3cd388e119e8162e, 0x73e025d91b9efea3, 0xf0aec2fe1437f085, 0x2e1b21385c26c926, 0xad289e2e0bd53186,
                0x60d4e6995ed91fe6, 0xefabbd8bf47c041a);
    StateIs(34, 0x60d4e6995ed91fe6, 0xa0509015ca08c8d4, 0xff4d3f1f0d46a736, 0x4c4fbbb75f1873a6, 0xefabbd8bf47c041a,
                0xe1034573654a106f, 0x3cd388e119e8162e, 0x73e025d91b9efea3, 0x4d2c6dfc5ac42aed, 0x3c74563aa2f9673e,
                0x2c59ec7743632621, 0x0fbae670fa780fd3);
    StateIs(35, 0x2c59ec7743632621, 0x60d4e6995ed91fe6, 0xa0509015ca08c8d4, 0xff4d3f1f0d46a736, 0x0fbae670fa780fd3,
                0xefabbd8bf47c041a, 0xe1034573654a106f, 0x3cd388e119e8162e, 0x53380d139d95b3df, 0x6ccdcd14cc14b53f,
                0x1a081afc59fdbc2c, 0xf098082f502b44cd);
    StateIs(36, 0x1a081afc59fdbc2c, 0x2c59ec7743632621, 0x60d4e6995ed91fe6, 0xa0509015ca08c8d4, 0xf098082f502b44cd,
                0x0fbae670fa780fd3, 0xefabbd8bf47c041a, 0xe1034573654a106f, 0x650a73548baf63de, 0xc3f925b337f22bde,
                0x88df85b0bbe77514, 0x8fbfd0162bbf4675);
    StateIs(37, 0x88df85b0bbe77514, 0x1a081afc59fdbc2c, 0x2c59ec7743632621, 0x60d4e6995ed91fe6, 0x8fbfd0162bbf4675,
                0xf098082f502b44cd, 0x0fbae670fa780fd3, 0xefabbd8bf47c041a, 0x766a0abb3c77b2a8, 0x5bcc77a75ad95b54,
                0x002bb8e4cd989567, 0x66adcfa249ac7bbd);
    StateIs(38, 0x002bb8e4cd989567, 0x88df85b0bbe77514, 0x1a081afc59fdbc2c, 0x2c59ec7743632621, 0x66adcfa249ac7bbd,
                0x8fbfd0162bbf4675, 0xf098082f502b44cd, 0x0fbae670fa780fd3, 0x81c2c92e47867871, 0x3ec2257adca09a52,
                0xb3bb8542b2d03770, 0xb49596c20f847169);
    StateIs(39, 0xb3bb8542b2d03770, 0x002bb8e4cd989567, 0x88df85b0bbe77514, 0x1a081afc59fdbc2c, 0xb49596c20f847169,
                0x66adcfa249ac7bbd, 0x8fbfd0162bbf4675, 0xf098082f502b44cd, 0x92722c851298a5e5, 0x28246960001fc5eb,
                0x19684290c90816fa, 0xade1fcf27103db41);
  }

  lemma StateAfter48()
    ensures State(48) == S.Hash(0xadb34684ca0ad0cd, 0xf8065d4770831549, 0x45b9919e42ceebf3, 0x8bb74fc93bcd351e,
                                0xef2c326cd92901d5, 0xae14fa95b346aa6d, 0x867c2826df371f7b, 0x34661b3f2232689d)
  {
    hide W, State, S.K;
    StateAfter40();
    C.Words512From40();
    WordsFrom40();
    StateIs(40, 0x19684290c90816fa, 0xb3bb8542b2d03770, 0x002bb8e4cd989567, 0x88df85b0bbe77514, 0xade1fcf27103db41,
                0xb49596c20f847169, 0x66adcfa249ac7bbd, 0x8fbfd0162bbf4675, 0xa2bfe8a14cf10364, 0x04e33a75ce2be88a,
                0x955be2f52b314db0, 0x89be6db23893c225);
    StateIs(41, 0x955be2f52b314db0, 0x19684290c90816fa, 0xb3bb8542b2d03770, 0x002bb8e4cd989567, 0x89be6db23893c225,
                0xade1fcf27103db41, 0xb49596c20f847169, 0x66adcfa249ac7bbd, 0xa81a664bbc423001, 0x7d5314b3c359e0e7,
                0x0fcb04d9fc83ab65, 0x6aec0ff00d49c8b2);
    StateIs(42, 0x0fcb04d9fc83ab65, 0x955be2f52b314db0, 0x19684290c90816fa, 0xb3bb8542b2d03770, 0x6aec0ff00d49c8b2,
                0x89be6db23893c225, 0xade1fcf27103db41, 0xb49596c20f847169, 0xc24b8b70d0f89791, 0xaef7a285ff251266,
                0x7e98f70c1b0d59c3, 0x1025dd9d6f7f66a3);
    StateIs(43, 0x7e98f70c1b0d59c3, 0x0fcb04d9fc83ab65, 0x955be2f52b314db0, 0x19684290c90816fa, 0x1025dd9d6f7f66a3,
                0x6aec0ff00d49c8b2, 0x89be6db23893c225, 0xade1fcf27103db41, 0xc76c51a30654be30, 0x0b8472581deea04f,
                0x6620e19eef81b5ff, 0xb18c6c5dccb4062c);
    StateIs(44, 0x6620e19eef81b5ff, 0x7e98f70c1b0d59c3, 0x0fcb04d9fc83ab65, 0x955be2f52b314db0, 0xb18c6c5dccb4062c,
                0x1025dd9d6f7f66a3, 0x6aec0ff00d49c8b2, 0x89be6db23893c225, 0xd192e819d6ef5218, 0xb174e26eddc7b033,
                0x8bb74fc93bcd351e, 0x34661b3f2232689d);
    StateIs(45, 0x8bb74fc93bcd351e, 0x6620e19eef81b5ff, 0x7e98f70c1b0d59c3, 0x0fcb04d9fc83ab65, 0x34661b3f2232689d,
                0xb18c6c5dccb4062c, 0x1025dd9d6f7f66a3, 0x6aec0ff00d49c8b2, 0xd69906245565a910, 0x5d63bae58ddd88de,
                0x45b9919e42ceebf3, 0x867c2826df371f7b);
    StateIs(46, 0x45b9919e42ceebf3, 0x8bb74fc93bcd351e, 0x6620e19eef81b5ff, 0x7e98f70c1b0d59c3, 0x867c2826df371f7b,
                0x34661b3f2232689d, 0xb18c6c5dccb4062c, 0x1025dd9d6f7f66a3, 0xf40e35855771202a, 0x4c044007b744ccbb,
                0xf8065d4770831549, 0xae14fa95b346aa6d);
    StateIs(47, 0xf8065d4770831549, 0x45b9919e42ceebf3, 0x8bb74fc93bcd351e, 0x6620e19eef81b5ff, 0xae14fa95b346aa6d,
                0x867c2826df371f7b, 0x34661b3f2232689d, 0xb18c6c5dccb4062c, 0x106aa07032bbd1b8, 0xe6a9aa4d74dc7d43,
                0xadb34684ca0ad0cd, 0xef2c326cd92901d5);
  }

  lemma StateAfter56()
    ensures State(56) == S.Hash(0x076928a650dee540, 0x675a86a48a757ad9, 0xa16b94bdc43043ed, 0xd1785061cf078e62,
                                0xbf0b411e8521dbe0, 0x672b6a38435610bb, 0x998c376a1d8b4c45, 0x6bfc8028411d7272)
  {
    hide W, State, S.K;
    StateAfter48();
    C.Words512From48();
    WordsFrom48();
    StateIs(48, 0xadb34684ca0ad0cd, 0xf8065d4770831549, 0x45b9919e42ceebf3, 0x8bb74fc93bcd351e, 0xef2c326cd92901d5,
                0xae14fa95b346aa6d, 0x867c2826df371f7b, 0x34661b3f2232689d, 0x19a4c116b8d2d0c8, 0xebeaf1237248019c,
                0xe3075e4981d1cf90, 0xe54fab4450105385);
    StateIs(49, 0xe3075e4981d1cf90, 0xadb34684ca0ad0cd, 0xf8065d4770831549, 0x45b9919e42ceebf3, 0xe54fab4450105385,
                0xef2c326cd92901d5, 0xae14fa95b346aa6d, 0x867c2826df371f7b, 0x1e376c085141ab53, 0x361e80b2d00f3193,
                0x9a3ff3b762f7ad5d, 0x0886fd9abbd085d1);
    StateIs(50, 0x9a3ff3b762f7ad5d, 0xe3075e4981d1cf90, 0xadb34684ca0ad0cd, 0xf8065d4770831549, 0x0886fd9abbd085d1,
                0xe54fab4450105385, 0xef2c326cd92901d5, 0xae14fa95b346aa6d, 0x2748774cdf8eeb99, 0x2e9839125df3b175,
                0x2acc072c23a2d221, 0xde983c19530d6111);
    StateIs(51, 0x2acc072c23a2d221, 0x9a3ff3b762f7ad5d, 0xe3075e4981d1cf90, 0xadb34684ca0ad0cd, 0xde983c19530d6111,
                0x0886fd9abbd085d1, 0xe54fab4450105385, 0xef2c326cd92901d5, 0x34b0bcb5e19b48a8, 0x3319629293ad5363,
                0x65fac6f3a128c075, 0xff1be30ca318d72a);
    StateIs(52, 0x65fac6f3a128c075, 0x2acc072c23a2d221, 0x9a3ff3b762f7ad5d, 0xe3075e4981d1cf90, 0xff1be30ca318d72a,
                0xde983c19530d6111, 0x0886fd9abbd085d1, 0xe54fab4450105385, 0x391c0cb3c5c95a63, 0x9cbc5d89ac1b89d5,
                0xd1785061cf078e62, 0x6bfc8028411d7272);
    StateIs(53, 0xd1785061cf078e62, 0x65fac6f3a128c075, 0x2acc072c23a2d221, 0x9a3ff3b762f7ad5d, 0x6bfc8028411d7272,
                0xff1be30ca318d72a, 0xde983c19530d6111, 0x0886fd9abbd085d1, 0x4ed8aa4ae3418acb, 0x275e23ffeeca50b7,
                0xa16b94bdc43043ed, 0x998c376a1d8b4c45);
    StateIs(54, 0xa16b94bdc43043ed, 0xd1785061cf078e62, 0x65fac6f3a128c075, 0x2acc072c23a2d221, 0x998c376a1d8b4c45,
                0x6bfc8028411d7272, 0xff1be30ca318d72a, 0xde983c19530d6111, 0x5b9cca4f7763e373, 0x3b80d680bf69ef58,
                0x675a86a48a757ad9, 0x672b6a38435610bb);
    StateIs(55, 0x675a86a48a757ad9, 0xa16b94bdc43043ed, 0xd1785061cf078e62, 0x65fac6f3a128c075, 0x672b6a38435610bb,
                0x998c376a1d8b4c45, 0x6bfc8028411d7272, 0xff1be30ca318d72a, 0x682e6ff3d6b2b8a3, 0x0d0696933945a125,
                0x076928a650dee540, 0xbf0b411e8521dbe0);
  }

  lemma StateAfter64()
    ensures State(64) == S.Hash(0xf4f57e7ecceb06c9, 0x07cea8f5ce2b2a2d, 0xf750f54858b6c0a3, 0x81eb2adaaf56103f,
                                0xd8fdbb7909213314, 0xf323f85fb586c1e7, 0x23c27432db0a1890, 0x71316d503f4db66d)
  {
    hide W, State, S.K;
    StateAfter56();
    C.Words512From56();
    WordsFrom56();
    StateIs(56, 0x076928a650dee540, 0x675a86a48a757ad9, 0xa16b94bdc43043ed, 0xd1785061cf078e62, 0xbf0b411e8521dbe0,
                0x672b6a38435610bb, 0x998c376a1d8b4c45, 0x6bfc8028411d7272, 0x748f82ee5defb2fc, 0x7533eabcb786ff00,
                0x106b7c8d4c3adf68, 0xe4fff7af6387f7e4);
    StateIs(57, 0x106b7c8d4c3adf68, 0x076928a650dee540, 0x675a86a48a757ad9, 0xa16b94bdc43043ed, 0xe4fff7af6387f7e4,
                0xbf0b411e8521dbe0, 0x672b6a38435610bb, 0x998c376a1d8b4c45, 0x78a5636f43172f60, 0xb89826cee6fbf0e5,
                0xf956d58c352129e0, 0x091c08bfde44ad77);
    StateIs(58, 0xf956d58c352129e0, 0x106b7c8d4c3adf68, 0x076928a650dee540, 0x675a86a48a757ad9, 0x091c08bfde44ad77,
                0xe4fff7af6387f7e4, 0xbf0b411e8521dbe0, 0x672b6a38435610bb, 0x84c87814a1f0ab72, 0x249b4fbcad623e9f,
                0xe0b94acb302820a2, 0xef77bebefb986e10);
    StateIs(59, 0xe0b94acb302820a2, 0xf956d58c352129e0, 0x106b7c8d4c3adf68, 0x076928a650dee540, 0xef77bebefb986e10,
                0x091c08bfde44ad77, 0xe4fff7af6387f7e4, 0xbf0b411e8521dbe0, 0x8cc702081a6439ec, 0x4aea9df2b02d6f1e,
                0xe67723e27182e4aa, 0xa47c9db397be1376);
    StateIs(60, 0xe67723e27182e4aa, 0xe0b94acb302820a2, 0xf956d58c352129e0, 0x106b7c8d4c3adf68, 0xa47c9db397be1376,
                0xef77bebefb986e10, 0x091c08bfde44ad77, 0xe4fff7af6387f7e4, 0x90befffa23631e28, 0x2cc57475a55e8d8f,
                0x81eb2adaaf56103f, 0x71316d503f4db66d);
    StateIs(61, 0x81eb2adaaf56103f, 0xe67723e27182e4aa, 0xe0b94acb302820a2, 0xf956d58c352129e0, 0x71316d503f4db66d,
                0xa47c9db397be1376, 0xef77bebefb986e10, 0x091c08bfde44ad77, 0xa4506cebde82bde9, 0xb2574ae938d8be89,
                0xf750f54858b6c0a3, 0x23c27432db0a1890);
    StateIs(62, 0xf750f54858b6c0a3, 0x81eb2adaaf56103f, 0xe67723e27182e4aa, 0xe0b94acb302820a2, 0x23c27432db0a1890,
                0x71316d503f4db66d, 0xa47c9db397be1376, 0xef77bebefb986e10, 0xbef9a3f7b2c67915, 0xc1b35a57b16d6aea,
                0x07cea8f5ce2b2a2d, 0xf323f85fb586c1e7);
    StateIs(63, 0x07cea8f5ce2b2a2d, 0xf750f54858b6c0a3, 0x81eb2adaaf56103f, 0xe67723e27182e4aa, 0xf323f85fb586c1e7,
                0x23c27432db0a1890, 0x71316d503f4db66d, 0xa47c9db397be1376, 0xc67178f2e372532b, 0xcc4918b5949206bb,
                0xf4f57e7ecceb06c9, 0xd8fdbb7909213314);
  }

  lemma StateAfter72()
    ensures State(72) == S.Hash(0x4ea4d1d0d6ff18d3, 0x8e78d985a5e68b6b, 0xb991b96100acf343, 0xe1e38428ded76821,
                                0x2e9a2a042a030361, 0xb1a3e51d97b8f702, 0x06fec9bd14aa91a8, 0x2feb33891b80f0f5)
  {
    hide W, State, S.K;
    StateAfter64();
    C.Words512From64();
    WordsFrom64();
    StateIs(64, 0xf4f57e7ecceb06c9, 0x07cea8f5ce2b2a2d, 0xf750f54858b6c0a3, 0x81eb2adaaf56103f, 0xd8fdbb7909213314,
                0xf323f85fb586c1e7, 0x23c27432db0a1890, 0x71316d503f4db66d, 0xca273eceea26619c, 0x5099c3add79f90ec,
                0x3311a9164ba21fc2, 0x3d145c538cc9dac9);
    StateIs(65, 0x3311a9164ba21fc2, 0xf4f57e7ecceb06c9, 0x07cea8f5ce2b2a2d, 0xf750f54858b6c0a3, 0x3d145c538cc9dac9,
                0xd8fdbb7909213314, 0xf323f85fb586c1e7, 0x23c27432db0a1890, 0xd186b8c721c0c207, 0x5ea81d78e7660bf1,
                0x9eadcb2c28603b25, 0x59cad81178b3148c);
    StateIs(66, 0x9eadcb2c28603b25, 0x3311a9164ba21fc2, 0xf4f57e7ecceb06c9, 0x07cea8f5ce2b2a2d, 0x59cad81178b3148c,
                0x3d145c538cc9dac9, 0xd8fdbb7909213314, 0xf323f85fb586c1e7, 0xeada7dd6cde0eb1e, 0xebee6267405ac2a9,
                0x8dd1e50f6cddb832, 0x0a9f25e02bdc26ff);
    StateIs(67, 0x8dd1e50f6cddb832, 0x9eadcb2c28603b25, 0x3311a9164ba21fc2, 0xf4f57e7ecceb06c9, 0x0a9f25e02bdc26ff,
                0x59cad81178b3148c, 0x3d145c538cc9dac9, 0xd8fdbb7909213314, 0xf57d4f7fee6ed178, 0xb01f21926108a4ab,
                0xc641cac9aafa3579, 0x137009e5f39376a1);
    StateIs(68, 0xc641cac9aafa3579, 0x8dd1e50f6cddb832, 0x9eadcb2c28603b25, 0x3311a9164ba21fc2, 0x137009e5f39376a1,
                0x0a9f25e02bdc26ff, 0x59cad81178b3148c, 0x3d145c538cc9dac9, 0x06f067aa72176fba, 0x786433dd2fe65556,
                0xe1e38428ded76821, 0x2feb33891b80f0f5);
    StateIs(69, 0xe1e38428ded76821, 0xc641cac9aafa3579, 0x8dd1e50f6cddb832, 0x9eadcb2c28603b25, 0x2feb33891b80f0f5,
                0x137009e5f39376a1, 0x0a9f25e02bdc26ff, 0x59cad81178b3148c, 0x0a637dc5a2c898a6, 0xc54a6eaa24a0552c,
                0xb991b96100acf343, 0x06fec9bd14aa91a8);
    StateIs(70, 0xb991b96100acf343, 0xe1e38428ded76821, 0xc641cac9aafa3579, 0x8dd1e50f6cddb832, 0x06fec9bd14aa91a8,
                0x2feb33891b80f0f5, 0x137009e5f39376a1, 0x0a9f25e02bdc26ff, 0x113f9804bef90dae, 0xb3c8f1530bdbaa9e,
                0x8e78d985a5e68b6b, 0xb1a3e51d97b8f702);
    StateIs(71, 0x8e78d985a5e68b6b, 0xb991b96100acf343, 0xe1e38428ded76821, 0xc641cac9aafa3579, 0xb1a3e51d97b8f702,
                0x06fec9bd14aa91a8, 0x2feb33891b80f0f5, 0x137009e5f39376a1, 0x1b710b35131c471b, 0xbb8abfe56f469338,
                0x4ea4d1d0d6ff18d3, 0x2e9a2a042a030361);
  }

  lemma StateAfter80()
    ensures State(80) == S.Hash(0x8be6c090b38f21af, 0x0500114796d1bd5c, 0x1547be4a404c57e2, 0x04fb4b24f547fe59,
                                0x3fc9c4feefbfb7e1, 0xc7b4800313892c95, 0xe2594ff7847c3e65, 0xa43acce1c6de9680)
  {
    hide W, State, S.K;
    StateAfter72();
    C.Words512From72();
    WordsFrom72();
    StateIs(72, 0x4ea4d1d0d6ff18d3, 0x8e78d985a5e68b6b, 0xb991b96100acf343, 0xe1e38428ded76821, 0x2e9a2a042a030361,
                0xb1a3e51d97b8f702, 0x06fec9bd14aa91a8, 0x2feb33891b80f0f5, 0x28db77f523047d84, 0xf63d4265cc1c5a78,
                0xc9c94ee3d7b9482f, 0x211844199228b433);
    StateIs(73, 0xc9c94ee3d7b9482f, 0x4ea4d1d0d6ff18d3, 0x8e78d985a5e68b6b, 0xb991b96100acf343, 0x211844199228b433,
                0x2e9a2a042a030361, 0xb1a3e51d97b8f702, 0x06fec9bd14aa91a8, 0x32caab7b40c72493, 0xbe8355ea73129afb,
                0xb2d040ccf2796be4, 0x53a37e04e9b227a4);
    StateIs(74, 0xb2d040ccf2796be4, 0xc9c94ee3d7b9482f, 0x4ea4d1d0d6ff18d3, 0x8e78d985a5e68b6b, 0x53a37e04e9b227a4,
                0x211844199228b433, 0x2e9a2a042a030361, 0xb1a3e51d97b8f702, 0x3c9ebe0a15c9bebc, 0x49e2db8ebdcfbeb5,
                0xc7f69d5482fdeb53, 0x08c31fb38915715a);
    StateIs(75, 0xc7f69d5482fdeb53, 0xb2d040ccf2796be4, 0xc9c94ee3d7b9482f, 0x4ea4d1d0d6ff18d3, 0x08c31fb38915715a,
                0x53a37e04e9b227a4, 0x211844199228b433, 0x2e9a2a042a030361, 0x431d67c49c100d4c, 0x82269d4a883a3d99,
                0xc0a839a2f9c1a594, 0xa5188a70d4abb3d9);
    StateIs(76, 0xc0a839a2f9c1a594, 0xc7f69d5482fdeb53, 0xb2d040ccf2796be4, 0xc9c94ee3d7b9482f, 0xa5188a70d4abb3d9,
                0x08c31fb38915715a, 0x53a37e04e9b227a4, 0x211844199228b433, 0x4cc5d4becb3e42b6, 0xfdf53df3011f362b,
                0x04fb4b24f547fe59, 0xa43acce1c6de9680);
    StateIs(77, 0x04fb4b24f547fe59, 0xc0a839a2f9c1a594, 0xc7f69d5482fdeb53, 0xb2d040ccf2796be4, 0xa43acce1c6de9680,
                0xa5188a70d4abb3d9, 0x08c31fb38915715a, 0x53a37e04e9b227a4, 0x597f299cfc657e2a, 0x464af5671d71c12e,
                0x1547be4a404c57e2, 0xe2594ff7847c3e65);
    StateIs(78, 0x1547be4a404c57e2, 0x04fb4b24f547fe59, 0xc0a839a2f9c1a594, 0xc7f69d5482fdeb53, 0xe2594ff7847c3e65,
                0xa43acce1c6de9680, 0xa5188a70d4abb3d9, 0x08c31fb38915715a, 0x5fcb6fab3ad6faec, 0xe449b68198ec611c,
                0x0500114796d1bd5c, 0xc7b4800313892c95);
    StateIs(79, 0x0500114796d1bd5c, 0x1547be4a404c57e2, 0x04fb4b24f547fe59, 0xc0a839a2f9c1a594, 0xc7b4800313892c95,
                0xe2594ff7847c3e65, 0xa43acce1c6de9680, 0xa5188a70d4abb3d9, 0x6c44198c4a475817, 0x92aeeed1a7bcf7d2,
                0x8be6c090b38f21af, 0x3fc9c4feefbfb7e1);
  }

  lemma Start()
    ensures State(0) == S.Hash(0x6a09e667f3bcc908, 0xbb67ae8584caa73b, 0x3c6ef372fe94f82b, 0xa54ff53a5f1d36f1,
                               0x510e527fade682d1, 0x9b05688c2b3e6c1f, 0x1f83d9abfb41bd6b, 0x5be0cd19137e2179)
  {}

  // ----- the digest --------------------------------------------------------------------------------------

  lemma Sum()
    ensures S.AddHash(S.Hash(0x6a09e667f3bcc908, 0xbb67ae8584caa73b, 0x3c6ef372fe94f82b, 0xa54ff53a5f1d36f1,
                             0x510e527fade682d1, 0x9b05688c2b3e6c1f, 0x1f83d9abfb41bd6b, 0x5be0cd19137e2179),
                      S.Hash(0x8be6c090b38f21af, 0x0500114796d1bd5c, 0x1547be4a404c57e2, 0x04fb4b24f547fe59,
                             0x3fc9c4feefbfb7e1, 0xc7b4800313892c95, 0xe2594ff7847c3e65, 0xa43acce1c6de9680))
             == S.Hash(0xf5f0a6f8a74beab7, 0xc067bfcd1b9c6497, 0x51b6b1bd3ee1500d, 0xaa4b405f5465354a,
                       0x90d8177e9da63ab2, 0x62b9e88f3ec798b4, 0x01dd29a37fbdfbd0, 0x001b99fada5cb7f9)
  {}

  lemma BytesOf(x: Word, b0: bv8, b1: bv8, b2: bv8, b3: bv8, b4: bv8, b5: bv8, b6: bv8, b7: bv8)
    requires LowByte(ShiftRight(x, 56)) == b0 && LowByte(ShiftRight(x, 48)) == b1
    requires LowByte(ShiftRight(x, 40)) == b2 && LowByte(ShiftRight(x, 32)) == b3
    requires LowByte(ShiftRight(x, 24)) == b4 && LowByte(ShiftRight(x, 16)) == b5
    requires LowByte(ShiftRight(x, 8)) == b6 && LowByte(ShiftRight(x, 0)) == b7
    ensures S.WordBytes(x) == [b0, b1, b2, b3, b4, b5, b6, b7]
  {
    hide LowByte, ShiftRight, S.ByteOfWord;
    AppSha512.BytesAre(x);
  }

  lemma FirstBytes()
    ensures S.WordBytes(0xf5f0a6f8a74beab7) == [0xf5, 0xf0, 0xa6, 0xf8, 0xa7, 0x4b, 0xea, 0xb7]
    ensures S.WordBytes(0xc067bfcd1b9c6497) == [0xc0, 0x67, 0xbf, 0xcd, 0x1b, 0x9c, 0x64, 0x97]
    ensures S.WordBytes(0x51b6b1bd3ee1500d) == [0x51, 0xb6, 0xb1, 0xbd, 0x3e, 0xe1, 0x50, 0x0d]
    ensures S.WordBytes(0xaa4b405f5465354a) == [0xaa, 0x4b, 0x40, 0x5f, 0x54, 0x65, 0x35, 0x4a]
  {
    hide S.WordBytes;
    BytesOf(0xf5f0a6f8a74beab7, 0xf5, 0xf0, 0xa6, 0xf8, 0xa7, 0x4b, 0xea, 0xb7);
    BytesOf(0xc067bfcd1b9c6497, 0xc0, 0x67, 0xbf, 0xcd, 0x1b, 0x9c, 0x64, 0x97);
    BytesOf(0x51b6b1bd3ee1500d, 0x51, 0xb6, 0xb1, 0xbd, 0x3e, 0xe1, 0x50, 0x0d);
    BytesOf(0xaa4b405f5465354a, 0xaa, 0x4b, 0x40, 0x5f, 0x54, 0x65, 0x35, 0x4a);
  }

  lemma LastBytes()
    ensures S.WordBytes(0x90d8177e9da63ab2) == [0x90, 0xd8, 0x17, 0x7e, 0x9d, 0xa6, 0x3a, 0xb2]
    ensures S.WordBytes(0x62b9e88f3ec798b4) == [0x62, 0xb9, 0xe8, 0x8f, 0x3e, 0xc7, 0x98, 0xb4]
    ensures S.WordBytes(0x01dd29a37fbdfbd0) == [0x01, 0xdd, 0x29, 0xa3, 0x7f, 0xbd, 0xfb, 0xd0]
    ensures S.WordBytes(0x001b99fada5cb7f9) == [0x00, 0x1b, 0x99, 0xfa, 0xda, 0x5c, 0xb7, 0xf9]
  {
    hide S.WordBytes;
    BytesOf(0x90d8177e9da63ab2, 0x90, 0xd8, 0x17, 0x7e, 0x9d, 0xa6, 0x3a, 0xb2);
    BytesOf(0x62b9e88f3ec798b4, 0x62, 0xb9, 0xe8, 0x8f, 0x3e, 0xc7, 0x98, 0xb4);
    BytesOf(0x01dd29a37fbdfbd0, 0x01, 0xdd, 0x29, 0xa3, 0x7f, 0xbd, 0xfb, 0xd0);
    BytesOf(0x001b99fada5cb7f9, 0x00, 0x1b, 0x99, 0xfa, 0xda, 0x5c, 0xb7, 0xf9);
  }

  lemma {:induction false} AllBytesMore(ws: seq<Word>, x: Word)
    ensures S.AllBytes(ws + [x]) == S.AllBytes(ws) + S.WordBytes(x)
  {
    hide S.WordBytes;
    assert (ws + [x])[..|ws|] == ws;
  }

  lemma FourWords(a: Word, b: Word, c: Word, d: Word)
    ensures S.AllBytes([a, b, c, d]) == S.WordBytes(a) + S.WordBytes(b) + S.WordBytes(c) + S.WordBytes(d)
  {
    hide S.WordBytes, S.AllBytes;
    AllBytesMore([], a);
    AllBytesMore([a], b);
    AllBytesMore([a, b], c);
    AllBytesMore([a, b, c], d);
    NoBytes();
    assert [a] + [b] == [a, b] && [a, b] + [c] == [a, b, c] && [a, b, c] + [d] == [a, b, c, d];
    assert [] + [a] == [a];
  }

  lemma NoBytes()
    ensures S.AllBytes([]) == []
  {}

  lemma EightWords(s: S.Hash)
    ensures S.HashBytes(s) == S.WordBytes(s.a) + S.WordBytes(s.b) + S.WordBytes(s.c) + S.WordBytes(s.d)
                              + S.WordBytes(s.e) + S.WordBytes(s.f) + S.WordBytes(s.g) + S.WordBytes(s.h)
  {
    hide S.WordBytes, S.AllBytes;
    var w := [s.a, s.b, s.c, s.d];
    FourWords(s.a, s.b, s.c, s.d);
    AllBytesMore(w, s.e);
    AllBytesMore(w + [s.e], s.f);
    AllBytesMore(w + [s.e, s.f], s.g);
    AllBytesMore(w + [s.e, s.f, s.g], s.h);
    assert w + [s.e] + [s.f] == w + [s.e, s.f] && w + [s.e, s.f] + [s.g] == w + [s.e, s.f, s.g];
    assert w + [s.e, s.f, s.g] + [s.h] == [s.a, s.b, s.c, s.d, s.e, s.f, s.g, s.h];
  }

  lemma DigestOfBlock()
    ensures S.AppDigest(ABC) == S.HashBytes(S.AddHash(S.Initial(), State(80)))
  {
    hide S.HashBytes, S.AddHash, S.AppPad, S.Rounds, S.Schedule, S.Initial;
    BlockWord(0);
    S.HashNone(S.AppPad(ABC));
    S.HashMore(S.AppPad(ABC), 0);
    S.DigestIs(ABC, 1);
  }

  /** The app's digest of the one-block example of FIPS 180-4, which gives another. */
  lemma AbcDigest()
    ensures S.AppDigest(ABC)
         == [0xf5, 0xf0, 0xa6, 0xf8, 0xa7, 0x4b, 0xea, 0xb7] + [0xc0, 0x67, 0xbf, 0xcd, 0x1b, 0x9c, 0x64, 0x97]
            + [0x51, 0xb6, 0xb1, 0xbd, 0x3e, 0xe1, 0x50, 0x0d] + [0xaa, 0x4b, 0x40, 0x5f, 0x54, 0x65, 0x35, 0x4a]
            + [0x90, 0xd8, 0x17, 0x7e, 0x9d, 0xa6, 0x3a, 0xb2] + [0x62, 0xb9, 0xe8, 0x8f, 0x3e, 0xc7, 0x98, 0xb4]
            + [0x01, 0xdd, 0x29, 0xa3, 0x7f, 0xbd, 0xfb, 0xd0] + [0x00, 0x1b, 0x99, 0xfa, 0xda, 0x5c, 0xb7, 0xf9]
  {
    hide S.HashBytes, S.AddHash, S.AppDigest, S.WordBytes, S.Initial;
    DigestOfBlock();
    StateAfter80();
    Start();
    Sum();
    EightWords(S.Hash(0xf5f0a6f8a74beab7, 0xc067bfcd1b9c6497, 0x51b6b1bd3ee1500d, 0xaa4b405f5465354a,
                      0x90d8177e9da63ab2, 0x62b9e88f3ec798b4, 0x01dd29a37fbdfbd0, 0x001b99fada5cb7f9));
    FirstBytes();
    LastBytes();
  }}

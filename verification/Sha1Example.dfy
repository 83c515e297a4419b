/**
 SHA-1 of the three bytes "abc", the first example that the standard is published with,
 worked out word by word and round by round; and what the schedule and the constants are.
 */
module Sha1Example {
  import opened Words
  import opened Sha1Block
  import opened BlockHash
  import Sha1

  // ----- the schedule and the constants

  lemma Rol1Linear(x: Word, y: Word)
    ensures x.Xor(y).Rol1() == x.Rol1().Xor(y.Rol1())
  {
  }

  lemma XorOfTwo(a: Word, b: Word, c: Word, d: Word)
    ensures a.Xor(b).Xor(c.Xor(d)) == a.Xor(c).Xor(b.Xor(d))
  {
  }

  function XorBlocks(m: seq<Word>, n: seq<Word>): (x: seq<Word>)
    requires |m| == |n| == 16
    ensures |x| == 16
  {
    seq(16, k requires 0 <= k < 16 => m[k].Xor(n[k]))
  }

  /** The schedule is linear over exclusive or. */
  lemma {:induction false} ScheduleLinear(m: seq<Word>, n: seq<Word>, t: nat)
    requires |m| == |n| == 16
    ensures W(XorBlocks(m, n), t) == W(m, t).Xor(W(n, t))
  {
    hide Word.Xor, Word.Rol1;
    if t >= 16 {
      ScheduleLinear(m, n, t - 3);
      ScheduleLinear(m, n, t - 8);
      ScheduleLinear(m, n, t - 14);
      ScheduleLinear(m, n, t - 16);
      XorOfTwo(W(m, t - 3), W(n, t - 3), W(m, t - 8), W(n, t - 8));
      XorOfTwo(W(m, t - 3).Xor(W(m, t - 8)), W(n, t - 3).Xor(W(n, t - 8)), W(m, t - 14), W(n, t - 14));
      XorOfTwo(W(m, t - 3).Xor(W(m, t - 8)).Xor(W(m, t - 14)), W(n, t - 3).Xor(W(n, t - 8)).Xor(W(n, t - 14)),
               W(m, t - 16), W(n, t - 16));
      Rol1Linear(W(m, t - 3).Xor(W(m, t - 8)).Xor(W(m, t - 14)).Xor(W(m, t - 16)),
                 W(n, t - 3).Xor(W(n, t - 8)).Xor(W(n, t - 14)).Xor(W(n, t - 16)));
    }
  }

  /** The constants are the square roots of 2, 3, 5 and 10 to 30 binary places. */
  lemma ConstantsAreRoots(t: nat)
    requires t < 80
    ensures var n := if t < 20 then 2 else if t < 40 then 3 else if t < 60 then 5 else 10;
      var k := K(t).bits as nat;
      k * k <= n * 0x1000_0000_0000_0000 < (k + 1) * (k + 1)
  {
    assert 0x5a827999 as bv32 as nat == 0x5a827999;
    assert 0x6ed9eba1 as bv32 as nat == 0x6ed9eba1;
    assert 0x8f1bbcdc as bv32 as nat == 0x8f1bbcdc;
    assert 0xca62c1d6 as bv32 as nat == 0xca62c1d6;
  }

  // ----- the block and its schedule

  function Abc(): seq<Byte> {
    [0x61, 0x62, 0x63]
  }

  /** The one block that the padded message is. */
  function Block(): (m: seq<Word>)
    ensures |m| == 16
  {
    Sha1.WordsOf(Abc() + [0x80] + Zeros(52) + [0, 0, 0, 0, 0, 0, 0, 24])
  }

  lemma Next(t: nat, a: bv32, b: bv32, c: bv32, d: bv32)
    requires t >= 16 && W(Block(), t - 3) == Word(a) && W(Block(), t - 8) == Word(b)
    requires W(Block(), t - 14) == Word(c) && W(Block(), t - 16) == Word(d)
    ensures W(Block(), t) == Word(a ^ b ^ c ^ d).Rol1()
  {
    hide Block, Word.Rol1;
  }

  lemma Schedule0()
    ensures W(Block(), 0) == Word(0x61626380) && W(Block(), 1) == Word(0x00000000)
    ensures W(Block(), 2) == Word(0x00000000) && W(Block(), 3) == Word(0x00000000)
    ensures W(Block(), 4) == Word(0x00000000) && W(Block(), 5) == Word(0x00000000)
    ensures W(Block(), 6) == Word(0x00000000) && W(Block(), 7) == Word(0x00000000)
    ensures W(Block(), 8) == Word(0x00000000) && W(Block(), 9) == Word(0x00000000)
    ensures W(Block(), 10) == Word(0x00000000) && W(Block(), 11) == Word(0x00000000)
    ensures W(Block(), 12) == Word(0x00000000) && W(Block(), 13) == Word(0x00000000)
    ensures W(Block(), 14) == Word(0x00000000) && W(Block(), 15) == Word(0x00000018)
  {
    BlockWords();
  }

  lemma BlockWords()
    ensures Block()[0] == Word(0x61626380) && Block()[15] == Word(0x18)
    ensures forall k :: 1 <= k < 15 ==> Block()[k] == Word(0)
  {
  }

  lemma Schedule1()
    ensures W(Block(), 16) == Word(0xc2c4c700) && W(Block(), 17) == Word(0x00000000)
    ensures W(Block(), 18) == Word(0x00000030) && W(Block(), 19) == Word(0x85898e01)
    ensures W(Block(), 20) == Word(0x00000000) && W(Block(), 21) == Word(0x00000060)
    ensures W(Block(), 22) == Word(0x0b131c03) && W(Block(), 23) == Word(0x00000030)
    ensures W(Block(), 24) == Word(0x85898ec1) && W(Block(), 25) == Word(0x16263806)
    ensures W(Block(), 26) == Word(0x00000000) && W(Block(), 27) == Word(0x00000180)
    ensures W(Block(), 28) == Word(0x2c4c700c) && W(Block(), 29) == Word(0x000000f0)
    ensures W(Block(), 30) == Word(0x93afb507) && W(Block(), 31) == Word(0x5898e048)
  {
    hide Block, W;
    Schedule0();
    Next(16, 0x00000000, 0x00000000, 0x00000000, 0x61626380);
    Next(17, 0x00000000, 0x00000000, 0x00000000, 0x00000000);
    Next(18, 0x00000018, 0x00000000, 0x00000000, 0x00000000);
    Next(19, 0xc2c4c700, 0x00000000, 0x00000000, 0x00000000);
    Next(20, 0x00000000, 0x00000000, 0x00000000, 0x00000000);
    Next(21, 0x00000030, 0x00000000, 0x00000000, 0x00000000);
    Next(22, 0x85898e01, 0x00000000, 0x00000000, 0x00000000);
    Next(23, 0x00000000, 0x00000018, 0x00000000, 0x00000000);
    Next(24, 0x00000060, 0xc2c4c700, 0x00000000, 0x00000000);
    Next(25, 0x0b131c03, 0x00000000, 0x00000000, 0x00000000);
    Next(26, 0x00000030, 0x00000030, 0x00000000, 0x00000000);
    Next(27, 0x85898ec1, 0x85898e01, 0x00000000, 0x00000000);
    Next(28, 0x16263806, 0x00000000, 0x00000000, 0x00000000);
    Next(29, 0x00000000, 0x00000060, 0x00000018, 0x00000000);
    Next(30, 0x00000180, 0x0b131c03, 0xc2c4c700, 0x00000000);
    Next(31, 0x2c4c700c, 0x00000030, 0x00000000, 0x00000018);
  }

  lemma Schedule2()
    ensures W(Block(), 32) == Word(0x8e9a9202) && W(Block(), 33) == Word(0x00000600)
    ensures W(Block(), 34) == Word(0xb131c0f0) && W(Block(), 35) == Word(0x16263bc6)
    ensures W(Block(), 36) == Word(0x4ebed41e) && W(Block(), 37) == Word(0x626380a1)
    ensures W(Block(), 38) == Word(0x16263806) && W(Block(), 39) == Word(0x000018c0)
    ensures W(Block(), 40) == Word(0xd2e138c4) && W(Block(), 41) == Word(0x00000f00)
    ensures W(Block(), 42) == Word(0x3afb5079) && W(Block(), 43) == Word(0x898e04e5)
    ensures W(Block(), 44) == Word(0xe2ba3c2b) && W(Block(), 45) == Word(0x000060c0)
    ensures W(Block(), 46) == Word(0x053a37cd) && W(Block(), 47) == Word(0x74458547)
  {
    hide Block, W;
    Schedule1();
    Next(32, 0x000000f0, 0x85898ec1, 0x00000030, 0xc2c4c700);
    Next(33, 0x93afb507, 0x16263806, 0x85898e01, 0x00000000);
    Next(34, 0x5898e048, 0x00000000, 0x00000000, 0x00000030);
    Next(35, 0x8e9a9202, 0x00000180, 0x00000060, 0x85898e01);
    Next(36, 0x00000600, 0x2c4c700c, 0x0b131c03, 0x00000000);
    Next(37, 0xb131c0f0, 0x000000f0, 0x00000030, 0x00000060);
    Next(38, 0x16263bc6, 0x93afb507, 0x85898ec1, 0x0b131c03);
    Next(39, 0x4ebed41e, 0x5898e048, 0x16263806, 0x00000030);
    Next(40, 0x626380a1, 0x8e9a9202, 0x00000000, 0x85898ec1);
    Next(41, 0x16263806, 0x00000600, 0x00000180, 0x16263806);
    Next(42, 0x000018c0, 0xb131c0f0, 0x2c4c700c, 0x00000000);
    Next(43, 0xd2e138c4, 0x16263bc6, 0x000000f0, 0x00000180);
    Next(44, 0x00000f00, 0x4ebed41e, 0x93afb507, 0x2c4c700c);
    Next(45, 0x3afb5079, 0x626380a1, 0x5898e048, 0x000000f0);
    Next(46, 0x898e04e5, 0x16263806, 0x8e9a9202, 0x93afb507);
    Next(47, 0xe2ba3c2b, 0x000018c0, 0x00000600, 0x5898e048);
  }

  lemma Schedule3()
    ensures W(Block(), 48) == Word(0xda9415ed) && W(Block(), 49) == Word(0x26380a16)
    ensures W(Block(), 50) == Word(0x626383a1) && W(Block(), 51) == Word(0x4ebf54de)
    ensures W(Block(), 52) == Word(0x3835b44b) && W(Block(), 53) == Word(0x0000f600)
    ensures W(Block(), 54) == Word(0x1e84c7a3) && W(Block(), 55) == Word(0x98e04d98)
    ensures W(Block(), 56) == Word(0x651d16a0) && W(Block(), 57) == Word(0x62658ca1)
    ensures W(Block(), 58) == Word(0x458544d6) && W(Block(), 59) == Word(0x44584cb7)
    ensures W(Block(), 60) == Word(0x7ba06619) && W(Block(), 61) == Word(0x6380aea2)
    ensures W(Block(), 62) == Word(0x0ae55269) && W(Block(), 63) == Word(0x627b49a1)
  {
    hide Block, W;
    Schedule2();
    Next(48, 0x000060c0, 0xd2e138c4, 0xb131c0f0, 0x8e9a9202);
    Next(49, 0x053a37cd, 0x00000f00, 0x16263bc6, 0x00000600);
    Next(50, 0x74458547, 0x3afb5079, 0x4ebed41e, 0xb131c0f0);
    Next(51, 0xda9415ed, 0x898e04e5, 0x626380a1, 0x16263bc6);
    Next(52, 0x26380a16, 0xe2ba3c2b, 0x16263806, 0x4ebed41e);
    Next(53, 0x626383a1, 0x000060c0, 0x000018c0, 0x626380a1);
    Next(54, 0x4ebf54de, 0x053a37cd, 0xd2e138c4, 0x16263806);
    Next(55, 0x3835b44b, 0x74458547, 0x00000f00, 0x000018c0);
    Next(56, 0x0000f600, 0xda9415ed, 0x3afb5079, 0xd2e138c4);
    Next(57, 0x1e84c7a3, 0x26380a16, 0x898e04e5, 0x00000f00);
    Next(58, 0x98e04d98, 0x626383a1, 0xe2ba3c2b, 0x3afb5079);
    Next(59, 0x651d16a0, 0x4ebf54de, 0x000060c0, 0x898e04e5);
    Next(60, 0x62658ca1, 0x3835b44b, 0x053a37cd, 0xe2ba3c2b);
    Next(61, 0x458544d6, 0x0000f600, 0x74458547, 0x000060c0);
    Next(62, 0x44584cb7, 0x1e84c7a3, 0xda9415ed, 0x053a37cd);
    Next(63, 0x7ba06619, 0x98e04d98, 0x26380a16, 0x74458547);
  }

  lemma Schedule4()
    ensures W(Block(), 64) == Word(0x7cd45c9d) && W(Block(), 65) == Word(0x000f0000)
    ensures W(Block(), 66) == Word(0xfb50753a) && W(Block(), 67) == Word(0xec6765e8)
    ensures W(Block(), 68) == Word(0xba3c2be2) && W(Block(), 69) == Word(0x0060c000)
    ensures W(Block(), 70) == Word(0x3a37cd05) && W(Block(), 71) == Word(0x458546f4)
    ensures W(Block(), 72) == Word(0xb8599dd6) && W(Block(), 73) == Word(0x380a1a26)
    ensures W(Block(), 74) == Word(0x01e02203) && W(Block(), 75) == Word(0xe7cc3456)
    ensures W(Block(), 76) == Word(0xe6e60b69) && W(Block(), 77) == Word(0x00f60a00)
    ensures W(Block(), 78) == Word(0x5795ef4f) && W(Block(), 79) == Word(0x822e0879)
  {
    hide Block, W;
    Schedule3();
    Next(64, 0x6380aea2, 0x651d16a0, 0x626383a1, 0xda9415ed);
    Next(65, 0x0ae55269, 0x62658ca1, 0x4ebf54de, 0x26380a16);
    Next(66, 0x627b49a1, 0x458544d6, 0x3835b44b, 0x626383a1);
    Next(67, 0x7cd45c9d, 0x44584cb7, 0x0000f600, 0x4ebf54de);
    Next(68, 0x000f0000, 0x7ba06619, 0x1e84c7a3, 0x3835b44b);
    Next(69, 0xfb50753a, 0x6380aea2, 0x98e04d98, 0x0000f600);
    Next(70, 0xec6765e8, 0x0ae55269, 0x651d16a0, 0x1e84c7a3);
    Next(71, 0xba3c2be2, 0x627b49a1, 0x62658ca1, 0x98e04d98);
    Next(72, 0x0060c000, 0x7cd45c9d, 0x458544d6, 0x651d16a0);
    Next(73, 0x3a37cd05, 0x000f0000, 0x44584cb7, 0x62658ca1);
    Next(74, 0x458546f4, 0xfb50753a, 0x7ba06619, 0x458544d6);
    Next(75, 0xb8599dd6, 0xec6765e8, 0x6380aea2, 0x44584cb7);
    Next(76, 0x380a1a26, 0xba3c2be2, 0x0ae55269, 0x7ba06619);
    Next(77, 0x01e02203, 0x0060c000, 0x627b49a1, 0x6380aea2);
    Next(78, 0xe7cc3456, 0x3a37cd05, 0x7cd45c9d, 0x0ae55269);
    Next(79, 0xe6e60b69, 0x458546f4, 0x000f0000, 0x627b49a1);
  }

  // ----- the rounds

  /** The registers before round t. */
  ghost predicate At(t: nat, a: bv32, b: bv32, c: bv32, d: bv32, e: bv32) {
    Rounds(Sha1.H0(), Block(), t) == Regs(Word(a), Word(b), Word(c), Word(d), Word(e))
  }

  /** One round, which makes one new word. */
  lemma Turn(t: nat, a: bv32, b: bv32, c: bv32, d: bv32, e: bv32, w: bv32, n: bv32)
    requires At(t, a, b, c, d, e) && W(Block(), t) == Word(w)
    requires Sum5(Word(a).Rol5(), F(t, Word(b), Word(c), Word(d)), Word(e), K(t), Word(w)) == Word(n)
    ensures At(t + 1, n, a, Word(b).Rol30().bits, c, d)
  {
    hide Block, W, Sum5, Word.Rol5, Word.Rol30, F, K, Sha1.H0;
  }

  lemma Start()
    ensures At(0, 0x67452301, 0xefcdab89, 0x98badcfe, 0x10325476, 0xc3d2e1f0)
  {
    hide Block;
  }

  lemma Turns0()
    ensures At(16, 0x20bdd62f, 0x196bee77, 0x644a3da5, 0x1181ed99, 0x18c623f9)
  {
    hide At, Block, W;
    Start();
    Schedule0();
    Turn(0, 0x67452301, 0xefcdab89, 0x98badcfe, 0x10325476, 0xc3d2e1f0, 0x61626380, 0x0116fc33);
    Turn(1, 0x0116fc33, 0x67452301, 0x7bf36ae2, 0x98badcfe, 0x10325476, 0x00000000, 0x8990536d);
    Turn(2, 0x8990536d, 0x0116fc33, 0x59d148c0, 0x7bf36ae2, 0x98badcfe, 0x00000000, 0xa1390f08);
    Turn(3, 0xa1390f08, 0x8990536d, 0xc045bf0c, 0x59d148c0, 0x7bf36ae2, 0x00000000, 0xcdd8e11b);
    Turn(4, 0xcdd8e11b, 0xa1390f08, 0x626414db, 0xc045bf0c, 0x59d148c0, 0x00000000, 0xcfd499de);
    Turn(5, 0xcfd499de, 0xcdd8e11b, 0x284e43c2, 0x626414db, 0xc045bf0c, 0x00000000, 0x3fc7ca40);
    Turn(6, 0x3fc7ca40, 0xcfd499de, 0xf3763846, 0x284e43c2, 0x626414db, 0x00000000, 0x993e30c1);
    Turn(7, 0x993e30c1, 0x3fc7ca40, 0xb3f52677, 0xf3763846, 0x284e43c2, 0x00000000, 0x9e8c07d4);
    Turn(8, 0x9e8c07d4, 0x993e30c1, 0x0ff1f290, 0xb3f52677, 0xf3763846, 0x00000000, 0x4b6ae328);
    Turn(9, 0x4b6ae328, 0x9e8c07d4, 0x664f8c30, 0x0ff1f290, 0xb3f52677, 0x00000000, 0x8351f929);
    Turn(10, 0x8351f929, 0x4b6ae328, 0x27a301f5, 0x664f8c30, 0x0ff1f290, 0x00000000, 0xfbda9e89);
    Turn(11, 0xfbda9e89, 0x8351f929, 0x12dab8ca, 0x27a301f5, 0x664f8c30, 0x00000000, 0x63188fe4);
    Turn(12, 0x63188fe4, 0xfbda9e89, 0x60d47e4a, 0x12dab8ca, 0x27a301f5, 0x00000000, 0x4607b664);
    Turn(13, 0x4607b664, 0x63188fe4, 0x7ef6a7a2, 0x60d47e4a, 0x12dab8ca, 0x00000000, 0x9128f695);
    Turn(14, 0x9128f695, 0x4607b664, 0x18c623f9, 0x7ef6a7a2, 0x60d47e4a, 0x00000000, 0x196bee77);
    Turn(15, 0x196bee77, 0x9128f695, 0x1181ed99, 0x18c623f9, 0x7ef6a7a2, 0x00000018, 0x20bdd62f);
  }

  lemma Turns1()
    ensures At(32, 0x3b845d33, 0x1267b407, 0x717eebd7, 0xa0dc2d4b, 0xd2aa1365)
  {
    hide At, Block, W;
    Turns0();
    Schedule1();
    Turn(16, 0x20bdd62f, 0x196bee77, 0x644a3da5, 0x1181ed99, 0x18c623f9, 0xc2c4c700, 0x4e925823);
    Turn(17, 0x4e925823, 0x20bdd62f, 0xc65afb9d, 0x644a3da5, 0x1181ed99, 0x00000000, 0x82aa6728);
    Turn(18, 0x82aa6728, 0x4e925823, 0xc82f758b, 0xc65afb9d, 0x644a3da5, 0x00000030, 0xdc64901d);
    Turn(19, 0xdc64901d, 0x82aa6728, 0xd3a49608, 0xc82f758b, 0xc65afb9d, 0x85898e01, 0xfd9e1d7d);
    Turn(20, 0xfd9e1d7d, 0xdc64901d, 0x20aa99ca, 0xd3a49608, 0xc82f758b, 0x00000000, 0x1a37b0ca);
    Turn(21, 0x1a37b0ca, 0xfd9e1d7d, 0x77192407, 0x20aa99ca, 0xd3a49608, 0x00000060, 0x33a23bfc);
    Turn(22, 0x33a23bfc, 0x1a37b0ca, 0x7f67875f, 0x77192407, 0x20aa99ca, 0x0b131c03, 0x21283486);
    Turn(23, 0x21283486, 0x33a23bfc, 0x868dec32, 0x7f67875f, 0x77192407, 0x00000030, 0xd541f12d);
    Turn(24, 0xd541f12d, 0x21283486, 0x0ce88eff, 0x868dec32, 0x7f67875f, 0x85898ec1, 0xc7567dc6);
    Turn(25, 0xc7567dc6, 0xd541f12d, 0x884a0d21, 0x0ce88eff, 0x868dec32, 0x16263806, 0x48413ba4);
    Turn(26, 0x48413ba4, 0xc7567dc6, 0x75507c4b, 0x884a0d21, 0x0ce88eff, 0x00000000, 0xbe35fbd5);
    Turn(27, 0xbe35fbd5, 0x48413ba4, 0xb1d59f71, 0x75507c4b, 0x884a0d21, 0x00000180, 0x4aa84d97);
    Turn(28, 0x4aa84d97, 0xbe35fbd5, 0x12104ee9, 0xb1d59f71, 0x75507c4b, 0x2c4c700c, 0x8370b52e);
    Turn(29, 0x8370b52e, 0x4aa84d97, 0x6f8d7ef5, 0x12104ee9, 0xb1d59f71, 0x000000f0, 0xc5fbaf5d);
    Turn(30, 0xc5fbaf5d, 0x8370b52e, 0xd2aa1365, 0x6f8d7ef5, 0x12104ee9, 0x93afb507, 0x1267b407);
    Turn(31, 0x1267b407, 0xc5fbaf5d, 0xa0dc2d4b, 0xd2aa1365, 0x6f8d7ef5, 0x5898e048, 0x3b845d33);
  }

  lemma Turns2()
    ensures At(48, 0xbead02ca, 0xa01b846c, 0x8714787c, 0x503ca382, 0xfb86c6ab)
  {
    hide At, Block, W;
    Turns1();
    Schedule2();
    Turn(32, 0x3b845d33, 0x1267b407, 0x717eebd7, 0xa0dc2d4b, 0xd2aa1365, 0x8e9a9202, 0x046faa0a);
    Turn(33, 0x046faa0a, 0x3b845d33, 0xc499ed01, 0x717eebd7, 0xa0dc2d4b, 0x00000600, 0x2c0ebc11);
    Turn(34, 0x2c0ebc11, 0x046faa0a, 0xcee1174c, 0xc499ed01, 0x717eebd7, 0xb131c0f0, 0x21796ad4);
    Turn(35, 0x21796ad4, 0x2c0ebc11, 0x811bea82, 0xcee1174c, 0xc499ed01, 0x16263bc6, 0xdcbbb0cb);
    Turn(36, 0xdcbbb0cb, 0x21796ad4, 0x4b03af04, 0x811bea82, 0xcee1174c, 0x4ebed41e, 0x0f511fd8);
    Turn(37, 0x0f511fd8, 0xdcbbb0cb, 0x085e5ab5, 0x4b03af04, 0x811bea82, 0x626380a1, 0xdc63973f);
    Turn(38, 0xdc63973f, 0x0f511fd8, 0xf72eec32, 0x085e5ab5, 0x4b03af04, 0x16263806, 0x4c986405);
    Turn(39, 0x4c986405, 0xdc63973f, 0x03d447f6, 0xf72eec32, 0x085e5ab5, 0x000018c0, 0x32de1cba);
    Turn(40, 0x32de1cba, 0x4c986405, 0xf718e5cf, 0x03d447f6, 0xf72eec32, 0xd2e138c4, 0xfc87dedf);
    Turn(41, 0xfc87dedf, 0x32de1cba, 0x53261901, 0xf718e5cf, 0x03d447f6, 0x00000f00, 0x970a0d5c);
    Turn(42, 0x970a0d5c, 0xfc87dedf, 0x8cb7872e, 0x53261901, 0xf718e5cf, 0x3afb5079, 0x7f193dc5);
    Turn(43, 0x7f193dc5, 0x970a0d5c, 0xff21f7b7, 0x8cb7872e, 0x53261901, 0x898e04e5, 0xee1b1aaf);
    Turn(44, 0xee1b1aaf, 0x7f193dc5, 0x25c28357, 0xff21f7b7, 0x8cb7872e, 0xe2ba3c2b, 0x40f28e09);
    Turn(45, 0x40f28e09, 0xee1b1aaf, 0x5fc64f71, 0x25c28357, 0xff21f7b7, 0x000060c0, 0x1c51e1f2);
    Turn(46, 0x1c51e1f2, 0x40f28e09, 0xfb86c6ab, 0x5fc64f71, 0x25c28357, 0x053a37cd, 0xa01b846c);
    Turn(47, 0xa01b846c, 0x1c51e1f2, 0x503ca382, 0xfb86c6ab, 0x5fc64f71, 0x74458547, 0xbead02ca);
  }

  lemma Turns3()
    ensures At(64, 0x6b61c9e1, 0xb66c020b, 0x9523272c, 0xf5d5b051, 0x8fd4b796)
  {
    hide At, Block, W;
    Turns2();
    Schedule3();
    Turn(48, 0xbead02ca, 0xa01b846c, 0x8714787c, 0x503ca382, 0xfb86c6ab, 0xda9415ed, 0xbaf39337);
    Turn(49, 0xbaf39337, 0xbead02ca, 0x2806e11b, 0x8714787c, 0x503ca382, 0x26380a16, 0x120731c5);
    Turn(50, 0x120731c5, 0xbaf39337, 0xafab40b2, 0x2806e11b, 0x8714787c, 0x626383a1, 0x641db2ce);
    Turn(51, 0x641db2ce, 0x120731c5, 0xeebce4cd, 0xafab40b2, 0x2806e11b, 0x4ebf54de, 0x3847ad66);
    Turn(52, 0x3847ad66, 0x641db2ce, 0x4481cc71, 0xeebce4cd, 0xafab40b2, 0x3835b44b, 0xe490436d);
    Turn(53, 0xe490436d, 0x3847ad66, 0x99076cb3, 0x4481cc71, 0xeebce4cd, 0x0000f600, 0x27e9f1d8);
    Turn(54, 0x27e9f1d8, 0xe490436d, 0x8e11eb59, 0x99076cb3, 0x4481cc71, 0x1e84c7a3, 0x7b71f76d);
    Turn(55, 0x7b71f76d, 0x27e9f1d8, 0x792410db, 0x8e11eb59, 0x99076cb3, 0x98e04d98, 0x5e6456af);
    Turn(56, 0x5e6456af, 0x7b71f76d, 0x09fa7c76, 0x792410db, 0x8e11eb59, 0x651d16a0, 0xc846093f);
    Turn(57, 0xc846093f, 0x5e6456af, 0x5edc7ddb, 0x09fa7c76, 0x792410db, 0x62658ca1, 0xd262ff50);
    Turn(58, 0xd262ff50, 0xc846093f, 0xd79915ab, 0x5edc7ddb, 0x09fa7c76, 0x458544d6, 0x09d785fd);
    Turn(59, 0x09d785fd, 0xd262ff50, 0xf211824f, 0xd79915ab, 0x5edc7ddb, 0x44584cb7, 0x3f52de5a);
    Turn(60, 0x3f52de5a, 0x09d785fd, 0x3498bfd4, 0xf211824f, 0xd79915ab, 0x7ba06619, 0xd756c147);
    Turn(61, 0xd756c147, 0x3f52de5a, 0x4275e17f, 0x3498bfd4, 0xf211824f, 0x6380aea2, 0x548c9cb2);
    Turn(62, 0x548c9cb2, 0xd756c147, 0x8fd4b796, 0x4275e17f, 0x3498bfd4, 0x0ae55269, 0xb66c020b);
    Turn(63, 0xb66c020b, 0x548c9cb2, 0xf5d5b051, 0x8fd4b796, 0x4275e17f, 0x627b49a1, 0x6b61c9e1);
  }

  lemma Turns4()
    ensures At(80, 0x42541b35, 0x5738d5e1, 0x21834873, 0x681e6df6, 0xd8fdf6ad)
  {
    hide At, Block, W;
    Turns3();
    Schedule4();
    Turn(64, 0x6b61c9e1, 0xb66c020b, 0x9523272c, 0xf5d5b051, 0x8fd4b796, 0x7cd45c9d, 0x19dfa7ac);
    Turn(65, 0x19dfa7ac, 0x6b61c9e1, 0xed9b0082, 0x9523272c, 0xf5d5b051, 0x000f0000, 0x101655f9);
    Turn(66, 0x101655f9, 0x19dfa7ac, 0x5ad87278, 0xed9b0082, 0x9523272c, 0xfb50753a, 0x0c3df2b4);
    Turn(67, 0x0c3df2b4, 0x101655f9, 0x0677e9eb, 0x5ad87278, 0xed9b0082, 0xec6765e8, 0x78dd4d2b);
    Turn(68, 0x78dd4d2b, 0x0c3df2b4, 0x4405957e, 0x0677e9eb, 0x5ad87278, 0xba3c2be2, 0x497093c0);
    Turn(69, 0x497093c0, 0x78dd4d2b, 0x030f7cad, 0x4405957e, 0x0677e9eb, 0x0060c000, 0x3f2588c2);
    Turn(70, 0x3f2588c2, 0x497093c0, 0xde37534a, 0x030f7cad, 0x4405957e, 0x3a37cd05, 0xc199f8c7);
    Turn(71, 0xc199f8c7, 0x3f2588c2, 0x125c24f0, 0xde37534a, 0x030f7cad, 0x458546f4, 0x39859de7);
    Turn(72, 0x39859de7, 0xc199f8c7, 0x8fc96230, 0x125c24f0, 0xde37534a, 0xb8599dd6, 0xedb42de4);
    Turn(73, 0xedb42de4, 0x39859de7, 0xf0667e31, 0x8fc96230, 0x125c24f0, 0x380a1a26, 0x11793f6f);
    Turn(74, 0x11793f6f, 0xedb42de4, 0xce616779, 0xf0667e31, 0x8fc96230, 0x01e02203, 0x5ee76897);
    Turn(75, 0x5ee76897, 0x11793f6f, 0x3b6d0b79, 0xce616779, 0xf0667e31, 0xe7cc3456, 0x63f7dab7);
    Turn(76, 0x63f7dab7, 0x5ee76897, 0xc45e4fdb, 0x3b6d0b79, 0xce616779, 0xe6e60b69, 0xa079b7d9);
    Turn(77, 0xa079b7d9, 0x63f7dab7, 0xd7b9da25, 0xc45e4fdb, 0x3b6d0b79, 0x00f60a00, 0x860d21cc);
    Turn(78, 0x860d21cc, 0xa079b7d9, 0xd8fdf6ad, 0xd7b9da25, 0xc45e4fdb, 0x5795ef4f, 0x5738d5e1);
    Turn(79, 0x5738d5e1, 0x860d21cc, 0x681e6df6, 0xd8fdf6ad, 0xd7b9da25, 0x822e0879, 0x42541b35);
  }

  // ----- the digest

  lemma CompressAbc()
    ensures Compress(Sha1.H0(), Block()) ==
              Regs(Word(0xa9993e36), Word(0x4706816a), Word(0xba3e2571), Word(0x7850c26c), Word(0x9cd0d89d))
  {
    hide Rounds, Block;
    Turns4();
  }

  lemma FoldOne<H>(f: (H, seq<Byte>) -> H, h: H, block: seq<Byte>)
    requires |block| == 64
    ensures Fold(f, h, block) == f(h, block)
  {
    assert block[..0] == [] && block[0..] == block;
  }

  lemma PaddedAbc()
    ensures Padded(Abc(), Sha1.LengthBytes(3)) == Abc() + [0x80] + Zeros(52) + [0, 0, 0, 0, 0, 0, 0, 24]
    ensures |Padded(Abc(), Sha1.LengthBytes(3))| == 64
  {
    hide Sha1.LengthBytes;
    LengthOfAbc();
  }

  /** The registers at the end. */
  lemma FinalOfAbc()
    ensures Sha1.FinalRegs(Abc()) ==
              Regs(Word(0xa9993e36), Word(0x4706816a), Word(0xba3e2571), Word(0x7850c26c), Word(0x9cd0d89d))
  {
    hide Compress, Sha1.WordsOf, Sha1.LengthBytes, Padded, Fold, Sha1.H0;
    PaddedAbc();
    FoldOne(Sha1.CompressBytes, Sha1.H0(), Padded(Abc(), Sha1.LengthBytes(3)));
    CompressAbc();
  }

  lemma LengthOfAbc()
    ensures Sha1.LengthBytes(3) == [0, 0, 0, 0, 0, 0, 0, 24]
  {
  }

  /** The digest of "abc". */
  lemma HashOfAbc()
    ensures Sha1.Hash(Abc()) ==
              [0xa9, 0x99, 0x3e, 0x36,
               0x47, 0x06, 0x81, 0x6a,
               0xba, 0x3e, 0x25, 0x71,
               0x78, 0x50, 0xc2, 0x6c,
               0x9c, 0xd0, 0xd8, 0x9d]
  {
    hide Sha1.FinalRegs;
    FinalOfAbc();
  }
}

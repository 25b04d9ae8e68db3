/** How far the CRC tells the end of a section: the walk of a single bit through the register never meets the
    registers that stuffing leaves behind. A computation, thirty-two bits at a time. */
module CrcOrbit {
  import opened Bytes
  import opened Crc32
  import opened CrcDivision
  import opened CrcLinear

  // --- thirty-two bits back -----------------------------------------------------------------

  function Pick(c: bv32, m: bv32, v: bv32): bv32 { if c & m != 0 then v else 0 }

  /** Four bits `m` of a register, each with what it contributes. */
  function Four(c: bv32, m0: bv32, v0: bv32, m1: bv32, v1: bv32, m2: bv32, v2: bv32, m3: bv32, v3: bv32): bv32 {
    Plus(Plus(Pick(c, m0, v0), Pick(c, m1, v1)), Plus(Pick(c, m2, v2), Pick(c, m3, v3)))
  }

  function Eight(a: bv32, b: bv32, c: bv32, d: bv32, e: bv32, f: bv32, g: bv32, h: bv32): bv32 {
    Plus(Plus(Plus(a, b), Plus(c, d)), Plus(Plus(e, f), Plus(g, h)))
  }

  /** The register thirty-two bits earlier. The loop is linear, so it is put together from the registers that
      single bits come from. */
  function BackA(c: bv32): bv32 {
    (Pick(c, 0x0000_0001, 0xCBF1_ACDA) ^ Pick(c, 0x0000_0002, 0x9322_4403))
    ^ (Pick(c, 0x0000_0004, 0x2285_95B1) ^ Pick(c, 0x0000_0008, 0x450B_2B62))
  }

  function BackB(c: bv32): bv32 {
    (Pick(c, 0x0000_0010, 0x8A16_56C4) ^ Pick(c, 0x0000_0020, 0x10ED_B03F))
    ^ (Pick(c, 0x0000_0040, 0x21DB_607E) ^ Pick(c, 0x0000_0080, 0x43B6_C0FC))
  }

  function BackC(c: bv32): bv32 {
    (Pick(c, 0x0000_0100, 0x876D_81F8) ^ Pick(c, 0x0000_0200, 0x0A1A_1E47))
    ^ (Pick(c, 0x0000_0400, 0x1434_3C8E) ^ Pick(c, 0x0000_0800, 0x2868_791C))
  }

  function BackD(c: bv32): bv32 {
    (Pick(c, 0x0000_1000, 0x50D0_F238) ^ Pick(c, 0x0000_2000, 0xA1A1_E470))
    ^ (Pick(c, 0x0000_4000, 0x4782_D557) ^ Pick(c, 0x0000_8000, 0x8F05_AAAE))
  }

  function BackE(c: bv32): bv32 {
    (Pick(c, 0x0001_0000, 0x1ACA_48EB) ^ Pick(c, 0x0002_0000, 0x3594_91D6))
    ^ (Pick(c, 0x0004_0000, 0x6B29_23AC) ^ Pick(c, 0x0008_0000, 0xD652_4758))
  }

  function BackF(c: bv32): bv32 {
    (Pick(c, 0x0010_0000, 0xA865_9307) ^ Pick(c, 0x0020_0000, 0x540A_3BB9))
    ^ (Pick(c, 0x0040_0000, 0xA814_7772) ^ Pick(c, 0x0080_0000, 0x54E9_F353))
  }

  function BackG(c: bv32): bv32 {
    (Pick(c, 0x0100_0000, 0xA9D3_E6A6) ^ Pick(c, 0x0200_0000, 0x5766_D0FB))
    ^ (Pick(c, 0x0400_0000, 0xAECD_A1F6) ^ Pick(c, 0x0800_0000, 0x595A_5E5B))
  }

  function BackH(c: bv32): bv32 {
    (Pick(c, 0x1000_0000, 0xB2B4_BCB6) ^ Pick(c, 0x2000_0000, 0x61A8_64DB))
    ^ (Pick(c, 0x4000_0000, 0xC350_C9B6) ^ Pick(c, 0x8000_0000, 0x8260_8EDB))
  }

  function BackLow(c: bv32): bv32 { (BackA(c) ^ BackB(c)) ^ (BackC(c) ^ BackD(c)) }
  function BackHigh(c: bv32): bv32 { (BackE(c) ^ BackF(c)) ^ (BackG(c) ^ BackH(c)) }
  function Back(c: bv32): bv32 { BackLow(c) ^ BackHigh(c) }

  lemma IsA(c: bv32)
    ensures BackA(c) == Four(c, 0x0000_0001, 0xCBF1_ACDA, 0x0000_0002, 0x9322_4403,
                             0x0000_0004, 0x2285_95B1, 0x0000_0008, 0x450B_2B62)
  {
    hide Pick;
  }

  lemma IsB(c: bv32)
    ensures BackB(c) == Four(c, 0x0000_0010, 0x8A16_56C4, 0x0000_0020, 0x10ED_B03F,
                             0x0000_0040, 0x21DB_607E, 0x0000_0080, 0x43B6_C0FC)
  {
    hide Pick;
  }

  lemma IsC(c: bv32)
    ensures BackC(c) == Four(c, 0x0000_0100, 0x876D_81F8, 0x0000_0200, 0x0A1A_1E47,
                             0x0000_0400, 0x1434_3C8E, 0x0000_0800, 0x2868_791C)
  {
    hide Pick;
  }

  lemma IsD(c: bv32)
    ensures BackD(c) == Four(c, 0x0000_1000, 0x50D0_F238, 0x0000_2000, 0xA1A1_E470,
                             0x0000_4000, 0x4782_D557, 0x0000_8000, 0x8F05_AAAE)
  {
    hide Pick;
  }

  lemma IsE(c: bv32)
    ensures BackE(c) == Four(c, 0x0001_0000, 0x1ACA_48EB, 0x0002_0000, 0x3594_91D6,
                             0x0004_0000, 0x6B29_23AC, 0x0008_0000, 0xD652_4758)
  {
    hide Pick;
  }

  lemma IsF(c: bv32)
    ensures BackF(c) == Four(c, 0x0010_0000, 0xA865_9307, 0x0020_0000, 0x540A_3BB9,
                             0x0040_0000, 0xA814_7772, 0x0080_0000, 0x54E9_F353)
  {
    hide Pick;
  }

  lemma IsG(c: bv32)
    ensures BackG(c) == Four(c, 0x0100_0000, 0xA9D3_E6A6, 0x0200_0000, 0x5766_D0FB,
                             0x0400_0000, 0xAECD_A1F6, 0x0800_0000, 0x595A_5E5B)
  {
    hide Pick;
  }

  lemma IsH(c: bv32)
    ensures BackH(c) == Four(c, 0x1000_0000, 0xB2B4_BCB6, 0x2000_0000, 0x61A8_64DB,
                             0x4000_0000, 0xC350_C9B6, 0x8000_0000, 0x8260_8EDB)
  {
    hide Pick;
  }

  lemma BackIs(c: bv32)
    ensures Back(c) == Eight(BackA(c), BackB(c), BackC(c), BackD(c), BackE(c), BackF(c), BackG(c), BackH(c))
  {
    LowIs(c);
    HighIs(c);
    WholeIs(c);
    EightIs(BackA(c), BackB(c), BackC(c), BackD(c), BackE(c), BackF(c), BackG(c), BackH(c));
    hide *;
  }

  lemma LowIs(c: bv32)
    ensures BackLow(c) == Plus(Plus(BackA(c), BackB(c)), Plus(BackC(c), BackD(c)))
  {
    hide BackA, BackB, BackC, BackD;
  }

  lemma HighIs(c: bv32)
    ensures BackHigh(c) == Plus(Plus(BackE(c), BackF(c)), Plus(BackG(c), BackH(c)))
  {
    hide BackE, BackF, BackG, BackH;
  }

  lemma WholeIs(c: bv32)
    ensures Back(c) == Plus(BackLow(c), BackHigh(c))
  {
    hide BackLow, BackHigh;
  }

  lemma EightIs(a: bv32, b: bv32, c: bv32, d: bv32, e: bv32, f: bv32, g: bv32, h: bv32)
    ensures Eight(a, b, c, d, e, f, g, h) == Plus(Plus(Plus(a, b), Plus(c, d)), Plus(Plus(e, f), Plus(g, h)))
  {
    hide Plus;
  }

  lemma {:induction false} BitsZeroIs(n: nat)
    ensures Bits(0, n) == 0
  {
    hide Bits;
    BitsZero(0, n);
  }

  lemma {:induction false} PickBits(c: bv32, m: bv32, v: bv32)
    ensures Bits(Pick(c, m, v), 32) == Pick(c, m, Bits(v, 32))
  {
    BitsZeroIs(32);
    hide Bits;
  }

  lemma {:induction false} FourBits(c: bv32, m0: bv32, v0: bv32, m1: bv32, v1: bv32,
                                    m2: bv32, v2: bv32, m3: bv32, v3: bv32)
    ensures Bits(Four(c, m0, v0, m1, v1, m2, v2, m3, v3), 32)
         == Four(c, m0, Bits(v0, 32), m1, Bits(v1, 32), m2, Bits(v2, 32), m3, Bits(v3, 32))
  {
    hide Bits, Pick, Plus;
    PickBits(c, m0, v0); PickBits(c, m1, v1); PickBits(c, m2, v2); PickBits(c, m3, v3);
    BitsLinear(Pick(c, m0, v0), Pick(c, m1, v1), 32);
    BitsLinear(Pick(c, m2, v2), Pick(c, m3, v3), 32);
    BitsLinear(Plus(Pick(c, m0, v0), Pick(c, m1, v1)), Plus(Pick(c, m2, v2), Pick(c, m3, v3)), 32);
  }

  lemma {:induction false} EightBitsOf(a: bv32, b: bv32, c: bv32, d: bv32, e: bv32, f: bv32, g: bv32, h: bv32)
    ensures Bits(Eight(a, b, c, d, e, f, g, h), 32)
         == Eight(Bits(a, 32), Bits(b, 32), Bits(c, 32), Bits(d, 32),
                  Bits(e, 32), Bits(f, 32), Bits(g, 32), Bits(h, 32))
  {
    hide Bits, Plus;
    BitsLinear(a, b, 32); BitsLinear(c, d, 32); BitsLinear(e, f, 32); BitsLinear(g, h, 32);
    BitsLinear(Plus(a, b), Plus(c, d), 32);
    BitsLinear(Plus(e, f), Plus(g, h), 32);
    BitsLinear(Plus(Plus(a, b), Plus(c, d)), Plus(Plus(e, f), Plus(g, h)), 32);
  }

  lemma AllOwn(c: bv32)
    ensures Eight(c & 0xF, c & 0xF0, c & 0xF00, c & 0xF000,
                  c & 0xF_0000, c & 0xF0_0000, c & 0xF00_0000, c & 0xF000_0000) == c
  {
  }

  /** One bit from `v` to `w`. */
  lemma Walk(v: bv32, w: bv32, n: nat)
    requires Crc32.Bit(v) == w
    ensures Bits(v, n + 1) == Bits(w, n)
  {
    hide Crc32.Bit, Bits;
    BitsAdd(v, 1, n);
    UnfoldBits(v, 1);
    BitsNone(v);
  }

  /** Bit by bit, the registers that single bits come from lead to the lowest one, */
  lemma BeforeOne()
    ensures Bits(0xCBF1_ACDA, 32) == 1 && Bits(0x9322_4403, 31) == 1
    ensures Bits(0x2285_95B1, 30) == 1 && Bits(0x450B_2B62, 29) == 1
    ensures Bits(0x8A16_56C4, 28) == 1 && Bits(0x10ED_B03F, 27) == 1
    ensures Bits(0x21DB_607E, 26) == 1 && Bits(0x43B6_C0FC, 25) == 1
    ensures Bits(0x876D_81F8, 24) == 1 && Bits(0x0A1A_1E47, 23) == 1
    ensures Bits(0x1434_3C8E, 22) == 1 && Bits(0x2868_791C, 21) == 1
    ensures Bits(0x50D0_F238, 20) == 1 && Bits(0xA1A1_E470, 19) == 1
    ensures Bits(0x4782_D557, 18) == 1 && Bits(0x8F05_AAAE, 17) == 1
    ensures Bits(0x1ACA_48EB, 16) == 1 && Bits(0x3594_91D6, 15) == 1
    ensures Bits(0x6B29_23AC, 14) == 1 && Bits(0xD652_4758, 13) == 1
    ensures Bits(0xA865_9307, 12) == 1 && Bits(0x540A_3BB9, 11) == 1
    ensures Bits(0xA814_7772, 10) == 1 && Bits(0x54E9_F353, 9) == 1
    ensures Bits(0xA9D3_E6A6, 8) == 1 && Bits(0x5766_D0FB, 7) == 1
    ensures Bits(0xAECD_A1F6, 6) == 1 && Bits(0x595A_5E5B, 5) == 1
    ensures Bits(0xB2B4_BCB6, 4) == 1 && Bits(0x61A8_64DB, 3) == 1
    ensures Bits(0xC350_C9B6, 2) == 1 && Bits(0x8260_8EDB, 1) == 1
  {
    hide Bits;
    BitsNone(1);
    Walk(0x8260_8EDB, 0x0000_0001, 0);    Walk(0xC350_C9B6, 0x8260_8EDB, 1);
    Walk(0x61A8_64DB, 0xC350_C9B6, 2);    Walk(0xB2B4_BCB6, 0x61A8_64DB, 3);
    Walk(0x595A_5E5B, 0xB2B4_BCB6, 4);    Walk(0xAECD_A1F6, 0x595A_5E5B, 5);
    Walk(0x5766_D0FB, 0xAECD_A1F6, 6);    Walk(0xA9D3_E6A6, 0x5766_D0FB, 7);
    Walk(0x54E9_F353, 0xA9D3_E6A6, 8);    Walk(0xA814_7772, 0x54E9_F353, 9);
    Walk(0x540A_3BB9, 0xA814_7772, 10);    Walk(0xA865_9307, 0x540A_3BB9, 11);
    Walk(0xD652_4758, 0xA865_9307, 12);    Walk(0x6B29_23AC, 0xD652_4758, 13);
    Walk(0x3594_91D6, 0x6B29_23AC, 14);    Walk(0x1ACA_48EB, 0x3594_91D6, 15);
    Walk(0x8F05_AAAE, 0x1ACA_48EB, 16);    Walk(0x4782_D557, 0x8F05_AAAE, 17);
    Walk(0xA1A1_E470, 0x4782_D557, 18);    Walk(0x50D0_F238, 0xA1A1_E470, 19);
    Walk(0x2868_791C, 0x50D0_F238, 20);    Walk(0x1434_3C8E, 0x2868_791C, 21);
    Walk(0x0A1A_1E47, 0x1434_3C8E, 22);    Walk(0x876D_81F8, 0x0A1A_1E47, 23);
    Walk(0x43B6_C0FC, 0x876D_81F8, 24);    Walk(0x21DB_607E, 0x43B6_C0FC, 25);
    Walk(0x10ED_B03F, 0x21DB_607E, 26);    Walk(0x8A16_56C4, 0x10ED_B03F, 27);
    Walk(0x450B_2B62, 0x8A16_56C4, 28);    Walk(0x2285_95B1, 0x450B_2B62, 29);
    Walk(0x9322_4403, 0x2285_95B1, 30);    Walk(0xCBF1_ACDA, 0x9322_4403, 31);
  }

  /** and from there up. */
  lemma Singles()
    ensures Bits(1, 0) == 0x0000_0001 && Bits(1, 1) == 0x0000_0002
    ensures Bits(1, 2) == 0x0000_0004 && Bits(1, 3) == 0x0000_0008
    ensures Bits(1, 4) == 0x0000_0010 && Bits(1, 5) == 0x0000_0020
    ensures Bits(1, 6) == 0x0000_0040 && Bits(1, 7) == 0x0000_0080
    ensures Bits(1, 8) == 0x0000_0100 && Bits(1, 9) == 0x0000_0200
    ensures Bits(1, 10) == 0x0000_0400 && Bits(1, 11) == 0x0000_0800
    ensures Bits(1, 12) == 0x0000_1000 && Bits(1, 13) == 0x0000_2000
    ensures Bits(1, 14) == 0x0000_4000 && Bits(1, 15) == 0x0000_8000
    ensures Bits(1, 16) == 0x0001_0000 && Bits(1, 17) == 0x0002_0000
    ensures Bits(1, 18) == 0x0004_0000 && Bits(1, 19) == 0x0008_0000
    ensures Bits(1, 20) == 0x0010_0000 && Bits(1, 21) == 0x0020_0000
    ensures Bits(1, 22) == 0x0040_0000 && Bits(1, 23) == 0x0080_0000
    ensures Bits(1, 24) == 0x0100_0000 && Bits(1, 25) == 0x0200_0000
    ensures Bits(1, 26) == 0x0400_0000 && Bits(1, 27) == 0x0800_0000
    ensures Bits(1, 28) == 0x1000_0000 && Bits(1, 29) == 0x2000_0000
    ensures Bits(1, 30) == 0x4000_0000 && Bits(1, 31) == 0x8000_0000
  {
    hide Bits;
    BitsNone(1);
    UnfoldBits(1, 1);    UnfoldBits(1, 2);    UnfoldBits(1, 3);    UnfoldBits(1, 4);
    UnfoldBits(1, 5);    UnfoldBits(1, 6);    UnfoldBits(1, 7);    UnfoldBits(1, 8);
    UnfoldBits(1, 9);    UnfoldBits(1, 10);    UnfoldBits(1, 11);    UnfoldBits(1, 12);
    UnfoldBits(1, 13);    UnfoldBits(1, 14);    UnfoldBits(1, 15);    UnfoldBits(1, 16);
    UnfoldBits(1, 17);    UnfoldBits(1, 18);    UnfoldBits(1, 19);    UnfoldBits(1, 20);
    UnfoldBits(1, 21);    UnfoldBits(1, 22);    UnfoldBits(1, 23);    UnfoldBits(1, 24);
    UnfoldBits(1, 25);    UnfoldBits(1, 26);    UnfoldBits(1, 27);    UnfoldBits(1, 28);
    UnfoldBits(1, 29);    UnfoldBits(1, 30);    UnfoldBits(1, 31);
  }

  lemma BeforeBits()
    ensures Bits(0xCBF1_ACDA, 32) == 0x0000_0001 && Bits(0x9322_4403, 32) == 0x0000_0002
    ensures Bits(0x2285_95B1, 32) == 0x0000_0004 && Bits(0x450B_2B62, 32) == 0x0000_0008
    ensures Bits(0x8A16_56C4, 32) == 0x0000_0010 && Bits(0x10ED_B03F, 32) == 0x0000_0020
    ensures Bits(0x21DB_607E, 32) == 0x0000_0040 && Bits(0x43B6_C0FC, 32) == 0x0000_0080
    ensures Bits(0x876D_81F8, 32) == 0x0000_0100 && Bits(0x0A1A_1E47, 32) == 0x0000_0200
    ensures Bits(0x1434_3C8E, 32) == 0x0000_0400 && Bits(0x2868_791C, 32) == 0x0000_0800
    ensures Bits(0x50D0_F238, 32) == 0x0000_1000 && Bits(0xA1A1_E470, 32) == 0x0000_2000
    ensures Bits(0x4782_D557, 32) == 0x0000_4000 && Bits(0x8F05_AAAE, 32) == 0x0000_8000
    ensures Bits(0x1ACA_48EB, 32) == 0x0001_0000 && Bits(0x3594_91D6, 32) == 0x0002_0000
    ensures Bits(0x6B29_23AC, 32) == 0x0004_0000 && Bits(0xD652_4758, 32) == 0x0008_0000
    ensures Bits(0xA865_9307, 32) == 0x0010_0000 && Bits(0x540A_3BB9, 32) == 0x0020_0000
    ensures Bits(0xA814_7772, 32) == 0x0040_0000 && Bits(0x54E9_F353, 32) == 0x0080_0000
    ensures Bits(0xA9D3_E6A6, 32) == 0x0100_0000 && Bits(0x5766_D0FB, 32) == 0x0200_0000
    ensures Bits(0xAECD_A1F6, 32) == 0x0400_0000 && Bits(0x595A_5E5B, 32) == 0x0800_0000
    ensures Bits(0xB2B4_BCB6, 32) == 0x1000_0000 && Bits(0x61A8_64DB, 32) == 0x2000_0000
    ensures Bits(0xC350_C9B6, 32) == 0x4000_0000 && Bits(0x8260_8EDB, 32) == 0x8000_0000
  {
    hide Bits;
    BeforeOne();
    Singles();
    BitsAdd(0xCBF1_ACDA, 32, 0);    BitsAdd(0x9322_4403, 31, 1);    BitsAdd(0x2285_95B1, 30, 2);
    BitsAdd(0x450B_2B62, 29, 3);    BitsAdd(0x8A16_56C4, 28, 4);    BitsAdd(0x10ED_B03F, 27, 5);
    BitsAdd(0x21DB_607E, 26, 6);    BitsAdd(0x43B6_C0FC, 25, 7);    BitsAdd(0x876D_81F8, 24, 8);
    BitsAdd(0x0A1A_1E47, 23, 9);    BitsAdd(0x1434_3C8E, 22, 10);    BitsAdd(0x2868_791C, 21, 11);
    BitsAdd(0x50D0_F238, 20, 12);    BitsAdd(0xA1A1_E470, 19, 13);    BitsAdd(0x4782_D557, 18, 14);
    BitsAdd(0x8F05_AAAE, 17, 15);    BitsAdd(0x1ACA_48EB, 16, 16);    BitsAdd(0x3594_91D6, 15, 17);
    BitsAdd(0x6B29_23AC, 14, 18);    BitsAdd(0xD652_4758, 13, 19);    BitsAdd(0xA865_9307, 12, 20);
    BitsAdd(0x540A_3BB9, 11, 21);    BitsAdd(0xA814_7772, 10, 22);    BitsAdd(0x54E9_F353, 9, 23);
    BitsAdd(0xA9D3_E6A6, 8, 24);    BitsAdd(0x5766_D0FB, 7, 25);    BitsAdd(0xAECD_A1F6, 6, 26);
    BitsAdd(0x595A_5E5B, 5, 27);    BitsAdd(0xB2B4_BCB6, 4, 28);    BitsAdd(0x61A8_64DB, 3, 29);
    BitsAdd(0xC350_C9B6, 2, 30);    BitsAdd(0x8260_8EDB, 1, 31);
  }

  lemma Own0(c: bv32)
    ensures Four(c, 0x0000_0001, 0x0000_0001, 0x0000_0002, 0x0000_0002,
                    0x0000_0004, 0x0000_0004, 0x0000_0008, 0x0000_0008) == c & 0xF
  {
  }

  lemma Own1(c: bv32)
    ensures Four(c, 0x0000_0010, 0x0000_0010, 0x0000_0020, 0x0000_0020,
                    0x0000_0040, 0x0000_0040, 0x0000_0080, 0x0000_0080) == c & 0xF0
  {
  }

  lemma Own2(c: bv32)
    ensures Four(c, 0x0000_0100, 0x0000_0100, 0x0000_0200, 0x0000_0200,
                    0x0000_0400, 0x0000_0400, 0x0000_0800, 0x0000_0800) == c & 0xF00
  {
  }

  lemma Own3(c: bv32)
    ensures Four(c, 0x0000_1000, 0x0000_1000, 0x0000_2000, 0x0000_2000,
                    0x0000_4000, 0x0000_4000, 0x0000_8000, 0x0000_8000) == c & 0xF000
  {
  }

  lemma Own4(c: bv32)
    ensures Four(c, 0x0001_0000, 0x0001_0000, 0x0002_0000, 0x0002_0000,
                    0x0004_0000, 0x0004_0000, 0x0008_0000, 0x0008_0000) == c & 0xF_0000
  {
  }

  lemma Own5(c: bv32)
    ensures Four(c, 0x0010_0000, 0x0010_0000, 0x0020_0000, 0x0020_0000,
                    0x0040_0000, 0x0040_0000, 0x0080_0000, 0x0080_0000) == c & 0xF0_0000
  {
  }

  lemma Own6(c: bv32)
    ensures Four(c, 0x0100_0000, 0x0100_0000, 0x0200_0000, 0x0200_0000,
                    0x0400_0000, 0x0400_0000, 0x0800_0000, 0x0800_0000) == c & 0xF00_0000
  {
  }

  lemma Own7(c: bv32)
    ensures Four(c, 0x1000_0000, 0x1000_0000, 0x2000_0000, 0x2000_0000,
                    0x4000_0000, 0x4000_0000, 0x8000_0000, 0x8000_0000) == c & 0xF000_0000
  {
  }

  /** The step back is one. */
  lemma BackIsBack(c: bv32)
    ensures Bits(Back(c), 32) == c
  {
    hide *;
    BeforeBits();
    BackIs(c);
    IsA(c); IsB(c); IsC(c); IsD(c); IsE(c); IsF(c); IsG(c); IsH(c);
    FourBits(c, 0x0000_0001, 0xCBF1_ACDA, 0x0000_0002, 0x9322_4403,
             0x0000_0004, 0x2285_95B1, 0x0000_0008, 0x450B_2B62);
    FourBits(c, 0x0000_0010, 0x8A16_56C4, 0x0000_0020, 0x10ED_B03F,
             0x0000_0040, 0x21DB_607E, 0x0000_0080, 0x43B6_C0FC);
    FourBits(c, 0x0000_0100, 0x876D_81F8, 0x0000_0200, 0x0A1A_1E47,
             0x0000_0400, 0x1434_3C8E, 0x0000_0800, 0x2868_791C);
    FourBits(c, 0x0000_1000, 0x50D0_F238, 0x0000_2000, 0xA1A1_E470,
             0x0000_4000, 0x4782_D557, 0x0000_8000, 0x8F05_AAAE);
    FourBits(c, 0x0001_0000, 0x1ACA_48EB, 0x0002_0000, 0x3594_91D6,
             0x0004_0000, 0x6B29_23AC, 0x0008_0000, 0xD652_4758);
    FourBits(c, 0x0010_0000, 0xA865_9307, 0x0020_0000, 0x540A_3BB9,
             0x0040_0000, 0xA814_7772, 0x0080_0000, 0x54E9_F353);
    FourBits(c, 0x0100_0000, 0xA9D3_E6A6, 0x0200_0000, 0x5766_D0FB,
             0x0400_0000, 0xAECD_A1F6, 0x0800_0000, 0x595A_5E5B);
    FourBits(c, 0x1000_0000, 0xB2B4_BCB6, 0x2000_0000, 0x61A8_64DB,
             0x4000_0000, 0xC350_C9B6, 0x8000_0000, 0x8260_8EDB);
    Own0(c); Own1(c); Own2(c); Own3(c); Own4(c); Own5(c); Own6(c); Own7(c);
    EightBitsOf(BackA(c), BackB(c), BackC(c), BackD(c), BackE(c), BackF(c), BackG(c), BackH(c));
    AllOwn(c);
  }

  /** `n` steps back. */
  function Backs(c: bv32, n: nat): bv32
    decreases n
  {
    if n == 0 then c else Backs(Back(c), n - 1)
  }

  lemma {:induction false} BacksUp(c: bv32, n: nat)
    ensures Bits(Backs(c, n), 32 * n) == c
    decreases n
  {
    hide Bits, Back;
    if n == 0 {
      BitsNone(c);
    } else {
      BacksUp(Back(c), n - 1);
      BackIsBack(c);
      BitsAdd(Backs(c, n), 32 * (n - 1), 32);
    }
  }

  lemma {:induction false} CameFrom(u: bv32, n: nat)
    ensures u == Backs(Bits(u, 32 * n), n)
  {
    hide *;
    BacksUp(Bits(u, 32 * n), n);
    BitsInjective(u, Backs(Bits(u, 32 * n), n), 32 * n);
  }

  lemma {:induction false} BacksStep(c: bv32, n: nat)
    ensures Backs(c, 0) == c && Backs(c, n + 1) == Backs(Back(c), n)
  {
    hide Back;
  }

  // --- no single bit on the way -------------------------------------------------------------

  /** More than one bit is set. */
  predicate Mixed(c: bv32) { c & (c - 1) != 0 }

  predicate Mixed4(c: bv32) { Mixed(c) && Mixed(Back(c)) && Mixed(Back(Back(c))) && Mixed(Back(Back(Back(c)))) }
  function Back4(c: bv32): bv32 { Back(Back(Back(Back(c)))) }

  predicate Mixed12(c: bv32) { Mixed4(c) && Mixed4(Back4(c)) && Mixed4(Back4(Back4(c))) }
  function Back12(c: bv32): bv32 { Back4(Back4(Back4(c))) }

  lemma BackFew(c: bv32, n: nat)
    requires n >= 4
    ensures Backs(c, n) == Backs(Back4(c), n - 4) && Backs(c, 0) == c
    ensures Backs(c, 1) == Back(c) && Backs(c, 2) == Back(Back(c)) && Backs(c, 3) == Back(Back(Back(c)))
  {
    hide Back, Backs;
    var c1, c2, c3 := Back(c), Back(Back(c)), Back(Back(Back(c)));
    BacksStep(c, n - 1); BacksStep(c1, n - 2); BacksStep(c2, n - 3); BacksStep(c3, n - 4);
    BacksStep(c, 0); BacksStep(c1, 0); BacksStep(c2, 0); BacksStep(c3, 0);
    BacksStep(c, 1); BacksStep(c, 2); BacksStep(c1, 1);
  }

  lemma TwelveBack(c: bv32, n: nat)
    requires Mixed12(c)
    ensures n < 12 ==> Mixed(Backs(c, n))
    ensures n >= 12 ==> Backs(c, n) == Backs(Back12(c), n - 12)
  {
    hide Back, Backs, Mixed;
    var d := Back4(c);
    var e := Back4(d);
    BackFew(c, if n < 4 then 4 else n);
    BackFew(d, if n < 8 then 4 else n - 4);
    BackFew(e, if n < 12 then 4 else n - 8);
  }

  lemma {:induction false} AllMixed(c0: bv32, c1: bv32, c2: bv32, c3: bv32, n: nat)
    requires Mixed12(c0) && Mixed12(c1) && Mixed12(c2) && Mixed12(c3) && n < 48
    requires Back12(c0) == c1 && Back12(c1) == c2 && Back12(c2) == c3
    ensures Mixed(Backs(c0, n))
  {
    hide Mixed12, Back12, Backs, Mixed;
    TwelveBack(c0, n);
    if n >= 12 { TwelveBack(c1, n - 12); }
    if n >= 24 { TwelveBack(c2, n - 24); }
    if n >= 36 { TwelveBack(c3, n - 36); }
  }

  lemma Twelve0a()
    ensures Mixed12(0xB1F7_40B4) && Back12(0xB1F7_40B4) == 0x8699_538E
  {
    assert Mixed4(0xB1F7_40B4) && Back4(0xB1F7_40B4) == 0x66A1_0FD8;
    assert Mixed4(0x66A1_0FD8) && Back4(0x66A1_0FD8) == 0x20C0_8439;
    assert Mixed4(0x20C0_8439) && Back4(0x20C0_8439) == 0x8699_538E;
    hide Mixed4, Back4;
  }

  lemma Twelve0b()
    ensures Mixed12(0x8699_538E) && Back12(0x8699_538E) == 0xB432_27CB
  {
    assert Mixed4(0x8699_538E) && Back4(0x8699_538E) == 0xE706_22D9;
    assert Mixed4(0xE706_22D9) && Back4(0xE706_22D9) == 0xA35E_CAC9;
    assert Mixed4(0xA35E_CAC9) && Back4(0xA35E_CAC9) == 0xB432_27CB;
    hide Mixed4, Back4;
  }

  lemma Twelve0c()
    ensures Mixed12(0xB432_27CB) && Back12(0xB432_27CB) == 0x1F19_7A1A
  {
    assert Mixed4(0xB432_27CB) && Back4(0xB432_27CB) == 0xA998_39DA;
    assert Mixed4(0xA998_39DA) && Back4(0xA998_39DA) == 0x0B18_BF51;
    assert Mixed4(0x0B18_BF51) && Back4(0x0B18_BF51) == 0x1F19_7A1A;
    hide Mixed4, Back4;
  }

  lemma Twelve0d()
    ensures Mixed12(0x1F19_7A1A) && Back12(0x1F19_7A1A) == 0xF45C_CB3A
  {
    assert Mixed4(0x1F19_7A1A) && Back4(0x1F19_7A1A) == 0x1457_AF6F;
    assert Mixed4(0x1457_AF6F) && Back4(0x1457_AF6F) == 0x75F2_2A9E;
    assert Mixed4(0x75F2_2A9E) && Back4(0x75F2_2A9E) == 0xF45C_CB3A;
    hide Mixed4, Back4;
  }

  lemma Twelve1a()
    ensures Mixed12(0xFF48_647D) && Back12(0xFF48_647D) == 0x6C40_70D2
  {
    assert Mixed4(0xFF48_647D) && Back4(0xFF48_647D) == 0x718D_5CFD;
    assert Mixed4(0x718D_5CFD) && Back4(0x718D_5CFD) == 0x7867_0BD9;
    assert Mixed4(0x7867_0BD9) && Back4(0x7867_0BD9) == 0x6C40_70D2;
    hide Mixed4, Back4;
  }

  lemma Twelve1b()
    ensures Mixed12(0x6C40_70D2) && Back12(0x6C40_70D2) == 0x282F_1769
  {
    assert Mixed4(0x6C40_70D2) && Back4(0x6C40_70D2) == 0x3ACA_8DA5;
    assert Mixed4(0x3ACA_8DA5) && Back4(0x3ACA_8DA5) == 0x01F8_731E;
    assert Mixed4(0x01F8_731E) && Back4(0x01F8_731E) == 0x282F_1769;
    hide Mixed4, Back4;
  }

  lemma Twelve1c()
    ensures Mixed12(0x282F_1769) && Back12(0x282F_1769) == 0x723D_06D7
  {
    assert Mixed4(0x282F_1769) && Back4(0x282F_1769) == 0xE247_45DB;
    assert Mixed4(0xE247_45DB) && Back4(0xE247_45DB) == 0x38EC_2530;
    assert Mixed4(0x38EC_2530) && Back4(0x38EC_2530) == 0x723D_06D7;
    hide Mixed4, Back4;
  }

  lemma Twelve1d()
    ensures Mixed12(0x723D_06D7) && Back12(0x723D_06D7) == 0x322B_7AEF
  {
    assert Mixed4(0x723D_06D7) && Back4(0x723D_06D7) == 0x1CED_6DC3;
    assert Mixed4(0x1CED_6DC3) && Back4(0x1CED_6DC3) == 0x70A9_C212;
    assert Mixed4(0x70A9_C212) && Back4(0x70A9_C212) == 0x322B_7AEF;
    hide Mixed4, Back4;
  }

  lemma Twelve2a()
    ensures Mixed12(0xC704_DD7B) && Back12(0xC704_DD7B) == 0x869D_3834
  {
    assert Mixed4(0xC704_DD7B) && Back4(0xC704_DD7B) == 0xD61C_3A65;
    assert Mixed4(0xD61C_3A65) && Back4(0xD61C_3A65) == 0x3AA0_1F60;
    assert Mixed4(0x3AA0_1F60) && Back4(0x3AA0_1F60) == 0x869D_3834;
    hide Mixed4, Back4;
  }

  lemma Twelve2b()
    ensures Mixed12(0x869D_3834) && Back12(0x869D_3834) == 0x35C1_6940
  {
    assert Mixed4(0x869D_3834) && Back4(0x869D_3834) == 0xDF27_BB82;
    assert Mixed4(0xDF27_BB82) && Back4(0xDF27_BB82) == 0x0F4F_A273;
    assert Mixed4(0x0F4F_A273) && Back4(0x0F4F_A273) == 0x35C1_6940;
    hide Mixed4, Back4;
  }

  lemma Twelve2c()
    ensures Mixed12(0x35C1_6940) && Back12(0x35C1_6940) == 0x4053_B2E2
  {
    assert Mixed4(0x35C1_6940) && Back4(0x35C1_6940) == 0xCEC6_7954;
    assert Mixed4(0xCEC6_7954) && Back4(0xCEC6_7954) == 0x57C3_764A;
    assert Mixed4(0x57C3_764A) && Back4(0x57C3_764A) == 0x4053_B2E2;
    hide Mixed4, Back4;
  }

  lemma Twelve2d()
    ensures Mixed12(0x4053_B2E2) && Back12(0x4053_B2E2) == 0x6BAC_3454
  {
    assert Mixed4(0x4053_B2E2) && Back4(0x4053_B2E2) == 0x5A77_3481;
    assert Mixed4(0x5A77_3481) && Back4(0x5A77_3481) == 0x10E9_A56A;
    assert Mixed4(0x10E9_A56A) && Back4(0x10E9_A56A) == 0x6BAC_3454;
    hide Mixed4, Back4;
  }

  lemma Twelve3a()
    ensures Mixed12(0xAE00_6622) && Back12(0xAE00_6622) == 0x64BB_658D
  {
    assert Mixed4(0xAE00_6622) && Back4(0xAE00_6622) == 0x2317_1D92;
    assert Mixed4(0x2317_1D92) && Back4(0x2317_1D92) == 0xB49D_772D;
    assert Mixed4(0xB49D_772D) && Back4(0xB49D_772D) == 0x64BB_658D;
    hide Mixed4, Back4;
  }

  lemma Twelve3b()
    ensures Mixed12(0x64BB_658D) && Back12(0x64BB_658D) == 0x1E33_B2F4
  {
    assert Mixed4(0x64BB_658D) && Back4(0x64BB_658D) == 0xAEE3_38D1;
    assert Mixed4(0xAEE3_38D1) && Back4(0xAEE3_38D1) == 0x78E8_8DF0;
    assert Mixed4(0x78E8_8DF0) && Back4(0x78E8_8DF0) == 0x1E33_B2F4;
    hide Mixed4, Back4;
  }

  lemma Twelve3c()
    ensures Mixed12(0x1E33_B2F4) && Back12(0x1E33_B2F4) == 0x262F_C83B
  {
    assert Mixed4(0x1E33_B2F4) && Back4(0x1E33_B2F4) == 0x5CEE_3FB4;
    assert Mixed4(0x5CEE_3FB4) && Back4(0x5CEE_3FB4) == 0x7A3C_7A60;
    assert Mixed4(0x7A3C_7A60) && Back4(0x7A3C_7A60) == 0x262F_C83B;
    hide Mixed4, Back4;
  }

  lemma Twelve3d()
    ensures Mixed12(0x262F_C83B) && Back12(0x262F_C83B) == 0x096A_9C97
  {
    assert Mixed4(0x262F_C83B) && Back4(0x262F_C83B) == 0x7424_76A4;
    assert Mixed4(0x7424_76A4) && Back4(0x7424_76A4) == 0xFFB5_AC5C;
    assert Mixed4(0xFFB5_AC5C) && Back4(0xFFB5_AC5C) == 0x096A_9C97;
    hide Mixed4, Back4;
  }

  lemma Twelve4a()
    ensures Mixed12(0xF2B1_10CB) && Back12(0xF2B1_10CB) == 0xA4E0_9265
  {
    assert Mixed4(0xF2B1_10CB) && Back4(0xF2B1_10CB) == 0x9A47_8624;
    assert Mixed4(0x9A47_8624) && Back4(0x9A47_8624) == 0xFF08_9E55;
    assert Mixed4(0xFF08_9E55) && Back4(0xFF08_9E55) == 0xA4E0_9265;
    hide Mixed4, Back4;
  }

  lemma Twelve4b()
    ensures Mixed12(0xA4E0_9265) && Back12(0xA4E0_9265) == 0xA348_48D5
  {
    assert Mixed4(0xA4E0_9265) && Back4(0xA4E0_9265) == 0xE75D_2C2B;
    assert Mixed4(0xE75D_2C2B) && Back4(0xE75D_2C2B) == 0x6283_FCE9;
    assert Mixed4(0x6283_FCE9) && Back4(0x6283_FCE9) == 0xA348_48D5;
    hide Mixed4, Back4;
  }

  lemma Twelve4c()
    ensures Mixed12(0xA348_48D5) && Back12(0xA348_48D5) == 0x4165_238B
  {
    assert Mixed4(0xA348_48D5) && Back4(0xA348_48D5) == 0xBF27_FCD2;
    assert Mixed4(0xBF27_FCD2) && Back4(0xBF27_FCD2) == 0xD571_AF09;
    assert Mixed4(0xD571_AF09) && Back4(0xD571_AF09) == 0x4165_238B;
    hide Mixed4, Back4;
  }

  lemma Twelve4d()
    ensures Mixed12(0x4165_238B) && Back12(0x4165_238B) == 0xE4B3_B001
  {
    assert Mixed4(0x4165_238B) && Back4(0x4165_238B) == 0xD9E1_FD93;
    assert Mixed4(0xD9E1_FD93) && Back4(0xD9E1_FD93) == 0x71F4_24A1;
    assert Mixed4(0x71F4_24A1) && Back4(0x71F4_24A1) == 0xE4B3_B001;
    hide Mixed4, Back4;
  }

  lemma Twelve5a()
    ensures Mixed12(0x657F_6667) && Back12(0x657F_6667) == 0x5BE8_0C30
  {
    assert Mixed4(0x657F_6667) && Back4(0x657F_6667) == 0x68F6_96EF;
    assert Mixed4(0x68F6_96EF) && Back4(0x68F6_96EF) == 0x654F_1871;
    assert Mixed4(0x654F_1871) && Back4(0x654F_1871) == 0x5BE8_0C30;
    hide Mixed4, Back4;
  }

  lemma Twelve5b()
    ensures Mixed12(0x5BE8_0C30) && Back12(0x5BE8_0C30) == 0xC1CB_B43C
  {
    assert Mixed4(0x5BE8_0C30) && Back4(0x5BE8_0C30) == 0x43BD_BE4E;
    assert Mixed4(0x43BD_BE4E) && Back4(0x43BD_BE4E) == 0x85DE_D0C2;
    assert Mixed4(0x85DE_D0C2) && Back4(0x85DE_D0C2) == 0xC1CB_B43C;
    hide Mixed4, Back4;
  }

  lemma Twelve5c()
    ensures Mixed12(0xC1CB_B43C) && Back12(0xC1CB_B43C) == 0x9414_8C82
  {
    assert Mixed4(0xC1CB_B43C) && Back4(0xC1CB_B43C) == 0x1C6F_B407;
    assert Mixed4(0x1C6F_B407) && Back4(0x1C6F_B407) == 0x6A56_53DB;
    assert Mixed4(0x6A56_53DB) && Back4(0x6A56_53DB) == 0x9414_8C82;
    hide Mixed4, Back4;
  }

  lemma Twelve5d()
    ensures Mixed12(0x9414_8C82) && Back12(0x9414_8C82) == 0x9547_94A0
  {
    assert Mixed4(0x9414_8C82) && Back4(0x9414_8C82) == 0x9884_DE18;
    assert Mixed4(0x9884_DE18) && Back4(0x9884_DE18) == 0xA815_D932;
    assert Mixed4(0xA815_D932) && Back4(0xA815_D932) == 0x9547_94A0;
    hide Mixed4, Back4;
  }

  lemma Twelve6a()
    ensures Mixed12(0x3127_375E) && Back12(0x3127_375E) == 0x331E_9ADF
  {
    assert Mixed4(0x3127_375E) && Back4(0x3127_375E) == 0x4862_8F0C;
    assert Mixed4(0x4862_8F0C) && Back4(0x4862_8F0C) == 0x0030_7E16;
    assert Mixed4(0x0030_7E16) && Back4(0x0030_7E16) == 0x331E_9ADF;
    hide Mixed4, Back4;
  }

  lemma Twelve6b()
    ensures Mixed12(0x331E_9ADF) && Back12(0x331E_9ADF) == 0x8276_0A72
  {
    assert Mixed4(0x331E_9ADF) && Back4(0x331E_9ADF) == 0x26F2_A63F;
    assert Mixed4(0x26F2_A63F) && Back4(0x26F2_A63F) == 0xDE36_DCF2;
    assert Mixed4(0xDE36_DCF2) && Back4(0xDE36_DCF2) == 0x8276_0A72;
    hide Mixed4, Back4;
  }

  lemma Twelve6c()
    ensures Mixed12(0x8276_0A72) && Back12(0x8276_0A72) == 0x887B_3885
  {
    assert Mixed4(0x8276_0A72) && Back4(0x8276_0A72) == 0x99B1_64C5;
    assert Mixed4(0x99B1_64C5) && Back4(0x99B1_64C5) == 0xAB9D_E7E7;
    assert Mixed4(0xAB9D_E7E7) && Back4(0xAB9D_E7E7) == 0x887B_3885;
    hide Mixed4, Back4;
  }

  lemma Twelve6d()
    ensures Mixed12(0x887B_3885) && Back12(0x887B_3885) == 0x0DC3_4AB8
  {
    assert Mixed4(0x887B_3885) && Back4(0x887B_3885) == 0xF2D2_8DC3;
    assert Mixed4(0xF2D2_8DC3) && Back4(0xF2D2_8DC3) == 0x3C01_55B0;
    assert Mixed4(0x3C01_55B0) && Back4(0x3C01_55B0) == 0x0DC3_4AB8;
    hide Mixed4, Back4;
  }

  lemma Twelve7a()
    ensures Mixed12(0x8B75_A1E5) && Back12(0x8B75_A1E5) == 0xF1BE_CDC4
  {
    assert Mixed4(0x8B75_A1E5) && Back4(0x8B75_A1E5) == 0x31F0_9841;
    assert Mixed4(0x31F0_9841) && Back4(0x31F0_9841) == 0x1BD1_AC4E;
    assert Mixed4(0x1BD1_AC4E) && Back4(0x1BD1_AC4E) == 0xF1BE_CDC4;
    hide Mixed4, Back4;
  }

  lemma Twelve7b()
    ensures Mixed12(0xF1BE_CDC4) && Back12(0xF1BE_CDC4) == 0x8246_7464
  {
    assert Mixed4(0xF1BE_CDC4) && Back4(0xF1BE_CDC4) == 0x17D5_9161;
    assert Mixed4(0x17D5_9161) && Back4(0x17D5_9161) == 0x9654_53FE;
    assert Mixed4(0x9654_53FE) && Back4(0x9654_53FE) == 0x8246_7464;
    hide Mixed4, Back4;
  }

  lemma Twelve7c()
    ensures Mixed12(0x8246_7464) && Back12(0x8246_7464) == 0x564D_E477
  {
    assert Mixed4(0x8246_7464) && Back4(0x8246_7464) == 0xAAAF_FE1A;
    assert Mixed4(0xAAAF_FE1A) && Back4(0xAAAF_FE1A) == 0x8D6F_41D8;
    assert Mixed4(0x8D6F_41D8) && Back4(0x8D6F_41D8) == 0x564D_E477;
    hide Mixed4, Back4;
  }

  lemma Twelve7d()
    ensures Mixed12(0x564D_E477) && Back12(0x564D_E477) == 0xA65E_AD5F
  {
    assert Mixed4(0x564D_E477) && Back4(0x564D_E477) == 0x70A4_87B1;
    assert Mixed4(0x70A4_87B1) && Back4(0x70A4_87B1) == 0xA5B0_3175;
    assert Mixed4(0xA5B0_3175) && Back4(0xA5B0_3175) == 0xA65E_AD5F;
    hide Mixed4, Back4;
  }

  // --- what stuffing leaves -----------------------------------------------------------------

  /** Registers after one, two, four, up to 128 bytes of stuffing. */
  const F1: bv32 := 0xB1F7_40B4
  const F2: bv32 := 0xFF48_647D
  const F4: bv32 := 0xC704_DD7B
  const F8: bv32 := 0xAE00_6622
  const F16: bv32 := 0xF2B1_10CB
  const F32: bv32 := 0x657F_6667
  const F64: bv32 := 0x3127_375E
  const F128: bv32 := 0x8B75_A1E5

  /** The register after `n` bytes of stuffing. */
  function Stuffed(c: bv32, n: nat): bv32
    decreases n
  {
    if n == 0 then c else Feed(Stuffed(c, n - 1), 0xFF)
  }

  lemma {:induction false} StuffedAdd(c: bv32, m: nat, n: nat)
    ensures Stuffed(c, m + n) == Stuffed(Stuffed(c, m), n)
    decreases n
  {
    hide Feed;
    if n > 0 { StuffedAdd(c, m, n - 1); }
  }

  /** From any register: as if its bits had gone through alone, and the stuffing alone. */
  lemma {:induction false} StuffedLinear(c: bv32, n: nat)
    ensures Stuffed(c, n) == Plus(Bits(c, 8 * n), Stuffed(0, n))
    decreases n
  {
    hide *;
    StuffedNone(c);
    StuffedNone(0);
    if n == 0 {
      BitsNone(c);
      PlusZero(c);
    } else {
      StuffedStep(c, n);
      StuffedStep(0, n);
      StuffedLinear(c, n - 1);
      var b, o, h := Bits(c, 8 * (n - 1)), Stuffed(0, n - 1), High(0xFF);
      FeedIs(Plus(b, o), 0xFF);
      FeedIs(o, 0xFF);
      PlusGroup(b, o, h);
      BitsLinear(b, Plus(o, h), 8);
      BitsAdd(c, 8 * (n - 1), 8);
    }
  }

  lemma StuffedStep(c: bv32, n: nat)
    requires n > 0
    ensures Stuffed(c, n) == Feed(Stuffed(c, n - 1), 0xFF) && Stuffed(c, 0) == c
  {
    hide Feed;
  }

  lemma {:induction false} StuffedNone(c: bv32)
    ensures Stuffed(c, 0) == c
  {
  }

  lemma PlusZero(c: bv32)
    ensures Plus(c, 0) == c
  {
  }

  /** Twice as much stuffing. */
  lemma {:induction false} Doubled(n: nat)
    ensures Stuffed(0, 2 * n) == Plus(Bits(Stuffed(0, n), 8 * n), Stuffed(0, n))
  {
    hide *;
    StuffedAdd(0, n, n);
    StuffedLinear(Stuffed(0, n), n);
  }

  lemma OneByte()
    ensures Stuffed(0, 1) == F1
  {
    hide Bits, Feed;
    StuffedStep(0, 1);
    FeedIs(0, 0xFF);
    assert Plus(0, High(0xFF)) == 0xFF00_0000;
    Walk(0xFF00_0000, 0xFAC1_1DB7, 7);    Walk(0xFAC1_1DB7, 0xF143_26D9, 6);
    Walk(0xF143_26D9, 0xE647_5005, 5);    Walk(0xE647_5005, 0xC84F_BDBD, 4);
    Walk(0xC84F_BDBD, 0x945E_66CD, 3);    Walk(0x945E_66CD, 0x2C7D_D02D, 2);
    Walk(0x2C7D_D02D, 0x58FB_A05A, 1);    Walk(0x58FB_A05A, 0xB1F7_40B4, 0);
    BitsNone(0xB1F7_40B4);
  }

  lemma TwoBytes()
    ensures Stuffed(0, 2) == F2
  {
    hide Bits, Stuffed;
    OneByte();
    Doubled(1);
    Walk(0xB1F7_40B4, 0x672F_9CDF, 7);    Walk(0x672F_9CDF, 0xCE5F_39BE, 6);
    Walk(0xCE5F_39BE, 0x987F_6ECB, 5);    Walk(0x987F_6ECB, 0x343F_C021, 4);
    Walk(0x343F_C021, 0x687F_8042, 3);    Walk(0x687F_8042, 0xD0FF_0084, 2);
    Walk(0xD0FF_0084, 0xA53F_1CBF, 1);    Walk(0xA53F_1CBF, 0x4EBF_24C9, 0);
    BitsNone(0x4EBF_24C9);
  }

  lemma FourBytes()
    ensures Stuffed(0, 4) == F4
  {
    hide Bits, Stuffed;
    TwoBytes();
    Doubled(2);
    Walk(0xFF48_647D, 0xFA51_D54D, 15);    Walk(0xFA51_D54D, 0xF062_B72D, 14);
    Walk(0xF062_B72D, 0xE404_73ED, 13);    Walk(0xE404_73ED, 0xCCC9_FA6D, 12);
    Walk(0xCCC9_FA6D, 0x9D52_E96D, 11);    Walk(0x9D52_E96D, 0x3E64_CF6D, 10);
    Walk(0x3E64_CF6D, 0x7CC9_9EDA, 9);    Walk(0x7CC9_9EDA, 0xF993_3DB4, 8);
    Walk(0xF993_3DB4, 0xF7E7_66DF, 7);    Walk(0xF7E7_66DF, 0xEB0F_D009, 6);
    Walk(0xEB0F_D009, 0xD2DE_BDA5, 5);    Walk(0xD2DE_BDA5, 0xA17C_66FD, 4);
    Walk(0xA17C_66FD, 0x4639_D04D, 3);    Walk(0x4639_D04D, 0x8C73_A09A, 2);
    Walk(0x8C73_A09A, 0x1C26_5C83, 1);    Walk(0x1C26_5C83, 0x384C_B906, 0);
    BitsNone(0x384C_B906);
  }

  lemma Sum4()
    ensures Plus(0x6904_BB59, F4) == F8
  {
  }

  lemma From4()
    ensures Back(0x6904_BB59) == F4
  {
  }

  lemma EightBytes()
    ensures Stuffed(0, 8) == F8
  {
    hide *;
    var v: bv32 := 0x6904_BB59;
    Sum4();
    From4();
    FourBytes();
    Doubled(4);
    BacksUp(v, 1);
    BackFew(v, 4);
  }

  lemma Sum8()
    ensures Plus(0x5CB1_76E9, F8) == F16
  {
  }

  lemma From8()
    ensures Back(Back(0x5CB1_76E9)) == F8
  {
  }

  lemma SixteenBytes()
    ensures Stuffed(0, 16) == F16
  {
    hide *;
    var v: bv32 := 0x5CB1_76E9;
    Sum8();
    From8();
    EightBytes();
    Doubled(8);
    BacksUp(v, 2);
    BackFew(v, 4);
  }

  lemma Sum16()
    ensures Plus(0x97CE_76AC, F16) == F32
  {
  }

  lemma From16()
    ensures Back4(0x97CE_76AC) == F16
  {
    From16a();
    hide Back4;
  }

  lemma From16a()
    ensures Back4(0x97CE_76AC) == 0xF2B1_10CB
  {
    assert Back(0x97CE_76AC) == 0x88B6_FB03;
    assert Back(0x88B6_FB03) == 0xE93B_5EDC;
    assert Back(0xE93B_5EDC) == 0x7B93_99BF;
    assert Back(0x7B93_99BF) == 0xF2B1_10CB;
  }

  lemma ThirtyTwoBytes()
    ensures Stuffed(0, 32) == F32
  {
    hide *;
    var v: bv32 := 0x97CE_76AC;
    Sum16();
    From16();
    SixteenBytes();
    Doubled(16);
    BacksUp(v, 4);
    BackFew(v, 4);
    BackFew(Back4(v), 4);
  }

  lemma Sum32()
    ensures Plus(0x5458_5139, F32) == F64
  {
  }

  lemma From32()
    ensures Back4(Back4(0x5458_5139)) == F32
  {
    From32a();
    From32b();
    hide Back4;
  }

  lemma From32a()
    ensures Back4(0x5458_5139) == 0x2094_19E3
  {
    assert Back(0x5458_5139) == 0x8D34_B00F;
    assert Back(0x8D34_B00F) == 0x0A4B_F62E;
    assert Back(0x0A4B_F62E) == 0x9CBD_6620;
    assert Back(0x9CBD_6620) == 0x2094_19E3;
  }

  lemma From32b()
    ensures Back4(0x2094_19E3) == 0x657F_6667
  {
    assert Back(0x2094_19E3) == 0x238B_D59B;
    assert Back(0x238B_D59B) == 0xED8E_5A84;
    assert Back(0xED8E_5A84) == 0xF6C9_29B5;
    assert Back(0xF6C9_29B5) == 0x657F_6667;
  }

  lemma SixtyFourBytes()
    ensures Stuffed(0, 64) == F64
  {
    hide *;
    var v: bv32 := 0x5458_5139;
    Sum32();
    From32();
    ThirtyTwoBytes();
    Doubled(32);
    BacksUp(v, 8);
    BackFew(v, 8);
    BackFew(Back4(v), 4);
    BackFew(Back4(Back4(v)), 4);
  }

  lemma Sum64()
    ensures Plus(0xBA52_96BB, F64) == F128
  {
  }

  lemma From64()
    ensures Back4(Back4(Back4(Back4(0xBA52_96BB)))) == F64
  {
    From64a();
    From64b();
    From64c();
    From64d();
    hide Back4;
  }

  lemma From64a()
    ensures Back4(0xBA52_96BB) == 0x7992_174D
  {
    assert Back(0xBA52_96BB) == 0x6FCB_3256;
    assert Back(0x6FCB_3256) == 0x4F2A_91DE;
    assert Back(0x4F2A_91DE) == 0x39D1_3889;
    assert Back(0x39D1_3889) == 0x7992_174D;
  }

  lemma From64b()
    ensures Back4(0x7992_174D) == 0x1BE1_D258
  {
    assert Back(0x7992_174D) == 0x6DEA_7BDA;
    assert Back(0x6DEA_7BDA) == 0x9A33_61EB;
    assert Back(0x9A33_61EB) == 0xE3CF_AE97;
    assert Back(0xE3CF_AE97) == 0x1BE1_D258;
  }

  lemma From64c()
    ensures Back4(0x1BE1_D258) == 0xC2A0_571B
  {
    assert Back(0x1BE1_D258) == 0xDBED_AD9D;
    assert Back(0xDBED_AD9D) == 0xAB67_0EDF;
    assert Back(0xAB67_0EDF) == 0x1D2E_CFC5;
    assert Back(0x1D2E_CFC5) == 0xC2A0_571B;
  }

  lemma From64d()
    ensures Back4(0xC2A0_571B) == 0x3127_375E
  {
    assert Back(0xC2A0_571B) == 0x0F6A_4E5D;
    assert Back(0x0F6A_4E5D) == 0x608C_F984;
    assert Back(0x608C_F984) == 0xBCAA_FED2;
    assert Back(0xBCAA_FED2) == 0x3127_375E;
  }

  lemma AllBytes()
    ensures Stuffed(0, 128) == F128
  {
    hide *;
    var v: bv32 := 0xBA52_96BB;
    Sum64();
    From64();
    SixtyFourBytes();
    Doubled(64);
    BacksUp(v, 16);
    BackFew(v, 16);
    BackFew(Back4(v), 12);
    BackFew(Back4(Back4(v)), 8);
    BackFew(Back4(Back4(Back4(v))), 4);
    BackFew(Back4(Back4(Back4(Back4(v)))), 4);
  }

  // --- they never meet ----------------------------------------------------------------------

  lemma {:induction false} SingleIsNotMixed(b: nat)
    requires b < 32
    ensures !Mixed(Bits(1, b))
  {
    Singles();
    hide Bits;
    if b < 16 {
      match b {
        case 0 => case 1 => case 2 => case 3 => case 4 => case 5 => case 6 => case 7 =>
        case 8 => case 9 => case 10 => case 11 => case 12 => case 13 => case 14 => case _ =>
      }
    } else {
      match b {
        case 16 => case 17 => case 18 => case 19 => case 20 => case 21 => case 22 => case 23 =>
        case 24 => case 25 => case 26 => case 27 => case 28 => case 29 => case 30 => case _ =>
      }
    }
  }

  /** The amounts of stuffing by which one bit of a length can mistake the end of a section. */
  predicate Amount(j: nat) { j in {1, 2, 4, 8, 16, 32, 64, 128} }

  lemma {:induction false} StuffedIsMixed(j: nat, n: nat)
    requires Amount(j) && n < 48
    ensures Mixed(Backs(Stuffed(0, j), n))
  {
    hide Stuffed, Backs, Mixed, Mixed12, Back12;
    if j == 1 {
      OneByte();
      Twelve0a(); Twelve0b(); Twelve0c(); Twelve0d();
      AllMixed(0xB1F7_40B4, 0x8699_538E, 0xB432_27CB, 0x1F19_7A1A, n);
    }
    if j == 2 {
      TwoBytes();
      Twelve1a(); Twelve1b(); Twelve1c(); Twelve1d();
      AllMixed(0xFF48_647D, 0x6C40_70D2, 0x282F_1769, 0x723D_06D7, n);
    }
    if j == 4 {
      FourBytes();
      Twelve2a(); Twelve2b(); Twelve2c(); Twelve2d();
      AllMixed(0xC704_DD7B, 0x869D_3834, 0x35C1_6940, 0x4053_B2E2, n);
    }
    if j == 8 {
      EightBytes();
      Twelve3a(); Twelve3b(); Twelve3c(); Twelve3d();
      AllMixed(0xAE00_6622, 0x64BB_658D, 0x1E33_B2F4, 0x262F_C83B, n);
    }
    if j == 16 {
      SixteenBytes();
      Twelve4a(); Twelve4b(); Twelve4c(); Twelve4d();
      AllMixed(0xF2B1_10CB, 0xA4E0_9265, 0xA348_48D5, 0x4165_238B, n);
    }
    if j == 32 {
      ThirtyTwoBytes();
      Twelve5a(); Twelve5b(); Twelve5c(); Twelve5d();
      AllMixed(0x657F_6667, 0x5BE8_0C30, 0xC1CB_B43C, 0x9414_8C82, n);
    }
    if j == 64 {
      SixtyFourBytes();
      Twelve6a(); Twelve6b(); Twelve6c(); Twelve6d();
      AllMixed(0x3127_375E, 0x331E_9ADF, 0x8276_0A72, 0x887B_3885, n);
    }
    if j == 128 {
      AllBytes();
      Twelve7a(); Twelve7b(); Twelve7c(); Twelve7d();
      AllMixed(0x8B75_A1E5, 0xF1BE_CDC4, 0x8246_7464, 0x564D_E477, n);
    }
  }

  /** A single bit shifted through the register, for as long as a section can be, is never what stuffing of
      these amounts leaves. */
  lemma {:induction false} BitIsNotStuffing(e: nat, j: nat)
    requires Amount(j) && e < 48 * 32
    ensures Bits(1, e) != Stuffed(0, j)
  {
    hide *;
    var a, b := e / 32, e % 32;
    BitsAdd(1, b, 32 * a);
    SingleIsNotMixed(b);
    CameFrom(Bits(1, b), a);
    if Bits(1, e) == Stuffed(0, j) {
      StuffedIsMixed(j, a);
    }
  }
}

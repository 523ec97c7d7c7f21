/** kernel/random.c: known answers of the generator, derived word by word.  They pin the
    constants that its algebraic laws leave open: the amounts of the rotations, the
    number of rounds, the order of the words and of their bytes. */
module ChaChaAnswers {
  import opened Arithmetic
  import opened ChaCha

  // ---------------------------------------------------------------- exclusive or of constants

  function Int(x: bv8): (n: nat)
    ensures n < 256
  {
    x as nat
  }

  lemma Halves(x: bv8)
    ensures Int(x) == 2 * Int(x >> 1) + Int(x & 1) && Int(x & 1) < 2
  {
  }

  lemma HalvesXor(x: bv8, y: bv8)
    ensures (x ^ y) >> 1 == (x >> 1) ^ (y >> 1) && (x ^ y) & 1 == (x & 1) ^ (y & 1)
  {
  }

  lemma LowBit(x: bv8, y: bv8)
    ensures Int((x & 1) ^ (y & 1)) == (Int(x & 1) + Int(y & 1)) % 2
  {
  }

  lemma XorHalves(x: bv8, y: bv8)
    ensures Int(x ^ y) == 2 * Int((x >> 1) ^ (y >> 1)) + (Int(x & 1) + Int(y & 1)) % 2
  {
    hide Int;
    Halves(x ^ y);
    HalvesXor(x, y);
    LowBit(x, y);
  }

  lemma XorStep(a: nat, b: nat, c: nat, d: nat, p: nat, q: nat)
    requires a == 2 * c + p && b == 2 * d + q && p < 2 && q < 2
    ensures Xor(a, b) == 2 * Xor(c, d) + (p + q) % 2
  {
    XorDigits(a, b);
    hide Xor;
    assert a / 2 == c && b / 2 == d;
  }

  lemma ZeroByte(x: bv8)
    ensures Int(x) == 0 <==> x == 0
  {
  }

  lemma XorOfZeros(x: bv8, y: bv8)
    requires Int(x) == 0 && Int(y) == 0
    ensures Xor(Int(x), Int(y)) == Int(x ^ y)
  {
    ZeroByte(x);
    ZeroByte(y);
    assert Xor(0, 0) == 0;
  }

  /** On bytes it is the operation of the machine. */
  lemma {:induction false} XorOfBytes(x: bv8, y: bv8, n: nat)
    requires Int(x) + Int(y) <= n
    ensures Xor(Int(x), Int(y)) == Int(x ^ y)
    decreases n
  {
    hide Xor, Int;
    if Int(x) == 0 && Int(y) == 0 {
      XorOfZeros(x, y);
    } else {
      Halves(x);
      Halves(y);
      XorHalves(x, y);
      XorStep(Int(x), Int(y), Int(x >> 1), Int(y >> 1), Int(x & 1), Int(y & 1));
      XorOfBytes(x >> 1, y >> 1, n - 1);
    }
  }

  lemma XorDoubled(a: nat, r: nat, a': nat, r': nat, high: nat)
    requires Xor(a + r / 2, a' + r' / 2) == high + Xor(r / 2, r' / 2)
    ensures Xor(2 * a + r, 2 * a' + r') == 2 * high + Xor(r, r')
  {
    hide Xor;
    XorStep(r, r', r / 2, r' / 2, r % 2, r' % 2);
    XorStep(2 * a + r, 2 * a' + r', a + r / 2, a' + r' / 2, r % 2, r' % 2);
  }

  /** The digits from n on and those below n are combined apart from each other. */
  lemma {:induction false} XorParts(q: nat, r: nat, q': nat, r': nat, n: nat)
    requires r < Pow2(n) && r' < Pow2(n)
    ensures Xor(Times(q, Pow2(n)) + r, Times(q', Pow2(n)) + r') == Times(Xor(q, q'), Pow2(n)) + Xor(r, r')
    decreases n
  {
    if n == 0 {
      assert Xor(0, 0) == 0;
    } else {
      hide Xor, Times;
      var p := Pow2(n - 1);
      XorParts(q, r / 2, q', r' / 2, n - 1);
      XorDoubled(Times(q, p), r, Times(q', p), r', Times(Xor(q, q'), p));
      TimesDoubled(q, p);
      TimesDoubled(q', p);
      TimesDoubled(Xor(q, q'), p);
    }
  }

  lemma XorOfPair(q: nat, x: bv8, q': nat, y: bv8)
    ensures Xor(0x100 * q + Int(x), 0x100 * q' + Int(y)) == 0x100 * Xor(q, q') + Int(x ^ y)
  {
    hide Int, Xor;
    XorOfBytes(x, y, Int(x) + Int(y));
    assert Pow2(8) == 0x100;
    hide Xor, Int;
    XorParts(q, Int(x), q', Int(y), 8);
    hide Pow2;
  }

  function Join(a: bv8, b: bv8, c: bv8, d: bv8): u32 {
    0x100_0000 * Int(a) + 0x1_0000 * Int(b) + 0x100 * Int(c) + Int(d)
  }

  /** Exclusive or of two words, byte by byte. */
  lemma XorIs(a: bv8, b: bv8, c: bv8, d: bv8, a': bv8, b': bv8, c': bv8, d': bv8)
    ensures Xor(Join(a, b, c, d), Join(a', b', c', d')) == Join(a ^ a', b ^ b', c ^ c', d ^ d')
  {
    hide Xor, Int;
    var x, x' := 0x100 * Int(a) + Int(b), 0x100 * Int(a') + Int(b');
    XorOfBytes(a, a', Int(a) + Int(a'));
    XorOfPair(Int(a), b, Int(a'), b');
    XorOfPair(x, c, x', c');
    XorOfPair(0x100 * x + Int(c), d, 0x100 * x' + Int(c'), d');
  }

  lemma RotationIs(x: u32, up: nat, low: nat, high: nat, rest: nat)
    requires up * low == 0x1_0000_0000 && low > 0 && up > 0 && rest < low && x == high * low + rest
    ensures Rotate(x, up, low) == rest * up + high
  {
    DivMod(high, low, rest);
  }

  /** One line of the macro: the sum and the exclusive or are given in bytes, the latter
      also by its part above the cut of the rotation and its part below. */
  lemma MixIs(p: u32, q: u32, a: bv8, b: bv8, c: bv8, d: bv8, a': bv8, b': bv8, c': bv8, d': bv8, up: nat, low: nat, high: nat, rest: nat)
    requires up * low == 0x1_0000_0000 && rest < low && Plus(p, q) == Join(a', b', c', d')
    requires high * low + rest == Join(a ^ a', b ^ b', c ^ c', d ^ d')
    ensures rest * up + high < 0x1_0000_0000 && Mix(p, q, Join(a, b, c, d), up, low) == (Join(a', b', c', d'), rest * up + high)
  {
    hide Xor, Join, Plus;
    XorIs(a, b, c, d, a', b', c', d');
    RotationIs(high * low + rest, up, low, high, rest);
  }

  // ---------------------------------------------------------------- quarter rounds

  /** The test vector of section 2.1.1 of RFC 8439. */
  lemma QuarterAnswer()
    ensures Quarter(Four(0x1111_1111, 0x0102_0304, 0x9b8d_6f43, 0x0123_4567)) == Four(0xea2a_92f4, 0xcb1c_f8ce, 0x4581_472e, 0x5881_c4bb)
  {
    hide Mix;
    MixIs(0x1111_1111, 0x0102_0304, 0x01, 0x23, 0x45, 0x67, 0x12, 0x13, 0x14, 0x15, 0x10000, 0x10000, 0x1330, 0x5172);
    MixIs(0x9b8d_6f43, 0x5172_1330, 0x01, 0x02, 0x03, 0x04, 0xec, 0xff, 0x82, 0x73, 0x1000, 0x100000, 0xedf, 0xd8177);
    MixIs(0x1213_1415, 0xd817_7edf, 0x51, 0x72, 0x13, 0x30, 0xea, 0x2a, 0x92, 0xf4, 0x100, 0x1000000, 0xbb, 0x5881c4);
    MixIs(0xecff_8273, 0x5881_c4bb, 0xd8, 0x17, 0x7e, 0xdf, 0x45, 0x81, 0x47, 0x2e, 0x80, 0x2000000, 0x4e, 0x19639f1);
  }

  lemma Quarter1A()
    ensures Quarter(Four(0x6170_7865, 0x0000_0000, 0x0000_0000, 0x0000_0000)) == Four(0xb787_7feb, 0x4a7d_5c86, 0x5a83_fd3f, 0xe21e_9bcf)
  {
    hide Mix;
    MixIs(0x6170_7865, 0x0000_0000, 0x00, 0x00, 0x00, 0x00, 0x61, 0x70, 0x78, 0x65, 0x10000, 0x10000, 0x6170, 0x7865);
    MixIs(0x0000_0000, 0x7865_6170, 0x00, 0x00, 0x00, 0x00, 0x78, 0x65, 0x61, 0x70, 0x1000, 0x100000, 0x786, 0x56170);
    MixIs(0x6170_7865, 0x5617_0786, 0x78, 0x65, 0x61, 0x70, 0xb7, 0x87, 0x7f, 0xeb, 0x100, 0x1000000, 0xcf, 0xe21e9b);
    MixIs(0x7865_6170, 0xe21e_9bcf, 0x56, 0x17, 0x07, 0x86, 0x5a, 0x83, 0xfd, 0x3f, 0x80, 0x2000000, 0x6, 0x94fab9);
  }

  lemma Quarter1B()
    ensures Quarter(Four(0x3320_646e, 0x0000_0000, 0x0000_0000, 0x0000_0000)) == Four(0x1652_6ab4, 0xfae0_ea21, 0xa0c7_c792, 0x3c59_9472)
  {
    hide Mix;
    MixIs(0x3320_646e, 0x0000_0000, 0x00, 0x00, 0x00, 0x00, 0x33, 0x20, 0x64, 0x6e, 0x10000, 0x10000, 0x3320, 0x646e);
    MixIs(0x0000_0000, 0x646e_3320, 0x00, 0x00, 0x00, 0x00, 0x64, 0x6e, 0x33, 0x20, 0x1000, 0x100000, 0x646, 0xe3320);
    MixIs(0x3320_646e, 0xe332_0646, 0x64, 0x6e, 0x33, 0x20, 0x16, 0x52, 0x6a, 0xb4, 0x100, 0x1000000, 0x72, 0x3c5994);
    MixIs(0x646e_3320, 0x3c59_9472, 0xe3, 0x32, 0x06, 0x46, 0xa0, 0xc7, 0xc7, 0x92, 0x80, 0x2000000, 0x21, 0x1f5c1d4);
  }

  lemma Quarter1C()
    ensures Quarter(Four(0x7962_2d32, 0x0000_0000, 0x0000_0000, 0x0000_0000)) == Four(0xa0f8_5005, 0x66e1_1e68, 0xf75b_e0ef, 0xca29_678d)
  {
    hide Mix;
    MixIs(0x7962_2d32, 0x0000_0000, 0x00, 0x00, 0x00, 0x00, 0x79, 0x62, 0x2d, 0x32, 0x10000, 0x10000, 0x7962, 0x2d32);
    MixIs(0x0000_0000, 0x2d32_7962, 0x00, 0x00, 0x00, 0x00, 0x2d, 0x32, 0x79, 0x62, 0x1000, 0x100000, 0x2d3, 0x27962);
    MixIs(0x7962_2d32, 0x2796_22d3, 0x2d, 0x32, 0x79, 0x62, 0xa0, 0xf8, 0x50, 0x05, 0x100, 0x1000000, 0x8d, 0xca2967);
    MixIs(0x2d32_7962, 0xca29_678d, 0x27, 0x96, 0x22, 0xd3, 0xf7, 0x5b, 0xe0, 0xef, 0x80, 0x2000000, 0x68, 0xcdc23c);
  }

  lemma Quarter1D()
    ensures Quarter(Four(0x6b20_6574, 0x0000_0000, 0x0000_0000, 0x0000_0000)) == Four(0xb1d2_6bcb, 0xe3a8_51a6, 0x0b75_56f4, 0xa600_ebd4)
  {
    hide Mix;
    MixIs(0x6b20_6574, 0x0000_0000, 0x00, 0x00, 0x00, 0x00, 0x6b, 0x20, 0x65, 0x74, 0x10000, 0x10000, 0x6b20, 0x6574);
    MixIs(0x0000_0000, 0x6574_6b20, 0x00, 0x00, 0x00, 0x00, 0x65, 0x74, 0x6b, 0x20, 0x1000, 0x100000, 0x657, 0x46b20);
    MixIs(0x6b20_6574, 0x46b2_0657, 0x65, 0x74, 0x6b, 0x20, 0xb1, 0xd2, 0x6b, 0xcb, 0x100, 0x1000000, 0xd4, 0xa600eb);
    MixIs(0x6574_6b20, 0xa600_ebd4, 0x46, 0xb2, 0x06, 0x57, 0x0b, 0x75, 0x56, 0xf4, 0x80, 0x2000000, 0x26, 0x1c750a3);
  }

  lemma Quarter2A()
    ensures Quarter(Four(0xb787_7feb, 0xfae0_ea21, 0xf75b_e0ef, 0xa600_ebd4)) == Four(0xe45f_d249, 0x86bf_4098, 0x00fa_16bc, 0x87c6_2165)
  {
    hide Mix;
    MixIs(0xb787_7feb, 0xfae0_ea21, 0xa6, 0x00, 0xeb, 0xd4, 0xb2, 0x68, 0x6a, 0x0c, 0x10000, 0x10000, 0x1468, 0x81d8);
    MixIs(0xf75b_e0ef, 0x81d8_1468, 0xfa, 0xe0, 0xea, 0x21, 0x79, 0x33, 0xf5, 0x57, 0x1000, 0x100000, 0x83d, 0x31f76);
    MixIs(0xb268_6a0c, 0x31f7_683d, 0x81, 0xd8, 0x14, 0x68, 0xe4, 0x5f, 0xd2, 0x49, 0x100, 0x1000000, 0x65, 0x87c621);
    MixIs(0x7933_f557, 0x87c6_2165, 0x31, 0xf7, 0x68, 0x3d, 0x00, 0xfa, 0x16, 0xbc, 0x80, 0x2000000, 0x18, 0x10d7e81);
  }

  lemma Quarter2B()
    ensures Quarter(Four(0x1652_6ab4, 0x66e1_1e68, 0x0b75_56f4, 0xe21e_9bcf)) == Four(0x1bb8_20a6, 0x460b_500a, 0x8a08_812a, 0x6bbf_8b09)
  {
    hide Mix;
    MixIs(0x1652_6ab4, 0x66e1_1e68, 0xe2, 0x1e, 0x9b, 0xcf, 0x7d, 0x33, 0x89, 0x1c, 0x10000, 0x10000, 0x9f2d, 0x12d3);
    MixIs(0x0b75_56f4, 0x12d3_9f2d, 0x66, 0xe1, 0x1e, 0x68, 0x1e, 0x48, 0xf6, 0x21, 0x1000, 0x100000, 0x78a, 0x9e849);
    MixIs(0x7d33_891c, 0x9e84_978a, 0x12, 0xd3, 0x9f, 0x2d, 0x1b, 0xb8, 0x20, 0xa6, 0x100, 0x1000000, 0x9, 0x6bbf8b);
    MixIs(0x1e48_f621, 0x6bbf_8b09, 0x9e, 0x84, 0x97, 0x8a, 0x8a, 0x08, 0x81, 0x2a, 0x80, 0x2000000, 0xa, 0x8c16a0);
  }

  lemma Quarter2C()
    ensures Quarter(Four(0xa0f8_5005, 0xe3a8_51a6, 0x5a83_fd3f, 0x3c59_9472)) == Four(0xe31a_88ea, 0xfa16_9886, 0x538d_ca0e, 0xc330_13d6)
  {
    hide Mix;
    MixIs(0xa0f8_5005, 0xe3a8_51a6, 0x3c, 0x59, 0x94, 0x72, 0x84, 0xa0, 0xa1, 0xab, 0x10000, 0x10000, 0xb8f9, 0x35d9);
    MixIs(0x5a83_fd3f, 0x35d9_b8f9, 0xe3, 0xa8, 0x51, 0xa6, 0x90, 0x5d, 0xb6, 0x38, 0x1000, 0x100000, 0x73f, 0x5e79e);
    MixIs(0x84a0_a1ab, 0x5e79_e73f, 0x35, 0xd9, 0xb8, 0xf9, 0xe3, 0x1a, 0x88, 0xea, 0x100, 0x1000000, 0xd6, 0xc33013);
    MixIs(0x905d_b638, 0xc330_13d6, 0x5e, 0x79, 0xe7, 0x3f, 0x53, 0x8d, 0xca, 0x0e, 0x80, 0x2000000, 0x6, 0x1f42d31);
  }

  lemma Quarter2D()
    ensures Quarter(Four(0xb1d2_6bcb, 0x4a7d_5c86, 0xa0c7_c792, 0xca29_678d)) == Four(0xe667_a9fe, 0x2a3b_f673, 0x0c43_9641, 0xbb9f_9849)
  {
    hide Mix;
    MixIs(0xb1d2_6bcb, 0x4a7d_5c86, 0xca, 0x29, 0x67, 0x8d, 0xfc, 0x4f, 0xc8, 0x51, 0x10000, 0x10000, 0x3666, 0xafdc);
    MixIs(0xa0c7_c792, 0xafdc_3666, 0x4a, 0x7d, 0x5c, 0x86, 0x50, 0xa3, 0xfd, 0xf8, 0x1000, 0x100000, 0x1ad, 0xea17e);
    MixIs(0xfc4f_c851, 0xea17_e1ad, 0xaf, 0xdc, 0x36, 0x66, 0xe6, 0x67, 0xa9, 0xfe, 0x100, 0x1000000, 0x49, 0xbb9f98);
    MixIs(0x50a3_fdf8, 0xbb9f_9849, 0xea, 0x17, 0xe1, 0xad, 0x0c, 0x43, 0x96, 0x41, 0x80, 0x2000000, 0x73, 0x5477ec);
  }

  lemma Quarter3A()
    ensures Quarter(Four(0xe45f_d249, 0x2a3b_f673, 0x538d_ca0e, 0x6bbf_8b09)) == Four(0x9c2f_e493, 0x287e_635e, 0x31c4_e711, 0x9a81_b7df)
  {
    hide Mix;
    MixIs(0xe45f_d249, 0x2a3b_f673, 0x6b, 0xbf, 0x8b, 0x09, 0x0e, 0x9b, 0xc8, 0xbc, 0x10000, 0x10000, 0x6524, 0x43b5);
    MixIs(0x538d_ca0e, 0x43b5_6524, 0x2a, 0x3b, 0xf6, 0x73, 0x97, 0x43, 0x2f, 0x32, 0x1000, 0x100000, 0xbd7, 0x8d941);
    MixIs(0x0e9b_c8bc, 0x8d94_1bd7, 0x43, 0xb5, 0x65, 0x24, 0x9c, 0x2f, 0xe4, 0x93, 0x100, 0x1000000, 0xdf, 0x9a81b7);
    MixIs(0x9743_2f32, 0x9a81_b7df, 0x8d, 0x94, 0x1b, 0xd7, 0x31, 0xc4, 0xe7, 0x11, 0x80, 0x2000000, 0x5e, 0x50fcc6);
  }

  lemma Quarter3B()
    ensures Quarter(Four(0x1bb8_20a6, 0x86bf_4098, 0x0c43_9641, 0xc330_13d6)) == Four(0xede8_70d7, 0x2643_df1a, 0x7f3d_8827, 0x0011_909f)
  {
    hide Mix;
    MixIs(0x1bb8_20a6, 0x86bf_4098, 0xc3, 0x30, 0x13, 0xd6, 0xa2, 0x77, 0x61, 0x3e, 0x10000, 0x10000, 0x6147, 0x72e8);
    MixIs(0x0c43_9641, 0x72e8_6147, 0x86, 0xbf, 0x40, 0x98, 0x7f, 0x2b, 0xf7, 0x88, 0x1000, 0x100000, 0xf99, 0x4b710);
    MixIs(0xa277_613e, 0x4b71_0f99, 0x72, 0xe8, 0x61, 0x47, 0xed, 0xe8, 0x70, 0xd7, 0x100, 0x1000000, 0x9f, 0x1190);
    MixIs(0x7f2b_f788, 0x0011_909f, 0x4b, 0x71, 0x0f, 0x99, 0x7f, 0x3d, 0x88, 0x27, 0x80, 0x2000000, 0x1a, 0x4c87be);
  }

  lemma Quarter3C()
    ensures Quarter(Four(0xe31a_88ea, 0x460b_500a, 0x00fa_16bc, 0xbb9f_9849)) == Four(0xf8bd_996f, 0x2a5f_aac7, 0x41c3_7f2e, 0x000b_d5b8)
  {
    hide Mix;
    MixIs(0xe31a_88ea, 0x460b_500a, 0xbb, 0x9f, 0x98, 0x49, 0x29, 0x25, 0xd8, 0xf4, 0x10000, 0x10000, 0x92ba, 0x40bd);
    MixIs(0x00fa_16bc, 0x40bd_92ba, 0x46, 0x0b, 0x50, 0x0a, 0x41, 0xb7, 0xa9, 0x76, 0x1000, 0x100000, 0x7b, 0xcf97c);
    MixIs(0x2925_d8f4, 0xcf97_c07b, 0x40, 0xbd, 0x92, 0xba, 0xf8, 0xbd, 0x99, 0x6f, 0x100, 0x1000000, 0xb8, 0xbd5);
    MixIs(0x41b7_a976, 0x000b_d5b8, 0xcf, 0x97, 0xc0, 0x7b, 0x41, 0xc3, 0x7f, 0x2e, 0x80, 0x2000000, 0x47, 0x54bf55);
  }

  lemma Quarter3D()
    ensures Quarter(Four(0xe667_a9fe, 0xfa16_9886, 0x8a08_812a, 0x87c6_2165)) == Four(0xd784_8403, 0x65f2_f4d2, 0x53cd_a496, 0x65e3_bbb4)
  {
    hide Mix;
    MixIs(0xe667_a9fe, 0xfa16_9886, 0x87, 0xc6, 0x21, 0x65, 0xe0, 0x7e, 0x42, 0x84, 0x10000, 0x10000, 0x67b8, 0x63e1);
    MixIs(0x8a08_812a, 0x63e1_67b8, 0xfa, 0x16, 0x98, 0x86, 0xed, 0xe9, 0xe8, 0xe2, 0x1000, 0x100000, 0x17f, 0xf7064);
    MixIs(0xe07e_4284, 0xf706_417f, 0x63, 0xe1, 0x67, 0xb8, 0xd7, 0x84, 0x84, 0x03, 0x100, 0x1000000, 0xb4, 0x65e3bb);
    MixIs(0xede9_e8e2, 0x65e3_bbb4, 0xf7, 0x06, 0x41, 0x7f, 0x53, 0xcd, 0xa4, 0x96, 0x80, 0x2000000, 0x52, 0xcbe5e9);
  }

  lemma Quarter4A()
    ensures Quarter(Four(0x9c2f_e493, 0x2643_df1a, 0x41c3_7f2e, 0x65e3_bbb4)) == Four(0xb20e_0da6, 0x0e8a_389f, 0xd187_5d88, 0x17aa_36ca)
  {
    hide Mix;
    MixIs(0x9c2f_e493, 0x2643_df1a, 0x65, 0xe3, 0xbb, 0xb4, 0xc2, 0x73, 0xc3, 0xad, 0x10000, 0x10000, 0xa790, 0x7819);
    MixIs(0x41c3_7f2e, 0x7819_a790, 0x26, 0x43, 0xdf, 0x1a, 0xb9, 0xdd, 0x26, 0xbe, 0x1000, 0x100000, 0x9f9, 0xef9a4);
    MixIs(0xc273_c3ad, 0xef9a_49f9, 0x78, 0x19, 0xa7, 0x90, 0xb2, 0x0e, 0x0d, 0xa6, 0x100, 0x1000000, 0xca, 0x17aa36);
    MixIs(0xb9dd_26be, 0x17aa_36ca, 0xef, 0x9a, 0x49, 0xf9, 0xd1, 0x87, 0x5d, 0x88, 0x80, 0x2000000, 0x1f, 0x1d1471);
  }

  lemma Quarter4B()
    ensures Quarter(Four(0xede8_70d7, 0x2a5f_aac7, 0x53cd_a496, 0x9a81_b7df)) == Four(0x2121_9e43, 0x7919_a4b4, 0x602b_b1ec, 0x601c_8a8d)
  {
    hide Mix;
    MixIs(0xede8_70d7, 0x2a5f_aac7, 0x9a, 0x81, 0xb7, 0xdf, 0x18, 0x48, 0x1b, 0x9e, 0x10000, 0x10000, 0x82c9, 0xac41);
    MixIs(0x53cd_a496, 0xac41_82c9, 0x2a, 0x5f, 0xaa, 0xc7, 0x00, 0x0f, 0x27, 0x5f, 0x1000, 0x100000, 0x2a5, 0x8d98);
    MixIs(0x1848_1b9e, 0x08d9_82a5, 0xac, 0x41, 0x82, 0xc9, 0x21, 0x21, 0x9e, 0x43, 0x100, 0x1000000, 0x8d, 0x601c8a);
    MixIs(0x000f_275f, 0x601c_8a8d, 0x08, 0xd9, 0x82, 0xa5, 0x60, 0x2b, 0xb1, 0xec, 0x80, 0x2000000, 0x34, 0xf23349);
  }

  lemma Quarter4C()
    ensures Quarter(Four(0xf8bd_996f, 0x65f2_f4d2, 0x31c4_e711, 0x0011_909f)) == Four(0x79c6_9196, 0x323f_2639, 0x6972_7d19, 0x18cf_3767)
  {
    hide Mix;
    MixIs(0xf8bd_996f, 0x65f2_f4d2, 0x00, 0x11, 0x90, 0x9f, 0x5e, 0xb0, 0x8e, 0x41, 0x10000, 0x10000, 0x5ea1, 0x1ede);
    MixIs(0x31c4_e711, 0x1ede_5ea1, 0x65, 0xf2, 0xf4, 0xd2, 0x50, 0xa3, 0x45, 0xb2, 0x1000, 0x100000, 0x355, 0x1b160);
    MixIs(0x5eb0_8e41, 0x1b16_0355, 0x1e, 0xde, 0x5e, 0xa1, 0x79, 0xc6, 0x91, 0x96, 0x100, 0x1000000, 0x67, 0x18cf37);
    MixIs(0x50a3_45b2, 0x18cf_3767, 0x1b, 0x16, 0x03, 0x55, 0x69, 0x72, 0x7d, 0x19, 0x80, 0x2000000, 0x39, 0x647e4c);
  }

  lemma Quarter4D()
    ensures Quarter(Four(0xd784_8403, 0x287e_635e, 0x7f3d_8827, 0x000b_d5b8)) == Four(0x8eb9_d107, 0x28bf_a54e, 0x12e7_96ec, 0x60d1_0ebc)
  {
    hide Mix;
    MixIs(0xd784_8403, 0x287e_635e, 0x00, 0x0b, 0xd5, 0xb8, 0x00, 0x02, 0xe7, 0x61, 0x10000, 0x10000, 0x9, 0x32d9);
    MixIs(0x7f3d_8827, 0x32d9_0009, 0x28, 0x7e, 0x63, 0x5e, 0xb2, 0x16, 0x88, 0x30, 0x1000, 0x100000, 0x9a6, 0x8eb6e);
    MixIs(0x0002_e761, 0x8eb6_e9a6, 0x32, 0xd9, 0x00, 0x09, 0x8e, 0xb9, 0xd1, 0x07, 0x100, 0x1000000, 0xbc, 0x60d10e);
    MixIs(0xb216_8830, 0x60d1_0ebc, 0x8e, 0xb6, 0xe9, 0xa6, 0x12, 0xe7, 0x96, 0xec, 0x80, 0x2000000, 0x4e, 0x517f4a);
  }

  lemma Quarter5A()
    ensures Quarter(Four(0xb20e_0da6, 0x28bf_a54e, 0x6972_7d19, 0x601c_8a8d)) == Four(0x13f7_fb89, 0x83ec_4004, 0x302d_9015, 0x8e41_582b)
  {
    hide Mix;
    MixIs(0xb20e_0da6, 0x28bf_a54e, 0x60, 0x1c, 0x8a, 0x8d, 0xda, 0xcd, 0xb2, 0xf4, 0x10000, 0x10000, 0xbad1, 0x3879);
    MixIs(0x6972_7d19, 0x3879_bad1, 0x28, 0xbf, 0xa5, 0x4e, 0xa1, 0xec, 0x37, 0xea, 0x1000, 0x100000, 0x895, 0x392a4);
    MixIs(0xdacd_b2f4, 0x392a_4895, 0x38, 0x79, 0xba, 0xd1, 0x13, 0xf7, 0xfb, 0x89, 0x100, 0x1000000, 0x2b, 0x8e4158);
    MixIs(0xa1ec_37ea, 0x8e41_582b, 0x39, 0x2a, 0x48, 0x95, 0x30, 0x2d, 0x90, 0x15, 0x80, 0x2000000, 0x4, 0x107d880);
  }

  lemma Quarter5B()
    ensures Quarter(Four(0x2121_9e43, 0x0e8a_389f, 0x12e7_96ec, 0x18cf_3767)) == Four(0x9f18_d690, 0x911e_b07e, 0x924e_c2ce, 0x9de1_f47e)
  {
    hide Mix;
    MixIs(0x2121_9e43, 0x0e8a_389f, 0x18, 0xcf, 0x37, 0x67, 0x2f, 0xab, 0xd6, 0xe2, 0x10000, 0x10000, 0x3764, 0xe185);
    MixIs(0x12e7_96ec, 0xe185_3764, 0x0e, 0x8a, 0x38, 0x9f, 0xf4, 0x6c, 0xce, 0x50, 0x1000, 0x100000, 0xfae, 0x6f6cf);
    MixIs(0x2fab_d6e2, 0x6f6c_ffae, 0xe1, 0x85, 0x37, 0x64, 0x9f, 0x18, 0xd6, 0x90, 0x100, 0x1000000, 0x7e, 0x9de1f4);
    MixIs(0xf46c_ce50, 0x9de1_f47e, 0x6f, 0x6c, 0xff, 0xae, 0x92, 0x4e, 0xc2, 0xce, 0x80, 0x2000000, 0x7e, 0x1223d60);
  }

  lemma Quarter5C()
    ensures Quarter(Four(0x79c6_9196, 0x7919_a4b4, 0xd187_5d88, 0x60d1_0ebc)) == Four(0x3791_0d80, 0x56bb_ff1b, 0x721d_a0c8, 0x679f_b10f)
  {
    hide Mix;
    MixIs(0x79c6_9196, 0x7919_a4b4, 0x60, 0xd1, 0x0e, 0xbc, 0xf2, 0xe0, 0x36, 0x4a, 0x10000, 0x10000, 0x9231, 0x38f6);
    MixIs(0xd187_5d88, 0x38f6_9231, 0x79, 0x19, 0xa4, 0xb4, 0x0a, 0x7d, 0xef, 0xb9, 0x1000, 0x100000, 0x736, 0x44b0d);
    MixIs(0xf2e0_364a, 0x44b0_d736, 0x38, 0xf6, 0x92, 0x31, 0x37, 0x91, 0x0d, 0x80, 0x100, 0x1000000, 0xf, 0x679fb1);
    MixIs(0x0a7d_efb9, 0x679f_b10f, 0x44, 0xb0, 0xd7, 0x36, 0x72, 0x1d, 0xa0, 0xc8, 0x80, 0x2000000, 0x1b, 0xad77fe);
  }

  lemma Quarter5D()
    ensures Quarter(Four(0x8eb9_d107, 0x323f_2639, 0x602b_b1ec, 0x17aa_36ca)) == Four(0x5be9_6878, 0xc2e1_700f, 0x8575_b3d8, 0x63bf_2a9a)
  {
    hide Mix;
    MixIs(0x8eb9_d107, 0x323f_2639, 0x17, 0xaa, 0x36, 0xca, 0xc0, 0xf8, 0xf7, 0x40, 0x10000, 0x10000, 0xd752, 0xc18a);
    MixIs(0x602b_b1ec, 0xc18a_d752, 0x32, 0x3f, 0x26, 0x39, 0x21, 0xb6, 0x89, 0x3e, 0x1000, 0x100000, 0x138, 0x9af07);
    MixIs(0xc0f8_f740, 0x9af0_7138, 0xc1, 0x8a, 0xd7, 0x52, 0x5b, 0xe9, 0x68, 0x78, 0x100, 0x1000000, 0x9a, 0x63bf2a);
    MixIs(0x21b6_893e, 0x63bf_2a9a, 0x9a, 0xf0, 0x71, 0x38, 0x85, 0x75, 0xb3, 0xd8, 0x80, 0x2000000, 0xf, 0x185c2e0);
  }

  lemma Quarter6A()
    ensures Quarter(Four(0x13f7_fb89, 0x911e_b07e, 0x721d_a0c8, 0x63bf_2a9a)) == Four(0x0287_a2a1, 0x37cc_b7a7, 0x131f_6ff5, 0x1a64_0884)
  {
    hide Mix;
    MixIs(0x13f7_fb89, 0x911e_b07e, 0x63, 0xbf, 0x2a, 0x9a, 0xa5, 0x16, 0xac, 0x07, 0x10000, 0x10000, 0xc6a9, 0x869d);
    MixIs(0x721d_a0c8, 0x869d_c6a9, 0x91, 0x1e, 0xb0, 0x7e, 0xf8, 0xbb, 0x67, 0x71, 0x1000, 0x100000, 0x69a, 0x5d70f);
    MixIs(0xa516_ac07, 0x5d70_f69a, 0x86, 0x9d, 0xc6, 0xa9, 0x02, 0x87, 0xa2, 0xa1, 0x100, 0x1000000, 0x84, 0x1a6408);
    MixIs(0xf8bb_6771, 0x1a64_0884, 0x5d, 0x70, 0xf6, 0x9a, 0x13, 0x1f, 0x6f, 0xf5, 0x80, 0x2000000, 0x27, 0x6f996f);
  }

  lemma Quarter6B()
    ensures Quarter(Four(0x9f18_d690, 0x56bb_ff1b, 0x8575_b3d8, 0x8e41_582b)) == Four(0xd2dc_39ef, 0x1fe6_c459, 0x6f38_a9cc, 0x5c42_7a5f)
  {
    hide Mix;
    MixIs(0x9f18_d690, 0x56bb_ff1b, 0x8e, 0x41, 0x58, 0x2b, 0xf5, 0xd4, 0xd5, 0xab, 0x10000, 0x10000, 0x7b95, 0x8d80);
    MixIs(0x8575_b3d8, 0x8d80_7b95, 0x56, 0xbb, 0xff, 0x1b, 0x12, 0xf6, 0x2f, 0x6d, 0x1000, 0x100000, 0x444, 0xdd076);
    MixIs(0xf5d4_d5ab, 0xdd07_6444, 0x8d, 0x80, 0x7b, 0x95, 0xd2, 0xdc, 0x39, 0xef, 0x100, 0x1000000, 0x5f, 0x5c427a);
    MixIs(0x12f6_2f6d, 0x5c42_7a5f, 0xdd, 0x07, 0x64, 0x44, 0x6f, 0x38, 0xa9, 0xcc, 0x80, 0x2000000, 0x59, 0x3fcd88);
  }

  lemma Quarter6C()
    ensures Quarter(Four(0x3791_0d80, 0xc2e1_700f, 0x302d_9015, 0x9de1_f47e)) == Four(0xf2ec_f51e, 0xe5f9_5617, 0xd7b1_8523, 0x1d92_8d7b)
  {
    hide Mix;
    MixIs(0x3791_0d80, 0xc2e1_700f, 0x9d, 0xe1, 0xf4, 0x7e, 0xfa, 0x72, 0x7d, 0x8f, 0x10000, 0x10000, 0x6793, 0x89f1);
    MixIs(0x302d_9015, 0x89f1_6793, 0xc2, 0xe1, 0x70, 0x0f, 0xba, 0x1e, 0xf7, 0xa8, 0x1000, 0x100000, 0x78f, 0xf87a7);
    MixIs(0xfa72_7d8f, 0xf87a_778f, 0x89, 0xf1, 0x67, 0x93, 0xf2, 0xec, 0xf5, 0x1e, 0x100, 0x1000000, 0x7b, 0x1d928d);
    MixIs(0xba1e_f7a8, 0x1d92_8d7b, 0xf8, 0x7a, 0x77, 0x8f, 0xd7, 0xb1, 0x85, 0x23, 0x80, 0x2000000, 0x17, 0x1cbf2ac);
  }

  lemma Quarter6D()
    ensures Quarter(Four(0x5be9_6878, 0x83ec_4004, 0x924e_c2ce, 0x679f_b10f)) == Four(0xc387_6afe, 0x9276_b821, 0xa095_2ff2, 0xf4d2_b4da)
  {
    hide Mix;
    MixIs(0x5be9_6878, 0x83ec_4004, 0x67, 0x9f, 0xb1, 0x0f, 0xdf, 0xd5, 0xa8, 0x7c, 0x10000, 0x10000, 0xb84a, 0x1973);
    MixIs(0x924e_c2ce, 0x1973_b84a, 0x83, 0xec, 0x40, 0x04, 0xab, 0xc2, 0x7b, 0x18, 0x1000, 0x100000, 0x282, 0xe3b1c);
    MixIs(0xdfd5_a87c, 0xe3b1_c282, 0x19, 0x73, 0xb8, 0x4a, 0xc3, 0x87, 0x6a, 0xfe, 0x100, 0x1000000, 0xda, 0xf4d2b4);
    MixIs(0xabc2_7b18, 0xf4d2_b4da, 0xe3, 0xb1, 0xc2, 0x82, 0xa0, 0x95, 0x2f, 0xf2, 0x80, 0x2000000, 0x21, 0x124ed70);
  }

  lemma Quarter7A()
    ensures Quarter(Four(0x0287_a2a1, 0x9276_b821, 0xd7b1_8523, 0x5c42_7a5f)) == Four(0x345e_4165, 0x4360_2812, 0xbbd9_26f3, 0xc389_d914)
  {
    hide Mix;
    MixIs(0x0287_a2a1, 0x9276_b821, 0x5c, 0x42, 0x7a, 0x5f, 0x94, 0xfe, 0x5a, 0xc2, 0x10000, 0x10000, 0xc8bc, 0x209d);
    MixIs(0xd7b1_8523, 0x209d_c8bc, 0x92, 0x76, 0xb8, 0x21, 0xf8, 0x4f, 0x4d, 0xdf, 0x1000, 0x100000, 0x6a3, 0x9f5fe);
    MixIs(0x94fe_5ac2, 0x9f5f_e6a3, 0x20, 0x9d, 0xc8, 0xbc, 0x34, 0x5e, 0x41, 0x65, 0x100, 0x1000000, 0x14, 0xc389d9);
    MixIs(0xf84f_4ddf, 0xc389_d914, 0x9f, 0x5f, 0xe6, 0xa3, 0xbb, 0xd9, 0x26, 0xf3, 0x80, 0x2000000, 0x12, 0x86c050);
  }

  lemma Quarter7B()
    ensures Quarter(Four(0xd2dc_39ef, 0x37cc_b7a7, 0xa095_2ff2, 0x1d92_8d7b)) == Four(0xf9b1_a43a, 0x9efa_8aca, 0x7a35_47b1, 0x5cb3_0085)
  {
    hide Mix;
    MixIs(0xd2dc_39ef, 0x37cc_b7a7, 0x1d, 0x92, 0x8d, 0x7b, 0x0a, 0xa8, 0xf1, 0x96, 0x10000, 0x10000, 0x173a, 0x7ced);
    MixIs(0xa095_2ff2, 0x7ced_173a, 0x37, 0xcc, 0xb7, 0xa7, 0x1d, 0x82, 0x47, 0x2c, 0x1000, 0x100000, 0x2a4, 0xef08b);
    MixIs(0x0aa8_f196, 0xef08_b2a4, 0x7c, 0xed, 0x17, 0x3a, 0xf9, 0xb1, 0xa4, 0x3a, 0x100, 0x1000000, 0x85, 0x5cb300);
    MixIs(0x1d82_472c, 0x5cb3_0085, 0xef, 0x08, 0xb2, 0xa4, 0x7a, 0x35, 0x47, 0xb1, 0x80, 0x2000000, 0x4a, 0x13df515);
  }

  lemma Quarter7C()
    ensures Quarter(Four(0xf2ec_f51e, 0x1fe6_c459, 0x131f_6ff5, 0xf4d2_b4da)) == Four(0xcbee_ad69, 0x8126_a76e, 0x6418_bebc, 0x434b_68c6)
  {
    hide Mix;
    MixIs(0xf2ec_f51e, 0x1fe6_c459, 0xf4, 0xd2, 0xb4, 0xda, 0x12, 0xd3, 0xb9, 0x77, 0x10000, 0x10000, 0xe601, 0xdad);
    MixIs(0x131f_6ff5, 0x0dad_e601, 0x1f, 0xe6, 0xc4, 0x59, 0x20, 0xcd, 0x55, 0xf6, 0x1000, 0x100000, 0x3f2, 0xb91af);
    MixIs(0x12d3_b977, 0xb91a_f3f2, 0x0d, 0xad, 0xe6, 0x01, 0xcb, 0xee, 0xad, 0x69, 0x100, 0x1000000, 0xc6, 0x434b68);
    MixIs(0x20cd_55f6, 0x434b_68c6, 0xb9, 0x1a, 0xf3, 0xf2, 0x64, 0x18, 0xbe, 0xbc, 0x80, 0x2000000, 0x6e, 0x1024d4e);
  }

  lemma Quarter7D()
    ensures Quarter(Four(0xc387_6afe, 0xe5f9_5617, 0x6f38_a9cc, 0x1a64_0884)) == Four(0xda3b_3ee8, 0xf68a_0869, 0xe357_69c3, 0xaa8d_0c13)
  {
    hide Mix;
    MixIs(0xc387_6afe, 0xe5f9_5617, 0x1a, 0x64, 0x08, 0x84, 0xa9, 0x80, 0xc1, 0x15, 0x10000, 0x10000, 0xb3e4, 0xc991);
    MixIs(0x6f38_a9cc, 0xc991_b3e4, 0xe5, 0xf9, 0x56, 0x17, 0x38, 0xca, 0x5d, 0xb0, 0x1000, 0x100000, 0xdd3, 0x30ba7);
    MixIs(0xa980_c115, 0x30ba_7dd3, 0xc9, 0x91, 0xb3, 0xe4, 0xda, 0x3b, 0x3e, 0xe8, 0x100, 0x1000000, 0x13, 0xaa8d0c);
    MixIs(0x38ca_5db0, 0xaa8d_0c13, 0x30, 0xba, 0x7d, 0xd3, 0xe3, 0x57, 0x69, 0xc3, 0x80, 0x2000000, 0x69, 0x1ed1410);
  }

  lemma Quarter8A()
    ensures Quarter(Four(0x345e_4165, 0x9efa_8aca, 0x6418_bebc, 0xaa8d_0c13)) == Four(0xce7e_87d9, 0x3b7f_9ace, 0x6753_449f, 0x42fe_0c0e)
  {
    hide Mix;
    MixIs(0x345e_4165, 0x9efa_8aca, 0xaa, 0x8d, 0x0c, 0x13, 0xd3, 0x58, 0xcc, 0x2f, 0x10000, 0x10000, 0x79d5, 0xc03c);
    MixIs(0x6418_bebc, 0xc03c_79d5, 0x9e, 0xfa, 0x8a, 0xca, 0x24, 0x55, 0x38, 0x91, 0x1000, 0x100000, 0xbaa, 0xfb25b);
    MixIs(0xd358_cc2f, 0xfb25_bbaa, 0xc0, 0x3c, 0x79, 0xd5, 0xce, 0x7e, 0x87, 0xd9, 0x100, 0x1000000, 0xe, 0x42fe0c);
    MixIs(0x2455_3891, 0x42fe_0c0e, 0xfb, 0x25, 0xbb, 0xaa, 0x67, 0x53, 0x44, 0x9f, 0x80, 0x2000000, 0x4e, 0x76ff35);
  }

  lemma Quarter8B()
    ensures Quarter(Four(0xf9b1_a43a, 0x8126_a76e, 0xe357_69c3, 0xc389_d914)) == Four(0xa31f_fb1b, 0x88e1_1b18, 0x1956_6d45, 0xa342_4a31)
  {
    hide Mix;
    MixIs(0xf9b1_a43a, 0x8126_a76e, 0xc3, 0x89, 0xd9, 0x14, 0x7a, 0xd8, 0x4b, 0xa8, 0x10000, 0x10000, 0xb951, 0x92bc);
    MixIs(0xe357_69c3, 0x92bc_b951, 0x81, 0x26, 0xa7, 0x6e, 0x76, 0x14, 0x23, 0x14, 0x1000, 0x100000, 0xf73, 0x2847a);
    MixIs(0x7ad8_4ba8, 0x2847_af73, 0x92, 0xbc, 0xb9, 0x51, 0xa3, 0x1f, 0xfb, 0x1b, 0x100, 0x1000000, 0x31, 0xa3424a);
    MixIs(0x7614_2314, 0xa342_4a31, 0x28, 0x47, 0xaf, 0x73, 0x19, 0x56, 0x6d, 0x45, 0x80, 0x2000000, 0x18, 0x111c236);
  }

  lemma Quarter8C()
    ensures Quarter(Four(0xcbee_ad69, 0xf68a_0869, 0xbbd9_26f3, 0x5cb3_0085)) == Four(0x6f56_2e4d, 0x1e1a_71ef, 0x72e1_4c98, 0x01b0_86da)
  {
    hide Mix;
    MixIs(0xcbee_ad69, 0xf68a_0869, 0x5c, 0xb3, 0x00, 0x85, 0xc2, 0x78, 0xb5, 0xd2, 0x10000, 0x10000, 0x9ecb, 0xb557);
    MixIs(0xbbd9_26f3, 0xb557_9ecb, 0xf6, 0x8a, 0x08, 0x69, 0x71, 0x30, 0xc5, 0xbe, 0x1000, 0x100000, 0x87b, 0xacdd7);
    MixIs(0xc278_b5d2, 0xacdd_787b, 0xb5, 0x57, 0x9e, 0xcb, 0x6f, 0x56, 0x2e, 0x4d, 0x100, 0x1000000, 0xda, 0x1b086);
    MixIs(0x7130_c5be, 0x01b0_86da, 0xac, 0xdd, 0x78, 0x7b, 0x72, 0xe1, 0x4c, 0x98, 0x80, 0x2000000, 0x6f, 0x3c34e3);
  }

  lemma Quarter8D()
    ensures Quarter(Four(0xda3b_3ee8, 0x4360_2812, 0x7a35_47b1, 0x434b_68c6)) == Four(0x3684_a3ab, 0xc30e_842c, 0x416f_21b9, 0xb8fd_7b38)
  {
    hide Mix;
    MixIs(0xda3b_3ee8, 0x4360_2812, 0x43, 0x4b, 0x68, 0xc6, 0x1d, 0x9b, 0x66, 0xfa, 0x10000, 0x10000, 0x5ed0, 0xe3c);
    MixIs(0x7a35_47b1, 0x0e3c_5ed0, 0x43, 0x60, 0x28, 0x12, 0x88, 0x71, 0xa6, 0x81, 0x1000, 0x100000, 0xcb1, 0x18e93);
    MixIs(0x1d9b_66fa, 0x18e9_3cb1, 0x0e, 0x3c, 0x5e, 0xd0, 0x36, 0x84, 0xa3, 0xab, 0x100, 0x1000000, 0x38, 0xb8fd7b);
    MixIs(0x8871_a681, 0xb8fd_7b38, 0x18, 0xe9, 0x3c, 0xb1, 0x41, 0x6f, 0x21, 0xb9, 0x80, 0x2000000, 0x2c, 0x1861d08);
  }

  // ---------------------------------------------------------------- rounds

  const START: Words :=
    [0x6170_7865, 0x3320_646e, 0x7962_2d32, 0x6b20_6574, 0x0000_0000, 0x0000_0000, 0x0000_0000, 0x0000_0000,
     0x0000_0000, 0x0000_0000, 0x0000_0000, 0x0000_0000, 0x0000_0000, 0x0000_0000, 0x0000_0000, 0x0000_0000]

  const AFTER_1: Words :=
    [0xb787_7feb, 0x1652_6ab4, 0xa0f8_5005, 0xb1d2_6bcb, 0x4a7d_5c86, 0xfae0_ea21, 0x66e1_1e68, 0xe3a8_51a6,
     0x5a83_fd3f, 0xa0c7_c792, 0xf75b_e0ef, 0x0b75_56f4, 0xe21e_9bcf, 0x3c59_9472, 0xca29_678d, 0xa600_ebd4]

  const AFTER_2: Words :=
    [0xe45f_d249, 0x1bb8_20a6, 0xe31a_88ea, 0xe667_a9fe, 0x2a3b_f673, 0x86bf_4098, 0x460b_500a, 0xfa16_9886,
     0x538d_ca0e, 0x0c43_9641, 0x00fa_16bc, 0x8a08_812a, 0x6bbf_8b09, 0xc330_13d6, 0xbb9f_9849, 0x87c6_2165]

  const AFTER_3: Words :=
    [0x9c2f_e493, 0xede8_70d7, 0xf8bd_996f, 0xd784_8403, 0x287e_635e, 0x2643_df1a, 0x2a5f_aac7, 0x65f2_f4d2,
     0x31c4_e711, 0x7f3d_8827, 0x41c3_7f2e, 0x53cd_a496, 0x9a81_b7df, 0x0011_909f, 0x000b_d5b8, 0x65e3_bbb4]

  const AFTER_4: Words :=
    [0xb20e_0da6, 0x2121_9e43, 0x79c6_9196, 0x8eb9_d107, 0x28bf_a54e, 0x0e8a_389f, 0x7919_a4b4, 0x323f_2639,
     0x6972_7d19, 0x12e7_96ec, 0xd187_5d88, 0x602b_b1ec, 0x601c_8a8d, 0x18cf_3767, 0x60d1_0ebc, 0x17aa_36ca]

  const AFTER_5: Words :=
    [0x13f7_fb89, 0x9f18_d690, 0x3791_0d80, 0x5be9_6878, 0x83ec_4004, 0x911e_b07e, 0x56bb_ff1b, 0xc2e1_700f,
     0x302d_9015, 0x924e_c2ce, 0x721d_a0c8, 0x8575_b3d8, 0x8e41_582b, 0x9de1_f47e, 0x679f_b10f, 0x63bf_2a9a]

  const AFTER_6: Words :=
    [0x0287_a2a1, 0xd2dc_39ef, 0xf2ec_f51e, 0xc387_6afe, 0x9276_b821, 0x37cc_b7a7, 0x1fe6_c459, 0xe5f9_5617,
     0xd7b1_8523, 0xa095_2ff2, 0x131f_6ff5, 0x6f38_a9cc, 0x5c42_7a5f, 0x1d92_8d7b, 0xf4d2_b4da, 0x1a64_0884]

  const AFTER_7: Words :=
    [0x345e_4165, 0xf9b1_a43a, 0xcbee_ad69, 0xda3b_3ee8, 0x4360_2812, 0x9efa_8aca, 0x8126_a76e, 0xf68a_0869,
     0xbbd9_26f3, 0x7a35_47b1, 0x6418_bebc, 0xe357_69c3, 0xc389_d914, 0x5cb3_0085, 0x434b_68c6, 0xaa8d_0c13]

  const AFTER_8: Words :=
    [0xce7e_87d9, 0xa31f_fb1b, 0x6f56_2e4d, 0x3684_a3ab, 0xc30e_842c, 0x3b7f_9ace, 0x88e1_1b18, 0x1e1a_71ef,
     0x72e1_4c98, 0x416f_21b9, 0x6753_449f, 0x1956_6d45, 0xa342_4a31, 0x01b0_86da, 0xb8fd_7b38, 0x42fe_0c0e]

  lemma Round1()
    ensures ColumnRound(START) == AFTER_1
  {
    hide Quarter;
    Quarter1A();
    Quarter1B();
    Quarter1C();
    Quarter1D();
  }

  lemma Round2()
    ensures DiagonalRound(AFTER_1) == AFTER_2
  {
    hide Quarter;
    Quarter2A();
    Quarter2B();
    Quarter2C();
    Quarter2D();
  }

  lemma Round3()
    ensures ColumnRound(AFTER_2) == AFTER_3
  {
    hide Quarter;
    Quarter3A();
    Quarter3B();
    Quarter3C();
    Quarter3D();
  }

  lemma Round4()
    ensures DiagonalRound(AFTER_3) == AFTER_4
  {
    hide Quarter;
    Quarter4A();
    Quarter4B();
    Quarter4C();
    Quarter4D();
  }

  lemma Round5()
    ensures ColumnRound(AFTER_4) == AFTER_5
  {
    hide Quarter;
    Quarter5A();
    Quarter5B();
    Quarter5C();
    Quarter5D();
  }

  lemma Round6()
    ensures DiagonalRound(AFTER_5) == AFTER_6
  {
    hide Quarter;
    Quarter6A();
    Quarter6B();
    Quarter6C();
    Quarter6D();
  }

  lemma Round7()
    ensures ColumnRound(AFTER_6) == AFTER_7
  {
    hide Quarter;
    Quarter7A();
    Quarter7B();
    Quarter7C();
    Quarter7D();
  }

  lemma Round8()
    ensures DiagonalRound(AFTER_7) == AFTER_8
  {
    hide Quarter;
    Quarter8A();
    Quarter8B();
    Quarter8C();
    Quarter8D();
  }

  const OUTPUT: Words :=
    [0x2fef_003e, 0xd640_5f89, 0xe8b8_5b7f, 0xa1a5_091f, 0xc30e_842c, 0x3b7f_9ace, 0x88e1_1b18, 0x1e1a_71ef,
     0x72e1_4c98, 0x416f_21b9, 0x6753_449f, 0x1956_6d45, 0xa342_4a31, 0x01b0_86da, 0xb8fd_7b38, 0x42fe_0c0e]

  lemma EightRounds()
    ensures Rounds(START, 4) == AFTER_8
  {
    hide ColumnRound, DiagonalRound;
    Round1();
    Round2();
    Round3();
    Round4();
    Round5();
    Round6();
    Round7();
    Round8();
    assert Rounds(START, 1) == AFTER_2;
    assert Rounds(START, 2) == AFTER_4;
    assert Rounds(START, 3) == AFTER_6;
  }

  lemma OutputWords()
    ensures Sum(AFTER_8, START) == OUTPUT
  {
  }

  lemma OutputBytes()
    ensures var b := Serialized(OUTPUT); b[0] == 0x3e && b[1] == 0x00 && b[2] == 0xef && b[3] == 0x2f
    ensures var b := Serialized(OUTPUT); b[4] == 0x89 && b[5] == 0x5f && b[6] == 0x40 && b[7] == 0xd6
  {
    hide ByteOf;
    assert OUTPUT[0] == WordOf(0x3e, 0x00, 0xef, 0x2f) && OUTPUT[1] == WordOf(0x89, 0x5f, 0x40, 0xd6);
    WordBytes(0x3e, 0x00, 0xef, 0x2f);
    WordBytes(0x89, 0x5f, 0x40, 0xd6);
  }

  lemma ZerosLoaded(z: seq<byte>, n: nat)
    requires 4 * n + 4 <= |z| && forall k :: 0 <= k < |z| ==> z[k] == 0
    ensures Load(z, 4 * n) == 0
  {
  }

  lemma SigmaLoaded()
    ensures Load(SIGMA, 0) == START[0] && Load(SIGMA, 4) == START[1] && Load(SIGMA, 8) == START[2] && Load(SIGMA, 12) == START[3]
  {
  }

  lemma StartWords()
    ensures Start(seq(32, _ => 0), [0, 0, 0, 0, 0, 0, 0, 0]) == START
  {
    hide Load;
    var key, iv: seq<byte> := seq(32, _ => 0), [0, 0, 0, 0, 0, 0, 0, 0];
    SigmaLoaded();
    forall n: nat | n < 8 ensures LoadAll(key)[n] == 0 {
      ZerosLoaded(key, n);
    }
    forall n: nat | n < 2 ensures LoadAll(iv)[n] == 0 {
      ZerosLoaded(iv, n);
    }
  }

  lemma FirstBlock()
    ensures Block(START) == Serialized(OUTPUT)
  {
    hide Rounds, Sum, Serialized;
    EightRounds();
    OutputWords();
  }

  lemma KeyBytesOfStart(s: Words, i: nat)
    requires i < 64
    ensures KeyByte(s, i) == Block(s)[i]
  {
    hide Block;
    assert Advance(s, 0) == s;
  }

  /** With a key and a nonce of zeros the key stream begins with these words, low byte
      first: 3e 00 ef 2f 89 5f 40 d6 and so on. */
  lemma FirstBlockAnswer()
    ensures var s := Start(seq(32, _ => 0), [0, 0, 0, 0, 0, 0, 0, 0]);
      && (forall i :: 0 <= i < 64 ==> KeyByte(s, i) == Serialized(OUTPUT)[i])
      && KeyByte(s, 0) == 0x3e && KeyByte(s, 1) == 0x00 && KeyByte(s, 2) == 0xef && KeyByte(s, 3) == 0x2f
      && KeyByte(s, 4) == 0x89 && KeyByte(s, 5) == 0x5f && KeyByte(s, 6) == 0x40 && KeyByte(s, 7) == 0xd6
  {
    hide Start, Block, Serialized, KeyByte;
    StartWords();
    FirstBlock();
    OutputBytes();
    forall i: nat | i < 64 ensures KeyByte(START, i) == Serialized(OUTPUT)[i] {
      KeyBytesOfStart(START, i);
    }
  }
}

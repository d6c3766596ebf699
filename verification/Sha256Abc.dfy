/**
 The published digest of "abc", computed with the model. It fixes the rotations and shifts, the order of the
 working variables and of the bytes, and the hexadecimal text, which no equation between model and code can.
 */
module Sha256Abc {
  import opened Bytes
  import opened Sha256
  import opened Sha256Constants

  predicate Parts(e: bv32, f: bv32, g: bv32, a: bv32, b: bv32, c: bv32,
                  sigma1: bv32, choice: bv32, sigma0: bv32, majority: bv32)
  {
    BigSigma1(e) == sigma1 && Choice(e, f, g) == choice && BigSigma0(a) == sigma0 && Majority(a, b, c) == majority
  }

  /** The two working variables that a round computes. */
  predicate Turned(s: Working, a: bv32, e: bv32) {
    s.a.bits == a && s.e.bits == e
  }

  // ---- The rounds, four at a time.

  lemma Parts0To3()
    ensures Parts(0x510e527f, 0x9b05688c, 0x1f83d9ab, 0x6a09e667, 0xbb67ae85, 0x3c6ef372, 0x3587272b, 0x1f85c98c,
                  0xce20b47e, 0x3a6fe667)
    ensures Parts(0xfa2a4622, 0x510e527f, 0x9b05688c, 0x5d6aebcd, 0x6a09e667, 0xbb67ae85, 0x5a94fd2d, 0x510f6aae,
                  0xa29f64d1, 0x7b6beec5)
    ensures Parts(0x78ce7989, 0xfa2a4622, 0x510e527f, 0x5a6ad9ad, 0x5d6aebcd, 0x6a09e667, 0x73f0e495, 0x790a4276,
                  0x3096d054, 0x5a6aebed)
    ensures Parts(0xf92939eb, 0x78ce7989, 0xfa2a4622, 0xc8c347a7, 0x5a6ad9ad, 0x5d6aebcd, 0x0607743c, 0x7a0a7f89,
                  0xc21008d0, 0x586acbad)
  {
  }

  lemma Rounds0To3(s: Working, w: seq<Word>)
    requires |w| == 64
    requires Rounds(s, w, 0) == Working(Word(0x6a09e667), Word(0xbb67ae85), Word(0x3c6ef372), Word(0xa54ff53a),
             Word(0x510e527f), Word(0x9b05688c), Word(0x1f83d9ab), Word(0x5be0cd19))
    requires w[0..4] == [Word(0x61626380), Word(0x00000000), Word(0x00000000), Word(0x00000000)]
    ensures Rounds(s, w, 4) == Working(Word(0xd550f666), Word(0xc8c347a7), Word(0x5a6ad9ad), Word(0x5d6aebcd),
            Word(0x24e00850), Word(0xf92939eb), Word(0x78ce7989), Word(0xfa2a4622))
  {
    hide BigSigma1, BigSigma0, Choice, Majority, RoundNumber, WordOf, SameBits;
    Parts0To3();
    Numbers0To7();
    Words0To7();
    SameWord(0x428a2f98, 0x428a2f98);
    assert w[0] == w[0..4][0] && Turned(Rounds(s, w, 1), 0x5d6aebcd, 0xfa2a4622);
    SameWord(0x71374491, 0x71374491);
    assert w[1] == w[0..4][1] && Turned(Rounds(s, w, 2), 0x5a6ad9ad, 0x78ce7989);
    SameWord(0xb5c0fbcf, 0xb5c0fbcf);
    assert w[2] == w[0..4][2] && Turned(Rounds(s, w, 3), 0xc8c347a7, 0xf92939eb);
    SameWord(0xe9b5dba5, 0xe9b5dba5);
    assert w[3] == w[0..4][3] && Turned(Rounds(s, w, 4), 0xd550f666, 0x24e00850);
  }

  lemma Parts4To7()
    ensures Parts(0x24e00850, 0xf92939eb, 0x78ce7989, 0xd550f666, 0xc8c347a7, 0x5a6ad9ad, 0x3a933432, 0x782e79c9,
                  0x45bb0c4b, 0xd842d7a7)
    ensures Parts(0x43ada245, 0x24e00850, 0xf92939eb, 0x04409a6a, 0xd550f666, 0xc8c347a7, 0x8b77e19c, 0xb8a019ea,
                  0x5029ac8f, 0xc440d666)
    ensures Parts(0x714260ad, 0x43ada245, 0x24e00850, 0x2b4209f5, 0x04409a6a, 0xd550f666, 0x015b7776, 0x45a02855,
                  0x0d5e0cc0, 0x05409a66)
    ensures Parts(0x9b27a401, 0x714260ad, 0x43ada245, 0xe5030380, 0x2b4209f5, 0x04409a6a, 0x158dfaa9, 0x518a2245,
                  0x2949eb6c, 0x25420be0)
  {
  }

  lemma Rounds4To7(s: Working, w: seq<Word>)
    requires |w| == 64
    requires Rounds(s, w, 4) == Working(Word(0xd550f666), Word(0xc8c347a7), Word(0x5a6ad9ad), Word(0x5d6aebcd),
             Word(0x24e00850), Word(0xf92939eb), Word(0x78ce7989), Word(0xfa2a4622))
    requires w[4..8] == [Word(0x00000000), Word(0x00000000), Word(0x00000000), Word(0x00000000)]
    ensures Rounds(s, w, 8) == Working(Word(0x85a07b5f), Word(0xe5030380), Word(0x2b4209f5), Word(0x04409a6a),
            Word(0x0c657a79), Word(0x9b27a401), Word(0x714260ad), Word(0x43ada245))
  {
    hide BigSigma1, BigSigma0, Choice, Majority, RoundNumber, WordOf, SameBits;
    Parts4To7();
    Numbers0To7();
    Words0To7();
    SameWord(0x3956c25b, 0x3956c25b);
    assert w[4] == w[4..8][0] && Turned(Rounds(s, w, 5), 0x04409a6a, 0x43ada245);
    SameWord(0x59f111f1, 0x59f111f1);
    assert w[5] == w[4..8][1] && Turned(Rounds(s, w, 6), 0x2b4209f5, 0x714260ad);
    SameWord(0x923f82a4, 0x923f82a4);
    assert w[6] == w[4..8][2] && Turned(Rounds(s, w, 7), 0xe5030380, 0x9b27a401);
    SameWord(0xab1c5ed5, 0xab1c5ed5);
    assert w[7] == w[4..8][3] && Turned(Rounds(s, w, 8), 0x85a07b5f, 0x0c657a79);
  }

  lemma Parts8To11()
    ensures Parts(0x0c657a79, 0x9b27a401, 0x714260ad, 0x85a07b5f, 0xe5030380, 0x2b4209f5, 0x99ad25c0, 0x79272085,
                  0xba794dc2, 0xa5020bd5)
    ensures Parts(0x32ca2d8c, 0x0c657a79, 0x9b27a401, 0x8e04ecb9, 0x85a07b5f, 0xe5030380, 0xe45bb7ea, 0x8965a809,
                  0x15ffad31, 0x85006b99)
    ensures Parts(0x1cc92596, 0x32ca2d8c, 0x0c657a79, 0x8c87346b, 0x8e04ecb9, 0x85a07b5f, 0x8e2276bc, 0x10ec7fed,
                  0x5cac0711, 0x8c847c7b)
    ensures Parts(0x436b23e8, 0x1cc92596, 0x32ca2d8c, 0x4798a3f4, 0x8c87346b, 0x8e04ecb9, 0x699435ca, 0x30c92d84,
                  0x6ccbc526, 0x8e84a4f9)
  {
  }

  lemma Rounds8To11(s: Working, w: seq<Word>)
    requires |w| == 64
    requires Rounds(s, w, 8) == Working(Word(0x85a07b5f), Word(0xe5030380), Word(0x2b4209f5), Word(0x04409a6a),
             Word(0x0c657a79), Word(0x9b27a401), Word(0x714260ad), Word(0x43ada245))
    requires w[8..12] == [Word(0x00000000), Word(0x00000000), Word(0x00000000), Word(0x00000000)]
    ensures Rounds(s, w, 12) == Working(Word(0xf71fc5a9), Word(0x4798a3f4), Word(0x8c87346b), Word(0x8e04ecb9),
            Word(0x816fd6e9), Word(0x436b23e8), Word(0x1cc92596), Word(0x32ca2d8c))
  {
    hide BigSigma1, BigSigma0, Choice, Majority, RoundNumber, WordOf, SameBits;
    Parts8To11();
    Numbers8To15();
    Words8To15();
    SameWord(0xd807aa98, 0xd807aa98);
    assert w[8] == w[8..12][0] && Turned(Rounds(s, w, 9), 0x8e04ecb9, 0x32ca2d8c);
    SameWord(0x12835b01, 0x12835b01);
    assert w[9] == w[8..12][1] && Turned(Rounds(s, w, 10), 0x8c87346b, 0x1cc92596);
    SameWord(0x243185be, 0x243185be);
    assert w[10] == w[8..12][2] && Turned(Rounds(s, w, 11), 0x4798a3f4, 0x436b23e8);
    SameWord(0x550c7dc3, 0x550c7dc3);
    assert w[11] == w[8..12][3] && Turned(Rounds(s, w, 12), 0xf71fc5a9, 0x816fd6e9);
  }

  lemma Parts12To15()
    ensures Parts(0x816fd6e9, 0x436b23e8, 0x1cc92596, 0xf71fc5a9, 0x4798a3f4, 0x8c87346b, 0xccdee661, 0x1deb23fe,
                  0x2f9eee48, 0xc79fa5e9)
    ensures Parts(0x1e578218, 0x816fd6e9, 0x436b23e8, 0x87912990, 0xf71fc5a9, 0x4798a3f4, 0x08bb98f7, 0x416fa3e8,
                  0x29c634f3, 0xc799a1b0)
    ensures Parts(0x745a48de, 0x1e578218, 0x816fd6e9, 0xd932eb16, 0x87912990, 0xf71fc5a9, 0x4f3b8d50, 0x95779639,
                  0x25562836, 0xd713e990)
    ensures Parts(0x0b92f20c, 0x745a48de, 0x1e578218, 0xc0645fde, 0xd932eb16, 0x87912990, 0xb8d63f93, 0x1457401c,
                  0xdf906fd4, 0xc1306b96)
  {
  }

  lemma Rounds12To15(s: Working, w: seq<Word>)
    requires |w| == 64
    requires Rounds(s, w, 12) == Working(Word(0xf71fc5a9), Word(0x4798a3f4), Word(0x8c87346b), Word(0x8e04ecb9),
             Word(0x816fd6e9), Word(0x436b23e8), Word(0x1cc92596), Word(0x32ca2d8c))
    requires w[12..16] == [Word(0x00000000), Word(0x00000000), Word(0x00000000), Word(0x00000018)]
    ensures Rounds(s, w, 16) == Working(Word(0xb0fa238e), Word(0xc0645fde), Word(0xd932eb16), Word(0x87912990),
            Word(0x07590dcd), Word(0x0b92f20c), Word(0x745a48de), Word(0x1e578218))
  {
    hide BigSigma1, BigSigma0, Choice, Majority, RoundNumber, WordOf, SameBits;
    Parts12To15();
    Numbers8To15();
    Words8To15();
    SameWord(0x72be5d74, 0x72be5d74);
    assert w[12] == w[12..16][0] && Turned(Rounds(s, w, 13), 0x87912990, 0x1e578218);
    SameWord(0x80deb1fe, 0x80deb1fe);
    assert w[13] == w[12..16][1] && Turned(Rounds(s, w, 14), 0xd932eb16, 0x745a48de);
    SameWord(0x9bdc06a7, 0x9bdc06a7);
    assert w[14] == w[12..16][2] && Turned(Rounds(s, w, 15), 0xc0645fde, 0x0b92f20c);
    SameWord(0xc19bf174, 0xc19bf174);
    assert w[15] == w[12..16][3] && Turned(Rounds(s, w, 16), 0xb0fa238e, 0x07590dcd);
  }

  lemma Parts16To19()
    ensures Parts(0x07590dcd, 0x0b92f20c, 0x745a48de, 0xb0fa238e, 0xc0645fde, 0xd932eb16, 0x213b6995, 0x7312401e,
                  0x58c535f1, 0xd0726b9e)
    ensures Parts(0x8034229c, 0x07590dcd, 0x0b92f20c, 0x21da9a9b, 0xb0fa238e, 0xc0645fde, 0x3b81984e, 0x0b92d08c,
                  0x76c5c4f5, 0xa0fa1b9e)
    ensures Parts(0x846ee454, 0x8034229c, 0x07590dcd, 0xc2fbd9d1, 0x21da9a9b, 0xb0fa238e, 0xeff31c0f, 0x8335299d,
                  0x5157a6a1, 0xa0fa9b9b)
    ensures Parts(0xcc899961, 0x846ee454, 0x8034229c, 0xfe777bbf, 0xc2fbd9d1, 0x21da9a9b, 0xefc707b0, 0x843ca2dc,
                  0xff8cd2ad, 0xe2fbdb9b)
  {
  }

  lemma Rounds16To19(s: Working, w: seq<Word>)
    requires |w| == 64
    requires Rounds(s, w, 16) == Working(Word(0xb0fa238e), Word(0xc0645fde), Word(0xd932eb16), Word(0x87912990),
             Word(0x07590dcd), Word(0x0b92f20c), Word(0x745a48de), Word(0x1e578218))
    requires w[16..20] == [Word(0x61626380), Word(0x000f0000), Word(0x7da86405), Word(0x600003c6)]
    ensures Rounds(s, w, 20) == Working(Word(0xe1f20c33), Word(0xfe777bbf), Word(0xc2fbd9d1), Word(0x21da9a9b),
            Word(0xb0638179), Word(0xcc899961), Word(0x846ee454), Word(0x8034229c))
  {
    hide BigSigma1, BigSigma0, Choice, Majority, RoundNumber, WordOf, SameBits;
    Parts16To19();
    Numbers16To23();
    Words16To23();
    SameWord(0xe49b69c1, 0xe49b69c1);
    assert w[16] == w[16..20][0] && Turned(Rounds(s, w, 17), 0x21da9a9b, 0x8034229c);
    SameWord(0xefbe4786, 0xefbe4786);
    assert w[17] == w[16..20][1] && Turned(Rounds(s, w, 18), 0xc2fbd9d1, 0x846ee454);
    SameWord(0x0fc19dc6, 0x0fc19dc6);
    assert w[18] == w[16..20][2] && Turned(Rounds(s, w, 19), 0xfe777bbf, 0xcc899961);
    SameWord(0x240ca1cc, 0x240ca1cc);
    assert w[19] == w[16..20][3] && Turned(Rounds(s, w, 20), 0xe1f20c33, 0xb0638179);
  }

  lemma Parts20To23()
    ensures Parts(0xb0638179, 0xcc899961, 0x846ee454, 0xe1f20c33, 0xfe777bbf, 0xc2fbd9d1, 0xf8373ead, 0x840de565,
                  0x51d3431b, 0xe2f359b3)
    ensures Parts(0x8ada8930, 0xb0638179, 0xcc899961, 0x9dc68b63, 0xe1f20c33, 0xfe777bbf, 0x897ea930, 0xc4439171,
                  0xa640c29b, 0xfdf60b33)
    ensures Parts(0xe1257970, 0x8ada8930, 0xb0638179, 0xc2606d6d, 0x9dc68b63, 0xe1f20c33, 0x7f24093a, 0x90428939,
                  0x9a43bf51, 0xc1e20d63)
    ensures Parts(0x49f5114a, 0xe1257970, 0x8ada8930, 0xa7a3623f, 0xc2606d6d, 0x9dc68b63, 0xfae64fc3, 0xc32f9970,
                  0x759d1b0a, 0x87e26b6f)
  {
  }

  lemma Rounds20To23(s: Working, w: seq<Word>)
    requires |w| == 64
    requires Rounds(s, w, 20) == Working(Word(0xe1f20c33), Word(0xfe777bbf), Word(0xc2fbd9d1), Word(0x21da9a9b),
             Word(0xb0638179), Word(0xcc899961), Word(0x846ee454), Word(0x8034229c))
    requires w[20..24] == [Word(0x3e9d7b78), Word(0x0183fc00), Word(0x12dcbfdb), Word(0xe2e2c38e)]
    ensures Rounds(s, w, 24) == Working(Word(0xc5d53d8d), Word(0xa7a3623f), Word(0xc2606d6d), Word(0x9dc68b63),
            Word(0xaa47c347), Word(0x49f5114a), Word(0xe1257970), Word(0x8ada8930))
  {
    hide BigSigma1, BigSigma0, Choice, Majority, RoundNumber, WordOf, SameBits;
    Parts20To23();
    Numbers16To23();
    Words16To23();
    SameWord(0x2de92c6f, 0x2de92c6f);
    assert w[20] == w[20..24][0] && Turned(Rounds(s, w, 21), 0x9dc68b63, 0x8ada8930);
    SameWord(0x4a7484aa, 0x4a7484aa);
    assert w[21] == w[20..24][1] && Turned(Rounds(s, w, 22), 0xc2606d6d, 0xe1257970);
    SameWord(0x5cb0a9dc, 0x5cb0a9dc);
    assert w[22] == w[20..24][2] && Turned(Rounds(s, w, 23), 0xa7a3623f, 0x49f5114a);
    SameWord(0x76f988da, 0x76f988da);
    assert w[23] == w[20..24][3] && Turned(Rounds(s, w, 24), 0xc5d53d8d, 0xaa47c347);
  }

  lemma Parts24To27()
    ensures Parts(0xaa47c347, 0x49f5114a, 0xe1257970, 0xc5d53d8d, 0xa7a3623f, 0xc2606d6d, 0x55bdf420, 0x49653972,
                  0xc9ed56dd, 0xc7e16d2d)
    ensures Parts(0x2823ef91, 0xaa47c347, 0x49f5114a, 0x1c2c2838, 0xc5d53d8d, 0xa7a3623f, 0xa7724357, 0x69d7d34b,
                  0xf66b0b1f, 0x85a5283d)
    ensures Parts(0x14383d8e, 0x2823ef91, 0xaa47c347, 0xcde8037d, 0x1c2c2838, 0xc5d53d8d, 0x958ca0fb, 0xaa67efc1,
                  0xc89998a8, 0xcdec293d)
    ensures Parts(0xc74c6516, 0x14383d8e, 0x2823ef91, 0xb62ec4bc, 0xcde8037d, 0x1c2c2838, 0x5ff7537b, 0x2c2baf87,
                  0xb37cf281, 0x9c2c003c)
  {
  }

  lemma Rounds24To27(s: Working, w: seq<Word>)
    requires |w| == 64
    requires Rounds(s, w, 24) == Working(Word(0xc5d53d8d), Word(0xa7a3623f), Word(0xc2606d6d), Word(0x9dc68b63),
             Word(0xaa47c347), Word(0x49f5114a), Word(0xe1257970), Word(0x8ada8930))
    requires w[24..28] == [Word(0xc8215c1a), Word(0xb73679a2), Word(0xe5bc3909), Word(0x32663c5b)]
    ensures Rounds(s, w, 28) == Working(Word(0x77d37528), Word(0xb62ec4bc), Word(0xcde8037d), Word(0x1c2c2838),
            Word(0xedffbff8), Word(0xc74c6516), Word(0x14383d8e), Word(0x2823ef91))
  {
    hide BigSigma1, BigSigma0, Choice, Majority, RoundNumber, WordOf, SameBits;
    Parts24To27();
    Numbers24To31();
    Words24To31();
    SameWord(0x983e5152, 0x983e5152);
    assert w[24] == w[24..28][0] && Turned(Rounds(s, w, 25), 0x1c2c2838, 0x2823ef91);
    SameWord(0xa831c66d, 0xa831c66d);
    assert w[25] == w[24..28][1] && Turned(Rounds(s, w, 26), 0xcde8037d, 0x14383d8e);
    SameWord(0xb00327c8, 0xb00327c8);
    assert w[26] == w[24..28][2] && Turned(Rounds(s, w, 27), 0xb62ec4bc, 0xc74c6516);
    SameWord(0xbf597fc7, 0xbf597fc7);
    assert w[27] == w[24..28][3] && Turned(Rounds(s, w, 28), 0x77d37528, 0xedffbff8);
  }

  lemma Parts28To31()
    ensures Parts(0xedffbff8, 0xc74c6516, 0x14383d8e, 0x77d37528, 0xb62ec4bc, 0xcde8037d, 0xe375bd7e, 0xd54c2516,
                  0xf963c20e, 0xf7ea453c)
    ensures Parts(0x6112a3b7, 0xedffbff8, 0xc74c6516, 0x363482c9, 0x77d37528, 0xb62ec4bc, 0x2239b36a, 0xe75ee7b0,
                  0x89cfb5ce, 0x3636c4a8)
    ensures Parts(0xade79437, 0x6112a3b7, 0xedffbff8, 0xa0060b30, 0x363482c9, 0x77d37528, 0xab883974, 0x611aabff,
                  0x69a8407c, 0x36160328)
    ensures Parts(0x0109ab3a, 0xade79437, 0x6112a3b7, 0xea992a22, 0xa0060b30, 0x363482c9, 0x0b919a99, 0x611380b7,
                  0x8f1995eb, 0xa2140a20)
  {
  }

  lemma Rounds28To31(s: Working, w: seq<Word>)
    requires |w| == 64
    requires Rounds(s, w, 28) == Working(Word(0x77d37528), Word(0xb62ec4bc), Word(0xcde8037d), Word(0x1c2c2838),
             Word(0xedffbff8), Word(0xc74c6516), Word(0x14383d8e), Word(0x2823ef91))
    requires w[28..32] == [Word(0x9d209d67), Word(0xec8726cb), Word(0x702138a4), Word(0xd3b7973b)]
    ensures Rounds(s, w, 32) == Working(Word(0x73b33bf5), Word(0xea992a22), Word(0xa0060b30), Word(0x363482c9),
            Word(0xba591112), Word(0x0109ab3a), Word(0xade79437), Word(0x6112a3b7))
  {
    hide BigSigma1, BigSigma0, Choice, Majority, RoundNumber, WordOf, SameBits;
    Parts28To31();
    Numbers24To31();
    Words24To31();
    SameWord(0xc6e00bf3, 0xc6e00bf3);
    assert w[28] == w[28..32][0] && Turned(Rounds(s, w, 29), 0x363482c9, 0x6112a3b7);
    SameWord(0xd5a79147, 0xd5a79147);
    assert w[29] == w[28..32][1] && Turned(Rounds(s, w, 30), 0xa0060b30, 0xade79437);
    SameWord(0x06ca6351, 0x06ca6351);
    assert w[30] == w[28..32][2] && Turned(Rounds(s, w, 31), 0xea992a22, 0x0109ab3a);
    SameWord(0x14292967, 0x14292967);
    assert w[31] == w[28..32][3] && Turned(Rounds(s, w, 32), 0x73b33bf5, 0xba591112);
  }

  lemma Parts32To35()
    ensures Parts(0xba591112, 0x0109ab3a, 0xade79437, 0x73b33bf5, 0xea992a22, 0xa0060b30, 0x4436a63b, 0x05af8537,
                  0x4fa886aa, 0xe2932b30)
    ensures Parts(0x9cd9f5f6, 0xba591112, 0x0109ab3a, 0x98e12507, 0x73b33bf5, 0xea992a22, 0x085a07a7, 0x99591b1a,
                  0x4a90902b, 0xfab12b27)
    ensures Parts(0x59249dd3, 0x9cd9f5f6, 0xba591112, 0xfe604df5, 0x98e12507, 0x73b33bf5, 0x65415f48, 0xba5995d2,
                  0x91003786, 0xfae12df5)
    ensures Parts(0x085f3833, 0x59249dd3, 0x9cd9f5f6, 0xa9a7738c, 0xfe604df5, 0x98e12507, 0xe5dc6e83, 0x9c84ddd7,
                  0x2bc2a37e, 0xb8e16585)
  {
  }

  lemma Rounds32To35(s: Working, w: seq<Word>)
    requires |w| == 64
    requires Rounds(s, w, 32) == Working(Word(0x73b33bf5), Word(0xea992a22), Word(0xa0060b30), Word(0x363482c9),
             Word(0xba591112), Word(0x0109ab3a), Word(0xade79437), Word(0x6112a3b7))
    requires w[32..36] == [Word(0x93f5997f), Word(0x3b68ba73), Word(0xaff4ffc1), Word(0xf10a5c62)]
    ensures Rounds(s, w, 36) == Working(Word(0x65a0cfe4), Word(0xa9a7738c), Word(0xfe604df5), Word(0x98e12507),
            Word(0xf4b002d6), Word(0x085f3833), Word(0x59249dd3), Word(0x9cd9f5f6))
  {
    hide BigSigma1, BigSigma0, Choice, Majority, RoundNumber, WordOf, SameBits;
    Parts32To35();
    Numbers32To39();
    Words32To39();
    SameWord(0x27b70a85, 0x27b70a85);
    assert w[32] == w[32..36][0] && Turned(Rounds(s, w, 33), 0x98e12507, 0x9cd9f5f6);
    SameWord(0x2e1b2138, 0x2e1b2138);
    assert w[33] == w[32..36][1] && Turned(Rounds(s, w, 34), 0xfe604df5, 0x59249dd3);
    SameWord(0x4d2c6dfc, 0x4d2c6dfc);
    assert w[34] == w[32..36][2] && Turned(Rounds(s, w, 35), 0xa9a7738c, 0x085f3833);
    SameWord(0x53380d13, 0x53380d13);
    assert w[35] == w[32..36][3] && Turned(Rounds(s, w, 36), 0x65a0cfe4, 0xf4b002d6);
  }

  lemma Parts36To39()
    ensures Parts(0xf4b002d6, 0x085f3833, 0x59249dd3, 0x65a0cfe4, 0xa9a7738c, 0xfe604df5, 0x590d3d71, 0x09149d13,
                  0xe5748f69, 0xeda04fe4)
    ensures Parts(0x0772a26b, 0xf4b002d6, 0x085f3833, 0x41a65cb1, 0x65a0cfe4, 0xa9a7738c, 0x582c115e, 0x0c3d1a52,
                  0x2c915f18, 0x61a65fa4)
    ensures Parts(0xa507a53d, 0x0772a26b, 0xf4b002d6, 0x34df1604, 0x41a65cb1, 0x65a0cfe4, 0xd2f220b2, 0x55b2a2eb,
                  0xc14e73aa, 0x65a65ea4)
    ensures Parts(0xf0781bc8, 0xa507a53d, 0x0772a26b, 0x6dc57a8a, 0x34df1604, 0x41a65cb1, 0x66d20b14, 0xa702a12b,
                  0x5ac8193e, 0x65c75e80)
  {
  }

  lemma Rounds36To39(s: Working, w: seq<Word>)
    requires |w| == 64
    requires Rounds(s, w, 36) == Working(Word(0x65a0cfe4), Word(0xa9a7738c), Word(0xfe604df5), Word(0x98e12507),
             Word(0xf4b002d6), Word(0x085f3833), Word(0x59249dd3), Word(0x9cd9f5f6))
    requires w[36..40] == [Word(0x0a8b3996), Word(0x72af830a), Word(0x9409e33e), Word(0x24641522)]
    ensures Rounds(s, w, 40) == Working(Word(0x79ea687a), Word(0x6dc57a8a), Word(0x34df1604), Word(0x41a65cb1),
            Word(0x1efbc0a0), Word(0xf0781bc8), Word(0xa507a53d), Word(0x0772a26b))
  {
    hide BigSigma1, BigSigma0, Choice, Majority, RoundNumber, WordOf, SameBits;
    Parts36To39();
    Numbers32To39();
    Words32To39();
    SameWord(0x650a7354, 0x650a7354);
    assert w[36] == w[36..40][0] && Turned(Rounds(s, w, 37), 0x41a65cb1, 0x0772a26b);
    SameWord(0x766a0abb, 0x766a0abb);
    assert w[37] == w[36..40][1] && Turned(Rounds(s, w, 38), 0x34df1604, 0xa507a53d);
    SameWord(0x81c2c92e, 0x81c2c92e);
    assert w[38] == w[36..40][2] && Turned(Rounds(s, w, 39), 0x6dc57a8a, 0xf0781bc8);
    SameWord(0x92722c85, 0x92722c85);
    assert w[39] == w[36..40][3] && Turned(Rounds(s, w, 40), 0x79ea687a, 0x1efbc0a0);
  }

  lemma Parts40To43()
    ensures Parts(0x1efbc0a0, 0xf0781bc8, 0xa507a53d, 0x79ea687a, 0x6dc57a8a, 0x34df1604, 0xe9986075, 0xb17c259d,
                  0x7408bcaa, 0x7dcf7a0a)
    ensures Parts(0x26352d63, 0x1efbc0a0, 0xf0781bc8, 0xd6670766, 0x79ea687a, 0x6dc57a8a, 0x3a6aa383, 0xd67912a8,
                  0x12b2e9b8, 0x7de76a6a)
    ensures Parts(0x838b2711, 0x26352d63, 0x1efbc0a0, 0xdf46652f, 0xd6670766, 0x79ea687a, 0x61add539, 0x1e71e5a1,
                  0xc73bdc05, 0xdf66656e)
    ensures Parts(0xdecd4715, 0x838b2711, 0x26352d63, 0x17aa0dfe, 0xdf46652f, 0xd6670766, 0xd363665b, 0xa2b92f73,
                  0x422dc671, 0xd766056e)
  {
  }

  lemma Rounds40To43(s: Working, w: seq<Word>)
    requires |w| == 64
    requires Rounds(s, w, 40) == Working(Word(0x79ea687a), Word(0x6dc57a8a), Word(0x34df1604), Word(0x41a65cb1),
             Word(0x1efbc0a0), Word(0xf0781bc8), Word(0xa507a53d), Word(0x0772a26b))
    requires w[40..44] == [Word(0x9f47bf94), Word(0xf0a64f5a), Word(0x3e246a79), Word(0x27333ba3)]
    ensures Rounds(s, w, 44) == Working(Word(0x9d4baf93), Word(0x17aa0dfe), Word(0xdf46652f), Word(0xd6670766),
            Word(0xfda24c2e), Word(0xdecd4715), Word(0x838b2711), Word(0x26352d63))
  {
    hide BigSigma1, BigSigma0, Choice, Majority, RoundNumber, WordOf, SameBits;
    Parts40To43();
    Numbers40To47();
    Words40To47();
    SameWord(0xa2bfe8a1, 0xa2bfe8a1);
    assert w[40] == w[40..44][0] && Turned(Rounds(s, w, 41), 0xd6670766, 0x26352d63);
    SameWord(0xa81a664b, 0xa81a664b);
    assert w[41] == w[40..44][1] && Turned(Rounds(s, w, 42), 0xdf46652f, 0x838b2711);
    SameWord(0xc24b8b70, 0xc24b8b70);
    assert w[42] == w[40..44][2] && Turned(Rounds(s, w, 43), 0x17aa0dfe, 0xdecd4715);
    SameWord(0xc76c51a3, 0xc76c51a3);
    assert w[43] == w[40..44][3] && Turned(Rounds(s, w, 44), 0x9d4baf93, 0xfda24c2e);
  }

  lemma Parts44To47()
    ensures Parts(0xfda24c2e, 0xdecd4715, 0x838b2711, 0x9d4baf93, 0x17aa0dfe, 0xdf46652f, 0xef0f2a07, 0xde896715,
                  0xb5704fcc, 0x9f4a2dbf)
    ensures Parts(0xa80f11f0, 0xfda24c2e, 0xdecd4715, 0x26628815, 0x9d4baf93, 0x17aa0dfe, 0xfb3dc5f1, 0xfec24625,
                  0x8311c588, 0x176a8d97)
    ensures Parts(0xb7755da1, 0xa80f11f0, 0xfda24c2e, 0x72ab4b91, 0x26628815, 0x9d4baf93, 0x8845eb06, 0xe88711ae,
                  0xad0f0274, 0x366b8b91)
    ensures Parts(0xd57b94a9, 0xb7755da1, 0xa80f11f0, 0xa14c14b0, 0x72ab4b91, 0x26628815, 0x8fa515ca, 0xbd7515f1,
                  0xbd84cdc9, 0x226a0891)
  {
  }

  lemma Rounds44To47(s: Working, w: seq<Word>)
    requires |w| == 64
    requires Rounds(s, w, 44) == Working(Word(0x9d4baf93), Word(0x17aa0dfe), Word(0xdf46652f), Word(0xd6670766),
             Word(0xfda24c2e), Word(0xdecd4715), Word(0x838b2711), Word(0x26352d63))
    requires w[44..48] == [Word(0x0c4763f2), Word(0x840abf27), Word(0x7a290d5d), Word(0x065c43da)]
    ensures Rounds(s, w, 48) == Working(Word(0x4172328d), Word(0xa14c14b0), Word(0x72ab4b91), Word(0x26628815),
            Word(0xfecf0bc6), Word(0xd57b94a9), Word(0xb7755da1), Word(0xa80f11f0))
  {
    hide BigSigma1, BigSigma0, Choice, Majority, RoundNumber, WordOf, SameBits;
    Parts44To47();
    Numbers40To47();
    Words40To47();
    SameWord(0xd192e819, 0xd192e819);
    assert w[44] == w[44..48][0] && Turned(Rounds(s, w, 45), 0x26628815, 0xa80f11f0);
    SameWord(0xd6990624, 0xd6990624);
    assert w[45] == w[44..48][1] && Turned(Rounds(s, w, 46), 0x72ab4b91, 0xb7755da1);
    SameWord(0xf40e3585, 0xf40e3585);
    assert w[46] == w[44..48][2] && Turned(Rounds(s, w, 47), 0xa14c14b0, 0xd57b94a9);
    SameWord(0x106aa070, 0x106aa070);
    assert w[47] == w[44..48][3] && Turned(Rounds(s, w, 48), 0x4172328d, 0xfecf0bc6);
  }

  lemma Parts48To51()
    ensures Parts(0xfecf0bc6, 0xd57b94a9, 0xb7755da1, 0x4172328d, 0xa14c14b0, 0x72ab4b91, 0x04a106b1, 0xd57b54a1,
                  0x0cfcb237, 0x616a1291)
    ensures Parts(0xbd714038, 0xfecf0bc6, 0xd57b94a9, 0x05757ceb, 0x4172328d, 0xa14c14b0, 0x5d427776, 0xfc4b9481,
                  0xf3f6d884, 0x017434a9)
    ensures Parts(0x6e5c390c, 0xbd714038, 0xfecf0bc6, 0xf11bfaa8, 0x05757ceb, 0x4172328d, 0x3e283d54, 0xbcd302ca,
                  0x86ebd5b1, 0x41737aa9)
    ensures Parts(0x52f1ccf7, 0x6e5c390c, 0xbd714038, 0x7a0508a1, 0xf11bfaa8, 0x05757ceb, 0x3b47e2a3, 0xef50080c,
                  0x0fa817e8, 0x711578a9)
  {
  }

  lemma Rounds48To51(s: Working, w: seq<Word>)
    requires |w| == 64
    requires Rounds(s, w, 48) == Working(Word(0x4172328d), Word(0xa14c14b0), Word(0x72ab4b91), Word(0x26628815),
             Word(0xfecf0bc6), Word(0xd57b94a9), Word(0xb7755da1), Word(0xa80f11f0))
    requires w[48..52] == [Word(0xfb3e89cb), Word(0xcc7617db), Word(0xb9e66c34), Word(0xa9993667)]
    ensures Rounds(s, w, 52) == Working(Word(0x886e7a22), Word(0x7a0508a1), Word(0xf11bfaa8), Word(0x05757ceb),
            Word(0x49231c1e), Word(0x52f1ccf7), Word(0x6e5c390c), Word(0xbd714038))
  {
    hide BigSigma1, BigSigma0, Choice, Majority, RoundNumber, WordOf, SameBits;
    Parts48To51();
    Numbers48To55();
    Words48To55();
    SameWord(0x19a4c116, 0x19a4c116);
    assert w[48] == w[48..52][0] && Turned(Rounds(s, w, 49), 0x05757ceb, 0xbd714038);
    SameWord(0x1e376c08, 0x1e376c08);
    assert w[49] == w[48..52][1] && Turned(Rounds(s, w, 50), 0xf11bfaa8, 0x6e5c390c);
    SameWord(0x2748774c, 0x2748774c);
    assert w[50] == w[48..52][2] && Turned(Rounds(s, w, 51), 0x7a0508a1, 0x52f1ccf7);
    SameWord(0x34b0bcb5, 0x34b0bcb5);
    assert w[51] == w[48..52][3] && Turned(Rounds(s, w, 52), 0x886e7a22, 0x49231c1e);
  }

  lemma Parts52To55()
    ensures Parts(0x49231c1e, 0x52f1ccf7, 0x6e5c390c, 0x886e7a22, 0x7a0508a1, 0xf11bfaa8, 0x6b63a737, 0x667d2d16,
                  0xcae757da, 0xf80f7aa0)
    ensures Parts(0x529e7d00, 0x49231c1e, 0x52f1ccf7, 0x101fd28f, 0x886e7a22, 0x7a0508a1, 0xee7eaa12, 0x40639cf7,
                  0x2f35481d, 0x180f5aa3)
    ensures Parts(0x9f4787c3, 0x529e7d00, 0x49231c1e, 0xf5702fdb, 0x101fd28f, 0x886e7a22, 0x55cd1720, 0x52261d1c,
                  0x433ccfa2, 0x907e7a8b)
    ensures Parts(0xe50e1b4f, 0x9f4787c3, 0x529e7d00, 0x3ec45cdb, 0xf5702fdb, 0x101fd28f, 0xd1653e5c, 0x97966743,
                  0x381b8def, 0x34545edb)
  {
  }

  lemma Rounds52To55(s: Working, w: seq<Word>)
    requires |w| == 64
    requires Rounds(s, w, 52) == Working(Word(0x886e7a22), Word(0x7a0508a1), Word(0xf11bfaa8), Word(0x05757ceb),
             Word(0x49231c1e), Word(0x52f1ccf7), Word(0x6e5c390c), Word(0xbd714038))
    requires w[52..56] == [Word(0x84badedd), Word(0xc21462bc), Word(0x1487472c), Word(0xb20f7a99)]
    ensures Rounds(s, w, 56) == Working(Word(0x38cc9913), Word(0x3ec45cdb), Word(0xf5702fdb), Word(0x101fd28f),
            Word(0x54cb266b), Word(0xe50e1b4f), Word(0x9f4787c3), Word(0x529e7d00))
  {
    hide BigSigma1, BigSigma0, Choice, Majority, RoundNumber, WordOf, SameBits;
    Parts52To55();
    Numbers48To55();
    Words48To55();
    SameWord(0x391c0cb3, 0x391c0cb3);
    assert w[52] == w[52..56][0] && Turned(Rounds(s, w, 53), 0x101fd28f, 0x529e7d00);
    SameWord(0x4ed8aa4a, 0x4ed8aa4a);
    assert w[53] == w[52..56][1] && Turned(Rounds(s, w, 54), 0xf5702fdb, 0x9f4787c3);
    SameWord(0x5b9cca4f, 0x5b9cca4f);
    assert w[54] == w[52..56][2] && Turned(Rounds(s, w, 55), 0x3ec45cdb, 0xe50e1b4f);
    SameWord(0x682e6ff3, 0x682e6ff3);
    assert w[55] == w[52..56][3] && Turned(Rounds(s, w, 56), 0x38cc9913, 0x54cb266b);
  }

  lemma Parts56To59()
    ensures Parts(0x54cb266b, 0xe50e1b4f, 0x9f4787c3, 0x38cc9913, 0x3ec45cdb, 0xf5702fdb, 0x05aa8057, 0xcf0e83cb,
                  0x34ceacc3, 0x3cc41ddb)
    ensures Parts(0x9b5e906c, 0x54cb266b, 0xe50e1b4f, 0xfcd1887b, 0x38cc9913, 0x3ec45cdb, 0x10b627de, 0x744a0b6b,
                  0xfaca6b61, 0x3cc4985b)
    ensures Parts(0x7e44008e, 0x9b5e906c, 0x54cb266b, 0xc062d46f, 0xfcd1887b, 0x38cc9913, 0x0a369fbd, 0x1acf266d,
                  0xd837090c, 0xf8c0987b)
    ensures Parts(0x6d83bfc6, 0x7e44008e, 0x9b5e906c, 0xffb70472, 0xc062d46f, 0xfcd1887b, 0x20a45dbe, 0xfe5c00ae,
                  0x406bf75a, 0xfcf3847b)
  {
  }

  lemma Rounds56To59(s: Working, w: seq<Word>)
    requires |w| == 64
    requires Rounds(s, w, 56) == Working(Word(0x38cc9913), Word(0x3ec45cdb), Word(0xf5702fdb), Word(0x101fd28f),
             Word(0x54cb266b), Word(0xe50e1b4f), Word(0x9f4787c3), Word(0x529e7d00))
    requires w[56..60] == [Word(0xef57b9cd), Word(0xebe6b238), Word(0x9fe3095e), Word(0x78bc8d4b)]
    ensures Rounds(s, w, 60) == Working(Word(0xb6ae8fff), Word(0xffb70472), Word(0xc062d46f), Word(0xfcd1887b),
            Word(0xb21bad3d), Word(0x6d83bfc6), Word(0x7e44008e), Word(0x9b5e906c))
  {
    hide BigSigma1, BigSigma0, Choice, Majority, RoundNumber, WordOf, SameBits;
    Parts56To59();
    Numbers56To63();
    Words56To63();
    SameWord(0x748f82ee, 0x748f82ee);
    assert w[56] == w[56..60][0] && Turned(Rounds(s, w, 57), 0xfcd1887b, 0x9b5e906c);
    SameWord(0x78a5636f, 0x78a5636f);
    assert w[57] == w[56..60][1] && Turned(Rounds(s, w, 58), 0xc062d46f, 0x7e44008e);
    SameWord(0x84c87814, 0x84c87814);
    assert w[58] == w[56..60][2] && Turned(Rounds(s, w, 59), 0xffb70472, 0x6d83bfc6);
    SameWord(0x8cc70208, 0x8cc70208);
    assert w[59] == w[56..60][3] && Turned(Rounds(s, w, 60), 0xb6ae8fff, 0xb21bad3d);
  }

  lemma Parts60To63()
    ensures Parts(0xb21bad3d, 0x6d83bfc6, 0x7e44008e, 0xb6ae8fff, 0xffb70472, 0xc062d46f, 0x5ca8b318, 0x6c47ad86,
                  0x2869e851, 0xf6a6847f)
    ensures Parts(0x961f4894, 0xb21bad3d, 0x6d83bfc6, 0xb85e2ce9, 0xb6ae8fff, 0xffb70472, 0x4f6ef480, 0xfb9bbf56,
                  0x71e9ef2a, 0xbebe0cfb)
    ensures Parts(0x948d25b6, 0x961f4894, 0xb21bad3d, 0x04d24d6c, 0xb85e2ce9, 0xb6ae8fff, 0x2a127e78, 0xb61f889d,
                  0x236105da, 0xb4de0ded)
    ensures Parts(0xfb121210, 0x948d25b6, 0x961f4894, 0xd39a2165, 0x04d24d6c, 0xb85e2ce9, 0x88fa2277, 0x940d4894,
                  0x174d83c6, 0x90da2d6d)
  {
  }

  lemma Rounds60To63(s: Working, w: seq<Word>)
    requires |w| == 64
    requires Rounds(s, w, 60) == Working(Word(0xb6ae8fff), Word(0xffb70472), Word(0xc062d46f), Word(0xfcd1887b),
             Word(0xb21bad3d), Word(0x6d83bfc6), Word(0x7e44008e), Word(0x9b5e906c))
    requires w[60..64] == [Word(0xa43fcf15), Word(0x668b2ff8), Word(0xeeaba2cc), Word(0x12b1edeb)]
    ensures Rounds(s, w, 64) == Working(Word(0x506e3058), Word(0xd39a2165), Word(0x04d24d6c), Word(0xb85e2ce9),
            Word(0x5ef50f24), Word(0xfb121210), Word(0x948d25b6), Word(0x961f4894))
  {
    hide BigSigma1, BigSigma0, Choice, Majority, RoundNumber, WordOf, SameBits;
    Parts60To63();
    Numbers56To63();
    Words56To63();
    SameWord(0x90befffa, 0x90befffa);
    assert w[60] == w[60..64][0] && Turned(Rounds(s, w, 61), 0xb85e2ce9, 0x961f4894);
    SameWord(0xa4506ceb, 0xa4506ceb);
    assert w[61] == w[60..64][1] && Turned(Rounds(s, w, 62), 0x04d24d6c, 0x948d25b6);
    SameWord(0xbef9a3f7, 0xbef9a3f7);
    assert w[62] == w[60..64][2] && Turned(Rounds(s, w, 63), 0xd39a2165, 0xfb121210);
    SameWord(0xc67178f2, 0xc67178f2);
    assert w[63] == w[60..64][3] && Turned(Rounds(s, w, 64), 0x506e3058, 0x5ef50f24);
  }

  // ---- The message schedule.

  predicate Sigmas(w15: bv32, sigma0: bv32, w2: bv32, sigma1: bv32) {
    SmallSigma0(w15) == sigma0 && SmallSigma1(w2) == sigma1
  }

  /** Word `t` of the schedule, from 16 on, mixes four before it. */
  lemma {:induction false} ScheduleMixes(block: seq<byte>, n: nat, t: nat)
    requires |block| == 64 && t < n
    ensures var w := Schedule(block, n);
            w[t] == if t < 16 then BlockWord(block, t) else MixWords(w[t - 16], w[t - 15], w[t - 7], w[t - 2])
    decreases n
  {
    hide BlockWord, MixWords;
    if t < n - 1 {
      ScheduleMixes(block, n - 1, t);
    }
  }

  lemma Sigmas16To19()
    ensures Sigmas(0x00000000, 0x00000000, 0x00000000, 0x00000000)
    ensures Sigmas(0x00000000, 0x00000000, 0x00000018, 0x000f0000)
    ensures Sigmas(0x00000000, 0x00000000, 0x61626380, 0x7da86405)
    ensures Sigmas(0x00000000, 0x00000000, 0x000f0000, 0x600003c6)
  {
  }

  lemma Schedule16To19(block: seq<byte>, w: seq<Word>)
    requires |block| == 64 && w == Schedule(block, 64)
    requires w[0..4] == [Word(0x61626380), Word(0x00000000), Word(0x00000000), Word(0x00000000)]
    requires w[4..8] == [Word(0x00000000), Word(0x00000000), Word(0x00000000), Word(0x00000000)]
    requires w[8..12] == [Word(0x00000000), Word(0x00000000), Word(0x00000000), Word(0x00000000)]
    requires w[12..16] == [Word(0x00000000), Word(0x00000000), Word(0x00000000), Word(0x00000018)]
    ensures w[16..20] == [Word(0x61626380), Word(0x000f0000), Word(0x7da86405), Word(0x600003c6)]
  {
    hide Schedule, SmallSigma0, SmallSigma1, BlockWord;
    Sigmas16To19();
    ScheduleMixes(block, 64, 16);
    assert w[0] == w[0..4][0] && w[1] == w[0..4][1] && w[9] == w[8..12][1] && w[14] == w[12..16][2];
    assert w[16].bits == 0x61626380;
    ScheduleMixes(block, 64, 17);
    assert w[1] == w[0..4][1] && w[2] == w[0..4][2] && w[10] == w[8..12][2] && w[15] == w[12..16][3];
    assert w[17].bits == 0x000f0000;
    ScheduleMixes(block, 64, 18);
    assert w[2] == w[0..4][2] && w[3] == w[0..4][3] && w[11] == w[8..12][3];
    assert w[18].bits == 0x7da86405;
    ScheduleMixes(block, 64, 19);
    assert w[3] == w[0..4][3] && w[4] == w[4..8][0] && w[12] == w[12..16][0];
    assert w[19].bits == 0x600003c6;
  }

  lemma Sigmas20To23()
    ensures Sigmas(0x00000000, 0x00000000, 0x7da86405, 0x3e9d7b78)
    ensures Sigmas(0x00000000, 0x00000000, 0x600003c6, 0x0183fc00)
    ensures Sigmas(0x00000000, 0x00000000, 0x3e9d7b78, 0x12dcbfc3)
    ensures Sigmas(0x00000000, 0x00000000, 0x0183fc00, 0x8180600e)
  {
  }

  lemma Schedule20To23(block: seq<byte>, w: seq<Word>)
    requires |block| == 64 && w == Schedule(block, 64)
    requires w[4..8] == [Word(0x00000000), Word(0x00000000), Word(0x00000000), Word(0x00000000)]
    requires w[8..12] == [Word(0x00000000), Word(0x00000000), Word(0x00000000), Word(0x00000000)]
    requires w[12..16] == [Word(0x00000000), Word(0x00000000), Word(0x00000000), Word(0x00000018)]
    requires w[16..20] == [Word(0x61626380), Word(0x000f0000), Word(0x7da86405), Word(0x600003c6)]
    ensures w[20..24] == [Word(0x3e9d7b78), Word(0x0183fc00), Word(0x12dcbfdb), Word(0xe2e2c38e)]
  {
    hide Schedule, SmallSigma0, SmallSigma1, BlockWord;
    Sigmas20To23();
    ScheduleMixes(block, 64, 20);
    assert w[4] == w[4..8][0] && w[5] == w[4..8][1] && w[13] == w[12..16][1] && w[18] == w[16..20][2];
    assert w[20].bits == 0x3e9d7b78;
    ScheduleMixes(block, 64, 21);
    assert w[5] == w[4..8][1] && w[6] == w[4..8][2] && w[14] == w[12..16][2] && w[19] == w[16..20][3];
    assert w[21].bits == 0x0183fc00;
    ScheduleMixes(block, 64, 22);
    assert w[6] == w[4..8][2] && w[7] == w[4..8][3] && w[15] == w[12..16][3];
    assert w[22].bits == 0x12dcbfdb;
    ScheduleMixes(block, 64, 23);
    assert w[7] == w[4..8][3] && w[8] == w[8..12][0] && w[16] == w[16..20][0];
    assert w[23].bits == 0xe2e2c38e;
  }

  lemma Sigmas24To27()
    ensures Sigmas(0x00000000, 0x00000000, 0x12dcbfdb, 0xc8125c1a)
    ensures Sigmas(0x00000000, 0x00000000, 0xe2e2c38e, 0x398e159d)
    ensures Sigmas(0x00000000, 0x00000000, 0xc8215c1a, 0x85bc3543)
    ensures Sigmas(0x00000000, 0x00000000, 0xb73679a2, 0xf3c8c0e3)
  {
  }

  lemma Schedule24To27(block: seq<byte>, w: seq<Word>)
    requires |block| == 64 && w == Schedule(block, 64)
    requires w[8..12] == [Word(0x00000000), Word(0x00000000), Word(0x00000000), Word(0x00000000)]
    requires w[12..16] == [Word(0x00000000), Word(0x00000000), Word(0x00000000), Word(0x00000018)]
    requires w[16..20] == [Word(0x61626380), Word(0x000f0000), Word(0x7da86405), Word(0x600003c6)]
    requires w[20..24] == [Word(0x3e9d7b78), Word(0x0183fc00), Word(0x12dcbfdb), Word(0xe2e2c38e)]
    ensures w[24..28] == [Word(0xc8215c1a), Word(0xb73679a2), Word(0xe5bc3909), Word(0x32663c5b)]
  {
    hide Schedule, SmallSigma0, SmallSigma1, BlockWord;
    Sigmas24To27();
    ScheduleMixes(block, 64, 24);
    assert w[8] == w[8..12][0] && w[9] == w[8..12][1] && w[17] == w[16..20][1] && w[22] == w[20..24][2];
    assert w[24].bits == 0xc8215c1a;
    ScheduleMixes(block, 64, 25);
    assert w[9] == w[8..12][1] && w[10] == w[8..12][2] && w[18] == w[16..20][2] && w[23] == w[20..24][3];
    assert w[25].bits == 0xb73679a2;
    ScheduleMixes(block, 64, 26);
    assert w[10] == w[8..12][2] && w[11] == w[8..12][3] && w[19] == w[16..20][3];
    assert w[26].bits == 0xe5bc3909;
    ScheduleMixes(block, 64, 27);
    assert w[11] == w[8..12][3] && w[12] == w[12..16][0] && w[20] == w[20..24][0];
    assert w[27].bits == 0x32663c5b;
  }

  lemma Sigmas28To31()
    ensures Sigmas(0x00000000, 0x00000000, 0xe5bc3909, 0x9b9ca167)
    ensures Sigmas(0x00000000, 0x00000000, 0x32663c5b, 0xd9aa66f0)
    ensures Sigmas(0x00000018, 0x30060003, 0x9d209d67, 0x5d387513)
    ensures Sigmas(0x61626380, 0x940e90ef, 0xec8726cb, 0x7787aa1a)
  {
  }

  lemma Schedule28To31(block: seq<byte>, w: seq<Word>)
    requires |block| == 64 && w == Schedule(block, 64)
    requires w[12..16] == [Word(0x00000000), Word(0x00000000), Word(0x00000000), Word(0x00000018)]
    requires w[16..20] == [Word(0x61626380), Word(0x000f0000), Word(0x7da86405), Word(0x600003c6)]
    requires w[20..24] == [Word(0x3e9d7b78), Word(0x0183fc00), Word(0x12dcbfdb), Word(0xe2e2c38e)]
    requires w[24..28] == [Word(0xc8215c1a), Word(0xb73679a2), Word(0xe5bc3909), Word(0x32663c5b)]
    ensures w[28..32] == [Word(0x9d209d67), Word(0xec8726cb), Word(0x702138a4), Word(0xd3b7973b)]
  {
    hide Schedule, SmallSigma0, SmallSigma1, BlockWord;
    Sigmas28To31();
    ScheduleMixes(block, 64, 28);
    assert w[12] == w[12..16][0] && w[13] == w[12..16][1] && w[21] == w[20..24][1] && w[26] == w[24..28][2];
    assert w[28].bits == 0x9d209d67;
    ScheduleMixes(block, 64, 29);
    assert w[13] == w[12..16][1] && w[14] == w[12..16][2] && w[22] == w[20..24][2] && w[27] == w[24..28][3];
    assert w[29].bits == 0xec8726cb;
    ScheduleMixes(block, 64, 30);
    assert w[14] == w[12..16][2] && w[15] == w[12..16][3] && w[23] == w[20..24][3];
    assert w[30].bits == 0x702138a4;
    ScheduleMixes(block, 64, 31);
    assert w[15] == w[12..16][3] && w[16] == w[16..20][0] && w[24] == w[24..28][0];
    assert w[31].bits == 0xd3b7973b;
  }

  lemma Sigmas32To35()
    ensures Sigmas(0x000f0000, 0xc001fe03, 0x702138a4, 0xbb5abe5a)
    ensures Sigmas(0x7da86405, 0x1c4f0322, 0xd3b7973b, 0x394e7e48)
    ensures Sigmas(0x600003c6, 0x8031987f, 0x93f5997f, 0x7fb4c6e2)
    ensures Sigmas(0x3e9d7b78, 0xa9709a3e, 0x3b68ba73, 0x4a7920f7)
  {
  }

  lemma Schedule32To35(block: seq<byte>, w: seq<Word>)
    requires |block| == 64 && w == Schedule(block, 64)
    requires w[16..20] == [Word(0x61626380), Word(0x000f0000), Word(0x7da86405), Word(0x600003c6)]
    requires w[20..24] == [Word(0x3e9d7b78), Word(0x0183fc00), Word(0x12dcbfdb), Word(0xe2e2c38e)]
    requires w[24..28] == [Word(0xc8215c1a), Word(0xb73679a2), Word(0xe5bc3909), Word(0x32663c5b)]
    requires w[28..32] == [Word(0x9d209d67), Word(0xec8726cb), Word(0x702138a4), Word(0xd3b7973b)]
    ensures w[32..36] == [Word(0x93f5997f), Word(0x3b68ba73), Word(0xaff4ffc1), Word(0xf10a5c62)]
  {
    hide Schedule, SmallSigma0, SmallSigma1, BlockWord;
    Sigmas32To35();
    ScheduleMixes(block, 64, 32);
    assert w[16] == w[16..20][0] && w[17] == w[16..20][1] && w[25] == w[24..28][1] && w[30] == w[28..32][2];
    assert w[32].bits == 0x93f5997f;
    ScheduleMixes(block, 64, 33);
    assert w[17] == w[16..20][1] && w[18] == w[16..20][2] && w[26] == w[24..28][2] && w[31] == w[28..32][3];
    assert w[33].bits == 0x3b68ba73;
    ScheduleMixes(block, 64, 34);
    assert w[18] == w[16..20][2] && w[19] == w[16..20][3] && w[27] == w[24..28][3];
    assert w[34].bits == 0xaff4ffc1;
    ScheduleMixes(block, 64, 35);
    assert w[19] == w[16..20][3] && w[20] == w[20..24][0] && w[28] == w[28..32][0];
    assert w[35].bits == 0xf10a5c62;
  }

  lemma Sigmas36To39()
    ensures Sigmas(0x0183fc00, 0xff337818, 0xaff4ffc1, 0xe0331f3b)
    ensures Sigmas(0x12dcbfdb, 0x9b88ea33, 0xf10a5c62, 0x65816433)
    ensures Sigmas(0xe2e2c38e, 0xb17a254e, 0x0a8b3996, 0xfbfb66da)
    ensures Sigmas(0xc8215c1a, 0x7b92db33, 0x72af830a, 0x31f8dce2)
  {
  }

  lemma Schedule36To39(block: seq<byte>, w: seq<Word>)
    requires |block| == 64 && w == Schedule(block, 64)
    requires w[20..24] == [Word(0x3e9d7b78), Word(0x0183fc00), Word(0x12dcbfdb), Word(0xe2e2c38e)]
    requires w[24..28] == [Word(0xc8215c1a), Word(0xb73679a2), Word(0xe5bc3909), Word(0x32663c5b)]
    requires w[28..32] == [Word(0x9d209d67), Word(0xec8726cb), Word(0x702138a4), Word(0xd3b7973b)]
    requires w[32..36] == [Word(0x93f5997f), Word(0x3b68ba73), Word(0xaff4ffc1), Word(0xf10a5c62)]
    ensures w[36..40] == [Word(0x0a8b3996), Word(0x72af830a), Word(0x9409e33e), Word(0x24641522)]
  {
    hide Schedule, SmallSigma0, SmallSigma1, BlockWord;
    Sigmas36To39();
    ScheduleMixes(block, 64, 36);
    assert w[20] == w[20..24][0] && w[21] == w[20..24][1] && w[29] == w[28..32][1] && w[34] == w[32..36][2];
    assert w[36].bits == 0x0a8b3996;
    ScheduleMixes(block, 64, 37);
    assert w[21] == w[20..24][1] && w[22] == w[20..24][2] && w[30] == w[28..32][2] && w[35] == w[32..36][3];
    assert w[37].bits == 0x72af830a;
    ScheduleMixes(block, 64, 38);
    assert w[22] == w[20..24][2] && w[23] == w[20..24][3] && w[31] == w[28..32][3];
    assert w[38].bits == 0x9409e33e;
    ScheduleMixes(block, 64, 39);
    assert w[23] == w[20..24][3] && w[24] == w[24..28][0] && w[32] == w[32..36][0];
    assert w[39].bits == 0x24641522;
  }

  lemma Sigmas40To43()
    ensures Sigmas(0xb73679a2, 0xcde00e0a, 0x9409e33e, 0xcddd9afd)
    ensures Sigmas(0xe5bc3909, 0x013e863c, 0x24641522, 0x883c4fbb)
    ensures Sigmas(0x32663c5b, 0x3f3ec76a, 0x9f47bf94, 0x281f0da4)
    ensures Sigmas(0x9d209d67, 0xfbc7b5de, 0xf0a64f5a, 0xee7a0fd4)
  {
  }

  lemma Schedule40To43(block: seq<byte>, w: seq<Word>)
    requires |block| == 64 && w == Schedule(block, 64)
    requires w[24..28] == [Word(0xc8215c1a), Word(0xb73679a2), Word(0xe5bc3909), Word(0x32663c5b)]
    requires w[28..32] == [Word(0x9d209d67), Word(0xec8726cb), Word(0x702138a4), Word(0xd3b7973b)]
    requires w[32..36] == [Word(0x93f5997f), Word(0x3b68ba73), Word(0xaff4ffc1), Word(0xf10a5c62)]
    requires w[36..40] == [Word(0x0a8b3996), Word(0x72af830a), Word(0x9409e33e), Word(0x24641522)]
    ensures w[40..44] == [Word(0x9f47bf94), Word(0xf0a64f5a), Word(0x3e246a79), Word(0x27333ba3)]
  {
    hide Schedule, SmallSigma0, SmallSigma1, BlockWord;
    Sigmas40To43();
    ScheduleMixes(block, 64, 40);
    assert w[24] == w[24..28][0] && w[25] == w[24..28][1] && w[33] == w[32..36][1] && w[38] == w[36..40][2];
    assert w[40].bits == 0x9f47bf94;
    ScheduleMixes(block, 64, 41);
    assert w[25] == w[24..28][1] && w[26] == w[24..28][2] && w[34] == w[32..36][2] && w[39] == w[36..40][3];
    assert w[41].bits == 0xf0a64f5a;
    ScheduleMixes(block, 64, 42);
    assert w[26] == w[24..28][2] && w[27] == w[24..28][3] && w[35] == w[32..36][3];
    assert w[42].bits == 0x3e246a79;
    ScheduleMixes(block, 64, 43);
    assert w[27] == w[24..28][3] && w[28] == w[28..32][0] && w[36] == w[36..40][0];
    assert w[43].bits == 0x27333ba3;
  }

  lemma Sigmas44To47()
    ensures Sigmas(0xec8726cb, 0x43fb11b5, 0x3e246a79, 0xb87c31cc)
    ensures Sigmas(0x702138a4, 0x08cd796d, 0x27333ba3, 0xfaac3bb1)
    ensures Sigmas(0xd3b7973b, 0x881f6924, 0x0c4763f2, 0x5d845673)
    ensures Sigmas(0x93f5997f, 0x8b06bce0, 0x840abf27, 0x0856302b)
  {
  }

  lemma Schedule44To47(block: seq<byte>, w: seq<Word>)
    requires |block| == 64 && w == Schedule(block, 64)
    requires w[28..32] == [Word(0x9d209d67), Word(0xec8726cb), Word(0x702138a4), Word(0xd3b7973b)]
    requires w[32..36] == [Word(0x93f5997f), Word(0x3b68ba73), Word(0xaff4ffc1), Word(0xf10a5c62)]
    requires w[36..40] == [Word(0x0a8b3996), Word(0x72af830a), Word(0x9409e33e), Word(0x24641522)]
    requires w[40..44] == [Word(0x9f47bf94), Word(0xf0a64f5a), Word(0x3e246a79), Word(0x27333ba3)]
    ensures w[44..48] == [Word(0x0c4763f2), Word(0x840abf27), Word(0x7a290d5d), Word(0x065c43da)]
  {
    hide Schedule, SmallSigma0, SmallSigma1, BlockWord;
    Sigmas44To47();
    ScheduleMixes(block, 64, 44);
    assert w[28] == w[28..32][0] && w[29] == w[28..32][1] && w[37] == w[36..40][1] && w[42] == w[40..44][2];
    assert w[44].bits == 0x0c4763f2;
    ScheduleMixes(block, 64, 45);
    assert w[29] == w[28..32][1] && w[30] == w[28..32][2] && w[38] == w[36..40][2] && w[43] == w[40..44][3];
    assert w[45].bits == 0x840abf27;
    ScheduleMixes(block, 64, 46);
    assert w[30] == w[28..32][2] && w[31] == w[28..32][3] && w[39] == w[36..40][3];
    assert w[46].bits == 0x7a290d5d;
    ScheduleMixes(block, 64, 47);
    assert w[31] == w[28..32][3] && w[32] == w[32..36][0] && w[40] == w[40..44][0];
    assert w[47].bits == 0x065c43da;
  }

  lemma Sigmas48To51()
    ensures Sigmas(0x3b68ba73, 0xcf8708e0, 0x7a290d5d, 0xa71b9812)
    ensures Sigmas(0xaff4ffc1, 0xa9511dfa, 0x065c43da, 0xa997d4f5)
    ensures Sigmas(0xf10a5c62, 0x4cdbe376, 0xfb3e89cb, 0x95e24d5a)
    ensures Sigmas(0x0a8b3996, 0xe321f3e3, 0xcc7617db, 0xc9258230)
  {
  }

  lemma Schedule48To51(block: seq<byte>, w: seq<Word>)
    requires |block| == 64 && w == Schedule(block, 64)
    requires w[32..36] == [Word(0x93f5997f), Word(0x3b68ba73), Word(0xaff4ffc1), Word(0xf10a5c62)]
    requires w[36..40] == [Word(0x0a8b3996), Word(0x72af830a), Word(0x9409e33e), Word(0x24641522)]
    requires w[40..44] == [Word(0x9f47bf94), Word(0xf0a64f5a), Word(0x3e246a79), Word(0x27333ba3)]
    requires w[44..48] == [Word(0x0c4763f2), Word(0x840abf27), Word(0x7a290d5d), Word(0x065c43da)]
    ensures w[48..52] == [Word(0xfb3e89cb), Word(0xcc7617db), Word(0xb9e66c34), Word(0xa9993667)]
  {
    hide Schedule, SmallSigma0, SmallSigma1, BlockWord;
    Sigmas48To51();
    ScheduleMixes(block, 64, 48);
    assert w[32] == w[32..36][0] && w[33] == w[32..36][1] && w[41] == w[40..44][1] && w[46] == w[44..48][2];
    assert w[48].bits == 0xfb3e89cb;
    ScheduleMixes(block, 64, 49);
    assert w[33] == w[32..36][1] && w[34] == w[32..36][2] && w[42] == w[40..44][2] && w[47] == w[44..48][3];
    assert w[49].bits == 0xcc7617db;
    ScheduleMixes(block, 64, 50);
    assert w[34] == w[32..36][2] && w[35] == w[32..36][3] && w[43] == w[40..44][3];
    assert w[50].bits == 0xb9e66c34;
    ScheduleMixes(block, 64, 51);
    assert w[35] == w[32..36][3] && w[36] == w[36..40][0] && w[44] == w[44..48][0];
    assert w[51].bits == 0xa9993667;
  }

  lemma Sigmas52To55()
    ensures Sigmas(0x72af830a, 0xfa7233cc, 0xb9e66c34, 0xfbb2b254)
    ensures Sigmas(0x9409e33e, 0x17668aa3, 0xa9993667, 0xbdd547b2)
    ensures Sigmas(0x24641522, 0x458cc397, 0x84badedd, 0x34945c7d)
    ensures Sigmas(0x9f47bf94, 0xd5335f5c, 0xc21462bc, 0xbd397c50)
  {
  }

  lemma Schedule52To55(block: seq<byte>, w: seq<Word>)
    requires |block| == 64 && w == Schedule(block, 64)
    requires w[36..40] == [Word(0x0a8b3996), Word(0x72af830a), Word(0x9409e33e), Word(0x24641522)]
    requires w[40..44] == [Word(0x9f47bf94), Word(0xf0a64f5a), Word(0x3e246a79), Word(0x27333ba3)]
    requires w[44..48] == [Word(0x0c4763f2), Word(0x840abf27), Word(0x7a290d5d), Word(0x065c43da)]
    requires w[48..52] == [Word(0xfb3e89cb), Word(0xcc7617db), Word(0xb9e66c34), Word(0xa9993667)]
    ensures w[52..56] == [Word(0x84badedd), Word(0xc21462bc), Word(0x1487472c), Word(0xb20f7a99)]
  {
    hide Schedule, SmallSigma0, SmallSigma1, BlockWord;
    Sigmas52To55();
    ScheduleMixes(block, 64, 52);
    assert w[36] == w[36..40][0] && w[37] == w[36..40][1] && w[45] == w[44..48][1] && w[50] == w[48..52][2];
    assert w[52].bits == 0x84badedd;
    ScheduleMixes(block, 64, 53);
    assert w[37] == w[36..40][1] && w[38] == w[36..40][2] && w[46] == w[44..48][2] && w[51] == w[48..52][3];
    assert w[53].bits == 0xc21462bc;
    ScheduleMixes(block, 64, 54);
    assert w[38] == w[36..40][2] && w[39] == w[36..40][3] && w[47] == w[44..48][3];
    assert w[54].bits == 0x1487472c;
    ScheduleMixes(block, 64, 55);
    assert w[39] == w[36..40][3] && w[40] == w[40..44][0] && w[48] == w[48..52][0];
    assert w[55].bits == 0xb20f7a99;
  }

  lemma Sigmas56To59()
    ensures Sigmas(0xf0a64f5a, 0x3823395c, 0x1487472c, 0x4b76a902)
    ensures Sigmas(0x3e246a79, 0xef268a12, 0xb20f7a99, 0x52336c98)
    ensures Sigmas(0x27333ba3, 0x8c40c8cf, 0xef57b9cd, 0x2be49faf)
    ensures Sigmas(0x0c4763f2, 0x3d6ce1a8, 0xebe6b238, 0x8f619123)
  {
  }

  lemma Schedule56To59(block: seq<byte>, w: seq<Word>)
    requires |block| == 64 && w == Schedule(block, 64)
    requires w[40..44] == [Word(0x9f47bf94), Word(0xf0a64f5a), Word(0x3e246a79), Word(0x27333ba3)]
    requires w[44..48] == [Word(0x0c4763f2), Word(0x840abf27), Word(0x7a290d5d), Word(0x065c43da)]
    requires w[48..52] == [Word(0xfb3e89cb), Word(0xcc7617db), Word(0xb9e66c34), Word(0xa9993667)]
    requires w[52..56] == [Word(0x84badedd), Word(0xc21462bc), Word(0x1487472c), Word(0xb20f7a99)]
    ensures w[56..60] == [Word(0xef57b9cd), Word(0xebe6b238), Word(0x9fe3095e), Word(0x78bc8d4b)]
  {
    hide Schedule, SmallSigma0, SmallSigma1, BlockWord;
    Sigmas56To59();
    ScheduleMixes(block, 64, 56);
    assert w[40] == w[40..44][0] && w[41] == w[40..44][1] && w[49] == w[48..52][1] && w[54] == w[52..56][2];
    assert w[56].bits == 0xef57b9cd;
    ScheduleMixes(block, 64, 57);
    assert w[41] == w[40..44][1] && w[42] == w[40..44][2] && w[50] == w[48..52][2] && w[55] == w[52..56][3];
    assert w[57].bits == 0xebe6b238;
    ScheduleMixes(block, 64, 58);
    assert w[42] == w[40..44][2] && w[43] == w[40..44][3] && w[51] == w[48..52][3];
    assert w[58].bits == 0x9fe3095e;
    ScheduleMixes(block, 64, 59);
    assert w[43] == w[40..44][3] && w[44] == w[44..48][0] && w[52] == w[52..56][0];
    assert w[59].bits == 0x78bc8d4b;
  }

  lemma Sigmas60To63()
    ensures Sigmas(0x840abf27, 0xf040a398, 0x9fe3095e, 0xe5a364cf)
    ensures Sigmas(0x7a290d5d, 0xf6e62d3b, 0x78bc8d4b, 0xd712fc6a)
    ensures Sigmas(0x065c43da, 0xa431b16b, 0xa43fcf15, 0x1e41696b)
    ensures Sigmas(0xfb3e89cb, 0x2ae352e5, 0x668b2ff8, 0xf21a9d5f)
  {
  }

  lemma Schedule60To63(block: seq<byte>, w: seq<Word>)
    requires |block| == 64 && w == Schedule(block, 64)
    requires w[44..48] == [Word(0x0c4763f2), Word(0x840abf27), Word(0x7a290d5d), Word(0x065c43da)]
    requires w[48..52] == [Word(0xfb3e89cb), Word(0xcc7617db), Word(0xb9e66c34), Word(0xa9993667)]
    requires w[52..56] == [Word(0x84badedd), Word(0xc21462bc), Word(0x1487472c), Word(0xb20f7a99)]
    requires w[56..60] == [Word(0xef57b9cd), Word(0xebe6b238), Word(0x9fe3095e), Word(0x78bc8d4b)]
    ensures w[60..64] == [Word(0xa43fcf15), Word(0x668b2ff8), Word(0xeeaba2cc), Word(0x12b1edeb)]
  {
    hide Schedule, SmallSigma0, SmallSigma1, BlockWord;
    Sigmas60To63();
    ScheduleMixes(block, 64, 60);
    assert w[44] == w[44..48][0] && w[45] == w[44..48][1] && w[53] == w[52..56][1] && w[58] == w[56..60][2];
    assert w[60].bits == 0xa43fcf15;
    ScheduleMixes(block, 64, 61);
    assert w[45] == w[44..48][1] && w[46] == w[44..48][2] && w[54] == w[52..56][2] && w[59] == w[56..60][3];
    assert w[61].bits == 0x668b2ff8;
    ScheduleMixes(block, 64, 62);
    assert w[46] == w[44..48][2] && w[47] == w[44..48][3] && w[55] == w[52..56][3];
    assert w[62].bits == 0xeeaba2cc;
    ScheduleMixes(block, 64, 63);
    assert w[47] == w[44..48][3] && w[48] == w[48..52][0] && w[56] == w[56..60][0];
    assert w[63].bits == 0x12b1edeb;
  }

  // ---- From the message to the digest.

  const ABC: seq<byte> := [0x61, 0x62, 0x63]

  function AbcBlock(): (block: seq<byte>)
    ensures |block| == 64
  {
    ABC + [0x80] + Zeros(52) + [0, 0, 0, 0, 0, 0, 0, 24]
  }

  lemma AbcPadded()
    ensures Padded(ABC) == AbcBlock()
  {
    assert Wrapped(24) == 24 && ZeroCount(3) == 52;
    AbcLength();
  }

  lemma AbcLength()
    ensures BigEndianBytes(24, 8) == [0, 0, 0, 0, 0, 0, 0, 24]
  {
    assert BigEndianBytes(0, 3) == [0, 0, 0];
    assert BigEndianBytes(0, 7) == [0, 0, 0, 0, 0, 0, 0];
  }

  lemma AbcFirstWords()
    ensures JoinBytes(0x61, 0x62, 0x63, 0x80) == Word(0x61626380)
    ensures JoinBytes(0, 0, 0, 0) == Word(0) && JoinBytes(0, 0, 0, 24) == Word(24)
  {
  }

  lemma AbcWord(t: nat)
    requires t < 16
    ensures Schedule(AbcBlock(), 64)[t]
            == if t == 0 then Word(0x61626380) else if t == 15 then Word(24) else Word(0)
  {
    hide Schedule, JoinBytes;
    ScheduleMixes(AbcBlock(), 64, t);
    AbcFirstWords();
  }

  lemma AbcSchedule()
    ensures var w := Schedule(AbcBlock(), 64);
            && w[0..4] == [Word(0x61626380), Word(0x00000000), Word(0x00000000), Word(0x00000000)]
            && w[4..8] == [Word(0x00000000), Word(0x00000000), Word(0x00000000), Word(0x00000000)]
            && w[8..12] == [Word(0x00000000), Word(0x00000000), Word(0x00000000), Word(0x00000000)]
            && w[12..16] == [Word(0x00000000), Word(0x00000000), Word(0x00000000), Word(0x00000018)]
            && w[16..20] == [Word(0x61626380), Word(0x000f0000), Word(0x7da86405), Word(0x600003c6)]
            && w[20..24] == [Word(0x3e9d7b78), Word(0x0183fc00), Word(0x12dcbfdb), Word(0xe2e2c38e)]
            && w[24..28] == [Word(0xc8215c1a), Word(0xb73679a2), Word(0xe5bc3909), Word(0x32663c5b)]
            && w[28..32] == [Word(0x9d209d67), Word(0xec8726cb), Word(0x702138a4), Word(0xd3b7973b)]
            && w[32..36] == [Word(0x93f5997f), Word(0x3b68ba73), Word(0xaff4ffc1), Word(0xf10a5c62)]
            && w[36..40] == [Word(0x0a8b3996), Word(0x72af830a), Word(0x9409e33e), Word(0x24641522)]
            && w[40..44] == [Word(0x9f47bf94), Word(0xf0a64f5a), Word(0x3e246a79), Word(0x27333ba3)]
            && w[44..48] == [Word(0x0c4763f2), Word(0x840abf27), Word(0x7a290d5d), Word(0x065c43da)]
            && w[48..52] == [Word(0xfb3e89cb), Word(0xcc7617db), Word(0xb9e66c34), Word(0xa9993667)]
            && w[52..56] == [Word(0x84badedd), Word(0xc21462bc), Word(0x1487472c), Word(0xb20f7a99)]
            && w[56..60] == [Word(0xef57b9cd), Word(0xebe6b238), Word(0x9fe3095e), Word(0x78bc8d4b)]
            && w[60..64] == [Word(0xa43fcf15), Word(0x668b2ff8), Word(0xeeaba2cc), Word(0x12b1edeb)]
  {
    hide Schedule, AbcBlock;
    var block := AbcBlock();
    var w := Schedule(block, 64);
    AbcStart(w);
    Schedule16To19(block, w);
    Schedule20To23(block, w);
    Schedule24To27(block, w);
    Schedule28To31(block, w);
    Schedule32To35(block, w);
    Schedule36To39(block, w);
    Schedule40To43(block, w);
    Schedule44To47(block, w);
    Schedule48To51(block, w);
    Schedule52To55(block, w);
    Schedule56To59(block, w);
    Schedule60To63(block, w);
  }

  lemma AbcStart(w: seq<Word>)
    requires w == Schedule(AbcBlock(), 64)
    ensures w[0..4] == [Word(0x61626380), Word(0x00000000), Word(0x00000000), Word(0x00000000)]
    ensures w[4..8] == [Word(0x00000000), Word(0x00000000), Word(0x00000000), Word(0x00000000)]
    ensures w[8..12] == [Word(0x00000000), Word(0x00000000), Word(0x00000000), Word(0x00000000)]
    ensures w[12..16] == [Word(0x00000000), Word(0x00000000), Word(0x00000000), Word(0x00000018)]
  {
    hide Schedule, AbcBlock;
    forall t | 0 <= t < 16 ensures w[t] == if t == 0 then Word(0x61626380) else if t == 15 then Word(24) else Word(0) {
      AbcWord(t);
    }
  }

  lemma AbcInitial()
    ensures InitialHash() == [Word(0x6a09e667), Word(0xbb67ae85), Word(0x3c6ef372), Word(0xa54ff53a),
            Word(0x510e527f), Word(0x9b05688c), Word(0x1f83d9ab), Word(0x5be0cd19)]
  {
    hide InitialNumber, SameBits, WordOf;
    InitialWords();
    InitialBits();
    SameWord(0x6a09e667, 0x6a09e667);
    SameWord(0xbb67ae85, 0xbb67ae85);
    SameWord(0x3c6ef372, 0x3c6ef372);
    SameWord(0xa54ff53a, 0xa54ff53a);
    SameWord(0x510e527f, 0x510e527f);
    SameWord(0x9b05688c, 0x9b05688c);
    SameWord(0x1f83d9ab, 0x1f83d9ab);
    SameWord(0x5be0cd19, 0x5be0cd19);
  }

  lemma InitialBits()
    ensures SameBits(0x6a09e667, 0x6a09e667) && SameBits(0xbb67ae85, 0xbb67ae85) &&
            SameBits(0x3c6ef372, 0x3c6ef372) && SameBits(0xa54ff53a, 0xa54ff53a) &&
            SameBits(0x510e527f, 0x510e527f) && SameBits(0x9b05688c, 0x9b05688c) &&
            SameBits(0x1f83d9ab, 0x1f83d9ab) && SameBits(0x5be0cd19, 0x5be0cd19)
  {
  }

  lemma AbcRounds()
    ensures Rounds(WorkingOf(InitialHash()), Schedule(AbcBlock(), 64), 64) == Working(Word(0x506e3058),
            Word(0xd39a2165), Word(0x04d24d6c), Word(0xb85e2ce9), Word(0x5ef50f24), Word(0xfb121210),
            Word(0x948d25b6), Word(0x961f4894))
  {
    hide Schedule, AbcBlock, Round, InitialHash;
    var w := Schedule(AbcBlock(), 64);
    var s := WorkingOf(InitialHash());
    AbcSchedule();
    AbcInitial();
    Rounds0To3(s, w);
    Rounds4To7(s, w);
    Rounds8To11(s, w);
    Rounds12To15(s, w);
    Rounds16To19(s, w);
    Rounds20To23(s, w);
    Rounds24To27(s, w);
    Rounds28To31(s, w);
    Rounds32To35(s, w);
    Rounds36To39(s, w);
    Rounds40To43(s, w);
    Rounds44To47(s, w);
    Rounds48To51(s, w);
    Rounds52To55(s, w);
    Rounds56To59(s, w);
    Rounds60To63(s, w);
  }

  lemma AbcSums()
    ensures Word(0x6a09e667).Plus(Word(0x506e3058)) == Word(0xba7816bf)
    ensures Word(0xbb67ae85).Plus(Word(0xd39a2165)) == Word(0x8f01cfea)
    ensures Word(0x3c6ef372).Plus(Word(0x04d24d6c)) == Word(0x414140de)
    ensures Word(0xa54ff53a).Plus(Word(0xb85e2ce9)) == Word(0x5dae2223)
    ensures Word(0x510e527f).Plus(Word(0x5ef50f24)) == Word(0xb00361a3)
    ensures Word(0x9b05688c).Plus(Word(0xfb121210)) == Word(0x96177a9c)
    ensures Word(0x1f83d9ab).Plus(Word(0x948d25b6)) == Word(0xb410ff61)
    ensures Word(0x5be0cd19).Plus(Word(0x961f4894)) == Word(0xf20015ad)
  {
  }

  lemma AbcHash()
    ensures Compress(InitialHash(), AbcBlock()) == [Word(0xba7816bf), Word(0x8f01cfea), Word(0x414140de),
            Word(0x5dae2223), Word(0xb00361a3), Word(0x96177a9c), Word(0xb410ff61), Word(0xf20015ad)]
  {
    hide Schedule, AbcBlock, Rounds, InitialHash, Word.Plus;
    AbcInitial();
    AbcRounds();
    AbcSums();
  }

  lemma AbcBytes()
    ensures Word(0xba7816bf).Bytes() == [0xba, 0x78, 0x16, 0xbf]
    ensures Word(0x8f01cfea).Bytes() == [0x8f, 0x01, 0xcf, 0xea]
    ensures Word(0x414140de).Bytes() == [0x41, 0x41, 0x40, 0xde]
    ensures Word(0x5dae2223).Bytes() == [0x5d, 0xae, 0x22, 0x23]
    ensures Word(0xb00361a3).Bytes() == [0xb0, 0x03, 0x61, 0xa3]
    ensures Word(0x96177a9c).Bytes() == [0x96, 0x17, 0x7a, 0x9c]
    ensures Word(0xb410ff61).Bytes() == [0xb4, 0x10, 0xff, 0x61]
    ensures Word(0xf20015ad).Bytes() == [0xf2, 0x00, 0x15, 0xad]
  {
  }

  lemma {:induction false} WordsBytesConcat(a: seq<Word>, b: seq<Word>)
    ensures WordsBytes(a + b) == WordsBytes(a) + WordsBytes(b)
  {
    hide Word.Bytes;
    if b == [] {
      assert a + b == a;
    } else {
      var butLast, last := b[..|b| - 1], b[|b| - 1];
      assert (a + b)[..|a + b| - 1] == a + butLast;
      WordsBytesConcat(a, butLast);
      Associative(WordsBytes(a), WordsBytes(butLast), last.Bytes());
    }
  }

  lemma TwoWords(a: Word, b: Word)
    ensures WordsBytes([a, b]) == a.Bytes() + b.Bytes()
  {
    hide Word.Bytes;
    assert [a, b][..1] == [a] && [a][..0] == [];
    assert WordsBytes([a]) == WordsBytes([]) + a.Bytes();
  }

  lemma FourWords(a: Word, b: Word, c: Word, d: Word)
    ensures WordsBytes([a, b, c, d]) == (a.Bytes() + b.Bytes()) + (c.Bytes() + d.Bytes())
  {
    hide Word.Bytes, WordsBytes;
    TwoWords(a, b);
    TwoWords(c, d);
    WordsBytesConcat([a, b], [c, d]);
    assert [a, b] + [c, d] == [a, b, c, d];
  }

  lemma AbcHalves()
    ensures WordsBytes([Word(0xba7816bf), Word(0x8f01cfea), Word(0x414140de), Word(0x5dae2223)]) == [0xba, 0x78,
            0x16, 0xbf, 0x8f, 0x01, 0xcf, 0xea, 0x41, 0x41, 0x40, 0xde, 0x5d, 0xae, 0x22, 0x23]
    ensures WordsBytes([Word(0xb00361a3), Word(0x96177a9c), Word(0xb410ff61), Word(0xf20015ad)]) == [0xb0, 0x03,
            0x61, 0xa3, 0x96, 0x17, 0x7a, 0x9c, 0xb4, 0x10, 0xff, 0x61, 0xf2, 0x00, 0x15, 0xad]
  {
    hide Word.Bytes, WordsBytes;
    AbcBytes();
    FourWords(Word(0xba7816bf), Word(0x8f01cfea), Word(0x414140de), Word(0x5dae2223));
    FourWords(Word(0xb00361a3), Word(0x96177a9c), Word(0xb410ff61), Word(0xf20015ad));
  }

  /** The digest of "abc" published with the standard. */
  lemma AbcDigest()
    ensures Digest(ABC) == [0xba, 0x78, 0x16, 0xbf, 0x8f, 0x01, 0xcf, 0xea, 0x41, 0x41, 0x40, 0xde, 0x5d, 0xae, 0x22,
            0x23, 0xb0, 0x03, 0x61, 0xa3, 0x96, 0x17, 0x7a, 0x9c, 0xb4, 0x10, 0xff, 0x61, 0xf2, 0x00, 0x15, 0xad]
  {
    hide Compress, WordsBytes, Padded, InitialHash, AbcBlock;
    AbcPadded();
    AbcHash();
    AbcHalves();
    assert AbcBlock()[0..64] == AbcBlock();
    assert HashBlocks(AbcBlock(), 0) == InitialHash();
    var low := [Word(0xba7816bf), Word(0x8f01cfea), Word(0x414140de), Word(0x5dae2223)];
    var high := [Word(0xb00361a3), Word(0x96177a9c), Word(0xb410ff61), Word(0xf20015ad)];
    WordsBytesConcat(low, high);
    assert HashBlocks(AbcBlock(), 1) == low + high;
  }

  lemma {:induction false} HexConcat(a: seq<byte>, b: seq<byte>)
    ensures Hex(a + b) == Hex(a) + Hex(b)
  {
    hide HexDigit;
    if b == [] {
      assert a + b == a;
    } else {
      var butLast, last := b[..|b| - 1], b[|b| - 1];
      assert (a + b)[..|a + b| - 1] == a + butLast;
      HexConcat(a, butLast);
      Associative(Hex(a), Hex(butLast), [HexDigit(last / 16), HexDigit(last % 16)]);
    }
  }

  lemma TwoBytesHex(a: byte, b: byte)
    ensures Hex([a, b]) == [HexDigit(a / 16), HexDigit(a % 16), HexDigit(b / 16), HexDigit(b % 16)]
  {
    hide HexDigit;
    assert [a, b][..1] == [a] && [a][..0] == [];
    assert Hex([a]) == Hex([]) + [HexDigit(a / 16), HexDigit(a % 16)];
  }

  predicate HexOf(bytes: seq<byte>, text: string)
    requires |bytes| == 2
  {
    text == [HexDigit(bytes[0] / 16), HexDigit(bytes[0] % 16), HexDigit(bytes[1] / 16), HexDigit(bytes[1] % 16)]
  }

  lemma AbcHex0()
    ensures Hex([0xba, 0x78, 0x16, 0xbf, 0x8f, 0x01, 0xcf, 0xea]) == "ba7816bf8f01cfea"
  {
    hide Hex;
    var p0: seq<byte> := [0xba, 0x78];
    TwoBytesHex(p0[0], p0[1]);
    assert HexOf(p0, "ba78");
    var p1: seq<byte> := [0x16, 0xbf];
    TwoBytesHex(p1[0], p1[1]);
    assert HexOf(p1, "16bf");
    var p2: seq<byte> := [0x8f, 0x01];
    TwoBytesHex(p2[0], p2[1]);
    assert HexOf(p2, "8f01");
    var p3: seq<byte> := [0xcf, 0xea];
    TwoBytesHex(p3[0], p3[1]);
    assert HexOf(p3, "cfea");
    HexConcat(p0, p1);
    HexConcat(p2, p3);
    HexConcat(p0 + p1, p2 + p3);
    assert p0 + p1 + (p2 + p3) == [0xba, 0x78, 0x16, 0xbf, 0x8f, 0x01, 0xcf, 0xea];
  }

  lemma AbcHex1()
    ensures Hex([0x41, 0x41, 0x40, 0xde, 0x5d, 0xae, 0x22, 0x23]) == "414140de5dae2223"
  {
    hide Hex;
    var p0: seq<byte> := [0x41, 0x41];
    TwoBytesHex(p0[0], p0[1]);
    assert HexOf(p0, "4141");
    var p1: seq<byte> := [0x40, 0xde];
    TwoBytesHex(p1[0], p1[1]);
    assert HexOf(p1, "40de");
    var p2: seq<byte> := [0x5d, 0xae];
    TwoBytesHex(p2[0], p2[1]);
    assert HexOf(p2, "5dae");
    var p3: seq<byte> := [0x22, 0x23];
    TwoBytesHex(p3[0], p3[1]);
    assert HexOf(p3, "2223");
    HexConcat(p0, p1);
    HexConcat(p2, p3);
    HexConcat(p0 + p1, p2 + p3);
    assert p0 + p1 + (p2 + p3) == [0x41, 0x41, 0x40, 0xde, 0x5d, 0xae, 0x22, 0x23];
  }

  lemma AbcHex2()
    ensures Hex([0xb0, 0x03, 0x61, 0xa3, 0x96, 0x17, 0x7a, 0x9c]) == "b00361a396177a9c"
  {
    hide Hex;
    var p0: seq<byte> := [0xb0, 0x03];
    TwoBytesHex(p0[0], p0[1]);
    assert HexOf(p0, "b003");
    var p1: seq<byte> := [0x61, 0xa3];
    TwoBytesHex(p1[0], p1[1]);
    assert HexOf(p1, "61a3");
    var p2: seq<byte> := [0x96, 0x17];
    TwoBytesHex(p2[0], p2[1]);
    assert HexOf(p2, "9617");
    var p3: seq<byte> := [0x7a, 0x9c];
    TwoBytesHex(p3[0], p3[1]);
    assert HexOf(p3, "7a9c");
    HexConcat(p0, p1);
    HexConcat(p2, p3);
    HexConcat(p0 + p1, p2 + p3);
    assert p0 + p1 + (p2 + p3) == [0xb0, 0x03, 0x61, 0xa3, 0x96, 0x17, 0x7a, 0x9c];
  }

  lemma AbcHex3()
    ensures Hex([0xb4, 0x10, 0xff, 0x61, 0xf2, 0x00, 0x15, 0xad]) == "b410ff61f20015ad"
  {
    hide Hex;
    var p0: seq<byte> := [0xb4, 0x10];
    TwoBytesHex(p0[0], p0[1]);
    assert HexOf(p0, "b410");
    var p1: seq<byte> := [0xff, 0x61];
    TwoBytesHex(p1[0], p1[1]);
    assert HexOf(p1, "ff61");
    var p2: seq<byte> := [0xf2, 0x00];
    TwoBytesHex(p2[0], p2[1]);
    assert HexOf(p2, "f200");
    var p3: seq<byte> := [0x15, 0xad];
    TwoBytesHex(p3[0], p3[1]);
    assert HexOf(p3, "15ad");
    HexConcat(p0, p1);
    HexConcat(p2, p3);
    HexConcat(p0 + p1, p2 + p3);
    assert p0 + p1 + (p2 + p3) == [0xb4, 0x10, 0xff, 0x61, 0xf2, 0x00, 0x15, 0xad];
  }

  /** And as text: the high digit of each byte first. */
  lemma AbcHex()
    ensures HexDigest("abc")
            == ("ba7816bf8f01cfea" + "414140de5dae2223")
               + ("b00361a396177a9c" + "b410ff61f20015ad")
  {
    hide Digest, HexDigit, Hex;
    assert TextBytes("abc") == ABC;
    AbcDigest();
    AbcHex0();
    var d0: seq<byte> := [0xba, 0x78, 0x16, 0xbf, 0x8f, 0x01, 0xcf, 0xea];
    AbcHex1();
    var d1: seq<byte> := [0x41, 0x41, 0x40, 0xde, 0x5d, 0xae, 0x22, 0x23];
    AbcHex2();
    var d2: seq<byte> := [0xb0, 0x03, 0x61, 0xa3, 0x96, 0x17, 0x7a, 0x9c];
    AbcHex3();
    var d3: seq<byte> := [0xb4, 0x10, 0xff, 0x61, 0xf2, 0x00, 0x15, 0xad];
    AbcQuarters();
    HexConcat(d0, d1);
    HexConcat(d2, d3);
    HexConcat(d0 + d1, d2 + d3);
  }

  lemma AbcQuarters()
    ensures Digest(ABC)
            == ([0xba, 0x78, 0x16, 0xbf, 0x8f, 0x01, 0xcf, 0xea]
               + [0x41, 0x41, 0x40, 0xde, 0x5d, 0xae, 0x22, 0x23])
               + ([0xb0, 0x03, 0x61, 0xa3, 0x96, 0x17, 0x7a, 0x9c]
               + [0xb4, 0x10, 0xff, 0x61, 0xf2, 0x00, 0x15, 0xad])
  {
    hide Digest;
    AbcDigest();
  }
}

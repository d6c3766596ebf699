/**
 The constants of SHA-256, by what they are: the first 32 bits of the fractional parts of the cube roots of
 the first 64 primes (section 4.2.2 of FIPS 180-4), and of the square roots of the first eight (section 5.3.3).
 */
module Sha256Constants {
  import opened Bytes
  import opened Sha256

  /** The cube root of `p` is `n` and a fraction whose first 32 bits are `k`. */
  predicate CubeRoot(p: nat, n: nat, k: nat) {
    var root := n * 0x1_0000_0000 + k;
    root * root * root <= p * 0x1_0000_0000_0000_0000_0000_0000 < (root + 1) * (root + 1) * (root + 1)
  }

  predicate SquareRoot(p: nat, n: nat, h: nat) {
    var root := n * 0x1_0000_0000 + h;
    root * root <= p * 0x1_0000_0000_0000_0000 < (root + 1) * (root + 1)
  }

  predicate SameBits(n: nat, bits: bv32) {
    n < 0x1_0000_0000 && n as bv32 == bits
  }

  lemma SameWord(n: nat, bits: bv32)
    requires SameBits(n, bits)
    ensures WordOf(n) == Word(bits)
  {
  }

  /** Round constant `t` comes from the prime `p`. */
  predicate IsConstant(t: nat, p: nat, n: nat, k: nat)
    requires t < 64
  {
    RoundNumber(t) == k && CubeRoot(p, n, k)
  }

  predicate IsInitial(i: nat, p: nat, n: nat, h: nat)
    requires i < 8
  {
    InitialNumber(i) == h && SquareRoot(p, n, h)
  }

  lemma InitialWords()
    ensures IsInitial(0, 2, 1, 0x6a09e667)
    ensures IsInitial(1, 3, 1, 0xbb67ae85)
    ensures IsInitial(2, 5, 2, 0x3c6ef372)
    ensures IsInitial(3, 7, 2, 0xa54ff53a)
    ensures IsInitial(4, 11, 3, 0x510e527f)
    ensures IsInitial(5, 13, 3, 0x9b05688c)
    ensures IsInitial(6, 17, 4, 0x1f83d9ab)
    ensures IsInitial(7, 19, 4, 0x5be0cd19)
  {
  }

  lemma Constants0To7()
    ensures IsConstant(0, 2, 1, 0x428a2f98)
    ensures IsConstant(1, 3, 1, 0x71374491)
    ensures IsConstant(2, 5, 1, 0xb5c0fbcf)
    ensures IsConstant(3, 7, 1, 0xe9b5dba5)
    ensures IsConstant(4, 11, 2, 0x3956c25b)
    ensures IsConstant(5, 13, 2, 0x59f111f1)
    ensures IsConstant(6, 17, 2, 0x923f82a4)
    ensures IsConstant(7, 19, 2, 0xab1c5ed5)
  {
    hide RoundNumber, CubeRoot;
    Roots0To7();
    Numbers0To7();
  }

  lemma Roots0To7()
    ensures CubeRoot(2, 1, 0x428a2f98) && CubeRoot(3, 1, 0x71374491) && CubeRoot(5, 1, 0xb5c0fbcf) &&
            CubeRoot(7, 1, 0xe9b5dba5) && CubeRoot(11, 2, 0x3956c25b) && CubeRoot(13, 2, 0x59f111f1) &&
            CubeRoot(17, 2, 0x923f82a4) && CubeRoot(19, 2, 0xab1c5ed5)
  {
  }

  lemma Words0To7()
    ensures SameBits(0x428a2f98, 0x428a2f98) && SameBits(0x71374491, 0x71374491) &&
            SameBits(0xb5c0fbcf, 0xb5c0fbcf) && SameBits(0xe9b5dba5, 0xe9b5dba5) &&
            SameBits(0x3956c25b, 0x3956c25b) && SameBits(0x59f111f1, 0x59f111f1) &&
            SameBits(0x923f82a4, 0x923f82a4) && SameBits(0xab1c5ed5, 0xab1c5ed5)
  {
  }

  lemma Numbers0To7()
    ensures RoundNumber(0) == 0x428a2f98 && RoundNumber(1) == 0x71374491 && RoundNumber(2) == 0xb5c0fbcf &&
            RoundNumber(3) == 0xe9b5dba5 && RoundNumber(4) == 0x3956c25b && RoundNumber(5) == 0x59f111f1 &&
            RoundNumber(6) == 0x923f82a4 && RoundNumber(7) == 0xab1c5ed5
  {
  }

  lemma Constants8To15()
    ensures IsConstant(8, 23, 2, 0xd807aa98)
    ensures IsConstant(9, 29, 3, 0x12835b01)
    ensures IsConstant(10, 31, 3, 0x243185be)
    ensures IsConstant(11, 37, 3, 0x550c7dc3)
    ensures IsConstant(12, 41, 3, 0x72be5d74)
    ensures IsConstant(13, 43, 3, 0x80deb1fe)
    ensures IsConstant(14, 47, 3, 0x9bdc06a7)
    ensures IsConstant(15, 53, 3, 0xc19bf174)
  {
    hide RoundNumber, CubeRoot;
    Roots8To15();
    Numbers8To15();
  }

  lemma Roots8To15()
    ensures CubeRoot(23, 2, 0xd807aa98) && CubeRoot(29, 3, 0x12835b01) && CubeRoot(31, 3, 0x243185be) &&
            CubeRoot(37, 3, 0x550c7dc3) && CubeRoot(41, 3, 0x72be5d74) && CubeRoot(43, 3, 0x80deb1fe) &&
            CubeRoot(47, 3, 0x9bdc06a7) && CubeRoot(53, 3, 0xc19bf174)
  {
  }

  lemma Words8To15()
    ensures SameBits(0xd807aa98, 0xd807aa98) && SameBits(0x12835b01, 0x12835b01) &&
            SameBits(0x243185be, 0x243185be) && SameBits(0x550c7dc3, 0x550c7dc3) &&
            SameBits(0x72be5d74, 0x72be5d74) && SameBits(0x80deb1fe, 0x80deb1fe) &&
            SameBits(0x9bdc06a7, 0x9bdc06a7) && SameBits(0xc19bf174, 0xc19bf174)
  {
  }

  lemma Numbers8To15()
    ensures RoundNumber(8) == 0xd807aa98 && RoundNumber(9) == 0x12835b01 && RoundNumber(10) == 0x243185be &&
            RoundNumber(11) == 0x550c7dc3 && RoundNumber(12) == 0x72be5d74 && RoundNumber(13) == 0x80deb1fe &&
            RoundNumber(14) == 0x9bdc06a7 && RoundNumber(15) == 0xc19bf174
  {
  }

  lemma Constants16To23()
    ensures IsConstant(16, 59, 3, 0xe49b69c1)
    ensures IsConstant(17, 61, 3, 0xefbe4786)
    ensures IsConstant(18, 67, 4, 0x0fc19dc6)
    ensures IsConstant(19, 71, 4, 0x240ca1cc)
    ensures IsConstant(20, 73, 4, 0x2de92c6f)
    ensures IsConstant(21, 79, 4, 0x4a7484aa)
    ensures IsConstant(22, 83, 4, 0x5cb0a9dc)
    ensures IsConstant(23, 89, 4, 0x76f988da)
  {
    hide RoundNumber, CubeRoot;
    Roots16To23();
    Numbers16To23();
  }

  lemma Roots16To23()
    ensures CubeRoot(59, 3, 0xe49b69c1) && CubeRoot(61, 3, 0xefbe4786) && CubeRoot(67, 4, 0x0fc19dc6) &&
            CubeRoot(71, 4, 0x240ca1cc) && CubeRoot(73, 4, 0x2de92c6f) && CubeRoot(79, 4, 0x4a7484aa) &&
            CubeRoot(83, 4, 0x5cb0a9dc) && CubeRoot(89, 4, 0x76f988da)
  {
  }

  lemma Words16To23()
    ensures SameBits(0xe49b69c1, 0xe49b69c1) && SameBits(0xefbe4786, 0xefbe4786) &&
            SameBits(0x0fc19dc6, 0x0fc19dc6) && SameBits(0x240ca1cc, 0x240ca1cc) &&
            SameBits(0x2de92c6f, 0x2de92c6f) && SameBits(0x4a7484aa, 0x4a7484aa) &&
            SameBits(0x5cb0a9dc, 0x5cb0a9dc) && SameBits(0x76f988da, 0x76f988da)
  {
  }

  lemma Numbers16To23()
    ensures RoundNumber(16) == 0xe49b69c1 && RoundNumber(17) == 0xefbe4786 && RoundNumber(18) == 0x0fc19dc6 &&
            RoundNumber(19) == 0x240ca1cc && RoundNumber(20) == 0x2de92c6f && RoundNumber(21) == 0x4a7484aa &&
            RoundNumber(22) == 0x5cb0a9dc && RoundNumber(23) == 0x76f988da
  {
  }

  lemma Constants24To31()
    ensures IsConstant(24, 97, 4, 0x983e5152)
    ensures IsConstant(25, 101, 4, 0xa831c66d)
    ensures IsConstant(26, 103, 4, 0xb00327c8)
    ensures IsConstant(27, 107, 4, 0xbf597fc7)
    ensures IsConstant(28, 109, 4, 0xc6e00bf3)
    ensures IsConstant(29, 113, 4, 0xd5a79147)
    ensures IsConstant(30, 127, 5, 0x06ca6351)
    ensures IsConstant(31, 131, 5, 0x14292967)
  {
    hide RoundNumber, CubeRoot;
    Roots24To31();
    Numbers24To31();
  }

  lemma Roots24To31()
    ensures CubeRoot(97, 4, 0x983e5152) && CubeRoot(101, 4, 0xa831c66d) && CubeRoot(103, 4, 0xb00327c8) &&
            CubeRoot(107, 4, 0xbf597fc7) && CubeRoot(109, 4, 0xc6e00bf3) && CubeRoot(113, 4, 0xd5a79147) &&
            CubeRoot(127, 5, 0x06ca6351) && CubeRoot(131, 5, 0x14292967)
  {
  }

  lemma Words24To31()
    ensures SameBits(0x983e5152, 0x983e5152) && SameBits(0xa831c66d, 0xa831c66d) &&
            SameBits(0xb00327c8, 0xb00327c8) && SameBits(0xbf597fc7, 0xbf597fc7) &&
            SameBits(0xc6e00bf3, 0xc6e00bf3) && SameBits(0xd5a79147, 0xd5a79147) &&
            SameBits(0x06ca6351, 0x06ca6351) && SameBits(0x14292967, 0x14292967)
  {
  }

  lemma Numbers24To31()
    ensures RoundNumber(24) == 0x983e5152 && RoundNumber(25) == 0xa831c66d && RoundNumber(26) == 0xb00327c8 &&
            RoundNumber(27) == 0xbf597fc7 && RoundNumber(28) == 0xc6e00bf3 && RoundNumber(29) == 0xd5a79147 &&
            RoundNumber(30) == 0x06ca6351 && RoundNumber(31) == 0x14292967
  {
  }

  lemma Constants32To39()
    ensures IsConstant(32, 137, 5, 0x27b70a85)
    ensures IsConstant(33, 139, 5, 0x2e1b2138)
    ensures IsConstant(34, 149, 5, 0x4d2c6dfc)
    ensures IsConstant(35, 151, 5, 0x53380d13)
    ensures IsConstant(36, 157, 5, 0x650a7354)
    ensures IsConstant(37, 163, 5, 0x766a0abb)
    ensures IsConstant(38, 167, 5, 0x81c2c92e)
    ensures IsConstant(39, 173, 5, 0x92722c85)
  {
    hide RoundNumber, CubeRoot;
    Roots32To39();
    Numbers32To39();
  }

  lemma Roots32To39()
    ensures CubeRoot(137, 5, 0x27b70a85) && CubeRoot(139, 5, 0x2e1b2138) && CubeRoot(149, 5, 0x4d2c6dfc) &&
            CubeRoot(151, 5, 0x53380d13) && CubeRoot(157, 5, 0x650a7354) && CubeRoot(163, 5, 0x766a0abb) &&
            CubeRoot(167, 5, 0x81c2c92e) && CubeRoot(173, 5, 0x92722c85)
  {
  }

  lemma Words32To39()
    ensures SameBits(0x27b70a85, 0x27b70a85) && SameBits(0x2e1b2138, 0x2e1b2138) &&
            SameBits(0x4d2c6dfc, 0x4d2c6dfc) && SameBits(0x53380d13, 0x53380d13) &&
            SameBits(0x650a7354, 0x650a7354) && SameBits(0x766a0abb, 0x766a0abb) &&
            SameBits(0x81c2c92e, 0x81c2c92e) && SameBits(0x92722c85, 0x92722c85)
  {
  }

  lemma Numbers32To39()
    ensures RoundNumber(32) == 0x27b70a85 && RoundNumber(33) == 0x2e1b2138 && RoundNumber(34) == 0x4d2c6dfc &&
            RoundNumber(35) == 0x53380d13 && RoundNumber(36) == 0x650a7354 && RoundNumber(37) == 0x766a0abb &&
            RoundNumber(38) == 0x81c2c92e && RoundNumber(39) == 0x92722c85
  {
  }

  lemma Constants40To47()
    ensures IsConstant(40, 179, 5, 0xa2bfe8a1)
    ensures IsConstant(41, 181, 5, 0xa81a664b)
    ensures IsConstant(42, 191, 5, 0xc24b8b70)
    ensures IsConstant(43, 193, 5, 0xc76c51a3)
    ensures IsConstant(44, 197, 5, 0xd192e819)
    ensures IsConstant(45, 199, 5, 0xd6990624)
    ensures IsConstant(46, 211, 5, 0xf40e3585)
    ensures IsConstant(47, 223, 6, 0x106aa070)
  {
    hide RoundNumber, CubeRoot;
    Roots40To47();
    Numbers40To47();
  }

  lemma Roots40To47()
    ensures CubeRoot(179, 5, 0xa2bfe8a1) && CubeRoot(181, 5, 0xa81a664b) && CubeRoot(191, 5, 0xc24b8b70) &&
            CubeRoot(193, 5, 0xc76c51a3) && CubeRoot(197, 5, 0xd192e819) && CubeRoot(199, 5, 0xd6990624) &&
            CubeRoot(211, 5, 0xf40e3585) && CubeRoot(223, 6, 0x106aa070)
  {
  }

  lemma Words40To47()
    ensures SameBits(0xa2bfe8a1, 0xa2bfe8a1) && SameBits(0xa81a664b, 0xa81a664b) &&
            SameBits(0xc24b8b70, 0xc24b8b70) && SameBits(0xc76c51a3, 0xc76c51a3) &&
            SameBits(0xd192e819, 0xd192e819) && SameBits(0xd6990624, 0xd6990624) &&
            SameBits(0xf40e3585, 0xf40e3585) && SameBits(0x106aa070, 0x106aa070)
  {
  }

  lemma Numbers40To47()
    ensures RoundNumber(40) == 0xa2bfe8a1 && RoundNumber(41) == 0xa81a664b && RoundNumber(42) == 0xc24b8b70 &&
            RoundNumber(43) == 0xc76c51a3 && RoundNumber(44) == 0xd192e819 && RoundNumber(45) == 0xd6990624 &&
            RoundNumber(46) == 0xf40e3585 && RoundNumber(47) == 0x106aa070
  {
  }

  lemma Constants48To55()
    ensures IsConstant(48, 227, 6, 0x19a4c116)
    ensures IsConstant(49, 229, 6, 0x1e376c08)
    ensures IsConstant(50, 233, 6, 0x2748774c)
    ensures IsConstant(51, 239, 6, 0x34b0bcb5)
    ensures IsConstant(52, 241, 6, 0x391c0cb3)
    ensures IsConstant(53, 251, 6, 0x4ed8aa4a)
    ensures IsConstant(54, 257, 6, 0x5b9cca4f)
    ensures IsConstant(55, 263, 6, 0x682e6ff3)
  {
    hide RoundNumber, CubeRoot;
    Roots48To55();
    Numbers48To55();
  }

  lemma Roots48To55()
    ensures CubeRoot(227, 6, 0x19a4c116) && CubeRoot(229, 6, 0x1e376c08) && CubeRoot(233, 6, 0x2748774c) &&
            CubeRoot(239, 6, 0x34b0bcb5) && CubeRoot(241, 6, 0x391c0cb3) && CubeRoot(251, 6, 0x4ed8aa4a) &&
            CubeRoot(257, 6, 0x5b9cca4f) && CubeRoot(263, 6, 0x682e6ff3)
  {
  }

  lemma Words48To55()
    ensures SameBits(0x19a4c116, 0x19a4c116) && SameBits(0x1e376c08, 0x1e376c08) &&
            SameBits(0x2748774c, 0x2748774c) && SameBits(0x34b0bcb5, 0x34b0bcb5) &&
            SameBits(0x391c0cb3, 0x391c0cb3) && SameBits(0x4ed8aa4a, 0x4ed8aa4a) &&
            SameBits(0x5b9cca4f, 0x5b9cca4f) && SameBits(0x682e6ff3, 0x682e6ff3)
  {
  }

  lemma Numbers48To55()
    ensures RoundNumber(48) == 0x19a4c116 && RoundNumber(49) == 0x1e376c08 && RoundNumber(50) == 0x2748774c &&
            RoundNumber(51) == 0x34b0bcb5 && RoundNumber(52) == 0x391c0cb3 && RoundNumber(53) == 0x4ed8aa4a &&
            RoundNumber(54) == 0x5b9cca4f && RoundNumber(55) == 0x682e6ff3
  {
  }

  lemma Constants56To63()
    ensures IsConstant(56, 269, 6, 0x748f82ee)
    ensures IsConstant(57, 271, 6, 0x78a5636f)
    ensures IsConstant(58, 277, 6, 0x84c87814)
    ensures IsConstant(59, 281, 6, 0x8cc70208)
    ensures IsConstant(60, 283, 6, 0x90befffa)
    ensures IsConstant(61, 293, 6, 0xa4506ceb)
    ensures IsConstant(62, 307, 6, 0xbef9a3f7)
    ensures IsConstant(63, 311, 6, 0xc67178f2)
  {
    hide RoundNumber, CubeRoot;
    Roots56To63();
    Numbers56To63();
  }

  lemma Roots56To63()
    ensures CubeRoot(269, 6, 0x748f82ee) && CubeRoot(271, 6, 0x78a5636f) && CubeRoot(277, 6, 0x84c87814) &&
            CubeRoot(281, 6, 0x8cc70208) && CubeRoot(283, 6, 0x90befffa) && CubeRoot(293, 6, 0xa4506ceb) &&
            CubeRoot(307, 6, 0xbef9a3f7) && CubeRoot(311, 6, 0xc67178f2)
  {
  }

  lemma Words56To63()
    ensures SameBits(0x748f82ee, 0x748f82ee) && SameBits(0x78a5636f, 0x78a5636f) &&
            SameBits(0x84c87814, 0x84c87814) && SameBits(0x8cc70208, 0x8cc70208) &&
            SameBits(0x90befffa, 0x90befffa) && SameBits(0xa4506ceb, 0xa4506ceb) &&
            SameBits(0xbef9a3f7, 0xbef9a3f7) && SameBits(0xc67178f2, 0xc67178f2)
  {
  }

  lemma Numbers56To63()
    ensures RoundNumber(56) == 0x748f82ee && RoundNumber(57) == 0x78a5636f && RoundNumber(58) == 0x84c87814 &&
            RoundNumber(59) == 0x8cc70208 && RoundNumber(60) == 0x90befffa && RoundNumber(61) == 0xa4506ceb &&
            RoundNumber(62) == 0xbef9a3f7 && RoundNumber(63) == 0xc67178f2
  {
  }

  /** The first 64 primes. */
  function PrimeNumber(t: nat): nat
    requires t < 64
  {
    match t
    case 0 => 2 case 1 => 3 case 2 => 5 case 3 => 7
    case 4 => 11 case 5 => 13 case 6 => 17 case 7 => 19
    case 8 => 23 case 9 => 29 case 10 => 31 case 11 => 37
    case 12 => 41 case 13 => 43 case 14 => 47 case 15 => 53
    case 16 => 59 case 17 => 61 case 18 => 67 case 19 => 71
    case 20 => 73 case 21 => 79 case 22 => 83 case 23 => 89
    case 24 => 97 case 25 => 101 case 26 => 103 case 27 => 107
    case 28 => 109 case 29 => 113 case 30 => 127 case 31 => 131
    case 32 => 137 case 33 => 139 case 34 => 149 case 35 => 151
    case 36 => 157 case 37 => 163 case 38 => 167 case 39 => 173
    case 40 => 179 case 41 => 181 case 42 => 191 case 43 => 193
    case 44 => 197 case 45 => 199 case 46 => 211 case 47 => 223
    case 48 => 227 case 49 => 229 case 50 => 233 case 51 => 239
    case 52 => 241 case 53 => 251 case 54 => 257 case 55 => 263
    case 56 => 269 case 57 => 271 case 58 => 277 case 59 => 281
    case 60 => 283 case 61 => 293 case 62 => 307 case _ => 311
  }

  /** Every round constant is that part of the cube root of its prime. */
  lemma ConstantOfPrime(t: nat)
    requires t < 64
    ensures exists n: nat :: CubeRoot(PrimeNumber(t), n, RoundNumber(t))
  {
    hide RoundNumber, CubeRoot;
    if t < 8 {
      Of0To7(t);
    } else if t < 16 {
      Of8To15(t);
    } else if t < 24 {
      Of16To23(t);
    } else if t < 32 {
      Of24To31(t);
    } else if t < 40 {
      Of32To39(t);
    } else if t < 48 {
      Of40To47(t);
    } else if t < 56 {
      Of48To55(t);
    } else {
      Of56To63(t);
    }
  }

  lemma Of0To7(t: nat)
    requires 0 <= t < 8
    ensures exists n: nat :: CubeRoot(PrimeNumber(t), n, RoundNumber(t))
  {
    hide RoundNumber, CubeRoot;
    Constants0To7();
    match t
    case 0 => assert PrimeNumber(t) == 2 && CubeRoot(PrimeNumber(t), 1, RoundNumber(t));
    case 1 => assert PrimeNumber(t) == 3 && CubeRoot(PrimeNumber(t), 1, RoundNumber(t));
    case 2 => assert PrimeNumber(t) == 5 && CubeRoot(PrimeNumber(t), 1, RoundNumber(t));
    case 3 => assert PrimeNumber(t) == 7 && CubeRoot(PrimeNumber(t), 1, RoundNumber(t));
    case 4 => assert PrimeNumber(t) == 11 && CubeRoot(PrimeNumber(t), 2, RoundNumber(t));
    case 5 => assert PrimeNumber(t) == 13 && CubeRoot(PrimeNumber(t), 2, RoundNumber(t));
    case 6 => assert PrimeNumber(t) == 17 && CubeRoot(PrimeNumber(t), 2, RoundNumber(t));
    case _ =>
      assert t == 7;
      assert PrimeNumber(t) == 19 && CubeRoot(PrimeNumber(t), 2, RoundNumber(t));
  }

  lemma Of8To15(t: nat)
    requires 8 <= t < 16
    ensures exists n: nat :: CubeRoot(PrimeNumber(t), n, RoundNumber(t))
  {
    hide RoundNumber, CubeRoot;
    Constants8To15();
    match t
    case 8 => assert PrimeNumber(t) == 23 && CubeRoot(PrimeNumber(t), 2, RoundNumber(t));
    case 9 => assert PrimeNumber(t) == 29 && CubeRoot(PrimeNumber(t), 3, RoundNumber(t));
    case 10 => assert PrimeNumber(t) == 31 && CubeRoot(PrimeNumber(t), 3, RoundNumber(t));
    case 11 => assert PrimeNumber(t) == 37 && CubeRoot(PrimeNumber(t), 3, RoundNumber(t));
    case 12 => assert PrimeNumber(t) == 41 && CubeRoot(PrimeNumber(t), 3, RoundNumber(t));
    case 13 => assert PrimeNumber(t) == 43 && CubeRoot(PrimeNumber(t), 3, RoundNumber(t));
    case 14 => assert PrimeNumber(t) == 47 && CubeRoot(PrimeNumber(t), 3, RoundNumber(t));
    case _ =>
      assert t == 15;
      assert PrimeNumber(t) == 53 && CubeRoot(PrimeNumber(t), 3, RoundNumber(t));
  }

  lemma Of16To23(t: nat)
    requires 16 <= t < 24
    ensures exists n: nat :: CubeRoot(PrimeNumber(t), n, RoundNumber(t))
  {
    hide RoundNumber, CubeRoot;
    Constants16To23();
    match t
    case 16 => assert PrimeNumber(t) == 59 && CubeRoot(PrimeNumber(t), 3, RoundNumber(t));
    case 17 => assert PrimeNumber(t) == 61 && CubeRoot(PrimeNumber(t), 3, RoundNumber(t));
    case 18 => assert PrimeNumber(t) == 67 && CubeRoot(PrimeNumber(t), 4, RoundNumber(t));
    case 19 => assert PrimeNumber(t) == 71 && CubeRoot(PrimeNumber(t), 4, RoundNumber(t));
    case 20 => assert PrimeNumber(t) == 73 && CubeRoot(PrimeNumber(t), 4, RoundNumber(t));
    case 21 => assert PrimeNumber(t) == 79 && CubeRoot(PrimeNumber(t), 4, RoundNumber(t));
    case 22 => assert PrimeNumber(t) == 83 && CubeRoot(PrimeNumber(t), 4, RoundNumber(t));
    case _ =>
      assert t == 23;
      assert PrimeNumber(t) == 89 && CubeRoot(PrimeNumber(t), 4, RoundNumber(t));
  }

  lemma Of24To31(t: nat)
    requires 24 <= t < 32
    ensures exists n: nat :: CubeRoot(PrimeNumber(t), n, RoundNumber(t))
  {
    hide RoundNumber, CubeRoot;
    Constants24To31();
    match t
    case 24 => assert PrimeNumber(t) == 97 && CubeRoot(PrimeNumber(t), 4, RoundNumber(t));
    case 25 => assert PrimeNumber(t) == 101 && CubeRoot(PrimeNumber(t), 4, RoundNumber(t));
    case 26 => assert PrimeNumber(t) == 103 && CubeRoot(PrimeNumber(t), 4, RoundNumber(t));
    case 27 => assert PrimeNumber(t) == 107 && CubeRoot(PrimeNumber(t), 4, RoundNumber(t));
    case 28 => assert PrimeNumber(t) == 109 && CubeRoot(PrimeNumber(t), 4, RoundNumber(t));
    case 29 => assert PrimeNumber(t) == 113 && CubeRoot(PrimeNumber(t), 4, RoundNumber(t));
    case 30 => assert PrimeNumber(t) == 127 && CubeRoot(PrimeNumber(t), 5, RoundNumber(t));
    case _ =>
      assert t == 31;
      assert PrimeNumber(t) == 131 && CubeRoot(PrimeNumber(t), 5, RoundNumber(t));
  }

  lemma Of32To39(t: nat)
    requires 32 <= t < 40
    ensures exists n: nat :: CubeRoot(PrimeNumber(t), n, RoundNumber(t))
  {
    hide RoundNumber, CubeRoot;
    Constants32To39();
    match t
    case 32 => assert PrimeNumber(t) == 137 && CubeRoot(PrimeNumber(t), 5, RoundNumber(t));
    case 33 => assert PrimeNumber(t) == 139 && CubeRoot(PrimeNumber(t), 5, RoundNumber(t));
    case 34 => assert PrimeNumber(t) == 149 && CubeRoot(PrimeNumber(t), 5, RoundNumber(t));
    case 35 => assert PrimeNumber(t) == 151 && CubeRoot(PrimeNumber(t), 5, RoundNumber(t));
    case 36 => assert PrimeNumber(t) == 157 && CubeRoot(PrimeNumber(t), 5, RoundNumber(t));
    case 37 => assert PrimeNumber(t) == 163 && CubeRoot(PrimeNumber(t), 5, RoundNumber(t));
    case 38 => assert PrimeNumber(t) == 167 && CubeRoot(PrimeNumber(t), 5, RoundNumber(t));
    case _ =>
      assert t == 39;
      assert PrimeNumber(t) == 173 && CubeRoot(PrimeNumber(t), 5, RoundNumber(t));
  }

  lemma Of40To47(t: nat)
    requires 40 <= t < 48
    ensures exists n: nat :: CubeRoot(PrimeNumber(t), n, RoundNumber(t))
  {
    hide RoundNumber, CubeRoot;
    Constants40To47();
    match t
    case 40 => assert PrimeNumber(t) == 179 && CubeRoot(PrimeNumber(t), 5, RoundNumber(t));
    case 41 => assert PrimeNumber(t) == 181 && CubeRoot(PrimeNumber(t), 5, RoundNumber(t));
    case 42 => assert PrimeNumber(t) == 191 && CubeRoot(PrimeNumber(t), 5, RoundNumber(t));
    case 43 => assert PrimeNumber(t) == 193 && CubeRoot(PrimeNumber(t), 5, RoundNumber(t));
    case 44 => assert PrimeNumber(t) == 197 && CubeRoot(PrimeNumber(t), 5, RoundNumber(t));
    case 45 => assert PrimeNumber(t) == 199 && CubeRoot(PrimeNumber(t), 5, RoundNumber(t));
    case 46 => assert PrimeNumber(t) == 211 && CubeRoot(PrimeNumber(t), 5, RoundNumber(t));
    case _ =>
      assert t == 47;
      assert PrimeNumber(t) == 223 && CubeRoot(PrimeNumber(t), 6, RoundNumber(t));
  }

  lemma Of48To55(t: nat)
    requires 48 <= t < 56
    ensures exists n: nat :: CubeRoot(PrimeNumber(t), n, RoundNumber(t))
  {
    hide RoundNumber, CubeRoot;
    Constants48To55();
    match t
    case 48 => assert PrimeNumber(t) == 227 && CubeRoot(PrimeNumber(t), 6, RoundNumber(t));
    case 49 => assert PrimeNumber(t) == 229 && CubeRoot(PrimeNumber(t), 6, RoundNumber(t));
    case 50 => assert PrimeNumber(t) == 233 && CubeRoot(PrimeNumber(t), 6, RoundNumber(t));
    case 51 => assert PrimeNumber(t) == 239 && CubeRoot(PrimeNumber(t), 6, RoundNumber(t));
    case 52 => assert PrimeNumber(t) == 241 && CubeRoot(PrimeNumber(t), 6, RoundNumber(t));
    case 53 => assert PrimeNumber(t) == 251 && CubeRoot(PrimeNumber(t), 6, RoundNumber(t));
    case 54 => assert PrimeNumber(t) == 257 && CubeRoot(PrimeNumber(t), 6, RoundNumber(t));
    case _ =>
      assert t == 55;
      assert PrimeNumber(t) == 263 && CubeRoot(PrimeNumber(t), 6, RoundNumber(t));
  }

  lemma Of56To63(t: nat)
    requires 56 <= t < 64
    ensures exists n: nat :: CubeRoot(PrimeNumber(t), n, RoundNumber(t))
  {
    hide RoundNumber, CubeRoot;
    Constants56To63();
    match t
    case 56 => assert PrimeNumber(t) == 269 && CubeRoot(PrimeNumber(t), 6, RoundNumber(t));
    case 57 => assert PrimeNumber(t) == 271 && CubeRoot(PrimeNumber(t), 6, RoundNumber(t));
    case 58 => assert PrimeNumber(t) == 277 && CubeRoot(PrimeNumber(t), 6, RoundNumber(t));
    case 59 => assert PrimeNumber(t) == 281 && CubeRoot(PrimeNumber(t), 6, RoundNumber(t));
    case 60 => assert PrimeNumber(t) == 283 && CubeRoot(PrimeNumber(t), 6, RoundNumber(t));
    case 61 => assert PrimeNumber(t) == 293 && CubeRoot(PrimeNumber(t), 6, RoundNumber(t));
    case 62 => assert PrimeNumber(t) == 307 && CubeRoot(PrimeNumber(t), 6, RoundNumber(t));
    case _ =>
      assert t == 63;
      assert PrimeNumber(t) == 311 && CubeRoot(PrimeNumber(t), 6, RoundNumber(t));
  }
}

/**
 * Fixed points of MD5: laws of the auxiliary functions, the order in which RFC 1321 reads the words
 * of a block, and its first test vector (appendix A.5), step by step.
 */
module Md5Vectors {
  import opened Bytes
  import opened Md5Spec

  // ----- The auxiliary functions

  lemma BitsOfValue(u: bv32)
    ensures Bits(Value(u)) == u
  {
  }

  lemma Choice(x: bv32, y: bv32, z: bv32)
    ensures var f := (x & y) | (!x & z); f & x == y & x && f & !x == z & !x
  {
  }

  lemma FBits(x: word, y: word, z: word)
    ensures Bits(F(x, y, z)) == (Bits(x) & Bits(y)) | (!Bits(x) & Bits(z))
  {
    hide Bits, Value;
    BitsOfValue((Bits(x) & Bits(y)) | (!Bits(x) & Bits(z)));
  }

  /** F takes y where x is set and z elsewhere. */
  lemma FChooses(x: word, y: word, z: word)
    ensures var f, bx := Bits(F(x, y, z)), Bits(x); f & bx == Bits(y) & bx && f & !bx == Bits(z) & !bx
  {
    hide F, Bits;
    FBits(x, y, z);
    Choice(Bits(x), Bits(y), Bits(z));
  }

  lemma SwappedChoice(x: bv32, y: bv32, z: bv32)
    ensures var g := (x & z) | (y & !z); g & z == x & z && g & !z == y & !z
  {
  }

  lemma GBits(x: word, y: word, z: word)
    ensures Bits(G(x, y, z)) == (Bits(x) & Bits(z)) | (Bits(y) & !Bits(z))
  {
    hide Bits, Value;
    BitsOfValue((Bits(x) & Bits(z)) | (Bits(y) & !Bits(z)));
  }

  /** G takes x where z is set and y elsewhere. */
  lemma GChooses(x: word, y: word, z: word)
    ensures var g, bz := Bits(G(x, y, z)), Bits(z); g & bz == Bits(x) & bz && g & !bz == Bits(y) & !bz
  {
    hide G, Bits;
    GBits(x, y, z);
    SwappedChoice(Bits(x), Bits(y), Bits(z));
  }

  // ----- The order of the words

  /** Each round reads every word once, in the order RFC 1321 lists. */
  lemma ScheduleIs(i: nat)
    requires i < 16
    ensures Schedule(i) == i
    ensures Schedule(16 + i) == [1, 6, 11, 0, 5, 10, 15, 4, 9, 14, 3, 8, 13, 2, 7, 12][i]
    ensures Schedule(32 + i) == [5, 8, 11, 14, 1, 4, 7, 10, 13, 0, 3, 6, 9, 12, 15, 2][i]
    ensures Schedule(48 + i) == [0, 7, 14, 5, 12, 3, 10, 1, 8, 15, 6, 13, 4, 11, 2, 9][i]
  {
  }

  // ----- MD5 of the empty message

  /** The padded empty message. */
  const BLOCK: seq<word> := [0x80, 0, 0, 0, 0, 0, 0, 0, 0, 0, 0, 0, 0, 0, 0, 0]

  /** Step n, from known registers; f is the auxiliary value and v the register it computes. */
  lemma Next(n: nat, r: Regs, f: word, v: word)
    requires n < 64 && Steps(INIT, BLOCK, n) == r && Auxiliary(n, r.b, r.c, r.d) == f
    requires Mix(f, r.a, r.b, BLOCK[Schedule(n)], ShiftOf(n), SineWord(n)) == v
    ensures Steps(INIT, BLOCK, n + 1) == Regs(r.d, v, r.b, r.c)
  {
    hide Auxiliary, Mix;
  }

  lemma FTo8()
    ensures F(0xefcdab89, 0x98badcfe, 0x10325476) == 0x98badcfe
    ensures F(0xa5202774, 0xefcdab89, 0x98badcfe) == 0xbd9afb8a
    ensures F(0xf59592dd, 0xa5202774, 0xefcdab89) == 0xaf482b54
    ensures F(0xe7f06b23, 0xf59592dd, 0xa5202774) == 0xe5900655
    ensures F(0x1b163203, 0xe7f06b23, 0xf59592dd) == 0xe791a2df
    ensures F(0x32033344, 0x1b163203, 0xe7f06b23) == 0xd7f27a23
    ensures F(0x2f35d494, 0x32033344, 0x1b163203) == 0x32033207
    ensures F(0xf5b158db, 0x2f35d494, 0x32033344) == 0x27337394
  {
  }

  lemma MixTo8()
    ensures Mix(0x98badcfe, 0x67452301, 0xefcdab89, 0x80, 7, 0xd76aa478) == 0xa5202774
    ensures Mix(0xbd9afb8a, 0x10325476, 0xa5202774, 0, 12, 0xe8c7b756) == 0xf59592dd
    ensures Mix(0xaf482b54, 0x98badcfe, 0xf59592dd, 0, 17, 0x242070db) == 0xe7f06b23
    ensures Mix(0xe5900655, 0xefcdab89, 0xe7f06b23, 0, 22, 0xc1bdceee) == 0x1b163203
    ensures Mix(0xe791a2df, 0xa5202774, 0x1b163203, 0, 7, 0xf57c0faf) == 0x32033344
    ensures Mix(0xd7f27a23, 0xf59592dd, 0x32033344, 0, 12, 0x4787c62a) == 0x2f35d494
    ensures Mix(0x32033207, 0xe7f06b23, 0x2f35d494, 0, 17, 0xa8304613) == 0xf5b158db
    ensures Mix(0x27337394, 0x1b163203, 0xf5b158db, 0, 22, 0xfd469501) == 0x9bc13ce9
  {
  }

  lemma FTo16()
    ensures F(0x9bc13ce9, 0xf5b158db, 0x2f35d494) == 0xb5b5d8dd
    ensures F(0x3893b991, 0x9bc13ce9, 0xf5b158db) == 0xdda178cb
    ensures F(0xfce4a312, 0x3893b991, 0x9bc13ce9) == 0x3b81bdf9
    ensures F(0xe1ef0576, 0xfce4a312, 0x3893b991) == 0xf8f4b993
    ensures F(0x70768a29, 0xe1ef0576, 0xfce4a312) == 0xece62132
    ensures F(0xf56c7cf1, 0x70768a29, 0xe1ef0576) == 0x70e70927
    ensures F(0x374943a7, 0xf56c7cf1, 0x70768a29) == 0x757ec8a9
    ensures F(0x5aa53f75, 0x374943a7, 0xf56c7cf1) == 0xb74943a5
  {
  }

  lemma MixTo16()
    ensures Mix(0xb5b5d8dd, 0x32033344, 0x9bc13ce9, 0, 7, 0x698098d8) == 0x3893b991
    ensures Mix(0xdda178cb, 0x2f35d494, 0x3893b991, 0, 12, 0x8b44f7af) == 0xfce4a312
    ensures Mix(0x3b81bdf9, 0xf5b158db, 0xfce4a312, 0, 17, 0xffff5bb1) == 0xe1ef0576
    ensures Mix(0xf8f4b993, 0x9bc13ce9, 0xe1ef0576, 0, 22, 0x895cd7be) == 0x70768a29
    ensures Mix(0xece62132, 0x3893b991, 0x70768a29, 0, 7, 0x6b901122) == 0xf56c7cf1
    ensures Mix(0x70e70927, 0xfce4a312, 0xf56c7cf1, 0, 12, 0xfd987193) == 0x374943a7
    ensures Mix(0x757ec8a9, 0xe1ef0576, 0x374943a7, 0, 17, 0xa679438e) == 0x5aa53f75
    ensures Mix(0xb74943a5, 0x70768a29, 0x5aa53f75, 0, 22, 0x49b40821) == 0xd6819c6a
  {
  }

  lemma GTo24()
    ensures G(0xd6819c6a, 0x5aa53f75, 0x374943a7) == 0x5ea53c72
    ensures G(0x1c7d7513, 0xd6819c6a, 0x5aa53f75) == 0x9c25b51b
    ensures G(0x7bd57a3a, 0x1c7d7513, 0xd6819c6a) == 0x5afd793b
    ensures G(0xc095f13a, 0x7bd57a3a, 0x1c7d7513) == 0x63957b3a
    ensures G(0xbd782e17, 0xc095f13a, 0x7bd57a3a) == 0xb950ab12
    ensures G(0x3d1e3e6c, 0xbd782e17, 0xc095f13a) == 0x3d7c3e2d
    ensures G(0x68b7b3e3, 0x3d1e3e6c, 0xbd782e17) == 0x2836326b
    ensures G(0xeb41643e, 0x68b7b3e3, 0x3d1e3e6c) == 0x69a1a5af
  {
  }

  lemma MixTo24()
    ensures Mix(0x5ea53c72, 0xf56c7cf1, 0xd6819c6a, 0, 5, 0xf61e2562) == 0x1c7d7513
    ensures Mix(0x9c25b51b, 0x374943a7, 0x1c7d7513, 0, 9, 0xc040b340) == 0x7bd57a3a
    ensures Mix(0x5afd793b, 0x5aa53f75, 0x7bd57a3a, 0, 14, 0x265e5a51) == 0xc095f13a
    ensures Mix(0x63957b3a, 0xd6819c6a, 0xc095f13a, 0x80, 20, 0xe9b6c7aa) == 0xbd782e17
    ensures Mix(0xb950ab12, 0x1c7d7513, 0xbd782e17, 0, 5, 0xd62f105d) == 0x3d1e3e6c
    ensures Mix(0x3d7c3e2d, 0x7bd57a3a, 0x3d1e3e6c, 0, 9, 0x02441453) == 0x68b7b3e3
    ensures Mix(0x2836326b, 0xc095f13a, 0x68b7b3e3, 0, 14, 0xd8a1e681) == 0xeb41643e
    ensures Mix(0x69a1a5af, 0xbd782e17, 0xeb41643e, 0, 20, 0xe7d3fbc8) == 0xe422531a
  {
  }

  lemma GTo32()
    ensures G(0xe422531a, 0xeb41643e, 0x68b7b3e3) == 0xe362571e
    ensures G(0x306ec122, 0xe422531a, 0xeb41643e) == 0x24625322
    ensures G(0xd28c77c2, 0x306ec122, 0xe422531a) == 0xd04cd322
    ensures G(0xa3c663da, 0xd28c77c2, 0x306ec122) == 0xe2c677c2
    ensures G(0xa0572807, 0xa3c663da, 0xd28c77c2) == 0xa146201a
    ensures G(0x13707036, 0xa0572807, 0xa3c663da) == 0x03516817
    ensures G(0xae7813db, 0x13707036, 0xa0572807) == 0xb3705033
    ensures G(0x1c31c384, 0xae7813db, 0x13707036) == 0xbc3843cd
  {
  }

  lemma MixTo32()
    ensures Mix(0xe362571e, 0x3d1e3e6c, 0xe422531a, 0, 5, 0x21e1cde6) == 0x306ec122
    ensures Mix(0x24625322, 0x68b7b3e3, 0x306ec122, 0, 9, 0xc33707d6) == 0xd28c77c2
    ensures Mix(0xd04cd322, 0xeb41643e, 0xd28c77c2, 0, 14, 0xf4d50d87) == 0xa3c663da
    ensures Mix(0xe2c677c2, 0xe422531a, 0xa3c663da, 0, 20, 0x455a14ed) == 0xa0572807
    ensures Mix(0xa146201a, 0x306ec122, 0xa0572807, 0, 5, 0xa9e3e905) == 0x13707036
    ensures Mix(0x03516817, 0xd28c77c2, 0x13707036, 0, 9, 0xfcefa3f8) == 0xae7813db
    ensures Mix(0xb3705033, 0xa3c663da, 0xae7813db, 0, 14, 0x676f02d9) == 0x1c31c384
    ensures Mix(0xbc3843cd, 0xa0572807, 0x1c31c384, 0, 20, 0x8d2a4c8a) == 0xa2205f1f
  {
  }

  lemma HTo40()
    ensures H(0xa2205f1f, 0x1c31c384, 0xae7813db) == 0x10698f40
    ensures H(0xdf63eaa1, 0xa2205f1f, 0x1c31c384) == 0x6172763a
    ensures H(0xc3689f5b, 0xdf63eaa1, 0xa2205f1f) == 0xbe2b2ae5
    ensures H(0x12f3e755, 0xc3689f5b, 0xdf63eaa1) == 0x0ef892af
    ensures H(0x004b6669, 0x12f3e755, 0xc3689f5b) == 0xd1d01e67
    ensures H(0x5f7a9b2e, 0x004b6669, 0x12f3e755) == 0x4dc21a12
    ensures H(0xabc34e16, 0x5f7a9b2e, 0x004b6669) == 0xf4f2b351
    ensures H(0x91ca4cb7, 0xabc34e16, 0x5f7a9b2e) == 0x6573998f
  {
  }

  lemma MixTo40()
    ensures Mix(0x10698f40, 0x13707036, 0xa2205f1f, 0, 4, 0xfffa3942) == 0xdf63eaa1
    ensures Mix(0x6172763a, 0xae7813db, 0xdf63eaa1, 0, 11, 0x8771f681) == 0xc3689f5b
    ensures Mix(0xbe2b2ae5, 0x1c31c384, 0xc3689f5b, 0, 16, 0x6d9d6122) == 0x12f3e755
    ensures Mix(0x0ef892af, 0xa2205f1f, 0x12f3e755, 0, 23, 0xfde5380c) == 0x004b6669
    ensures Mix(0xd1d01e67, 0xdf63eaa1, 0x004b6669, 0, 4, 0xa4beea44) == 0x5f7a9b2e
    ensures Mix(0x4dc21a12, 0xc3689f5b, 0x5f7a9b2e, 0, 11, 0x4bdecfa9) == 0xabc34e16
    ensures Mix(0xf4f2b351, 0x12f3e755, 0xabc34e16, 0, 16, 0xf6bb4b60) == 0x91ca4cb7
    ensures Mix(0x6573998f, 0x004b6669, 0x91ca4cb7, 0, 23, 0xbebfbc70) == 0xc5dc8c15
  {
  }

  lemma HTo48()
    ensures H(0xc5dc8c15, 0x91ca4cb7, 0xabc34e16) == 0xffd58eb4
    ensures H(0x4497169d, 0xc5dc8c15, 0x91ca4cb7) == 0x1081d63f
    ensures H(0x76fd93d4, 0x4497169d, 0xc5dc8c15) == 0xf7b6095c
    ensures H(0xfd95f243, 0x76fd93d4, 0x4497169d) == 0xcfff770a
    ensures H(0x0fe32453, 0xfd95f243, 0x76fd93d4) == 0x848b45c4
    ensures H(0x3f55edfd, 0x0fe32453, 0xfd95f243) == 0xcd233bed
    ensures H(0x22a31f54, 0x3f55edfd, 0x0fe32453) == 0x1215d6fa
    ensures H(0x68d84ea2, 0x22a31f54, 0x3f55edfd) == 0x752ebc0b
  {
  }

  lemma MixTo48()
    ensures Mix(0xffd58eb4, 0x5f7a9b2e, 0xc5dc8c15, 0, 4, 0x289b7ec6) == 0x4497169d
    ensures Mix(0x1081d63f, 0xabc34e16, 0x4497169d, 0x80, 11, 0xeaa127fa) == 0x76fd93d4
    ensures Mix(0xf7b6095c, 0x91ca4cb7, 0x76fd93d4, 0, 16, 0xd4ef3085) == 0xfd95f243
    ensures Mix(0xcfff770a, 0xc5dc8c15, 0xfd95f243, 0, 23, 0x04881d05) == 0x0fe32453
    ensures Mix(0x848b45c4, 0x4497169d, 0x0fe32453, 0, 4, 0xd9d4d039) == 0x3f55edfd
    ensures Mix(0xcd233bed, 0x76fd93d4, 0x3f55edfd, 0, 11, 0xe6db99e5) == 0x22a31f54
    ensures Mix(0x1215d6fa, 0xfd95f243, 0x22a31f54, 0, 16, 0x1fa27cf8) == 0x68d84ea2
    ensures Mix(0x752ebc0b, 0x0fe32453, 0x68d84ea2, 0, 23, 0xc4ac5665) == 0xca7d2dbd
  {
  }

  lemma ITo56()
    ensures I(0xca7d2dbd, 0x68d84ea2, 0x22a31f54) == 0xb7a5a31d
    ensures I(0x93aa2577, 0xca7d2dbd, 0x68d84ea2) == 0x5dd298c2
    ensures I(0x1688dc85, 0x93aa2577, 0xca7d2dbd) == 0xa420fbb0
    ensures I(0xcd85b8cb, 0x1688dc85, 0x93aa2577) == 0xfb5d264e
    ensures I(0x561e0689, 0xcd85b8cb, 0x1688dc85) == 0x32fa9f30
    ensures I(0x5625a114, 0x561e0689, 0xcd85b8cb) == 0x2061e1bd
    ensures I(0x3450f42b, 0x5625a114, 0x561e0689) == 0xebd45c6b
    ensures I(0x392ad0d0, 0x3450f42b, 0x5625a114) == 0x8daa2ad0
  {
  }

  lemma MixTo56()
    ensures Mix(0xb7a5a31d, 0x3f55edfd, 0xca7d2dbd, 0x80, 6, 0xf4292244) == 0x93aa2577
    ensures Mix(0x5dd298c2, 0x22a31f54, 0x93aa2577, 0, 10, 0x432aff97) == 0x1688dc85
    ensures Mix(0xa420fbb0, 0x68d84ea2, 0x1688dc85, 0, 15, 0xab9423a7) == 0xcd85b8cb
    ensures Mix(0xfb5d264e, 0xca7d2dbd, 0xcd85b8cb, 0, 21, 0xfc93a039) == 0x561e0689
    ensures Mix(0x32fa9f30, 0x93aa2577, 0x561e0689, 0, 6, 0x655b59c3) == 0x5625a114
    ensures Mix(0x2061e1bd, 0x1688dc85, 0x5625a114, 0, 10, 0x8f0ccc92) == 0x3450f42b
    ensures Mix(0xebd45c6b, 0xcd85b8cb, 0x3450f42b, 0, 15, 0xffeff47d) == 0x392ad0d0
    ensures Mix(0x8daa2ad0, 0x561e0689, 0x392ad0d0, 0, 21, 0x85845dd1) == 0x1e77fa61
  {
  }

  lemma ITo64()
    ensures I(0x1e77fa61, 0x392ad0d0, 0x3450f42b) == 0xe6d52b25
    ensures I(0x474a9c8c, 0x1e77fa61, 0x392ad0d0) == 0xd9a845ce
    ensures I(0xdfce00bc, 0x474a9c8c, 0x1e77fa61) == 0xb8849932
    ensures I(0x36594b14, 0xdfce00bc, 0x474a9c8c) == 0x61336bcb
    ensures I(0x30130182, 0x36594b14, 0xdfce00bc) == 0x066ab4d7
    ensures I(0x7246fad3, 0x30130182, 0x36594b14) == 0xcbf5ff79
    ensures I(0x6e10a476, 0x7246fad3, 0x30130182) == 0x9dba04ac
    ensures I(0xff4ea3eb, 0x6e10a476, 0x7246fad3) == 0x91ef0399
  {
  }

  lemma MixTo64()
    ensures Mix(0xe6d52b25, 0x5625a114, 0x1e77fa61, 0, 6, 0x6fa87e4f) == 0x474a9c8c
    ensures Mix(0xd9a845ce, 0x3450f42b, 0x474a9c8c, 0, 10, 0xfe2ce6e0) == 0xdfce00bc
    ensures Mix(0xb8849932, 0x392ad0d0, 0xdfce00bc, 0, 15, 0xa3014314) == 0x36594b14
    ensures Mix(0x61336bcb, 0x1e77fa61, 0x36594b14, 0, 21, 0x4e0811a1) == 0x30130182
    ensures Mix(0x066ab4d7, 0x474a9c8c, 0x30130182, 0, 6, 0xf7537e82) == 0x7246fad3
    ensures Mix(0xcbf5ff79, 0xdfce00bc, 0x7246fad3, 0, 10, 0xbd3af235) == 0x6e10a476
    ensures Mix(0x9dba04ac, 0x36594b14, 0x6e10a476, 0, 15, 0x2ad7d2bb) == 0xff4ea3eb
    ensures Mix(0x91ef0399, 0x30130182, 0xff4ea3eb, 0, 21, 0xeb86d391) == 0x14e45506
  {
  }

  lemma Start()
    ensures Steps(INIT, BLOCK, 0) == INIT
  {
  }

  lemma StepsTo4()
    ensures Steps(INIT, BLOCK, 4) == Regs(0xa5202774, 0x1b163203, 0xe7f06b23, 0xf59592dd)
  {
    hide Steps, F, G, H, I, Mix;
    Start();
    FTo8();
    MixTo8();
    Next(0, Regs(0x67452301, 0xefcdab89, 0x98badcfe, 0x10325476), 0x98badcfe, 0xa5202774);
    Next(1, Regs(0x10325476, 0xa5202774, 0xefcdab89, 0x98badcfe), 0xbd9afb8a, 0xf59592dd);
    Next(2, Regs(0x98badcfe, 0xf59592dd, 0xa5202774, 0xefcdab89), 0xaf482b54, 0xe7f06b23);
    Next(3, Regs(0xefcdab89, 0xe7f06b23, 0xf59592dd, 0xa5202774), 0xe5900655, 0x1b163203);
  }

  lemma StepsTo8()
    ensures Steps(INIT, BLOCK, 8) == Regs(0x32033344, 0x9bc13ce9, 0xf5b158db, 0x2f35d494)
  {
    hide Steps, F, G, H, I, Mix;
    StepsTo4();
    FTo8();
    MixTo8();
    Next(4, Regs(0xa5202774, 0x1b163203, 0xe7f06b23, 0xf59592dd), 0xe791a2df, 0x32033344);
    Next(5, Regs(0xf59592dd, 0x32033344, 0x1b163203, 0xe7f06b23), 0xd7f27a23, 0x2f35d494);
    Next(6, Regs(0xe7f06b23, 0x2f35d494, 0x32033344, 0x1b163203), 0x32033207, 0xf5b158db);
    Next(7, Regs(0x1b163203, 0xf5b158db, 0x2f35d494, 0x32033344), 0x27337394, 0x9bc13ce9);
  }

  lemma StepsTo12()
    ensures Steps(INIT, BLOCK, 12) == Regs(0x3893b991, 0x70768a29, 0xe1ef0576, 0xfce4a312)
  {
    hide Steps, F, G, H, I, Mix;
    StepsTo8();
    FTo16();
    MixTo16();
    Next(8, Regs(0x32033344, 0x9bc13ce9, 0xf5b158db, 0x2f35d494), 0xb5b5d8dd, 0x3893b991);
    Next(9, Regs(0x2f35d494, 0x3893b991, 0x9bc13ce9, 0xf5b158db), 0xdda178cb, 0xfce4a312);
    Next(10, Regs(0xf5b158db, 0xfce4a312, 0x3893b991, 0x9bc13ce9), 0x3b81bdf9, 0xe1ef0576);
    Next(11, Regs(0x9bc13ce9, 0xe1ef0576, 0xfce4a312, 0x3893b991), 0xf8f4b993, 0x70768a29);
  }

  lemma StepsTo16()
    ensures Steps(INIT, BLOCK, 16) == Regs(0xf56c7cf1, 0xd6819c6a, 0x5aa53f75, 0x374943a7)
  {
    hide Steps, F, G, H, I, Mix;
    StepsTo12();
    FTo16();
    MixTo16();
    Next(12, Regs(0x3893b991, 0x70768a29, 0xe1ef0576, 0xfce4a312), 0xece62132, 0xf56c7cf1);
    Next(13, Regs(0xfce4a312, 0xf56c7cf1, 0x70768a29, 0xe1ef0576), 0x70e70927, 0x374943a7);
    Next(14, Regs(0xe1ef0576, 0x374943a7, 0xf56c7cf1, 0x70768a29), 0x757ec8a9, 0x5aa53f75);
    Next(15, Regs(0x70768a29, 0x5aa53f75, 0x374943a7, 0xf56c7cf1), 0xb74943a5, 0xd6819c6a);
  }

  lemma StepsTo20()
    ensures Steps(INIT, BLOCK, 20) == Regs(0x1c7d7513, 0xbd782e17, 0xc095f13a, 0x7bd57a3a)
  {
    hide Steps, F, G, H, I, Mix;
    StepsTo16();
    GTo24();
    MixTo24();
    Next(16, Regs(0xf56c7cf1, 0xd6819c6a, 0x5aa53f75, 0x374943a7), 0x5ea53c72, 0x1c7d7513);
    Next(17, Regs(0x374943a7, 0x1c7d7513, 0xd6819c6a, 0x5aa53f75), 0x9c25b51b, 0x7bd57a3a);
    Next(18, Regs(0x5aa53f75, 0x7bd57a3a, 0x1c7d7513, 0xd6819c6a), 0x5afd793b, 0xc095f13a);
    Next(19, Regs(0xd6819c6a, 0xc095f13a, 0x7bd57a3a, 0x1c7d7513), 0x63957b3a, 0xbd782e17);
  }

  lemma StepsTo24()
    ensures Steps(INIT, BLOCK, 24) == Regs(0x3d1e3e6c, 0xe422531a, 0xeb41643e, 0x68b7b3e3)
  {
    hide Steps, F, G, H, I, Mix;
    StepsTo20();
    GTo24();
    MixTo24();
    Next(20, Regs(0x1c7d7513, 0xbd782e17, 0xc095f13a, 0x7bd57a3a), 0xb950ab12, 0x3d1e3e6c);
    Next(21, Regs(0x7bd57a3a, 0x3d1e3e6c, 0xbd782e17, 0xc095f13a), 0x3d7c3e2d, 0x68b7b3e3);
    Next(22, Regs(0xc095f13a, 0x68b7b3e3, 0x3d1e3e6c, 0xbd782e17), 0x2836326b, 0xeb41643e);
    Next(23, Regs(0xbd782e17, 0xeb41643e, 0x68b7b3e3, 0x3d1e3e6c), 0x69a1a5af, 0xe422531a);
  }

  lemma StepsTo28()
    ensures Steps(INIT, BLOCK, 28) == Regs(0x306ec122, 0xa0572807, 0xa3c663da, 0xd28c77c2)
  {
    hide Steps, F, G, H, I, Mix;
    StepsTo24();
    GTo32();
    MixTo32();
    Next(24, Regs(0x3d1e3e6c, 0xe422531a, 0xeb41643e, 0x68b7b3e3), 0xe362571e, 0x306ec122);
    Next(25, Regs(0x68b7b3e3, 0x306ec122, 0xe422531a, 0xeb41643e), 0x24625322, 0xd28c77c2);
    Next(26, Regs(0xeb41643e, 0xd28c77c2, 0x306ec122, 0xe422531a), 0xd04cd322, 0xa3c663da);
    Next(27, Regs(0xe422531a, 0xa3c663da, 0xd28c77c2, 0x306ec122), 0xe2c677c2, 0xa0572807);
  }

  lemma StepsTo32()
    ensures Steps(INIT, BLOCK, 32) == Regs(0x13707036, 0xa2205f1f, 0x1c31c384, 0xae7813db)
  {
    hide Steps, F, G, H, I, Mix;
    StepsTo28();
    GTo32();
    MixTo32();
    Next(28, Regs(0x306ec122, 0xa0572807, 0xa3c663da, 0xd28c77c2), 0xa146201a, 0x13707036);
    Next(29, Regs(0xd28c77c2, 0x13707036, 0xa0572807, 0xa3c663da), 0x03516817, 0xae7813db);
    Next(30, Regs(0xa3c663da, 0xae7813db, 0x13707036, 0xa0572807), 0xb3705033, 0x1c31c384);
    Next(31, Regs(0xa0572807, 0x1c31c384, 0xae7813db, 0x13707036), 0xbc3843cd, 0xa2205f1f);
  }

  lemma StepsTo36()
    ensures Steps(INIT, BLOCK, 36) == Regs(0xdf63eaa1, 0x004b6669, 0x12f3e755, 0xc3689f5b)
  {
    hide Steps, F, G, H, I, Mix;
    StepsTo32();
    HTo40();
    MixTo40();
    Next(32, Regs(0x13707036, 0xa2205f1f, 0x1c31c384, 0xae7813db), 0x10698f40, 0xdf63eaa1);
    Next(33, Regs(0xae7813db, 0xdf63eaa1, 0xa2205f1f, 0x1c31c384), 0x6172763a, 0xc3689f5b);
    Next(34, Regs(0x1c31c384, 0xc3689f5b, 0xdf63eaa1, 0xa2205f1f), 0xbe2b2ae5, 0x12f3e755);
    Next(35, Regs(0xa2205f1f, 0x12f3e755, 0xc3689f5b, 0xdf63eaa1), 0x0ef892af, 0x004b6669);
  }

  lemma StepsTo40()
    ensures Steps(INIT, BLOCK, 40) == Regs(0x5f7a9b2e, 0xc5dc8c15, 0x91ca4cb7, 0xabc34e16)
  {
    hide Steps, F, G, H, I, Mix;
    StepsTo36();
    HTo40();
    MixTo40();
    Next(36, Regs(0xdf63eaa1, 0x004b6669, 0x12f3e755, 0xc3689f5b), 0xd1d01e67, 0x5f7a9b2e);
    Next(37, Regs(0xc3689f5b, 0x5f7a9b2e, 0x004b6669, 0x12f3e755), 0x4dc21a12, 0xabc34e16);
    Next(38, Regs(0x12f3e755, 0xabc34e16, 0x5f7a9b2e, 0x004b6669), 0xf4f2b351, 0x91ca4cb7);
    Next(39, Regs(0x004b6669, 0x91ca4cb7, 0xabc34e16, 0x5f7a9b2e), 0x6573998f, 0xc5dc8c15);
  }

  lemma StepsTo44()
    ensures Steps(INIT, BLOCK, 44) == Regs(0x4497169d, 0x0fe32453, 0xfd95f243, 0x76fd93d4)
  {
    hide Steps, F, G, H, I, Mix;
    StepsTo40();
    HTo48();
    MixTo48();
    Next(40, Regs(0x5f7a9b2e, 0xc5dc8c15, 0x91ca4cb7, 0xabc34e16), 0xffd58eb4, 0x4497169d);
    Next(41, Regs(0xabc34e16, 0x4497169d, 0xc5dc8c15, 0x91ca4cb7), 0x1081d63f, 0x76fd93d4);
    Next(42, Regs(0x91ca4cb7, 0x76fd93d4, 0x4497169d, 0xc5dc8c15), 0xf7b6095c, 0xfd95f243);
    Next(43, Regs(0xc5dc8c15, 0xfd95f243, 0x76fd93d4, 0x4497169d), 0xcfff770a, 0x0fe32453);
  }

  lemma StepsTo48()
    ensures Steps(INIT, BLOCK, 48) == Regs(0x3f55edfd, 0xca7d2dbd, 0x68d84ea2, 0x22a31f54)
  {
    hide Steps, F, G, H, I, Mix;
    StepsTo44();
    HTo48();
    MixTo48();
    Next(44, Regs(0x4497169d, 0x0fe32453, 0xfd95f243, 0x76fd93d4), 0x848b45c4, 0x3f55edfd);
    Next(45, Regs(0x76fd93d4, 0x3f55edfd, 0x0fe32453, 0xfd95f243), 0xcd233bed, 0x22a31f54);
    Next(46, Regs(0xfd95f243, 0x22a31f54, 0x3f55edfd, 0x0fe32453), 0x1215d6fa, 0x68d84ea2);
    Next(47, Regs(0x0fe32453, 0x68d84ea2, 0x22a31f54, 0x3f55edfd), 0x752ebc0b, 0xca7d2dbd);
  }

  lemma StepsTo52()
    ensures Steps(INIT, BLOCK, 52) == Regs(0x93aa2577, 0x561e0689, 0xcd85b8cb, 0x1688dc85)
  {
    hide Steps, F, G, H, I, Mix;
    StepsTo48();
    ITo56();
    MixTo56();
    Next(48, Regs(0x3f55edfd, 0xca7d2dbd, 0x68d84ea2, 0x22a31f54), 0xb7a5a31d, 0x93aa2577);
    Next(49, Regs(0x22a31f54, 0x93aa2577, 0xca7d2dbd, 0x68d84ea2), 0x5dd298c2, 0x1688dc85);
    Next(50, Regs(0x68d84ea2, 0x1688dc85, 0x93aa2577, 0xca7d2dbd), 0xa420fbb0, 0xcd85b8cb);
    Next(51, Regs(0xca7d2dbd, 0xcd85b8cb, 0x1688dc85, 0x93aa2577), 0xfb5d264e, 0x561e0689);
  }

  lemma StepsTo56()
    ensures Steps(INIT, BLOCK, 56) == Regs(0x5625a114, 0x1e77fa61, 0x392ad0d0, 0x3450f42b)
  {
    hide Steps, F, G, H, I, Mix;
    StepsTo52();
    ITo56();
    MixTo56();
    Next(52, Regs(0x93aa2577, 0x561e0689, 0xcd85b8cb, 0x1688dc85), 0x32fa9f30, 0x5625a114);
    Next(53, Regs(0x1688dc85, 0x5625a114, 0x561e0689, 0xcd85b8cb), 0x2061e1bd, 0x3450f42b);
    Next(54, Regs(0xcd85b8cb, 0x3450f42b, 0x5625a114, 0x561e0689), 0xebd45c6b, 0x392ad0d0);
    Next(55, Regs(0x561e0689, 0x392ad0d0, 0x3450f42b, 0x5625a114), 0x8daa2ad0, 0x1e77fa61);
  }

  lemma StepsTo60()
    ensures Steps(INIT, BLOCK, 60) == Regs(0x474a9c8c, 0x30130182, 0x36594b14, 0xdfce00bc)
  {
    hide Steps, F, G, H, I, Mix;
    StepsTo56();
    ITo64();
    MixTo64();
    Next(56, Regs(0x5625a114, 0x1e77fa61, 0x392ad0d0, 0x3450f42b), 0xe6d52b25, 0x474a9c8c);
    Next(57, Regs(0x3450f42b, 0x474a9c8c, 0x1e77fa61, 0x392ad0d0), 0xd9a845ce, 0xdfce00bc);
    Next(58, Regs(0x392ad0d0, 0xdfce00bc, 0x474a9c8c, 0x1e77fa61), 0xb8849932, 0x36594b14);
    Next(59, Regs(0x1e77fa61, 0x36594b14, 0xdfce00bc, 0x474a9c8c), 0x61336bcb, 0x30130182);
  }

  lemma StepsTo64()
    ensures Steps(INIT, BLOCK, 64) == Regs(0x7246fad3, 0x14e45506, 0xff4ea3eb, 0x6e10a476)
  {
    hide Steps, F, G, H, I, Mix;
    StepsTo60();
    ITo64();
    MixTo64();
    Next(60, Regs(0x474a9c8c, 0x30130182, 0x36594b14, 0xdfce00bc), 0x066ab4d7, 0x7246fad3);
    Next(61, Regs(0xdfce00bc, 0x7246fad3, 0x30130182, 0x36594b14), 0xcbf5ff79, 0x6e10a476);
    Next(62, Regs(0x36594b14, 0x6e10a476, 0x7246fad3, 0x30130182), 0x9dba04ac, 0xff4ea3eb);
    Next(63, Regs(0x30130182, 0xff4ea3eb, 0x6e10a476, 0x7246fad3), 0x91ef0399, 0x14e45506);
  }

  lemma PaddedEmpty()
    ensures Padded([]) == [0x80] + Zeros(63)
  {
    assert Padded([]) == [] + Pad(0) + LengthField(0);
    assert LeBytes(0) == [0, 0, 0, 0];
  }

  lemma FirstWords()
    ensures LeWord([0x80, 0, 0, 0]) == 0x80 && LeWord([0, 0, 0, 0]) == 0
  {
  }

  lemma WordsOfEmpty()
    ensures Words([0x80] + Zeros(63)) == BLOCK
  {
    hide LeWord;
    var p := [0x80] + Zeros(63);
    FirstWords();
    forall i | 0 <= i < 16 ensures Words(p)[i] == if i == 0 then 0x80 else 0 {
      assert p[4 * i..4 * i + 4] == if i == 0 then [0x80, 0, 0, 0] else [0, 0, 0, 0];
    }
  }

  lemma OneBlock(b: seq<byte>)
    requires |b| == 64
    ensures Blocks(INIT, b) == AddRegs(INIT, Steps(INIT, Words(b), 64))
  {
    hide Steps, Words;
    BlocksOne(INIT, b);
  }

  lemma BlocksOfEmpty()
    ensures Blocks(INIT, Padded([])) == Regs(0xd98c1dd4, 0x04b2008f, 0x980980e9, 0x7e42f8ec)
  {
    hide Steps, Padded, Words, Blocks;
    PaddedEmpty();
    WordsOfEmpty();
    OneBlock(Padded([]));
    StepsTo64();
  }

  /** MD5 ("") = d41d8cd98f00b204e9800998ecf8427e. */
  lemma DigestOfEmpty()
    ensures Digest([]) == [0xd4, 0x1d, 0x8c, 0xd9, 0x8f, 0x00, 0xb2, 0x04, 0xe9, 0x80, 0x09, 0x98, 0xec, 0xf8, 0x42, 0x7e]
  {
    hide Padded, Blocks;
    BlocksOfEmpty();
  }
}

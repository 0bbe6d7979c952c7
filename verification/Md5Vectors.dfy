/** The test suite of RFC 1321 (section A.5): the digests of the empty message and of "abc", operation by operation. */
module Md5Vectors {
  import opened Bytes
  import opened Md5Spec
  import opened Md5

  // ---------------------------------------------------------------- the operations as section 3.4 lists them

  lemma List0()
    ensures Constant(0) == 0xd76aa478 && Constant(1) == 0xe8c7b756 && Constant(2) == 0x242070db
    ensures Constant(3) == 0xc1bdceee && Constant(4) == 0xf57c0faf && Constant(5) == 0x4787c62a
    ensures Constant(6) == 0xa8304613 && Constant(7) == 0xfd469501
    ensures WordIndex(0) == 0 && WordIndex(1) == 1 && WordIndex(2) == 2 && WordIndex(3) == 3
    ensures WordIndex(4) == 4 && WordIndex(5) == 5 && WordIndex(6) == 6 && WordIndex(7) == 7
    ensures Shift(0) == 7 && Shift(1) == 12 && Shift(2) == 17 && Shift(3) == 22
    ensures Shift(4) == 7 && Shift(5) == 12 && Shift(6) == 17 && Shift(7) == 22
  {
  }

  lemma List1()
    ensures Constant(8) == 0x698098d8 && Constant(9) == 0x8b44f7af && Constant(10) == 0xffff5bb1
    ensures Constant(11) == 0x895cd7be && Constant(12) == 0x6b901122 && Constant(13) == 0xfd987193
    ensures Constant(14) == 0xa679438e && Constant(15) == 0x49b40821
    ensures WordIndex(8) == 8 && WordIndex(9) == 9 && WordIndex(10) == 10 && WordIndex(11) == 11
    ensures WordIndex(12) == 12 && WordIndex(13) == 13 && WordIndex(14) == 14 && WordIndex(15) == 15
    ensures Shift(8) == 7 && Shift(9) == 12 && Shift(10) == 17 && Shift(11) == 22
    ensures Shift(12) == 7 && Shift(13) == 12 && Shift(14) == 17 && Shift(15) == 22
  {
  }

  lemma List2()
    ensures Constant(16) == 0xf61e2562 && Constant(17) == 0xc040b340 && Constant(18) == 0x265e5a51
    ensures Constant(19) == 0xe9b6c7aa && Constant(20) == 0xd62f105d && Constant(21) == 0x02441453
    ensures Constant(22) == 0xd8a1e681 && Constant(23) == 0xe7d3fbc8
    ensures WordIndex(16) == 1 && WordIndex(17) == 6 && WordIndex(18) == 11 && WordIndex(19) == 0
    ensures WordIndex(20) == 5 && WordIndex(21) == 10 && WordIndex(22) == 15 && WordIndex(23) == 4
    ensures Shift(16) == 5 && Shift(17) == 9 && Shift(18) == 14 && Shift(19) == 20
    ensures Shift(20) == 5 && Shift(21) == 9 && Shift(22) == 14 && Shift(23) == 20
  {
  }

  lemma List3()
    ensures Constant(24) == 0x21e1cde6 && Constant(25) == 0xc33707d6 && Constant(26) == 0xf4d50d87
    ensures Constant(27) == 0x455a14ed && Constant(28) == 0xa9e3e905 && Constant(29) == 0xfcefa3f8
    ensures Constant(30) == 0x676f02d9 && Constant(31) == 0x8d2a4c8a
    ensures WordIndex(24) == 9 && WordIndex(25) == 14 && WordIndex(26) == 3 && WordIndex(27) == 8
    ensures WordIndex(28) == 13 && WordIndex(29) == 2 && WordIndex(30) == 7 && WordIndex(31) == 12
    ensures Shift(24) == 5 && Shift(25) == 9 && Shift(26) == 14 && Shift(27) == 20
    ensures Shift(28) == 5 && Shift(29) == 9 && Shift(30) == 14 && Shift(31) == 20
  {
  }

  lemma List4()
    ensures Constant(32) == 0xfffa3942 && Constant(33) == 0x8771f681 && Constant(34) == 0x6d9d6122
    ensures Constant(35) == 0xfde5380c && Constant(36) == 0xa4beea44 && Constant(37) == 0x4bdecfa9
    ensures Constant(38) == 0xf6bb4b60 && Constant(39) == 0xbebfbc70
    ensures WordIndex(32) == 5 && WordIndex(33) == 8 && WordIndex(34) == 11 && WordIndex(35) == 14
    ensures WordIndex(36) == 1 && WordIndex(37) == 4 && WordIndex(38) == 7 && WordIndex(39) == 10
    ensures Shift(32) == 4 && Shift(33) == 11 && Shift(34) == 16 && Shift(35) == 23
    ensures Shift(36) == 4 && Shift(37) == 11 && Shift(38) == 16 && Shift(39) == 23
  {
  }

  lemma List5()
    ensures Constant(40) == 0x289b7ec6 && Constant(41) == 0xeaa127fa && Constant(42) == 0xd4ef3085
    ensures Constant(43) == 0x04881d05 && Constant(44) == 0xd9d4d039 && Constant(45) == 0xe6db99e5
    ensures Constant(46) == 0x1fa27cf8 && Constant(47) == 0xc4ac5665
    ensures WordIndex(40) == 13 && WordIndex(41) == 0 && WordIndex(42) == 3 && WordIndex(43) == 6
    ensures WordIndex(44) == 9 && WordIndex(45) == 12 && WordIndex(46) == 15 && WordIndex(47) == 2
    ensures Shift(40) == 4 && Shift(41) == 11 && Shift(42) == 16 && Shift(43) == 23
    ensures Shift(44) == 4 && Shift(45) == 11 && Shift(46) == 16 && Shift(47) == 23
  {
  }

  lemma List6()
    ensures Constant(48) == 0xf4292244 && Constant(49) == 0x432aff97 && Constant(50) == 0xab9423a7
    ensures Constant(51) == 0xfc93a039 && Constant(52) == 0x655b59c3 && Constant(53) == 0x8f0ccc92
    ensures Constant(54) == 0xffeff47d && Constant(55) == 0x85845dd1
    ensures WordIndex(48) == 0 && WordIndex(49) == 7 && WordIndex(50) == 14 && WordIndex(51) == 5
    ensures WordIndex(52) == 12 && WordIndex(53) == 3 && WordIndex(54) == 10 && WordIndex(55) == 1
    ensures Shift(48) == 6 && Shift(49) == 10 && Shift(50) == 15 && Shift(51) == 21
    ensures Shift(52) == 6 && Shift(53) == 10 && Shift(54) == 15 && Shift(55) == 21
  {
  }

  lemma List7()
    ensures Constant(56) == 0x6fa87e4f && Constant(57) == 0xfe2ce6e0 && Constant(58) == 0xa3014314
    ensures Constant(59) == 0x4e0811a1 && Constant(60) == 0xf7537e82 && Constant(61) == 0xbd3af235
    ensures Constant(62) == 0x2ad7d2bb && Constant(63) == 0xeb86d391
    ensures WordIndex(56) == 8 && WordIndex(57) == 15 && WordIndex(58) == 6 && WordIndex(59) == 13
    ensures WordIndex(60) == 4 && WordIndex(61) == 11 && WordIndex(62) == 2 && WordIndex(63) == 9
    ensures Shift(56) == 6 && Shift(57) == 10 && Shift(58) == 15 && Shift(59) == 21
    ensures Shift(60) == 6 && Shift(61) == 10 && Shift(62) == 15 && Shift(63) == 21
  {
  }

  /** After the first i operations on a block the registers are a, b, c and d, in the order operation i names them. */
  ghost predicate After(block: seq<byte>, i: nat, a: bv32, b: bv32, c: bv32, d: bv32) {
    |block| == 64 && i <= 64 && Roles(i, Operations(block, i, INIT)) == Regs(a, b, c, d)
  }

  lemma Begin(block: seq<byte>)
    requires |block| == 64
    ensures After(block, 0, 0x67452301, 0xefcdab89, 0x98badcfe, 0x10325476)
  {
  }

  /** One operation, with all its operands. */
  lemma Next(block: seq<byte>, i: nat, a: bv32, b: bv32, c: bv32, d: bv32, t: bv32, k: nat, s: bv32, x: bv32, v: bv32)
    requires After(block, i, a, b, c, d) && i < 64 && k < 16
    requires Constant(i) == t && WordIndex(i) == k && Shift(i) == s && Word(block, k) == x
    requires v == Add(b, RotateLeft(Add(Add(Add(a, Select(i, b, c, d)), t), x), s))
    ensures After(block, i + 1, d, v, b, c)
  {
    hide Word, Constant, WordIndex, Shift, RotateLeft, Select, Roles, Operation, Phase, Add;
    RoundStep(block, i, Operations(block, i, INIT), Regs(a, b, c, d), Select(i, b, c, d));
  }

  lemma Done(block: seq<byte>, a: bv32, b: bv32, c: bv32, d: bv32)
    requires After(block, 64, a, b, c, d)
    ensures Operations(block, 64, INIT) == Regs(a, b, c, d)
  {
    hide Operations;
  }

  /** The words of the padded empty message. */
  ghost predicate EmptyBlock(block: seq<byte>) {
    && |block| == 64 && Word(block, 0) == 0x00000080
    && forall k :: 0 <= k < 16 && k != 0 ==> Word(block, k) == 0
  }

  lemma Empty0(block: seq<byte>)
    requires EmptyBlock(block) && After(block, 0, 0x67452301, 0xefcdab89, 0x98badcfe, 0x10325476)
    ensures After(block, 8, 0x32033344, 0x9bc13ce9, 0xf5b158db, 0x2f35d494)
  {
    hide After, Word, Constant, WordIndex, Shift;
    List0();
    Next(block, 0, 0x67452301, 0xefcdab89, 0x98badcfe, 0x10325476, 0xd76aa478, 0, 7, 0x00000080, 0xa5202774);
    Next(block, 1, 0x10325476, 0xa5202774, 0xefcdab89, 0x98badcfe, 0xe8c7b756, 1, 12, 0, 0xf59592dd);
    Next(block, 2, 0x98badcfe, 0xf59592dd, 0xa5202774, 0xefcdab89, 0x242070db, 2, 17, 0, 0xe7f06b23);
    Next(block, 3, 0xefcdab89, 0xe7f06b23, 0xf59592dd, 0xa5202774, 0xc1bdceee, 3, 22, 0, 0x1b163203);
    Next(block, 4, 0xa5202774, 0x1b163203, 0xe7f06b23, 0xf59592dd, 0xf57c0faf, 4, 7, 0, 0x32033344);
    Next(block, 5, 0xf59592dd, 0x32033344, 0x1b163203, 0xe7f06b23, 0x4787c62a, 5, 12, 0, 0x2f35d494);
    Next(block, 6, 0xe7f06b23, 0x2f35d494, 0x32033344, 0x1b163203, 0xa8304613, 6, 17, 0, 0xf5b158db);
    Next(block, 7, 0x1b163203, 0xf5b158db, 0x2f35d494, 0x32033344, 0xfd469501, 7, 22, 0, 0x9bc13ce9);
  }

  lemma Empty1(block: seq<byte>)
    requires EmptyBlock(block) && After(block, 8, 0x32033344, 0x9bc13ce9, 0xf5b158db, 0x2f35d494)
    ensures After(block, 16, 0xf56c7cf1, 0xd6819c6a, 0x5aa53f75, 0x374943a7)
  {
    hide After, Word, Constant, WordIndex, Shift;
    List1();
    Next(block, 8, 0x32033344, 0x9bc13ce9, 0xf5b158db, 0x2f35d494, 0x698098d8, 8, 7, 0, 0x3893b991);
    Next(block, 9, 0x2f35d494, 0x3893b991, 0x9bc13ce9, 0xf5b158db, 0x8b44f7af, 9, 12, 0, 0xfce4a312);
    Next(block, 10, 0xf5b158db, 0xfce4a312, 0x3893b991, 0x9bc13ce9, 0xffff5bb1, 10, 17, 0, 0xe1ef0576);
    Next(block, 11, 0x9bc13ce9, 0xe1ef0576, 0xfce4a312, 0x3893b991, 0x895cd7be, 11, 22, 0, 0x70768a29);
    Next(block, 12, 0x3893b991, 0x70768a29, 0xe1ef0576, 0xfce4a312, 0x6b901122, 12, 7, 0, 0xf56c7cf1);
    Next(block, 13, 0xfce4a312, 0xf56c7cf1, 0x70768a29, 0xe1ef0576, 0xfd987193, 13, 12, 0, 0x374943a7);
    Next(block, 14, 0xe1ef0576, 0x374943a7, 0xf56c7cf1, 0x70768a29, 0xa679438e, 14, 17, 0, 0x5aa53f75);
    Next(block, 15, 0x70768a29, 0x5aa53f75, 0x374943a7, 0xf56c7cf1, 0x49b40821, 15, 22, 0, 0xd6819c6a);
  }

  lemma Empty2(block: seq<byte>)
    requires EmptyBlock(block) && After(block, 16, 0xf56c7cf1, 0xd6819c6a, 0x5aa53f75, 0x374943a7)
    ensures After(block, 24, 0x3d1e3e6c, 0xe422531a, 0xeb41643e, 0x68b7b3e3)
  {
    hide After, Word, Constant, WordIndex, Shift;
    List2();
    Next(block, 16, 0xf56c7cf1, 0xd6819c6a, 0x5aa53f75, 0x374943a7, 0xf61e2562, 1, 5, 0, 0x1c7d7513);
    Next(block, 17, 0x374943a7, 0x1c7d7513, 0xd6819c6a, 0x5aa53f75, 0xc040b340, 6, 9, 0, 0x7bd57a3a);
    Next(block, 18, 0x5aa53f75, 0x7bd57a3a, 0x1c7d7513, 0xd6819c6a, 0x265e5a51, 11, 14, 0, 0xc095f13a);
    Next(block, 19, 0xd6819c6a, 0xc095f13a, 0x7bd57a3a, 0x1c7d7513, 0xe9b6c7aa, 0, 20, 0x00000080, 0xbd782e17);
    Next(block, 20, 0x1c7d7513, 0xbd782e17, 0xc095f13a, 0x7bd57a3a, 0xd62f105d, 5, 5, 0, 0x3d1e3e6c);
    Next(block, 21, 0x7bd57a3a, 0x3d1e3e6c, 0xbd782e17, 0xc095f13a, 0x02441453, 10, 9, 0, 0x68b7b3e3);
    Next(block, 22, 0xc095f13a, 0x68b7b3e3, 0x3d1e3e6c, 0xbd782e17, 0xd8a1e681, 15, 14, 0, 0xeb41643e);
    Next(block, 23, 0xbd782e17, 0xeb41643e, 0x68b7b3e3, 0x3d1e3e6c, 0xe7d3fbc8, 4, 20, 0, 0xe422531a);
  }

  lemma Empty3(block: seq<byte>)
    requires EmptyBlock(block) && After(block, 24, 0x3d1e3e6c, 0xe422531a, 0xeb41643e, 0x68b7b3e3)
    ensures After(block, 32, 0x13707036, 0xa2205f1f, 0x1c31c384, 0xae7813db)
  {
    hide After, Word, Constant, WordIndex, Shift;
    List3();
    Next(block, 24, 0x3d1e3e6c, 0xe422531a, 0xeb41643e, 0x68b7b3e3, 0x21e1cde6, 9, 5, 0, 0x306ec122);
    Next(block, 25, 0x68b7b3e3, 0x306ec122, 0xe422531a, 0xeb41643e, 0xc33707d6, 14, 9, 0, 0xd28c77c2);
    Next(block, 26, 0xeb41643e, 0xd28c77c2, 0x306ec122, 0xe422531a, 0xf4d50d87, 3, 14, 0, 0xa3c663da);
    Next(block, 27, 0xe422531a, 0xa3c663da, 0xd28c77c2, 0x306ec122, 0x455a14ed, 8, 20, 0, 0xa0572807);
    Next(block, 28, 0x306ec122, 0xa0572807, 0xa3c663da, 0xd28c77c2, 0xa9e3e905, 13, 5, 0, 0x13707036);
    Next(block, 29, 0xd28c77c2, 0x13707036, 0xa0572807, 0xa3c663da, 0xfcefa3f8, 2, 9, 0, 0xae7813db);
    Next(block, 30, 0xa3c663da, 0xae7813db, 0x13707036, 0xa0572807, 0x676f02d9, 7, 14, 0, 0x1c31c384);
    Next(block, 31, 0xa0572807, 0x1c31c384, 0xae7813db, 0x13707036, 0x8d2a4c8a, 12, 20, 0, 0xa2205f1f);
  }

  lemma Empty4(block: seq<byte>)
    requires EmptyBlock(block) && After(block, 32, 0x13707036, 0xa2205f1f, 0x1c31c384, 0xae7813db)
    ensures After(block, 40, 0x5f7a9b2e, 0xc5dc8c15, 0x91ca4cb7, 0xabc34e16)
  {
    hide After, Word, Constant, WordIndex, Shift;
    List4();
    Next(block, 32, 0x13707036, 0xa2205f1f, 0x1c31c384, 0xae7813db, 0xfffa3942, 5, 4, 0, 0xdf63eaa1);
    Next(block, 33, 0xae7813db, 0xdf63eaa1, 0xa2205f1f, 0x1c31c384, 0x8771f681, 8, 11, 0, 0xc3689f5b);
    Next(block, 34, 0x1c31c384, 0xc3689f5b, 0xdf63eaa1, 0xa2205f1f, 0x6d9d6122, 11, 16, 0, 0x12f3e755);
    Next(block, 35, 0xa2205f1f, 0x12f3e755, 0xc3689f5b, 0xdf63eaa1, 0xfde5380c, 14, 23, 0, 0x004b6669);
    Next(block, 36, 0xdf63eaa1, 0x004b6669, 0x12f3e755, 0xc3689f5b, 0xa4beea44, 1, 4, 0, 0x5f7a9b2e);
    Next(block, 37, 0xc3689f5b, 0x5f7a9b2e, 0x004b6669, 0x12f3e755, 0x4bdecfa9, 4, 11, 0, 0xabc34e16);
    Next(block, 38, 0x12f3e755, 0xabc34e16, 0x5f7a9b2e, 0x004b6669, 0xf6bb4b60, 7, 16, 0, 0x91ca4cb7);
    Next(block, 39, 0x004b6669, 0x91ca4cb7, 0xabc34e16, 0x5f7a9b2e, 0xbebfbc70, 10, 23, 0, 0xc5dc8c15);
  }

  lemma Empty5(block: seq<byte>)
    requires EmptyBlock(block) && After(block, 40, 0x5f7a9b2e, 0xc5dc8c15, 0x91ca4cb7, 0xabc34e16)
    ensures After(block, 48, 0x3f55edfd, 0xca7d2dbd, 0x68d84ea2, 0x22a31f54)
  {
    hide After, Word, Constant, WordIndex, Shift;
    List5();
    Next(block, 40, 0x5f7a9b2e, 0xc5dc8c15, 0x91ca4cb7, 0xabc34e16, 0x289b7ec6, 13, 4, 0, 0x4497169d);
    Next(block, 41, 0xabc34e16, 0x4497169d, 0xc5dc8c15, 0x91ca4cb7, 0xeaa127fa, 0, 11, 0x00000080, 0x76fd93d4);
    Next(block, 42, 0x91ca4cb7, 0x76fd93d4, 0x4497169d, 0xc5dc8c15, 0xd4ef3085, 3, 16, 0, 0xfd95f243);
    Next(block, 43, 0xc5dc8c15, 0xfd95f243, 0x76fd93d4, 0x4497169d, 0x04881d05, 6, 23, 0, 0x0fe32453);
    Next(block, 44, 0x4497169d, 0x0fe32453, 0xfd95f243, 0x76fd93d4, 0xd9d4d039, 9, 4, 0, 0x3f55edfd);
    Next(block, 45, 0x76fd93d4, 0x3f55edfd, 0x0fe32453, 0xfd95f243, 0xe6db99e5, 12, 11, 0, 0x22a31f54);
    Next(block, 46, 0xfd95f243, 0x22a31f54, 0x3f55edfd, 0x0fe32453, 0x1fa27cf8, 15, 16, 0, 0x68d84ea2);
    Next(block, 47, 0x0fe32453, 0x68d84ea2, 0x22a31f54, 0x3f55edfd, 0xc4ac5665, 2, 23, 0, 0xca7d2dbd);
  }

  lemma Empty6(block: seq<byte>)
    requires EmptyBlock(block) && After(block, 48, 0x3f55edfd, 0xca7d2dbd, 0x68d84ea2, 0x22a31f54)
    ensures After(block, 56, 0x5625a114, 0x1e77fa61, 0x392ad0d0, 0x3450f42b)
  {
    hide After, Word, Constant, WordIndex, Shift;
    List6();
    Next(block, 48, 0x3f55edfd, 0xca7d2dbd, 0x68d84ea2, 0x22a31f54, 0xf4292244, 0, 6, 0x00000080, 0x93aa2577);
    Next(block, 49, 0x22a31f54, 0x93aa2577, 0xca7d2dbd, 0x68d84ea2, 0x432aff97, 7, 10, 0, 0x1688dc85);
    Next(block, 50, 0x68d84ea2, 0x1688dc85, 0x93aa2577, 0xca7d2dbd, 0xab9423a7, 14, 15, 0, 0xcd85b8cb);
    Next(block, 51, 0xca7d2dbd, 0xcd85b8cb, 0x1688dc85, 0x93aa2577, 0xfc93a039, 5, 21, 0, 0x561e0689);
    Next(block, 52, 0x93aa2577, 0x561e0689, 0xcd85b8cb, 0x1688dc85, 0x655b59c3, 12, 6, 0, 0x5625a114);
    Next(block, 53, 0x1688dc85, 0x5625a114, 0x561e0689, 0xcd85b8cb, 0x8f0ccc92, 3, 10, 0, 0x3450f42b);
    Next(block, 54, 0xcd85b8cb, 0x3450f42b, 0x5625a114, 0x561e0689, 0xffeff47d, 10, 15, 0, 0x392ad0d0);
    Next(block, 55, 0x561e0689, 0x392ad0d0, 0x3450f42b, 0x5625a114, 0x85845dd1, 1, 21, 0, 0x1e77fa61);
  }

  lemma Empty7(block: seq<byte>)
    requires EmptyBlock(block) && After(block, 56, 0x5625a114, 0x1e77fa61, 0x392ad0d0, 0x3450f42b)
    ensures After(block, 64, 0x7246fad3, 0x14e45506, 0xff4ea3eb, 0x6e10a476)
  {
    hide After, Word, Constant, WordIndex, Shift;
    List7();
    Next(block, 56, 0x5625a114, 0x1e77fa61, 0x392ad0d0, 0x3450f42b, 0x6fa87e4f, 8, 6, 0, 0x474a9c8c);
    Next(block, 57, 0x3450f42b, 0x474a9c8c, 0x1e77fa61, 0x392ad0d0, 0xfe2ce6e0, 15, 10, 0, 0xdfce00bc);
    Next(block, 58, 0x392ad0d0, 0xdfce00bc, 0x474a9c8c, 0x1e77fa61, 0xa3014314, 6, 15, 0, 0x36594b14);
    Next(block, 59, 0x1e77fa61, 0x36594b14, 0xdfce00bc, 0x474a9c8c, 0x4e0811a1, 13, 21, 0, 0x30130182);
    Next(block, 60, 0x474a9c8c, 0x30130182, 0x36594b14, 0xdfce00bc, 0xf7537e82, 4, 6, 0, 0x7246fad3);
    Next(block, 61, 0xdfce00bc, 0x7246fad3, 0x30130182, 0x36594b14, 0xbd3af235, 11, 10, 0, 0x6e10a476);
    Next(block, 62, 0x36594b14, 0x6e10a476, 0x7246fad3, 0x30130182, 0x2ad7d2bb, 2, 15, 0, 0xff4ea3eb);
    Next(block, 63, 0x30130182, 0xff4ea3eb, 0x6e10a476, 0x7246fad3, 0xeb86d391, 9, 21, 0, 0x14e45506);
  }

  lemma EmptyBlock64(block: seq<byte>)
    requires EmptyBlock(block)
    ensures Compress(INIT, block) == Regs(0xd98c1dd4, 0x04b2008f, 0x980980e9, 0x7e42f8ec)
  {
    Begin(block);
    hide After, Operations, Word;
    Empty0(block);
    Empty1(block);
    Empty2(block);
    Empty3(block);
    Empty4(block);
    Empty5(block);
    Empty6(block);
    Empty7(block);
    Done(block, 0x7246fad3, 0x14e45506, 0xff4ea3eb, 0x6e10a476);
  }

  /** The words of the padded message "abc". */
  ghost predicate AbcBlock(block: seq<byte>) {
    && |block| == 64 && Word(block, 0) == 0x80636261 && Word(block, 14) == 0x00000018
    && forall k :: 0 <= k < 16 && k != 0 && k != 14 ==> Word(block, k) == 0
  }

  lemma Abc0(block: seq<byte>)
    requires AbcBlock(block) && After(block, 0, 0x67452301, 0xefcdab89, 0x98badcfe, 0x10325476)
    ensures After(block, 8, 0xc73741ef, 0x928d99f6, 0x207dc67b, 0x8bac3051)
  {
    hide After, Word, Constant, WordIndex, Shift;
    List0();
    Next(block, 0, 0x67452301, 0xefcdab89, 0x98badcfe, 0x10325476, 0xd76aa478, 0, 7, 0x80636261, 0xd6d117b4);
    Next(block, 1, 0x10325476, 0xd6d117b4, 0xefcdab89, 0x98badcfe, 0xe8c7b756, 1, 12, 0, 0x344a8432);
    Next(block, 2, 0x98badcfe, 0x344a8432, 0xd6d117b4, 0xefcdab89, 0x242070db, 2, 17, 0, 0x2f6fbd72);
    Next(block, 3, 0xefcdab89, 0x2f6fbd72, 0x344a8432, 0xd6d117b4, 0xc1bdceee, 3, 22, 0, 0x7ad956f2);
    Next(block, 4, 0xd6d117b4, 0x7ad956f2, 0x2f6fbd72, 0x344a8432, 0xf57c0faf, 4, 7, 0, 0xc73741ef);
    Next(block, 5, 0x344a8432, 0xc73741ef, 0x7ad956f2, 0x2f6fbd72, 0x4787c62a, 5, 12, 0, 0x8bac3051);
    Next(block, 6, 0x2f6fbd72, 0x8bac3051, 0xc73741ef, 0x7ad956f2, 0xa8304613, 6, 17, 0, 0x207dc67b);
    Next(block, 7, 0x7ad956f2, 0x207dc67b, 0x8bac3051, 0xc73741ef, 0xfd469501, 7, 22, 0, 0x928d99f6);
  }

  lemma Abc1(block: seq<byte>)
    requires AbcBlock(block) && After(block, 8, 0xc73741ef, 0x928d99f6, 0x207dc67b, 0x8bac3051)
    ensures After(block, 16, 0xdda9b9a6, 0x72aff2e0, 0xe396856b, 0xa1051895)
  {
    hide After, Word, Constant, WordIndex, Shift;
    List1();
    Next(block, 8, 0xc73741ef, 0x928d99f6, 0x207dc67b, 0x8bac3051, 0x698098d8, 8, 7, 0, 0x854b3712);
    Next(block, 9, 0x8bac3051, 0x854b3712, 0x928d99f6, 0x207dc67b, 0x8b44f7af, 9, 12, 0, 0x74e2f284);
    Next(block, 10, 0x207dc67b, 0x74e2f284, 0x854b3712, 0x928d99f6, 0xffff5bb1, 10, 17, 0, 0x3020401c);
    Next(block, 11, 0x928d99f6, 0x3020401c, 0x74e2f284, 0x854b3712, 0x895cd7be, 11, 22, 0, 0x5ed49596);
    Next(block, 12, 0x854b3712, 0x5ed49596, 0x3020401c, 0x74e2f284, 0x6b901122, 12, 7, 0, 0xdda9b9a6);
    Next(block, 13, 0x74e2f284, 0xdda9b9a6, 0x5ed49596, 0x3020401c, 0xfd987193, 13, 12, 0, 0xa1051895);
    Next(block, 14, 0x3020401c, 0xa1051895, 0xdda9b9a6, 0x5ed49596, 0xa679438e, 14, 17, 0x00000018, 0xe396856b);
    Next(block, 15, 0x5ed49596, 0xe396856b, 0xa1051895, 0xdda9b9a6, 0x49b40821, 15, 22, 0, 0x72aff2e0);
  }

  lemma Abc2(block: seq<byte>)
    requires AbcBlock(block) && After(block, 16, 0xdda9b9a6, 0x72aff2e0, 0xe396856b, 0xa1051895)
    ensures After(block, 24, 0x59a8ffda, 0x47092c07, 0xabfc7920, 0x6d002f1e)
  {
    hide After, Word, Constant, WordIndex, Shift;
    List2();
    Next(block, 16, 0xdda9b9a6, 0x72aff2e0, 0xe396856b, 0xa1051895, 0xf61e2562, 1, 5, 0, 0x3e9e9126);
    Next(block, 17, 0xa1051895, 0x3e9e9126, 0x72aff2e0, 0xe396856b, 0xc040b340, 6, 9, 0, 0x4a1d804e);
    Next(block, 18, 0xe396856b, 0x4a1d804e, 0x3e9e9126, 0x72aff2e0, 0x265e5a51, 11, 14, 0, 0xe25e1652);
    Next(block, 19, 0x72aff2e0, 0xe25e1652, 0x4a1d804e, 0x3e9e9126, 0xe9b6c7aa, 0, 20, 0x80636261, 0xb5b204e4);
    Next(block, 20, 0x3e9e9126, 0xb5b204e4, 0xe25e1652, 0x4a1d804e, 0xd62f105d, 5, 5, 0, 0x59a8ffda);
    Next(block, 21, 0x4a1d804e, 0x59a8ffda, 0xb5b204e4, 0xe25e1652, 0x02441453, 10, 9, 0, 0x6d002f1e);
    Next(block, 22, 0xe25e1652, 0x6d002f1e, 0x59a8ffda, 0xb5b204e4, 0xd8a1e681, 15, 14, 0, 0xabfc7920);
    Next(block, 23, 0xb5b204e4, 0xabfc7920, 0x6d002f1e, 0x59a8ffda, 0xe7d3fbc8, 4, 20, 0, 0x47092c07);
  }

  lemma Abc3(block: seq<byte>)
    requires AbcBlock(block) && After(block, 24, 0x59a8ffda, 0x47092c07, 0xabfc7920, 0x6d002f1e)
    ensures After(block, 32, 0x790a77fb, 0x726342d3, 0xa62884aa, 0x9f47e4f8)
  {
    hide After, Word, Constant, WordIndex, Shift;
    List3();
    Next(block, 24, 0x59a8ffda, 0x47092c07, 0xabfc7920, 0x6d002f1e, 0x21e1cde6, 9, 5, 0, 0xb7f268cf);
    Next(block, 25, 0x6d002f1e, 0xb7f268cf, 0x47092c07, 0xabfc7920, 0xc33707d6, 14, 9, 0x00000018, 0x09388eff);
    Next(block, 26, 0xabfc7920, 0x09388eff, 0xb7f268cf, 0x47092c07, 0xf4d50d87, 3, 14, 0, 0xfe1623b1);
    Next(block, 27, 0x47092c07, 0xfe1623b1, 0x09388eff, 0xb7f268cf, 0x455a14ed, 8, 20, 0, 0x786acb8f);
    Next(block, 28, 0xb7f268cf, 0x786acb8f, 0xfe1623b1, 0x09388eff, 0xa9e3e905, 13, 5, 0, 0x790a77fb);
    Next(block, 29, 0x09388eff, 0x790a77fb, 0x786acb8f, 0xfe1623b1, 0xfcefa3f8, 2, 9, 0, 0x9f47e4f8);
    Next(block, 30, 0xfe1623b1, 0x9f47e4f8, 0x790a77fb, 0x786acb8f, 0x676f02d9, 7, 14, 0, 0xa62884aa);
    Next(block, 31, 0x786acb8f, 0xa62884aa, 0x9f47e4f8, 0x790a77fb, 0x8d2a4c8a, 12, 20, 0, 0x726342d3);
  }

  lemma Abc4(block: seq<byte>)
    requires AbcBlock(block) && After(block, 32, 0x790a77fb, 0x726342d3, 0xa62884aa, 0x9f47e4f8)
    ensures After(block, 40, 0x21b117b9, 0x5a2f5ea5, 0x3575227e, 0x6e7429d5)
  {
    hide After, Word, Constant, WordIndex, Shift;
    List4();
    Next(block, 32, 0x790a77fb, 0x726342d3, 0xa62884aa, 0x9f47e4f8, 0xfffa3942, 5, 4, 0, 0xb3707ebf);
    Next(block, 33, 0x9f47e4f8, 0xb3707ebf, 0x726342d3, 0xa62884aa, 0x8771f681, 8, 11, 0, 0x60127b2e);
    Next(block, 34, 0xa62884aa, 0x60127b2e, 0xb3707ebf, 0x726342d3, 0x6d9d6122, 11, 16, 0, 0x8d212ff5);
    Next(block, 35, 0x726342d3, 0x8d212ff5, 0x60127b2e, 0xb3707ebf, 0xfde5380c, 14, 23, 0x00000018, 0x3b0875c7);
    Next(block, 36, 0xb3707ebf, 0x3b0875c7, 0x8d212ff5, 0x60127b2e, 0xa4beea44, 1, 4, 0, 0x21b117b9);
    Next(block, 37, 0x60127b2e, 0x21b117b9, 0x3b0875c7, 0x8d212ff5, 0x4bdecfa9, 4, 11, 0, 0x6e7429d5);
    Next(block, 38, 0x8d212ff5, 0x6e7429d5, 0x21b117b9, 0x3b0875c7, 0xf6bb4b60, 7, 16, 0, 0x3575227e);
    Next(block, 39, 0x3b0875c7, 0x3575227e, 0x6e7429d5, 0x21b117b9, 0xbebfbc70, 10, 23, 0, 0x5a2f5ea5);
  }

  lemma Abc5(block: seq<byte>)
    requires AbcBlock(block) && After(block, 40, 0x21b117b9, 0x5a2f5ea5, 0x3575227e, 0x6e7429d5)
    ensures After(block, 48, 0x7f2e507b, 0x7beb9700, 0x8fae6399, 0x99d9679d)
  {
    hide After, Word, Constant, WordIndex, Shift;
    List5();
    Next(block, 40, 0x21b117b9, 0x5a2f5ea5, 0x3575227e, 0x6e7429d5, 0x289b7ec6, 13, 4, 0, 0x11de1779);
    Next(block, 41, 0x6e7429d5, 0x11de1779, 0x5a2f5ea5, 0x3575227e, 0xeaa127fa, 0, 11, 0x80636261, 0xfadcaa38);
    Next(block, 42, 0x3575227e, 0xfadcaa38, 0x11de1779, 0x5a2f5ea5, 0xd4ef3085, 3, 16, 0, 0x31c465ca);
    Next(block, 43, 0x5a2f5ea5, 0x31c465ca, 0xfadcaa38, 0x11de1779, 0x04881d05, 6, 23, 0, 0x4c6124f4);
    Next(block, 44, 0x11de1779, 0x4c6124f4, 0x31c465ca, 0xfadcaa38, 0xd9d4d039, 9, 4, 0, 0x7f2e507b);
    Next(block, 45, 0xfadcaa38, 0x7f2e507b, 0x4c6124f4, 0x31c465ca, 0xe6db99e5, 12, 11, 0, 0x99d9679d);
    Next(block, 46, 0x31c465ca, 0x99d9679d, 0x7f2e507b, 0x4c6124f4, 0x1fa27cf8, 15, 16, 0, 0x8fae6399);
    Next(block, 47, 0x4c6124f4, 0x8fae6399, 0x99d9679d, 0x7f2e507b, 0xc4ac5665, 2, 23, 0, 0x7beb9700);
  }

  lemma Abc6(block: seq<byte>)
    requires AbcBlock(block) && After(block, 48, 0x7f2e507b, 0x7beb9700, 0x8fae6399, 0x99d9679d)
    ensures After(block, 56, 0x06cc5e8a, 0x3bfa2c27, 0x7d632dd0, 0x5b0d97aa)
  {
    hide After, Word, Constant, WordIndex, Shift;
    List6();
    Next(block, 48, 0x7f2e507b, 0x7beb9700, 0x8fae6399, 0x99d9679d, 0xf4292244, 0, 6, 0x80636261, 0x7b201df8);
    Next(block, 49, 0x99d9679d, 0x7b201df8, 0x7beb9700, 0x8fae6399, 0x432aff97, 7, 10, 0, 0xf4e8e96e);
    Next(block, 50, 0x8fae6399, 0xf4e8e96e, 0x7b201df8, 0x7beb9700, 0xab9423a7, 14, 15, 0x00000018, 0xb298cefd);
    Next(block, 51, 0x7beb9700, 0xb298cefd, 0xf4e8e96e, 0x7b201df8, 0xfc93a039, 5, 21, 0, 0x8bf025c4);
    Next(block, 52, 0x7b201df8, 0x8bf025c4, 0xb298cefd, 0xf4e8e96e, 0x655b59c3, 12, 6, 0, 0x06cc5e8a);
    Next(block, 53, 0xf4e8e96e, 0x06cc5e8a, 0x8bf025c4, 0xb298cefd, 0x8f0ccc92, 3, 10, 0, 0x5b0d97aa);
    Next(block, 54, 0xb298cefd, 0x5b0d97aa, 0x06cc5e8a, 0x8bf025c4, 0xffeff47d, 10, 15, 0, 0x7d632dd0);
    Next(block, 55, 0x8bf025c4, 0x7d632dd0, 0x5b0d97aa, 0x06cc5e8a, 0x85845dd1, 1, 21, 0, 0x3bfa2c27);
  }

  lemma Abc7(block: seq<byte>)
    requires AbcBlock(block) && After(block, 56, 0x06cc5e8a, 0x3bfa2c27, 0x7d632dd0, 0x5b0d97aa)
    ensures After(block, 64, 0x310ade8f, 0xc08226b3, 0xe484b9d8, 0x624d8cb2)
  {
    hide After, Word, Constant, WordIndex, Shift;
    List7();
    Next(block, 56, 0x06cc5e8a, 0x3bfa2c27, 0x7d632dd0, 0x5b0d97aa, 0x6fa87e4f, 8, 6, 0, 0x7f81cc35);
    Next(block, 57, 0x5b0d97aa, 0x7f81cc35, 0x3bfa2c27, 0x7d632dd0, 0xfe2ce6e0, 15, 10, 0, 0x094454ab);
    Next(block, 58, 0x7d632dd0, 0x094454ab, 0x7f81cc35, 0x3bfa2c27, 0xa3014314, 6, 15, 0, 0x4f9dbe3f);
    Next(block, 59, 0x3bfa2c27, 0x4f9dbe3f, 0x094454ab, 0x7f81cc35, 0x4e0811a1, 13, 21, 0, 0x7327d604);
    Next(block, 60, 0x7f81cc35, 0x7327d604, 0x4f9dbe3f, 0x094454ab, 0xf7537e82, 4, 6, 0, 0x310ade8f);
    Next(block, 61, 0x094454ab, 0x310ade8f, 0x7327d604, 0x4f9dbe3f, 0xbd3af235, 11, 10, 0, 0x624d8cb2);
    Next(block, 62, 0x4f9dbe3f, 0x624d8cb2, 0x310ade8f, 0x7327d604, 0x2ad7d2bb, 2, 15, 0, 0xe484b9d8);
    Next(block, 63, 0x7327d604, 0xe484b9d8, 0x624d8cb2, 0x310ade8f, 0xeb86d391, 9, 21, 0, 0xc08226b3);
  }

  lemma AbcBlock64(block: seq<byte>)
    requires AbcBlock(block)
    ensures Compress(INIT, block) == Regs(0x98500190, 0xb04fd23c, 0x7d3f96d6, 0x727fe128)
  {
    Begin(block);
    hide After, Operations, Word;
    Abc0(block);
    Abc1(block);
    Abc2(block);
    Abc3(block);
    Abc4(block);
    Abc5(block);
    Abc6(block);
    Abc7(block);
    Done(block, 0x310ade8f, 0xc08226b3, 0xe484b9d8, 0x624d8cb2);
  }

  // ---------------------------------------------------------------- the digests

  lemma JoinZero()
    ensures Join(0, 0, 0, 0) == 0
  {
  }

  lemma LengthBytes(n: nat)
    requires n < 32
    ensures LengthField(n) == [8 * n, 0, 0, 0, 0, 0, 0, 0]
  {
    hide Bytes32;
    SmallNumber(8 * n);
    SmallNumber(0);
  }

  lemma SmallNumber(n: nat)
    requires n < 256
    ensures Bytes32(n) == [n, 0, 0, 0]
  {
  }

  lemma EmptyPadded()
    ensures |Padded([])| == 64 && EmptyBlock(Padded([]))
  {
    JoinZero();
    LengthBytes(0);
    var p := Padded([]);
    assert p == [0x80] + Zeros(55) + LengthField(0);
    assert forall j :: 0 <= j < 64 ==> p[j] == if j == 0 then 0x80 else 0;
    hide Padded, LengthField, Zeros;
    assert Word(p, 0) == Join(0x80, 0, 0, 0);
  }

  lemma AbcPadded()
    ensures |Padded([0x61, 0x62, 0x63])| == 64 && AbcBlock(Padded([0x61, 0x62, 0x63]))
  {
    hide AbcBlock, Word;
    LengthBytes(3);
    var m: seq<byte> := [0x61, 0x62, 0x63];
    var p := Padded(m);
    assert p == m + [0x80] + Zeros(52) + LengthField(3);
    assert p[..4] == m + [0x80] && forall j :: 4 <= j < 64 ==> p[j] == if j == 56 then 24 else 0;
    hide Padded, LengthField, Zeros;
    AbcWords(p);
  }

  lemma AbcWords(p: seq<byte>)
    requires |p| == 64 && p[0] == 0x61 && p[1] == 0x62 && p[2] == 0x63 && p[3] == 0x80
    requires forall j :: 4 <= j < 64 ==> p[j] == if j == 56 then 24 else 0
    ensures AbcBlock(p)
  {
    JoinZero();
    assert Word(p, 0) == Join(0x61, 0x62, 0x63, 0x80) && Word(p, 14) == Join(24, 0, 0, 0);
  }

  lemma OneBlock(m: seq<byte>)
    requires |Padded(m)| == 64
    ensures Digest(m) == Output(Compress(INIT, Padded(m)))
  {
    hide Compress, Padded, Output;
    var none: seq<byte> := [];
    ProcessBlock(INIT, none, Padded(m));
    assert none + Padded(m) == Padded(m);
  }

  lemma EmptyOutput()
    ensures Output(Regs(0xd98c1dd4, 0x04b2008f, 0x980980e9, 0x7e42f8ec))
         == [0xd4, 0x1d, 0x8c, 0xd9, 0x8f, 0x00, 0xb2, 0x04, 0xe9, 0x80, 0x09, 0x98, 0xec, 0xf8, 0x42, 0x7e]
  {
    assert Split(0xd98c1dd4) == [0xd4, 0x1d, 0x8c, 0xd9];
    assert Split(0x04b2008f) == [0x8f, 0x00, 0xb2, 0x04];
    assert Split(0x980980e9) == [0xe9, 0x80, 0x09, 0x98];
    assert Split(0x7e42f8ec) == [0xec, 0xf8, 0x42, 0x7e];
  }

  /** MD5 ("") = d41d8cd98f00b204e9800998ecf8427e */
  lemma EmptyDigest()
    ensures Digest([])
         == [0xd4, 0x1d, 0x8c, 0xd9, 0x8f, 0x00, 0xb2, 0x04, 0xe9, 0x80, 0x09, 0x98, 0xec, 0xf8, 0x42, 0x7e]
  {
    hide Compress, Padded, Digest, Output;
    EmptyPadded();
    OneBlock([]);
    EmptyBlock64(Padded([]));
    EmptyOutput();
  }

  lemma AbcOutput()
    ensures Output(Regs(0x98500190, 0xb04fd23c, 0x7d3f96d6, 0x727fe128))
         == [0x90, 0x01, 0x50, 0x98, 0x3c, 0xd2, 0x4f, 0xb0, 0xd6, 0x96, 0x3f, 0x7d, 0x28, 0xe1, 0x7f, 0x72]
  {
    assert Split(0x98500190) == [0x90, 0x01, 0x50, 0x98];
    assert Split(0xb04fd23c) == [0x3c, 0xd2, 0x4f, 0xb0];
    assert Split(0x7d3f96d6) == [0xd6, 0x96, 0x3f, 0x7d];
    assert Split(0x727fe128) == [0x28, 0xe1, 0x7f, 0x72];
  }

  /** MD5 ("abc") = 900150983cd24fb0d6963f7d28e17f72 */
  lemma AbcDigest()
    ensures Digest([0x61, 0x62, 0x63])
         == [0x90, 0x01, 0x50, 0x98, 0x3c, 0xd2, 0x4f, 0xb0, 0xd6, 0x96, 0x3f, 0x7d, 0x28, 0xe1, 0x7f, 0x72]
  {
    hide Compress, Padded, Digest, Output;
    AbcPadded();
    OneBlock([0x61, 0x62, 0x63]);
    AbcBlock64(Padded([0x61, 0x62, 0x63]));
    AbcOutput();
  }
}

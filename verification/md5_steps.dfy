// The compression of four blocks, operation by operation, each in the terms of section 3.4 of RFC 1321.
module Md5Steps {
  import opened Bytes
  import opened Md5

  datatype Block = Empty | Abc | Head | Tail

  // The words of a block: of the padded empty message, of padded "abc", and the two blocks of the letters and digits.
  function WordOf(m: Block, k: nat): bv32
    requires k < 16
  {
    match m
    case Empty => if k == 0 then 0x80 else 0
    case Abc => if k == 0 then 0x80636261 else if k == 14 then 24 else 0
    case Tail => if k == 14 then 496 else 0
    case Head =>
      if k < 4 then
        if k == 0 then 0x44434241 else if k == 1 then 0x48474645 else if k == 2 then 0x4c4b4a49 else 0x504f4e4d
      else if k < 8 then
        if k == 4 then 0x54535251 else if k == 5 then 0x58575655 else if k == 6 then 0x62615a59 else 0x66656463
      else if k < 12 then
        if k == 8 then 0x6a696867 else if k == 9 then 0x6e6d6c6b else if k == 10 then 0x7271706f else 0x76757473
      else
        if k == 12 then 0x7a797877 else if k == 13 then 0x33323130 else if k == 14 then 0x37363534 else 0x00803938
  }

  predicate Holds(b: seq<byte>, m: Block) {
    |b| == BLOCK && forall k :: 0 <= k < 16 ==> Word(b, k) == WordOf(m, k)
  }

  // ---- The operations

  lemma NoOperation(r: Registers, b: seq<byte>, w: Block)
    requires Holds(b, w)
    ensures Operations(0, r, b) == r
  {
  }

  // Operation i on the registers a, b, c, d, in the terms of section 3.4: m is the mixture, n the number
  // of bits to rotate by, and x the result.
  lemma Gives(i: nat, a: bv32, b: bv32, c: bv32, d: bv32, word: bv32, m: bv32, n: bv32, x: bv32)
    requires i < OPERATIONS && Mix(i, b, c, d) == m && Shift(i) == n && 0 < n < 32
    requires Plus(RotateLeft(Sum(a, m, word, T(i)), n), b) == x
    ensures Operation(i, Registers(a, b, c, d), word) == Registers(d, x, b, c)
  {
    hide Sum, RotateLeft, Plus, Mix, T, Shift;
  }

  // One operation more on a block that holds the words of m.
  lemma OneMore(i: nat, r: Registers, block: seq<byte>, w: Block, s: Registers, word: bv32)
    requires i < OPERATIONS && Holds(block, w) && Operations(i, r, block) == s && WordOf(w, WordIndex(i)) == word
    ensures Operations(i + 1, r, block) == Operation(i, s, word)
  {
    hide Operation, Word, WordOf;
  }

  lemma Round1(i: nat, r: Registers, block: seq<byte>, w: Block,
               a: bv32, b: bv32, c: bv32, d: bv32, word: bv32, n: bv32, x: bv32)
    requires 0 <= i < 16 && Holds(block, w) && Operations(i, r, block) == Registers(a, b, c, d)
    requires WordOf(w, WordIndex(i)) == word && Shift(i) == n && 0 < n < 32
    requires Plus(RotateLeft(Sum(a, (b & c) | (!b & d), word, T(i)), n), b) == x
    ensures Operations(i + 1, r, block) == Registers(d, x, b, c)
  {
    hide T, Shift, Operations, Operation, Holds, WordOf, Plus, RotateLeft, Sum;
    OneMore(i, r, block, w, Registers(a, b, c, d), word);
    Gives(i, a, b, c, d, word, (b & c) | (!b & d), n, x);
  }

  lemma Round2(i: nat, r: Registers, block: seq<byte>, w: Block,
               a: bv32, b: bv32, c: bv32, d: bv32, word: bv32, n: bv32, x: bv32)
    requires 16 <= i < 32 && Holds(block, w) && Operations(i, r, block) == Registers(a, b, c, d)
    requires WordOf(w, WordIndex(i)) == word && Shift(i) == n && 0 < n < 32
    requires Plus(RotateLeft(Sum(a, (b & d) | (c & !d), word, T(i)), n), b) == x
    ensures Operations(i + 1, r, block) == Registers(d, x, b, c)
  {
    hide T, Shift, Operations, Operation, Holds, WordOf, Plus, RotateLeft, Sum;
    OneMore(i, r, block, w, Registers(a, b, c, d), word);
    Gives(i, a, b, c, d, word, (b & d) | (c & !d), n, x);
  }

  lemma Round3(i: nat, r: Registers, block: seq<byte>, w: Block,
               a: bv32, b: bv32, c: bv32, d: bv32, word: bv32, n: bv32, x: bv32)
    requires 32 <= i < 48 && Holds(block, w) && Operations(i, r, block) == Registers(a, b, c, d)
    requires WordOf(w, WordIndex(i)) == word && Shift(i) == n && 0 < n < 32
    requires Plus(RotateLeft(Sum(a, b ^ c ^ d, word, T(i)), n), b) == x
    ensures Operations(i + 1, r, block) == Registers(d, x, b, c)
  {
    hide T, Shift, Operations, Operation, Holds, WordOf, Plus, RotateLeft, Sum;
    OneMore(i, r, block, w, Registers(a, b, c, d), word);
    Gives(i, a, b, c, d, word, b ^ c ^ d, n, x);
  }

  lemma Round4(i: nat, r: Registers, block: seq<byte>, w: Block,
               a: bv32, b: bv32, c: bv32, d: bv32, word: bv32, n: bv32, x: bv32)
    requires 48 <= i < 64 && Holds(block, w) && Operations(i, r, block) == Registers(a, b, c, d)
    requires WordOf(w, WordIndex(i)) == word && Shift(i) == n && 0 < n < 32
    requires Plus(RotateLeft(Sum(a, c ^ (b | !d), word, T(i)), n), b) == x
    ensures Operations(i + 1, r, block) == Registers(d, x, b, c)
  {
    hide T, Shift, Operations, Operation, Holds, WordOf, Plus, RotateLeft, Sum;
    OneMore(i, r, block, w, Registers(a, b, c, d), word);
    Gives(i, a, b, c, d, word, c ^ (b | !d), n, x);
  }

  // The registers between the two blocks of the letters and digits.
  const MIDDLE: Registers := Registers(0x83fd320b, 0xdefbe5cf, 0xa9b1642f, 0xfa6f932a)

  lemma Empty1(b: seq<byte>)
    requires Holds(b, Empty)
    ensures Operations(8, INITIAL, b) == Registers(0x32033344, 0x9bc13ce9, 0xf5b158db, 0x2f35d494)
  {
    hide Operation, Operations, Word, Holds;
    NoOperation(INITIAL, b, Empty);
    Round1(0, INITIAL, b, Empty, 0x67452301, 0xefcdab89, 0x98badcfe, 0x10325476, 0x80, 7, 0xa5202774);
    Round1(1, INITIAL, b, Empty, 0x10325476, 0xa5202774, 0xefcdab89, 0x98badcfe, 0x0, 12, 0xf59592dd);
    Round1(2, INITIAL, b, Empty, 0x98badcfe, 0xf59592dd, 0xa5202774, 0xefcdab89, 0x0, 17, 0xe7f06b23);
    Round1(3, INITIAL, b, Empty, 0xefcdab89, 0xe7f06b23, 0xf59592dd, 0xa5202774, 0x0, 22, 0x1b163203);
    Round1(4, INITIAL, b, Empty, 0xa5202774, 0x1b163203, 0xe7f06b23, 0xf59592dd, 0x0, 7, 0x32033344);
    Round1(5, INITIAL, b, Empty, 0xf59592dd, 0x32033344, 0x1b163203, 0xe7f06b23, 0x0, 12, 0x2f35d494);
    Round1(6, INITIAL, b, Empty, 0xe7f06b23, 0x2f35d494, 0x32033344, 0x1b163203, 0x0, 17, 0xf5b158db);
    Round1(7, INITIAL, b, Empty, 0x1b163203, 0xf5b158db, 0x2f35d494, 0x32033344, 0x0, 22, 0x9bc13ce9);
  }

  lemma Empty2(b: seq<byte>)
    requires Holds(b, Empty) && Operations(8, INITIAL, b) == Registers(0x32033344, 0x9bc13ce9, 0xf5b158db, 0x2f35d494)
    ensures Operations(16, INITIAL, b) == Registers(0xf56c7cf1, 0xd6819c6a, 0x5aa53f75, 0x374943a7)
  {
    hide Operation, Operations, Word, Holds;
    Round1(8, INITIAL, b, Empty, 0x32033344, 0x9bc13ce9, 0xf5b158db, 0x2f35d494, 0x0, 7, 0x3893b991);
    Round1(9, INITIAL, b, Empty, 0x2f35d494, 0x3893b991, 0x9bc13ce9, 0xf5b158db, 0x0, 12, 0xfce4a312);
    Round1(10, INITIAL, b, Empty, 0xf5b158db, 0xfce4a312, 0x3893b991, 0x9bc13ce9, 0x0, 17, 0xe1ef0576);
    Round1(11, INITIAL, b, Empty, 0x9bc13ce9, 0xe1ef0576, 0xfce4a312, 0x3893b991, 0x0, 22, 0x70768a29);
    Round1(12, INITIAL, b, Empty, 0x3893b991, 0x70768a29, 0xe1ef0576, 0xfce4a312, 0x0, 7, 0xf56c7cf1);
    Round1(13, INITIAL, b, Empty, 0xfce4a312, 0xf56c7cf1, 0x70768a29, 0xe1ef0576, 0x0, 12, 0x374943a7);
    Round1(14, INITIAL, b, Empty, 0xe1ef0576, 0x374943a7, 0xf56c7cf1, 0x70768a29, 0x0, 17, 0x5aa53f75);
    Round1(15, INITIAL, b, Empty, 0x70768a29, 0x5aa53f75, 0x374943a7, 0xf56c7cf1, 0x0, 22, 0xd6819c6a);
  }

  lemma Empty3(b: seq<byte>)
    requires Holds(b, Empty) && Operations(16, INITIAL, b) == Registers(0xf56c7cf1, 0xd6819c6a, 0x5aa53f75, 0x374943a7)
    ensures Operations(24, INITIAL, b) == Registers(0x3d1e3e6c, 0xe422531a, 0xeb41643e, 0x68b7b3e3)
  {
    hide Operation, Operations, Word, Holds;
    Round2(16, INITIAL, b, Empty, 0xf56c7cf1, 0xd6819c6a, 0x5aa53f75, 0x374943a7, 0x0, 5, 0x1c7d7513);
    Round2(17, INITIAL, b, Empty, 0x374943a7, 0x1c7d7513, 0xd6819c6a, 0x5aa53f75, 0x0, 9, 0x7bd57a3a);
    Round2(18, INITIAL, b, Empty, 0x5aa53f75, 0x7bd57a3a, 0x1c7d7513, 0xd6819c6a, 0x0, 14, 0xc095f13a);
    Round2(19, INITIAL, b, Empty, 0xd6819c6a, 0xc095f13a, 0x7bd57a3a, 0x1c7d7513, 0x80, 20, 0xbd782e17);
    Round2(20, INITIAL, b, Empty, 0x1c7d7513, 0xbd782e17, 0xc095f13a, 0x7bd57a3a, 0x0, 5, 0x3d1e3e6c);
    Round2(21, INITIAL, b, Empty, 0x7bd57a3a, 0x3d1e3e6c, 0xbd782e17, 0xc095f13a, 0x0, 9, 0x68b7b3e3);
    Round2(22, INITIAL, b, Empty, 0xc095f13a, 0x68b7b3e3, 0x3d1e3e6c, 0xbd782e17, 0x0, 14, 0xeb41643e);
    Round2(23, INITIAL, b, Empty, 0xbd782e17, 0xeb41643e, 0x68b7b3e3, 0x3d1e3e6c, 0x0, 20, 0xe422531a);
  }

  lemma Empty4(b: seq<byte>)
    requires Holds(b, Empty) && Operations(24, INITIAL, b) == Registers(0x3d1e3e6c, 0xe422531a, 0xeb41643e, 0x68b7b3e3)
    ensures Operations(32, INITIAL, b) == Registers(0x13707036, 0xa2205f1f, 0x1c31c384, 0xae7813db)
  {
    hide Operation, Operations, Word, Holds;
    Round2(24, INITIAL, b, Empty, 0x3d1e3e6c, 0xe422531a, 0xeb41643e, 0x68b7b3e3, 0x0, 5, 0x306ec122);
    Round2(25, INITIAL, b, Empty, 0x68b7b3e3, 0x306ec122, 0xe422531a, 0xeb41643e, 0x0, 9, 0xd28c77c2);
    Round2(26, INITIAL, b, Empty, 0xeb41643e, 0xd28c77c2, 0x306ec122, 0xe422531a, 0x0, 14, 0xa3c663da);
    Round2(27, INITIAL, b, Empty, 0xe422531a, 0xa3c663da, 0xd28c77c2, 0x306ec122, 0x0, 20, 0xa0572807);
    Round2(28, INITIAL, b, Empty, 0x306ec122, 0xa0572807, 0xa3c663da, 0xd28c77c2, 0x0, 5, 0x13707036);
    Round2(29, INITIAL, b, Empty, 0xd28c77c2, 0x13707036, 0xa0572807, 0xa3c663da, 0x0, 9, 0xae7813db);
    Round2(30, INITIAL, b, Empty, 0xa3c663da, 0xae7813db, 0x13707036, 0xa0572807, 0x0, 14, 0x1c31c384);
    Round2(31, INITIAL, b, Empty, 0xa0572807, 0x1c31c384, 0xae7813db, 0x13707036, 0x0, 20, 0xa2205f1f);
  }

  lemma Empty5(b: seq<byte>)
    requires Holds(b, Empty) && Operations(32, INITIAL, b) == Registers(0x13707036, 0xa2205f1f, 0x1c31c384, 0xae7813db)
    ensures Operations(40, INITIAL, b) == Registers(0x5f7a9b2e, 0xc5dc8c15, 0x91ca4cb7, 0xabc34e16)
  {
    hide Operation, Operations, Word, Holds;
    Round3(32, INITIAL, b, Empty, 0x13707036, 0xa2205f1f, 0x1c31c384, 0xae7813db, 0x0, 4, 0xdf63eaa1);
    Round3(33, INITIAL, b, Empty, 0xae7813db, 0xdf63eaa1, 0xa2205f1f, 0x1c31c384, 0x0, 11, 0xc3689f5b);
    Round3(34, INITIAL, b, Empty, 0x1c31c384, 0xc3689f5b, 0xdf63eaa1, 0xa2205f1f, 0x0, 16, 0x12f3e755);
    Round3(35, INITIAL, b, Empty, 0xa2205f1f, 0x12f3e755, 0xc3689f5b, 0xdf63eaa1, 0x0, 23, 0x004b6669);
    Round3(36, INITIAL, b, Empty, 0xdf63eaa1, 0x004b6669, 0x12f3e755, 0xc3689f5b, 0x0, 4, 0x5f7a9b2e);
    Round3(37, INITIAL, b, Empty, 0xc3689f5b, 0x5f7a9b2e, 0x004b6669, 0x12f3e755, 0x0, 11, 0xabc34e16);
    Round3(38, INITIAL, b, Empty, 0x12f3e755, 0xabc34e16, 0x5f7a9b2e, 0x004b6669, 0x0, 16, 0x91ca4cb7);
    Round3(39, INITIAL, b, Empty, 0x004b6669, 0x91ca4cb7, 0xabc34e16, 0x5f7a9b2e, 0x0, 23, 0xc5dc8c15);
  }

  lemma Empty6(b: seq<byte>)
    requires Holds(b, Empty) && Operations(40, INITIAL, b) == Registers(0x5f7a9b2e, 0xc5dc8c15, 0x91ca4cb7, 0xabc34e16)
    ensures Operations(48, INITIAL, b) == Registers(0x3f55edfd, 0xca7d2dbd, 0x68d84ea2, 0x22a31f54)
  {
    hide Operation, Operations, Word, Holds;
    Round3(40, INITIAL, b, Empty, 0x5f7a9b2e, 0xc5dc8c15, 0x91ca4cb7, 0xabc34e16, 0x0, 4, 0x4497169d);
    Round3(41, INITIAL, b, Empty, 0xabc34e16, 0x4497169d, 0xc5dc8c15, 0x91ca4cb7, 0x80, 11, 0x76fd93d4);
    Round3(42, INITIAL, b, Empty, 0x91ca4cb7, 0x76fd93d4, 0x4497169d, 0xc5dc8c15, 0x0, 16, 0xfd95f243);
    Round3(43, INITIAL, b, Empty, 0xc5dc8c15, 0xfd95f243, 0x76fd93d4, 0x4497169d, 0x0, 23, 0x0fe32453);
    Round3(44, INITIAL, b, Empty, 0x4497169d, 0x0fe32453, 0xfd95f243, 0x76fd93d4, 0x0, 4, 0x3f55edfd);
    Round3(45, INITIAL, b, Empty, 0x76fd93d4, 0x3f55edfd, 0x0fe32453, 0xfd95f243, 0x0, 11, 0x22a31f54);
    Round3(46, INITIAL, b, Empty, 0xfd95f243, 0x22a31f54, 0x3f55edfd, 0x0fe32453, 0x0, 16, 0x68d84ea2);
    Round3(47, INITIAL, b, Empty, 0x0fe32453, 0x68d84ea2, 0x22a31f54, 0x3f55edfd, 0x0, 23, 0xca7d2dbd);
  }

  lemma Empty7(b: seq<byte>)
    requires Holds(b, Empty) && Operations(48, INITIAL, b) == Registers(0x3f55edfd, 0xca7d2dbd, 0x68d84ea2, 0x22a31f54)
    ensures Operations(56, INITIAL, b) == Registers(0x5625a114, 0x1e77fa61, 0x392ad0d0, 0x3450f42b)
  {
    hide Operation, Operations, Word, Holds;
    Round4(48, INITIAL, b, Empty, 0x3f55edfd, 0xca7d2dbd, 0x68d84ea2, 0x22a31f54, 0x80, 6, 0x93aa2577);
    Round4(49, INITIAL, b, Empty, 0x22a31f54, 0x93aa2577, 0xca7d2dbd, 0x68d84ea2, 0x0, 10, 0x1688dc85);
    Round4(50, INITIAL, b, Empty, 0x68d84ea2, 0x1688dc85, 0x93aa2577, 0xca7d2dbd, 0x0, 15, 0xcd85b8cb);
    Round4(51, INITIAL, b, Empty, 0xca7d2dbd, 0xcd85b8cb, 0x1688dc85, 0x93aa2577, 0x0, 21, 0x561e0689);
    Round4(52, INITIAL, b, Empty, 0x93aa2577, 0x561e0689, 0xcd85b8cb, 0x1688dc85, 0x0, 6, 0x5625a114);
    Round4(53, INITIAL, b, Empty, 0x1688dc85, 0x5625a114, 0x561e0689, 0xcd85b8cb, 0x0, 10, 0x3450f42b);
    Round4(54, INITIAL, b, Empty, 0xcd85b8cb, 0x3450f42b, 0x5625a114, 0x561e0689, 0x0, 15, 0x392ad0d0);
    Round4(55, INITIAL, b, Empty, 0x561e0689, 0x392ad0d0, 0x3450f42b, 0x5625a114, 0x0, 21, 0x1e77fa61);
  }

  lemma Empty8(b: seq<byte>)
    requires Holds(b, Empty) && Operations(56, INITIAL, b) == Registers(0x5625a114, 0x1e77fa61, 0x392ad0d0, 0x3450f42b)
    ensures Operations(64, INITIAL, b) == Registers(0x7246fad3, 0x14e45506, 0xff4ea3eb, 0x6e10a476)
  {
    hide Operation, Operations, Word, Holds;
    Round4(56, INITIAL, b, Empty, 0x5625a114, 0x1e77fa61, 0x392ad0d0, 0x3450f42b, 0x0, 6, 0x474a9c8c);
    Round4(57, INITIAL, b, Empty, 0x3450f42b, 0x474a9c8c, 0x1e77fa61, 0x392ad0d0, 0x0, 10, 0xdfce00bc);
    Round4(58, INITIAL, b, Empty, 0x392ad0d0, 0xdfce00bc, 0x474a9c8c, 0x1e77fa61, 0x0, 15, 0x36594b14);
    Round4(59, INITIAL, b, Empty, 0x1e77fa61, 0x36594b14, 0xdfce00bc, 0x474a9c8c, 0x0, 21, 0x30130182);
    Round4(60, INITIAL, b, Empty, 0x474a9c8c, 0x30130182, 0x36594b14, 0xdfce00bc, 0x0, 6, 0x7246fad3);
    Round4(61, INITIAL, b, Empty, 0xdfce00bc, 0x7246fad3, 0x30130182, 0x36594b14, 0x0, 10, 0x6e10a476);
    Round4(62, INITIAL, b, Empty, 0x36594b14, 0x6e10a476, 0x7246fad3, 0x30130182, 0x0, 15, 0xff4ea3eb);
    Round4(63, INITIAL, b, Empty, 0x30130182, 0xff4ea3eb, 0x6e10a476, 0x7246fad3, 0x0, 21, 0x14e45506);
  }

  lemma Abc1(b: seq<byte>)
    requires Holds(b, Abc)
    ensures Operations(8, INITIAL, b) == Registers(0xc73741ef, 0x928d99f6, 0x207dc67b, 0x8bac3051)
  {
    hide Operation, Operations, Word, Holds;
    NoOperation(INITIAL, b, Abc);
    Round1(0, INITIAL, b, Abc, 0x67452301, 0xefcdab89, 0x98badcfe, 0x10325476, 0x80636261, 7, 0xd6d117b4);
    Round1(1, INITIAL, b, Abc, 0x10325476, 0xd6d117b4, 0xefcdab89, 0x98badcfe, 0x0, 12, 0x344a8432);
    Round1(2, INITIAL, b, Abc, 0x98badcfe, 0x344a8432, 0xd6d117b4, 0xefcdab89, 0x0, 17, 0x2f6fbd72);
    Round1(3, INITIAL, b, Abc, 0xefcdab89, 0x2f6fbd72, 0x344a8432, 0xd6d117b4, 0x0, 22, 0x7ad956f2);
    Round1(4, INITIAL, b, Abc, 0xd6d117b4, 0x7ad956f2, 0x2f6fbd72, 0x344a8432, 0x0, 7, 0xc73741ef);
    Round1(5, INITIAL, b, Abc, 0x344a8432, 0xc73741ef, 0x7ad956f2, 0x2f6fbd72, 0x0, 12, 0x8bac3051);
    Round1(6, INITIAL, b, Abc, 0x2f6fbd72, 0x8bac3051, 0xc73741ef, 0x7ad956f2, 0x0, 17, 0x207dc67b);
    Round1(7, INITIAL, b, Abc, 0x7ad956f2, 0x207dc67b, 0x8bac3051, 0xc73741ef, 0x0, 22, 0x928d99f6);
  }

  lemma Abc2(b: seq<byte>)
    requires Holds(b, Abc) && Operations(8, INITIAL, b) == Registers(0xc73741ef, 0x928d99f6, 0x207dc67b, 0x8bac3051)
    ensures Operations(16, INITIAL, b) == Registers(0xdda9b9a6, 0x72aff2e0, 0xe396856b, 0xa1051895)
  {
    hide Operation, Operations, Word, Holds;
    Round1(8, INITIAL, b, Abc, 0xc73741ef, 0x928d99f6, 0x207dc67b, 0x8bac3051, 0x0, 7, 0x854b3712);
    Round1(9, INITIAL, b, Abc, 0x8bac3051, 0x854b3712, 0x928d99f6, 0x207dc67b, 0x0, 12, 0x74e2f284);
    Round1(10, INITIAL, b, Abc, 0x207dc67b, 0x74e2f284, 0x854b3712, 0x928d99f6, 0x0, 17, 0x3020401c);
    Round1(11, INITIAL, b, Abc, 0x928d99f6, 0x3020401c, 0x74e2f284, 0x854b3712, 0x0, 22, 0x5ed49596);
    Round1(12, INITIAL, b, Abc, 0x854b3712, 0x5ed49596, 0x3020401c, 0x74e2f284, 0x0, 7, 0xdda9b9a6);
    Round1(13, INITIAL, b, Abc, 0x74e2f284, 0xdda9b9a6, 0x5ed49596, 0x3020401c, 0x0, 12, 0xa1051895);
    Round1(14, INITIAL, b, Abc, 0x3020401c, 0xa1051895, 0xdda9b9a6, 0x5ed49596, 0x18, 17, 0xe396856b);
    Round1(15, INITIAL, b, Abc, 0x5ed49596, 0xe396856b, 0xa1051895, 0xdda9b9a6, 0x0, 22, 0x72aff2e0);
  }

  lemma Abc3(b: seq<byte>)
    requires Holds(b, Abc) && Operations(16, INITIAL, b) == Registers(0xdda9b9a6, 0x72aff2e0, 0xe396856b, 0xa1051895)
    ensures Operations(24, INITIAL, b) == Registers(0x59a8ffda, 0x47092c07, 0xabfc7920, 0x6d002f1e)
  {
    hide Operation, Operations, Word, Holds;
    Round2(16, INITIAL, b, Abc, 0xdda9b9a6, 0x72aff2e0, 0xe396856b, 0xa1051895, 0x0, 5, 0x3e9e9126);
    Round2(17, INITIAL, b, Abc, 0xa1051895, 0x3e9e9126, 0x72aff2e0, 0xe396856b, 0x0, 9, 0x4a1d804e);
    Round2(18, INITIAL, b, Abc, 0xe396856b, 0x4a1d804e, 0x3e9e9126, 0x72aff2e0, 0x0, 14, 0xe25e1652);
    Round2(19, INITIAL, b, Abc, 0x72aff2e0, 0xe25e1652, 0x4a1d804e, 0x3e9e9126, 0x80636261, 20, 0xb5b204e4);
    Round2(20, INITIAL, b, Abc, 0x3e9e9126, 0xb5b204e4, 0xe25e1652, 0x4a1d804e, 0x0, 5, 0x59a8ffda);
    Round2(21, INITIAL, b, Abc, 0x4a1d804e, 0x59a8ffda, 0xb5b204e4, 0xe25e1652, 0x0, 9, 0x6d002f1e);
    Round2(22, INITIAL, b, Abc, 0xe25e1652, 0x6d002f1e, 0x59a8ffda, 0xb5b204e4, 0x0, 14, 0xabfc7920);
    Round2(23, INITIAL, b, Abc, 0xb5b204e4, 0xabfc7920, 0x6d002f1e, 0x59a8ffda, 0x0, 20, 0x47092c07);
  }

  lemma Abc4(b: seq<byte>)
    requires Holds(b, Abc) && Operations(24, INITIAL, b) == Registers(0x59a8ffda, 0x47092c07, 0xabfc7920, 0x6d002f1e)
    ensures Operations(32, INITIAL, b) == Registers(0x790a77fb, 0x726342d3, 0xa62884aa, 0x9f47e4f8)
  {
    hide Operation, Operations, Word, Holds;
    Round2(24, INITIAL, b, Abc, 0x59a8ffda, 0x47092c07, 0xabfc7920, 0x6d002f1e, 0x0, 5, 0xb7f268cf);
    Round2(25, INITIAL, b, Abc, 0x6d002f1e, 0xb7f268cf, 0x47092c07, 0xabfc7920, 0x18, 9, 0x09388eff);
    Round2(26, INITIAL, b, Abc, 0xabfc7920, 0x09388eff, 0xb7f268cf, 0x47092c07, 0x0, 14, 0xfe1623b1);
    Round2(27, INITIAL, b, Abc, 0x47092c07, 0xfe1623b1, 0x09388eff, 0xb7f268cf, 0x0, 20, 0x786acb8f);
    Round2(28, INITIAL, b, Abc, 0xb7f268cf, 0x786acb8f, 0xfe1623b1, 0x09388eff, 0x0, 5, 0x790a77fb);
    Round2(29, INITIAL, b, Abc, 0x09388eff, 0x790a77fb, 0x786acb8f, 0xfe1623b1, 0x0, 9, 0x9f47e4f8);
    Round2(30, INITIAL, b, Abc, 0xfe1623b1, 0x9f47e4f8, 0x790a77fb, 0x786acb8f, 0x0, 14, 0xa62884aa);
    Round2(31, INITIAL, b, Abc, 0x786acb8f, 0xa62884aa, 0x9f47e4f8, 0x790a77fb, 0x0, 20, 0x726342d3);
  }

  lemma Abc5(b: seq<byte>)
    requires Holds(b, Abc) && Operations(32, INITIAL, b) == Registers(0x790a77fb, 0x726342d3, 0xa62884aa, 0x9f47e4f8)
    ensures Operations(40, INITIAL, b) == Registers(0x21b117b9, 0x5a2f5ea5, 0x3575227e, 0x6e7429d5)
  {
    hide Operation, Operations, Word, Holds;
    Round3(32, INITIAL, b, Abc, 0x790a77fb, 0x726342d3, 0xa62884aa, 0x9f47e4f8, 0x0, 4, 0xb3707ebf);
    Round3(33, INITIAL, b, Abc, 0x9f47e4f8, 0xb3707ebf, 0x726342d3, 0xa62884aa, 0x0, 11, 0x60127b2e);
    Round3(34, INITIAL, b, Abc, 0xa62884aa, 0x60127b2e, 0xb3707ebf, 0x726342d3, 0x0, 16, 0x8d212ff5);
    Round3(35, INITIAL, b, Abc, 0x726342d3, 0x8d212ff5, 0x60127b2e, 0xb3707ebf, 0x18, 23, 0x3b0875c7);
    Round3(36, INITIAL, b, Abc, 0xb3707ebf, 0x3b0875c7, 0x8d212ff5, 0x60127b2e, 0x0, 4, 0x21b117b9);
    Round3(37, INITIAL, b, Abc, 0x60127b2e, 0x21b117b9, 0x3b0875c7, 0x8d212ff5, 0x0, 11, 0x6e7429d5);
    Round3(38, INITIAL, b, Abc, 0x8d212ff5, 0x6e7429d5, 0x21b117b9, 0x3b0875c7, 0x0, 16, 0x3575227e);
    Round3(39, INITIAL, b, Abc, 0x3b0875c7, 0x3575227e, 0x6e7429d5, 0x21b117b9, 0x0, 23, 0x5a2f5ea5);
  }

  lemma Abc6(b: seq<byte>)
    requires Holds(b, Abc) && Operations(40, INITIAL, b) == Registers(0x21b117b9, 0x5a2f5ea5, 0x3575227e, 0x6e7429d5)
    ensures Operations(48, INITIAL, b) == Registers(0x7f2e507b, 0x7beb9700, 0x8fae6399, 0x99d9679d)
  {
    hide Operation, Operations, Word, Holds;
    Round3(40, INITIAL, b, Abc, 0x21b117b9, 0x5a2f5ea5, 0x3575227e, 0x6e7429d5, 0x0, 4, 0x11de1779);
    Round3(41, INITIAL, b, Abc, 0x6e7429d5, 0x11de1779, 0x5a2f5ea5, 0x3575227e, 0x80636261, 11, 0xfadcaa38);
    Round3(42, INITIAL, b, Abc, 0x3575227e, 0xfadcaa38, 0x11de1779, 0x5a2f5ea5, 0x0, 16, 0x31c465ca);
    Round3(43, INITIAL, b, Abc, 0x5a2f5ea5, 0x31c465ca, 0xfadcaa38, 0x11de1779, 0x0, 23, 0x4c6124f4);
    Round3(44, INITIAL, b, Abc, 0x11de1779, 0x4c6124f4, 0x31c465ca, 0xfadcaa38, 0x0, 4, 0x7f2e507b);
    Round3(45, INITIAL, b, Abc, 0xfadcaa38, 0x7f2e507b, 0x4c6124f4, 0x31c465ca, 0x0, 11, 0x99d9679d);
    Round3(46, INITIAL, b, Abc, 0x31c465ca, 0x99d9679d, 0x7f2e507b, 0x4c6124f4, 0x0, 16, 0x8fae6399);
    Round3(47, INITIAL, b, Abc, 0x4c6124f4, 0x8fae6399, 0x99d9679d, 0x7f2e507b, 0x0, 23, 0x7beb9700);
  }

  lemma Abc7(b: seq<byte>)
    requires Holds(b, Abc) && Operations(48, INITIAL, b) == Registers(0x7f2e507b, 0x7beb9700, 0x8fae6399, 0x99d9679d)
    ensures Operations(56, INITIAL, b) == Registers(0x06cc5e8a, 0x3bfa2c27, 0x7d632dd0, 0x5b0d97aa)
  {
    hide Operation, Operations, Word, Holds;
    Round4(48, INITIAL, b, Abc, 0x7f2e507b, 0x7beb9700, 0x8fae6399, 0x99d9679d, 0x80636261, 6, 0x7b201df8);
    Round4(49, INITIAL, b, Abc, 0x99d9679d, 0x7b201df8, 0x7beb9700, 0x8fae6399, 0x0, 10, 0xf4e8e96e);
    Round4(50, INITIAL, b, Abc, 0x8fae6399, 0xf4e8e96e, 0x7b201df8, 0x7beb9700, 0x18, 15, 0xb298cefd);
    Round4(51, INITIAL, b, Abc, 0x7beb9700, 0xb298cefd, 0xf4e8e96e, 0x7b201df8, 0x0, 21, 0x8bf025c4);
    Round4(52, INITIAL, b, Abc, 0x7b201df8, 0x8bf025c4, 0xb298cefd, 0xf4e8e96e, 0x0, 6, 0x06cc5e8a);
    Round4(53, INITIAL, b, Abc, 0xf4e8e96e, 0x06cc5e8a, 0x8bf025c4, 0xb298cefd, 0x0, 10, 0x5b0d97aa);
    Round4(54, INITIAL, b, Abc, 0xb298cefd, 0x5b0d97aa, 0x06cc5e8a, 0x8bf025c4, 0x0, 15, 0x7d632dd0);
    Round4(55, INITIAL, b, Abc, 0x8bf025c4, 0x7d632dd0, 0x5b0d97aa, 0x06cc5e8a, 0x0, 21, 0x3bfa2c27);
  }

  lemma Abc8(b: seq<byte>)
    requires Holds(b, Abc) && Operations(56, INITIAL, b) == Registers(0x06cc5e8a, 0x3bfa2c27, 0x7d632dd0, 0x5b0d97aa)
    ensures Operations(64, INITIAL, b) == Registers(0x310ade8f, 0xc08226b3, 0xe484b9d8, 0x624d8cb2)
  {
    hide Operation, Operations, Word, Holds;
    Round4(56, INITIAL, b, Abc, 0x06cc5e8a, 0x3bfa2c27, 0x7d632dd0, 0x5b0d97aa, 0x0, 6, 0x7f81cc35);
    Round4(57, INITIAL, b, Abc, 0x5b0d97aa, 0x7f81cc35, 0x3bfa2c27, 0x7d632dd0, 0x0, 10, 0x094454ab);
    Round4(58, INITIAL, b, Abc, 0x7d632dd0, 0x094454ab, 0x7f81cc35, 0x3bfa2c27, 0x0, 15, 0x4f9dbe3f);
    Round4(59, INITIAL, b, Abc, 0x3bfa2c27, 0x4f9dbe3f, 0x094454ab, 0x7f81cc35, 0x0, 21, 0x7327d604);
    Round4(60, INITIAL, b, Abc, 0x7f81cc35, 0x7327d604, 0x4f9dbe3f, 0x094454ab, 0x0, 6, 0x310ade8f);
    Round4(61, INITIAL, b, Abc, 0x094454ab, 0x310ade8f, 0x7327d604, 0x4f9dbe3f, 0x0, 10, 0x624d8cb2);
    Round4(62, INITIAL, b, Abc, 0x4f9dbe3f, 0x624d8cb2, 0x310ade8f, 0x7327d604, 0x0, 15, 0xe484b9d8);
    Round4(63, INITIAL, b, Abc, 0x7327d604, 0xe484b9d8, 0x624d8cb2, 0x310ade8f, 0x0, 21, 0xc08226b3);
  }

  lemma Head1(b: seq<byte>)
    requires Holds(b, Head)
    ensures Operations(4, INITIAL, b) == Registers(0xc6c10796, 0x27bce07a, 0x11067980, 0x99a09999)
  {
    hide Operation, Operations, Word, Holds;
    NoOperation(INITIAL, b, Head);
    Round1(0, INITIAL, b, Head, 0x67452301, 0xefcdab89, 0x98badcfe, 0x10325476, 0x44434241, 7, 0xc6c10796);
    Round1(1, INITIAL, b, Head, 0x10325476, 0xc6c10796, 0xefcdab89, 0x98badcfe, 0x48474645, 12, 0x99a09999);
    Round1(2, INITIAL, b, Head, 0x98badcfe, 0x99a09999, 0xc6c10796, 0xefcdab89, 0x4c4b4a49, 17, 0x11067980);
    Round1(3, INITIAL, b, Head, 0xefcdab89, 0x11067980, 0x99a09999, 0xc6c10796, 0x504f4e4d, 22, 0x27bce07a);
  }

  lemma Head2(b: seq<byte>)
    requires Holds(b, Head) && Operations(4, INITIAL, b) == Registers(0xc6c10796, 0x27bce07a, 0x11067980, 0x99a09999)
    ensures Operations(8, INITIAL, b) == Registers(0xf22e6c4e, 0xa4799506, 0xa95a2fc0, 0xb4ac9218)
  {
    hide Operation, Operations, Word, Holds;
    Round1(4, INITIAL, b, Head, 0xc6c10796, 0x27bce07a, 0x11067980, 0x99a09999, 0x54535251, 7, 0xf22e6c4e);
    Round1(5, INITIAL, b, Head, 0x99a09999, 0xf22e6c4e, 0x27bce07a, 0x11067980, 0x58575655, 12, 0xb4ac9218);
    Round1(6, INITIAL, b, Head, 0x11067980, 0xb4ac9218, 0xf22e6c4e, 0x27bce07a, 0x62615a59, 17, 0xa95a2fc0);
    Round1(7, INITIAL, b, Head, 0x27bce07a, 0xa95a2fc0, 0xb4ac9218, 0xf22e6c4e, 0x66656463, 22, 0xa4799506);
  }

  lemma Head3(b: seq<byte>)
    requires Holds(b, Head) && Operations(8, INITIAL, b) == Registers(0xf22e6c4e, 0xa4799506, 0xa95a2fc0, 0xb4ac9218)
    ensures Operations(12, INITIAL, b) == Registers(0x1eb3e7c1, 0x8a7612ec, 0xca27520b, 0xa6e70cfe)
  {
    hide Operation, Operations, Word, Holds;
    Round1(8, INITIAL, b, Head, 0xf22e6c4e, 0xa4799506, 0xa95a2fc0, 0xb4ac9218, 0x6a696867, 7, 0x1eb3e7c1);
    Round1(9, INITIAL, b, Head, 0xb4ac9218, 0x1eb3e7c1, 0xa4799506, 0xa95a2fc0, 0x6e6d6c6b, 12, 0xa6e70cfe);
    Round1(10, INITIAL, b, Head, 0xa95a2fc0, 0xa6e70cfe, 0x1eb3e7c1, 0xa4799506, 0x7271706f, 17, 0xca27520b);
    Round1(11, INITIAL, b, Head, 0xa4799506, 0xca27520b, 0xa6e70cfe, 0x1eb3e7c1, 0x76757473, 22, 0x8a7612ec);
  }

  lemma Head4(b: seq<byte>)
    requires Holds(b, Head) && Operations(12, INITIAL, b) == Registers(0x1eb3e7c1, 0x8a7612ec, 0xca27520b, 0xa6e70cfe)
    ensures Operations(16, INITIAL, b) == Registers(0x3cbdcd45, 0x5d38e690, 0xfa148c8a, 0xb8dec763)
  {
    hide Operation, Operations, Word, Holds;
    Round1(12, INITIAL, b, Head, 0x1eb3e7c1, 0x8a7612ec, 0xca27520b, 0xa6e70cfe, 0x7a797877, 7, 0x3cbdcd45);
    Round1(13, INITIAL, b, Head, 0xa6e70cfe, 0x3cbdcd45, 0x8a7612ec, 0xca27520b, 0x33323130, 12, 0xb8dec763);
    Round1(14, INITIAL, b, Head, 0xca27520b, 0xb8dec763, 0x3cbdcd45, 0x8a7612ec, 0x37363534, 17, 0xfa148c8a);
    Round1(15, INITIAL, b, Head, 0x8a7612ec, 0xfa148c8a, 0xb8dec763, 0x3cbdcd45, 0x803938, 22, 0x5d38e690);
  }

  lemma Head5(b: seq<byte>)
    requires Holds(b, Head) && Operations(16, INITIAL, b) == Registers(0x3cbdcd45, 0x5d38e690, 0xfa148c8a, 0xb8dec763)
    ensures Operations(20, INITIAL, b) == Registers(0x04b9d52a, 0x47ae7c81, 0xd3ee3ed1, 0x783002eb)
  {
    hide Operation, Operations, Word, Holds;
    Round2(16, INITIAL, b, Head, 0x3cbdcd45, 0x5d38e690, 0xfa148c8a, 0xb8dec763, 0x48474645, 5, 0x04b9d52a);
    Round2(17, INITIAL, b, Head, 0xb8dec763, 0x04b9d52a, 0x5d38e690, 0xfa148c8a, 0x62615a59, 9, 0x783002eb);
    Round2(18, INITIAL, b, Head, 0xfa148c8a, 0x783002eb, 0x04b9d52a, 0x5d38e690, 0x76757473, 14, 0xd3ee3ed1);
    Round2(19, INITIAL, b, Head, 0x5d38e690, 0xd3ee3ed1, 0x783002eb, 0x04b9d52a, 0x44434241, 20, 0x47ae7c81);
  }

  lemma Head6(b: seq<byte>)
    requires Holds(b, Head) && Operations(20, INITIAL, b) == Registers(0x04b9d52a, 0x47ae7c81, 0xd3ee3ed1, 0x783002eb)
    ensures Operations(24, INITIAL, b) == Registers(0x2d7d8a3f, 0x75292030, 0x4b534dc3, 0xd1210823)
  {
    hide Operation, Operations, Word, Holds;
    Round2(20, INITIAL, b, Head, 0x04b9d52a, 0x47ae7c81, 0xd3ee3ed1, 0x783002eb, 0x58575655, 5, 0x2d7d8a3f);
    Round2(21, INITIAL, b, Head, 0x783002eb, 0x2d7d8a3f, 0x47ae7c81, 0xd3ee3ed1, 0x7271706f, 9, 0xd1210823);
    Round2(22, INITIAL, b, Head, 0xd3ee3ed1, 0xd1210823, 0x2d7d8a3f, 0x47ae7c81, 0x803938, 14, 0x4b534dc3);
    Round2(23, INITIAL, b, Head, 0x47ae7c81, 0x4b534dc3, 0xd1210823, 0x2d7d8a3f, 0x54535251, 20, 0x75292030);
  }

  lemma Head7(b: seq<byte>)
    requires Holds(b, Head) && Operations(24, INITIAL, b) == Registers(0x2d7d8a3f, 0x75292030, 0x4b534dc3, 0xd1210823)
    ensures Operations(28, INITIAL, b) == Registers(0x9d2a6e33, 0xf2ff6ea0, 0xd473b564, 0x0e8d2e44)
  {
    hide Operation, Operations, Word, Holds;
    Round2(24, INITIAL, b, Head, 0x2d7d8a3f, 0x75292030, 0x4b534dc3, 0xd1210823, 0x6e6d6c6b, 5, 0x9d2a6e33);
    Round2(25, INITIAL, b, Head, 0xd1210823, 0x9d2a6e33, 0x75292030, 0x4b534dc3, 0x37363534, 9, 0x0e8d2e44);
    Round2(26, INITIAL, b, Head, 0x4b534dc3, 0x0e8d2e44, 0x9d2a6e33, 0x75292030, 0x504f4e4d, 14, 0xd473b564);
    Round2(27, INITIAL, b, Head, 0x75292030, 0xd473b564, 0x0e8d2e44, 0x9d2a6e33, 0x6a696867, 20, 0xf2ff6ea0);
  }

  lemma Head8(b: seq<byte>)
    requires Holds(b, Head) && Operations(28, INITIAL, b) == Registers(0x9d2a6e33, 0xf2ff6ea0, 0xd473b564, 0x0e8d2e44)
    ensures Operations(32, INITIAL, b) == Registers(0x9b085fa9, 0xdd789ecc, 0x5993248f, 0x4400a9bd)
  {
    hide Operation, Operations, Word, Holds;
    Round2(28, INITIAL, b, Head, 0x9d2a6e33, 0xf2ff6ea0, 0xd473b564, 0x0e8d2e44, 0x33323130, 5, 0x9b085fa9);
    Round2(29, INITIAL, b, Head, 0x0e8d2e44, 0x9b085fa9, 0xf2ff6ea0, 0xd473b564, 0x4c4b4a49, 9, 0x4400a9bd);
    Round2(30, INITIAL, b, Head, 0xd473b564, 0x4400a9bd, 0x9b085fa9, 0xf2ff6ea0, 0x66656463, 14, 0x5993248f);
    Round2(31, INITIAL, b, Head, 0xf2ff6ea0, 0x5993248f, 0x4400a9bd, 0x9b085fa9, 0x7a797877, 20, 0xdd789ecc);
  }

  lemma Head9(b: seq<byte>)
    requires Holds(b, Head) && Operations(32, INITIAL, b) == Registers(0x9b085fa9, 0xdd789ecc, 0x5993248f, 0x4400a9bd)
    ensures Operations(36, INITIAL, b) == Registers(0x21c8d2b7, 0x1b9504f8, 0x056ec119, 0x1d55a18e)
  {
    hide Operation, Operations, Word, Holds;
    Round3(32, INITIAL, b, Head, 0x9b085fa9, 0xdd789ecc, 0x5993248f, 0x4400a9bd, 0x58575655, 4, 0x21c8d2b7);
    Round3(33, INITIAL, b, Head, 0x4400a9bd, 0x21c8d2b7, 0xdd789ecc, 0x5993248f, 0x6a696867, 11, 0x1d55a18e);
    Round3(34, INITIAL, b, Head, 0x5993248f, 0x1d55a18e, 0x21c8d2b7, 0xdd789ecc, 0x76757473, 16, 0x056ec119);
    Round3(35, INITIAL, b, Head, 0xdd789ecc, 0x056ec119, 0x1d55a18e, 0x21c8d2b7, 0x37363534, 23, 0x1b9504f8);
  }

  lemma Head10(b: seq<byte>)
    requires Holds(b, Head) && Operations(36, INITIAL, b) == Registers(0x21c8d2b7, 0x1b9504f8, 0x056ec119, 0x1d55a18e)
    ensures Operations(40, INITIAL, b) == Registers(0x436b7fe9, 0xcf0341ed, 0xf404c2f6, 0x075800c1)
  {
    hide Operation, Operations, Word, Holds;
    Round3(36, INITIAL, b, Head, 0x21c8d2b7, 0x1b9504f8, 0x056ec119, 0x1d55a18e, 0x48474645, 4, 0x436b7fe9);
    Round3(37, INITIAL, b, Head, 0x1d55a18e, 0x436b7fe9, 0x1b9504f8, 0x056ec119, 0x54535251, 11, 0x075800c1);
    Round3(38, INITIAL, b, Head, 0x056ec119, 0x075800c1, 0x436b7fe9, 0x1b9504f8, 0x66656463, 16, 0xf404c2f6);
    Round3(39, INITIAL, b, Head, 0x1b9504f8, 0xf404c2f6, 0x075800c1, 0x436b7fe9, 0x7271706f, 23, 0xcf0341ed);
  }

  lemma Head11(b: seq<byte>)
    requires Holds(b, Head) && Operations(40, INITIAL, b) == Registers(0x436b7fe9, 0xcf0341ed, 0xf404c2f6, 0x075800c1)
    ensures Operations(44, INITIAL, b) == Registers(0x888e7d8a, 0x047b9419, 0xce620273, 0xbbdaecd8)
  {
    hide Operation, Operations, Word, Holds;
    Round3(40, INITIAL, b, Head, 0x436b7fe9, 0xcf0341ed, 0xf404c2f6, 0x075800c1, 0x33323130, 4, 0x888e7d8a);
    Round3(41, INITIAL, b, Head, 0x075800c1, 0x888e7d8a, 0xcf0341ed, 0xf404c2f6, 0x44434241, 11, 0xbbdaecd8);
    Round3(42, INITIAL, b, Head, 0xf404c2f6, 0xbbdaecd8, 0x888e7d8a, 0xcf0341ed, 0x504f4e4d, 16, 0xce620273);
    Round3(43, INITIAL, b, Head, 0xcf0341ed, 0xce620273, 0xbbdaecd8, 0x888e7d8a, 0x62615a59, 23, 0x047b9419);
  }

  lemma Head12(b: seq<byte>)
    requires Holds(b, Head) && Operations(44, INITIAL, b) == Registers(0x888e7d8a, 0x047b9419, 0xce620273, 0xbbdaecd8)
    ensures Operations(48, INITIAL, b) == Registers(0x2dbee21d, 0xf166f514, 0xee46e961, 0xe95c3a43)
  {
    hide Operation, Operations, Word, Holds;
    Round3(44, INITIAL, b, Head, 0x888e7d8a, 0x047b9419, 0xce620273, 0xbbdaecd8, 0x6e6d6c6b, 4, 0x2dbee21d);
    Round3(45, INITIAL, b, Head, 0xbbdaecd8, 0x2dbee21d, 0x047b9419, 0xce620273, 0x7a797877, 11, 0xe95c3a43);
    Round3(46, INITIAL, b, Head, 0xce620273, 0xe95c3a43, 0x2dbee21d, 0x047b9419, 0x803938, 16, 0xee46e961);
    Round3(47, INITIAL, b, Head, 0x047b9419, 0xee46e961, 0xe95c3a43, 0x2dbee21d, 0x4c4b4a49, 23, 0xf166f514);
  }

  lemma Head13(b: seq<byte>)
    requires Holds(b, Head) && Operations(48, INITIAL, b) == Registers(0x2dbee21d, 0xf166f514, 0xee46e961, 0xe95c3a43)
    ensures Operations(52, INITIAL, b) == Registers(0xe47fd4f3, 0x7a13bc5c, 0xf22aedcc, 0xfb887751)
  {
    hide Operation, Operations, Word, Holds;
    Round4(48, INITIAL, b, Head, 0x2dbee21d, 0xf166f514, 0xee46e961, 0xe95c3a43, 0x44434241, 6, 0xe47fd4f3);
    Round4(49, INITIAL, b, Head, 0xe95c3a43, 0xe47fd4f3, 0xf166f514, 0xee46e961, 0x66656463, 10, 0xfb887751);
    Round4(50, INITIAL, b, Head, 0xee46e961, 0xfb887751, 0xe47fd4f3, 0xf166f514, 0x37363534, 15, 0xf22aedcc);
    Round4(51, INITIAL, b, Head, 0xf166f514, 0xf22aedcc, 0xfb887751, 0xe47fd4f3, 0x58575655, 21, 0x7a13bc5c);
  }

  lemma Head14(b: seq<byte>)
    requires Holds(b, Head) && Operations(52, INITIAL, b) == Registers(0xe47fd4f3, 0x7a13bc5c, 0xf22aedcc, 0xfb887751)
    ensures Operations(56, INITIAL, b) == Registers(0xa691d430, 0xefb0e72f, 0x3fc23df6, 0x528452f2)
  {
    hide Operation, Operations, Word, Holds;
    Round4(52, INITIAL, b, Head, 0xe47fd4f3, 0x7a13bc5c, 0xf22aedcc, 0xfb887751, 0x7a797877, 6, 0xa691d430);
    Round4(53, INITIAL, b, Head, 0xfb887751, 0xa691d430, 0x7a13bc5c, 0xf22aedcc, 0x504f4e4d, 10, 0x528452f2);
    Round4(54, INITIAL, b, Head, 0xf22aedcc, 0x528452f2, 0xa691d430, 0x7a13bc5c, 0x7271706f, 15, 0x3fc23df6);
    Round4(55, INITIAL, b, Head, 0x7a13bc5c, 0x3fc23df6, 0x528452f2, 0xa691d430, 0x48474645, 21, 0xefb0e72f);
  }

  lemma Head15(b: seq<byte>)
    requires Holds(b, Head) && Operations(56, INITIAL, b) == Registers(0xa691d430, 0xefb0e72f, 0x3fc23df6, 0x528452f2)
    ensures Operations(60, INITIAL, b) == Registers(0x27145703, 0x49d9a5b4, 0x374fbe79, 0x21a11069)
  {
    hide Operation, Operations, Word, Holds;
    Round4(56, INITIAL, b, Head, 0xa691d430, 0xefb0e72f, 0x3fc23df6, 0x528452f2, 0x6a696867, 6, 0x27145703);
    Round4(57, INITIAL, b, Head, 0x528452f2, 0x27145703, 0xefb0e72f, 0x3fc23df6, 0x803938, 10, 0x21a11069);
    Round4(58, INITIAL, b, Head, 0x3fc23df6, 0x21a11069, 0x27145703, 0xefb0e72f, 0x62615a59, 15, 0x374fbe79);
    Round4(59, INITIAL, b, Head, 0xefb0e72f, 0x374fbe79, 0x21a11069, 0x27145703, 0x33323130, 21, 0x49d9a5b4);
  }

  lemma Head16(b: seq<byte>)
    requires Holds(b, Head) && Operations(60, INITIAL, b) == Registers(0x27145703, 0x49d9a5b4, 0x374fbe79, 0x21a11069)
    ensures Operations(64, INITIAL, b) == Registers(0x1cb80f0a, 0xef2e3a46, 0x10f68731, 0xea3d3eb4)
  {
    hide Operation, Operations, Word, Holds;
    Round4(60, INITIAL, b, Head, 0x27145703, 0x49d9a5b4, 0x374fbe79, 0x21a11069, 0x54535251, 6, 0x1cb80f0a);
    Round4(61, INITIAL, b, Head, 0x21a11069, 0x1cb80f0a, 0x49d9a5b4, 0x374fbe79, 0x76757473, 10, 0xea3d3eb4);
    Round4(62, INITIAL, b, Head, 0x374fbe79, 0xea3d3eb4, 0x1cb80f0a, 0x49d9a5b4, 0x4c4b4a49, 15, 0x10f68731);
    Round4(63, INITIAL, b, Head, 0x49d9a5b4, 0x10f68731, 0xea3d3eb4, 0x1cb80f0a, 0x6e6d6c6b, 21, 0xef2e3a46);
  }

  lemma Tail1(b: seq<byte>)
    requires Holds(b, Tail)
    ensures Operations(8, MIDDLE, b) == Registers(0x75144433, 0x99b6b699, 0xc783cb60, 0xc8875807)
  {
    hide Operation, Operations, Word, Holds;
    NoOperation(MIDDLE, b, Tail);
    Round1(0, MIDDLE, b, Tail, 0x83fd320b, 0xdefbe5cf, 0xa9b1642f, 0xfa6f932a, 0x0, 7, 0xeda23ed1);
    Round1(1, MIDDLE, b, Tail, 0xfa6f932a, 0xeda23ed1, 0xdefbe5cf, 0xa9b1642f, 0x0, 12, 0x989939cf);
    Round1(2, MIDDLE, b, Tail, 0xa9b1642f, 0x989939cf, 0xeda23ed1, 0xdefbe5cf, 0x0, 17, 0x3c307338);
    Round1(3, MIDDLE, b, Tail, 0xdefbe5cf, 0x3c307338, 0x989939cf, 0xeda23ed1, 0x0, 22, 0xddcf0634);
    Round1(4, MIDDLE, b, Tail, 0xeda23ed1, 0xddcf0634, 0x3c307338, 0x989939cf, 0x0, 7, 0x75144433);
    Round1(5, MIDDLE, b, Tail, 0x989939cf, 0x75144433, 0xddcf0634, 0x3c307338, 0x0, 12, 0xc8875807);
    Round1(6, MIDDLE, b, Tail, 0x3c307338, 0xc8875807, 0x75144433, 0xddcf0634, 0x0, 17, 0xc783cb60);
    Round1(7, MIDDLE, b, Tail, 0xddcf0634, 0xc783cb60, 0xc8875807, 0x75144433, 0x0, 22, 0x99b6b699);
  }

  lemma Tail2(b: seq<byte>)
    requires Holds(b, Tail) && Operations(8, MIDDLE, b) == Registers(0x75144433, 0x99b6b699, 0xc783cb60, 0xc8875807)
    ensures Operations(16, MIDDLE, b) == Registers(0xa70737da, 0xa36f556f, 0x96f6586e, 0x5473f8a7)
  {
    hide Operation, Operations, Word, Holds;
    Round1(8, MIDDLE, b, Tail, 0x75144433, 0x99b6b699, 0xc783cb60, 0xc8875807, 0x0, 7, 0xa60a3f69);
    Round1(9, MIDDLE, b, Tail, 0xc8875807, 0xa60a3f69, 0x99b6b699, 0xc783cb60, 0x0, 12, 0xaa6630be);
    Round1(10, MIDDLE, b, Tail, 0xc783cb60, 0xaa6630be, 0xa60a3f69, 0x99b6b699, 0x0, 17, 0x64db26e9);
    Round1(11, MIDDLE, b, Tail, 0x99b6b699, 0x64db26e9, 0xaa6630be, 0xa60a3f69, 0x0, 22, 0x64cc7c5a);
    Round1(12, MIDDLE, b, Tail, 0xa60a3f69, 0x64cc7c5a, 0x64db26e9, 0xaa6630be, 0x0, 7, 0xa70737da);
    Round1(13, MIDDLE, b, Tail, 0xaa6630be, 0xa70737da, 0x64cc7c5a, 0x64db26e9, 0x0, 12, 0x5473f8a7);
    Round1(14, MIDDLE, b, Tail, 0x64db26e9, 0x5473f8a7, 0xa70737da, 0x64cc7c5a, 0x1f0, 17, 0x96f6586e);
    Round1(15, MIDDLE, b, Tail, 0x64cc7c5a, 0x96f6586e, 0x5473f8a7, 0xa70737da, 0x0, 22, 0xa36f556f);
  }

  lemma Tail3(b: seq<byte>)
    requires Holds(b, Tail) && Operations(16, MIDDLE, b) == Registers(0xa70737da, 0xa36f556f, 0x96f6586e, 0x5473f8a7)
    ensures Operations(24, MIDDLE, b) == Registers(0xe04f070c, 0xdf35cb56, 0xc0d22b61, 0x2f3cd2a2)
  {
    hide Operation, Operations, Word, Holds;
    Round2(16, MIDDLE, b, Tail, 0xa70737da, 0xa36f556f, 0x96f6586e, 0x5473f8a7, 0x0, 5, 0xa5050ad3);
    Round2(17, MIDDLE, b, Tail, 0x5473f8a7, 0xa5050ad3, 0xa36f556f, 0x96f6586e, 0x0, 9, 0x28776046);
    Round2(18, MIDDLE, b, Tail, 0x96f6586e, 0x28776046, 0xa5050ad3, 0xa36f556f, 0x0, 14, 0x27dcd8b4);
    Round2(19, MIDDLE, b, Tail, 0xa36f556f, 0x27dcd8b4, 0x28776046, 0xa5050ad3, 0x0, 20, 0x82b8827c);
    Round2(20, MIDDLE, b, Tail, 0xa5050ad3, 0x82b8827c, 0x27dcd8b4, 0x28776046, 0x0, 5, 0xe04f070c);
    Round2(21, MIDDLE, b, Tail, 0x28776046, 0xe04f070c, 0x82b8827c, 0x27dcd8b4, 0x0, 9, 0x2f3cd2a2);
    Round2(22, MIDDLE, b, Tail, 0x27dcd8b4, 0x2f3cd2a2, 0xe04f070c, 0x82b8827c, 0x0, 14, 0xc0d22b61);
    Round2(23, MIDDLE, b, Tail, 0x82b8827c, 0xc0d22b61, 0x2f3cd2a2, 0xe04f070c, 0x0, 20, 0xdf35cb56);
  }

  lemma Tail4(b: seq<byte>)
    requires Holds(b, Tail) && Operations(24, MIDDLE, b) == Registers(0xe04f070c, 0xdf35cb56, 0xc0d22b61, 0x2f3cd2a2)
    ensures Operations(32, MIDDLE, b) == Registers(0x24eba695, 0x9c03e2e8, 0x10c42a2f, 0x4bd0378b)
  {
    hide Operation, Operations, Word, Holds;
    Round2(24, MIDDLE, b, Tail, 0xe04f070c, 0xdf35cb56, 0xc0d22b61, 0x2f3cd2a2, 0x0, 5, 0x242dd210);
    Round2(25, MIDDLE, b, Tail, 0x2f3cd2a2, 0x242dd210, 0xdf35cb56, 0xc0d22b61, 0x1f0, 9, 0x576ace33);
    Round2(26, MIDDLE, b, Tail, 0xc0d22b61, 0x576ace33, 0x242dd210, 0xdf35cb56, 0x0, 14, 0x5c295967);
    Round2(27, MIDDLE, b, Tail, 0xdf35cb56, 0x5c295967, 0x576ace33, 0x242dd210, 0x0, 20, 0x2291191a);
    Round2(28, MIDDLE, b, Tail, 0x242dd210, 0x2291191a, 0x5c295967, 0x576ace33, 0x0, 5, 0x24eba695);
    Round2(29, MIDDLE, b, Tail, 0x576ace33, 0x24eba695, 0x2291191a, 0x5c295967, 0x0, 9, 0x4bd0378b);
    Round2(30, MIDDLE, b, Tail, 0x5c295967, 0x4bd0378b, 0x24eba695, 0x2291191a, 0x0, 14, 0x10c42a2f);
    Round2(31, MIDDLE, b, Tail, 0x2291191a, 0x10c42a2f, 0x4bd0378b, 0x24eba695, 0x0, 20, 0x9c03e2e8);
  }

  lemma Tail5(b: seq<byte>)
    requires Holds(b, Tail) && Operations(32, MIDDLE, b) == Registers(0x24eba695, 0x9c03e2e8, 0x10c42a2f, 0x4bd0378b)
    ensures Operations(40, MIDDLE, b) == Registers(0xe14e403d, 0xfe314121, 0x60cc183a, 0xe8cfd670)
  {
    hide Operation, Operations, Word, Holds;
    Round3(32, MIDDLE, b, Tail, 0x24eba695, 0x9c03e2e8, 0x10c42a2f, 0x4bd0378b, 0x0, 4, 0x5be1d526);
    Round3(33, MIDDLE, b, Tail, 0x4bd0378b, 0x5be1d526, 0x9c03e2e8, 0x10c42a2f, 0x0, 11, 0x9e414279);
    Round3(34, MIDDLE, b, Tail, 0x10c42a2f, 0x9e414279, 0x5be1d526, 0x9c03e2e8, 0x0, 16, 0x9f4a1a7e);
    Round3(35, MIDDLE, b, Tail, 0x9c03e2e8, 0x9f4a1a7e, 0x9e414279, 0x5be1d526, 0x1f0, 23, 0xa2448453);
    Round3(36, MIDDLE, b, Tail, 0x5be1d526, 0xa2448453, 0x9f4a1a7e, 0x9e414279, 0x0, 4, 0xe14e403d);
    Round3(37, MIDDLE, b, Tail, 0x9e414279, 0xe14e403d, 0xa2448453, 0x9f4a1a7e, 0x0, 11, 0xe8cfd670);
    Round3(38, MIDDLE, b, Tail, 0x9f4a1a7e, 0xe8cfd670, 0xe14e403d, 0xa2448453, 0x0, 16, 0x60cc183a);
    Round3(39, MIDDLE, b, Tail, 0xa2448453, 0x60cc183a, 0xe8cfd670, 0xe14e403d, 0x0, 23, 0xfe314121);
  }

  lemma Tail6(b: seq<byte>)
    requires Holds(b, Tail) && Operations(40, MIDDLE, b) == Registers(0xe14e403d, 0xfe314121, 0x60cc183a, 0xe8cfd670)
    ensures Operations(48, MIDDLE, b) == Registers(0x54c9eb3a, 0x79c0710a, 0x2ec86f72, 0xd4d9c6ac)
  {
    hide Operation, Operations, Word, Holds;
    Round3(40, MIDDLE, b, Tail, 0xe14e403d, 0xfe314121, 0x60cc183a, 0xe8cfd670, 0x0, 4, 0xfff62809);
    Round3(41, MIDDLE, b, Tail, 0xe8cfd670, 0xfff62809, 0xfe314121, 0x60cc183a, 0x0, 11, 0xe37209ac);
    Round3(42, MIDDLE, b, Tail, 0x60cc183a, 0xe37209ac, 0xfff62809, 0xfe314121, 0x0, 16, 0x8cb5221c);
    Round3(43, MIDDLE, b, Tail, 0xfe314121, 0x8cb5221c, 0xe37209ac, 0xfff62809, 0x0, 23, 0x7c7e974c);
    Round3(44, MIDDLE, b, Tail, 0xfff62809, 0x7c7e974c, 0x8cb5221c, 0xe37209ac, 0x0, 4, 0x54c9eb3a);
    Round3(45, MIDDLE, b, Tail, 0xe37209ac, 0x54c9eb3a, 0x7c7e974c, 0x8cb5221c, 0x0, 11, 0xd4d9c6ac);
    Round3(46, MIDDLE, b, Tail, 0x8cb5221c, 0xd4d9c6ac, 0x54c9eb3a, 0x7c7e974c, 0x0, 16, 0x2ec86f72);
    Round3(47, MIDDLE, b, Tail, 0x7c7e974c, 0x2ec86f72, 0xd4d9c6ac, 0x54c9eb3a, 0x0, 23, 0x79c0710a);
  }

  lemma Tail7(b: seq<byte>)
    requires Holds(b, Tail) && Operations(48, MIDDLE, b) == Registers(0x54c9eb3a, 0x79c0710a, 0x2ec86f72, 0xd4d9c6ac)
    ensures Operations(56, MIDDLE, b) == Registers(0xe126c1aa, 0xfb7bcee0, 0x6f287ff5, 0x96b00fa7)
  {
    hide Operation, Operations, Word, Holds;
    Round4(48, MIDDLE, b, Tail, 0x54c9eb3a, 0x79c0710a, 0x2ec86f72, 0xd4d9c6ac, 0x0, 6, 0x02095af1);
    Round4(49, MIDDLE, b, Tail, 0xd4d9c6ac, 0x02095af1, 0x79c0710a, 0x2ec86f72, 0x0, 10, 0x13d245fd);
    Round4(50, MIDDLE, b, Tail, 0x2ec86f72, 0x13d245fd, 0x02095af1, 0x79c0710a, 0x1f0, 15, 0xa8dcfe26);
    Round4(51, MIDDLE, b, Tail, 0x79c0710a, 0xa8dcfe26, 0x13d245fd, 0x02095af1, 0x0, 21, 0x2ba98e3f);
    Round4(52, MIDDLE, b, Tail, 0x02095af1, 0x2ba98e3f, 0xa8dcfe26, 0x13d245fd, 0x0, 6, 0xe126c1aa);
    Round4(53, MIDDLE, b, Tail, 0x13d245fd, 0xe126c1aa, 0x2ba98e3f, 0xa8dcfe26, 0x0, 10, 0x96b00fa7);
    Round4(54, MIDDLE, b, Tail, 0xa8dcfe26, 0x96b00fa7, 0xe126c1aa, 0x2ba98e3f, 0x0, 15, 0x6f287ff5);
    Round4(55, MIDDLE, b, Tail, 0x2ba98e3f, 0x6f287ff5, 0x96b00fa7, 0xe126c1aa, 0x0, 21, 0xfb7bcee0);
  }

  lemma Tail8(b: seq<byte>)
    requires Holds(b, Tail) && Operations(56, MIDDLE, b) == Registers(0xe126c1aa, 0xfb7bcee0, 0x6f287ff5, 0x96b00fa7)
    ensures Operations(64, MIDDLE, b) == Registers(0x14ae42c6, 0x16dd9203, 0x826afd76, 0xa52dae75)
  {
    hide Operation, Operations, Word, Holds;
    Round4(56, MIDDLE, b, Tail, 0xe126c1aa, 0xfb7bcee0, 0x6f287ff5, 0x96b00fa7, 0x0, 6, 0x452c1099);
    Round4(57, MIDDLE, b, Tail, 0x96b00fa7, 0x452c1099, 0xfb7bcee0, 0x6f287ff5, 0x0, 10, 0xca801ba6);
    Round4(58, MIDDLE, b, Tail, 0x6f287ff5, 0xca801ba6, 0x452c1099, 0xfb7bcee0, 0x0, 15, 0xc197ea8e);
    Round4(59, MIDDLE, b, Tail, 0xfb7bcee0, 0xc197ea8e, 0xca801ba6, 0x452c1099, 0x0, 21, 0x5ac74608);
    Round4(60, MIDDLE, b, Tail, 0x452c1099, 0x5ac74608, 0xc197ea8e, 0xca801ba6, 0x0, 6, 0x14ae42c6);
    Round4(61, MIDDLE, b, Tail, 0xca801ba6, 0x14ae42c6, 0x5ac74608, 0xc197ea8e, 0x0, 10, 0xa52dae75);
    Round4(62, MIDDLE, b, Tail, 0xc197ea8e, 0xa52dae75, 0x14ae42c6, 0x5ac74608, 0x0, 15, 0x826afd76);
    Round4(63, MIDDLE, b, Tail, 0x5ac74608, 0x826afd76, 0xa52dae75, 0x14ae42c6, 0x0, 21, 0x16dd9203);
  }

  // ---- Whole blocks

  lemma EmptyDone(b: seq<byte>)
    requires Holds(b, Empty)
    ensures Compress(INITIAL, b) == Registers(0xd98c1dd4, 0x04b2008f, 0x980980e9, 0x7e42f8ec)
  {
    hide Operations, Holds;
    Empty1(b);
    Empty2(b);
    Empty3(b);
    Empty4(b);
    Empty5(b);
    Empty6(b);
    Empty7(b);
    Empty8(b);
  }

  lemma AbcDone(b: seq<byte>)
    requires Holds(b, Abc)
    ensures Compress(INITIAL, b) == Registers(0x98500190, 0xb04fd23c, 0x7d3f96d6, 0x727fe128)
  {
    hide Operations, Holds;
    Abc1(b);
    Abc2(b);
    Abc3(b);
    Abc4(b);
    Abc5(b);
    Abc6(b);
    Abc7(b);
    Abc8(b);
  }

  lemma HeadDone(b: seq<byte>)
    requires Holds(b, Head)
    ensures Compress(INITIAL, b) == Registers(0x83fd320b, 0xdefbe5cf, 0xa9b1642f, 0xfa6f932a)
  {
    hide Operations, Holds;
    Head1(b);
    Head2(b);
    Head3(b);
    Head4(b);
    Head5(b);
    Head6(b);
    Head7(b);
    Head8(b);
    Head9(b);
    Head10(b);
    Head11(b);
    Head12(b);
    Head13(b);
    Head14(b);
    Head15(b);
    Head16(b);
  }

  lemma TailDone(b: seq<byte>)
    requires Holds(b, Tail)
    ensures Compress(MIDDLE, b) == Registers(0x98ab74d1, 0xf5d977d2, 0x2c1c61a5, 0x9f9d419f)
  {
    hide Operations, Holds;
    Tail1(b);
    Tail2(b);
    Tail3(b);
    Tail4(b);
    Tail5(b);
    Tail6(b);
    Tail7(b);
    Tail8(b);
  }
}

// Known answers of MD5, from appendix A.5 of RFC 1321: the digests of the empty message, of "abc", and of the
// letters and digits, whose padded message has two blocks.
module Md5Answers {
  import opened Bytes
  import opened Md5
  import opened Md5Steps

  // ---- The padded messages

  const ABC: seq<byte> := [0x61, 0x62, 0x63]

  // "ABC...Zabc...z0123456789"
  const LETTERS_AND_DIGITS: seq<byte> :=
    seq(62, i requires 0 <= i < 62 => if i < 26 then 0x41 + i else if i < 52 then 0x61 + i - 26 else 0x30 + i - 52)

  lemma NumberIs(w0: byte, w1: byte, w2: byte, w3: byte)
    ensures Number(w0, w1, w2, w3) == w0 + 0x100 * w1 + 0x1_0000 * w2 + 0x100_0000 * w3
  {
  }

  lemma WordIs(b: seq<byte>, k: nat, w0: byte, w1: byte, w2: byte, w3: byte, word: bv32)
    requires |b| == BLOCK && k < 16 && word as int == w0 + 0x100 * w1 + 0x1_0000 * w2 + 0x100_0000 * w3
    requires b[4 * k] == w0 && b[4 * k + 1] == w1 && b[4 * k + 2] == w2 && b[4 * k + 3] == w3
    ensures Word(b, k) == word
  {
    hide Number;
    NumberIs(w0, w1, w2, w3);
  }

  // A length below 2^16 bits.
  lemma LengthIs(n: nat)
    requires n < 0x1_0000
    ensures LittleEndian(n, 8) == [n % 256, n / 256] + Zeros(6)
  {
    assert LittleEndian(n, 8) == [n % 256] + ([n / 256] + LittleEndian(0, 6));
    assert LittleEndian(0, 3) == Zeros(3);
    assert LittleEndian(0, 6) == Zeros(6);
  }

  // The padding has but one length.
  lemma PadIs(msg: seq<byte>, padded: seq<byte>, zeros: nat)
    requires IsPadded(msg, padded) && zeros < BLOCK && Congruent(|msg|, zeros)
    ensures padded == PaddedWith(msg, zeros)
  {
    hide PaddedWith;
    var k: nat :| LeastCongruent(|msg|, k) && padded == PaddedWith(msg, k);
    assert k <= zeros;
    OnePad(|msg|, k, zeros);
  }

  lemma OnePad(length: nat, j: nat, k: nat)
    requires j < BLOCK && k < BLOCK && Congruent(length, j) && Congruent(length, k)
    ensures j == k
  {
  }

  lemma EmptyBlock()
    ensures Holds(PaddedWith([], 55), Empty)
  {
    hide Word, Number;
    LengthIs(0);
    var b := PaddedWith([], 55);
    assert b[0] == 0x80 && forall i :: 1 <= i < BLOCK ==> b[i] == 0;
    hide PaddedWith;
    WordIs(b, 0, 0x80, 0, 0, 0, 0x80);
    forall k | 1 <= k < 16 ensures Word(b, k) == 0 {
      WordIs(b, k, 0, 0, 0, 0, 0);
    }
  }

  lemma AbcBytes(b: seq<byte>)
    requires b == PaddedWith(ABC, 52)
    ensures |b| == BLOCK && b[0] == 0x61 && b[1] == 0x62 && b[2] == 0x63 && b[3] == 0x80 && b[56] == 24
    ensures forall i :: 4 <= i < BLOCK && i != 56 ==> b[i] == 0
  {
    LengthIs(24);
  }

  lemma AbcBlock()
    ensures Holds(PaddedWith(ABC, 52), Abc)
  {
    hide Word, PaddedWith;
    var b := PaddedWith(ABC, 52);
    AbcBytes(b);
    WordIs(b, 0, 0x61, 0x62, 0x63, 0x80, 0x80636261);
    WordIs(b, 14, 24, 0, 0, 0, 24);
    forall k | 1 <= k < 16 && k != 14 ensures Word(b, k) == 0 {
      WordIs(b, k, 0, 0, 0, 0, 0);
    }
  }

  // The bytes of the first block.
  lemma HeadBytes(b: seq<byte>)
    requires b == PaddedWith(LETTERS_AND_DIGITS, 57)[..BLOCK]
    ensures |b| == BLOCK && b[62] == 0x80 && b[63] == 0
    ensures forall i :: 0 <= i < 62 ==>
              b[i] == if i < 26 then 0x41 + i else if i < 52 then 0x61 + i - 26 else 0x30 + i - 52
  {
  }

  lemma HeadWords(b: seq<byte>)
    requires b == PaddedWith(LETTERS_AND_DIGITS, 57)[..BLOCK]
    ensures |b| == BLOCK
    ensures Word(b, 0) == 0x44434241 && Word(b, 1) == 0x48474645
    ensures Word(b, 2) == 0x4c4b4a49 && Word(b, 3) == 0x504f4e4d
    ensures Word(b, 4) == 0x54535251 && Word(b, 5) == 0x58575655
    ensures Word(b, 6) == 0x62615a59 && Word(b, 7) == 0x66656463
    ensures Word(b, 8) == 0x6a696867 && Word(b, 9) == 0x6e6d6c6b
    ensures Word(b, 10) == 0x7271706f && Word(b, 11) == 0x76757473
    ensures Word(b, 12) == 0x7a797877 && Word(b, 13) == 0x33323130
    ensures Word(b, 14) == 0x37363534 && Word(b, 15) == 0x00803938
  {
    hide Word, Number, PaddedWith;
    HeadBytes(b);
    WordIs(b, 0, 0x41, 0x42, 0x43, 0x44, 0x44434241);
    WordIs(b, 1, 0x45, 0x46, 0x47, 0x48, 0x48474645);
    WordIs(b, 2, 0x49, 0x4a, 0x4b, 0x4c, 0x4c4b4a49);
    WordIs(b, 3, 0x4d, 0x4e, 0x4f, 0x50, 0x504f4e4d);
    WordIs(b, 4, 0x51, 0x52, 0x53, 0x54, 0x54535251);
    WordIs(b, 5, 0x55, 0x56, 0x57, 0x58, 0x58575655);
    WordIs(b, 6, 0x59, 0x5a, 0x61, 0x62, 0x62615a59);
    WordIs(b, 7, 0x63, 0x64, 0x65, 0x66, 0x66656463);
    WordIs(b, 8, 0x67, 0x68, 0x69, 0x6a, 0x6a696867);
    WordIs(b, 9, 0x6b, 0x6c, 0x6d, 0x6e, 0x6e6d6c6b);
    WordIs(b, 10, 0x6f, 0x70, 0x71, 0x72, 0x7271706f);
    WordIs(b, 11, 0x73, 0x74, 0x75, 0x76, 0x76757473);
    WordIs(b, 12, 0x77, 0x78, 0x79, 0x7a, 0x7a797877);
    WordIs(b, 13, 0x30, 0x31, 0x32, 0x33, 0x33323130);
    WordIs(b, 14, 0x34, 0x35, 0x36, 0x37, 0x37363534);
    WordIs(b, 15, 0x38, 0x39, 0x80, 0x00, 0x00803938);
  }

  lemma HeadBlock()
    ensures Holds(PaddedWith(LETTERS_AND_DIGITS, 57)[..BLOCK], Head)
  {
    hide Word;
    HeadWords(PaddedWith(LETTERS_AND_DIGITS, 57)[..BLOCK]);
  }

  lemma TailBytes(b: seq<byte>)
    requires b == PaddedWith(LETTERS_AND_DIGITS, 57)[BLOCK..]
    ensures |b| == BLOCK && b[56] == 0xf0 && b[57] == 1
    ensures forall i :: 0 <= i < BLOCK && i != 56 && i != 57 ==> b[i] == 0
  {
    LengthIs(496);
  }

  lemma TailBlock()
    ensures Holds(PaddedWith(LETTERS_AND_DIGITS, 57)[BLOCK..], Tail)
  {
    hide Word, PaddedWith;
    var b := PaddedWith(LETTERS_AND_DIGITS, 57)[BLOCK..];
    TailBytes(b);
    WordIs(b, 14, 0xf0, 1, 0, 0, 496);
    forall k | 0 <= k < 16 && k != 14 ensures Word(b, k) == 0 {
      WordIs(b, k, 0, 0, 0, 0, 0);
    }
  }

  // ---- The answers

  lemma OneBlock(r: Registers, b: seq<byte>)
    requires |b| == BLOCK
    ensures Fold(r, b) == Compress(r, b)
  {
    hide Compress;
    assert b[..BLOCK] == b && b[BLOCK..] == [];
    FoldStep(r, b);
  }

  lemma BytesOf(a: int, b: int, c: int, d: int)
    requires 0 <= a < 256 && 0 <= b < 256 && 0 <= c < 256 && 0 <= d < 256
    ensures LittleEndian(a + 0x100 * b + 0x1_0000 * c + 0x100_0000 * d, 4) == [a, b, c, d]
  {
    var z: nat, y: nat := c + 0x100 * d, b + 0x100 * (c + 0x100 * d);
    var x: nat := a + 0x100 * y;
    assert x % 256 == a && x / 256 == y;
    assert y % 256 == b && y / 256 == z;
    assert z % 256 == c && z / 256 == d;
    assert LittleEndian(d, 1) == [d] && LittleEndian(z, 2) == [c] + LittleEndian(d, 1);
    assert LittleEndian(y, 3) == [b] + LittleEndian(z, 2);
    assert LittleEndian(x, 4) == [a] + LittleEndian(y, 3);
  }

  // Section 3.3: the initial registers, low-order bytes first.
  lemma InitialBytes()
    ensures Digest(INITIAL) == [0x01, 0x23, 0x45, 0x67, 0x89, 0xab, 0xcd, 0xef,
                                0xfe, 0xdc, 0xba, 0x98, 0x76, 0x54, 0x32, 0x10]
  {
    hide LittleEndian;
    BytesOf(0x01, 0x23, 0x45, 0x67);
    BytesOf(0x89, 0xab, 0xcd, 0xef);
    BytesOf(0xfe, 0xdc, 0xba, 0x98);
    BytesOf(0x76, 0x54, 0x32, 0x10);
  }

  lemma EmptyDigest()
    ensures Digest(Registers(0xd98c1dd4, 0x04b2008f, 0x980980e9, 0x7e42f8ec))
         == [0xd4, 0x1d, 0x8c, 0xd9, 0x8f, 0x00, 0xb2, 0x04,
             0xe9, 0x80, 0x09, 0x98, 0xec, 0xf8, 0x42, 0x7e]
  {
    hide LittleEndian;
    BytesOf(0xd4, 0x1d, 0x8c, 0xd9);
    BytesOf(0x8f, 0x00, 0xb2, 0x04);
    BytesOf(0xe9, 0x80, 0x09, 0x98);
    BytesOf(0xec, 0xf8, 0x42, 0x7e);
  }

  lemma AbcDigest()
    ensures Digest(Registers(0x98500190, 0xb04fd23c, 0x7d3f96d6, 0x727fe128))
         == [0x90, 0x01, 0x50, 0x98, 0x3c, 0xd2, 0x4f, 0xb0,
             0xd6, 0x96, 0x3f, 0x7d, 0x28, 0xe1, 0x7f, 0x72]
  {
    hide LittleEndian;
    BytesOf(0x90, 0x01, 0x50, 0x98);
    BytesOf(0x3c, 0xd2, 0x4f, 0xb0);
    BytesOf(0xd6, 0x96, 0x3f, 0x7d);
    BytesOf(0x28, 0xe1, 0x7f, 0x72);
  }

  lemma LettersAndDigitsDigest()
    ensures Digest(Registers(0x98ab74d1, 0xf5d977d2, 0x2c1c61a5, 0x9f9d419f))
         == [0xd1, 0x74, 0xab, 0x98, 0xd2, 0x77, 0xd9, 0xf5,
             0xa5, 0x61, 0x1c, 0x2c, 0x9f, 0x41, 0x9d, 0x9f]
  {
    hide LittleEndian;
    BytesOf(0xd1, 0x74, 0xab, 0x98);
    BytesOf(0xd2, 0x77, 0xd9, 0xf5);
    BytesOf(0xa5, 0x61, 0x1c, 0x2c);
    BytesOf(0x9f, 0x41, 0x9d, 0x9f);
  }

  // The digests that mongo_md5_finish gives.
  lemma KnownAnswers(padded: seq<byte>)
    ensures IsPadded([], padded) ==>
              Digest(Fold(INITIAL, padded)) == [0xd4, 0x1d, 0x8c, 0xd9, 0x8f, 0x00, 0xb2, 0x04,
                                                 0xe9, 0x80, 0x09, 0x98, 0xec, 0xf8, 0x42, 0x7e]
    ensures IsPadded(ABC, padded) ==>
              Digest(Fold(INITIAL, padded)) == [0x90, 0x01, 0x50, 0x98, 0x3c, 0xd2, 0x4f, 0xb0,
                                                 0xd6, 0x96, 0x3f, 0x7d, 0x28, 0xe1, 0x7f, 0x72]
    ensures IsPadded(LETTERS_AND_DIGITS, padded) ==>
              Digest(Fold(INITIAL, padded)) == [0xd1, 0x74, 0xab, 0x98, 0xd2, 0x77, 0xd9, 0xf5,
                                                 0xa5, 0x61, 0x1c, 0x2c, 0x9f, 0x41, 0x9d, 0x9f]
  {
    hide Fold, Compress, Digest, PaddedWith, IsPadded, Holds;
    if IsPadded([], padded) {
      PadIs([], padded, 55);
      EmptyBlock();
      EmptyDone(padded);
      OneBlock(INITIAL, padded);
      EmptyDigest();
    }
    if IsPadded(ABC, padded) {
      PadIs(ABC, padded, 52);
      AbcBlock();
      AbcDone(padded);
      OneBlock(INITIAL, padded);
      AbcDigest();
    }
    if IsPadded(LETTERS_AND_DIGITS, padded) {
      PadIs(LETTERS_AND_DIGITS, padded, 57);
      HeadBlock();
      TailBlock();
      HeadDone(padded[..BLOCK]);
      TailDone(padded[BLOCK..]);
      FoldStep(INITIAL, padded);
      OneBlock(MIDDLE, padded[BLOCK..]);
      LettersAndDigitsDigest();
    }
  }
}

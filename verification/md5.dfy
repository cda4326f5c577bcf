// MD5 fed in pieces: block buffering with the bit length kept in two 32-bit words, against RFC 1321.
module Md5 {
  import opened Bytes

  datatype Registers = Registers(a: bv32, b: bv32, c: bv32, d: bv32)

  const INITIAL: Registers := Registers(0x67452301, 0xefcdab89, 0x98badcfe, 0x10325476)

  const BLOCK: nat := 64
  const OPERATIONS: nat := 64

  // The constants T1 to T64, sixteen for each round.
  function T(i: nat): bv32
    requires i < OPERATIONS
  {
    if i < 16 then Constants1(i)
    else if i < 32 then Constants2(i - 16)
    else if i < 48 then Constants3(i - 32)
    else Constants4(i - 48)
  }

  function Constants1(k: nat): bv32
    requires k < 16
  {
    if k < 4 then
      if k == 0 then 0xd76aa478 else if k == 1 then 0xe8c7b756 else if k == 2 then 0x242070db else 0xc1bdceee
    else if k < 8 then
      if k == 4 then 0xf57c0faf else if k == 5 then 0x4787c62a else if k == 6 then 0xa8304613 else 0xfd469501
    else if k < 12 then
      if k == 8 then 0x698098d8 else if k == 9 then 0x8b44f7af else if k == 10 then 0xffff5bb1 else 0x895cd7be
    else
      if k == 12 then 0x6b901122 else if k == 13 then 0xfd987193 else if k == 14 then 0xa679438e else 0x49b40821
  }

  function Constants2(k: nat): bv32
    requires k < 16
  {
    if k < 4 then
      if k == 0 then 0xf61e2562 else if k == 1 then 0xc040b340 else if k == 2 then 0x265e5a51 else 0xe9b6c7aa
    else if k < 8 then
      if k == 4 then 0xd62f105d else if k == 5 then 0x02441453 else if k == 6 then 0xd8a1e681 else 0xe7d3fbc8
    else if k < 12 then
      if k == 8 then 0x21e1cde6 else if k == 9 then 0xc33707d6 else if k == 10 then 0xf4d50d87 else 0x455a14ed
    else
      if k == 12 then 0xa9e3e905 else if k == 13 then 0xfcefa3f8 else if k == 14 then 0x676f02d9 else 0x8d2a4c8a
  }

  function Constants3(k: nat): bv32
    requires k < 16
  {
    if k < 4 then
      if k == 0 then 0xfffa3942 else if k == 1 then 0x8771f681 else if k == 2 then 0x6d9d6122 else 0xfde5380c
    else if k < 8 then
      if k == 4 then 0xa4beea44 else if k == 5 then 0x4bdecfa9 else if k == 6 then 0xf6bb4b60 else 0xbebfbc70
    else if k < 12 then
      if k == 8 then 0x289b7ec6 else if k == 9 then 0xeaa127fa else if k == 10 then 0xd4ef3085 else 0x04881d05
    else
      if k == 12 then 0xd9d4d039 else if k == 13 then 0xe6db99e5 else if k == 14 then 0x1fa27cf8 else 0xc4ac5665
  }

  function Constants4(k: nat): bv32
    requires k < 16
  {
    if k < 4 then
      if k == 0 then 0xf4292244 else if k == 1 then 0x432aff97 else if k == 2 then 0xab9423a7 else 0xfc93a039
    else if k < 8 then
      if k == 4 then 0x655b59c3 else if k == 5 then 0x8f0ccc92 else if k == 6 then 0xffeff47d else 0x85845dd1
    else if k < 12 then
      if k == 8 then 0x6fa87e4f else if k == 9 then 0xfe2ce6e0 else if k == 10 then 0xa3014314 else 0x4e0811a1
    else
      if k == 12 then 0xf7537e82 else if k == 13 then 0xbd3af235 else if k == 14 then 0x2ad7d2bb else 0xeb86d391
  }

  // ---- The compression step, section 3.4 of RFC 1321

  function Mix(i: nat, x: bv32, y: bv32, z: bv32): bv32 {
    if i < 16 then (x & y) | (!x & z)
    else if i < 32 then (x & z) | (y & !z)
    else if i < 48 then x ^ y ^ z
    else y ^ (x | !z)
  }

  // The index of the word used by operation i.
  function WordIndex(i: nat): (k: nat)
    ensures k < 16
  {
    if i < 16 then i
    else if i < 32 then (5 * i + 1) % 16
    else if i < 48 then (3 * i + 5) % 16
    else 7 * i % 16
  }

  function Shift(i: nat): (s: bv32)
    ensures 0 < s < 32
  {
    var k := i % 4;
    if i < 16 then (if k == 0 then 7 else if k == 1 then 12 else if k == 2 then 17 else 22)
    else if i < 32 then (if k == 0 then 5 else if k == 1 then 9 else if k == 2 then 14 else 20)
    else if i < 48 then (if k == 0 then 4 else if k == 1 then 11 else if k == 2 then 16 else 23)
    else if k == 0 then 6 else if k == 1 then 10 else if k == 2 then 15 else 21
  }

  function RotateLeft(x: bv32, n: bv32): bv32
    requires 0 < n < 32
  {
    (x << n) | (x >> (32 - n))
  }

  function Number(w0: byte, w1: byte, w2: byte, w3: byte): (n: nat)
    ensures n < TWO_32
  {
    w0 + 0x100 * w1 + 0x1_0000 * w2 + 0x100_0000 * w3
  }

  // The little-endian word at position k of a block.
  function Word(block: seq<byte>, k: nat): bv32
    requires |block| == BLOCK && k < 16
  {
    Number(block[4 * k], block[4 * k + 1], block[4 * k + 2], block[4 * k + 3]) as bv32
  }

  function Sum(a: bv32, mixed: bv32, word: bv32, constant: bv32): bv32 {
    a + mixed + word + constant
  }

  function Plus(x: bv32, y: bv32): bv32 {
    x + y
  }

  // Operation i on the word it uses; it renames the registers for the next.
  function Operation(i: nat, s: Registers, word: bv32): Registers
    requires i < OPERATIONS
  {
    var t := Sum(s.a, Mix(i, s.b, s.c, s.d), word, T(i));
    Registers(s.d, Plus(RotateLeft(t, Shift(i)), s.b), s.b, s.c)
  }

  // The registers after the first n operations.
  function Operations(n: nat, r: Registers, block: seq<byte>): Registers
    requires n <= OPERATIONS && |block| == BLOCK
  {
    if n == 0 then r else Operation(n - 1, Operations(n - 1, r, block), Word(block, WordIndex(n - 1)))
  }

  // mongo_md5_process.
  function Compress(r: Registers, block: seq<byte>): Registers
    requires |block| == BLOCK
  {
    var s := Operations(OPERATIONS, r, block);
    Registers(r.a + s.a, r.b + s.b, r.c + s.c, r.d + s.d)
  }

  // ---- What a message means

  // The compression of all complete blocks of msg.
  function Fold(r: Registers, msg: seq<byte>): Registers
    decreases |msg|
  {
    if |msg| < BLOCK then r else Fold(Compress(r, msg[..BLOCK]), msg[BLOCK..])
  }

  // The bytes after the last complete block.
  function Pending(msg: seq<byte>): (s: seq<byte>)
    ensures |s| == |msg| % BLOCK
  {
    msg[|msg| - |msg| % BLOCK..]
  }

  function Zeros(n: nat): (s: seq<byte>)
    ensures |s| == n
  {
    seq(n, _ => 0)
  }

  // Sections 3.1 and 3.2 of RFC 1321: a 1 bit, the fewest zero bits that make the length 448 mod 512 bits,
  // then the length in bits as 64 bits, low-order word first.
  predicate Congruent(length: nat, zeros: nat) {
    (length + 1 + zeros) % BLOCK == 56
  }

  function PaddedWith(msg: seq<byte>, zeros: nat): (s: seq<byte>)
    ensures |s| == |msg| + 1 + zeros + 8
  {
    msg + [0x80] + Zeros(zeros) + LittleEndian(8 * |msg| % 0x1_0000_0000_0000_0000, 8)
  }

  predicate LeastCongruent(length: nat, zeros: nat) {
    Congruent(length, zeros) && forall j: nat :: j < zeros ==> !Congruent(length, j)
  }

  ghost predicate IsPadded(msg: seq<byte>, padded: seq<byte>) {
    exists k: nat :: LeastCongruent(|msg|, k) && padded == PaddedWith(msg, k)
  }

  // The digest bytes of the registers, low-order byte first.
  function WordBytes(w: bv32): seq<byte> {
    LittleEndian(w as int, 4)
  }

  function Digest(r: Registers): seq<byte> {
    WordBytes(r.a) + WordBytes(r.b) + WordBytes(r.c) + WordBytes(r.d)
  }

  lemma {:induction false} FoldConcat(r: Registers, a: seq<byte>, b: seq<byte>)
    requires |a| % BLOCK == 0
    ensures Fold(r, a + b) == Fold(Fold(r, a), b)
    decreases |a|
  {
    hide Compress;
    if a == [] {
      assert a + b == b;
    } else {
      assert (a + b)[..BLOCK] == a[..BLOCK] && (a + b)[BLOCK..] == a[BLOCK..] + b;
      FoldConcat(Compress(r, a[..BLOCK]), a[BLOCK..], b);
    }
  }

  // Feeding more data: the complete blocks of what is pending plus the data follow those of msg.
  lemma FoldMore(r: Registers, msg: seq<byte>, data: seq<byte>)
    ensures Fold(r, msg + data) == Fold(Fold(r, msg), Pending(msg) + data)
    ensures Pending(msg + data) == Pending(Pending(msg) + data)
  {
    hide Fold;
    var head := msg[..|msg| - |msg| % BLOCK];
    assert msg == head + Pending(msg);
    assert msg + data == head + (Pending(msg) + data);
    FoldConcat(r, head, Pending(msg) + data);
    FoldConcat(r, head, Pending(msg));
    FoldShort(Fold(r, head), Pending(msg));
    var rest := Pending(msg) + data;
    assert |msg + data| % BLOCK == |rest| % BLOCK;
  }

  lemma FoldShort(r: Registers, s: seq<byte>)
    requires |s| < BLOCK
    ensures Fold(r, s) == r
  {
  }

  // ---- The state

  // The message length in bits, mod 2^64, as the two count words.
  predicate Counts(count0: nat, count1: nat, length: nat) {
    && count0 < TWO_32 && count1 < TWO_32
    && count0 + TWO_32 * count1 == 8 * length % 0x1_0000_0000_0000_0000
  }

  // The offset into buf comes from the low word alone.
  lemma OffsetIsLength(count0: nat, count1: nat, length: nat)
    requires Counts(count0, count1, length)
    ensures (count0 / 8) % BLOCK == length % BLOCK
  {
    var q := 8 * length / 0x1_0000_0000_0000_0000;
    var k := 0x80_0000 * count1 + 0x80_0000_0000_0000 * q;
    assert 8 * length == count0 + 8 * (BLOCK * k);
    var r := length - BLOCK * k;
    assert count0 == 8 * r;
    ModShift(r, k);
  }

  lemma ModShift(r: nat, k: nat)
    ensures (r + BLOCK * k) % BLOCK == r % BLOCK
  {
  }

  // Two wrapping additions are one.
  lemma WrapTwice(n: nat, d: nat)
    ensures (n % TWO_32 + d) % TWO_32 == (n + d) % TWO_32
  {
  }

  // Adding nbytes: the low word with its carry, the bits above 2^32 to the high word, both wrapping.
  lemma CountsAdd(count0: nat, count1: nat, length: nat, nbytes: nat)
    requires Counts(count0, count1, length) && nbytes <= INT32_MAX
    ensures
      var nbits := 8 * nbytes % TWO_32;
      var low := (count0 + nbits) % TWO_32;
      var high := (count1 + nbytes / 0x2000_0000 + (if low < nbits then 1 else 0)) % TWO_32;
      Counts(low, high, length + nbytes)
  {
    var m := 0x1_0000_0000_0000_0000;
    var nbits := 8 * nbytes % TWO_32;
    assert 8 * nbytes == nbits + TWO_32 * (nbytes / 0x2000_0000);
    var sum := count0 + nbits;
    var carry := sum / TWO_32;
    var low := sum % TWO_32;
    assert carry == if low < nbits then 1 else 0;
    var top := count1 + nbytes / 0x2000_0000 + carry;
    var q := 8 * length / m;
    assert 8 * (length + nbytes) == m * q + low + TWO_32 * top;
    assert TWO_32 * top == TWO_32 * (top % TWO_32) + m * (top / TWO_32);
    var v := low + TWO_32 * (top % TWO_32);
    assert 8 * (length + nbytes) == v + m * (q + top / TWO_32) && 0 <= v < m;
    ModUnique(8 * (length + nbytes), v, q + top / TWO_32);
  }

  lemma ModUnique(n: nat, v: nat, q: nat)
    requires v < 0x1_0000_0000_0000_0000 && n == v + 0x1_0000_0000_0000_0000 * q
    ensures n % 0x1_0000_0000_0000_0000 == v
  {
  }

  class State {
    var count0: nat
    var count1: nat
    var abcd: Registers
    const buf: array<byte>
    // Everything appended so far.
    ghost var msg: seq<byte>

    ghost predicate Valid()
      reads this, buf
    {
      && buf.Length == BLOCK && Counts(count0, count1, |msg|)
      && abcd == Fold(INITIAL, msg) && buf[..|msg| % BLOCK] == Pending(msg)
    }

    // mongo_md5_init.
    constructor ()
      ensures Valid() && msg == [] && fresh(buf)
    {
      count0, count1, abcd, msg := 0, 0, INITIAL, [];
      buf := new byte[BLOCK](_ => 0);
    }

    // memcpy into buf.
    method Store(offset: nat, data: seq<byte>)
      requires offset + |data| <= buf.Length
      modifies buf
      ensures buf[..offset + |data|] == old(buf[..offset]) + data
    {
      forall i | 0 <= i < |data| {
        buf[offset + i] := data[i];
      }
    }

    // The message length, for nbytes more.
    method AddCount(nbytes: nat)
      requires nbytes <= INT32_MAX && Counts(count0, count1, |msg|)
      modifies this`count0, this`count1
      ensures Counts(count0, count1, |msg| + nbytes)
    {
      hide Counts;
      CountsAdd(count0, count1, |msg|, nbytes);
      WrapTwice(count1 + nbytes / 0x2000_0000, 1);
      var nbits := 8 * nbytes % TWO_32;
      count1 := (count1 + nbytes / 0x2000_0000) % TWO_32;
      count0 := (count0 + nbits) % TWO_32;
      if count0 < nbits {
        count1 := (count1 + 1) % TWO_32;
      }
    }

    // mongo_md5_append. The sum of offset and nbytes must not overflow an int.
    method Append(data: seq<byte>)
      requires Valid() && |msg| % BLOCK + |data| <= INT32_MAX
      modifies this, buf
      ensures Valid() && msg == old(msg) + data
    {
      hide Fold, Compress, Pending, Counts;
      var nbytes, p, left := |data|, 0, |data|;
      OffsetIsLength(count0, count1, |msg|);
      FoldMore(INITIAL, msg, data);
      ghost var whole := Pending(msg) + data;
      var offset := (count0 / 8) % 64;
      if nbytes == 0 {
        assert msg + data == msg;
        return;
      }
      AddCount(nbytes);
      msg := msg + data;
      if offset != 0 {
        var copy := if offset + nbytes > 64 then 64 - offset else nbytes;
        Store(offset, data[..copy]);
        assert buf[..offset + copy] == whole[..offset + copy];
        if offset + copy < 64 {
          ShortWhole(abcd, whole);
          return;
        }
        p, left := p + copy, left - copy;
        assert buf[..] == whole[..BLOCK] && whole[BLOCK..] == data[p..];
        FoldStep(abcd, whole);
        abcd := Compress(abcd, buf[..]);
      } else {
        assert whole == data[0..];
      }
      ProcessBlocks(data, p);
    }

    // mongo_md5_finish.
    method Finish() returns (digest: seq<byte>)
      requires Valid()
      modifies this, buf
      ensures IsPadded(old(msg), msg) && |msg| % BLOCK == 0
      ensures digest == Digest(Fold(INITIAL, msg))
    {
      hide Fold, Pending, Compress, Counts, Digest, IsPadded, LeastCongruent, LittleEndian;
      ghost var before := msg;
      var data := LittleEndian(count0, 4) + LittleEndian(count1, 4);
      SavedLength(count0, count1, |msg|);
      OffsetIsLength(count0, count1, |msg|);
      PadCount(count0, |msg|);
      var n := (55 - count0 / 8) % TWO_32 % 64 + 1;
      var pad := [0x80] + Zeros(63);
      assert pad[..n] == [0x80] + Zeros(n - 1);
      Append(pad[..n]);
      Append(data);
      assert msg == PaddedWith(before, n - 1);
      WholeBlocks(before, n - 1);
      digest := Digest(abcd);
    }

    static lemma WholeBlocks(msg: seq<byte>, k: nat)
      requires LeastCongruent(|msg|, k)
      ensures IsPadded(msg, PaddedWith(msg, k)) && |PaddedWith(msg, k)| % BLOCK == 0
    {
      hide PaddedWith, LeastCongruent;
      assert Congruent(|msg|, k) by { Least(|msg|, k); }
      EightMore(|msg| + 1 + k);
    }

    static lemma Least(length: nat, k: nat)
      requires LeastCongruent(length, k)
      ensures Congruent(length, k)
    {
    }

    static lemma EightMore(n: nat)
      requires n % BLOCK == 56
      ensures (n + 8) % BLOCK == 0
    {
    }

    static lemma SavedLength(count0: nat, count1: nat, length: nat)
      requires Counts(count0, count1, length)
      ensures LittleEndian(count0, 4) + LittleEndian(count1, 4) == LittleEndian(8 * length % 0x1_0000_0000_0000_0000, 8)
    {
      Pow256Four();
      LittleEndianSplit(count0, count1, 4, 4);
    }

    // Full blocks are compressed in place; the rest is kept.
    method ProcessBlocks(data: seq<byte>, start: nat)
      requires start <= |data| && buf.Length == BLOCK
      modifies this`abcd, buf
      ensures abcd == Fold(old(abcd), data[start..])
      ensures buf[..|Pending(data[start..])|] == Pending(data[start..])
    {
      hide Fold, Compress, Pending;
      var p, left := start, |data| - start;
      while left >= 64
        invariant left == |data| - p && start <= p <= |data|
        invariant Fold(abcd, data[p..]) == Fold(old(abcd), data[start..])
        invariant Pending(data[p..]) == Pending(data[start..])
      {
        assert data[p..][..BLOCK] == data[p..p + 64] && data[p..][BLOCK..] == data[p + 64..];
        FoldStep(abcd, data[p..]);
        abcd := Compress(abcd, data[p..p + 64]);
        p, left := p + 64, left - 64;
      }
      ShortWhole(abcd, data[p..]);
      if left != 0 {
        Store(0, data[p..]);
      }
      assert buf[..left] == data[p..];
    }
  }

  // Chunking does not matter: two states that were fed the same bytes are the same.
  lemma SameMessageSameState(s: State, t: State)
    requires s.Valid() && t.Valid() && s.msg == t.msg
    ensures s.count0 == t.count0 && s.count1 == t.count1 && s.abcd == t.abcd
    ensures s.buf[..|s.msg| % BLOCK] == t.buf[..|t.msg| % BLOCK]
  {
  }

  function Joined(chunks: seq<seq<byte>>): seq<byte> {
    if chunks == [] then [] else chunks[0] + Joined(chunks[1..])
  }

  // No chunk overflows the sum of offset and byte count.
  predicate IntsSuffice(length: nat, chunks: seq<seq<byte>>)
    decreases chunks
  {
    chunks == [] ||
    (length % BLOCK + |chunks[0]| <= INT32_MAX && IntsSuffice(length + |chunks[0]|, chunks[1..]))
  }

  method AppendAll(s: State, chunks: seq<seq<byte>>)
    requires s.Valid() && IntsSuffice(|s.msg|, chunks)
    modifies s, s.buf
    ensures s.Valid() && s.msg == old(s.msg) + Joined(chunks)
  {
    hide Fold, Compress, Pending, Counts;
    var i := 0;
    assert chunks[0..] == chunks;
    while i < |chunks|
      invariant 0 <= i <= |chunks| && s.Valid()
      invariant IntsSuffice(|s.msg|, chunks[i..])
      invariant s.msg + Joined(chunks[i..]) == old(s.msg) + Joined(chunks)
    {
      assert chunks[i..][1..] == chunks[i + 1..];
      ghost var before, after := s.msg, Joined(chunks[i + 1..]);
      s.Append(chunks[i]);
      assert before + (chunks[i] + after) == before + chunks[i] + after;
      i := i + 1;
    }
    assert s.msg + [] == s.msg;
  }

  lemma {:induction false} LittleEndianSplit(low: nat, high: nat, j: nat, k: nat)
    requires low < Pow256(j)
    ensures LittleEndian(low + Pow256(j) * high, j + k) == LittleEndian(low, j) + LittleEndian(high, k)
  {
    if j > 0 {
      var q := Pow256(j - 1) * high;
      assert Pow256(j) * high == 256 * q;
      var n := low + 256 * q;
      assert n % 256 == low % 256 && n / 256 == low / 256 + q;
      LittleEndianSplit(low / 256, high, j - 1, k);
    }
  }

  // The byte count that mongo_md5_finish pads with, computed in 32-bit unsigned arithmetic.
  lemma PadCount(count0: nat, length: nat)
    requires (count0 / 8) % BLOCK == length % BLOCK
    ensures var n := (55 - count0 / 8) % TWO_32 % BLOCK + 1;
            1 <= n <= BLOCK && LeastCongruent(length, n - 1)
  {
    var r := length % BLOCK;
    var x := count0 / 8;
    Wrapped(55 - x);
    Shifted(55 - r, -(x / BLOCK));
    assert 55 - x == 55 - r + BLOCK * -(x / BLOCK);
    forall k: nat | k < BLOCK ensures Congruent(length, k) <==> k == PadFor(r) {
      Shifted(r + 1 + k, length / BLOCK);
      assert length + 1 + k == r + 1 + k + BLOCK * (length / BLOCK);
      SmallPad(r, k);
    }
  }

  function PadFor(r: nat): nat
    requires r < BLOCK
  {
    (55 - r) % BLOCK
  }

  lemma SmallPad(r: nat, k: nat)
    requires r < BLOCK && k < BLOCK
    ensures (r + 1 + k) % BLOCK == 56 <==> k == PadFor(r)
  {
  }

  lemma Shifted(n: int, k: int)
    ensures (n + BLOCK * k) % BLOCK == n % BLOCK
  {
  }

  // 2^32 is a multiple of the block length.
  lemma Wrapped(n: int)
    ensures n % TWO_32 % BLOCK == n % BLOCK
  {
    var w := n % TWO_32;
    assert n == w + BLOCK * (0x400_0000 * (n / TWO_32));
    Shifted(w, 0x400_0000 * (n / TWO_32));
  }

  lemma ShortWhole(r: Registers, s: seq<byte>)
    requires |s| < BLOCK
    ensures Fold(r, s) == r && Pending(s) == s
  {
  }

  lemma FoldStep(r: Registers, s: seq<byte>)
    requires |s| >= BLOCK
    ensures Fold(r, s) == Fold(Compress(r, s[..BLOCK]), s[BLOCK..])
    ensures Pending(s) == Pending(s[BLOCK..])
  {
    hide Compress;
  }
}

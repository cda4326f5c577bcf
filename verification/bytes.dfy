// Bytes, C strings and the fixed-width integer codecs shared by the BSON, MD5 and framing code.
// Integers are stored by a little-endian host; the swap macros reverse the stored bytes.
module Bytes {
  type byte = b: int | 0 <= b < 256

  // A C string without its terminator: strlen stops at the first NUL.
  type CString = s: seq<byte> | 0 !in s witness []

  const INT32_MAX: int := 0x7fff_ffff
  const TWO_32: int := 0x1_0000_0000
  type int32 = i: int | -0x8000_0000 <= i <= 0x7fff_ffff

  // The k low-order bytes of n, least significant first: how the host stores a k-byte unsigned integer.
  function LittleEndian(n: nat, k: nat): (s: seq<byte>)
    ensures |s| == k
  {
    if k == 0 then [] else [n % 256] + LittleEndian(n / 256, k - 1)
  }

  function FromLittleEndian(s: seq<byte>): (n: nat) {
    if s == [] then 0 else s[0] + 256 * FromLittleEndian(s[1..])
  }

  function Pow256(k: nat): (p: nat)
    ensures p > 0
  {
    if k == 0 then 1 else 256 * Pow256(k - 1)
  }

  lemma Pow256Four()
    ensures Pow256(4) == TWO_32
  {
    assert Pow256(2) == 0x1_0000;
  }

  lemma {:induction false} LittleEndianRoundTrip(n: nat, k: nat)
    requires n < Pow256(k)
    ensures FromLittleEndian(LittleEndian(n, k)) == n
  {
    if k > 0 {
      assert n / 256 < Pow256(k - 1);
      LittleEndianRoundTrip(n / 256, k - 1);
      assert LittleEndian(n, k)[1..] == LittleEndian(n / 256, k - 1);
    }
  }

  function Reverse<T>(s: seq<T>): (r: seq<T>)
    ensures |r| == |s|
    ensures forall i :: 0 <= i < |s| ==> r[i] == s[|s| - 1 - i]
  {
    if s == [] then [] else Reverse(s[1..]) + [s[0]]
  }

  lemma ReverseTwice<T>(s: seq<T>)
    ensures Reverse(Reverse(s)) == s
  {
  }

  // Two's complement: the unsigned image of a 32-bit int and back.
  function Unsigned32(i: int32): (n: nat)
    ensures n < TWO_32
  {
    if i < 0 then i + TWO_32 else i
  }

  function Signed32(n: nat): int32
    requires n < TWO_32
  {
    if n > INT32_MAX then n - TWO_32 else n
  }

  // bson_append32_as_int of a length or a 32-bit int cast from a wider one: the host bytes of the
  // low 32 bits, byte-swapped by the macro.
  function EncLen(n: nat): (s: seq<byte>)
    ensures |s| == 4
  {
    Reverse(LittleEndian(n % TWO_32, 4))
  }

  function Enc32(i: int32): (s: seq<byte>) {
    EncLen(Unsigned32(i))
  }

  // bson_iterator_int_raw: swap four bytes back and read them as a host int.
  function Dec32(s: seq<byte>): int32
    requires |s| == 4
  {
    Signed32(FromLittleEndian(Reverse(s)) % TWO_32)
  }

  lemma EncLenRoundTrip(n: nat)
    ensures Dec32(EncLen(n)) == Signed32(n % TWO_32)
  {
    ReverseTwice(LittleEndian(n % TWO_32, 4));
    Pow256Four();
    LittleEndianRoundTrip(n % TWO_32, 4);
  }

  lemma Enc32RoundTrip(i: int32)
    ensures Dec32(Enc32(i)) == i
  {
    EncLenRoundTrip(Unsigned32(i));
  }

  // ---- Reading a buffer at a position.

  predicate At(buf: seq<byte>, p: nat, s: seq<byte>) {
    p + |s| <= |buf| && buf[p..p + |s|] == s
  }

  lemma AtSplit(buf: seq<byte>, p: nat, a: seq<byte>, b: seq<byte>)
    ensures At(buf, p, a + b) <==> At(buf, p, a) && At(buf, p + |a|, b)
  {
    if p + |a| + |b| <= |buf| {
      var w := buf[p..p + |a| + |b|];
      assert w[..|a|] == buf[p..p + |a|] && w[|a|..] == buf[p + |a|..p + |a| + |b|];
      assert (a + b)[..|a|] == a && (a + b)[|a|..] == b;
    }
  }

  // The length that strlen computes for the bytes starting at p.
  function StrLen(buf: seq<byte>, p: nat): (n: nat)
    requires p <= |buf|
    ensures p + n <= |buf| && 0 !in buf[p..p + n]
    ensures p + n < |buf| ==> buf[p + n] == 0
    decreases |buf| - p
  {
    if p == |buf| || buf[p] == 0 then 0
    else
      var n := 1 + StrLen(buf, p + 1);
      assert buf[p..p + n] == [buf[p]] + buf[p + 1..p + n];
      n
  }

  lemma StrLenIs(buf: seq<byte>, p: nat, s: CString)
    requires At(buf, p, s + [0])
    ensures StrLen(buf, p) == |s|
  {
    AtSplit(buf, p, s, [0]);
    assert buf[p + |s|..p + |s| + 1][0] == 0;
    var n := StrLen(buf, p);
    forall i | 0 <= i < |s| ensures buf[p + i] == s[i] {
      assert buf[p..p + |s|][i] == s[i];
    }
    forall i | p <= i < p + n ensures buf[i] != 0 {
      assert buf[p..p + n][i - p] != 0;
    }
  }
}

// A frame bit for bit: its header in plain numbers and its payload under the key, without the functions that compute
// them.
module FrameBits {
  import opened Bytes
  import opened Frames

  // Bit k of a number: its parity after k halvings.
  predicate Bit(n: nat, k: nat) {
    if k == 0 then n % 2 == 1 else Bit(n / 2, k - 1)
  }

  // Byte i of the key for a version and a size: "xxmp" as a number, reduced, times the size, low byte first.
  function KeyByte(version: nat, size: nat, i: nat): byte
    requires version > 0
  {
    var n := 0x706D_7878 % version * size % 0x1_0000_0000;
    n / [1, 0x100, 0x1_0000, 0x100_0000][i % 4] % 256
  }

  // Every bit of out differs from that of data exactly where the bit of the key is set.
  predicate Masked(out: seq<byte>, data: seq<byte>, version: nat, size: nat)
    requires version > 0
  {
    && |out| == |data|
    && forall i, k :: 0 <= i < |data| && 0 <= k < 8 ==>
         (Bit(out[i], k) <==> (Bit(data[i], k) != Bit(KeyByte(version, size, i), k)))
  }

  // ---- Bits of an exclusive or

  lemma {:induction false} XorHasBit(a: nat, b: nat, n: nat, k: nat)
    requires k < n
    ensures Bit(XorBits(a, b, n), k) <==> Bit(a, k) != Bit(b, k)
  {
    var c := XorBits(a, b, n);
    assert c / 2 == XorBits(a / 2, b / 2, n - 1) && (c % 2 == 1 <==> a % 2 != b % 2);
    if k > 0 {
      XorHasBit(a / 2, b / 2, n - 1, k - 1);
    }
  }

  // Numbers of n bits that agree in all of them are equal.
  lemma {:induction false} SameBits(a: nat, b: nat, n: nat)
    requires a < Pow2(n) && b < Pow2(n) && forall k :: 0 <= k < n ==> (Bit(a, k) <==> Bit(b, k))
    ensures a == b
  {
    if n > 0 {
      assert Bit(a, 0) <==> Bit(b, 0);
      forall k | 0 <= k < n - 1 ensures Bit(a / 2, k) <==> Bit(b / 2, k) {
        assert Bit(a, k + 1) <==> Bit(b, k + 1);
      }
      SameBits(a / 2, b / 2, n - 1);
    }
  }

  // The bits of the key and the data determine what is sent.
  lemma OnlyOne(a: seq<byte>, b: seq<byte>, data: seq<byte>, version: nat, size: nat)
    requires version > 0 && Masked(a, data, version, size) && Masked(b, data, version, size)
    ensures a == b
  {
    hide Bit, KeyByte;
    PowEight();
    forall i | 0 <= i < |data| ensures a[i] == b[i] {
      SameBits(a[i], b[i], 8);
    }
  }

  lemma XorHasByteBits(a: byte, b: byte, k: nat)
    requires k < 8
    ensures Bit(Xor(a, b), k) <==> Bit(a, k) != Bit(b, k)
  {
    XorHasBit(a, b, 8, k);
  }

  // ---- The key

  lemma KeyNumber()
    ensures FromLittleEndian(VERIFY_KEY) == 0x706D_7878
  {
    assert VERIFY_KEY[1..] == [0x78, 0x6D, 0x70] && [0x78, 0x6D, 0x70][1..] == [0x6D, 0x70];
    assert [0x6D, 0x70][1..] == [0x70] && [0x70][1..] == [];
    assert FromLittleEndian([0x70]) == 0x70 && FromLittleEndian([0x6D, 0x70]) == 0x706D;
  }

  lemma FourBytes(m: nat)
    ensures LittleEndian(m, 4) == [m % 256, m / 0x100 % 256, m / 0x1_0000 % 256, m / 0x100_0000 % 256]
  {
    var a := m / 0x100;
    var b := a / 0x100;
    var c := b / 0x100;
    assert b == m / 0x1_0000 && c == m / 0x100_0000;
    assert LittleEndian(c, 1) == [c % 256] + LittleEndian(c / 256, 0);
    assert LittleEndian(b, 2) == [b % 256] + LittleEndian(c, 1);
    assert LittleEndian(a, 3) == [a % 256] + LittleEndian(b, 2);
    assert LittleEndian(m, 4) == [m % 256] + LittleEndian(a, 3);
  }

  lemma KeyIs(version: nat, size: nat, i: nat)
    requires version > 0
    ensures MaskKey(version, size)[i % 4] == KeyByte(version, size, i)
  {
    KeyNumber();
    hide LittleEndian, FromLittleEndian;
    FourBytes(0x706D_7878 % version * size % 0x1_0000_0000);
  }

  lemma MaskIsMasked(version: nat, data: seq<byte>)
    requires version > 0
    ensures Masked(Mask(MaskKey(version, |data|), data), data, version, |data|)
  {
    var key, out := MaskKey(version, |data|), Mask(MaskKey(version, |data|), data);
    hide Xor, Bit, KeyByte, MaskKey;
    forall i, k | 0 <= i < |data| && 0 <= k < 8
      ensures Bit(out[i], k) <==> (Bit(data[i], k) != Bit(KeyByte(version, |data|, i), k))
    {
      KeyIs(version, |data|, i);
      XorHasByteBits(data[i], key[i % 4], k);
    }
  }

  // ---- Frames

  // "xxmp", the version 1256, the size, high bytes first, and the masked body.
  lemma FrameBytes(body: seq<byte>)
    requires |body| < 0x1_0000_0000
    ensures Frame(body)[..10] == [
              0x78, 0x78, 0x6D, 0x70, 0x04, 0xE8,
              |body| / 0x100_0000, |body| / 0x1_0000 % 256, |body| / 0x100 % 256, |body| % 256]
    ensures Masked(Frame(body)[10..], body, 1256, |body|)
  {
    hide Mask, MaskKey, Masked, LittleEndian;
    var n := |body|;
    FourBytes(n);
    HighByte(n);
    assert LittleEndian(DEFAULT_VERSION, 2) == [0xE8, 0x04] by { VersionBytes(); }
    assert Frame(body)[10..] == Mask(MaskKey(DEFAULT_VERSION, n), body);
    MaskIsMasked(DEFAULT_VERSION, body);
  }

  lemma HighByte(n: nat)
    requires n < 0x1_0000_0000
    ensures n / 0x100_0000 % 256 == n / 0x100_0000
  {
  }

  lemma VersionBytes()
    ensures LittleEndian(DEFAULT_VERSION, 2) == [0xE8, 0x04]
  {
    assert LittleEndian(4, 1) == [4];
  }

  // The payload "A": the key of size 1 is 50 02 00 00.
  lemma FrameInFull()
    ensures Frame([0x41]) == [0x78, 0x78, 0x6D, 0x70, 0x04, 0xE8, 0, 0, 0, 1, 0x11]
  {
    hide Frame, Bit, KeyByte;
    FrameBytes([0x41]);
    var f := Frame([0x41]);
    assert Masked([0x11], [0x41], 1256, 1) by { OneByte(); }
    OnlyOne(f[10..], [0x11], [0x41], 1256, 1);
    assert f == f[..10] + f[10..];
  }

  lemma OneByte()
    ensures forall k :: 0 <= k < 8 ==> (Bit(0x11, k) <==> (Bit(0x41, k) != Bit(KeyByte(1256, 1, 0), k)))
  {
    assert KeyByte(1256, 1, 0) == 0x50;
    forall k | 0 <= k < 8 ensures Bit(0x11, k) <==> (Bit(0x41, k) != Bit(0x50, k)) {
      assert Bit(0x11, 0) && Bit(0x11, 4) && Bit(0x41, 0) && Bit(0x41, 6) && Bit(0x50, 4) && Bit(0x50, 6);
      assert !Bit(0x11, 1) && !Bit(0x11, 2) && !Bit(0x11, 3) && !Bit(0x11, 5) && !Bit(0x11, 6) && !Bit(0x11, 7);
      assert !Bit(0x41, 1) && !Bit(0x41, 2) && !Bit(0x41, 3) && !Bit(0x41, 4) && !Bit(0x41, 5) && !Bit(0x41, 7);
      assert !Bit(0x50, 0) && !Bit(0x50, 1) && !Bit(0x50, 2) && !Bit(0x50, 3) && !Bit(0x50, 5) && !Bit(0x50, 7);
    }
  }

  // ---- Parsing

  // A number of two bytes, high byte first.
  function TwoBytes(high: nat, low: nat): nat {
    256 * high + low
  }

  // What a window yields, in plain numbers.
  lemma ParsedBytes(w: seq<byte>)
    ensures var (outcome, rest) := Parse(w);
            if |w| < 10 then outcome == Wait && rest == w
            else if w[..4] != [0x78, 0x78, 0x6D, 0x70] then outcome == InvalidSync && rest == w
            else
              var version := TwoBytes(w[4], w[5]);
              var size := TwoBytes(w[6], w[7]) * 0x1_0000 + TwoBytes(w[8], w[9]);
              if |w| < 10 + size then outcome == Wait && rest == w
              else if version == 0 then outcome == DivisionFault && rest == w[10..]
              else outcome.Body? && Masked(outcome.body, w[10..10 + size], version, size) && rest == w[10 + size..]
  {
    hide Mask, MaskKey, Masked, FromBigEndian;
    if |w| >= 10 {
      assert VERIFY_KEY == [0x78, 0x78, 0x6D, 0x70];
      TwoDigits(w[4], w[5]);
      FourDigits(w[6], w[7], w[8], w[9]);
      assert w[4..6] == [w[4], w[5]] && w[6..10] == [w[6], w[7], w[8], w[9]];
      var version, size := FromBigEndian(w[4..6]), FromBigEndian(w[6..10]);
      if |w| >= 10 + size && version > 0 {
        MaskIsMasked(version, w[10..10 + size]);
      }
    }
  }

  lemma TwoDigits(a: byte, b: byte)
    ensures FromBigEndian([a, b]) == TwoBytes(a, b)
  {
    assert Reverse([a, b]) == [b, a] && [b, a][1..] == [a] && [a][1..] == [];
    assert FromLittleEndian([a]) == a;
  }

  lemma FourDigits(a: byte, b: byte, c: byte, d: byte)
    ensures FromBigEndian([a, b, c, d]) == TwoBytes(a, b) * 0x1_0000 + TwoBytes(c, d)
  {
    assert Reverse([a, b, c, d]) == [d, c, b, a];
    var none: seq<byte> := [];
    OneMoreDigit(a, none);
    OneMoreDigit(b, [a]);
    OneMoreDigit(c, [b, a]);
    OneMoreDigit(d, [c, b, a]);
    assert [a] + none == [a] && [b] + [a] == [b, a] && [c] + [b, a] == [c, b, a] && [d] + [c, b, a] == [d, c, b, a];
  }

  lemma OneMoreDigit(x: byte, s: seq<byte>)
    ensures FromLittleEndian([x] + s) == TwoBytes(FromLittleEndian(s), x)
  {
    assert ([x] + s)[1..] == s;
  }
}

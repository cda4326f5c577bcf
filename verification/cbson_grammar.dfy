// What a tree is in bytes: what save writes for each kind of value and what parse makes of each type byte.
module CBsonGrammar {
  import opened Bytes
  import F = BsonFormat
  import opened BsonSpec
  import opened Utf8
  import opened BsonTrees
  import opened BsonGrammar
  import opened CBson

  // ---- Saving

  // The bytes that save writes for a value: none for a 64-bit integer and for an unknown type.
  lemma SavedElement(key: CString, o: Tree)
    ensures var b := F.Body(ToElems(key, o));
            if o.Long? || o.Other? then b == []
            else
              |b| >= 2 + |key| &&
              var p := b[2 + |key|..];
              match o
              case Double(bits) => Starts(b, 1, key) && IsSwapped(p, bits)
              case Str(s) => Starts(b, 2, key) && IsString(p, s)
              case Obj(fields) => Starts(b, 3, key) && IsDocument(p, FieldElems(fields))
              case List(items) => Starts(b, 4, key) && IsDocument(p, ItemElems(items))
              case Bin(data) => Starts(b, 5, key) && IsBinary(p, 0, data)
              case Bool(value) => Starts(b, 8, key) && p == (if value then [1] else [0])
              case Date(bits) => Starts(b, 9, key) && IsSwapped(p, bits)
              case Null => Starts(b, 10, key) && p == []
              case Int(i) => Starts(b, 16, key) && p == BigEndian32(TwosComplement(i))
              case Long(_) => true
              case Other(_) => true
  {
    hide F.EncElem, Starts, IsString, IsBinary, IsSwapped, IsDocument, BigEndian32, FieldElems, ItemElems;
    if !o.Long? && !o.Other? {
      var e := ToElems(key, o)[0];
      assert ToElems(key, o)[1..] == [];
      assert F.Body(ToElems(key, o)) == F.EncElem(e);
      ElementIs(F.EncElem(e), key, e.value);
    }
  }

  // The elements of a list have no names.
  lemma {:induction false} ItemsAreUnnamed(items: seq<Tree>)
    ensures forall e :: e in ItemElems(items) ==> e.name == []
  {
    if items != [] {
      ItemsAreUnnamed(items[1..]);
    }
  }

  // The maps {"x": 1.5} and {"x": the date of the same eight bytes} in full.
  lemma SavedInFull()
    ensures var r := Finish(Run(InitialState(128), Calls(FieldElems([Field(X, Double(ONE_AND_A_HALF))]))));
            r.1 && r.0.doc == [0, 0, 0, 16, 1, 0x78, 0, 0x3F, 0xF8, 0, 0, 0, 0, 0, 0, 0]
    ensures var r := Finish(Run(InitialState(128), Calls(FieldElems([Field(X, Date(ONE_AND_A_HALF))]))));
            r.1 && r.0.doc == [0, 0, 0, 16, 9, 0x78, 0, 0x3F, 0xF8, 0, 0, 0, 0, 0, 0, 0]
  {
    hide Finish, Run, Calls, FieldElems, F.EncDoc;
    DoubleInFull();
    OneFieldSaved(Double(ONE_AND_A_HALF), F.Double(ONE_AND_A_HALF));
    OneFieldSaved(Date(ONE_AND_A_HALF), F.Date(ONE_AND_A_HALF));
  }

  lemma OneFieldSaved(o: Tree, v: F.Value)
    requires ToElems(X, o) == [F.Elem(X, v)] && (v.Double? || v.Date?)
    ensures var r := Finish(Run(InitialState(128), Calls(FieldElems([Field(X, o)]))));
            r.1 && r.0.doc == F.EncDoc([F.Elem(X, v)])
  {
    hide Finish, Run, Calls, ToElems, Accepts;
    var fields, e := [Field(X, o)], F.Elem(X, v);
    assert fields[1..] == [] && FieldElems([]) == [];
    assert FieldElems(fields) == [e];
    assert [e][1..] == [] && F.Body([]) == [] && F.Body([e]) == F.EncElem(e);
    F.ElemSize(e);
    assert Accepts(X) by { AcceptsX(); }
    assert Clean([e][1..]) && Largest([e][1..]) == 1 && LargestFor(e) == |F.EncElem(e)| == 11;
    assert Clean([e]) && Largest([e]) == 11;
    FittingDocumentIsWritten(128, [e]);
  }

  lemma AcceptsX()
    ensures Accepts(X)
  {
  }

  // ---- Parsing

  // What parse may make of a value with type byte t and payload p.
  ghost predicate ByCode(t: byte, p: seq<byte>, o: Tree) {
    match t
    case 1 => o.Double? && IsSwapped(p, o.bits)
    case 2 => o.Str? && |p| >= 5 + |o.s| && o.s == p[4..4 + |o.s|] && p[4 + |o.s|] == 0
    case 3 => o.Obj? && exists es :: IsDocument(p, es) && o.fields == FromElems([], es)
    case 4 => o.List? && exists es :: IsDocument(p, es) && o.items == FromItems(es)
    case 5 => o.Bin? && |p| >= 5 && IsBinary(p, p[4], o.data)
    case 8 => o.Bool? && p == (if o.b then [1] else [0])
    case 9 => o.Date? && IsSwapped(p, o.bits)
    case 10 => o.Null? && p == []
    case 16 => o.Int? && p == BigEndian32(TwosComplement(o.i))
    case 18 => o.Long? && |p| == 8 && p[4..] == BigEndian32(TwosComplement(o.i))
    case _ => o == Other(t)
  }

  lemma {:induction false} ParsedElement(e: F.Elem)
    ensures var b := F.EncElem(e); |b| >= 2 + |e.name| && ByCode(b[0], b[2 + |e.name|..], FromValue(e.value))
  {
    hide F.EncElem, IsString, IsBinary, IsSwapped, IsDocument, BigEndian32, FromElems, FromItems, TwosComplement;
    var b := F.EncElem(e);
    ElementIs(b, e.name, e.value);
    var p, o := b[2 + |e.name|..], FromValue(e.value);
    match e.value
    case Str(s) => FirstNul(p, s);
    case Document(es) => assert IsDocument(p, es) && o.fields == FromElems([], es);
    case Array(es) => assert IsDocument(p, es) && o.items == FromItems(es);
    case Binary(subtype, data) => SubtypeAt(p, subtype, data);
    case Long(bits) => LowWord(p, bits);
    case _ => UnknownCode(b, e.name, e.value);
  }

  lemma UnknownCode(b: seq<byte>, name: CString, v: F.Value)
    requires IsElement(b, name, v)
    ensures v.Undefined? || v.Oid? || v.Regex? || v.Code? || v.Symbol? || v.CodeWScope? || v.Timestamp? ==>
              FromValue(v) == Other(b[0]) && b[0] in {6, 7, 11, 13, 14, 15, 17}
  {
  }

  lemma FirstNul(p: seq<byte>, s: seq<byte>)
    requires IsString(p, s)
    ensures var c := UntilNul(s); |p| >= 5 + |c| && c == p[4..4 + |c|] && p[4 + |c|] == 0
  {
    var c := UntilNul(s);
    assert p[4..] == s + [0];
    assert p[4..][..|c|] == c;
  }

  lemma SubtypeAt(p: seq<byte>, subtype: byte, data: seq<byte>)
    requires IsBinary(p, subtype, data)
    ensures |p| >= 5 && p[4] == subtype
  {
  }

  lemma LowWord(p: seq<byte>, bits: F.Bits64)
    requires IsSwapped(p, bits)
    ensures |p| == 8 && p[4..] == BigEndian32(TwosComplement(Signed32(FromLittleEndian(bits[..4]) % TWO_32)))
  {
    var w := bits[..4];
    hide BigEndian32, Number, FromLittleEndian;
    FourDigits(w);
    var n := Number(w[0], w[1], w[2], w[3]);
    Digits(w[0], w[1], w[2], w[3]);
    SignedTwice(n);
    assert p[4..] == [bits[3], bits[2], bits[1], bits[0]];
  }

  lemma SignedTwice(n: nat)
    requires n < TWO_32
    ensures n % TWO_32 == n && TwosComplement(Signed32(n)) == n
  {
  }

  lemma FourDigits(w: seq<byte>)
    requires |w| == 4
    ensures FromLittleEndian(w) == Number(w[0], w[1], w[2], w[3])
  {
    assert w[1..][1..] == w[2..] && w[2..][1..] == w[3..] && w[3..][1..] == [];
    assert FromLittleEndian(w[3..]) == w[3];
    assert FromLittleEndian(w[2..]) == w[2] + 256 * FromLittleEndian(w[3..]);
    assert FromLittleEndian(w[1..]) == w[1] + 256 * FromLittleEndian(w[2..]);
  }

  function Number(a: int, b: int, c: int, d: int): int {
    a + 256 * (b + 256 * (c + 256 * d))
  }

  lemma Digits(a: byte, b: byte, c: byte, d: byte)
    ensures var n := Number(a, b, c, d); 0 <= n < TWO_32 && BigEndian32(n) == [d, c, b, a]
  {
    var n: nat, x: nat, y: nat := Number(a, b, c, d), Number(b, c, d, 0), Number(c, d, 0, 0);
    Digit(n, a, x);
    Digit(x, b, y);
    Digit(y, c, d);
    Divided(n);
  }

  lemma Digit(n: nat, low: byte, high: nat)
    requires n == low + 256 * high
    ensures n % 256 == low && n / 256 == high
  {
  }
}

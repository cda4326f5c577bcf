// What the type specifiers mean, in bytes: the document that bson_from_bcon returns for a list of one key.
module BconLiteral {
  import opened Bytes
  import opened Utf8
  import opened Wrappers
  import F = BsonFormat
  import opened BsonTrees
  import opened BsonRoom
  import G = BsonGrammar
  import opened BconSpec
  import opened BconGrammar
  import opened BconConverse
  import opened BconOutcome

  const COLON_BYTE: byte := 0x3A
  const DOT_BYTE: byte := 0x2E

  // A document of one element: its size, the element and a zero byte.
  function OneElement(code: byte, key: CString, payload: seq<byte>): seq<byte> {
    G.BigEndian32(4 + (2 + |key| + |payload|) + 1) + ([code] + key + [0] + payload) + [0]
  }

  // key, ":pu:", entry, "."
  function OneEntry(key: CString, p: byte, u: byte, entry: Bcon): seq<Bcon>
    requires p != 0 && u != 0
  {
    [S(key), S([COLON_BYTE, p, u, COLON_BYTE]), entry, S([DOT_BYTE])]
  }

  ghost predicate Yields(cap: nat, list: seq<Bcon>, bytes: seq<byte>) {
    Compile(list, Element).Some? && Returned(cap, list) == Some(bytes)
  }

  // A key that does not end the document, and is UTF-8.
  predicate GoodKey(key: CString) {
    key != [0x7D] && key != [DOT_BYTE] && Accepts(key)
  }

  // Room for the document and the one request of its element.
  predicate Room(cap: nat, key: CString, n: nat) {
    cap <= INT32_MAX && (7 + |key| + n) + (2 + |key| + n) <= INT32_MAX
  }

  // How a value stands behind "_", "R" and "P": itself, a pointer to it, and a pointer to a pointer to it; a text is a
  // pointer already.
  function Behind(p: byte, v: Bcon): Bcon {
    if p == 0x50 then Ptr(Some(v)) else if p == 0x52 && !v.S? then Ref(v) else v
  }

  predicate IsPointer(p: byte) {
    p == 0x5F || p == 0x52 || p == 0x50
  }

  // ---- From a scalar to the bytes

  lemma ElementInFull(key: CString, v: F.Value, code: byte, payload: seq<byte>)
    requires G.IsElement([code] + key + [0] + payload, key, v)
    ensures F.EncDoc([F.Elem(key, v)]) == OneElement(code, key, payload)
    ensures |F.EncElem(F.Elem(key, v))| == 2 + |key| + |payload|
  {
    hide G.IsElement, F.EncElem, G.BigEndian32, F.EncDoc;
    var b, e := [code] + key + [0] + payload, F.Elem(key, v);
    G.ElementIs(b, key, v);
    G.OneElement(b, e);
  }

  lemma TypedField(key: CString, spec: CString, entry: Bcon, v: F.Value) returns (fields: seq<BField>)
    requires IsKey(key) && TokenOf(spec) == Typespec && ScalarOf(spec, entry) == Some([v])
    ensures IsDocument([S(key), S(spec), entry, S(END)], fields) && DocElems(fields) == [F.Elem(key, v)]
  {
    hide ScalarOf, TokenOf, IsKey;
    var v' := Typed(spec, entry);
    NoFields();
    fields := OneField(key, v', []);
    assert fields[1..] == [] && DocElems([]) == [];
    assert Entries(v') == [S(spec), entry] && Elems(key, v') == [F.Elem(key, v)];
    assert [S(key), S(spec), entry, S(END)] == FieldEntries(fields) + [S(END)];
  }

  lemma OneElemFits(cap: nat, e: F.Elem)
    requires cap <= INT32_MAX && Accepts(e.name) && CleanValue(e.value) && !e.value.Document? && !e.value.Array?
    requires |F.EncElem(e)| + 5 + |F.EncElem(e)| <= INT32_MAX
    ensures Clean([e]) && HasRoom(cap, [e])
  {
    hide F.EncElem, Accepts, CleanValue, HasRoom;
    assert [e][1..] == [] && Clean([]) && Largest([]) == 1 && F.Body([]) == [];
    assert LargestFor(e) == |F.EncElem(e)| && F.Body([e]) == F.EncElem(e);
    assert Largest([e]) == |F.EncElem(e)|;
    FittingHasRoom(cap, [e]);
  }

  lemma OneScalarReturns(
    cap: nat, key: CString, p: byte, u: byte, entry: Bcon, v: F.Value, code: byte, payload: seq<byte>)
    requires GoodKey(key) && IsPointer(p) && u != 0 && Room(cap, key, |payload|)
    requires ScalarOf([COLON, p, u, COLON], entry) == Some([v]) && CleanValue(v) && !v.Document? && !v.Array?
    requires G.IsElement([code] + key + [0] + payload, key, v)
    ensures Yields(cap, OneEntry(key, p, u, entry), OneElement(code, key, payload))
  {
    hide G.IsElement, ScalarOf, Compile, Returned, F.EncDoc, F.EncElem, Accepts, IsDocument, DocElems, Clean, HasRoom;
    ElementInFull(key, v, code, payload);
    KeyIs(key);
    var fields := TypedField(key, [COLON, p, u, COLON], entry, v);
    OneElemFits(cap, F.Elem(key, v));
    WellFormedReturns(cap, OneEntry(key, p, u, entry), fields);
  }

  lemma KeyIs(key: CString)
    requires GoodKey(key)
    ensures IsKey(key)
  {
    hide Accepts;
    if |key| == 1 {
      assert key == [key[0]];
    }
  }

  // ---- Each type

  // ":_s:" appends a string and ":_x:" a symbol, behind a pointer too; a specifier without a type is ":_s:".
  lemma Texts(cap: nat, key: CString, p: byte, s: CString)
    requires GoodKey(key) && IsPointer(p) && Accepts(s) && Room(cap, key, 5 + |s|)
    ensures var payload := G.BigEndian32(|s| + 1) + s + [0];
            && Yields(cap, OneEntry(key, p, 0x73, Behind(p, S(s))), OneElement(2, key, payload))
            && Yields(cap, OneEntry(key, p, 0x78, Behind(p, S(s))), OneElement(14, key, payload))
            && Yields(cap, OneEntry(key, 0x5F, 0x5F, S(s)), OneElement(2, key, payload))
  {
    hide G.IsElement, Accepts, Yields, G.BigEndian32;
    var payload := G.BigEndian32(|s| + 1) + s + [0];
    ScalarTexts(p, s);
    ScalarTexts(0x5F, s);
    TextElement(key, s);
    OneScalarReturns(cap, key, p, 0x73, Behind(p, S(s)), F.Str(s), 2, payload);
    OneScalarReturns(cap, key, p, 0x78, Behind(p, S(s)), F.Symbol(s), 14, payload);
    OneScalarReturns(cap, key, 0x5F, 0x5F, S(s), F.Str(s), 2, payload);
  }

  lemma ScalarTexts(p: byte, s: CString)
    requires IsPointer(p)
    ensures ScalarOf([COLON, p, 0x73, COLON], Behind(p, S(s))) == Some([F.Str(s)])
    ensures ScalarOf([COLON, p, 0x78, COLON], Behind(p, S(s))) == Some([F.Symbol(s)])
    ensures ScalarOf([COLON, 0x5F, 0x5F, COLON], S(s)) == Some([F.Str(s)])
  {
  }

  lemma Behinds(b: seq<byte>, code: byte, key: CString, payload: seq<byte>)
    requires b == [code] + key + [0] + payload
    ensures G.Starts(b, code, key) && |b| >= 2 + |key| && b[2 + |key|..] == payload
  {
  }

  lemma TextElement(key: CString, s: CString)
    ensures var payload := G.BigEndian32(|s| + 1) + s + [0];
            && G.IsElement([2] + key + [0] + payload, key, F.Str(s))
            && G.IsElement([14] + key + [0] + payload, key, F.Symbol(s))
  {
    hide G.Starts, G.BigEndian32;
    var payload := G.BigEndian32(|s| + 1) + s + [0];
    Behinds([2] + key + [0] + payload, 2, key, payload);
    Behinds([14] + key + [0] + payload, 14, key, payload);
  }

  // The bytes of the host, last byte first.
  function Swapped(bits: F.Bits64): seq<byte> {
    [bits[7], bits[6], bits[5], bits[4], bits[3], bits[2], bits[1], bits[0]]
  }

  function Flag(b: bool): seq<byte> {
    if b then [1] else [0]
  }

  // 64 bits, high byte first.
  function BigEndian64(n: nat): seq<byte> {
    G.BigEndian32(n / 0x1_0000_0000) + G.BigEndian32(n)
  }

  // Numbers, times and booleans.
  lemma Numbers(cap: nat, key: CString, p: byte, bits: F.Bits64, i: int32, b: bool, seconds: int)
    requires GoodKey(key) && IsPointer(p) && Room(cap, key, 8)
    ensures Yields(cap, OneEntry(key, p, 0x66, Behind(p, Dbl(bits))), OneElement(1, key, Swapped(bits)))
    ensures Yields(cap, OneEntry(key, p, 0x6C, Behind(p, L(bits))), OneElement(18, key, Swapped(bits)))
    ensures Yields(cap, OneEntry(key, p, 0x69, Behind(p, I(i))),
                   OneElement(16, key, G.BigEndian32(if i >= 0 then i else 0x1_0000_0000 + i)))
    ensures Yields(cap, OneEntry(key, p, 0x62, Behind(p, B(b))), OneElement(8, key, Flag(b)))
    ensures Yields(cap, OneEntry(key, p, 0x74, Behind(p, T(seconds))),
                   OneElement(9, key, BigEndian64(1000 * seconds % 0x1_0000_0000_0000_0000)))
  {
    hide G.IsElement, Accepts, Yields, G.BigEndian32, OneElement;
    ScalarNumbers(p, bits, i, b, seconds);
    NumberElements(key, bits, i, b);
    OneScalarReturns(cap, key, p, 0x66, Behind(p, Dbl(bits)), F.Double(bits), 1, Swapped(bits));
    OneScalarReturns(cap, key, p, 0x6C, Behind(p, L(bits)), F.Long(bits), 18, Swapped(bits));
    OneScalarReturns(cap, key, p, 0x69, Behind(p, I(i)), F.Int(i), 16, G.BigEndian32(G.TwosComplement(i)));
    OneScalarReturns(cap, key, p, 0x62, Behind(p, B(b)), F.Bool(b), 8, Flag(b));
    var millis := 1000 * seconds % 0x1_0000_0000_0000_0000;
    DateElement(key, millis);
    OneScalarReturns(cap, key, p, 0x74, Behind(p, T(seconds)), F.Date(LittleEndian(millis, 8)), 9, BigEndian64(millis));
  }

  lemma ScalarNumbers(p: byte, bits: F.Bits64, i: int32, b: bool, seconds: int)
    requires IsPointer(p)
    ensures ScalarOf([COLON, p, 0x66, COLON], Behind(p, Dbl(bits))) == Some([F.Double(bits)])
    ensures ScalarOf([COLON, p, 0x6C, COLON], Behind(p, L(bits))) == Some([F.Long(bits)])
    ensures ScalarOf([COLON, p, 0x69, COLON], Behind(p, I(i))) == Some([F.Int(i)])
    ensures ScalarOf([COLON, p, 0x62, COLON], Behind(p, B(b))) == Some([F.Bool(b)])
    ensures ScalarOf([COLON, p, 0x74, COLON], Behind(p, T(seconds)))
         == Some([F.Date(LittleEndian(1000 * seconds % 0x1_0000_0000_0000_0000, 8))])
  {
    hide LittleEndian;
    assert seconds * 1000 == 1000 * seconds;
  }

  lemma NumberElements(key: CString, bits: F.Bits64, i: int32, b: bool)
    ensures G.IsElement([1] + key + [0] + Swapped(bits), key, F.Double(bits))
    ensures G.IsElement([18] + key + [0] + Swapped(bits), key, F.Long(bits))
    ensures G.IsElement([16] + key + [0] + G.BigEndian32(G.TwosComplement(i)), key, F.Int(i))
    ensures G.IsElement([8] + key + [0] + Flag(b), key, F.Bool(b))
  {
    hide G.Starts, G.BigEndian32, G.TwosComplement, G.IsSwapped;
    assert G.IsSwapped(Swapped(bits), bits) by { SwapsAll(bits); }
    Behinds([1] + key + [0] + Swapped(bits), 1, key, Swapped(bits));
    Behinds([18] + key + [0] + Swapped(bits), 18, key, Swapped(bits));
    IntElement(key, i);
    Behinds([8] + key + [0] + Flag(b), 8, key, Flag(b));
  }

  lemma SwapsAll(bits: F.Bits64)
    ensures G.IsSwapped(Swapped(bits), bits)
  {
  }

  lemma IntElement(key: CString, i: int32)
    ensures G.IsElement([16] + key + [0] + G.BigEndian32(G.TwosComplement(i)), key, F.Int(i))
  {
    hide G.Starts, G.BigEndian32, G.TwosComplement;
    var four := G.BigEndian32(G.TwosComplement(i));
    Behinds([16] + key + [0] + four, 16, key, four);
  }

  lemma DateElement(key: CString, n: nat)
    requires n < 0x1_0000_0000_0000_0000
    ensures G.IsElement([9] + key + [0] + BigEndian64(n), key, F.Date(LittleEndian(n, 8)))
  {
    hide G.Starts;
    EightBytes(n);
    Behinds([9] + key + [0] + BigEndian64(n), 9, key, BigEndian64(n));
  }

  lemma EightBytes(n: nat)
    ensures G.IsSwapped(BigEndian64(n), LittleEndian(n, 8))
  {
    hide LittleEndian;
    var high := n / 0x1_0000_0000;
    FourThenMore(n);
    G.FourBytes(n);
    G.FourBytes(high);
  }

  lemma FourThenMore(n: nat)
    ensures LittleEndian(n, 8) == LittleEndian(n, 4) + LittleEndian(n / 0x1_0000_0000, 4)
  {
    var a := n / 0x100;
    var b := a / 0x100;
    var c := b / 0x100;
    G.Divided(n);
    assert c / 0x100 == n / 0x1_0000_0000;
    hide LittleEndian;
    OneThenMore(n, 8);
    OneThenMore(a, 7);
    OneThenMore(b, 6);
    OneThenMore(c, 5);
    OneThenMore(n, 4);
    OneThenMore(a, 3);
    OneThenMore(b, 2);
    OneThenMore(c, 1);
    NoBytes(c / 0x100);
  }

  lemma OneThenMore(n: nat, k: nat)
    requires k > 0
    ensures LittleEndian(n, k) == [n % 256] + LittleEndian(n / 0x100, k - 1)
  {
  }

  lemma NoBytes(n: nat)
    ensures LittleEndian(n, 0) == []
  {
  }

  // ---- Null, the missing value and the object id

  // ":_v:" appends a null whatever the entry is.
  lemma Nulls(cap: nat, key: CString, entry: Bcon)
    requires GoodKey(key) && Room(cap, key, 0)
    ensures Yields(cap, OneEntry(key, 0x5F, 0x76, entry), OneElement(10, key, []))
  {
    hide G.IsElement, Accepts, Yields;
    assert ScalarOf([COLON, 0x5F, 0x76, COLON], entry) == Some([F.Null]);
    NullElement(key);
    OneScalarReturns(cap, key, 0x5F, 0x76, entry, F.Null, 10, []);
  }

  lemma NullElement(key: CString)
    ensures G.IsElement([10] + key + [0] + [], key, F.Null)
  {
    hide G.Starts;
    Behinds([10] + key + [0] + [], 10, key, []);
  }

  // A null pointer behind "P" appends nothing.
  lemma Missing(cap: nat, key: CString, u: byte)
    requires GoodKey(key) && u != 0 && 5 <= cap <= INT32_MAX
    ensures Yields(cap, OneEntry(key, 0x50, u, Ptr(None)), [0, 0, 0, 5, 0])
  {
    hide Accepts, Returned, Compile, IsDocument, Clean, HasRoom, TokenOf, Calls;
    var spec: CString := [COLON, 0x50, u, COLON];
    assert TokenOf(spec) == Typespec by { PointerSpec(u); }
    KeyIs(key);
    var fields := MissingField(key, spec);
    var none: seq<F.Elem> := [];
    assert F.EncDoc(none) == [0, 0, 0, 5, 0] by { F.EmptyDocument(); }
    assert Clean(none) && HasRoom(cap, none) by { NothingFits(cap); }
    WellFormedReturns(cap, OneEntry(key, 0x50, u, Ptr(None)), fields);
  }

  lemma PointerSpec(u: byte)
    requires u != 0
    ensures TokenOf([COLON, 0x50, u, COLON]) == Typespec
  {
  }

  lemma NothingFits(cap: nat)
    requires cap <= INT32_MAX
    ensures Clean([]) && HasRoom(cap, [])
  {
    hide HasRoom;
    F.EmptyDocument();
    FittingHasRoom(cap, []);
  }

  lemma MissingField(key: CString, spec: CString) returns (fields: seq<BField>)
    requires IsKey(key) && TokenOf(spec) == Typespec && spec[1] == 0x50
    ensures IsDocument([S(key), S(spec), Ptr(None), S(END)], fields) && DocElems(fields) == []
  {
    hide TokenOf, IsKey;
    var v := Typed(spec, Ptr(None));
    NoFields();
    fields := OneField(key, v, []);
    assert fields[1..] == [] && DocElems([]) == [];
    assert Entries(v) == [S(spec), Ptr(None)] && Elems(key, v) == [];
    assert [S(key), S(spec), Ptr(None), S(END)] == FieldEntries(fields) + [S(END)];
  }

  // bson_oid_to_string.
  function HexDigit(n: nat): byte
    requires n < 16
  {
    if n < 10 then 0x30 + n else 0x61 + n - 10
  }

  function HexText(oid: seq<byte>): seq<byte> {
    if oid == [] then [] else [HexDigit(oid[0] / 16), HexDigit(oid[0] % 16)] + HexText(oid[1..])
  }

  predicate IsHex(c: byte) {
    0x30 <= c <= 0x39 || 0x41 <= c <= 0x46 || 0x61 <= c <= 0x66
  }

  function Lowered(c: byte): byte {
    if 0x41 <= c <= 0x46 then c + 0x20 else c
  }

  // ":_o:" appends the twelve bytes whose hexadecimal text is that of the first 24 digits of the entry.
  lemma ObjectIds(cap: nat, key: CString, p: byte, s: CString) returns (oid: F.Bytes12)
    requires GoodKey(key) && IsPointer(p) && Room(cap, key, 12)
    requires |s| >= 24 && forall i :: 0 <= i < 24 ==> IsHex(s[i])
    ensures HexText(oid) == seq(24, i requires 0 <= i < 24 => Lowered(s[i]))
    ensures Yields(cap, OneEntry(key, p, 0x6F, Behind(p, S(s))), OneElement(7, key, oid))
  {
    hide G.IsElement, Accepts, Yields, HexText;
    oid := OidOf(s, 12);
    OidText(s, 12);
    assert ScalarOf([COLON, p, 0x6F, COLON], Behind(p, S(s))) == Some([F.Oid(oid)]);
    OidElement(key, oid);
    OneScalarReturns(cap, key, p, 0x6F, Behind(p, S(s)), F.Oid(oid), 7, oid);
  }

  lemma OidElement(key: CString, oid: F.Bytes12)
    ensures G.IsElement([7] + key + [0] + oid, key, F.Oid(oid))
  {
    hide G.Starts;
    Behinds([7] + key + [0] + oid, 7, key, oid);
  }

  lemma {:induction false} OidText(s: seq<byte>, n: nat)
    requires 2 * n <= |s| && forall i :: 0 <= i < 2 * n ==> IsHex(s[i])
    ensures HexText(OidOf(s, n)) == seq(2 * n, i requires 0 <= i < 2 * n => Lowered(s[i]))
  {
    if n > 0 {
      OidText(s, n - 1);
      var last: byte := HexByte(s[2 * n - 2]) * 16 + HexByte(s[2 * n - 1]);
      HexConcat(OidOf(s, n - 1), last);
    }
  }

  lemma {:induction false} HexConcat(a: seq<byte>, b: byte)
    ensures HexText(a + [b]) == HexText(a) + [HexDigit(b / 16), HexDigit(b % 16)]
  {
    if a == [] {
      assert [b][1..] == [];
    } else {
      assert (a + [b])[1..] == a[1..] + [b];
      HexConcat(a[1..], b);
    }
  }

  // ---- A nested list in full

  // "a", "{", "b", "[", ":_i:", 7, "]", "}", "."
  const NESTED: seq<Bcon> := [
    S([0x61]), S([0x7B]), S([0x62]), S([0x5B]), S([0x3A, 0x5F, 0x69, 0x3A]), I(7), S([0x5D]), S([0x7D]), S([0x2E])]

  // {"a": {"b": [7]}}
  lemma NestedInFull()
    ensures Yields(128, NESTED, [
                     0, 0, 0, 28, 3, 0x61, 0, 0, 0, 0, 20, 4, 0x62, 0, 0, 0, 0, 12, 16, 0x30, 0, 0, 0, 0, 7, 0, 0, 0])
  {
    hide Compile, Returned, IsDocument, F.EncDoc, HasRoom, Clean, DocElems;
    var fields := NestedFields();
    var es := NestedElems();
    NestedBytes();
    InFull();
    NestedHasRoom();
    WellFormedReturns(128, NESTED, fields);
  }

  function NestedElems(): seq<F.Elem> {
    [F.Elem([0x61], F.Document([F.Elem([0x62], F.Array([F.Elem([0x30], F.Int(7))]))]))]
  }

  // "b", "[", ":_i:", 7, "]"
  lemma ListField() returns (inner: seq<BField>)
    ensures WellFormedFields(inner) && FieldsDepth(inner) == 1
    ensures FieldEntries(inner) == [S([0x62]), S(OPEN_BRACKET), S([0x3A, 0x5F, 0x69, 0x3A]), I(7), S(CLOSE_BRACKET)]
    ensures DocElems(inner) == [F.Elem([0x62], F.Array([F.Elem([0x30], F.Int(7))]))]
  {
    hide TokenOf, ScalarOf, IsKey;
    var spec: CString := [0x3A, 0x5F, 0x69, 0x3A];
    var item := Typed(spec, I(7));
    SevenIsScalar();
    NoItems();
    var items := OneItem(item, []);
    assert items[1..] == [] && ItemEntries(items) == [S(spec), I(7)];
    assert ArrayElems([], 1) == [] && NumStr(0) == [0x30];
    assert ArrayElems(items, 0) == Elems(NumStr(0), item) + ArrayElems([], 1) == [F.Elem([0x30], F.Int(7))];
    LettersAreKeys();
    NoFields();
    ArrIs(items);
    inner := OneField([0x62], Arr(items), []);
    assert inner[1..] == [] && DocElems([]) == [];
    assert DocElems(inner) == [F.Elem([0x62], F.Array(ArrayElems(items, 0)))];
  }

  lemma NestedFields() returns (fields: seq<BField>)
    ensures IsDocument(NESTED, fields) && DocElems(fields) == NestedElems()
  {
    hide TokenOf, ScalarOf, IsKey, ArrayElems, ItemEntries;
    var inner := ListField();
    LettersAreKeys();
    NoFields();
    DocIs(inner);
    fields := OneField([0x61], Doc(inner), []);
    assert fields[1..] == [] && DocElems([]) == [];
    assert DocElems(fields) == [F.Elem([0x61], F.Document(DocElems(inner)))];
    assert FieldEntries(fields) == [S([0x61]), S(OPEN_BRACE)] + FieldEntries(inner) + [S(CLOSE_BRACE)];
    assert NESTED == FieldEntries(fields) + [S(END)];
  }

  lemma SevenIsScalar()
    ensures TokenOf([0x3A, 0x5F, 0x69, 0x3A]) == Typespec
    ensures ScalarOf([0x3A, 0x5F, 0x69, 0x3A], I(7)) == Some([F.Int(7)])
  {
  }

  lemma LettersAreKeys()
    ensures IsKey([0x61]) && IsKey([0x62])
  {
  }

  lemma DocumentElement(key: CString, es: seq<F.Elem>, doc: seq<byte>)
    requires F.EncDoc(es) == doc
    ensures F.EncDoc([F.Elem(key, F.Document(es))]) == OneElement(3, key, doc)
    ensures F.EncDoc([F.Elem(key, F.Array(es))]) == OneElement(4, key, doc)
  {
    hide G.Starts, F.EncDoc, G.IsDocument;
    G.DocumentIs(doc, es);
    Behinds([3] + key + [0] + doc, 3, key, doc);
    Behinds([4] + key + [0] + doc, 4, key, doc);
    ElementInFull(key, F.Document(es), 3, doc);
    ElementInFull(key, F.Array(es), 4, doc);
  }

  const SEVEN: seq<byte> := [0, 0, 0, 12, 16, 0x30, 0, 0, 0, 0, 7, 0]
  const LISTED: seq<byte> := [0, 0, 0, 20, 4, 0x62, 0] + SEVEN + [0]

  lemma Wrapped()
    ensures OneElement(16, [0x30], G.BigEndian32(7)) == SEVEN
    ensures OneElement(4, [0x62], SEVEN) == LISTED
    ensures OneElement(3, [0x61], LISTED) == [0, 0, 0, 28, 3, 0x61, 0] + LISTED + [0]
  {
  }

  lemma InFull()
    ensures [0, 0, 0, 28, 3, 0x61, 0] + LISTED + [0] == [
              0, 0, 0, 28, 3, 0x61, 0, 0, 0, 0, 20, 4, 0x62, 0, 0, 0, 0, 12, 16, 0x30, 0, 0, 0, 0, 7, 0, 0, 0]
  {
  }

  lemma NestedBytes()
    ensures F.EncDoc(NestedElems()) == [0, 0, 0, 28, 3, 0x61, 0] + LISTED + [0]
  {
    hide F.EncDoc, G.IsElement, OneElement, G.BigEndian32;
    Wrapped();
    IntElement([0x30], 7);
    ElementInFull([0x30], F.Int(7), 16, G.BigEndian32(7));
    var seven: seq<F.Elem> := [F.Elem([0x30], F.Int(7))];
    DocumentElement([0x62], seven, SEVEN);
    DocumentElement([0x61], [F.Elem([0x62], F.Array(seven))], LISTED);
  }

  lemma NestedHasRoom()
    ensures Clean(NestedElems()) && HasRoom(128, NestedElems())
  {
    hide HasRoom, F.EncDoc, Accepts;
    NestedBytes();
    var es := NestedElems();
    assert Accepts([0x61]) && Accepts([0x62]) && Accepts([0x30]) by { LettersAccepted(); }
    var seven: seq<F.Elem> := [F.Elem([0x30], F.Int(7))];
    var listed: seq<F.Elem> := [F.Elem([0x62], F.Array(seven))];
    F.ElemSize(seven[0]);
    assert seven[1..] == [] && listed[1..] == [] && es[1..] == [] && Clean([]) && Largest([]) == 1;
    assert Clean(seven) && Largest(seven) <= 20;
    assert Clean(listed) && Largest(listed) <= 20;
    assert Clean(es) && Largest(es) <= 20;
    FittingHasRoom(128, es);
  }

  lemma LettersAccepted()
    ensures Accepts([0x61]) && Accepts([0x62]) && Accepts([0x30])
  {
  }
}

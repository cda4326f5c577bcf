// The document and element grammar of the BSON specification, version 1.1, byte for byte, with numbers high byte first.
// It shares nothing with the encoder of BsonFormat, which is proved to write exactly what it admits.
module BsonGrammar {
  import opened Bytes
  import opened BsonFormat
  import opened BsonSpec
  import opened BsonRuns
  import opened BsonTrees
  import opened BsonRoom

  // int32, high byte first.
  function BigEndian32(n: nat): (s: seq<byte>)
    ensures |s| == 4
  {
    [n / 0x100_0000 % 256, n / 0x1_0000 % 256, n / 0x100 % 256, n % 256]
  }

  function TwosComplement(i: int32): nat {
    if i >= 0 then i else 0x1_0000_0000 + i
  }

  // Eight bytes of the host, last byte first.
  predicate IsSwapped(p: seq<byte>, bits: Bits64) {
    |p| == 8 && forall i :: 0 <= i < 8 ==> p[i] == bits[7 - i]
  }

  predicate IsString(p: seq<byte>, s: seq<byte>) {
    p == BigEndian32(|s| + 1) + s + [0]
  }

  predicate Starts(b: seq<byte>, code: byte, name: CString) {
    |b| >= 2 + |name| && b[0] == code && b[1..1 + |name|] == name && b[1 + |name|] == 0
  }

  predicate IsBinary(p: seq<byte>, subtype: byte, data: seq<byte>) {
    if subtype == 2 then p == BigEndian32(|data| + 4) + [2] + BigEndian32(|data|) + data
    else p == BigEndian32(|data|) + [subtype] + data
  }

  ghost predicate IsElement(b: seq<byte>, name: CString, v: Value)
    decreases v, 1
  {
    |b| >= 2 + |name| &&
    var p := b[2 + |name|..];
    match v
    case Double(bits) => Starts(b, 1, name) && IsSwapped(p, bits)
    case Str(s) => Starts(b, 2, name) && IsString(p, s)
    case Document(es) => Starts(b, 3, name) && IsDocument(p, es)
    case Array(es) => Starts(b, 4, name) && IsDocument(p, es)
    case Binary(subtype, data) => Starts(b, 5, name) && IsBinary(p, subtype, data)
    case Undefined => Starts(b, 6, name) && p == []
    case Oid(oid) => Starts(b, 7, name) && p == oid
    case Bool(value) => Starts(b, 8, name) && p == (if value then [1] else [0])
    case Date(bits) => Starts(b, 9, name) && IsSwapped(p, bits)
    case Null => Starts(b, 10, name) && p == []
    case Regex(pattern, opts) => Starts(b, 11, name) && p == pattern + [0] + opts + [0]
    case Code(s) => Starts(b, 13, name) && IsString(p, s)
    case Symbol(s) => Starts(b, 14, name) && IsString(p, s)
    case CodeWScope(s, scope) =>
      var k := 4 + (4 + |s| + 1);
      && Starts(b, 15, name)
      && k <= |p| && p[..4] == BigEndian32(|p|) && IsString(p[4..k], s) && IsDocument(p[k..], scope)
    case Int(i) => Starts(b, 16, name) && p == BigEndian32(TwosComplement(i))
    case Timestamp(increment, time) =>
      Starts(b, 17, name) && p == BigEndian32(TwosComplement(increment)) + BigEndian32(TwosComplement(time))
    case Long(bits) => Starts(b, 18, name) && IsSwapped(p, bits)
  }

  ghost predicate IsBody(b: seq<byte>, es: seq<Elem>)
    decreases es, 0
  {
    if es == [] then b == []
    else exists k :: 0 <= k <= |b| && IsElement(b[..k], es[0].name, es[0].value) && IsBody(b[k..], es[1..])
  }

  ghost predicate IsDocument(b: seq<byte>, es: seq<Elem>)
    decreases es, 1
  {
    |b| >= 5 && b[..4] == BigEndian32(|b|) && b[|b| - 1] == 0 && IsBody(b[4..|b| - 1], es)
  }

  // ---- The encoder writes exactly this

  lemma Divided(m: nat)
    ensures m / 0x100 / 0x100 == m / 0x1_0000 && m / 0x100 / 0x100 / 0x100 == m / 0x100_0000
  {
  }

  lemma LowBytes(n: nat)
    ensures var m := n % TWO_32;
            && m % 256 == n % 256 && m / 0x100 % 256 == n / 0x100 % 256
            && m / 0x1_0000 % 256 == n / 0x1_0000 % 256 && m / 0x100_0000 % 256 == n / 0x100_0000 % 256
  {
    var m, q := n % TWO_32, n / TWO_32;
    assert n == m + 0x100 * (0x100_0000 * q);
    Above1(n, m, 0x100_0000 * q);
    Above2(n, m, 0x1_0000 * q);
    Above3(n, m, 0x100 * q);
    SameByte(n, m, 0x100_0000 * q);
    SameByte(n / 0x100, m / 0x100, 0x1_0000 * q);
    SameByte(n / 0x1_0000, m / 0x1_0000, 0x100 * q);
    SameByte(n / 0x100_0000, m / 0x100_0000, q);
  }

  lemma Above1(n: nat, m: nat, k: nat)
    requires n == m + 0x100 * k
    ensures n / 0x100 == m / 0x100 + k
  {
  }

  lemma Above2(n: nat, m: nat, k: nat)
    requires n == m + 0x1_0000 * k
    ensures n / 0x1_0000 == m / 0x1_0000 + k
  {
  }

  lemma Above3(n: nat, m: nat, k: nat)
    requires n == m + 0x100_0000 * k
    ensures n / 0x100_0000 == m / 0x100_0000 + k
  {
  }

  lemma SameByte(x: nat, y: nat, k: nat)
    requires x == y + 256 * k
    ensures x % 256 == y % 256
  {
  }

  lemma FourBytes(m: nat)
    ensures LittleEndian(m, 4) == [m % 256, m / 0x100 % 256, m / 0x1_0000 % 256, m / 0x100_0000 % 256]
  {
    Divided(m);
    var a := m / 0x100;
    var b := a / 0x100;
    var c := b / 0x100;
    assert LittleEndian(c, 1) == [c % 256] + LittleEndian(c / 256, 0);
    assert LittleEndian(b, 2) == [b % 256] + LittleEndian(c, 1);
    assert LittleEndian(a, 3) == [a % 256] + LittleEndian(b, 2);
    assert LittleEndian(m, 4) == [m % 256] + LittleEndian(a, 3);
  }

  lemma LengthBytes(n: nat)
    ensures EncLen(n) == BigEndian32(n)
  {
    hide LittleEndian;
    FourBytes(n % TWO_32);
    LowBytes(n);
  }

  lemma SwappedIs(p: seq<byte>, bits: Bits64)
    ensures IsSwapped(p, bits) <==> p == Reverse(bits)
  {
  }

  lemma StringIs(p: seq<byte>, s: seq<byte>)
    ensures IsString(p, s) <==> p == EncString(s)
  {
    LengthBytes(|s| + 1);
    assert BigEndian32(|s| + 1) + s + [0] == BigEndian32(|s| + 1) + (s + [0]);
  }

  lemma StartsIs(b: seq<byte>, code: byte, name: CString)
    ensures |b| >= 2 + |name| ==> (Starts(b, code, name) <==> b == Header(code, name) + b[2 + |name|..])
  {
    if |b| >= 2 + |name| {
      var h := Header(code, name);
      assert b == b[..2 + |name|] + b[2 + |name|..];
      assert b[..2 + |name|] == [b[0]] + (b[1..1 + |name|] + [b[1 + |name|]]);
      if b == h + b[2 + |name|..] {
        assert b[..2 + |name|] == h;
      }
    }
  }

  lemma BinaryIs(p: seq<byte>, subtype: byte, data: seq<byte>)
    ensures IsBinary(p, subtype, data) <==> p == Payload(Binary(subtype, data))
  {
    LengthBytes(|data| + 4);
    LengthBytes(|data|);
    hide EncLen, BigEndian32;
    assert EncLen(|data| + 4) + [subtype] + EncLen(|data|) + data
        == EncLen(|data| + 4) + ([subtype] + (EncLen(|data|) + data));
    assert EncLen(|data|) + [subtype] + data == EncLen(|data|) + ([subtype] + data);
  }

  lemma FramedIs(b: seq<byte>, body: seq<byte>)
    ensures b == Framed(body) <==> |b| >= 5 && b[..4] == BigEndian32(|b|) && b[|b| - 1] == 0 && b[4..|b| - 1] == body
  {
    LengthBytes(|body| + 5);
    hide EncLen, BigEndian32;
    if b == Framed(body) {
      assert b[4..] == body + [0];
      assert b[4..][..|body|] == body;
    }
    if |b| >= 5 && b[..4] == BigEndian32(|b|) && b[|b| - 1] == 0 && b[4..|b| - 1] == body {
      assert b == b[..4] + (b[4..|b| - 1] + [b[|b| - 1]]);
    }
  }

  lemma Apart(b: seq<byte>, h: seq<byte>, p: seq<byte>)
    requires |b| >= |h|
    ensures b == h + p <==> b == h + b[|h|..] && b[|h|..] == p
  {
  }

  lemma ScopeIs(p: seq<byte>, s: seq<byte>, scope: seq<Elem>)
    ensures var k := 4 + (4 + |s| + 1);
            p == Payload(CodeWScope(s, scope)) <==>
            k <= |p| && p[..4] == BigEndian32(|p|) && p[4..k] == EncString(s) && p[k..] == EncDoc(scope)
  {
    var k := 4 + (4 + |s| + 1);
    var size := 8 + |s| + 1 + |Body(scope)| + 5;
    LengthBytes(size);
    hide EncLen, BigEndian32, Body;
    var text, doc := EncString(s), EncDoc(scope);
    assert |text| == 4 + |s| + 1 && |doc| == |Body(scope)| + 5;
    if p == EncLen(size) + (text + doc) {
      assert p[4..] == text + doc;
      assert p[4..k] == (text + doc)[..|text|] && p[k..] == (text + doc)[|text|..];
    }
    if k <= |p| && p[..4] == BigEndian32(|p|) && p[4..k] == text && p[k..] == doc {
      assert p == p[..4] + (p[4..k] + p[k..]) && |p| == size;
    }
  }

  // The bytes of a value behind a name.
  lemma {:induction false} PlainIs(p: seq<byte>, v: Value)
    requires !v.Document? && !v.Array? && !v.CodeWScope?
    ensures p == Payload(v) <==>
            match v
            case Double(bits) => IsSwapped(p, bits)
            case Date(bits) => IsSwapped(p, bits)
            case Long(bits) => IsSwapped(p, bits)
            case Str(s) => IsString(p, s)
            case Code(s) => IsString(p, s)
            case Symbol(s) => IsString(p, s)
            case Binary(subtype, data) => IsBinary(p, subtype, data)
            case Oid(oid) => p == oid
            case Bool(value) => p == (if value then [1] else [0])
            case Regex(pattern, opts) => p == pattern + [0] + opts + [0]
            case Int(i) => p == BigEndian32(TwosComplement(i))
            case Timestamp(increment, time) =>
              p == BigEndian32(TwosComplement(increment)) + BigEndian32(TwosComplement(time))
            case _ => p == []
  {
    hide EncLen, BigEndian32, IsSwapped, IsString, IsBinary, EncString;
    match v
    case Double(bits) => SwappedIs(p, bits);
    case Date(bits) => SwappedIs(p, bits);
    case Long(bits) => SwappedIs(p, bits);
    case Str(s) => StringIs(p, s);
    case Code(s) => StringIs(p, s);
    case Symbol(s) => StringIs(p, s);
    case Binary(subtype, data) => BinaryIs(p, subtype, data);
    case Regex(pattern, opts) =>
      assert pattern + [0] + opts + [0] == (pattern + [0]) + (opts + [0]);
    case Int(i) => LengthBytes(TwosComplement(i));
    case Timestamp(increment, time) =>
      LengthBytes(TwosComplement(increment));
      LengthBytes(TwosComplement(time));
    case _ =>
  }

  // The bytes of an element are admitted, and no others.
  lemma {:induction false} ElementIs(b: seq<byte>, name: CString, v: Value)
    ensures IsElement(b, name, v) <==> b == EncElem(Elem(name, v))
    decreases v, 1
  {
    hide EncLen, BigEndian32, Header, Starts, Body, IsBody, IsSwapped, IsString, IsBinary, IsDocument, EncString;
    hide TwosComplement, Payload, Framed;
    var t := TypeCode(v);
    ElemSize(Elem(name, v));
    if |b| >= 2 + |name| {
      var p := b[2 + |name|..];
      StartsIs(b, t, name);
      HeaderSize(t, name);
      Apart(b, Header(t, name), Payload(v));
      match v
      case Document(es) =>
        DocumentIs(p, es);
        NestedPayload(v);
      case Array(es) =>
        DocumentIs(p, es);
        NestedPayload(v);
      case CodeWScope(s, scope) =>
        var k := 4 + (4 + |s| + 1);
        ScopeIs(p, s, scope);
        if k <= |p| {
          StringIs(p[4..k], s);
          DocumentIs(p[k..], scope);
        }
      case _ => PlainIs(p, v);
    }
  }

  lemma HeaderSize(t: byte, name: CString)
    ensures |Header(t, name)| == 2 + |name|
  {
  }

  lemma NestedPayload(v: Value)
    requires v.Document? || v.Array?
    ensures Payload(v) == EncDoc(v.es)
  {
  }

  lemma {:induction false} BodyIs(b: seq<byte>, es: seq<Elem>)
    ensures IsBody(b, es) <==> b == Body(es)
    decreases es, 0
  {
    hide EncElem, IsElement;
    if es != [] {
      var first, rest := EncElem(es[0]), Body(es[1..]);
      forall k | 0 <= k <= |b|
        ensures IsElement(b[..k], es[0].name, es[0].value) <==> b[..k] == first
        ensures IsBody(b[k..], es[1..]) <==> b[k..] == rest
      {
        ElementIs(b[..k], es[0].name, es[0].value);
        BodyIs(b[k..], es[1..]);
      }
      if b == Body(es) {
        var k := |first|;
        assert b[..k] == first && b[k..] == rest;
        assert IsElement(b[..k], es[0].name, es[0].value) && IsBody(b[k..], es[1..]);
      }
      if IsBody(b, es) {
        var k :| 0 <= k <= |b| && IsElement(b[..k], es[0].name, es[0].value) && IsBody(b[k..], es[1..]);
        assert b == b[..k] + b[k..];
      }
    }
  }

  // The encoding of a document is admitted by the grammar, and no other bytes are.
  lemma {:induction false} DocumentIs(b: seq<byte>, es: seq<Elem>)
    ensures IsDocument(b, es) <==> b == EncDoc(es)
    decreases es, 1
  {
    hide Body, BigEndian32, Framed, IsBody;
    FramedIs(b, Body(es));
    if |b| >= 5 {
      BodyIs(b[4..|b| - 1], es);
    }
  }

  // ---- The builder

  // What an append that succeeds adds is an element of the grammar.
  lemma AppendsElement(st: State, name: CString, v: Value) returns (b: seq<byte>)
    requires st.Open() && AppendValue(st, name, v).1
    ensures IsElement(b, name, v)
    ensures var n := |st.levels| - 1; AppendValue(st, name, v).0.levels == st.levels[..n] + [st.levels[n] + b]
  {
    hide AppendValue, EncElem, IsElement;
    b := EncElem(Elem(name, v));
    ElementIs(b, name, v);
    if v.Regex? {
      AppendRegexOutcome(st, name, v);
    } else {
      AppendIsAllOrNothing(st, name, v);
    }
    var n := |st.levels| - 1;
    assert st.levels[n := st.levels[n] + b] == st.levels[..n] + [st.levels[n] + b];
  }

  // bson_finish succeeds with a document of the grammar if and only if the text is clean and there is room.
  lemma WritesDocument(cap: nat, es: seq<Elem>)
    requires cap <= INT32_MAX
    ensures var r := Finish(Run(InitialState(cap), Calls(es)));
            r.1 && IsDocument(r.0.doc, es) <==> Clean(es) && HasRoom(cap, es)
  {
    hide Finish, Run, Calls, IsDocument, Clean, HasRoom, EncDoc;
    WrittenExactly(cap, es);
    DocumentIs(Finish(Run(InitialState(cap), Calls(es))).0.doc, es);
  }

  // ---- A document in full

  // 1.5, as a little-endian host stores it.
  const ONE_AND_A_HALF: Bits64 := [0, 0, 0, 0, 0, 0, 0xF8, 0x3F]
  const X: CString := [0x78]

  // The document {"x": 1.5}, and the date of the same eight bytes.
  lemma DoubleInFull()
    ensures EncDoc([Elem(X, Double(ONE_AND_A_HALF))])
         == [0, 0, 0, 16, 1, 0x78, 0, 0x3F, 0xF8, 0, 0, 0, 0, 0, 0, 0]
    ensures EncDoc([Elem(X, Date(ONE_AND_A_HALF))])
         == [0, 0, 0, 16, 9, 0x78, 0, 0x3F, 0xF8, 0, 0, 0, 0, 0, 0, 0]
  {
    OneElementInFull(1, Double(ONE_AND_A_HALF));
    OneElementInFull(9, Date(ONE_AND_A_HALF));
  }

  lemma OneElementInFull(code: byte, v: Value)
    requires (code == 1 && v == Double(ONE_AND_A_HALF)) || (code == 9 && v == Date(ONE_AND_A_HALF))
    ensures EncDoc([Elem(X, v)]) == [0, 0, 0, 16, code, 0x78, 0, 0x3F, 0xF8, 0, 0, 0, 0, 0, 0, 0]
  {
    hide EncDoc;
    var body: seq<byte> := [code, 0x78, 0, 0x3F, 0xF8, 0, 0, 0, 0, 0, 0];
    HalfElement(body, code, v);
    OneElement(body, Elem(X, v));
    assert BigEndian32(16) == [0, 0, 0, 16];
  }

  lemma HalfElement(body: seq<byte>, code: byte, v: Value)
    requires (code == 1 && v == Double(ONE_AND_A_HALF)) || (code == 9 && v == Date(ONE_AND_A_HALF))
    requires body == [code, 0x78, 0, 0x3F, 0xF8, 0, 0, 0, 0, 0, 0]
    ensures IsElement(body, X, v)
  {
    assert Starts(body, code, X) by { assert body[1..2] == X; }
    assert IsSwapped(body[3..], ONE_AND_A_HALF);
    hide Starts, IsSwapped;
  }

  // A document of one element.
  lemma OneElement(b: seq<byte>, e: Elem)
    requires IsElement(b, e.name, e.value)
    ensures EncDoc([e]) == BigEndian32(|b| + 5) + b + [0]
  {
    hide IsElement, EncElem, EncLen, BigEndian32;
    ElementIs(b, e.name, e.value);
    assert [e][1..] == [] && Body([]) == [];
    assert Body([e]) == b + [] == b;
    LengthBytes(|b| + 5);
    assert Framed(b) == EncLen(|b| + 5) + b + [0];
  }
}

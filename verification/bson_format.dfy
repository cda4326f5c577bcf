// The documents that the builder can write, and their encoding: the document/element grammar of the
// BSON specification, version 1.1, with the byte order that the configured swap macros give.
module BsonFormat {
  import opened Bytes

  // Doubles, dates and 64-bit integers are opaque: the eight bytes the host stores.
  type Bits64 = s: seq<byte> | |s| == 8 witness [0, 0, 0, 0, 0, 0, 0, 0]
  type Bytes12 = s: seq<byte> | |s| == 12 witness [0, 0, 0, 0, 0, 0, 0, 0, 0, 0, 0, 0]

  datatype Elem = Elem(name: CString, value: Value)

  datatype Value =
    | Double(bits: Bits64)
    | Str(s: seq<byte>)
    | Document(es: seq<Elem>)
    | Array(es: seq<Elem>)
    | Binary(subtype: byte, data: seq<byte>)
    | Undefined
    | Oid(oid: Bytes12)
    | Bool(b: bool)
    | Date(bits: Bits64)
    | Null
    | Regex(pattern: CString, opts: CString)
    | Code(s: seq<byte>)
    | Symbol(s: seq<byte>)
    | CodeWScope(s: seq<byte>, scope: seq<Elem>)
    | Int(i: int32)
    | Timestamp(increment: int32, time: int32)
    | Long(bits: Bits64)

  const BIN_OLD: byte := 2

  function TypeCode(v: Value): (t: byte)
    ensures 1 <= t <= 18
  {
    match v
    case Double(_) => 1
    case Str(_) => 2
    case Document(_) => 3
    case Array(_) => 4
    case Binary(_, _) => 5
    case Undefined => 6
    case Oid(_) => 7
    case Bool(_) => 8
    case Date(_) => 9
    case Null => 10
    case Regex(_, _) => 11
    case Code(_) => 13
    case Symbol(_) => 14
    case CodeWScope(_, _) => 15
    case Int(_) => 16
    case Timestamp(_, _) => 17
    case Long(_) => 18
  }

  function Header(t: byte, name: CString): seq<byte> {
    [t] + (name + [0])
  }

  // A length-prefixed byte string with its terminator.
  function EncString(s: seq<byte>): seq<byte> {
    EncLen(|s| + 1) + (s + [0])
  }

  // A document from its body: total length, body, terminator.
  function Framed(body: seq<byte>): seq<byte> {
    EncLen(|body| + 5) + (body + [0])
  }

  function Payload(v: Value): (p: seq<byte>)
    decreases v
  {
    match v
    case Double(bits) => Reverse(bits)
    case Str(s) => EncString(s)
    case Document(es) => Framed(Body(es))
    case Array(es) => Framed(Body(es))
    case Binary(t, data) =>
      if t == BIN_OLD then EncLen(|data| + 4) + ([t] + (EncLen(|data|) + data))
      else EncLen(|data|) + ([t] + data)
    case Undefined => []
    case Oid(oid) => oid
    case Bool(b) => [if b then 1 else 0]
    case Date(bits) => Reverse(bits)
    case Null => []
    case Regex(pattern, opts) => (pattern + [0]) + (opts + [0])
    case Code(s) => EncString(s)
    case Symbol(s) => EncString(s)
    case CodeWScope(s, scope) => EncLen(8 + |s| + 1 + |Body(scope)| + 5) + (EncString(s) + Framed(Body(scope)))
    case Int(i) => Enc32(i)
    case Timestamp(increment, time) => Enc32(increment) + Enc32(time)
    case Long(bits) => Reverse(bits)
  }

  function EncElem(e: Elem): (s: seq<byte>)
    ensures |s| >= 2
    decreases e
  {
    Header(TypeCode(e.value), e.name) + Payload(e.value)
  }

  lemma ElemSize(e: Elem)
    ensures |EncElem(e)| == 2 + |e.name| + |Payload(e.value)|
  {
  }

  function Body(es: seq<Elem>): (s: seq<byte>)
    decreases es
  {
    if es == [] then [] else EncElem(es[0]) + Body(es[1..])
  }

  function EncDoc(es: seq<Elem>): (s: seq<byte>) {
    Framed(Body(es))
  }

  lemma {:induction false} BodyConcat(a: seq<Elem>, b: seq<Elem>)
    ensures Body(a + b) == Body(a) + Body(b)
  {
    if a == [] {
      assert a + b == b;
    } else {
      assert (a + b)[1..] == a[1..] + b;
      BodyConcat(a[1..], b);
    }
  }

  lemma BodySnoc(a: seq<Elem>, e: Elem)
    ensures Body(a + [e]) == Body(a) + EncElem(e)
  {
    BodyConcat(a, [e]);
  }

  // A document whose size fits the 32-bit length prefix.
  predicate Sized(es: seq<Elem>) {
    |Body(es)| + 5 <= INT32_MAX
  }

  // The length prefix of a finished document is its true size.
  lemma PrefixIsSize(es: seq<Elem>)
    requires Sized(es)
    ensures Dec32(EncDoc(es)[..4]) == |EncDoc(es)|
  {
    EncLenRoundTrip(|Body(es)| + 5);
    assert EncDoc(es)[..4] == EncLen(|Body(es)| + 5);
  }

  // The encoding of the empty document is not the built-in one, whose length has its low byte first.
  lemma EmptyDocument()
    ensures EncDoc([]) == [0, 0, 0, 5, 0] != [5, 0, 0, 0, 0]
  {
    assert LittleEndian(5, 4) == [5, 0, 0, 0] by {
      assert LittleEndian(0, 2) == [0, 0];
    }
    assert Reverse([5, 0, 0, 0]) == [0, 0, 0, 5];
  }
}

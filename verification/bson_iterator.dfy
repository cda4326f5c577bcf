// The iterator: it finds element boundaries from the type bytes alone.
module BsonIterator {
  import opened Bytes
  import opened BsonFormat

  function RawInt(buf: seq<byte>, p: nat): int32
    requires p + 4 <= |buf|
  {
    Dec32(buf[p..p + 4])
  }

  // The types whose values start with a 32-bit length.
  predicate HasLength(t: byte) {
    2 <= t <= 5 || 12 <= t <= 15
  }

  // The value size that the switch of bson_iterator_next computes for type t with its value at p;
  // -1 for an unknown type.
  function ValueSize(buf: seq<byte>, t: byte, p: nat): int
    requires HasLength(t) ==> p + 4 <= |buf|
    requires p <= |buf|
  {
    if t == 6 || t == 10 then 0
    else if t == 8 then 1
    else if t == 16 then 4
    else if t == 18 || t == 1 || t == 17 || t == 9 then 8
    else if t == 7 then 12
    else if t == 2 || t == 14 || t == 13 then 4 + RawInt(buf, p)
    else if t == 5 then 5 + RawInt(buf, p)
    else if t == 3 || t == 4 || t == 15 then RawInt(buf, p)
    else if t == 12 then 4 + 12 + RawInt(buf, p)
    else if t == 11 then
      var n := StrLen(buf, p) + 1;
      if p + n > |buf| then -1 else n + StrLen(buf, p + n) + 1
    else -1
  }

  lemma RawIntIs(buf: seq<byte>, p: nat, n: nat, tail: seq<byte>)
    requires At(buf, p, EncLen(n) + tail) && n <= INT32_MAX
    ensures p + 4 <= |buf| && RawInt(buf, p) == n
    ensures At(buf, p + 4, tail)
  {
    AtSplit(buf, p, EncLen(n), tail);
    EncLenRoundTrip(n);
  }

  lemma StringSize(buf: seq<byte>, p: nat, s: seq<byte>)
    requires At(buf, p, EncString(s)) && |s| + 1 <= INT32_MAX
    ensures p + 4 <= |buf| && 4 + RawInt(buf, p) == |EncString(s)|
  {
    RawIntIs(buf, p, |s| + 1, s + [0]);
  }

  lemma FramedSize(buf: seq<byte>, p: nat, body: seq<byte>)
    requires At(buf, p, Framed(body)) && |body| + 5 <= INT32_MAX
    ensures p + 4 <= |buf| && RawInt(buf, p) == |Framed(body)|
  {
    RawIntIs(buf, p, |body| + 5, body + [0]);
  }

  lemma BinarySize(buf: seq<byte>, p: nat, v: Value)
    requires v.Binary? && At(buf, p, Payload(v)) && |Payload(v)| <= INT32_MAX
    ensures p + 4 <= |buf| && 5 + RawInt(buf, p) == |Payload(v)|
  {
    if v.subtype == BIN_OLD {
      RawIntIs(buf, p, |v.data| + 4, [v.subtype] + (EncLen(|v.data|) + v.data));
    } else {
      RawIntIs(buf, p, |v.data|, [v.subtype] + v.data);
    }
  }

  lemma CodeWScopeSize(buf: seq<byte>, p: nat, s: seq<byte>, body: seq<byte>)
    requires At(buf, p, EncLen(8 + |s| + 1 + |body| + 5) + (EncString(s) + Framed(body)))
    requires 8 + |s| + 1 + |body| + 5 <= INT32_MAX
    ensures p + 4 <= |buf| && RawInt(buf, p) == 4 + |EncString(s)| + |Framed(body)|
  {
    RawIntIs(buf, p, 8 + |s| + 1 + |body| + 5, EncString(s) + Framed(body));
  }

  lemma RegexSize(buf: seq<byte>, p: nat, pattern: CString, opts: CString)
    requires At(buf, p, (pattern + [0]) + (opts + [0]))
    ensures StrLen(buf, p) == |pattern| && StrLen(buf, p + |pattern| + 1) == |opts|
  {
    AtSplit(buf, p, pattern + [0], opts + [0]);
    StrLenIs(buf, p, pattern);
    StrLenIs(buf, p + |pattern| + 1, opts);
  }

  lemma PrefixedSizeIs(buf: seq<byte>, p: nat, v: Value)
    requires HasLength(TypeCode(v)) && At(buf, p, Payload(v)) && |Payload(v)| <= INT32_MAX
    ensures p + 4 <= |buf| && ValueSize(buf, TypeCode(v), p) == |Payload(v)|
  {
    hide EncLen, Body, RawInt, StrLen, At;
    match v
    case Str(s) => StringSize(buf, p, s);
    case Code(s) => StringSize(buf, p, s);
    case Symbol(s) => StringSize(buf, p, s);
    case Document(es) => FramedSize(buf, p, Body(es));
    case Array(es) => FramedSize(buf, p, Body(es));
    case Binary(_, _) => BinarySize(buf, p, v);
    case CodeWScope(s, scope) => CodeWScopeSize(buf, p, s, Body(scope));
  }

  // Every type the builder can append is stepped over by exactly its encoded length.
  lemma ValueSizeIs(buf: seq<byte>, p: nat, v: Value)
    requires At(buf, p, Payload(v)) && |Payload(v)| <= INT32_MAX
    ensures HasLength(TypeCode(v)) ==> p + 4 <= |buf|
    ensures ValueSize(buf, TypeCode(v), p) == |Payload(v)|
  {
    hide EncLen, Body, RawInt, StrLen;
    if HasLength(TypeCode(v)) {
      PrefixedSizeIs(buf, p, v);
    } else if v.Regex? {
      RegexSize(buf, p, v.pattern, v.opts);
    }
  }

  lemma FirstAt(buf: seq<byte>, p: nat, t: byte)
    requires At(buf, p, [t])
    ensures p < |buf| && buf[p] == t
  {
    assert buf[p] == buf[p..p + 1][0];
  }

  // The type byte, the name and the value of an element, found where the accessors look.
  lemma ElemLayout(buf: seq<byte>, p: nat, e: Elem)
    requires At(buf, p, EncElem(e))
    ensures p + 2 + |e.name| <= |buf| && buf[p] == TypeCode(e.value)
    ensures StrLen(buf, p + 1) == |e.name| && buf[p + 1..p + 1 + |e.name|] == e.name
    ensures At(buf, p + 2 + |e.name|, Payload(e.value))
  {
    hide TypeCode, Payload, StrLen, At;
    var t := TypeCode(e.value);
    AtSplit(buf, p, Header(t, e.name), Payload(e.value));
    AtSplit(buf, p, [t], e.name + [0]);
    FirstAt(buf, p, t);
    StrLenIs(buf, p + 1, e.name);
    AtSplit(buf, p + 1, e.name, [0]);
    NameAt(buf, p + 1, e.name);
  }

  lemma NameAt(buf: seq<byte>, p: nat, name: CString)
    requires At(buf, p, name) && At(buf, p + |name|, [0])
    ensures p + 1 + |name| <= |buf| && buf[p..p + |name|] == name
  {
  }

  class Iterator {
    const buf: seq<byte>
    var cur: nat
    var first: bool
    // The elements from cur to the terminator.
    ghost var rest: seq<Elem>

    ghost predicate Valid()
      reads this
    {
      At(buf, cur, Body(rest) + [0]) && |Body(rest)| <= INT32_MAX
    }

    // bson_iterator_from_buffer: buffer points at a finished document.
    constructor (buf: seq<byte>, base: nat, ghost es: seq<Elem>)
      requires At(buf, base, EncDoc(es)) && Sized(es)
      ensures Valid() && first && rest == es && this.buf == buf && cur == base + 4
    {
      this.buf := buf;
      cur := base + 4;
      first := true;
      rest := es;
      AtSplit(buf, base, EncLen(|Body(es)| + 5), Body(es) + [0]);
    }

    // A C struct copy.
    constructor Copy(it: Iterator)
      requires it.Valid()
      ensures Valid() && buf == it.buf && cur == it.cur && first == it.first && rest == it.rest
    {
      buf := it.buf;
      cur, first, rest := it.cur, it.first, it.rest;
    }

    function Type(): (t: byte)
      requires Valid()
      reads this
      ensures t == if rest == [] then 0 else TypeCode(rest[0].value)
    {
      Here();
      buf[cur]
    }

    function KeyLength(): (n: nat)
      requires Valid() && rest != []
      reads this
      ensures n == |rest[0].name|
    {
      Here();
      StrLen(buf, cur + 1)
    }

    function Key(): (k: CString)
      requires Valid() && rest != []
      reads this
      ensures k == rest[0].name
    {
      Here();
      buf[cur + 1..cur + 1 + StrLen(buf, cur + 1)]
    }

    function ValuePos(): (p: nat)
      requires Valid() && rest != []
      reads this
      ensures At(buf, p, Payload(rest[0].value)) && p == cur + 2 + |rest[0].name|
    {
      Here();
      cur + 1 + KeyLength() + 1
    }

    // What stands at the current position.
    lemma Here()
      requires Valid()
      ensures cur < |buf|
      ensures rest == [] ==> buf[cur] == 0
      ensures rest != [] ==>
                && cur + 2 + |rest[0].name| <= |buf| && buf[cur] == TypeCode(rest[0].value)
                && StrLen(buf, cur + 1) == |rest[0].name| && buf[cur + 1..cur + 1 + |rest[0].name|] == rest[0].name
                && At(buf, cur + 2 + |rest[0].name|, Payload(rest[0].value))
    {
      hide EncElem, Payload;
      if rest == [] {
        assert buf[cur] == buf[cur..cur + 1][0];
      } else {
        Step();
        ElemLayout(buf, cur, rest[0]);
      }
    }

    // One element further.
    lemma Step()
      requires Valid() && rest != []
      ensures At(buf, cur, EncElem(rest[0]))
      ensures At(buf, cur + |EncElem(rest[0])|, Body(rest[1..]) + [0])
      ensures |Body(rest)| == |EncElem(rest[0])| + |Body(rest[1..])|
      ensures |EncElem(rest[0])| == 2 + |rest[0].name| + |Payload(rest[0].value)|
    {
      hide EncElem, At;
      assert Body(rest) + [0] == EncElem(rest[0]) + (Body(rest[1..]) + [0]);
      AtSplit(buf, cur, EncElem(rest[0]), Body(rest[1..]) + [0]);
      ElemSize(rest[0]);
    }

    method Next() returns (t: byte)
      requires Valid()
      modifies this
      ensures Valid() && !first
      ensures old(first) || old(rest) == [] ==> cur == old(cur) && rest == old(rest)
      ensures !old(first) && old(rest) != [] ==> cur == old(cur) + |EncElem(old(rest)[0])| && rest == old(rest)[1..]
      ensures t == if rest == [] then 0 else TypeCode(rest[0].value)
    {
      hide EncLen, Body, RawInt, StrLen, Payload, ValueSize;
      if first {
        first := false;
        return Type();
      }
      var here := Type();
      if here == 0 {
        return 0;
      }
      Step();
      var p := ValuePos();
      ValueSizeIs(buf, p, rest[0].value);
      var ds := ValueSize(buf, here, p);
      cur, rest := cur + 1 + KeyLength() + 1 + ds, rest[1..];
      t := Type();
    }
  }

  // bson_find stops at the first element of that name, or at the terminator.
  method Find(buf: seq<byte>, base: nat, name: CString, ghost es: seq<Elem>) returns (t: byte, it: Iterator)
    requires At(buf, base, EncDoc(es)) && Sized(es)
    ensures fresh(it) && it.Valid() && it.buf == buf
    ensures exists i :: 0 <= i <= |es| && it.rest == es[i..] && (forall j :: 0 <= j < i ==> es[j].name != name)
                        && it.cur == base + 4 + |Body(es[..i])|
                        && if i < |es| then es[i].name == name && t == TypeCode(es[i].value) else t == 0
  {
    it := new Iterator(buf, base, es);
    var next := it.Next();
    ghost var i := 0;
    assert es[0..] == es && es[..0] == [];
    while next != 0
      invariant it.Valid() && it.buf == buf && !it.first
      invariant 0 <= i <= |es| && it.rest == es[i..]
      invariant it.cur == base + 4 + |Body(es[..i])|
      invariant forall j :: 0 <= j < i ==> es[j].name != name
      invariant next == if it.rest == [] then 0 else TypeCode(it.rest[0].value)
      decreases |it.rest|
    {
      if it.Key() == name {
        break;
      }
      BodySnoc(es[..i], es[i]);
      assert es[..i + 1] == es[..i] + [es[i]];
      next := it.Next();
      i := i + 1;
    }
    t := it.Type();
  }
}

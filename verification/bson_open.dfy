// What any run of builder calls has written at any moment, documents still open included, and what bson_finish makes of
// it.
module BsonOpen {
  import opened Bytes
  import opened BsonFormat
  import opened BsonIterator
  import opened BsonSpec
  import opened BsonRuns
  import opened BsonTrees

  // The start call that opened a document.
  datatype Head = Head(name: CString, isArray: bool)

  // The elements written so far, level by level, and what opened each level but the first.
  datatype Shape = Shape(docs: seq<seq<Elem>>, heads: seq<Head>)

  type Reading = s: Shape | |s.docs| == |s.heads| + 1 witness Shape([[]], [])

  const NOTHING: Reading := Shape([[]], [])

  function With(docs: seq<seq<Elem>>, e: Elem): (r: seq<seq<Elem>>)
    requires docs != []
    ensures |r| == |docs|
  {
    docs[|docs| - 1 := docs[|docs| - 1] + [e]]
  }

  // The reading of one more call: closing turns the innermost level into an element of the one around it.
  function ReadOne(s: Reading, op: Op): Reading {
    var n := |s.heads|;
    match op
    case Append(name, v) => Shape(With(s.docs, Elem(name, v)), s.heads)
    case Start(name, isArray) => Shape(s.docs + [[]], s.heads + [Head(name, isArray)])
    case Close =>
      if n == 0 then s
      else
        var h := s.heads[n - 1];
        Shape(With(s.docs[..n], Elem(h.name, if h.isArray then Array(s.docs[n]) else Document(s.docs[n]))),
            s.heads[..n - 1])
  }

  function Read(s: Reading, ops: seq<Op>): Reading
    decreases |ops|
  {
    if ops == [] then s else Read(ReadOne(s, ops[0]), ops[1..])
  }

  function HeadBytes(h: Head): seq<byte> {
    Header(if h.isArray then 4 else 3, h.name)
  }

  // Every level holds the encoding of its elements and, unless it is the innermost, the header of the next.
  predicate Shows(levels: seq<seq<byte>>, s: Reading) {
    && |levels| == |s.docs|
    && levels[|s.heads|] == Body(s.docs[|s.heads|])
    && forall i :: 0 <= i < |s.heads| ==> levels[i] == Body(s.docs[i]) + HeadBytes(s.heads[i])
  }

  // ---- One call

  lemma AddShows(st: State, s: Reading, e: Elem)
    requires st.Open() && Shows(st.levels, s)
    ensures Shows(st.Add(EncElem(e)).levels, Shape(With(s.docs, e), s.heads))
  {
    BodySnoc(s.docs[|s.heads|], e);
  }

  lemma StartShows(st: State, s: Reading, name: CString, isArray: bool)
    requires st.Open() && Shows(st.levels, s) && Try(st, Start(name, isArray)).1
    ensures Shows(Step(st, Start(name, isArray)).levels, ReadOne(s, Start(name, isArray)))
  {
    hide StartElement, Header;
    StartElementEffect(st, if isArray then 4 else 3, name, 5);
  }

  lemma CloseShows(st: State, s: Reading)
    requires st.Open() && !st.finished && Shows(st.levels, s) && Try(st, Close).1
    ensures Shows(Step(st, Close).levels, ReadOne(s, Close))
  {
    hide Flat, Framed, Body, Header;
    var n := |s.heads|;
    var h, body := s.heads[n - 1], Body(s.docs[n]);
    var e := Elem(h.name, if h.isArray then Array(s.docs[n]) else Document(s.docs[n]));
    assert EncElem(e) == HeadBytes(h) + Framed(body);
    BodySnoc(s.docs[n - 1], e);
    assert Body(s.docs[n - 1]) + HeadBytes(h) + Framed(body) == Body(s.docs[n - 1]) + (HeadBytes(h) + Framed(body));
  }

  // A call that succeeds is read; one that is refused changes nothing, but for the header that a regex may leave.
  lemma CallShows(st: State, s: Reading, op: Op)
    requires st.Open() && !st.finished && Shows(st.levels, s)
    ensures Try(st, op).1 ==> Shows(Step(st, op).levels, ReadOne(s, op))
    ensures !Try(st, op).1 && !Dangles(st, op) ==> Step(st, op).levels == st.levels
  {
    hide StartElement, EncElem, Header, Flat, Framed;
    match op
    case Append(name, v) =>
      if v.Regex? {
        AppendRegexOutcome(st, name, v);
      } else {
        AppendIsAllOrNothing(st, name, v);
      }
      AddShows(st, s, Elem(name, v));
    case Start(name, isArray) =>
      StartElementEffect(st, if isArray then 4 else 3, name, 5);
      if Try(st, op).1 {
        StartShows(st, s, name, isArray);
      }
    case Close =>
      if Try(st, op).1 {
        CloseShows(st, s);
      }
  }

  // A regex whose header is written before its pattern is refused.
  predicate Dangles(st: State, op: Op)
    requires st.Open()
  {
    op.Append? && op.value.Regex? && !Try(st, op).1
        && StartElement(st, TypeCode(op.value), op.name, |Payload(op.value)|).1
  }

  // ---- A run

  // The calls of a run that succeed.
  function Kept(st: State, ops: seq<Op>): seq<Op>
    requires st.Open()
    decreases |ops|
  {
    if ops == [] then []
    else (if Try(st, ops[0]).1 then [ops[0]] else []) + Kept(Step(st, ops[0]), ops[1..])
  }

  predicate Tidy(st: State, ops: seq<Op>)
    requires st.Open()
    decreases |ops|
  {
    ops == [] || (!Dangles(st, ops[0]) && Tidy(Step(st, ops[0]), ops[1..]))
  }

  // At every moment of every run, whatever is still open: what is written is the reading of the calls that succeeded.
  lemma {:induction false} RunShows(st: State, s: Reading, ops: seq<Op>)
    requires st.Open() && !st.finished && Shows(st.levels, s) && Tidy(st, ops)
    ensures Shows(Run(st, ops).levels, Read(s, Kept(st, ops)))
    decreases |ops|
  {
    hide Try, Step, Dangles, Shows, ReadOne;
    if ops != [] {
      var op, rest := ops[0], Kept(Step(st, ops[0]), ops[1..]);
      CallShows(st, s, op);
      StepKeepsFinished(st, op);
      if Try(st, op).1 {
        assert ([op] + rest)[1..] == rest;
        RunShows(Step(st, op), ReadOne(s, op), ops[1..]);
      } else {
        SameLevels(st.levels, Step(st, op).levels, s);
        RunShows(Step(st, op), s, ops[1..]);
        assert [] + rest == rest;
      }
    }
  }

  lemma SameLevels(a: seq<seq<byte>>, b: seq<seq<byte>>, s: Reading)
    requires a == b && Shows(a, s)
    ensures Shows(b, s)
  {
  }

  lemma {:induction false} SuccessIsTidy(st: State, ops: seq<Op>)
    requires st.Open() && AllSucceed(st, ops)
    ensures Tidy(st, ops) && Kept(st, ops) == ops
    decreases |ops|
  {
    hide Try, Step;
    if ops != [] {
      SuccessIsTidy(Step(st, ops[0]), ops[1..]);
      assert [ops[0]] + ops[1..] == ops;
    }
  }

  // A run in which no call is refused.
  lemma OpenLevels(cap: nat, ops: seq<Op>)
    requires AllSucceed(InitialState(cap), ops)
    ensures Shows(Run(InitialState(cap), ops).levels, Read(NOTHING, ops))
  {
    hide Run, AllSucceed, Read;
    SuccessIsTidy(InitialState(cap), ops);
    assert Shows(InitialState(cap).levels, NOTHING);
    RunShows(InitialState(cap), NOTHING, ops);
  }

  // The calls of a document read as that document, from any point on.
  function WithAll(s: Reading, es: seq<Elem>): Reading {
    Shape(s.docs[|s.heads| := s.docs[|s.heads|] + es], s.heads)
  }

  lemma AddAllTwice(s: Reading, a: seq<Elem>, b: seq<Elem>)
    ensures WithAll(WithAll(s, a), b) == WithAll(s, a + b)
  {
    assert s.docs[|s.heads|] + a + b == s.docs[|s.heads|] + (a + b);
  }

  lemma {:induction false} CallsRead(s: Reading, es: seq<Elem>, rest: seq<Op>)
    ensures Read(s, Calls(es) + rest) == Read(WithAll(s, es), rest)
    decreases es
  {
    hide Read, CallsFor;
    if es == [] {
      assert Calls(es) + rest == rest;
      assert s.docs[|s.heads|] + es == s.docs[|s.heads|] && WithAll(s, es).docs == s.docs;
    } else {
      assert Calls(es) + rest == CallsFor(es[0]) + (Calls(es[1..]) + rest);
      ElementReads(s, es[0], Calls(es[1..]) + rest);
      CallsRead(WithAll(s, [es[0]]), es[1..], rest);
      assert es == [es[0]] + es[1..];
      AddAllTwice(s, [es[0]], es[1..]);
    }
  }

  lemma {:induction false} ElementReads(s: Reading, e: Elem, rest: seq<Op>)
    ensures Read(s, CallsFor(e) + rest) == Read(WithAll(s, [e]), rest)
    decreases e
  {
    hide Read, Calls;
    var ops := CallsFor(e) + rest;
    if e.value.Document? || e.value.Array? {
      var start, body := Start(e.name, e.value.Array?), Calls(e.value.es);
      var inner := ReadOne(s, start);
      assert ops[1..] == body + ([Close] + rest);
      ReadFirst(s, ops);
      CallsRead(inner, e.value.es, [Close] + rest);
      var filled := WithAll(inner, e.value.es);
      ReadFirst(filled, [Close] + rest);
      assert ([Close] + rest)[1..] == rest;
      assert filled.docs[..|s.docs|] == s.docs && [] + e.value.es == e.value.es;
    } else {
      ReadFirst(s, ops);
      assert ops[1..] == rest;
    }
  }

  lemma ReadFirst(s: Reading, ops: seq<Op>)
    requires ops != []
    ensures Read(s, ops) == Read(ReadOne(s, ops[0]), ops[1..])
  {
    hide ReadOne;
  }

  // ---- Bytes behind an open header are no document

  // The bytes tell how long the first element is.
  lemma SizeFromBytes(buf: seq<byte>, e: Elem)
    requires At(buf, 0, EncElem(e)) && |EncElem(e)| <= INT32_MAX
    ensures |buf| >= 2
    ensures var p := 2 + StrLen(buf, 1);
            p <= |buf| && (HasLength(buf[0]) ==> p + 4 <= |buf|) && |EncElem(e)| == p + ValueSize(buf, buf[0], p)
  {
    hide EncElem, Payload, ValueSize, StrLen, TypeCode;
    ElemLayout(buf, 0, e);
    ElemSize(e);
    ValueSizeIs(buf, 2 + |e.name|, e.value);
  }

  lemma FirstElement(e: Elem, x: seq<byte>, f: Elem, y: seq<byte>)
    requires EncElem(e) + x == EncElem(f) + y && |EncElem(e)| <= INT32_MAX && |EncElem(f)| <= INT32_MAX
    ensures |EncElem(e)| == |EncElem(f)| && x == y
  {
    hide EncElem, ValueSize, StrLen, At;
    var buf := EncElem(e) + x;
    Prefix(EncElem(e), x);
    Prefix(EncElem(f), y);
    SizeFromBytes(buf, e);
    SizeFromBytes(buf, f);
    assert x == buf[|EncElem(e)|..] && y == buf[|EncElem(f)|..];
  }

  lemma ZeroPrefix(buf: seq<byte>, p: nat)
    requires At(buf, p, PLACEHOLDER)
    ensures p + 4 <= |buf| && RawInt(buf, p) == 0
  {
    assert Reverse(PLACEHOLDER) == PLACEHOLDER;
    assert FromLittleEndian([0, 0, 0, 0]) == 0 by {
      assert FromLittleEndian([0, 0]) == 0;
      assert [0, 0, 0, 0][1..] == [0, 0, 0] && [0, 0, 0][1..] == [0, 0];
    }
  }

  // No element starts with the header of a document and a zero prefix.
  lemma OpenIsNoElement(h: Head, buf: seq<byte>, e: Elem)
    requires At(buf, 0, HeadBytes(h) + PLACEHOLDER) && |EncElem(e)| <= INT32_MAX
    ensures !At(buf, 0, EncElem(e))
  {
    hide EncElem, ValueSize, StrLen, At, RawInt, Payload;
    var t: byte := if h.isArray then 4 else 3;
    AtSplit(buf, 0, HeadBytes(h), PLACEHOLDER);
    AtSplit(buf, 0, [t], h.name + [0]);
    FirstAt(buf, 0, t);
    StrLenIs(buf, 1, h.name);
    ZeroPrefix(buf, 2 + |h.name|);
    DocumentSize(buf, 2 + |h.name|, t);
    if At(buf, 0, EncElem(e)) {
      LongEnough(buf, e);
      SizeFromBytes(buf, e);
    }
  }

  lemma LongEnough(buf: seq<byte>, e: Elem)
    requires At(buf, 0, EncElem(e))
    ensures |buf| >= 2 && (buf[0] == 3 || buf[0] == 4 ==> |EncElem(e)| >= 7 + StrLen(buf, 1))
  {
    hide Payload, StrLen;
    ElemLayout(buf, 0, e);
    ElemSize(e);
    DocumentPayload(e.value);
  }

  lemma DocumentPayload(v: Value)
    ensures TypeCode(v) == 3 || TypeCode(v) == 4 ==> |Payload(v)| >= 5
  {
  }

  lemma Prefix(a: seq<byte>, b: seq<byte>)
    ensures At(a + b, 0, a)
  {
  }

  lemma DocumentSize(buf: seq<byte>, p: nat, t: byte)
    requires p + 4 <= |buf| && (t == 3 || t == 4)
    ensures ValueSize(buf, t, p) == RawInt(buf, p)
  {
  }

  lemma {:induction false} OpenIsNoBody(done: seq<Elem>, h: Head, rest: seq<byte>, es: seq<Elem>)
    requires |Body(es)| <= INT32_MAX
    ensures Body(done) + (HeadBytes(h) + (PLACEHOLDER + rest)) != Body(es)
  {
    hide EncElem, HeadBytes;
    var tail := HeadBytes(h) + (PLACEHOLDER + rest);
    if Body(done) + tail == Body(es) {
      if done == [] {
        assert Body(done) + tail == tail && |tail| >= 4;
        Prefix(HeadBytes(h) + PLACEHOLDER, rest);
        assert HeadBytes(h) + PLACEHOLDER + rest == tail;
        Prefix(EncElem(es[0]), Body(es[1..]));
        OpenIsNoElement(h, tail, es[0]);
      } else {
        assert Body(done) + tail == EncElem(done[0]) + (Body(done[1..]) + tail);
        FirstElement(done[0], Body(done[1..]) + tail, es[0], Body(es[1..]));
        OpenIsNoBody(done[1..], h, rest, es[1..]);
      }
    }
  }

  lemma {:induction false} FlatStarts(levels: seq<seq<byte>>) returns (rest: seq<byte>)
    requires |levels| >= 2
    ensures Flat(levels) == levels[0] + (PLACEHOLDER + rest)
    decreases |levels|
  {
    var n := |levels| - 1;
    assert levels[..n][0] == levels[0];
    if n == 1 {
      rest := levels[1];
    } else {
      var r := FlatStarts(levels[..n]);
      rest := r + PLACEHOLDER + levels[n];
      assert levels[0] + (PLACEHOLDER + r) + PLACEHOLDER + levels[n] == levels[0] + (PLACEHOLDER + rest);
    }
  }

  // ---- bson_finish

  // The finished bytes are the encoding of a document if and only if no subobject is open, and then they are that of
  // the elements read. With one open they keep its zero prefix.
  lemma FinishedExactly(st: State, s: Reading)
    requires st.Open() && !st.finished && Shows(st.levels, s) && Finish(st).1
    ensures Finish(st).0.doc == Framed(Flat(st.levels))
    ensures s.heads == [] ==> Finish(st).0.doc == EncDoc(s.docs[0])
    ensures (exists es :: Finish(st).0.doc == EncDoc(es)) <==> s.heads == []
  {
    hide Body, HeadBytes, EncLen;
    var doc := Finish(st).0.doc;
    assert doc == Framed(Flat(st.levels)) && |doc| <= INT32_MAX;
    if s.heads == [] {
      assert Flat(st.levels) == st.levels[0];
      assert doc == EncDoc(s.docs[0]);
    } else {
      var rest := FlatStarts(st.levels);
      forall es ensures doc != EncDoc(es) {
        if doc == EncDoc(es) {
          UnframedEqual(Flat(st.levels), Body(es));
          assert Body(s.docs[0]) + HeadBytes(s.heads[0]) + (PLACEHOLDER + rest)
              == Body(s.docs[0]) + (HeadBytes(s.heads[0]) + (PLACEHOLDER + rest));
          OpenIsNoBody(s.docs[0], s.heads[0], rest, es);
        }
      }
    }
  }

  lemma UnframedEqual(a: seq<byte>, b: seq<byte>)
    requires Framed(a) == Framed(b)
    ensures a == b
  {
    hide EncLen;
    assert |Framed(a)| == |a| + 5 && |Framed(b)| == |b| + 5;
    assert Framed(a)[4..4 + |a|] == a && Framed(b)[4..4 + |b|] == b;
  }

  lemma FinishedRun(cap: nat, ops: seq<Op>)
    requires AllSucceed(InitialState(cap), ops)
    requires Finish(Run(InitialState(cap), ops)).1
    ensures var doc, s := Finish(Run(InitialState(cap), ops)).0.doc, Read(NOTHING, ops);
            && (s.heads == [] ==> doc == EncDoc(s.docs[0]))
            && ((exists es :: doc == EncDoc(es)) <==> s.heads == [])
  {
    hide Run, AllSucceed, Read, Shows, Finish;
    OpenLevels(cap, ops);
    NotFinished(InitialState(cap), ops);
    FinishedExactly(Run(InitialState(cap), ops), Read(NOTHING, ops));
  }
}

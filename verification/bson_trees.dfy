// Writing a whole document with the builder calls, and when that succeeds.
module BsonTrees {
  import opened Bytes
  import opened Utf8
  import opened BsonFormat
  import opened BsonSpec
  import opened BsonRuns

  // The builder calls that write an element: nested documents are opened and closed.
  function CallsFor(e: Elem): (ops: seq<Op>)
    decreases e
  {
    match e.value
    case Document(es) => [Start(e.name, false)] + Calls(es) + [Close]
    case Array(es) => [Start(e.name, true)] + Calls(es) + [Close]
    case _ => [Append(e.name, e.value)]
  }

  function Calls(es: seq<Elem>): (ops: seq<Op>)
    decreases es
  {
    if es == [] then [] else CallsFor(es[0]) + Calls(es[1..])
  }

  lemma {:induction false} AllSucceedConcat(st: State, a: seq<Op>, b: seq<Op>)
    requires st.Open()
    ensures AllSucceed(st, a + b) <==> AllSucceed(st, a) && AllSucceed(Run(st, a), b)
    decreases |a|
  {
    hide Try, Step;
    if a == [] {
      assert a + b == b;
    } else {
      assert (a + b)[1..] == a[1..] + b;
      AllSucceedConcat(Step(st, a[0]), a[1..], b);
    }
  }

  // The levels after writing an element.
  predicate Wrote(st: State, st': State, bytes: seq<byte>)
    requires st.Open()
  {
    st'.levels == st.Add(bytes).levels
  }

  lemma OneCall(st: State, op: Op)
    requires st.Open()
    ensures Run(st, [op]) == Step(st, op)
    ensures AllSucceed(st, [op]) <==> Try(st, op).1
  {
    hide Try, Step;
    assert [op][1..] == [];
    assert Run(Step(st, op), []) == Step(st, op);
  }

  lemma {:induction false} NotFinished(st: State, ops: seq<Op>)
    requires st.Open() && !st.finished
    ensures !Run(st, ops).finished
    decreases |ops|
  {
    hide Try, Step;
    if ops != [] {
      StepKeepsFinished(st, ops[0]);
      NotFinished(Step(st, ops[0]), ops[1..]);
    }
  }

  // Open, write the body, close: the parent gains the header and the framed body.
  lemma Nested(st: State, name: CString, isArray: bool, body: seq<byte>, inner: State)
    requires st.Open()
    requires Try(st, Start(name, isArray)).1
    requires Wrote(Step(st, Start(name, isArray)), inner, body)
    requires inner.Open() && !inner.finished && Try(inner, Close).1
    ensures Wrote(st, Step(inner, Close), Header(if isArray then 4 else 3, name) + Framed(body))
  {
    hide StartElement, Header, Framed, Flat;
    var t: byte := if isArray then 4 else 3;
    StartElementEffect(st, t, name, 5);
    var headed := st.Add(Header(t, name));
    assert inner.levels == headed.levels + [[] + body];
    assert [] + body == body;
    assert inner.levels[..|headed.levels|] == headed.levels;
    AddTwice(st, Header(t, name), Framed(body));
  }

  // If no call of the run is refused, the bytes written are the encoding of the document.
  lemma {:induction false} ElementCallsWrite(st: State, e: Elem)
    requires st.Open() && AllSucceed(st, CallsFor(e))
    ensures Wrote(st, Run(st, CallsFor(e)), EncElem(e))
    decreases e
  {
    hide Try, Step, Payload, Header;
    match e.value
    case Document(es) => NestedCallsWrite(st, e, es, false);
    case Array(es) => NestedCallsWrite(st, e, es, true);
    case _ =>
      OneCall(st, Append(e.name, e.value));
      ScalarCallWrites(st, e);
  }

  lemma ScalarCallWrites(st: State, e: Elem)
    requires st.Open() && Try(st, Append(e.name, e.value)).1
    ensures Wrote(st, Step(st, Append(e.name, e.value)), EncElem(e))
  {
    if e.value.Regex? {
      AppendRegexOutcome(st, e.name, e.value);
    } else {
      AppendIsAllOrNothing(st, e.name, e.value);
    }
  }

  lemma StartNeedsUnfinished(st: State, start: Op)
    requires start.Start? && st.Open() && Try(st, start).1
    ensures !st.finished && !Step(st, start).finished
  {
    hide Scan, Flat, Flagged, Header;
  }

  lemma {:induction false} NestedCallsWrite(st: State, e: Elem, es: seq<Elem>, isArray: bool)
    requires e.value == if isArray then Array(es) else Document(es)
    requires st.Open() && AllSucceed(st, CallsFor(e))
    ensures Wrote(st, Run(st, CallsFor(e)), EncElem(e))
    decreases e, 0
  {
    hide Try, Step, Header, Framed;
    var start := Start(e.name, isArray);
    AllSucceedConcat(st, [start] + Calls(es), [Close]);
    AllSucceedConcat(st, [start], Calls(es));
    RunConcat(st, [start] + Calls(es), [Close]);
    RunConcat(st, [start], Calls(es));
    OneCall(st, start);
    var begun := Step(st, start);
    var inner := Run(begun, Calls(es));
    OneCall(inner, Close);
    StartNeedsUnfinished(st, start);
    NotFinished(begun, Calls(es));
    CallsWrite(begun, es);
    Nested(st, e.name, isArray, Body(es), inner);
  }

  lemma {:induction false} CallsWrite(st: State, es: seq<Elem>)
    requires st.Open() && AllSucceed(st, Calls(es))
    ensures Wrote(st, Run(st, Calls(es)), Body(es))
    decreases es
  {
    hide Try, Step, CallsFor, EncElem;
    if es == [] {
      assert st.levels[|st.levels| - 1] + [] == st.levels[|st.levels| - 1];
    } else {
      AllSucceedConcat(st, CallsFor(es[0]), Calls(es[1..]));
      RunConcat(st, CallsFor(es[0]), Calls(es[1..]));
      ElementCallsWrite(st, es[0]);
      var next := Run(st, CallsFor(es[0]));
      CallsWrite(next, es[1..]);
      AddTwice(st, EncElem(es[0]), Body(es[1..]));
    }
  }

  // ---- When no call is refused: clean text, and room for the document plus its largest request.

  predicate CleanValue(v: Value)
    decreases v
  {
    match v
    case Str(s) => Accepts(s)
    case Code(s) => Accepts(s)
    case Symbol(s) => Accepts(s)
    case Regex(pattern, _) => Accepts(pattern)
    case Document(es) => Clean(es)
    case Array(es) => Clean(es)
    case _ => true
  }

  predicate Clean(es: seq<Elem>)
    decreases es
  {
    es == [] || (Accepts(es[0].name) && CleanValue(es[0].value) && Clean(es[1..]))
  }

  function Max(a: nat, b: nat): nat {
    if a < b then b else a
  }

  // The largest request that writing an element makes to bson_ensure_space.
  function LargestFor(e: Elem): nat
    decreases e
  {
    match e.value
    case Document(es) => Max(|e.name| + 7, Largest(es))
    case Array(es) => Max(|e.name| + 7, Largest(es))
    case _ => |EncElem(e)|
  }

  function Largest(es: seq<Elem>): (n: nat)
    ensures n >= 1
    decreases es
  {
    if es == [] then 1 else Max(LargestFor(es[0]), Largest(es[1..]))
  }

  // Room for todo more bytes, whatever the capacity has become, with no request above largest.
  predicate Ready(st: State, todo: nat, largest: nat) {
    && st.Open() && !st.finished && st.ownsData && !NonUtf8(st.err)
    && largest >= 1 && st.Position() + todo + largest <= INT32_MAX
  }

  lemma {:induction false} FlatAdd(st: State, bytes: seq<byte>)
    requires st.Open()
    ensures st.Add(bytes).Position() == st.Position() + |bytes|
  {
    var n := |st.levels| - 1;
    assert st.Add(bytes).levels[..n] == st.levels[..n];
  }

  lemma FlatPush(st: State)
    requires st.Open()
    ensures st.(levels := st.levels + [[]]).Position() == st.Position() + 4
  {
    assert (st.levels + [[]])[..|st.levels|] == st.levels;
  }

  lemma AcceptedName(err: Err, s: seq<byte>, checkDot: bool, checkDollar: bool)
    requires Accepts(s) && !NonUtf8(err)
    ensures !Scan(s, 0, true, checkDot).notUtf8 && !NonUtf8(Flagged(err, s, true, checkDot, checkDollar))
  {
    ScanVerdict(s, 0, checkDot);
  }

  // Looking for dots does not change what is accepted.
  lemma ScanVerdict(s: seq<byte>, p: nat, checkDot: bool)
    ensures Scan(s, p, true, checkDot).notUtf8 == Scan(s, p, true, false).notUtf8
    decreases |s| - p
  {
  }

  lemma StartElementSucceeds(st: State, t: byte, name: CString, extra: nat, largest: nat)
    requires Accepts(name) && 2 + |name| + extra <= largest && Ready(st, 2 + |name| + extra, largest)
    ensures var r := StartElement(st, t, name, extra);
            r.1 && r.0.levels == st.Add(Header(t, name)).levels
            && !r.0.finished && r.0.ownsData && !NonUtf8(r.0.err)
  {
    hide Scan, Flat, Flagged, Header, NonUtf8;
    AcceptedName(st.err, name, true, true);
  }

  lemma {:induction false} ElementSucceeds(st: State, e: Elem, todo: nat, largest: nat)
    requires Accepts(e.name) && CleanValue(e.value) && LargestFor(e) <= largest
    requires Ready(st, |EncElem(e)| + todo, largest)
    ensures AllSucceed(st, CallsFor(e)) && Ready(Run(st, CallsFor(e)), todo, largest)
    decreases e
  {
    hide Try, Step, NonUtf8, Flat, Payload, Header;
    match e.value
    case Document(es) => NestedSucceeds(st, e, es, false, todo, largest);
    case Array(es) => NestedSucceeds(st, e, es, true, todo, largest);
    case _ =>
      OneCall(st, Append(e.name, e.value));
      ScalarSucceeds(st, e, largest);
      ScalarCallWrites(st, e);
      FlatAdd(st, EncElem(e));
  }

  lemma ScalarSucceeds(st: State, e: Elem, largest: nat)
    requires !e.value.Document? && !e.value.Array?
    requires Accepts(e.name) && CleanValue(e.value) && |EncElem(e)| <= largest
    requires Ready(st, |EncElem(e)|, largest)
    ensures var r := Try(st, Append(e.name, e.value));
            r.1 && !r.0.finished && r.0.ownsData && !NonUtf8(r.0.err)
  {
    hide StartElement, Scan, Flat, Flagged, Header, NonUtf8, EncLen, Body, TypeCode;
    var v := e.value;
    var checked := st;
    ElemSize(e);
    if v.Str? || v.Code? || v.Symbol? {
      AcceptedName(st.err, v.s, false, false);
      checked := st.(err := Flagged(st.err, v.s, true, false, false));
    }
    StartElementSucceeds(checked, TypeCode(v), e.name, |Payload(v)|, largest);
    if v.Regex? {
      AcceptedName(StartElement(st, TypeCode(v), e.name, |Payload(v)|).0.err, v.pattern, false, false);
    }
  }

  lemma {:induction false} NestedSucceeds(st: State, e: Elem, es: seq<Elem>, isArray: bool, todo: nat, largest: nat)
    requires e.value == if isArray then Array(es) else Document(es)
    requires Accepts(e.name) && Clean(es) && LargestFor(e) <= largest
    requires Ready(st, |EncElem(e)| + todo, largest)
    ensures AllSucceed(st, CallsFor(e)) && Ready(Run(st, CallsFor(e)), todo, largest)
    decreases e, 0
  {
    hide Try, Step, NonUtf8, Flat, Body, EncLen;
    var start := Start(e.name, isArray);
    var t: byte := if isArray then 4 else 3;
    StartElementSucceeds(st, t, e.name, 5, largest);
    StartSucceeds(st, start, largest);
    var begun := Step(st, start);
    CallsSucceed(begun, es, 1 + todo, largest);
    var inner := Run(begun, Calls(es));
    CallsWrite(begun, es);
    CloseSucceeds(inner, todo, largest);
    OneCall(st, start);
    OneCall(inner, Close);
    AllSucceedConcat(st, [start] + Calls(es), [Close]);
    AllSucceedConcat(st, [start], Calls(es));
    RunConcat(st, [start] + Calls(es), [Close]);
    RunConcat(st, [start], Calls(es));
    NestedCallsWrite(st, e, es, isArray);
    FlatAdd(st, EncElem(e));
  }

  lemma StartSucceeds(st: State, start: Op, largest: nat)
    requires start.Start? && Accepts(start.name)
    requires |start.name| + 7 <= largest && Ready(st, |start.name| + 7, largest)
    ensures var r := Try(st, start);
            r.1 && r.0.Open() && !r.0.finished && r.0.ownsData && !NonUtf8(r.0.err)
            && |r.0.levels| >= 2 && r.0.Position() == st.Position() + |start.name| + 6
  {
    hide StartElement, NonUtf8, Flat;
    var t: byte := if start.isArray then 4 else 3;
    StartElementSucceeds(st, t, start.name, 5, largest);
    FlatAdd(st, Header(t, start.name));
    FlatPush(st.Add(Header(t, start.name)));
  }

  lemma CloseSucceeds(st: State, todo: nat, largest: nat)
    requires Ready(st, 1 + todo, largest) && |st.levels| >= 2
    ensures var r := Try(st, Close);
            r.1 && r.0.Open() && !r.0.finished && r.0.ownsData && !NonUtf8(r.0.err)
  {
    hide NonUtf8, Flat, Framed;
  }

  lemma {:induction false} CallsSucceed(st: State, es: seq<Elem>, todo: nat, largest: nat)
    requires Clean(es) && Largest(es) <= largest && Ready(st, |Body(es)| + todo, largest)
    ensures AllSucceed(st, Calls(es)) && Ready(Run(st, Calls(es)), todo, largest)
    decreases es
  {
    hide Try, Step, CallsFor, EncElem, LargestFor, NonUtf8, Flat, CleanValue;
    if es != [] {
      AllSucceedConcat(st, CallsFor(es[0]), Calls(es[1..]));
      RunConcat(st, CallsFor(es[0]), Calls(es[1..]));
      ElementSucceeds(st, es[0], |Body(es[1..])| + todo, largest);
      CallsSucceed(Run(st, CallsFor(es[0])), es[1..], todo, largest);
    }
  }

  // Conversely, if no call was refused, no text was.
  lemma {:induction false} SuccessMeansClean(st: State, es: seq<Elem>)
    requires st.Open() && AllSucceed(st, Calls(es))
    ensures Clean(es)
    decreases es
  {
    hide Try, Step, CallsFor, Accepts, CleanValue;
    if es != [] {
      AllSucceedConcat(st, CallsFor(es[0]), Calls(es[1..]));
      ElementSuccessMeansClean(st, es[0]);
      SuccessMeansClean(Run(st, CallsFor(es[0])), es[1..]);
    }
  }

  lemma {:induction false} ElementSuccessMeansClean(st: State, e: Elem)
    requires st.Open() && AllSucceed(st, CallsFor(e))
    ensures Accepts(e.name) && CleanValue(e.value)
    decreases e
  {
    hide Try, Step, Payload;
    if e.value.Document? || e.value.Array? {
      var start := Start(e.name, e.value.Array?);
      AllSucceedConcat(st, [start] + Calls(e.value.es), [Close]);
      AllSucceedConcat(st, [start], Calls(e.value.es));
      OneCall(st, start);
      StartSuccess(st, start);
      SuccessMeansClean(Step(st, start), e.value.es);
    } else {
      OneCall(st, Append(e.name, e.value));
      ScalarSuccess(st, e);
    }
  }

  lemma StartSuccess(st: State, start: Op)
    requires start.Start? && st.Open() && Try(st, start).1
    ensures Accepts(start.name)
  {
    hide Scan, Flat, Flagged, Header;
    ScanVerdict(start.name, 0, true);
  }

  lemma ScalarSuccess(st: State, e: Elem)
    requires !e.value.Document? && !e.value.Array? && st.Open() && Try(st, Append(e.name, e.value)).1
    ensures Accepts(e.name) && CleanValue(e.value)
  {
    hide Scan, Flat, Flagged, Header, EncLen, Body;
    ScanVerdict(e.name, 0, true);
  }

  // ---- The finished document

  // A document fits when its size plus its largest single request does not pass INT32_MAX.
  predicate Fits(es: seq<Elem>) {
    |EncDoc(es)| + Largest(es) <= INT32_MAX
  }

  lemma FittingDocumentIsWritten(cap: nat, es: seq<Elem>)
    requires Clean(es) && Fits(es)
    ensures var st := Run(InitialState(cap), Calls(es));
            AllSucceed(InitialState(cap), Calls(es)) && Finish(st).1 && Finish(st).0.doc == EncDoc(es)
  {
    hide Try, Step, Calls, Largest, Body, EncLen, Clean;
    var st := InitialState(cap);
    assert st.Position() == 4 && NOT_UTF8 == 2;
    CallsSucceed(st, es, 1, Largest(es));
    CallsWrite(st, es);
    assert [] + Body(es) == Body(es);
  }

  // A total size below INT32_MAX alone is not enough: this one binary element is refused, because its
  // request and the present capacity together pass INT32_MAX.
  lemma LargeElementRefused(data: seq<byte>)
    requires |data| == INT32_MAX - 100
    ensures |EncDoc([Elem([], Binary(0, data))])| < INT32_MAX
    ensures !Try(InitialState(128), Append([], Binary(0, data))).1
  {
    var e := Elem([], Binary(0, data));
    assert [e][1..] == [];
    assert Body([e]) == EncElem(e);
  }
}

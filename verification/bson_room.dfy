// Exactly when a whole document is written: the requests of its calls, the capacities they pass through and the text.
module BsonRoom {
  import opened Bytes
  import opened Utf8
  import opened Wrappers
  import opened BsonFormat
  import opened BsonSpec
  import opened BsonRuns
  import opened BsonTrees

  // The bytes a call asks bson_ensure_space for, and the bytes it adds.
  function Need(op: Op): nat {
    match op
    case Append(name, v) => 2 + |name| + |Payload(v)|
    case Start(name, _) => 2 + |name| + 5
    case Close => 1
  }

  function Growth(op: Op): nat {
    if op.Start? then Need(op) - 1 else Need(op)
  }

  function TotalGrowth(ops: seq<Op>): nat {
    if ops == [] then 0 else Growth(ops[0]) + TotalGrowth(ops[1..])
  }

  // The capacity after granting the requests of a run that starts at position pos; None when one is refused.
  function RoomAfter(cap: nat, pos: nat, ops: seq<Op>): Option<nat>
    decreases |ops|
  {
    if ops == [] then Some(cap)
    else if pos + Need(ops[0]) <= cap then RoomAfter(cap, pos + Growth(ops[0]), ops[1..])
    else match GrownSize(cap, Need(ops[0]))
      case None => None
      case Some(size) => RoomAfter(size, pos + Growth(ops[0]), ops[1..])
  }

  predicate CleanOp(op: Op) {
    match op
    case Append(name, v) =>
      Accepts(name) && (v.Str? || v.Code? || v.Symbol? ==> Accepts(v.s)) && (v.Regex? ==> Accepts(v.pattern))
    case Start(name, _) => Accepts(name)
    case Close => true
  }

  // Clean text, and nothing closed that was not opened, from a given depth on.
  predicate Orderly(depth: nat, ops: seq<Op>)
    decreases |ops|
  {
    ops == [] || (CleanOp(ops[0]) && match ops[0]
      case Append(_, _) => Orderly(depth, ops[1..])
      case Start(_, _) => Orderly(depth + 1, ops[1..])
      case Close => depth >= 1 && Orderly(depth - 1, ops[1..]))
  }

  // A builder that works normally.
  predicate Working(st: State) {
    st.Open() && !st.finished && st.ownsData && st.cap <= INT32_MAX
  }

  predicate Granted(st: State, need: nat)
    requires st.Open()
  {
    st.Position() + need <= st.cap || GrownSize(st.cap, need).Some?
  }

  // ---- One call

  // What a call does when it succeeds, and that it adds less when it does not.
  predicate Outcome(st: State, op: Op, r: (State, bool))
    requires st.Open()
  {
    && Working(r.0)
    && (r.1 <==> CleanOp(op) && Granted(st, Need(op)) && (op.Close? ==> |st.levels| >= 2))
    && (r.1 ==>
          && r.0.Position() == st.Position() + Growth(op)
          && |r.0.levels| == |st.levels| + (if op.Start? then 1 else if op.Close? then -1 else 0)
          && r.0.cap == (if st.Position() + Need(op) <= st.cap then st.cap else GrownSize(st.cap, Need(op)).value)
          && (!NonUtf8(st.err) ==> !NonUtf8(r.0.err)))
    && (!r.1 ==> r.0.Position() < st.Position() + Growth(op))
  }

  lemma StartElementOutcome(st: State, t: byte, name: CString, extra: nat)
    requires Working(st)
    ensures var r := StartElement(st, t, name, extra);
            && Working(r.0)
            && (r.1 <==> Accepts(name) && Granted(st, 2 + |name| + extra))
            && r.0.levels == (if r.1 then st.Add(Header(t, name)).levels else st.levels)
            && (r.1 ==>
                  && r.0.Position() == st.Position() + 2 + |name|
                  && r.0.cap == (if st.Position() + 2 + |name| + extra <= st.cap then st.cap
                                 else GrownSize(st.cap, 2 + |name| + extra).value)
                  && (!NonUtf8(st.err) ==> !NonUtf8(r.0.err)))
            && (!r.1 ==> r.0.Position() == st.Position())
  {
    hide Scan, Flat, Flagged, NonUtf8;
    ScanVerdict(name, 0, true);
    StartElementEffect(st, t, name, extra);
    FlatAdd(st, Header(t, name));
    if Accepts(name) && !NonUtf8(st.err) {
      AcceptedName(st.err, name, true, true);
    }
  }

  lemma TooLarge(st: State, need: nat)
    requires Working(st) && need > INT32_MAX
    ensures !Granted(st, need)
  {
    hide Flat;
  }

  lemma TextOutcome(st: State, name: CString, v: Value)
    requires Working(st) && (v.Str? || v.Code? || v.Symbol?)
    ensures Outcome(st, Append(name, v), Try(st, Append(name, v)))
  {
    hide StartElement, Scan, Flat, Flagged, Header, NonUtf8, EncLen, Body, TypeCode, Granted, GrownSize;
    var t, n := TypeCode(v), |Payload(v)|;
    var checked := st.(err := Flagged(st.err, v.s, true, false, false));
    if |v.s| + 1 > INT32_MAX {
      TooLarge(st, Need(Append(name, v)));
    }
    if Accepts(v.s) && !NonUtf8(st.err) {
      AcceptedName(st.err, v.s, false, false);
    }
    StartElementOutcome(checked, t, name, n);
    Same(st, checked, 2 + |name| + n);
    FlatAdd(StartElement(checked, t, name, n).0, EncString(v.s));
  }

  lemma RegexOutcome(st: State, name: CString, v: Value)
    requires Working(st) && v.Regex?
    ensures Outcome(st, Append(name, v), Try(st, Append(name, v)))
  {
    hide StartElement, Scan, Flat, Flagged, Header, NonUtf8, TypeCode, Granted, GrownSize;
    StartElementOutcome(st, TypeCode(v), name, |Payload(v)|);
    var headed := StartElement(st, TypeCode(v), name, |Payload(v)|).0;
    if Accepts(v.pattern) && !NonUtf8(headed.err) {
      AcceptedName(headed.err, v.pattern, false, false);
    }
    FlatAdd(headed, Payload(v));
  }

  lemma AppendOutcome(st: State, name: CString, v: Value)
    requires Working(st)
    ensures Outcome(st, Append(name, v), Try(st, Append(name, v)))
  {
    hide StartElement, Flat, NonUtf8, Body, TypeCode, Granted, GrownSize, Payload;
    if v.Str? || v.Code? || v.Symbol? {
      TextOutcome(st, name, v);
    } else if v.Regex? {
      RegexOutcome(st, name, v);
    } else {
      if v.CodeWScope? && |Payload(v)| > INT32_MAX {
        TooLarge(st, Need(Append(name, v)));
      }
      StartElementOutcome(st, TypeCode(v), name, |Payload(v)|);
      FlatAdd(StartElement(st, TypeCode(v), name, |Payload(v)|).0, Payload(v));
    }
  }

  lemma Same(st: State, checked: State, need: nat)
    requires st.Open() && checked == st.(err := checked.err)
    ensures checked.Position() == st.Position() && Granted(checked, need) == Granted(st, need)
  {
  }

  lemma StartOutcome(st: State, name: CString, isArray: bool)
    requires Working(st)
    ensures Outcome(st, Start(name, isArray), Try(st, Start(name, isArray)))
  {
    hide StartElement, Flat, Header, NonUtf8, Granted, GrownSize;
    var t: byte := if isArray then 4 else 3;
    StartElementOutcome(st, t, name, 5);
    FlatPush(StartElement(st, t, name, 5).0);
  }

  lemma CloseOutcome(st: State)
    requires Working(st)
    ensures Outcome(st, Close, Try(st, Close))
  {
    hide NonUtf8;
    var n := |st.levels| - 1;
    if n > 0 {
      var outer := st.(levels := st.levels[..n]);
      FlatAdd(outer, Framed(st.levels[n]));
      assert Flat(st.levels) == Flat(st.levels[..n]) + PLACEHOLDER + st.levels[n];
    }
  }

  lemma CallOutcome(st: State, op: Op)
    requires Working(st)
    ensures Outcome(st, op, Try(st, op))
  {
    hide Try, Outcome;
    match op
    case Append(name, v) => AppendOutcome(st, name, v);
    case Start(name, isArray) => StartOutcome(st, name, isArray);
    case Close => CloseOutcome(st);
  }

  // ---- A run

  // No call of a run is refused exactly when the run is orderly and every request is granted; and only then does it add
  // all its bytes.
  lemma {:induction false} RunOutcome(st: State, ops: seq<Op>)
    requires Working(st)
    ensures Working(Run(st, ops))
    ensures AllSucceed(st, ops) <==> Orderly(|st.levels| - 1, ops) && RoomAfter(st.cap, st.Position(), ops).Some?
    ensures AllSucceed(st, ops) ==>
              Run(st, ops).cap == RoomAfter(st.cap, st.Position(), ops).value
              && (!NonUtf8(st.err) ==> !NonUtf8(Run(st, ops).err))
    ensures Run(st, ops).Position() <= st.Position() + TotalGrowth(ops)
    ensures AllSucceed(st, ops) <==> Run(st, ops).Position() == st.Position() + TotalGrowth(ops)
    decreases |ops|
  {
    hide Try, Step, Flat, CleanOp, GrownSize, NonUtf8, Need, Growth;
    if ops != [] {
      CallOutcome(st, ops[0]);
      RunOutcome(Step(st, ops[0]), ops[1..]);
    }
  }

  // ---- The calls of a document

  lemma {:induction false} GrowthConcat(a: seq<Op>, b: seq<Op>)
    ensures TotalGrowth(a + b) == TotalGrowth(a) + TotalGrowth(b)
  {
    hide Growth;
    if a == [] {
      assert a + b == b;
    } else {
      assert (a + b)[1..] == a[1..] + b;
      GrowthConcat(a[1..], b);
    }
  }

  lemma {:induction false} CallsGrow(es: seq<Elem>)
    ensures TotalGrowth(Calls(es)) == |Body(es)|
    decreases es
  {
    hide TotalGrowth, EncElem, CallsFor;
    if es == [] {
      assert TotalGrowth([]) == 0 by { NoGrowth(); }
    } else {
      GrowthConcat(CallsFor(es[0]), Calls(es[1..]));
      ElementGrows(es[0]);
      CallsGrow(es[1..]);
    }
  }

  lemma NoGrowth()
    ensures TotalGrowth([]) == 0
  {
  }

  lemma OneGrowth(op: Op)
    ensures TotalGrowth([op]) == Growth(op)
  {
    assert [op][1..] == [];
  }

  lemma {:induction false} ElementGrows(e: Elem)
    ensures TotalGrowth(CallsFor(e)) == |EncElem(e)|
    decreases e
  {
    hide TotalGrowth, EncLen;
    ElemSize(e);
    if e.value.Document? || e.value.Array? {
      var start := Start(e.name, e.value.Array?);
      CallsGrow(e.value.es);
      GrowthConcat([start] + Calls(e.value.es), [Close]);
      GrowthConcat([start], Calls(e.value.es));
      OneGrowth(start);
      OneGrowth(Close);
    } else {
      OneGrowth(Append(e.name, e.value));
    }
  }

  lemma {:induction false} CallsAreOrderly(depth: nat, es: seq<Elem>, rest: seq<Op>)
    ensures Orderly(depth, Calls(es) + rest) <==> Clean(es) && Orderly(depth, rest)
    decreases es
  {
    hide Orderly, CallsFor, Accepts, CleanValue;
    if es == [] {
      assert [] + rest == rest;
    } else {
      assert Calls(es) + rest == CallsFor(es[0]) + (Calls(es[1..]) + rest);
      ElementIsOrderly(depth, es[0], Calls(es[1..]) + rest);
      CallsAreOrderly(depth, es[1..], rest);
    }
  }

  lemma {:induction false} ElementIsOrderly(depth: nat, e: Elem, rest: seq<Op>)
    ensures Orderly(depth, CallsFor(e) + rest) <==> Accepts(e.name) && CleanValue(e.value) && Orderly(depth, rest)
    decreases e
  {
    hide Accepts, Calls;
    var ops := CallsFor(e) + rest;
    if e.value.Document? || e.value.Array? {
      assert ops[1..] == Calls(e.value.es) + ([Close] + rest);
      assert ([Close] + rest)[1..] == rest;
      CallsAreOrderly(depth + 1, e.value.es, [Close] + rest);
    } else {
      assert ops[1..] == rest;
    }
  }

  // ---- The finished document

  // Room for every request of the document, the terminator of bson_finish included (it asks for one byte, as a close
  // does), and a size below the limit.
  predicate HasRoom(cap: nat, es: seq<Elem>) {
    |EncDoc(es)| < INT32_MAX && RoomAfter(cap, 4, Calls(es) + [Close]).Some?
  }

  lemma {:induction false} RoomConcat(cap: nat, pos: nat, a: seq<Op>, b: seq<Op>)
    ensures RoomAfter(cap, pos, a + b) ==
            if RoomAfter(cap, pos, a).None? then None
            else RoomAfter(RoomAfter(cap, pos, a).value, pos + TotalGrowth(a), b)
    decreases |a|
  {
    hide Need, Growth, GrownSize;
    if a == [] {
      assert a + b == b;
    } else {
      assert (a + b)[1..] == a[1..] + b;
      var grown := if pos + Need(a[0]) <= cap then Some(cap) else GrownSize(cap, Need(a[0]));
      if grown.Some? {
        RoomConcat(grown.value, pos + Growth(a[0]), a[1..], b);
      }
    }
  }

  // bson_finish succeeds with the encoding of the document if and only if its text is clean and it has room.
  lemma WrittenExactly(cap: nat, es: seq<Elem>)
    requires cap <= INT32_MAX
    ensures var r := Finish(Run(InitialState(cap), Calls(es)));
            r.1 && r.0.doc == EncDoc(es) <==> Clean(es) && HasRoom(cap, es)
  {
    hide Run, Calls, Flat, Clean, AllSucceed, Orderly, RoomAfter, TotalGrowth, Body, EncLen, GrownSize, NonUtf8;
    var st0 := InitialState(cap);
    var st := Run(st0, Calls(es));
    FreshBuilder(cap);
    RunOutcome(st0, Calls(es));
    CallsGrow(es);
    assert Calls(es) + [] == Calls(es);
    CallsAreOrderly(0, es, []);
    NothingIsOrderly();
    RoomConcat(cap, 4, Calls(es), [Close]);
    if AllSucceed(st0, Calls(es)) {
      CallsWrite(st0, es);
      OneLevel(Body(es));
      assert [] + Body(es) == Body(es) && st.levels == [Body(es)];
      LastRequest(RoomAfter(cap, 4, Calls(es)).value, 4 + |Body(es)|);
    }
    FinishOutcome(st);
    var r := Finish(st);
    if r.1 && r.0.doc == EncDoc(es) {
      assert |Framed(Flat(st.levels))| == |Flat(st.levels)| + 5;
      assert |EncDoc(es)| == |Body(es)| + 5;
      assert st.Position() == 4 + |Body(es)|;
    }
  }

  lemma FreshBuilder(cap: nat)
    requires cap <= INT32_MAX
    ensures Working(InitialState(cap)) && InitialState(cap).Position() == 4 && !NonUtf8(InitialState(cap).err)
  {
  }

  lemma OneLevel(body: seq<byte>)
    ensures Flat([body]) == body
  {
  }

  lemma NothingIsOrderly()
    ensures Orderly(0, [])
  {
  }

  lemma LastRequest(cap: nat, pos: nat)
    ensures RoomAfter(cap, pos, [Close]).Some? <==> pos + 1 <= cap || GrownSize(cap, 1).Some?
  {
    assert [Close][1..] == [];
  }

  lemma FinishOutcome(st: State)
    requires Working(st)
    ensures var r := Finish(st);
            && (r.1 ==> r.0.doc == Framed(Flat(st.levels)))
            && (!NonUtf8(st.err) ==> (r.1 <==> Granted(st, 1) && st.Position() + 1 < INT32_MAX))
  {
    hide Flat;
  }

  // A document that fits by its size and its largest request alone has room, whatever the capacity.
  lemma FittingHasRoom(cap: nat, es: seq<Elem>)
    requires cap <= INT32_MAX && Clean(es) && Fits(es)
    ensures HasRoom(cap, es)
  {
    hide Run, Calls, Clean, Fits, Finish, EncDoc, HasRoom, AllSucceed;
    FittingDocumentIsWritten(cap, es);
    WrittenExactly(cap, es);
  }

  // ---- The regex

  // An append of a regex adds all of it or nothing, unless the name is accepted, the request granted and the pattern
  // refused: then the header stays.
  lemma RegexAllOrNothing(st: State, name: CString, v: Value)
    requires Working(st) && v.Regex?
    ensures var r := AppendValue(st, name, v);
            r.0.levels == (if r.1 then st.Add(EncElem(Elem(name, v))).levels else st.levels) <==>
              !(Accepts(name) && Granted(st, 2 + |name| + |Payload(v)|) && !Accepts(v.pattern))
  {
    hide StartElement, Payload, Granted, AppendValue, Accepts, EncElem, NonUtf8;
    StartElementOutcome(st, TypeCode(v), name, |Payload(v)|);
    AppendOutcome(st, name, v);
    AppendRegexOutcome(st, name, v);
    HeaderShows(st, TypeCode(v), name);
  }

  lemma HeaderShows(st: State, t: byte, name: CString)
    requires st.Open()
    ensures st.Add(Header(t, name)).levels != st.levels
  {
    var n := |st.levels| - 1;
    assert |st.Add(Header(t, name)).levels[n]| > |st.levels[n]|;
  }

  // A pattern of one byte FF on a fresh builder.
  lemma RegexLeavesHeader(opts: CString)
    requires |opts| < 100
    ensures var r := AppendValue(InitialState(128), [], Regex([0xFF], opts));
            !r.1 && r.0.levels != InitialState(128).levels
  {
    hide StartElement, AppendValue, NonUtf8;
    var st, v := InitialState(128), Regex([0xFF], opts);
    FreshBuilder(128);
    assert Granted(st, 2 + |Payload(v)|) && Accepts([]) && !Accepts([0xFF]);
    RegexAllOrNothing(st, [], v);
    AppendOutcome(st, [], v);
  }
}

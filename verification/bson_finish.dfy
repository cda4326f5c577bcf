// When bson_finish succeeds, after any run of calls: a tally that needs the lengths and the text of the arguments but
// none of the bytes or error bits written; and what is lost when it succeeds after a refused call.
module BsonFinish {
  import opened Bytes
  import opened Utf8
  import opened Wrappers
  import opened BsonFormat
  import opened BsonSpec
  import opened BsonRuns
  import opened BsonTrees
  import opened BsonRoom
  import opened BsonOpen

  // What a caller can carry along: the capacity, the position, the number of open subobjects, and whether a refused
  // text is still on record.
  datatype Tally = Tally(cap: nat, pos: nat, depth: nat, bad: bool, owns: bool)

  function Fresh(cap: nat): Tally {
    Tally(cap, 4, 0, false, true)
  }

  // The capacity after a request.
  function Asked(t: Tally, need: nat): Option<nat> {
    if t.pos + need <= t.cap then Some(t.cap) else if t.owns then GrownSize(t.cap, need) else None
  }

  // A refused request, like every plain assignment to the error bits, takes a refused text off the record.
  function Named(t: Tally, name: CString, extra: nat): (Tally, bool) {
    match Asked(t, 2 + |name| + extra)
    case None => (t.(bad := false), false)
    case Some(cap) =>
      if Accepts(name) then (t.(cap := cap, pos := t.pos + 2 + |name|), true) else (t.(cap := cap, bad := true), false)
  }

  function NextAppend(t: Tally, name: CString, v: Value): (Tally, bool) {
    if HasText(v) && |v.s| >= INT32_MAX then (t.(bad := false), false)
    else if HasText(v) && !Accepts(v.s) then (t.(bad := true), false)
    else if v.CodeWScope? && |Payload(v)| > INT32_MAX then (t.(bad := false), false)
    else
      var r := Named(t, name, |Payload(v)|);
      if !r.1 then r
      else if v.Regex? && !Accepts(v.pattern) then (r.0.(bad := true), false)
      else (r.0.(pos := r.0.pos + |Payload(v)|), true)
  }

  predicate HasText(v: Value) {
    v.Str? || v.Code? || v.Symbol?
  }

  function Next(t: Tally, op: Op): (Tally, bool) {
    match op
    case Append(name, v) => NextAppend(t, name, v)
    case Start(name, _) =>
      var r := Named(t, name, 5);
      if r.1 then (r.0.(pos := r.0.pos + 4, depth := t.depth + 1), true) else r
    case Close =>
      if t.depth == 0 then (t.(bad := false), false)
      else
        match Asked(t, 1)
        case None => (t.(bad := false), false)
        case Some(cap) => (t.(cap := cap, pos := t.pos + 1, depth := t.depth - 1), true)
  }

  function End(t: Tally, ops: seq<Op>): Tally
    decreases |ops|
  {
    if ops == [] then t else End(Next(t, ops[0]).0, ops[1..])
  }

  predicate Smooth(t: Tally, ops: seq<Op>)
    decreases |ops|
  {
    ops == [] || (Next(t, ops[0]).1 && Smooth(Next(t, ops[0]).0, ops[1..]))
  }

  // The calls that succeed.
  function Taken(t: Tally, ops: seq<Op>): seq<Op>
    decreases |ops|
  {
    if ops == [] then []
    else (if Next(t, ops[0]).1 then [ops[0]] else []) + Taken(Next(t, ops[0]).0, ops[1..])
  }

  predicate Passes(t: Tally) {
    !t.bad && Asked(t, 1).Some? && t.pos + 1 < INT32_MAX
  }

  // ---- The tally is right

  predicate Tallied(st: State, t: Tally) {
    && st.Open() && !st.finished && t.owns == st.ownsData
    && t.cap == st.cap && t.pos == st.Position() && t.depth == |st.levels| - 1 && t.bad == NonUtf8(st.err)
  }

  predicate Agrees(r: (State, bool), n: (Tally, bool)) {
    Tallied(r.0, n.0) && r.1 == n.1
  }

  lemma PlainMarks()
    ensures !NonUtf8(SIZE_OVERFLOW) && !NonUtf8(DOES_NOT_OWN_DATA) && !NonUtf8(NOT_IN_SUBOBJECT)
  {
  }

  // The scan of a text records that it is refused and nothing else about UTF-8.
  lemma FlaggedRecords(err: Err, s: seq<byte>, checkDot: bool, checkDollar: bool)
    ensures Scan(s, 0, true, checkDot).notUtf8 <==> !Accepts(s)
    ensures NonUtf8(Flagged(err, s, true, checkDot, checkDollar)) <==> NonUtf8(err) || !Accepts(s)
  {
    hide Scan, NonUtf8, Flagged;
    ScanVerdict(s, 0, checkDot);
    FlagsOnlyAdded(err, s, checkDot, checkDollar);
    if Accepts(s) && !NonUtf8(err) {
      AcceptedName(err, s, checkDot, checkDollar);
    }
  }

  lemma StartElementAgrees(st: State, t: Tally, code: byte, name: CString, extra: nat)
    requires Tallied(st, t)
    ensures Agrees(StartElement(st, code, name, extra), Named(t, name, extra))
    ensures StartElement(st, code, name, extra).1 ==>
              StartElement(st, code, name, extra).0.levels == st.Add(Header(code, name)).levels
  {
    hide Scan, Flat, Flagged, NonUtf8, GrownSize, Accepts;
    PlainMarks();
    FlaggedRecords(st.err, name, true, true);
    FlatAdd(st, Header(code, name));
  }

  lemma AddAgrees(st: State, t: Tally, bytes: seq<byte>)
    requires Tallied(st, t)
    ensures Tallied(st.Add(bytes), t.(pos := t.pos + |bytes|))
  {
    hide Flat, NonUtf8;
    FlatAdd(st, bytes);
  }

  lemma TextAgrees(st: State, t: Tally, name: CString, v: Value)
    requires Tallied(st, t) && HasText(v)
    ensures Agrees(AppendValue(st, name, v), Next(t, Append(name, v)))
  {
    hide StartElement, Scan, Flagged, NonUtf8, Accepts, State.Add, Tallied, Named;
    var checked, u := st.(err := Flagged(st.err, v.s, true, false, false)), t.(bad := t.bad || !Accepts(v.s));
    Checked(st, t, v.s);
    StartElementAgrees(checked, u, TypeCode(v), name, |Payload(v)|);
    var headed := StartElement(checked, TypeCode(v), name, |Payload(v)|).0;
    AddAgrees(headed, Named(u, name, |Payload(v)|).0, Payload(v));
  }

  lemma Checked(st: State, t: Tally, s: seq<byte>)
    requires Tallied(st, t)
    ensures Tallied(st.(err := Flagged(st.err, s, true, false, false)), t.(bad := t.bad || !Accepts(s)))
    ensures Tallied(st.(err := SIZE_OVERFLOW), t.(bad := false)) && st.Open()
    ensures Scan(s, 0, true, false).notUtf8 <==> !Accepts(s)
  {
    hide Scan, Flagged, NonUtf8, Accepts, Flat;
    FlaggedRecords(st.err, s, false, false);
    PlainMarks();
  }

  lemma RegexAgrees(st: State, t: Tally, name: CString, v: Value)
    requires Tallied(st, t) && v.Regex?
    ensures Agrees(AppendValue(st, name, v), Next(t, Append(name, v)))
  {
    hide StartElement, Scan, Flagged, NonUtf8, Accepts, State.Add, Tallied, Named, Payload;
    IsOpen(st, t);
    StartElementAgrees(st, t, TypeCode(v), name, |Payload(v)|);
    var headed, u := StartElement(st, TypeCode(v), name, |Payload(v)|).0, Named(t, name, |Payload(v)|).0;
    Checked(headed, u, v.pattern);
    var checked := headed.(err := Flagged(headed.err, v.pattern, true, false, false));
    AddAgrees(checked, u.(bad := u.bad || !Accepts(v.pattern)), Payload(v));
  }

  lemma PlainAgrees(st: State, t: Tally, name: CString, v: Value)
    requires Tallied(st, t) && !HasText(v) && !v.Regex?
    ensures Agrees(AppendValue(st, name, v), Next(t, Append(name, v)))
  {
    hide StartElement, State.Add, Tallied, Named, Payload;
    Checked(st, t, []);
    StartElementAgrees(st, t, TypeCode(v), name, |Payload(v)|);
    AddAgrees(StartElement(st, TypeCode(v), name, |Payload(v)|).0, Named(t, name, |Payload(v)|).0, Payload(v));
  }

  lemma AppendAgrees(st: State, t: Tally, name: CString, v: Value)
    requires Tallied(st, t)
    ensures Agrees(AppendValue(st, name, v), Next(t, Append(name, v)))
  {
    hide Tallied, AppendValue, Next;
    IsOpen(st, t);
    if HasText(v) {
      TextAgrees(st, t, name, v);
    } else if v.Regex? {
      RegexAgrees(st, t, name, v);
    } else {
      PlainAgrees(st, t, name, v);
    }
  }

  lemma StartAgrees(st: State, t: Tally, name: CString, isArray: bool)
    requires Tallied(st, t)
    ensures Agrees(StartDocument(st, name, isArray), Next(t, Start(name, isArray)))
  {
    hide StartElement, Flat, NonUtf8, Header, Named, State.Add;
    var code: byte := if isArray then 4 else 3;
    StartElementAgrees(st, t, code, name, 5);
    DepthOfNamed(t, name, 5);
    FlatPush(StartElement(st, code, name, 5).0);
  }

  lemma DepthOfNamed(t: Tally, name: CString, extra: nat)
    ensures Named(t, name, extra).0.depth == t.depth
  {
    hide Accepts;
  }

  lemma CloseAgrees(st: State, t: Tally)
    requires Tallied(st, t)
    ensures Agrees(FinishDocument(st), Next(t, Close))
  {
    hide NonUtf8, GrownSize;
    PlainMarks();
    var n := |st.levels| - 1;
    if n > 0 {
      FlatAdd(st.(levels := st.levels[..n]), Framed(st.levels[n]));
      assert Flat(st.levels) == Flat(st.levels[..n]) + PLACEHOLDER + st.levels[n];
    }
  }

  lemma CallAgrees(st: State, t: Tally, op: Op)
    requires Tallied(st, t)
    ensures Agrees(Try(st, op), Next(t, op))
  {
    hide Tallied, Next, AppendValue, StartDocument, FinishDocument;
    assert st.Open() by { IsOpen(st, t); }
    match op
    case Append(name, v) => AppendAgrees(st, t, name, v);
    case Start(name, isArray) => StartAgrees(st, t, name, isArray);
    case Close => CloseAgrees(st, t);
  }

  lemma IsOpen(st: State, t: Tally)
    requires Tallied(st, t)
    ensures st.Open() && !st.finished
  {
  }

  lemma {:induction false} RunAgrees(st: State, t: Tally, ops: seq<Op>)
    requires Tallied(st, t)
    ensures st.Open() && Tallied(Run(st, ops), End(t, ops))
    ensures AllSucceed(st, ops) <==> Smooth(t, ops)
    ensures Kept(st, ops) == Taken(t, ops)
    decreases |ops|
  {
    hide Try, Step, Next, Tallied;
    IsOpen(st, t);
    if ops != [] {
      CallAgrees(st, t, ops[0]);
      RunAgrees(Step(st, ops[0]), Next(t, ops[0]).0, ops[1..]);
    }
  }

  // ---- bson_finish, after any run

  // Exactly when bson_finish succeeds, and exactly when every call did: the first says nothing about the second, unless
  // no error value was overwritten.
  lemma FinishReports(st: State, t: Tally, ops: seq<Op>)
    requires Tallied(st, t)
    ensures st.Open()
    ensures Finish(Run(st, ops)).1 <==> Passes(End(t, ops))
    ensures AllSucceed(st, ops) <==> Smooth(t, ops)
    ensures !Overwrites(st, ops) && Passes(End(t, ops)) ==> Smooth(t, ops)
  {
    hide Run, Overwrites, AllSucceed, Tallied;
    RunAgrees(st, t, ops);
    IsOpen(st, t);
    FinishAgrees(Run(st, ops), End(t, ops));
    if !Overwrites(st, ops) && Finish(Run(st, ops)).1 {
      FinishVouchesForTheRun(st, ops);
    }
  }

  lemma FinishAgrees(st: State, t: Tally)
    requires Tallied(st, t)
    ensures st.Open() && (Finish(st).1 <==> Passes(t))
  {
    hide Flat, GrownSize;
  }

  lemma FreshIsTallied(cap: nat)
    ensures Tallied(InitialState(cap), Fresh(cap))
  {
  }

  // A document: when bson_finish succeeds, and that the finished bytes are its encoding if no call was refused or no
  // error value overwritten; exactly, if and only if its text is clean and it has room.
  lemma FinishedIsEncoding(cap: nat, es: seq<Elem>)
    ensures var st, t := InitialState(cap), Fresh(cap);
            var r := Finish(Run(st, Calls(es)));
            && (r.1 <==> Passes(End(t, Calls(es))))
            && (r.1 && (Smooth(t, Calls(es)) || !Overwrites(st, Calls(es))) ==> r.0.doc == EncDoc(es))
            && (cap <= INT32_MAX ==> (r.1 && r.0.doc == EncDoc(es) <==> Clean(es) && HasRoom(cap, es)))
  {
    hide Run, Calls, Finish, Clean, HasRoom, EncDoc, Tallied, Passes, AllSucceed, Smooth, Overwrites;
    FreshIsTallied(cap);
    FinishReports(InitialState(cap), Fresh(cap), Calls(es));
    if AllSucceed(InitialState(cap), Calls(es)) && Finish(Run(InitialState(cap), Calls(es))).1 {
      SuccessIsFinished(cap, es);
    }
    if cap <= INT32_MAX {
      WrittenExactly(cap, es);
    }
  }

  lemma SuccessIsFinished(cap: nat, es: seq<Elem>)
    requires AllSucceed(InitialState(cap), Calls(es)) && Finish(Run(InitialState(cap), Calls(es))).1
    ensures Finish(Run(InitialState(cap), Calls(es))).0.doc == EncDoc(es)
  {
    hide Try, Step, Calls, Body, EncLen;
    CallsWrite(InitialState(cap), es);
    NotFinished(InitialState(cap), Calls(es));
    assert [] + Body(es) == Body(es);
  }
}

// Properties of every run of builder calls.
module BsonRuns {
  import opened Bytes
  import opened Utf8
  import opened BsonFormat
  import opened BsonSpec

  // ---- One call

  lemma ReserveKeeps(st: State, pos: nat, need: nat)
    ensures var r := Reserve(st, pos, need); r.0 == st.(cap := r.0.cap, err := r.0.err) && (r.1 ==> r.0.err == st.err)
  {
  }

  lemma StartElementEffect(st: State, t: byte, name: CString, extra: nat)
    requires st.Open()
    ensures var r := StartElement(st, t, name, extra);
            r.0.levels == if r.1 then st.Add(Header(t, name)).levels else st.levels
  {
    hide Header, Scan, Flat, GrownSize, Flagged;
  }

  lemma AddTwice(st: State, a: seq<byte>, b: seq<byte>)
    requires st.Open()
    ensures st.Add(a).Add(b) == st.Add(a + b)
  {
    var n := |st.levels| - 1;
    assert (st.levels[n] + a) + b == st.levels[n] + (a + b);
  }

  lemma AppendPayloadEffect(st: State, t: byte, name: CString, payload: seq<byte>)
    requires st.Open()
    ensures var r := AppendPayload(st, t, name, payload);
            r.0.levels == if r.1 then st.Add(Header(t, name) + payload).levels else st.levels
  {
    hide Header, StartElement;
    StartElementEffect(st, t, name, |payload|);
    AddTwice(st, Header(t, name), payload);
  }

  // Every append but that of a regex adds one complete element or nothing at all.
  lemma AppendIsAllOrNothing(st: State, name: CString, v: Value)
    requires st.Open() && !v.Regex?
    ensures var r := AppendValue(st, name, v);
            r.0.levels == if r.1 then st.Add(EncElem(Elem(name, v))).levels else st.levels
  {
    hide EncLen, Scan, Flagged, AppendPayload, Header, TypeCode;
    var checked := if v.Str? || v.Code? || v.Symbol? then st.(err := Flagged(st.err, v.s, true, false, false)) else st;
    AppendPayloadEffect(checked, TypeCode(v), name, Payload(v));
  }

  // A regex with a pattern that is not UTF-8 leaves its header behind, and only then.
  lemma AppendRegexOutcome(st: State, name: CString, v: Value)
    requires st.Open() && v.Regex?
    ensures var r := AppendValue(st, name, v);
            if r.1 then r.0.levels == st.Add(EncElem(Elem(name, v))).levels
            else if StartElement(st, TypeCode(v), name, |Payload(v)|).1
            then r.0.levels == st.Add(Header(TypeCode(v), name)).levels && NonUtf8(r.0.err)
            else r.0.levels == st.levels
  {
    hide EncLen, Scan, Flagged, StartElement, Header, Payload, NonUtf8;
    StartElementEffect(st, TypeCode(v), name, |Payload(v)|);
    AddTwice(st, Header(TypeCode(v), name), Payload(v));
    FlagsOnlyAdded(StartElement(st, TypeCode(v), name, |Payload(v)|).0.err, v.pattern, false, false);
  }

  // ---- Error bits: only the plain assignments to err can clear the non-UTF-8 bit.

  predicate NonUtf8(err: Err) {
    err & NOT_UTF8 != 0
  }

  // The values that the plain assignments store: size overflow, unowned data, unmatched finish.
  predicate Overwritten(err: Err) {
    err == SIZE_OVERFLOW || err == DOES_NOT_OWN_DATA || err == NOT_IN_SUBOBJECT
  }

  lemma FlagsOnlyAdded(err: Err, s: seq<byte>, checkDot: bool, checkDollar: bool)
    ensures NonUtf8(err) ==> NonUtf8(Flagged(err, s, true, checkDot, checkDollar))
    ensures Scan(s, 0, true, checkDot).notUtf8 ==> NonUtf8(Flagged(err, s, true, checkDot, checkDollar))
  {
    hide Scan, BadDollar;
  }

  // The values stored: 1 for a size, 64 for unowned data, 32 for an unmatched close; and 16 is added by an append to a
  // finished builder.
  lemma ErrorValues(st: State, pos: nat, need: nat, t: byte, name: CString, extra: nat)
    requires st.Open()
    ensures !Reserve(st, pos, need).1 ==>
              Reserve(st, pos, need).0 == st.(err := if GrownSize(st.cap, need).None? then 1 else 64)
    ensures |st.levels| == 1 ==> FinishDocument(st) == (st.(err := 32), false)
    ensures st.finished ==> StartElement(st, t, name, extra) == (st.(err := st.err | 16), false)
  {
    hide Flat, GrownSize, Scan;
  }

  // A refused call leaves a mark in err, and an accepted one keeps the non-UTF-8 mark.
  predicate Marked(err: Err, r: (State, bool)) {
    && !r.0.finished
    && (!r.1 ==> NonUtf8(r.0.err) || Overwritten(r.0.err))
    && (r.1 && NonUtf8(err) ==> NonUtf8(r.0.err))
    && (NonUtf8(err) ==> NonUtf8(r.0.err) || Overwritten(r.0.err))
  }

  lemma StartElementMarks(st: State, t: byte, name: CString, extra: nat)
    requires st.Open() && !st.finished
    ensures Marked(st.err, StartElement(st, t, name, extra))
  {
    hide Scan, Flat, GrownSize, Flagged, NonUtf8;
    FlagsOnlyAdded(st.err, name, true, true);
  }

  lemma StringMarks(st: State, t: byte, name: CString, s: seq<byte>)
    requires st.Open() && !st.finished
    ensures Marked(st.err, AppendString(st, t, name, s))
  {
    hide Scan, Flagged, StartElement, NonUtf8, EncString;
    FlagsOnlyAdded(st.err, s, false, false);
    StartElementMarks(st.(err := Flagged(st.err, s, true, false, false)), t, name, |EncString(s)|);
  }

  lemma RegexMarks(st: State, name: CString, v: Value)
    requires st.Open() && !st.finished && v.Regex?
    ensures Marked(st.err, AppendRegex(st, name, v))
  {
    hide Scan, Flagged, StartElement, NonUtf8, Payload, TypeCode;
    StartElementMarks(st, TypeCode(v), name, |Payload(v)|);
    FlagsOnlyAdded(StartElement(st, TypeCode(v), name, |Payload(v)|).0.err, v.pattern, false, false);
  }

  function Try(st: State, op: Op): (r: (State, bool))
    requires st.Open()
    ensures r.0.Open() && r.0 == Step(st, op)
  {
    match op
    case Append(name, v) => AppendValue(st, name, v)
    case Start(name, isArray) => StartDocument(st, name, isArray)
    case Close => FinishDocument(st)
  }

  lemma EveryCallMarks(st: State, op: Op)
    requires st.Open() && !st.finished
    ensures Marked(st.err, Try(st, op))
  {
    hide StartElement, Payload, TypeCode, NonUtf8, AppendString, AppendRegex, Flat, Framed;
    match op
    case Append(name, v) =>
      if v.Str? || v.Code? || v.Symbol? {
        StringMarks(st, TypeCode(v), name, v.s);
      } else if v.Regex? {
        RegexMarks(st, name, v);
      } else {
        StartElementMarks(st, TypeCode(v), name, |Payload(v)|);
      }
    case Start(name, isArray) => StartElementMarks(st, if isArray then 4 else 3, name, 5);
    case Close =>
  }

  // Did every call of the run succeed?
  predicate AllSucceed(st: State, ops: seq<Op>)
    requires st.Open()
    decreases |ops|
  {
    ops == [] || (Try(st, ops[0]).1 && AllSucceed(Step(st, ops[0]), ops[1..]))
  }

  // Does some call of the run store one of the plain values in err?
  predicate Overwrites(st: State, ops: seq<Op>)
    requires st.Open()
    decreases |ops|
  {
    ops != [] && (Overwritten(Step(st, ops[0]).err) || Overwrites(Step(st, ops[0]), ops[1..]))
  }

  // In a run without plain assignments a refused name or string is never forgotten:
  // bson_finish succeeds only if every call did.
  lemma {:induction false} FinishVouchesForTheRun(st: State, ops: seq<Op>)
    requires st.Open() && !st.finished && !Overwrites(st, ops)
    requires Finish(Run(st, ops)).1
    ensures AllSucceed(st, ops) && !NonUtf8(st.err)
    decreases |ops|
  {
    hide Try, Step, Reserve, Flat, NonUtf8, Overwritten;
    if ops == [] {
      FinishNeedsUtf8(st);
    } else {
      EveryCallMarks(st, ops[0]);
      FinishVouchesForTheRun(Step(st, ops[0]), ops[1..]);
    }
  }

  lemma FinishNeedsUtf8(st: State)
    requires st.Open() && Finish(st).1
    ensures !NonUtf8(st.err)
  {
  }
}

// What the builder calls mean, on values: the bytes of every open document, the reserved capacity and
// the error bits. The class Bson is proved to do exactly this on its buffers.
module BsonSpec {
  import opened Bytes
  import opened Utf8
  import opened BsonFormat
  import opened Wrappers

  // levels[0] is the body of the root document and the last level that of the innermost open one.
  // Each level ends with the header of the next. doc is the finished document.
  datatype State = State(levels: seq<seq<byte>>, cap: nat, err: Err, finished: bool, ownsData: bool, doc: seq<byte>) {
    predicate Open() {
      levels != []
    }

    // Bytes added to the innermost open document.
    function Add(bytes: seq<byte>): (st: State)
      requires Open()
      ensures st.Open()
    {
      this.(levels := levels[|levels| - 1 := levels[|levels| - 1] + bytes])
    }

    // _bson_position, while the document is not finished.
    function Position(): nat
      requires Open()
    {
      4 + |Flat(levels)|
    }
  }

  const PLACEHOLDER: seq<byte> := [0, 0, 0, 0]

  // The bytes behind the root's length field: a zero placeholder opens every inner level.
  function Flat(levels: seq<seq<byte>>): seq<byte>
    requires levels != []
  {
    var n := |levels| - 1;
    if n == 0 then levels[0] else Flat(levels[..n]) + PLACEHOLDER + levels[n]
  }

  // The offset that the stack holds for the i-th open document.
  function OpenAt(levels: seq<seq<byte>>, i: nat): nat
    requires i + 1 < |levels|
  {
    4 + |Flat(levels[..i + 1])|
  }

  // A length patched into the bytes of a finished document, counted to their end.
  function Patched(doc: seq<byte>, start: nat): seq<byte> {
    if start + 4 <= |doc| then doc[..start] + EncLen(|doc| - start) + doc[start + 4..] else doc
  }

  function InitialState(cap: nat): State {
    State([[]], cap, 0, false, true, [])
  }

  // The new size that bson_ensure_space computes: 1.5 times the old size plus the request, truncated.
  // A product out of the range of int converts to a negative int, which selects the second branch.
  function GrownSize(cap: nat, need: nat): Option<nat> {
    var size := 3 * (cap + need) / 2;
    if size <= INT32_MAX then Some(size)
    else if cap + need < INT32_MAX then Some(INT32_MAX)
    else None
  }

  // The new size is one and a half times what was there and what is asked for, rounded down, or the limit when that is
  // above it and what is asked for is not.
  lemma GrowthIs(cap: nat, need: nat, size: nat)
    ensures GrownSize(cap, need) == Some(size) <==>
              || (size <= 0x7fff_ffff && 2 * size <= 3 * (cap + need) < 2 * size + 2)
              || (size == 0x7fff_ffff && 3 * (cap + need) >= 0x1_0000_0000 && cap + need < 0x7fff_ffff)
    ensures GrownSize(cap, need) == Some(size) ==> cap <= size || need == 0
  {
  }

  predicate CanReserve(pos: nat, cap: nat, ownsData: bool, need: nat) {
    pos + need <= cap || (GrownSize(cap, need).Some? && ownsData)
  }

  // bson_ensure_space.
  function Reserve(st: State, pos: nat, need: nat): (r: (State, bool)) {
    if pos + need <= st.cap then (st, true)
    else match GrownSize(st.cap, need)
      case None => (st.(err := SIZE_OVERFLOW), false)
      case Some(size) => if st.ownsData then (st.(cap := size), true) else (st.(err := DOES_NOT_OWN_DATA), false)
  }

  // bson_append_estart: reserve, check the name, write the header.
  function StartElement(st: State, t: byte, name: CString, extra: nat): (r: (State, bool))
    requires st.Open()
    ensures r.0.Open()
  {
    if st.finished then (st.(err := st.err | ALREADY_FINISHED), false)
    else
      var r := Reserve(st, st.Position(), 1 + (|name| + 1) + extra);
      if !r.1 then r
      else
        var named := r.0.(err := Flagged(st.err, name, true, true, true));
        if Scan(name, 0, true, true).notUtf8 then (named, false) else (named.Add(Header(t, name)), true)
  }

  // An element whose payload is reserved and written in full.
  function AppendPayload(st: State, t: byte, name: CString, payload: seq<byte>): (r: (State, bool))
    requires st.Open()
    ensures r.0.Open()
  {
    var r := StartElement(st, t, name, |payload|);
    if r.1 then (r.0.Add(payload), true) else r
  }

  // bson_append_string_base.
  function AppendString(st: State, t: byte, name: CString, s: seq<byte>): (r: (State, bool))
    requires st.Open()
    ensures r.0.Open()
  {
    if |s| + 1 > INT32_MAX then (st.(err := SIZE_OVERFLOW), false)
    else
      var checked := st.(err := Flagged(st.err, s, true, false, false));
      if Scan(s, 0, true, false).notUtf8 then (checked, false)
      else AppendPayload(checked, t, name, EncString(s))
  }

  // bson_append_code_w_scope_n.
  function AppendCodeWScope(st: State, name: CString, v: Value): (r: (State, bool))
    requires st.Open() && v.CodeWScope?
    ensures r.0.Open()
  {
    if |Payload(v)| > INT32_MAX then (st.(err := SIZE_OVERFLOW), false)
    else AppendPayload(st, TypeCode(v), name, Payload(v))
  }

  // bson_append_regex: the pattern is checked after the header has been written.
  function AppendRegex(st: State, name: CString, v: Value): (r: (State, bool))
    requires st.Open() && v.Regex?
    ensures r.0.Open()
  {
    var r := StartElement(st, TypeCode(v), name, |Payload(v)|);
    if !r.1 then r
    else
      var checked := r.0.(err := Flagged(r.0.err, v.pattern, true, false, false));
      if Scan(v.pattern, 0, true, false).notUtf8 then (checked, false) else (checked.Add(Payload(v)), true)
  }

  // The append function for each type of value; Document and Array are bson_append_bson and its like.
  function AppendValue(st: State, name: CString, v: Value): (r: (State, bool))
    requires st.Open()
    ensures r.0.Open()
  {
    match v
    case Str(s) => AppendString(st, TypeCode(v), name, s)
    case Code(s) => AppendString(st, TypeCode(v), name, s)
    case Symbol(s) => AppendString(st, TypeCode(v), name, s)
    case CodeWScope(_, _) => AppendCodeWScope(st, name, v)
    case Regex(_, _) => AppendRegex(st, name, v)
    case _ => AppendPayload(st, TypeCode(v), name, Payload(v))
  }

  // bson_append_start_object and bson_append_start_array reserve one byte for the terminator.
  function StartDocument(st: State, name: CString, isArray: bool): (r: (State, bool))
    requires st.Open()
    ensures r.0.Open()
  {
    var r := StartElement(st, if isArray then 4 else 3, name, 5);
    if r.1 then (r.0.(levels := r.0.levels + [[]]), true) else r
  }

  // bson_append_finish_object: terminate the innermost document and patch its length. It does not ask whether the
  // builder is finished; then the terminator goes behind the finished document.
  function FinishDocument(st: State): (r: (State, bool))
    requires st.Open()
    ensures r.0.Open()
  {
    var n := |st.levels| - 1;
    if n == 0 then (st.(err := NOT_IN_SUBOBJECT), false)
    else if st.finished then
      var r := Reserve(st, |st.doc|, 1);
      if !r.1 then r
      else (r.0.(levels := st.levels[..n], doc := Patched(st.doc + [0], OpenAt(st.levels, n - 1))), true)
    else
      var r := Reserve(st, st.Position(), 1);
      if !r.1 then r
      else (r.0.(levels := st.levels[..n]).Add(Framed(st.levels[n])), true)
  }

  // bson_finish. Open subobjects are reported through bson_fatal_msg, which returns.
  function Finish(st: State): (r: (State, bool))
    requires st.Open()
    ensures r.0.Open()
  {
    if st.err & NOT_UTF8 != 0 then (st, false)
    else if st.finished then (st, true)
    else
      var r := Reserve(st, st.Position(), 1);
      if !r.1 then r
      else if st.Position() + 1 >= INT32_MAX then (r.0.Add([0]).(err := SIZE_OVERFLOW), false)
      else (r.0.Add([0]).(finished := true, doc := Framed(Flat(st.levels))), true)
  }

  // ---- Runs of builder calls. Callers that ignore the results keep only the state.

  datatype Op = Append(name: CString, value: Value) | Start(name: CString, isArray: bool) | Close

  function Step(st: State, op: Op): (st': State)
    requires st.Open()
    ensures st'.Open()
  {
    match op
    case Append(name, v) => AppendValue(st, name, v).0
    case Start(name, isArray) => StartDocument(st, name, isArray).0
    case Close => FinishDocument(st).0
  }

  function Run(st: State, ops: seq<Op>): (st': State)
    requires st.Open()
    ensures st'.Open()
    decreases |ops|
  {
    if ops == [] then st else Run(Step(st, ops[0]), ops[1..])
  }

  lemma StartElementKeepsFinished(st: State, t: byte, name: CString, extra: nat)
    requires st.Open()
    ensures StartElement(st, t, name, extra).0.finished == st.finished
  {
    hide Flat, Scan, Flagged, Header, GrownSize;
  }

  lemma AppendKeepsFinished(st: State, name: CString, v: Value)
    requires st.Open()
    ensures AppendValue(st, name, v).0.finished == st.finished
  {
    hide Scan, Flagged, Payload, StartElement, TypeCode, EncString;
    var t := TypeCode(v);
    StartElementKeepsFinished(st, t, name, |Payload(v)|);
    if v.Str? || v.Code? || v.Symbol? {
      StartElementKeepsFinished(st.(err := Flagged(st.err, v.s, true, false, false)), t, name, |EncString(v.s)|);
    }
  }

  // No call but bson_finish finishes a builder.
  lemma StepKeepsFinished(st: State, op: Op)
    requires st.Open()
    ensures Step(st, op).finished == st.finished
  {
    hide Flat, Framed, GrownSize, Patched, AppendValue, StartElement;
    match op
    case Append(name, v) => AppendKeepsFinished(st, name, v);
    case Start(name, isArray) => StartElementKeepsFinished(st, if isArray then 4 else 3, name, 5);
    case Close =>
  }

  lemma {:induction false} RunConcat(st: State, a: seq<Op>, b: seq<Op>)
    requires st.Open()
    ensures Run(st, a + b) == Run(Run(st, a), b)
    decreases |a|
  {
    if a == [] {
      assert a + b == b;
    } else {
      assert (a + b)[1..] == a[1..] + b;
      RunConcat(Step(st, a[0]), a[1..], b);
    }
  }
}

// The loop of bson_append_bcon_with_state over its local variables, writing into a builder.
module BconMachine {
  import opened Bytes
  import opened Wrappers
  import F = BsonFormat
  import opened BsonSpec
  import opened BsonTrees
  import opened BsonRoom
  import opened BsonBuilder
  import opened BconSpec
  import opened BconGrammar
  import opened BconConverse
  import opened BconOutcome

  // The local variables of the loop.
  class Frame {
    var state: Mode
    var key: CString
    var typespec: Option<CString>
    const docStack: array<Return>
    var docStackPointer: nat
    var arrayIndex: nat
    const indexStack: array<nat>
    var indexStackPointer: nat

    // The variables hold these values; the arrays hold the stacks below their pointers.
    ghost predicate Holds(mode: Mode, spec: Option<CString>, index: nat, docs: seq<Return>, indices: seq<nat>)
      reads this`state, this`typespec, this`arrayIndex, this`docStackPointer, this`indexStackPointer
      reads docStack, indexStack
      ensures Holds(mode, spec, index, docs, indices) ==> state == mode && typespec == spec && arrayIndex == index
    {
      && docStack.Length == STACK_SIZE && docStackPointer <= STACK_SIZE
      && indexStack.Length == STACK_SIZE && indexStackPointer <= STACK_SIZE
      && state == mode && typespec == spec && arrayIndex == index
      && docStack[..docStackPointer] == docs && indexStack[..indexStackPointer] == indices
    }

    constructor (start: Return)
      ensures Holds(start, None, 0, [], []) && fresh(docStack) && fresh(indexStack)
    {
      state, key, typespec, arrayIndex := start, [], None, 0;
      docStack := new Return[STACK_SIZE](_ => Element);
      indexStack := new nat[STACK_SIZE](_ => 0);
      docStackPointer, indexStackPointer := 0, 0;
    }

    method SetState(next: Mode, ghost m: Machine)
      requires Holds(m.mode, m.typespec, m.arrayIndex, m.docStack, m.indexStack)
      modifies this`state
      ensures Holds(next, m.typespec, m.arrayIndex, m.docStack, m.indexStack)
    {
      state := next;
    }

    method SetTypespec(spec: Option<CString>, next: Mode, ghost m: Machine)
      requires Holds(m.mode, m.typespec, m.arrayIndex, m.docStack, m.indexStack)
      modifies this`typespec, this`state
      ensures Holds(next, spec, m.arrayIndex, m.docStack, m.indexStack)
    {
      typespec, state := spec, next;
    }

    // ARRAY_KEY_STRING(array_index++).
    method NextKey(ghost m: Machine)
      requires Holds(m.mode, m.typespec, m.arrayIndex, m.docStack, m.indexStack)
      modifies this`key, this`arrayIndex
      ensures Holds(m.mode, m.typespec, m.arrayIndex + 1, m.docStack, m.indexStack) && key == NumStr(m.arrayIndex)
    {
      key := NumStr(arrayIndex);
      arrayIndex := arrayIndex + 1;
    }

    // DOC_PUSH_STATE, then the new state.
    method DocPush(back: Return, next: Mode, ghost m: Machine)
      requires Holds(m.mode, m.typespec, m.arrayIndex, m.docStack, m.indexStack) && |m.docStack| < STACK_SIZE
      modifies this`docStackPointer, this`state, docStack
      ensures Holds(next, m.typespec, m.arrayIndex, m.docStack + [back], m.indexStack)
    {
      docStack[docStackPointer] := back;
      docStackPointer := docStackPointer + 1;
      state := next;
    }

    // DOC_POP_STATE.
    method DocPop(ghost m: Machine)
      requires Holds(m.mode, m.typespec, m.arrayIndex, m.docStack, m.indexStack) && m.docStack != []
      modifies this`docStackPointer, this`state
      ensures var n := |m.docStack| - 1;
              Holds(m.docStack[n], m.typespec, m.arrayIndex, m.docStack[..n], m.indexStack)
    {
      docStackPointer := docStackPointer - 1;
      state := docStack[docStackPointer];
      assert docStack[..docStackPointer] == m.docStack[..|m.docStack| - 1];
    }

    // ARRAY_PUSH_RESET_INDEX_STATE, then the new state.
    method ArrayPush(back: Return, next: Mode, ghost m: Machine)
      requires Holds(m.mode, m.typespec, m.arrayIndex, m.docStack, m.indexStack)
      requires |m.docStack| < STACK_SIZE && |m.indexStack| < STACK_SIZE
      modifies this`docStackPointer, this`indexStackPointer, this`arrayIndex, this`state, docStack, indexStack
      ensures Holds(next, m.typespec, 0, m.docStack + [back], m.indexStack + [m.arrayIndex])
    {
      indexStack[indexStackPointer] := arrayIndex;
      indexStackPointer := indexStackPointer + 1;
      arrayIndex := 0;
      docStack[docStackPointer] := back;
      docStackPointer := docStackPointer + 1;
      state := next;
    }

    // ARRAY_POP_INDEX_STATE.
    method ArrayPop(ghost m: Machine)
      requires Holds(m.mode, m.typespec, m.arrayIndex, m.docStack, m.indexStack) && m.docStack != []
      requires m.indexStack != []
      modifies this`docStackPointer, this`indexStackPointer, this`arrayIndex, this`state
      ensures var n, k := |m.docStack| - 1, |m.indexStack| - 1;
              Holds(m.docStack[n], m.typespec, m.indexStack[k], m.docStack[..n], m.indexStack[..k])
    {
      indexStackPointer := indexStackPointer - 1;
      arrayIndex := indexStack[indexStackPointer];
      assert indexStack[..indexStackPointer] == m.indexStack[..|m.indexStack| - 1];
      docStackPointer := docStackPointer - 1;
      state := docStack[docStackPointer];
      assert docStack[..docStackPointer] == m.docStack[..|m.docStack| - 1];
    }
  }

  // The variables of f are those of the machine m; key only while it is live.
  ghost predicate Mirrors(f: Frame, m: Machine)
    reads f, f.docStack, f.indexStack
  {
    && f.Holds(m.mode, m.typespec, m.arrayIndex, m.docStack, m.indexStack)
    && (m.key.Some? ==> m.key.value == f.key)
  }

  // The machine and the builder in step: the calls made so far are those of m.
  ghost predicate InStep(m: Machine, b: Bson, st: State)
    reads b
  {
    st.Open() && b.Abs() == Run(st, m.ops)
  }

  lemma OneMore(st: State, ops: seq<Op>, op: Op)
    requires st.Open()
    ensures Run(st, ops + [op]) == Step(Run(st, ops), op)
  {
    hide Step;
    RunConcat(st, ops, [op]);
    OneCall(Run(st, ops), op);
  }

  lemma SameCalls(m: Machine, n: Machine, b: Bson, st: State)
    requires InStep(m, b, st) && m.ops == n.ops
    ensures InStep(n, b, st)
  {
    hide Run;
  }

  ghost predicate Apart(f: Frame, b: Bson)
    reads b
  {
    {f, f.docStack, f.indexStack} !! b.Repr()
  }

  // A closing brace or bracket.
  method CloseDocument(f: Frame, b: Bson, ghost m: Machine, ghost st: State)
    requires b.Valid() && !b.finished && Apart(f, b) && Mirrors(f, m) && InStep(m, b, st) && m.key.None?
    requires Popped(m).Some?
    modifies f, b.Repr()
    ensures b.Valid() && !b.finished && fresh(b.Repr() - old(b.Repr())) && Apart(f, b)
    ensures var next := Popped(m).value;
            Mirrors(f, next) && InStep(next, b, st) && next.ok == m.ok && next.ended == m.ended
  {
    hide Bson.Valid, Frame.Holds, Step, Run;
    OneMore(st, m.ops, Close);
    b.Call(Close);
    f.DocPop(m);
  }

  method CloseArray(f: Frame, b: Bson, ghost m: Machine, ghost st: State)
    requires b.Valid() && !b.finished && Apart(f, b) && Mirrors(f, m) && InStep(m, b, st) && m.key.None?
    requires PoppedArray(m).Some?
    modifies f, b.Repr()
    ensures b.Valid() && !b.finished && fresh(b.Repr() - old(b.Repr())) && Apart(f, b)
    ensures var next := PoppedArray(m).value;
            Mirrors(f, next) && InStep(next, b, st) && next.ok == m.ok && next.ended == m.ended
  {
    hide Bson.Valid, Frame.Holds, Step, Run;
    OneMore(st, m.ops, Close);
    b.Call(Close);
    f.ArrayPop(m);
  }

  // State_Element.
  method TurnElement(f: Frame, b: Bson, v: Bcon, ghost m: Machine, ghost st: State) returns (endOfData: bool)
    requires b.Valid() && !b.finished && Apart(f, b) && Mirrors(f, m) && InStep(m, b, st)
    requires Sane(m) && m.mode == Element && !m.ended && StepElement(m, v).Some?
    modifies f, f.docStack, f.indexStack, b.Repr()
    ensures b.Valid() && !b.finished && fresh(b.Repr() - old(b.Repr())) && Apart(f, b)
    ensures var next := StepElement(m, v).value;
            Mirrors(f, next) && InStep(next, b, st) && endOfData == next.ended && next.ok == m.ok
  {
    hide Bson.Valid, Frame.Holds, InStep, Popped, TokenOf;
    endOfData := false;
    match TokenOf(v.s)
    case CloseBrace => CloseDocument(f, b, m, st);
    case End =>
      SameCalls(m, m.(ended := true), b, st);
      endOfData := true;
    case _ =>
      SameCalls(m, m.(key := Some(v.s), mode := DocSpecValue), b, st);
      f.key := v.s;
      f.SetState(DocSpecValue, m);
  }

  // An opening brace or bracket under the current key.
  method OpenDocument(f: Frame, b: Bson, back: Return, ghost m: Machine, ghost st: State)
    requires b.Valid() && !b.finished && Apart(f, b) && InStep(m, b, st)
    requires f.Holds(m.mode, m.typespec, m.arrayIndex, m.docStack, m.indexStack) && |m.docStack| < STACK_SIZE
    modifies f, f.docStack, b.Repr()
    ensures b.Valid() && !b.finished && fresh(b.Repr() - old(b.Repr())) && Apart(f, b)
    ensures var next := Pushed(m, Start(old(f.key), false), back, Element).value;
            Mirrors(f, next) && InStep(next, b, st)
  {
    hide Bson.Valid, Frame.Holds, Step, Run;
    OneMore(st, m.ops, Start(f.key, false));
    b.Call(Start(f.key, false));
    f.DocPush(back, Element, m);
  }

  method OpenArray(f: Frame, b: Bson, back: Return, ghost m: Machine, ghost st: State)
    requires b.Valid() && !b.finished && Apart(f, b) && InStep(m, b, st)
    requires f.Holds(m.mode, m.typespec, m.arrayIndex, m.docStack, m.indexStack)
    requires |m.docStack| < STACK_SIZE && |m.indexStack| < STACK_SIZE
    modifies f, f.docStack, f.indexStack, b.Repr()
    ensures b.Valid() && !b.finished && fresh(b.Repr() - old(b.Repr())) && Apart(f, b)
    ensures var next := PushedArray(m, Start(old(f.key), true), back).value; Mirrors(f, next) && InStep(next, b, st)
  {
    hide Bson.Valid, Frame.Holds, Step, Run;
    OneMore(st, m.ops, Start(f.key, true));
    b.Call(Start(f.key, true));
    f.ArrayPush(back, ArraySpecValue, m);
  }

  // A bare string under the current key.
  method TurnPlain(f: Frame, b: Bson, v: Bcon, next: Return, ghost m: Machine, ghost st: State) returns (ret: bool)
    requires b.Valid() && !b.finished && Apart(f, b) && InStep(m, b, st)
    requires f.Holds(m.mode, m.typespec, m.arrayIndex, m.docStack, m.indexStack)
    requires m.typespec.Some? ==> |m.typespec.value| == 4
    requires AddValue(m, f.key, v, next).Some?
    modifies f, b.Repr()
    ensures b.Valid() && !b.finished && fresh(b.Repr() - old(b.Repr())) && Apart(f, b)
    ensures var r := AddValue(m, old(f.key), v, next).value;
            Mirrors(f, r) && InStep(r, b, st) && ret == r.ok && r.ended == m.ended
    decreases v, 3
  {
    hide Bson.Valid, Frame.Holds, Step, Run, KeyValue;
    RunConcat(st, m.ops, KeyValue(f.key, f.typespec, v).value.0);
    ret := BconKeyValue(b, f.key, f.typespec, v);
    f.SetState(next, m);
  }

  // State_DocSpecValue.
  method TurnDocSpecValue(f: Frame, b: Bson, v: Bcon, ghost m: Machine, ghost st: State)
    returns (endOfData: bool, ret: bool)
    requires b.Valid() && !b.finished && Apart(f, b) && Mirrors(f, m) && InStep(m, b, st)
    requires Sane(m) && m.mode == DocSpecValue && m.ok && !m.ended && StepDocSpecValue(m, v).Some?
    modifies f, f.docStack, f.indexStack, b.Repr()
    ensures b.Valid() && !b.finished && fresh(b.Repr() - old(b.Repr())) && Apart(f, b)
    ensures var next := StepDocSpecValue(m, v).value;
            Mirrors(f, next) && InStep(next, b, st) && endOfData == next.ended && ret == next.ok
    decreases v, 4
  {
    hide Bson.Valid, Frame.Holds, Step, Run, TokenOf, KeyValue, AddValue;
    endOfData, ret := false, true;
    match TokenOf(v.s)
    case Typespec =>
      f.SetTypespec(Some(v.s), DocValue, m);
    case OpenBrace =>
      OpenDocument(f, b, Element, m, st);
    case OpenBracket =>
      OpenArray(f, b, Element, m, st);
    case End => endOfData := true;
    case _ =>
      ret := TurnPlain(f, b, v, Element, m, st);
  }

  // An array element takes the next index as its key.
  method TurnArrayEntry(f: Frame, b: Bson, v: Bcon, ghost m: Machine, ghost st: State) returns (ret: bool)
    requires b.Valid() && !b.finished && Apart(f, b) && Mirrors(f, m) && InStep(m, b, st)
    requires Sane(m) && m.mode == ArraySpecValue && m.ok && v.S? && StepArrayEntry(m, v).Some?
    modifies f, f.docStack, f.indexStack, b.Repr()
    ensures b.Valid() && !b.finished && fresh(b.Repr() - old(b.Repr())) && Apart(f, b)
    ensures var next := StepArrayEntry(m, v).value;
            Mirrors(f, next) && InStep(next, b, st) && ret == next.ok && next.ended == m.ended
    decreases v, 4
  {
    hide Bson.Valid, Frame.Holds, InStep, TokenOf, KeyValue, AddValue, NumStr;
    ret := true;
    ghost var counted := Counted(m);
    SameCalls(m, counted, b, st);
    f.NextKey(m);
    match TokenOf(v.s)
    case OpenBrace => OpenDocument(f, b, ArraySpecValue, counted, st);
    case OpenBracket => OpenArray(f, b, ArraySpecValue, counted, st);
    case _ => ret := TurnPlain(f, b, v, ArraySpecValue, counted, st);
  }

  // State_ArraySpecValue.
  method TurnArraySpecValue(f: Frame, b: Bson, v: Bcon, ghost m: Machine, ghost st: State)
    returns (endOfData: bool, ret: bool)
    requires b.Valid() && !b.finished && Apart(f, b) && Mirrors(f, m) && InStep(m, b, st)
    requires Sane(m) && m.mode == ArraySpecValue && m.ok && !m.ended && StepArraySpecValue(m, v).Some?
    modifies f, f.docStack, f.indexStack, b.Repr()
    ensures b.Valid() && !b.finished && fresh(b.Repr() - old(b.Repr())) && Apart(f, b)
    ensures var next := StepArraySpecValue(m, v).value;
            Mirrors(f, next) && InStep(next, b, st) && endOfData == next.ended && ret == next.ok
    decreases v, 5
  {
    hide Bson.Valid, Frame.Holds, InStep, PoppedArray, TokenOf, StepArrayEntry;
    endOfData, ret := false, true;
    match TokenOf(v.s)
    case Typespec =>
      SameCalls(m, m.(typespec := Some(v.s), mode := ArrayValue), b, st);
      f.SetTypespec(Some(v.s), ArrayValue, m);
    case CloseBracket => CloseArray(f, b, m, st);
    case End =>
      SameCalls(m, m.(ended := true), b, st);
      endOfData := true;
    case _ => ret := TurnArrayEntry(f, b, v, m, st);
  }

  lemma ValueStep(m: Machine, v: Bcon)
    requires Sane(m) && (m.mode == DocValue || m.mode == ArrayValue) && StepEntry(m, v).Some?
    ensures m.mode == ArrayValue ==> m.arrayIndex <= MAX_INDEX
    ensures var key := if m.mode == DocValue then m.key.value else NumStr(m.arrayIndex);
            var r, n := KeyValue(key, m.typespec, v), StepEntry(m, v).value;
            && r.Some? && n.ops == m.ops + r.value.0 && n.ok == r.value.1 && n.ended == m.ended
            && n.mode == (if m.mode == DocValue then Element else ArraySpecValue) && n.key.None? && n.typespec.None?
            && n.arrayIndex == (if m.mode == DocValue then m.arrayIndex else m.arrayIndex + 1)
            && n.docStack == m.docStack && n.indexStack == m.indexStack
  {
    hide KeyValue, NumStr, TokenOf;
  }

  // State_DocValue and State_ArrayValue: the entry behind a type specifier is never read as a token.
  method TurnValue(f: Frame, b: Bson, v: Bcon, ghost m: Machine, ghost st: State) returns (ret: bool)
    requires b.Valid() && !b.finished && Apart(f, b) && Mirrors(f, m) && InStep(m, b, st)
    requires Sane(m) && (m.mode == DocValue || m.mode == ArrayValue) && StepEntry(m, v).Some?
    modifies f, b.Repr()
    ensures b.Valid() && !b.finished && fresh(b.Repr() - old(b.Repr())) && Apart(f, b)
    ensures var next := StepEntry(m, v).value;
            Mirrors(f, next) && InStep(next, b, st) && ret == next.ok && m.ended == next.ended
    decreases v, 3
  {
    hide Bson.Valid, Frame.Holds, Step, Run, TokenOf, KeyValue, NumStr, StepEntry;
    ValueStep(m, v);
    var next: Return := Element;
    if f.state == ArrayValue {
      f.NextKey(m);
      next := ArraySpecValue;
    }
    ret := BconKeyValue(b, f.key, f.typespec, v);
    RunConcat(st, m.ops, KeyValue(f.key, f.typespec, v).value.0);
    f.SetTypespec(None, next, if next == Element then m else Counted(m));
  }

  // One turn of the loop.
  method Turn(f: Frame, b: Bson, v: Bcon, ghost m: Machine, ghost st: State) returns (endOfData: bool, ret: bool)
    requires b.Valid() && !b.finished && Apart(f, b) && Mirrors(f, m) && InStep(m, b, st)
    requires Sane(m) && m.ok && !m.ended && StepEntry(m, v).Some?
    modifies f, f.docStack, f.indexStack, b.Repr()
    ensures b.Valid() && !b.finished && fresh(b.Repr() - old(b.Repr())) && Apart(f, b)
    ensures var next := StepEntry(m, v).value;
            Mirrors(f, next) && InStep(next, b, st) && endOfData == next.ended && ret == next.ok
    decreases v, 6
  {
    hide Bson.Valid, Step, StepDocSpecValue, StepArraySpecValue, StepElement, Run, NumStr, KeyValue, AddValue;
    endOfData, ret := false, true;
    match f.state {
      case Element => endOfData := TurnElement(f, b, v, m, st);
      case DocSpecValue => endOfData, ret := TurnDocSpecValue(f, b, v, m, st);
      case ArraySpecValue => endOfData, ret := TurnArraySpecValue(f, b, v, m, st);
      case DocValue => ret := TurnValue(f, b, v, m, st);
      case ArrayValue => ret := TurnValue(f, b, v, m, st);
    }
  }

  // bson_bcon_key_value.
  method BconKeyValue(b: Bson, key: CString, typespec: Option<CString>, v: Bcon) returns (ret: bool)
    requires b.Valid() && !b.finished
    requires typespec.Some? ==> |typespec.value| == 4
    requires KeyValue(key, typespec, v).Some?
    modifies b.Repr()
    ensures b.Valid() && !b.finished && fresh(b.Repr() - old(b.Repr()))
    ensures var (ops, ok, _) := KeyValue(key, typespec, v).value;
            b.Abs() == Run(old(b.Abs()), ops) && ret == ok
    decreases v, 2
  {
    hide Bson.Valid, Step, Direct;
    var ptype := if typespec.Some? then typespec.value[1] else UNDERSCORE;
    var utype := if typespec.Some? then typespec.value[2] else UNDERSCORE;
    NoOps(b.Abs());
    if ptype == UNDERSCORE {
      ret := AppendDirect(b, key, utype, v);
    } else if ptype == CH_R {
      ret := AppendDirect(b, key, utype, if v.Ref? then v.scalar else v);
    } else if v.target.None? {
      ret := true;
    } else {
      ret := AppendDirect(b, key, utype, v.target.value);
    }
  }

  method AppendDirect(b: Bson, key: CString, u: byte, v: Bcon) returns (ret: bool)
    requires b.Valid() && !b.finished && Direct(key, u, v).Some?
    modifies b.Repr()
    ensures b.Valid() && !b.finished && fresh(b.Repr() - old(b.Repr()))
    ensures var (ops, ok, _) := Direct(key, u, v).value;
            b.Abs() == Run(old(b.Abs()), ops) && ret == ok
    decreases v, 1
  {
    hide Bson.Valid, Step, ScalarValue, Compile, Run;
    ghost var st := b.Abs();
    if v.D? && u == 0x44 {
      InterpolatedRun(st, key, false, Compile(v.list, Element).value.ops);
      b.Call(Start(key, false));
      ret := AppendBconWithState(b, v.list, Element);
      b.Call(Close);
    } else if v.A? && u == 0x41 {
      InterpolatedRun(st, key, true, Compile(v.list, ArraySpecValue).value.ops);
      b.Call(Start(key, true));
      ret := AppendBconWithState(b, v.list, ArraySpecValue);
      b.Call(Close);
    } else {
      OneCall(st, Append(key, ScalarValue(u, v).value));
      b.Call(Append(key, ScalarValue(u, v).value));
      ret := true;
    }
  }

  lemma InterpolatedRun(st: State, key: CString, isArray: bool, ops: seq<Op>)
    requires st.Open()
    ensures Run(st, [Start(key, isArray)] + ops + [Close]) == Step(Run(Step(st, Start(key, isArray)), ops), Close)
  {
    hide Step;
    OneMore(st, [Start(key, isArray)] + ops, Close);
    RunConcat(st, [Start(key, isArray)], ops);
    OneCall(st, Start(key, isArray));
  }

  // bson_append_bcon_with_state: the result looks at the final state only.
  method AppendBconWithState(b: Bson, bc: seq<Bcon>, start: Return) returns (ok: bool)
    requires b.Valid() && !b.finished && Compile(bc, start).Some?
    modifies b.Repr()
    ensures b.Valid() && !b.finished && fresh(b.Repr() - old(b.Repr()))
    ensures var m := Compile(bc, start).value;
            b.Abs() == Run(old(b.Abs()), m.ops) && (ok <==> m.mode == start)
    decreases bc
  {
    hide Bson.Valid, Frame.Holds, Step, StepEntry, Run;
    var ret, endOfData, i := true, false, 0;
    var f := new Frame(start);
    ghost var st, m := b.Abs(), Begin(start);
    NoOps(st);
    assert bc[0..] == bc;
    while ret && !endOfData
      invariant 0 <= i <= |bc|
      invariant b.Valid() && !b.finished && fresh(b.Repr() - old(b.Repr())) && Apart(f, b)
      invariant fresh(f) && fresh(f.docStack) && fresh(f.indexStack)
      invariant Mirrors(f, m) && InStep(m, b, st) && Sane(m) && ret == m.ok && endOfData == m.ended
      invariant Drive(m, bc[i..]) == Compile(bc, start)
      decreases |bc| - i
    {
      assert bc[i..][1..] == bc[i + 1..] && bc[i..][0] == bc[i];
      ghost var next := StepEntry(m, bc[i]).value;
      endOfData, ret := Turn(f, b, bc[i], m, st);
      m := next;
      i := i + 1;
    }
    ok := f.state == start;
  }

  lemma NoOps(st: State)
    requires st.Open()
    ensures Run(st, []) == st
  {
  }

  // bson_from_bcon.
  method FromBcon(bc: seq<Bcon>) returns (r: Option<seq<byte>>)
    requires Compile(bc, Element).Some?
    ensures r == Returned(INITIAL_BUFFER_SIZE, bc)
  {
    hide Compile, Run;
    var b := new Bson();
    var complete := AppendBconWithState(b, bc, Element);
    if !complete {
      return None;
    }
    var ok := b.FinishBson();
    r := if ok then Some(b.data[..b.cur]) else None;
  }

  // A well-formed list, whatever stands behind its end token, compiles to the encoding of the document it reads as.
  method CompileDocument(ghost fields: seq<BField>, bc: seq<Bcon>) returns (bytes: seq<byte>)
    requires IsDocument(bc, fields)
    requires Clean(DocElems(fields)) && HasRoom(INITIAL_BUFFER_SIZE, DocElems(fields))
    ensures bytes == F.EncDoc(DocElems(fields))
  {
    hide Compile, Returned, Clean, HasRoom, DocElems, FieldEntries, F.EncDoc;
    WellFormedReturns(INITIAL_BUFFER_SIZE, bc, fields);
    var r := FromBcon(bc);
    bytes := r.value;
  }
}

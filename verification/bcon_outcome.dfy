// What bson_from_bcon returns for any list: when it is the document that the list reads as, when it is no document at
// all, and lists that are accepted although they are incomplete.
module BconOutcome {
  import opened Bytes
  import opened Wrappers
  import opened Utf8
  import F = BsonFormat
  import opened BsonSpec
  import opened BsonRuns
  import opened BsonTrees
  import opened BsonRoom
  import opened BsonOpen
  import BsonFinish
  import opened BconSpec
  import opened BconGrammar
  import opened BconConverse

  // The document returned by bson_from_bcon on a builder of the given capacity, which tests the state of the machine
  // alone.
  function Returned(cap: nat, list: seq<Bcon>): Option<seq<byte>>
    requires Compile(list, Element).Some?
  {
    var m := Compile(list, Element).value;
    var (st, ok) := Finish(Run(InitialState(cap), m.ops));
    if m.mode == Element && ok then Some(st.doc) else None
  }

  // A well-formed list gives the encoding of the document that it reads as if and only if its text is clean and it has
  // room.
  lemma WellFormedReturns(cap: nat, list: seq<Bcon>, fields: seq<BField>)
    requires IsDocument(list, fields) && cap <= INT32_MAX
    ensures Compile(list, Element).Some?
    ensures Returned(cap, list) == Some(F.EncDoc(DocElems(fields)))
       <==> Clean(DocElems(fields)) && HasRoom(cap, DocElems(fields))
  {
    hide Compile, FieldEntries, DocElems, Calls, Run, Finish, Clean, HasRoom, F.EncDoc;
    var all := FieldEntries(fields) + [S(END)];
    DocumentCompiles(fields, list[|all|..]);
    assert list == all + list[|all|..];
    WrittenExactly(cap, DocElems(fields));
  }

  // ---- No regex, so no call of a list leaves part of an element

  predicate NoRegex(ops: seq<Op>) {
    forall op :: op in ops && op.Append? ==> !op.value.Regex?
  }

  lemma {:induction false} DriveNoRegex(m: Machine, list: seq<Bcon>)
    requires Sane(m) && NoRegex(m.ops) && Drive(m, list).Some?
    ensures NoRegex(Drive(m, list).value.ops)
    decreases list, 6
  {
    hide StepEntry, NoRegex;
    if m.ok && !m.ended {
      StepNoRegex(m, list[0]);
      DriveNoRegex(StepEntry(m, list[0]).value, list[1..]);
    }
  }

  lemma {:induction false} StepNoRegex(m: Machine, v: Bcon)
    requires Sane(m) && NoRegex(m.ops) && StepEntry(m, v).Some?
    ensures NoRegex(StepEntry(m, v).value.ops)
    decreases v, 5
  {
    hide TokenOf, NumStr, AddValue, StepArrayEntry, KeyValue;
    match m.mode {
      case Element => assert StepEntry(m, v) == StepElement(m, v);
      case DocSpecValue => ValueNoRegex(m, v);
      case DocValue => AddNoRegex(m, m.key.value, v, Element);
      case ArraySpecValue =>
        assert StepEntry(m, v) == StepArraySpecValue(m, v);
        ArrayEntryNoRegex(m, v);
      case ArrayValue => AddNoRegex(Counted(m), NumStr(m.arrayIndex), v, ArraySpecValue);
    }
  }

  lemma {:induction false} ValueNoRegex(m: Machine, v: Bcon)
    requires Sane(m) && m.mode == DocSpecValue && NoRegex(m.ops) && StepEntry(m, v).Some?
    ensures NoRegex(StepEntry(m, v).value.ops)
    decreases v, 4
  {
    hide TokenOf, AddValue, KeyValue;
    assert StepEntry(m, v) == StepDocSpecValue(m, v);
    AddNoRegex(m, m.key.value, v, Element);
  }

  lemma {:induction false} ArrayEntryNoRegex(m: Machine, v: Bcon)
    requires Sane(m) && m.mode == ArraySpecValue && NoRegex(m.ops)
    ensures v.S? && StepArrayEntry(m, v).Some? ==> NoRegex(StepArrayEntry(m, v).value.ops)
    decreases v, 4
  {
    hide TokenOf, NumStr, AddValue, KeyValue;
    AddNoRegex(Counted(m), NumStr(m.arrayIndex), v, ArraySpecValue);
  }

  lemma {:induction false} AddNoRegex(m: Machine, key: CString, v: Bcon, next: Return)
    requires (m.typespec.Some? ==> |m.typespec.value| == 4) && NoRegex(m.ops)
    ensures AddValue(m, key, v, next).Some? ==> NoRegex(AddValue(m, key, v, next).value.ops)
    decreases v, 3
  {
    hide KeyValue;
    KeyValueNoRegex(key, m.typespec, v);
  }

  lemma {:induction false} KeyValueNoRegex(key: CString, spec: Option<CString>, v: Bcon)
    requires spec.Some? ==> |spec.value| == 4
    ensures KeyValue(key, spec, v).Some? ==> NoRegex(KeyValue(key, spec, v).value.0)
    decreases v, 2
  {
    hide Direct, NoRegex;
    var u := if spec.Some? then spec.value[2] else UNDERSCORE;
    NothingIsNoRegex();
    DirectNoRegex(key, u, v);
    if v.Ref? {
      DirectNoRegex(key, u, v.scalar);
    } else if v.Ptr? && v.target.Some? {
      DirectNoRegex(key, u, v.target.value);
    }
  }

  lemma NothingIsNoRegex()
    ensures NoRegex([])
  {
  }

  lemma {:induction false} DirectNoRegex(key: CString, u: byte, v: Bcon)
    ensures Direct(key, u, v).Some? ==> NoRegex(Direct(key, u, v).value.0)
    decreases v, 1
  {
    hide Compile, Drive;
    if v.D? {
      CompileNoRegex(v.list, Element);
    } else if v.A? {
      CompileNoRegex(v.list, ArraySpecValue);
    }
  }

  lemma {:induction false} CompileNoRegex(list: seq<Bcon>, start: Return)
    ensures Compile(list, start).Some? ==> NoRegex(Compile(list, start).value.ops)
    decreases list, 7
  {
    hide Drive;
    if Compile(list, start).Some? {
      DriveNoRegex(Begin(start), list);
    }
  }

  lemma {:induction false} NoRegexIsTidy(st: State, ops: seq<Op>)
    requires st.Open() && NoRegex(ops)
    ensures Tidy(st, ops)
    decreases |ops|
  {
    hide Try, Step;
    if ops != [] {
      assert ops[0] in ops;
      NoRegexIsTidy(Step(st, ops[0]), ops[1..]);
    }
  }

  // ---- Whatever the list

  // The bytes returned are the encoding of a document if and only if the calls that succeeded closed all they opened,
  // and then they are that of the elements written.
  lemma ReturnedIsDocument(cap: nat, list: seq<Bcon>)
    requires Compile(list, Element).Some? && Returned(cap, list).Some?
    ensures var s := Read(NOTHING, Kept(InitialState(cap), Compile(list, Element).value.ops));
            && (s.heads == [] ==> Returned(cap, list) == Some(F.EncDoc(s.docs[0])))
            && ((exists es :: Returned(cap, list) == Some(F.EncDoc(es))) <==> s.heads == [])
  {
    hide Compile, Run, Finish, Read, Kept, Tidy, Shows, NoRegex, F.EncDoc;
    var st, ops := InitialState(cap), Compile(list, Element).value.ops;
    CompileNoRegex(list, Element);
    NoRegexIsTidy(st, ops);
    FreshShows(cap);
    RunShows(st, NOTHING, ops);
    NotFinished(st, ops);
    FinishedExactly(Run(st, ops), Read(NOTHING, Kept(st, ops)));
  }

  // Something is returned if and only if the machine stops between entries and the tally of its calls passes.
  lemma ReturnedWhen(cap: nat, list: seq<Bcon>)
    requires Compile(list, Element).Some?
    ensures var m := Compile(list, Element).value;
            Returned(cap, list).Some? <==>
            m.mode == Element && BsonFinish.Passes(BsonFinish.End(BsonFinish.Fresh(cap), m.ops))
  {
    hide Compile, Run, Finish, BsonFinish.End, BsonFinish.Passes, BsonFinish.Tallied, AllSucceed, BsonFinish.Smooth;
    BsonFinish.FreshIsTallied(cap);
    BsonFinish.FinishReports(InitialState(cap), BsonFinish.Fresh(cap), Compile(list, Element).value.ops);
  }

  lemma FreshShows(cap: nat)
    ensures InitialState(cap).Open() && !InitialState(cap).finished && Shows(InitialState(cap).levels, NOTHING)
  {
  }

  // ---- A list of empty stacks that is incomplete

  const KEY_A: CString := [0x61]
  const KEY_B: CString := [0x62]
  const UNCLOSED: seq<Bcon> := [S(KEY_B), S(OPEN_BRACE), S(END)]
  const OUTER: seq<Bcon> := [S(KEY_A), S(SpecOf(UNDERSCORE, 0x44)), D(UNCLOSED), S(END)]
  const OPEN_CALLS: seq<Op> := [Start(KEY_A, false), Start(KEY_B, false), Close]

  lemma UnclosedRun()
    ensures Compile(UNCLOSED, Element)
         == Some(Begin(Element).(docStack := [Element], ops := [Start(KEY_B, false)], ended := true))
  {
    hide StepEntry, TokenOf;
    var keyed := Begin(Element).(key := Some(KEY_B), mode := DocSpecValue);
    var inside := Pushed(keyed, Start(KEY_B, false), Element, Element).value;
    assert inside.ops == [Start(KEY_B, false)] && inside.docStack == [Element];
    LetterIsKey();
    KeyStep(Begin(Element), KEY_B);
    OpenInDocument(keyed);
    EndStep(inside);
    Entry(Begin(Element), S(KEY_B), [S(OPEN_BRACE), S(END)], keyed);
    Entry(keyed, S(OPEN_BRACE), [S(END)], inside);
    Entry(inside, S(END), [], inside.(ended := true));
    assert UNCLOSED == [S(KEY_B)] + [S(OPEN_BRACE), S(END)];
  }

  // An interpolated document with an open brace: the outer list ends with both stacks empty, yet one document stays
  // open.
  lemma OuterRun()
    ensures Compile(OUTER, Element) == Some(Begin(Element).(ops := OPEN_CALLS, ended := true, whole := false))
  {
    hide StepEntry, TokenOf, KeyValue, Compile;
    var spec := SpecOf(UNDERSCORE, 0x44);
    var keyed := Begin(Element).(key := Some(KEY_A), mode := DocSpecValue);
    var reading := keyed.(typespec := Some(spec), mode := DocValue);
    var read := Begin(Element).(ops := OPEN_CALLS, whole := false);
    LetterIsKey();
    KeyStep(Begin(Element), KEY_A);
    UnclosedRun();
    EmbeddedKeyValue(KEY_A, UNDERSCORE, UNCLOSED);
    SpecStep(keyed, spec, D(UNCLOSED));
    assert [] + ([Start(KEY_A, false)] + [Start(KEY_B, false)] + [Close]) == OPEN_CALLS;
    EndStep(read);
    Entry(Begin(Element), S(KEY_A), [S(spec), D(UNCLOSED), S(END)], keyed);
    Entry(keyed, S(spec), [D(UNCLOSED), S(END)], reading);
    Entry(reading, D(UNCLOSED), [S(END)], read);
    Entry(read, S(END), [], read.(ended := true));
    assert OUTER == [S(KEY_A)] + [S(spec), D(UNCLOSED), S(END)];
    CompileIsDrive(OUTER);
  }

  lemma CompileIsDrive(list: seq<Bcon>)
    ensures Compile(list, Element) == Drive(Begin(Element), list)
  {
  }

  // It is returned as a document, and its bytes are none.
  lemma OuterIsNoDocument()
    ensures Compile(OUTER, Element).Some? && Returned(128, OUTER).Some?
    ensures forall es :: Returned(128, OUTER) != Some(F.EncDoc(es))
  {
    hide Compile, Run, Finish, Kept, Tidy, F.EncDoc, AllSucceed;
    var st := InitialState(128);
    OuterRun();
    OpenCallsSucceed();
    SuccessIsTidy(st, OPEN_CALLS);
    OpenCallsRead();
    ReturnedIsDocument(128, OUTER);
  }

  lemma OpenCallsRead()
    ensures Read(NOTHING, OPEN_CALLS).heads == [Head(KEY_A, false)]
  {
    var a := ReadOne(NOTHING, Start(KEY_A, false));
    var b := ReadOne(a, Start(KEY_B, false));
    ReadFirst(NOTHING, OPEN_CALLS);
    assert OPEN_CALLS[1..] == [Start(KEY_B, false), Close];
    ReadFirst(a, OPEN_CALLS[1..]);
    assert OPEN_CALLS[1..][1..] == [Close];
    ReadFirst(b, [Close]);
    assert [Close][1..] == [];
    assert ReadOne(b, Close).heads == [Head(KEY_A, false)];
  }

  lemma OpenCallsSucceed()
    ensures AllSucceed(InitialState(128), OPEN_CALLS) && Finish(Run(InitialState(128), OPEN_CALLS)).1
  {
    hide AllSucceed, Run, Finish, NonUtf8, GrownSize;
    var st := InitialState(128);
    FreshBuilder(128);
    RunOutcome(st, OPEN_CALLS);
    assert OPEN_CALLS[1..] == [Start(KEY_B, false), Close];
    assert OPEN_CALLS[1..][1..] == [Close];
    assert [Close][1..] == [];
    assert Accepts(KEY_A) && Accepts(KEY_B);
    assert Orderly(2, [Close]) && Orderly(1, OPEN_CALLS[1..]);
    assert RoomAfter(128, 18, [Close]) == Some(128);
    assert RoomAfter(128, 11, OPEN_CALLS[1..]) == Some(128);
    assert TotalGrowth([Close]) == 1 && TotalGrowth(OPEN_CALLS[1..]) == 8;
    FinishOutcome(Run(st, OPEN_CALLS));
  }
}

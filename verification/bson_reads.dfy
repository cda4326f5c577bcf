// What a successful bson_finish yields: the elements in the calls that succeeded.
module BsonReads {
  import opened Utf8
  import opened BsonFormat
  import opened BsonSpec
  import opened BsonRuns
  import opened BsonOpen
  import opened BsonFinish

  // No regex is cut off when every pattern is accepted.
  predicate CleanPatterns(ops: seq<Op>) {
    forall op :: op in ops && op.Append? && op.value.Regex? ==> Accepts(op.value.pattern)
  }

  lemma {:induction false} CleanPatternsAreTidy(st: State, ops: seq<Op>)
    requires st.Open() && CleanPatterns(ops)
    ensures Tidy(st, ops)
    decreases |ops|
  {
    hide Try, Step, Dangles;
    if ops != [] {
      assert ops[0] in ops;
      CleanPatternIsWritten(st, ops[0]);
      CleanPatternsAreTidy(Step(st, ops[0]), ops[1..]);
    }
  }

  lemma CleanPatternIsWritten(st: State, op: Op)
    requires st.Open() && (op.Append? && op.value.Regex? ==> Accepts(op.value.pattern))
    ensures !Dangles(st, op)
  {
    hide StartElement, Scan, Payload;
  }

  // The finished bytes are the encoding of a document if and only if nothing is left open, and then it is that of the
  // elements in the calls that succeeded.
  lemma FinishedReads(cap: nat, ops: seq<Op>)
    requires CleanPatterns(ops) && Passes(End(Fresh(cap), ops))
    ensures var r, t, s := Finish(Run(InitialState(cap), ops)), Fresh(cap), Read(NOTHING, Taken(Fresh(cap), ops));
            && r.1 && |s.heads| == End(t, ops).depth
            && (s.heads == [] ==> r.0.doc == EncDoc(s.docs[0]))
            && ((exists es :: r.0.doc == EncDoc(es)) <==> s.heads == [])
  {
    hide Run, Read, Kept, Taken, Tidy, Finish, CleanPatterns, Passes, EncDoc, End, AllSucceed, Smooth, Overwrites;
    var st, t, s := InitialState(cap), Fresh(cap), Read(NOTHING, Taken(Fresh(cap), ops));
    FreshIsTallied(cap);
    FinishReports(st, t, ops);
    RunAgrees(st, t, ops);
    CleanPatternsAreTidy(st, ops);
    assert Shows(st.levels, NOTHING);
    RunShows(st, NOTHING, ops);
    FinishedExactly(Run(st, ops), s);
  }

  // A call that is refused is all that a run lost.
  lemma NothingTaken(cap: nat, ops: seq<Op>)
    requires CleanPatterns(ops) && Passes(End(Fresh(cap), ops)) && Taken(Fresh(cap), ops) == []
    ensures var r := Finish(Run(InitialState(cap), ops)); r.1 && r.0.doc == EncDoc([])
  {
    hide Run, Finish, Passes, End, EncDoc, CleanPatterns;
    FinishedReads(cap, ops);
  }
}

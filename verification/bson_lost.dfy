// What a document loses when bson_finish succeeds after a refused call, from its names and texts alone.
module BsonLost {
  import opened Bytes
  import opened Utf8
  import opened BsonFormat
  import opened BsonSpec
  import opened BsonTrees
  import opened BsonRoom
  import opened BsonFinish
  import opened BsonReads

  // ---- A document that fits: what is lost when bson_finish succeeds

  // The nested documents whose name is refused. Their contents go to the document around them, and each closes one
  // document too many.
  function LostIn(e: Elem): nat
    decreases e
  {
    match e.value
    case Document(es) => (if Accepts(e.name) then 0 else 1) + Lost(es)
    case Array(es) => (if Accepts(e.name) then 0 else 1) + Lost(es)
    case _ => 0
  }

  function Lost(es: seq<Elem>): nat
    decreases es
  {
    if es == [] then 0 else LostIn(es[0]) + Lost(es[1..])
  }

  predicate CleanElem(e: Elem) {
    Accepts(e.name) && CleanValue(e.value)
  }

  // Whether a refused text is on record after the elements of the root: the unmatched close of a lost document takes it
  // off.
  predicate Marks(bad: bool, es: seq<Elem>)
    decreases es
  {
    if es == [] then bad else Marks(LostIn(es[0]) == 0 && (bad || !CleanElem(es[0])), es[1..])
  }

  // Room for todo more bytes with no request above largest, whatever the capacity has become.
  predicate Roomy(t: Tally, todo: nat, largest: nat) {
    t.owns && largest >= 1 && t.pos + todo + largest <= INT32_MAX
  }

  lemma RoomyGrants(t: Tally, todo: nat, largest: nat, need: nat)
    requires Roomy(t, todo, largest) && need <= todo && need <= largest
    ensures Asked(t, need).Some?
  {
  }

  lemma {:induction false} EndConcat(t: Tally, a: seq<Op>, b: seq<Op>)
    ensures End(t, a + b) == End(End(t, a), b)
    decreases |a|
  {
    hide Next;
    if a == [] {
      assert a + b == b;
    } else {
      assert (a + b)[1..] == a[1..] + b;
      EndConcat(Next(t, a[0]).0, a[1..], b);
    }
  }

  lemma OneNext(t: Tally, op: Op)
    ensures End(t, [op]) == Next(t, op).0
  {
    hide Next;
    assert [op][1..] == [];
  }

  function Less(a: nat, b: nat): nat {
    if b <= a then a - b else 0
  }

  // After one element: what is lost closes that many documents around it; if more is lost than is open, the last close
  // is unmatched, and nothing is on record.
  predicate AfterElement(t: Tally, u: Tally, e: Elem) {
    u.depth == Less(t.depth, LostIn(e)) && (u.bad <==> LostIn(e) <= t.depth && (t.bad || !CleanElem(e)))
  }

  lemma ScalarTally(t: Tally, e: Elem, todo: nat, largest: nat)
    requires !e.value.Document? && !e.value.Array? && |EncElem(e)| <= largest && Roomy(t, |EncElem(e)| + todo, largest)
    ensures var u := Next(t, Append(e.name, e.value)).0; Roomy(u, todo, largest) && AfterElement(t, u, e)
  {
    hide Accepts, Asked, EncElem, EncLen;
    ElemSize(e);
    RoomyGrants(t, |EncElem(e)| + todo, largest, |EncElem(e)|);
    TextFits(e.value);
  }

  lemma TextFits(v: Value)
    ensures HasText(v) ==> |Payload(v)| > |v.s|
  {
  }

  lemma {:induction false} ElementTally(t: Tally, e: Elem, todo: nat, largest: nat)
    requires LargestFor(e) <= largest && Roomy(t, |EncElem(e)| + todo, largest)
    ensures var u := End(t, CallsFor(e)); Roomy(u, todo, largest) && AfterElement(t, u, e)
    decreases e
  {
    hide EncElem, Next, Roomy, AfterElement;
    if e.value.Document? || e.value.Array? {
      NestedTally(t, e, todo, largest);
    } else {
      OneNext(t, Append(e.name, e.value));
      ScalarTally(t, e, todo, largest);
    }
  }

  lemma NamedTally(t: Tally, start: Op, todo: nat, largest: nat)
    requires start.Start? && |start.name| + 7 <= largest && Roomy(t, |start.name| + 7 + todo, largest)
    ensures var u, ok := Next(t, start).0, Accepts(start.name);
            Roomy(u, 1 + todo, largest) && u.depth == t.depth + (if ok then 1 else 0) && u.bad == (t.bad || !ok)
  {
    hide Accepts, Asked;
    RoomyGrants(t, |start.name| + 7 + todo, largest, |start.name| + 7);
  }

  lemma CloseTally(t: Tally, todo: nat, largest: nat)
    requires Roomy(t, 1 + todo, largest)
    ensures var u := Next(t, Close).0;
            Roomy(u, todo, largest) && u.depth == Less(t.depth, 1) && (u.bad <==> t.bad && t.depth > 0)
  {
    hide Asked;
    RoomyGrants(t, 1 + todo, largest, 1);
  }

  lemma {:induction false} NestedTally(t: Tally, e: Elem, todo: nat, largest: nat)
    requires e.value.Document? || e.value.Array?
    requires LargestFor(e) <= largest && Roomy(t, |EncElem(e)| + todo, largest)
    ensures var u := End(t, CallsFor(e)); Roomy(u, todo, largest) && AfterElement(t, u, e)
    decreases e, 0
  {
    hide Next, Accepts, Body, EncLen;
    var es, start := e.value.es, Start(e.name, e.value.Array?);
    NamedTally(t, start, |Body(es)| + todo, largest);
    var begun := Next(t, start).0;
    CallsTally(begun, es, 1 + todo, largest);
    var inner := End(begun, Calls(es));
    CloseTally(inner, todo, largest);
    OneNext(t, start);
    OneNext(inner, Close);
    EndConcat(t, [start] + Calls(es), [Close]);
    EndConcat(t, [start], Calls(es));
  }

  lemma {:induction false} CallsTally(t: Tally, es: seq<Elem>, todo: nat, largest: nat)
    requires Largest(es) <= largest && Roomy(t, |Body(es)| + todo, largest)
    ensures var u := End(t, Calls(es));
            && Roomy(u, todo, largest) && u.depth == Less(t.depth, Lost(es))
            && (Lost(es) <= t.depth ==> (u.bad <==> t.bad || !Clean(es)))
            && (t.depth == 0 ==> (u.bad <==> Marks(t.bad, es)))
    decreases es
  {
    hide Next, CallsFor, EncElem, LostIn, LargestFor, Accepts, CleanValue;
    if es != [] {
      EndConcat(t, CallsFor(es[0]), Calls(es[1..]));
      ElementTally(t, es[0], |Body(es[1..])| + todo, largest);
      CallsTally(End(t, CallsFor(es[0])), es[1..], todo, largest);
    }
  }

  // A document that fits by its size and its largest request: bson_finish succeeds if and only if no refused text is
  // left on record, and the finished bytes are then its encoding if and only if its text is clean.
  lemma FittingFinish(cap: nat, es: seq<Elem>)
    requires cap <= INT32_MAX && Fits(es)
    ensures var r := Finish(Run(InitialState(cap), Calls(es)));
            (r.1 <==> !Marks(false, es)) && (r.1 ==> (r.0.doc == EncDoc(es) <==> Clean(es)))
  {
    hide Run, Calls, Finish, Clean, HasRoom, Body, EncLen, Largest, Marks, Asked;
    FinishedIsEncoding(cap, es);
    CallsTally(Fresh(cap), es, 1, Largest(es));
    RoomyGrants(End(Fresh(cap), Calls(es)), 1, Largest(es), 1);
    if Clean(es) {
      FittingHasRoom(cap, es);
    }
  }

  // ---- Finished, with everything lost

  const LOST_NAME: seq<Elem> := [Elem([0xFF], Document([]))]

  // The close of a document whose name was refused is unmatched, and its error takes the place of the refused text: the
  // empty document is finished.
  lemma LostNameIsFinished()
    ensures var r := Finish(Run(InitialState(128), Calls(LOST_NAME)));
            r.1 && r.0.doc == EncDoc([]) != EncDoc(LOST_NAME)
  {
    hide Run, Finish, Flat, EncLen;
    var ops := [Start([0xFF], false), Close];
    LostNameCalls();
    assert !Accepts([0xFF]);
    var t := Fresh(128).(bad := true);
    assert ops[1..] == [Close] && [Close][1..] == [];
    assert Next(Fresh(128), ops[0]) == (t, false) && Next(t, Close) == (Fresh(128), false);
    assert Taken(t, [Close]) == [] && End(t, [Close]) == Fresh(128);
    NothingTaken(128, ops);
  }

  lemma LostNameCalls()
    ensures Calls(LOST_NAME) == [Start([0xFF], false), Close]
    ensures EncDoc(LOST_NAME) != EncDoc([])
  {
    var e := LOST_NAME[0];
    assert Calls([]) == [] && LOST_NAME[1..] == [];
    assert |EncDoc(LOST_NAME)| > 5 == |EncDoc([])|;
  }

  // A refused size leaves no refused text either: this one binary element is lost without a trace.
  lemma LargeElementIsFinished(data: seq<byte>)
    requires |data| == INT32_MAX - 100
    ensures var es := [Elem([], Binary(0, data))];
            var r := Finish(Run(InitialState(128), Calls(es)));
            r.1 && r.0.doc == EncDoc([]) != EncDoc(es)
  {
    hide Run, Finish, Flat, EncLen;
    var es, op := [Elem([], Binary(0, data))], Append([], Binary(0, data));
    assert es[1..] == [] && Calls([]) == [];
    assert Calls(es) == [op] && [op][1..] == [];
    assert Next(Fresh(128), op) == (Fresh(128), false);
    assert |EncDoc(es)| > 5 == |EncDoc([])|;
    NothingTaken(128, [op]);
  }
}

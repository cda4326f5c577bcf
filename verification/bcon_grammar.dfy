// The recursive reading of BCON: what a list means as a document, and the proof that the machine's two
// stacks compute it.
module BconGrammar {
  import opened Bytes
  import opened Wrappers
  import F = BsonFormat
  import opened BsonSpec
  import opened BsonTrees
  import opened BconSpec
  import opened CBsonCodec

  // ---- Well-formed lists

  datatype BVal =
    | Plain(s: CString)                             // a bare string
    | Typed(spec: CString, v: Bcon)                 // a type specifier and a scalar
    | EmbedDoc(p: byte, fields: seq<BField>, junk: seq<Bcon>) // an interpolated document; its end is followed by junk
    | EmbedArr(p: byte, items: seq<BVal>, junk: seq<Bcon>)    // an interpolated array
    | Doc(fields: seq<BField>)                      // "{" ... "}"
    | Arr(items: seq<BVal>)                         // "[" ... "]"

  datatype BField = BField(key: CString, v: BVal)

  const OPEN_BRACE: CString := [0x7B]
  const CLOSE_BRACE: CString := [0x7D]
  const OPEN_BRACKET: CString := [0x5B]
  const CLOSE_BRACKET: CString := [0x5D]
  const END: CString := [0x2E]

  predicate IsPointerKind(p: byte) {
    p == UNDERSCORE || p == CH_R || p == CH_P
  }

  function SpecOf(p: byte, u: byte): (s: CString)
    requires IsPointerKind(p) && u != 0
    ensures TokenOf(s) == Typespec
  {
    [COLON, p, u, COLON]
  }

  function Embedded(p: byte, list: Bcon): Bcon {
    if p == CH_P then Ptr(Some(list)) else list
  }

  // The entries of a value, in order.
  function Entries(v: BVal): (list: seq<Bcon>)
    requires WellFormed(v, true) || WellFormed(v, false)
    decreases v
  {
    match v
    case Plain(s) => [S(s)]
    case Typed(spec, b) => [S(spec), b]
    case EmbedDoc(p, fields, junk) => [S(SpecOf(p, 0x44)), Embedded(p, D(FieldEntries(fields) + [S(END)] + junk))]
    case EmbedArr(p, items, junk) => [S(SpecOf(p, 0x41)), Embedded(p, A(ItemEntries(items) + [S(END)] + junk))]
    case Doc(fields) => [S(OPEN_BRACE)] + FieldEntries(fields) + [S(CLOSE_BRACE)]
    case Arr(items) => [S(OPEN_BRACKET)] + ItemEntries(items) + [S(CLOSE_BRACKET)]
  }

  function FieldEntries(fields: seq<BField>): (list: seq<Bcon>)
    requires WellFormedFields(fields)
    decreases fields
  {
    if fields == [] then [] else [S(fields[0].key)] + Entries(fields[0].v) + FieldEntries(fields[1..])
  }

  function ItemEntries(items: seq<BVal>): (list: seq<Bcon>)
    requires WellFormedItems(items)
    decreases items
  {
    if items == [] then [] else Entries(items[0]) + ItemEntries(items[1..])
  }

  // A bare string that does not read as a token where it stands; "}" may stand anywhere, "]" in a document.
  predicate IsPlain(s: CString, inArray: bool) {
    match TokenOf(s)
    case Default => true
    case CloseBrace => true
    case CloseBracket => !inArray
    case _ => false
  }

  predicate IsKey(s: CString) {
    TokenOf(s) != CloseBrace && TokenOf(s) != End
  }

  predicate WellFormed(v: BVal, inArray: bool)
    decreases v
  {
    match v
    case Plain(s) => IsPlain(s, inArray)
    case Typed(spec, b) => TokenOf(spec) == Typespec && ScalarOf(spec, b).Some?
    case EmbedDoc(p, fields, _) => IsPointerKind(p) && WellFormedFields(fields) && FieldsDepth(fields) <= STACK_SIZE
    case EmbedArr(p, items, _) => IsPointerKind(p) && WellFormedItems(items) && Stackable(items)
    case Doc(fields) => WellFormedFields(fields)
    case Arr(items) => WellFormedItems(items) && |items| <= MAX_INDEX + 1
  }

  // An array that a machine with stacks of its own can take.
  predicate Stackable(items: seq<BVal>) {
    ItemsDepth(items) <= STACK_SIZE && |items| <= MAX_INDEX + 1
  }

  predicate WellFormedFields(fields: seq<BField>)
    decreases fields
  {
    fields == [] || (IsKey(fields[0].key) && WellFormed(fields[0].v, false) && WellFormedFields(fields[1..]))
  }

  predicate WellFormedItems(items: seq<BVal>)
    decreases items
  {
    items == [] || (WellFormed(items[0], true) && WellFormedItems(items[1..]))
  }

  // How deep braces and brackets nest; an interpolated list is compiled with stacks of its own.
  function Depth(v: BVal): nat
    decreases v
  {
    match v
    case Doc(fields) => 1 + FieldsDepth(fields)
    case Arr(items) => 1 + ItemsDepth(items)
    case _ => 0
  }

  function FieldsDepth(fields: seq<BField>): nat
    decreases fields
  {
    if fields == [] then 0 else Max(Depth(fields[0].v), FieldsDepth(fields[1..]))
  }

  function ItemsDepth(items: seq<BVal>): nat
    decreases items
  {
    if items == [] then 0 else Max(Depth(items[0]), ItemsDepth(items[1..]))
  }

  // ---- Their meaning

  // The value behind a type specifier: none for a null pointer.
  function ScalarOf(spec: CString, b: Bcon): Option<seq<F.Value>>
    requires TokenOf(spec) == Typespec
  {
    var p, u := spec[1], spec[2];
    if p == CH_P && b.Ptr? && b.target.None? then Some([])
    else
      var scalar := if p == UNDERSCORE then Some(b)
                    else if u == UNDERSCORE || u == 0x76 then None
                    else if p == CH_P then (if b.Ptr? then b.target else None)
                    else if b.S? then Some(b)
                    else if b.Ref? && !b.scalar.S? then Some(b.scalar)
                    else None;
      if scalar.None? then None
      else match ScalarValue(u, scalar.value)
        case None => None
        case Some(value) => Some([value])
  }

  // The elements that a value stands for under a key: one, or none for a null pointer.
  function Elems(key: CString, v: BVal): (es: seq<F.Elem>)
    requires WellFormed(v, true) || WellFormed(v, false)
    ensures |es| <= 1
    ensures forall e :: e in es ==> e.name == key
    decreases v
  {
    match v
    case Plain(s) => [F.Elem(key, F.Str(s))]
    case Typed(spec, b) =>
      var values := ScalarOf(spec, b).value;
      if values == [] then [] else [F.Elem(key, values[0])]
    case EmbedDoc(_, fields, _) => [F.Elem(key, F.Document(DocElems(fields)))]
    case Doc(fields) => [F.Elem(key, F.Document(DocElems(fields)))]
    case EmbedArr(_, items, _) => [F.Elem(key, F.Array(ArrayElems(items, 0)))]
    case Arr(items) => [F.Elem(key, F.Array(ArrayElems(items, 0)))]
  }

  function DocElems(fields: seq<BField>): (es: seq<F.Elem>)
    requires WellFormedFields(fields)
    decreases fields
  {
    if fields == [] then [] else Elems(fields[0].key, fields[0].v) + DocElems(fields[1..])
  }

  // The items from index i on, keyed by their position.
  function ArrayElems(items: seq<BVal>, i: nat): (es: seq<F.Elem>)
    requires WellFormedItems(items)
    decreases items
  {
    if items == [] then [] else Elems(NumStr(i), items[0]) + ArrayElems(items[1..], i + 1)
  }

  // ---- The machine computes it

  // A machine between two values, with room on its stacks.
  predicate Between(m: Machine, depth: nat) {
    && m.typespec.None? && m.ok && !m.ended
    && |m.indexStack| <= |m.docStack| && |m.docStack| + depth <= STACK_SIZE
  }

  function Advanced(m: Machine, es: seq<F.Elem>): Machine {
    m.(ops := m.ops + Calls(es))
  }

  lemma DriveStep(m: Machine, v: Bcon, rest: seq<Bcon>)
    requires Sane(m) && m.ok && !m.ended && StepEntry(m, v).Some?
    ensures Drive(m, [v] + rest) == Drive(StepEntry(m, v).value, rest)
  {
    hide StepEntry;
    assert ([v] + rest)[0] == v && ([v] + rest)[1..] == rest;
  }

  lemma OneElem(e: F.Elem)
    ensures Calls([e]) == CallsFor(e)
  {
    hide CallsFor;
    assert [e][1..] == [];
    assert Calls([e]) == CallsFor(e) + [];
  }

  lemma OneScalar(key: CString, value: F.Value)
    requires !value.Document? && !value.Array?
    ensures Calls([F.Elem(key, value)]) == [Append(key, value)]
  {
    OneElem(F.Elem(key, value));
  }

  lemma {:induction false} FieldsCompile(m: Machine, fields: seq<BField>, rest: seq<Bcon>)
    requires WellFormedFields(fields) && m.mode == Element && m.key.None? && Between(m, FieldsDepth(fields))
    ensures Drive(m, FieldEntries(fields) + rest) == Drive(Advanced(m, DocElems(fields)), rest)
    decreases fields, 0
  {
    hide Drive, CallsFor, StepEntry, Entries, Elems, TokenOf;
    if fields == [] {
      assert FieldEntries(fields) + rest == rest;
      assert m.ops + [] == m.ops;
    } else {
      var f, tail := fields[0], FieldEntries(fields[1..]) + rest;
      var keyed := m.(key := Some(f.key), mode := DocSpecValue);
      assert FieldEntries(fields) + rest == [S(f.key)] + (Entries(f.v) + tail);
      KeyStep(m, f.key);
      DriveStep(m, S(f.key), Entries(f.v) + tail);
      FieldValueCompiles(keyed, f.v, tail);
      var next := Advanced(m, Elems(f.key, f.v));
      FieldsCompile(next, fields[1..], rest);
      CallsConcat(Elems(f.key, f.v), DocElems(fields[1..]));
      assert next.ops + Calls(DocElems(fields[1..]))
          == m.ops + (Calls(Elems(f.key, f.v)) + Calls(DocElems(fields[1..])));
    }
  }

  lemma KeyStep(m: Machine, key: CString)
    requires m.mode == Element && Sane(m) && IsKey(key)
    ensures StepEntry(m, S(key)) == Some(m.(key := Some(key), mode := DocSpecValue))
  {
  }

  lemma {:induction false} ItemsCompile(m: Machine, items: seq<BVal>, rest: seq<Bcon>)
    requires WellFormedItems(items) && m.mode == ArraySpecValue && m.key.None? && Between(m, ItemsDepth(items))
    requires m.arrayIndex + |items| <= MAX_INDEX + 1
    ensures Drive(m, ItemEntries(items) + rest)
         == Drive(Advanced(m, ArrayElems(items, m.arrayIndex)).(arrayIndex := m.arrayIndex + |items|), rest)
    decreases items, 0
  {
    hide Drive, Calls, StepEntry, Entries, Elems, NumStr;
    if items == [] {
      assert ItemEntries(items) + rest == rest;
      NoCall();
      assert m.ops + [] == m.ops;
    } else {
      var v, tail := items[0], ItemEntries(items[1..]) + rest;
      var i := m.arrayIndex;
      assert ItemEntries(items) + rest == Entries(v) + tail;
      ItemCompiles(m, v, tail);
      var next := Counted(Advanced(m, Elems(NumStr(i), v)));
      ItemsCompile(next, items[1..], rest);
      CallsConcat(Elems(NumStr(i), v), ArrayElems(items[1..], i + 1));
      assert next.ops + Calls(ArrayElems(items[1..], i + 1))
          == m.ops + (Calls(Elems(NumStr(i), v)) + Calls(ArrayElems(items[1..], i + 1)));
    }
  }

  // The value of a document key.
  lemma {:induction false} FieldValueCompiles(m: Machine, v: BVal, rest: seq<Bcon>)
    requires WellFormed(v, false) && m.mode == DocSpecValue && m.key.Some? && Between(m, Depth(v))
    ensures Drive(m, Entries(v) + rest)
         == Drive(Advanced(m, Elems(m.key.value, v)).(mode := Element, key := None), rest)
    decreases v, 2
  {
    hide Drive, Calls, StepEntry, KeyValue, TokenOf, DocElems, ArrayElems, FieldEntries, ItemEntries;
    var key := m.key.value;
    match v
    case Plain(s) =>
      PlainInDocument(m, s);
      DriveStep(m, S(s), rest);
      OneScalar(key, F.Str(s));
    case Doc(_) => BracesInDocument(m, v, rest);
    case Arr(_) => BracketsInDocument(m, v, rest);
    case _ =>
      SpecifiedValue(key, v);
      SpecifiedInDocument(m, Entries(v)[0].s, Entries(v)[1], Calls(Elems(key, v)), rest);
      assert Entries(v) == [Entries(v)[0], Entries(v)[1]];
  }

  lemma {:induction false} BracesInDocument(m: Machine, v: BVal, rest: seq<Bcon>)
    requires v.Doc? && WellFormed(v, false) && m.mode == DocSpecValue && m.key.Some? && Between(m, Depth(v))
    ensures Drive(m, Entries(v) + rest)
         == Drive(Advanced(m, Elems(m.key.value, v)).(mode := Element, key := None), rest)
    decreases v, 1
  {
    hide Drive, Calls, StepEntry, DocElems, FieldEntries;
    BracesCompile(m, m.key.value, v.fields, Element, rest);
    OpenInDocument(m);
    assert Entries(v) + rest == [S(OPEN_BRACE)] + (FieldEntries(v.fields) + ([S(CLOSE_BRACE)] + rest));
    DriveStep(m, S(OPEN_BRACE), FieldEntries(v.fields) + ([S(CLOSE_BRACE)] + rest));
  }

  lemma {:induction false} BracketsInDocument(m: Machine, v: BVal, rest: seq<Bcon>)
    requires v.Arr? && WellFormed(v, false) && m.mode == DocSpecValue && m.key.Some? && Between(m, Depth(v))
    ensures Drive(m, Entries(v) + rest)
         == Drive(Advanced(m, Elems(m.key.value, v)).(mode := Element, key := None), rest)
    decreases v, 1
  {
    hide Drive, Calls, StepEntry, ArrayElems, ItemEntries;
    BracketsCompile(m, m.key.value, v.items, Element, rest);
    OpenInDocument(m);
    assert Entries(v) + rest == [S(OPEN_BRACKET)] + (ItemEntries(v.items) + ([S(CLOSE_BRACKET)] + rest));
    DriveStep(m, S(OPEN_BRACKET), ItemEntries(v.items) + ([S(CLOSE_BRACKET)] + rest));
  }

  lemma SpecifiedInDocument(m: Machine, spec: CString, b: Bcon, ops: seq<Op>, rest: seq<Bcon>)
    requires m.mode == DocSpecValue && m.key.Some? && m.typespec.None? && m.ok && !m.ended && TokenOf(spec) == Typespec
    requires KeyValue(m.key.value, Some(spec), b) == Some((ops, true, true))
    ensures Drive(m, [S(spec), b] + rest) == Drive(m.(ops := m.ops + ops, mode := Element, key := None), rest)
  {
    hide Drive, StepEntry, KeyValue, TokenOf;
    assert [S(spec), b] + rest == [S(spec)] + ([b] + rest);
    SpecInDocument(m, spec, b, ops);
    DriveStep(m, S(spec), [b] + rest);
    DriveStep(m.(typespec := Some(spec), mode := DocValue), b, rest);
  }

  // An array element.
  lemma {:induction false} ItemCompiles(m: Machine, v: BVal, rest: seq<Bcon>)
    requires WellFormed(v, true) && m.mode == ArraySpecValue && m.key.None? && Between(m, Depth(v))
    requires m.arrayIndex <= MAX_INDEX
    ensures Drive(m, Entries(v) + rest) == Drive(Counted(Advanced(m, Elems(NumStr(m.arrayIndex), v))), rest)
    decreases v, 2
  {
    hide Drive, Calls, StepEntry, KeyValue, TokenOf, DocElems, ArrayElems, FieldEntries, ItemEntries, NumStr;
    var key := NumStr(m.arrayIndex);
    match v
    case Plain(s) =>
      PlainInArray(m, s);
      DriveStep(m, S(s), rest);
      OneScalar(key, F.Str(s));
    case Doc(_) => BracesInArray(m, v, rest);
    case Arr(_) => BracketsInArray(m, v, rest);
    case _ =>
      SpecifiedValue(key, v);
      SpecifiedInArray(m, Entries(v)[0].s, Entries(v)[1], Calls(Elems(key, v)), rest);
      assert Entries(v) == [Entries(v)[0], Entries(v)[1]];
  }

  lemma {:induction false} BracesInArray(m: Machine, v: BVal, rest: seq<Bcon>)
    requires v.Doc? && WellFormed(v, true) && m.mode == ArraySpecValue && m.key.None? && Between(m, Depth(v))
    requires m.arrayIndex <= MAX_INDEX
    ensures Drive(m, Entries(v) + rest) == Drive(Counted(Advanced(m, Elems(NumStr(m.arrayIndex), v))), rest)
    decreases v, 1
  {
    hide Drive, Calls, StepEntry, DocElems, FieldEntries, NumStr;
    BracesCompile(Counted(m), NumStr(m.arrayIndex), v.fields, ArraySpecValue, rest);
    OpenInArray(m);
    assert Entries(v) + rest == [S(OPEN_BRACE)] + (FieldEntries(v.fields) + ([S(CLOSE_BRACE)] + rest));
    DriveStep(m, S(OPEN_BRACE), FieldEntries(v.fields) + ([S(CLOSE_BRACE)] + rest));
  }

  lemma {:induction false} BracketsInArray(m: Machine, v: BVal, rest: seq<Bcon>)
    requires v.Arr? && WellFormed(v, true) && m.mode == ArraySpecValue && m.key.None? && Between(m, Depth(v))
    requires m.arrayIndex <= MAX_INDEX
    ensures Drive(m, Entries(v) + rest) == Drive(Counted(Advanced(m, Elems(NumStr(m.arrayIndex), v))), rest)
    decreases v, 1
  {
    hide Drive, Calls, StepEntry, ArrayElems, ItemEntries, NumStr;
    BracketsCompile(Counted(m), NumStr(m.arrayIndex), v.items, ArraySpecValue, rest);
    OpenInArray(m);
    assert Entries(v) + rest == [S(OPEN_BRACKET)] + (ItemEntries(v.items) + ([S(CLOSE_BRACKET)] + rest));
    DriveStep(m, S(OPEN_BRACKET), ItemEntries(v.items) + ([S(CLOSE_BRACKET)] + rest));
  }

  lemma SpecifiedInArray(m: Machine, spec: CString, b: Bcon, ops: seq<Op>, rest: seq<Bcon>)
    requires m.mode == ArraySpecValue && m.key.None? && m.typespec.None? && m.ok && !m.ended
    requires TokenOf(spec) == Typespec
    requires m.arrayIndex <= MAX_INDEX && KeyValue(NumStr(m.arrayIndex), Some(spec), b) == Some((ops, true, true))
    ensures Drive(m, [S(spec), b] + rest) == Drive(Counted(m).(ops := m.ops + ops), rest)
  {
    hide Drive, StepEntry, KeyValue, TokenOf, NumStr;
    assert [S(spec), b] + rest == [S(spec)] + ([b] + rest);
    SpecInArray(m, spec, b, ops);
    DriveStep(m, S(spec), [b] + rest);
    DriveStep(m.(typespec := Some(spec), mode := ArrayValue), b, rest);
  }

  // ---- Single steps

  lemma TokenNames()
    ensures TokenOf(OPEN_BRACE) == OpenBrace && TokenOf(CLOSE_BRACE) == CloseBrace && TokenOf(END) == End
    ensures TokenOf(OPEN_BRACKET) == OpenBracket && TokenOf(CLOSE_BRACKET) == CloseBracket
  {
  }

  lemma PlainInDocument(m: Machine, s: CString)
    requires IsPlain(s, false) && m.mode == DocSpecValue && m.key.Some? && m.typespec.None? && m.ok
    ensures StepEntry(m, S(s)) == Some(m.(ops := m.ops + [Append(m.key.value, F.Str(s))], mode := Element, key := None))
  {
    hide KeyValue, TokenOf;
    PlainKeyValue(m.key.value, s);
    assert StepEntry(m, S(s)) == StepDocSpecValue(m, S(s));
    assert StepDocSpecValue(m, S(s)) == AddValue(m, m.key.value, S(s), Element);
  }

  lemma PlainKeyValue(key: CString, s: CString)
    ensures KeyValue(key, None, S(s)) == Some(([Append(key, F.Str(s))], true, true))
  {
    assert Direct(key, UNDERSCORE, S(s)) == Some(([Append(key, F.Str(s))], true, true));
  }

  lemma PlainInArray(m: Machine, s: CString)
    requires IsPlain(s, true) && m.mode == ArraySpecValue && m.key.None? && m.typespec.None? && m.ok
    requires m.arrayIndex <= MAX_INDEX
    ensures StepEntry(m, S(s)) == Some(Counted(m).(ops := m.ops + [Append(NumStr(m.arrayIndex), F.Str(s))]))
  {
    hide KeyValue, NumStr, TokenOf;
    PlainKeyValue(NumStr(m.arrayIndex), s);
    assert StepEntry(m, S(s)) == StepArraySpecValue(m, S(s));
    assert StepArraySpecValue(m, S(s)) == StepArrayEntry(m, S(s))
        == AddValue(Counted(m), NumStr(m.arrayIndex), S(s), ArraySpecValue);
  }

  lemma OpenInDocument(m: Machine)
    requires m.mode == DocSpecValue && m.key.Some? && Sane(m)
    ensures StepEntry(m, S(OPEN_BRACE)) == Pushed(m, Start(m.key.value, false), Element, Element)
    ensures StepEntry(m, S(OPEN_BRACKET)) == PushedArray(m, Start(m.key.value, true), Element)
  {
    hide KeyValue, NumStr, TokenOf;
    TokenNames();
  }

  lemma OpenInArray(m: Machine)
    requires m.mode == ArraySpecValue && m.arrayIndex <= MAX_INDEX && Sane(m)
    ensures StepEntry(m, S(OPEN_BRACE))
         == Pushed(Counted(m), Start(NumStr(m.arrayIndex), false), ArraySpecValue, Element)
    ensures StepEntry(m, S(OPEN_BRACKET)) == PushedArray(Counted(m), Start(NumStr(m.arrayIndex), true), ArraySpecValue)
  {
    hide NumStr, TokenOf, AddValue, Pushed, PushedArray, Counted, PoppedArray;
    TokenNames();
    assert StepEntry(m, S(OPEN_BRACE)) == StepArraySpecValue(m, S(OPEN_BRACE));
    assert StepEntry(m, S(OPEN_BRACKET)) == StepArraySpecValue(m, S(OPEN_BRACKET));
  }

  lemma SpecInDocument(m: Machine, spec: CString, b: Bcon, ops: seq<Op>)
    requires m.mode == DocSpecValue && m.key.Some? && m.typespec.None? && m.ok && TokenOf(spec) == Typespec
    requires KeyValue(m.key.value, Some(spec), b) == Some((ops, true, true))
    ensures var reading := m.(typespec := Some(spec), mode := DocValue);
            && StepEntry(m, S(spec)) == Some(reading)
            && StepEntry(reading, b) == Some(m.(ops := m.ops + ops, mode := Element, key := None))
  {
  }

  lemma SpecInArray(m: Machine, spec: CString, b: Bcon, ops: seq<Op>)
    requires m.mode == ArraySpecValue && m.key.None? && m.typespec.None? && m.ok && TokenOf(spec) == Typespec
    requires m.arrayIndex <= MAX_INDEX && KeyValue(NumStr(m.arrayIndex), Some(spec), b) == Some((ops, true, true))
    ensures var reading := m.(typespec := Some(spec), mode := ArrayValue);
            && StepEntry(m, S(spec)) == Some(reading)
            && StepEntry(reading, b) == Some(Counted(m).(ops := m.ops + ops))
  {
  }

  lemma CloseBraceStep(m: Machine)
    requires Sane(m) && m.docStack != [] && m.mode == Element
    ensures StepEntry(m, S(CLOSE_BRACE)) == Popped(m)
  {
    hide KeyValue, NumStr, TokenOf, Popped;
    TokenNames();
    assert StepEntry(m, S(CLOSE_BRACE)) == StepElement(m, S(CLOSE_BRACE));
  }

  lemma CloseBracketStep(m: Machine)
    requires Sane(m) && m.docStack != [] && m.mode == ArraySpecValue
    ensures StepEntry(m, S(CLOSE_BRACKET)) == PoppedArray(m)
  {
    hide KeyValue, NumStr, TokenOf, PoppedArray, StepArrayEntry;
    TokenNames();
    assert StepEntry(m, S(CLOSE_BRACKET)) == StepArraySpecValue(m, S(CLOSE_BRACKET));
  }

  lemma EndStep(m: Machine)
    requires Sane(m) && (m.mode == Element || m.mode == ArraySpecValue)
    ensures StepEntry(m, S(END)) == Some(m.(ended := true))
  {
    hide KeyValue, NumStr, TokenOf, StepArrayEntry, Popped, PoppedArray;
    TokenNames();
    if m.mode == Element {
      assert StepEntry(m, S(END)) == StepElement(m, S(END));
    } else {
      assert StepEntry(m, S(END)) == StepArraySpecValue(m, S(END));
    }
  }

  // ---- Nested and interpolated lists

  // A document between braces, entered from outer under key: both stacks come back as they were.
  lemma {:induction false} BracesCompile(
    outer: Machine, key: CString, fields: seq<BField>, back: Return, rest: seq<Bcon>)
    requires WellFormedFields(fields) && Between(outer, 1 + FieldsDepth(fields))
    ensures Pushed(outer, Start(key, false), back, Element).Some?
    ensures Drive(
              Pushed(outer, Start(key, false), back, Element).value, FieldEntries(fields) + ([S(CLOSE_BRACE)] + rest))
         == Drive(Advanced(outer, [F.Elem(key, F.Document(DocElems(fields)))]).(mode := back, key := None), rest)
    decreases fields, 1
  {
    hide Drive, StepEntry, DocElems, FieldEntries;
    var m := Pushed(outer, Start(key, false), back, Element).value;
    FieldsCompile(m, fields, [S(CLOSE_BRACE)] + rest);
    var inner := Advanced(m, DocElems(fields));
    CloseBraceStep(inner);
    DriveStep(inner, S(CLOSE_BRACE), rest);
    OneElem(F.Elem(key, F.Document(DocElems(fields))));
    assert outer.ops + [Start(key, false)] + Calls(DocElems(fields)) + [Close]
        == outer.ops + ([Start(key, false)] + Calls(DocElems(fields)) + [Close]);
    assert inner.docStack[..|outer.docStack|] == outer.docStack;
  }

  lemma {:induction false} BracketsCompile(
    outer: Machine, key: CString, items: seq<BVal>, back: Return, rest: seq<Bcon>)
    requires WellFormedItems(items) && |items| <= MAX_INDEX + 1 && Between(outer, 1 + ItemsDepth(items))
    ensures PushedArray(outer, Start(key, true), back).Some?
    ensures Drive(PushedArray(outer, Start(key, true), back).value, ItemEntries(items) + ([S(CLOSE_BRACKET)] + rest))
         == Drive(Advanced(outer, [F.Elem(key, F.Array(ArrayElems(items, 0)))]).(mode := back, key := None), rest)
    decreases items, 1
  {
    hide Drive, StepEntry, ArrayElems, ItemEntries;
    var m := PushedArray(outer, Start(key, true), back).value;
    ItemsCompile(m, items, [S(CLOSE_BRACKET)] + rest);
    var inner := Advanced(m, ArrayElems(items, 0)).(arrayIndex := |items|);
    CloseBracketStep(inner);
    DriveStep(inner, S(CLOSE_BRACKET), rest);
    OneElem(F.Elem(key, F.Array(ArrayElems(items, 0))));
    assert outer.ops + [Start(key, true)] + Calls(ArrayElems(items, 0)) + [Close]
        == outer.ops + ([Start(key, true)] + Calls(ArrayElems(items, 0)) + [Close]);
    assert inner.docStack[..|outer.docStack|] == outer.docStack;
    assert inner.indexStack[..|outer.indexStack|] == outer.indexStack;
  }

  // A well-formed list, whatever stands behind its end token: the machine stops in its start state with
  // both stacks empty, having made exactly the builder calls of the document.
  lemma {:induction false} DocumentCompiles(fields: seq<BField>, junk: seq<Bcon>)
    requires WellFormedFields(fields) && FieldsDepth(fields) <= STACK_SIZE
    ensures Compile(FieldEntries(fields) + [S(END)] + junk, Element)
         == Some(Begin(Element).(ops := Calls(DocElems(fields)), ended := true))
    decreases fields, 1
  {
    hide Drive, StepEntry, DocElems, FieldEntries;
    var m := Begin(Element);
    assert FieldEntries(fields) + [S(END)] + junk == FieldEntries(fields) + ([S(END)] + junk);
    FieldsCompile(m, fields, [S(END)] + junk);
    Stops(Advanced(m, DocElems(fields)), junk);
    assert [] + Calls(DocElems(fields)) == Calls(DocElems(fields));
  }

  lemma {:induction false} ArrayCompiles(items: seq<BVal>, junk: seq<Bcon>)
    requires WellFormedItems(items) && Stackable(items)
    ensures Compile(ItemEntries(items) + [S(END)] + junk, ArraySpecValue)
         == Some(Begin(ArraySpecValue).(ops := Calls(ArrayElems(items, 0)), arrayIndex := |items|, ended := true))
    decreases items, 1
  {
    hide Drive, StepEntry, ArrayElems, ItemEntries;
    var m := Begin(ArraySpecValue);
    assert ItemEntries(items) + [S(END)] + junk == ItemEntries(items) + ([S(END)] + junk);
    ItemsCompile(m, items, [S(END)] + junk);
    Stops(Advanced(m, ArrayElems(items, 0)).(arrayIndex := |items|), junk);
    assert [] + Calls(ArrayElems(items, 0)) == Calls(ArrayElems(items, 0));
  }

  lemma Stops(m: Machine, junk: seq<Bcon>)
    requires (m.mode == Element || m.mode == ArraySpecValue) && m.ok && !m.ended && m.typespec.None? && m.key.None?
    ensures Drive(m, [S(END)] + junk) == Some(m.(ended := true))
  {
    assert ([S(END)] + junk)[0] == S(END);
  }

  // What a type specifier and its value make the machine do.
  lemma {:induction false} SpecifiedValue(key: CString, v: BVal)
    requires (WellFormed(v, true) || WellFormed(v, false)) && (v.Typed? || v.EmbedDoc? || v.EmbedArr?)
    ensures KeyValue(key, Some(Entries(v)[0].s), Entries(v)[1]) == Some((Calls(Elems(key, v)), true, true))
    decreases v, 1
  {
    hide Compile, CallsFor, KeyValue, StepEntry;
    match v
    case Typed(spec, b) => TypedScalar(key, v);
    case EmbedDoc(p, fields, junk) =>
      DocumentCompiles(fields, junk);
      EmbeddedKeyValue(key, p, FieldEntries(fields) + [S(END)] + junk);
      OneElem(F.Elem(key, F.Document(DocElems(fields))));
      NestedCalls(F.Elem(key, F.Document(DocElems(fields))));
    case EmbedArr(p, items, junk) =>
      ArrayCompiles(items, junk);
      EmbeddedKeyValue(key, p, ItemEntries(items) + [S(END)] + junk);
      OneElem(F.Elem(key, F.Array(ArrayElems(items, 0))));
      NestedCalls(F.Elem(key, F.Array(ArrayElems(items, 0))));
  }

  lemma NestedCalls(e: F.Elem)
    requires e.value.Document? || e.value.Array?
    ensures CallsFor(e) == [Start(e.name, e.value.Array?)] + Calls(e.value.es) + [Close]
  {
  }

  lemma EmbeddedKeyValue(key: CString, p: byte, list: seq<Bcon>)
    requires IsPointerKind(p)
    ensures KeyValue(key, Some(SpecOf(p, 0x44)), Embedded(p, D(list)))
         == Interpolated(key, false, Compile(list, Element))
    ensures KeyValue(key, Some(SpecOf(p, 0x41)), Embedded(p, A(list)))
         == Interpolated(key, true, Compile(list, ArraySpecValue))
  {
    hide Compile;
    assert Direct(key, 0x44, D(list)) == Interpolated(key, false, Compile(list, Element));
    assert Direct(key, 0x41, A(list)) == Interpolated(key, true, Compile(list, ArraySpecValue));
  }

  lemma TypedScalar(key: CString, v: BVal)
    requires v.Typed? && (WellFormed(v, true) || WellFormed(v, false))
    ensures KeyValue(key, Some(v.spec), v.v) == Some((Calls(Elems(key, v)), true, true))
  {
    hide Compile, Direct, ScalarValue, Calls;
    var p, u, b := v.spec[1], v.spec[2], v.v;
    var values := ScalarOf(v.spec, b).value;
    if values == [] {
      NoCall();
    } else {
      var scalar := if p == CH_P then b.target.value else if p == CH_R && b.Ref? then b.scalar else b;
      DirectScalar(key, u, scalar);
      OneScalar(key, values[0]);
    }
  }

  lemma NoCall()
    ensures Calls([]) == []
  {
  }

  lemma DirectScalar(key: CString, u: byte, b: Bcon)
    requires ScalarValue(u, b).Some?
    ensures Direct(key, u, b) == Some(([Append(key, ScalarValue(u, b).value)], true, true))
    ensures u != 0x76 ==> !b.D? && !b.A?
  {
  }

  // ---- Array keys

  predicate IsNull(v: BVal) {
    v.Typed? && v.v.Ptr? && v.v.target.None?
  }

  // However arrays and documents nest, the elements of an array without null pointers have the keys
  // 0, 1, 2, ...; a null pointer leaves a gap at its own position only.
  lemma {:induction false} ArrayKeysArePositions(items: seq<BVal>, i: nat)
    requires WellFormedItems(items) && forall v :: v in items ==> !IsNull(v)
    ensures |ArrayElems(items, i)| == |items|
    ensures forall j :: 0 <= j < |items| ==> ArrayElems(items, i)[j].name == NumStr(i + j)
    decreases items
  {
    hide Elems, NumStr;
    if items != [] {
      var first: seq<F.Elem>, others: seq<F.Elem> := Elems(NumStr(i), items[0]), ArrayElems(items[1..], i + 1);
      OneElement(NumStr(i), items[0]);
      ArrayKeysArePositions(items[1..], i + 1);
      assert ArrayElems(items, i) == first + others;
      hide ArrayElems;
      forall j | 0 <= j < |items| ensures (first + others)[j].name == NumStr(i + j) {
        assert j > 0 ==> (first + others)[j] == others[j - 1];
        assert j == 0 ==> (first + others)[j] == first[0];
      }
    }
  }

  lemma OneElement(key: CString, v: BVal)
    requires WellFormed(v, true) || WellFormed(v, false)
    ensures |Elems(key, v)| == if IsNull(v) && v.spec[1] == CH_P then 0 else 1
  {
  }

  // The result tests the state alone, so it is BCON_OK although a brace is still open, ...
  lemma OpenBraceIsAccepted()
    ensures var m := Compile([S([0x61]), S(OPEN_BRACE), S(END)], Element);
            m.Some? && m.value.mode == Element && m.value.docStack != []
  {
    hide StepEntry, TokenOf;
    var keyed := Begin(Element).(key := Some([0x61]), mode := DocSpecValue);
    var inside := Pushed(keyed, Start([0x61], false), Element, Element).value;
    LetterIsKey();
    KeyStep(Begin(Element), [0x61]);
    OpenInDocument(keyed);
    EndStep(inside);
    Entry(Begin(Element), S([0x61]), [S(OPEN_BRACE), S(END)], keyed);
    Entry(keyed, S(OPEN_BRACE), [S(END)], inside);
    Entry(inside, S(END), [], inside.(ended := true));
  }

  // ... and although an incomplete interpolated document has stopped the loop before the end of the list.
  lemma IncompleteInterpolationIsAccepted(rest: seq<Bcon>)
    ensures var list := [S([0x61])] + ([S(SpecOf(UNDERSCORE, 0x44))] + ([D([S([0x62]), S(END)])] + rest));
            var m := Compile(list, Element);
            m.Some? && m.value.mode == Element && !m.value.ok && !m.value.ended
  {
    hide StepEntry, TokenOf, KeyValue;
    var list := [S([0x62]), S(END)];
    var inner := Begin(Element).(key := Some([0x62]), mode := DocSpecValue);
    var spec := SpecOf(UNDERSCORE, 0x44);
    var keyed := Begin(Element).(key := Some([0x61]), mode := DocSpecValue);
    var reading := keyed.(typespec := Some(spec), mode := DocValue);
    LetterIsKey();
    KeyStep(Begin(Element), [0x62]);
    KeyStep(Begin(Element), [0x61]);
    EndOfValue(inner);
    Entry(Begin(Element), S([0x62]), [S(END)], inner);
    Entry(inner, S(END), [], inner.(ended := true));
    EmbeddedKeyValue([0x61], UNDERSCORE, list);
    SpecStep(keyed, spec, D(list));
    Entry(Begin(Element), S([0x61]), [S(spec)] + ([D(list)] + rest), keyed);
    Entry(keyed, S(spec), [D(list)] + rest, reading);
    Entry(reading, D(list), rest, StepEntry(reading, D(list)).value);
  }

  lemma LetterIsKey()
    ensures IsKey([0x61]) && IsKey([0x62])
  {
  }

  lemma EndOfValue(m: Machine)
    requires Sane(m) && m.mode == DocSpecValue
    ensures StepEntry(m, S(END)) == Some(m.(ended := true))
  {
    hide KeyValue;
  }

  lemma SpecStep(m: Machine, spec: CString, b: Bcon)
    requires m.mode == DocSpecValue && m.key.Some? && m.typespec.None? && TokenOf(spec) == Typespec
    requires KeyValue(m.key.value, Some(spec), b).Some?
    ensures var reading := m.(typespec := Some(spec), mode := DocValue);
            var (ops, ok, whole) := KeyValue(m.key.value, Some(spec), b).value;
            && StepEntry(m, S(spec)) == Some(reading)
            && StepEntry(reading, b)
               == Some(m.(ops := m.ops + ops, ok := ok, whole := m.whole && whole, mode := Element, key := None))
  {
    hide KeyValue;
  }

  lemma Entry(m: Machine, v: Bcon, rest: seq<Bcon>, next: Machine)
    requires Sane(m) && m.ok && !m.ended && StepEntry(m, v) == Some(next)
    ensures Drive(m, [v] + rest) == Drive(next, rest)
  {
    DriveStep(m, v, rest);
  }
}

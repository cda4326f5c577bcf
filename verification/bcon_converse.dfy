// The converse: whenever a run of the machine, and of every machine for an interpolated list in it, ends at its end
// token with nothing open, the list is well formed.
module BconConverse {
  import opened Bytes
  import opened Wrappers
  import opened BsonSpec
  import opened BsonTrees
  import opened BconSpec
  import opened BconGrammar

  // A run that is going to end complete, seen from any point of it.
  predicate Bound(m: Machine, list: seq<Bcon>, start: Return)
    requires Sane(m)
  {
    Drive(m, list).Some? && Complete(Drive(m, list).value, start)
  }

  // Between two values, with what the stacks hold in reach.
  predicate Open(m: Machine) {
    m.typespec.None? && m.ok && !m.ended && |m.indexStack| <= |m.docStack| <= STACK_SIZE
  }

  // ---- One entry

  // A run that is to end complete reads its next entry, and is still to end complete.
  lemma NextEntry(m: Machine, list: seq<Bcon>, start: Return)
    requires Sane(m) && m.ok && !m.ended && Bound(m, list, start)
    ensures list != [] && StepEntry(m, list[0]).Some?
    ensures Bound(StepEntry(m, list[0]).value, list[1..], start)
    ensures Drive(m, list) == Drive(StepEntry(m, list[0]).value, list[1..])
    ensures list == [list[0]] + list[1..]
  {
    hide StepEntry, Complete;
  }

  // Once an interpolated list was incomplete, or a call failed, the run does not end complete.
  lemma {:induction false} BoundIsWhole(m: Machine, list: seq<Bcon>, start: Return)
    requires Sane(m) && Bound(m, list, start)
    ensures m.ok && m.whole
    decreases list
  {
    hide StepEntry;
    if m.ok && !m.ended {
      NextEntry(m, list, start);
      StepKeepsWhole(m, list[0]);
      BoundIsWhole(StepEntry(m, list[0]).value, list[1..], start);
    }
  }

  lemma StepKeepsWhole(m: Machine, v: Bcon)
    requires Sane(m) && StepEntry(m, v).Some?
    ensures StepEntry(m, v).value.whole ==> m.whole
  {
    hide KeyValue, TokenOf, NumStr, StepArrayEntry, AddValue;
    match m.mode {
      case Element => assert StepEntry(m, v) == StepElement(m, v);
      case DocSpecValue =>
        assert StepEntry(m, v) == StepDocSpecValue(m, v);
        AddKeepsWhole(m, m.key.value, v, Element);
      case DocValue => AddKeepsWhole(m, m.key.value, v, Element);
      case ArraySpecValue =>
        assert StepEntry(m, v) == StepArraySpecValue(m, v);
        ArrayEntryKeepsWhole(m, v);
      case ArrayValue => AddKeepsWhole(Counted(m), NumStr(m.arrayIndex), v, ArraySpecValue);
    }
  }

  lemma ArrayEntryKeepsWhole(m: Machine, v: Bcon)
    requires Sane(m) && m.mode == ArraySpecValue
    ensures v.S? && StepArrayEntry(m, v).Some? && StepArrayEntry(m, v).value.whole ==> m.whole
  {
    hide KeyValue, TokenOf, NumStr, AddValue;
    AddKeepsWhole(Counted(m), NumStr(m.arrayIndex), v, ArraySpecValue);
  }

  lemma AddKeepsWhole(m: Machine, key: CString, v: Bcon, next: Return)
    requires m.typespec.Some? ==> |m.typespec.value| == 4
    ensures AddValue(m, key, v, next).Some? && AddValue(m, key, v, next).value.whole ==> m.whole
  {
    hide KeyValue;
  }

  lemma EndedIsComplete(m: Machine, list: seq<Bcon>, start: Return)
    requires Sane(m) && m.ended && Bound(m, list, start)
    ensures Complete(m, start)
  {
  }

  // ---- What tokens are

  lemma TokenText(s: CString)
    ensures TokenOf(s) == OpenBrace ==> s == OPEN_BRACE
    ensures TokenOf(s) == CloseBrace ==> s == CLOSE_BRACE
    ensures TokenOf(s) == OpenBracket ==> s == OPEN_BRACKET
    ensures TokenOf(s) == CloseBracket ==> s == CLOSE_BRACKET
    ensures TokenOf(s) == End ==> s == END
    ensures TokenOf(s) == Typespec ==> |s| == 4 && IsPointerKind(s[1]) && s[2] != 0 && s == SpecOf(s[1], s[2])
  {
    if TokenOf(s) == Typespec {
      assert s[2] in s;
      assert s == [s[0], s[1], s[2], s[3]];
    }
  }

  // ---- A type specifier and its value

  // What is interpolated by a value behind its specifier.
  function Inner(spec: CString, b: Bcon): Option<Bcon>
    requires |spec| == 4
  {
    if spec[2] == 0x76 then None
    else if spec[1] == CH_P then
      if b.Ptr? && b.target.Some? && (b.target.value.D? || b.target.value.A?) then b.target else None
    else if b.D? || b.A? then Some(b)
    else None
  }

  // A scalar behind its specifier.
  lemma ScalarIsTyped(key: CString, spec: CString, b: Bcon)
    requires TokenOf(spec) == Typespec && KeyValue(key, Some(spec), b).Some? && Inner(spec, b).None?
    ensures ScalarOf(spec, b).Some?
  {
    hide Compile, Interpolated;
  }

  lemma InterpolatedIs(key: CString, spec: CString, b: Bcon)
    requires TokenOf(spec) == Typespec && KeyValue(key, Some(spec), b).Some? && Inner(spec, b).Some?
    ensures var v, kv := Inner(spec, b).value, KeyValue(key, Some(spec), b);
            && b == Embedded(spec[1], v)
            && (v.D? ==> spec[2] == 0x44 && kv == Interpolated(key, false, Compile(v.list, Element)))
            && (v.A? ==> spec[2] == 0x41 && kv == Interpolated(key, true, Compile(v.list, ArraySpecValue)))
  {
    hide Compile, Interpolated, ScalarValue;
    NoScalar(spec[2], Inner(spec, b).value);
  }

  lemma NoScalar(u: byte, v: Bcon)
    requires u != 0x76 && (v.D? || v.A?)
    ensures ScalarValue(u, v).None?
  {
  }

  // A specifier and its value, with any interpolated list complete, are a well-formed value.
  lemma {:induction false} ReadSpecified(key: CString, spec: CString, b: Bcon) returns (v: BVal)
    requires TokenOf(spec) == Typespec && KeyValue(key, Some(spec), b).Some? && KeyValue(key, Some(spec), b).value.2
    ensures (forall inArray :: WellFormed(v, inArray)) && Entries(v) == [S(spec), b] && Depth(v) == 0
    decreases b, 2
  {
    hide KeyValue, ScalarOf, Drive, Compile, FieldEntries, ItemEntries, TokenOf;
    TokenText(spec);
    var p := spec[1];
    if Inner(spec, b).None? {
      ScalarIsTyped(key, spec, b);
      v := Typed(spec, b);
    } else {
      InterpolatedIs(key, spec, b);
      var inner := Inner(spec, b).value;
      if inner.D? {
        var fields, junk := ReadDocument(inner.list);
        v := EmbedDoc(p, fields, junk);
      } else {
        var items, junk := ReadArray(inner.list);
        v := EmbedArr(p, items, junk);
      }
    }
  }

  // ---- Single entries

  // The entry behind a document key.
  lemma ValueEntry(m: Machine, v: Bcon)
    requires Sane(m) && m.mode == DocSpecValue && StepEntry(m, v).Some?
    ensures v.S?
    ensures TokenOf(v.s) == Typespec ==> StepEntry(m, v) == Some(m.(typespec := Some(v.s), mode := DocValue))
    ensures TokenOf(v.s) == OpenBrace ==> StepEntry(m, v) == Pushed(m, Start(m.key.value, false), Element, Element)
    ensures TokenOf(v.s) == OpenBracket ==> StepEntry(m, v) == PushedArray(m, Start(m.key.value, true), Element)
    ensures TokenOf(v.s) == End ==> StepEntry(m, v) == Some(m.(ended := true))
  {
    hide KeyValue, TokenOf, Pushed, PushedArray;
    assert StepEntry(m, v) == StepDocSpecValue(m, v);
  }

  // The entry at the place of an array element.
  lemma ItemEntry(m: Machine, v: Bcon)
    requires Sane(m) && m.mode == ArraySpecValue && StepEntry(m, v).Some?
    ensures v.S?
    ensures TokenOf(v.s) == Typespec ==> StepEntry(m, v) == Some(m.(typespec := Some(v.s), mode := ArrayValue))
    ensures TokenOf(v.s) == CloseBracket ==> StepEntry(m, v) == PoppedArray(m)
    ensures TokenOf(v.s) == End ==> StepEntry(m, v) == Some(m.(ended := true))
    ensures TokenOf(v.s) != Typespec && TokenOf(v.s) != CloseBracket && TokenOf(v.s) != End ==>
              m.arrayIndex <= MAX_INDEX
    ensures TokenOf(v.s) == OpenBrace ==>
              StepEntry(m, v) == Pushed(Counted(m), Start(NumStr(m.arrayIndex), false), ArraySpecValue, Element)
    ensures TokenOf(v.s) == OpenBracket ==>
              StepEntry(m, v) == PushedArray(Counted(m), Start(NumStr(m.arrayIndex), true), ArraySpecValue)
  {
    hide KeyValue, TokenOf, Pushed, PushedArray, NumStr, PoppedArray, AddValue;
    assert StepEntry(m, v) == StepArraySpecValue(m, v);
    if TokenOf(v.s) != Typespec && TokenOf(v.s) != CloseBracket && TokenOf(v.s) != End {
      assert StepArraySpecValue(m, v) == StepArrayEntry(m, v);
    }
  }

  // The entry at the place of a document key.
  lemma KeyEntry(m: Machine, v: Bcon)
    requires Sane(m) && m.mode == Element && StepEntry(m, v).Some?
    ensures v.S?
    ensures TokenOf(v.s) == CloseBrace ==> m.docStack != []
    ensures IsKey(v.s) ==> StepEntry(m, v) == Some(m.(key := Some(v.s), mode := DocSpecValue))
  {
    hide TokenOf;
    assert StepEntry(m, v) == StepElement(m, v);
  }

  // The entry behind a type specifier.
  lemma SpecifiedEntry(m: Machine, b: Bcon)
    requires Sane(m) && (m.mode == DocValue || m.mode == ArrayValue) && m.typespec.Some? && StepEntry(m, b).Some?
    ensures m.mode == ArrayValue ==> m.arrayIndex <= MAX_INDEX
    ensures var key := if m.mode == DocValue then m.key.value else NumStr(m.arrayIndex);
            && KeyValue(key, m.typespec, b).Some?
            && StepEntry(m, b).value.ok == KeyValue(key, m.typespec, b).value.1
            && (StepEntry(m, b).value.whole ==> KeyValue(key, m.typespec, b).value.2)
  {
    hide KeyValue, TokenOf, NumStr;
  }

  // ---- Lists apart

  lemma Behind(list: seq<Bcon>, a: seq<Bcon>, rest: seq<Bcon>)
    requires list == a + rest
    ensures |rest| <= |list| && rest == list[|list| - |rest|..]
  {
  }

  lemma DocIs(fields: seq<BField>)
    requires WellFormedFields(fields)
    ensures WellFormed(Doc(fields), true) && WellFormed(Doc(fields), false)
    ensures Depth(Doc(fields)) == 1 + FieldsDepth(fields)
    ensures Entries(Doc(fields)) == [S(OPEN_BRACE)] + FieldEntries(fields) + [S(CLOSE_BRACE)]
  {
  }

  lemma ArrIs(items: seq<BVal>)
    requires WellFormedItems(items) && |items| <= MAX_INDEX + 1
    ensures WellFormed(Arr(items), true) && WellFormed(Arr(items), false) && Depth(Arr(items)) == 1 + ItemsDepth(items)
    ensures Entries(Arr(items)) == [S(OPEN_BRACKET)] + ItemEntries(items) + [S(CLOSE_BRACKET)]
  {
  }

  lemma PlainIs(s: CString, inArray: bool)
    requires IsPlain(s, inArray)
    ensures WellFormed(Plain(s), inArray) && Entries(Plain(s)) == [S(s)] && Depth(Plain(s)) == 0
  {
  }

  // ---- Closing and ending

  // With something open, the list of fields is not over at an end token.
  lemma MustClose(m: Machine, t: CString, rest: seq<Bcon>, start: Return)
    requires Sane(m) && m.mode == Element && m.docStack != [] && m.ok && !m.ended && (t == END || t == CLOSE_BRACE)
    requires Bound(m, [S(t)] + rest, start)
    ensures t == CLOSE_BRACE
  {
    hide StepEntry, Drive;
    if t == END {
      EndStep(m);
      NextEntry(m, [S(t)] + rest, start);
      EndedIsComplete(m.(ended := true), ([S(t)] + rest)[1..], start);
    }
  }

  lemma MustCloseArray(m: Machine, t: CString, rest: seq<Bcon>, start: Return)
    requires Sane(m) && m.mode == ArraySpecValue && m.docStack != [] && m.ok && !m.ended
    requires t == END || t == CLOSE_BRACKET
    requires Bound(m, [S(t)] + rest, start)
    ensures t == CLOSE_BRACKET
  {
    hide StepEntry, Drive;
    if t == END {
      EndStep(m);
      NextEntry(m, [S(t)] + rest, start);
      EndedIsComplete(m.(ended := true), ([S(t)] + rest)[1..], start);
    }
  }

  lemma NothingToClose(m: Machine)
    requires Sane(m)
    ensures m.mode == Element && m.docStack == [] ==> StepEntry(m, S(CLOSE_BRACE)).None?
    ensures m.mode == ArraySpecValue && m.indexStack == [] ==> StepEntry(m, S(CLOSE_BRACKET)).None?
  {
    hide TokenOf, KeyValue, NumStr;
    TokenNames();
    if m.mode == Element {
      assert StepEntry(m, S(CLOSE_BRACE)) == StepElement(m, S(CLOSE_BRACE));
    } else if m.mode == ArraySpecValue {
      assert StepEntry(m, S(CLOSE_BRACKET)) == StepArraySpecValue(m, S(CLOSE_BRACKET));
    }
  }

  // With nothing open, it is not over at a closing token.
  lemma MustEnd(m: Machine, t: CString, rest: seq<Bcon>, start: Return)
    requires Sane(m) && m.docStack == [] && m.indexStack == [] && m.ok && !m.ended
    requires (m.mode == Element && t == CLOSE_BRACE) || (m.mode == ArraySpecValue && t == CLOSE_BRACKET) || t == END
    requires Bound(m, [S(t)] + rest, start)
    ensures t == END
  {
    hide StepEntry, Drive;
    NothingToClose(m);
    if t != END {
      assert ([S(t)] + rest)[0] == S(t);
      NextEntry(m, [S(t)] + rest, start);
    }
  }

  // ---- Values and lists

  // The value of a document key.
  lemma {:induction false} ReadValue(m: Machine, list: seq<Bcon>, start: Return) returns (v: BVal, rest: seq<Bcon>)
    requires Sane(m) && m.mode == DocSpecValue && Open(m) && Bound(m, list, start)
    ensures WellFormed(v, false) && Depth(v) + |m.docStack| <= STACK_SIZE
    ensures list == Entries(v) + rest && |rest| < |list| && rest == list[|list| - |rest|..]
    decreases list, 3
  {
    hide Drive, StepEntry, KeyValue, TokenOf, Entries, WellFormed, Depth, Complete, Pushed, PushedArray;
    NextEntry(m, list, start);
    ValueEntry(m, list[0]);
    var s, tail, next := list[0].s, list[1..], StepEntry(m, list[0]).value;
    TokenText(s);
    v, rest := Plain(s), tail;
    if TokenOf(s) == Typespec {
      v := ReadBehindSpec(next, s, tail, start);
      rest := tail[1..];
      assert list == [S(s), tail[0]] + rest;
    } else if TokenOf(s) == OpenBrace {
      var fields;
      PushedIsOpen(m, Start(m.key.value, false), Element);
      fields, rest := ReadBraces(next, tail, start);
      v := Doc(fields);
      DocIs(fields);
      assert list == [S(OPEN_BRACE)] + (FieldEntries(fields) + ([S(CLOSE_BRACE)] + rest));
      assert list == Entries(v) + rest;
    } else if TokenOf(s) == OpenBracket {
      var items;
      PushedIsOpen(m, Start(m.key.value, true), Element);
      items, rest := ReadBrackets(next, tail, start);
      v := Arr(items);
      ArrIs(items);
      assert list == [S(OPEN_BRACKET)] + (ItemEntries(items) + ([S(CLOSE_BRACKET)] + rest));
      assert list == Entries(v) + rest;
    } else {
      NotEnded(m, s, tail, start);
      PlainIs(s, false);
    }
    Behind(list, Entries(v), rest);
  }

  // A key is not followed by the end.
  lemma NotEnded(m: Machine, s: CString, tail: seq<Bcon>, start: Return)
    requires Sane(m) && m.mode == DocSpecValue && StepEntry(m, S(s)).Some?
    requires Bound(StepEntry(m, S(s)).value, tail, start)
    ensures TokenOf(s) != End
  {
    hide StepEntry, TokenOf, Drive;
    ValueEntry(m, S(s));
    if TokenOf(s) == End {
      EndedIsComplete(m.(ended := true), tail, start);
    }
  }

  lemma PushedIsOpen(m: Machine, op: Op, back: Return)
    requires Sane(m) && Open(m)
    ensures Pushed(m, op, back, Element).Some? ==>
              var n := Pushed(m, op, back, Element).value;
              Sane(n) && Open(n) && n.mode == Element && n.key.None? && |n.docStack| == |m.docStack| + 1
    ensures PushedArray(m, op, back).Some? ==>
              var n := PushedArray(m, op, back).value;
              Sane(n) && Open(n) && n.mode == ArraySpecValue && n.key.None? && |n.docStack| == |m.docStack| + 1
              && n.arrayIndex == 0
  {
  }

  lemma {:induction false} ReadBehindSpec(m: Machine, spec: CString, list: seq<Bcon>, start: Return) returns (v: BVal)
    requires Sane(m) && (m.mode == DocValue || m.mode == ArrayValue) && m.typespec == Some(spec) && m.ok && !m.ended
    requires Bound(m, list, start)
    ensures list != [] && (m.mode == ArrayValue ==> m.arrayIndex <= MAX_INDEX)
    ensures (forall inArray :: WellFormed(v, inArray)) && Entries(v) == [S(spec), list[0]] && Depth(v) == 0
    decreases list, 3
  {
    hide Drive, StepEntry, KeyValue, TokenOf, Entries, WellFormed, Depth, Complete, NumStr;
    NextEntry(m, list, start);
    SpecifiedEntry(m, list[0]);
    BoundIsWhole(StepEntry(m, list[0]).value, list[1..], start);
    v := ReadSpecified(if m.mode == DocValue then m.key.value else NumStr(m.arrayIndex), spec, list[0]);
  }

  // The fields up to a closing brace or the end.
  lemma {:induction false} ReadFields(m: Machine, list: seq<Bcon>, start: Return)
    returns (fields: seq<BField>, t: CString, rest: seq<Bcon>)
    requires Sane(m) && m.mode == Element && Open(m) && Bound(m, list, start)
    ensures WellFormedFields(fields) && FieldsDepth(fields) + |m.docStack| <= STACK_SIZE
    ensures t == END || t == CLOSE_BRACE
    ensures list == FieldEntries(fields) + ([S(t)] + rest)
    decreases list, 4
  {
    hide Drive, StepEntry, TokenOf, Entries, WellFormed, Depth, Complete, Elems, DocElems, Calls;
    hide FieldEntries, FieldsDepth, WellFormedFields;
    NoFields();
    NextEntry(m, list, start);
    KeyEntry(m, list[0]);
    var s, tail := list[0].s, list[1..];
    TokenText(s);
    if TokenOf(s) == CloseBrace || TokenOf(s) == End {
      fields, t, rest := [], s, tail;
      assert list == FieldEntries(fields) + ([S(t)] + rest);
    } else {
      var keyed := StepEntry(m, list[0]).value;
      var v, behind := ReadValue(keyed, tail, start);
      FieldIsRead(m, s, v, behind, start);
      var others;
      others, t, rest := ReadFields(Advanced(m, Elems(s, v)), behind, start);
      fields := OneField(s, v, others);
      assert list == FieldEntries(fields) + ([S(t)] + rest);
    }
  }

  lemma FieldsAreRead(m: Machine, list: seq<Bcon>, fields: seq<BField>, t: CString, rest: seq<Bcon>, start: Return)
    requires Sane(m) && m.mode == Element && Open(m) && Bound(m, list, start)
    requires WellFormedFields(fields) && FieldsDepth(fields) + |m.docStack| <= STACK_SIZE
    requires list == FieldEntries(fields) + ([S(t)] + rest)
    ensures |rest| < |list| && rest == list[|list| - |rest|..]
    ensures Bound(Advanced(m, DocElems(fields)), [S(t)] + rest, start)
  {
    hide Drive, Complete, DocElems, Calls, FieldEntries, FieldsDepth, WellFormedFields;
    FieldsCompile(m, fields, [S(t)] + rest);
  }

  lemma FieldIsRead(m: Machine, key: CString, v: BVal, behind: seq<Bcon>, start: Return)
    requires Sane(m) && m.mode == Element && Open(m) && WellFormed(v, false) && Depth(v) + |m.docStack| <= STACK_SIZE
    requires Bound(m.(key := Some(key), mode := DocSpecValue), Entries(v) + behind, start)
    ensures Bound(Advanced(m, Elems(key, v)), behind, start)
  {
    hide Drive, Entries, WellFormed, Depth, Complete, Elems, Calls;
    FieldValueCompiles(m.(key := Some(key), mode := DocSpecValue), v, behind);
  }

  lemma NoFields()
    ensures WellFormedFields([]) && FieldEntries([]) == [] && FieldsDepth([]) == 0
  {
  }

  lemma OneField(key: CString, v: BVal, others: seq<BField>) returns (fields: seq<BField>)
    requires IsKey(key) && WellFormed(v, false) && WellFormedFields(others)
    ensures fields == [BField(key, v)] + others && WellFormedFields(fields)
    ensures FieldEntries(fields) == [S(key)] + Entries(v) + FieldEntries(others)
    ensures FieldsDepth(fields) == Max(Depth(v), FieldsDepth(others))
  {
    fields := [BField(key, v)] + others;
    assert fields[1..] == others;
  }

  lemma {:induction false} ReadBraces(m: Machine, list: seq<Bcon>, start: Return)
    returns (fields: seq<BField>, rest: seq<Bcon>)
    requires Sane(m) && m.mode == Element && Open(m) && m.docStack != [] && Bound(m, list, start)
    ensures WellFormedFields(fields) && FieldsDepth(fields) + |m.docStack| <= STACK_SIZE
    ensures list == FieldEntries(fields) + ([S(CLOSE_BRACE)] + rest) && |rest| < |list|
    decreases list, 5
  {
    hide Drive, DocElems, Complete;
    var t;
    fields, t, rest := ReadFields(m, list, start);
    FieldsAreRead(m, list, fields, t, rest, start);
    MustClose(Advanced(m, DocElems(fields)), t, rest, start);
  }

  // An array element.
  lemma {:induction false} ReadItem(m: Machine, list: seq<Bcon>, start: Return) returns (v: BVal, rest: seq<Bcon>)
    requires Sane(m) && m.mode == ArraySpecValue && Open(m) && Bound(m, list, start)
    requires list != [] && list[0].S? && TokenOf(list[0].s) != CloseBracket && TokenOf(list[0].s) != End
    ensures WellFormed(v, true) && Depth(v) + |m.docStack| <= STACK_SIZE && m.arrayIndex <= MAX_INDEX
    ensures list == Entries(v) + rest && |rest| < |list| && rest == list[|list| - |rest|..]
    decreases list, 3
  {
    hide Drive, StepEntry, KeyValue, TokenOf, Entries, WellFormed, Depth, Complete, Pushed, PushedArray, NumStr;
    NextEntry(m, list, start);
    ItemEntry(m, list[0]);
    var s, tail, next := list[0].s, list[1..], StepEntry(m, list[0]).value;
    TokenText(s);
    v, rest := Plain(s), tail;
    if TokenOf(s) == Typespec {
      v := ReadBehindSpec(next, s, tail, start);
      rest := tail[1..];
      assert list == [S(s), tail[0]] + rest;
    } else if TokenOf(s) == OpenBrace {
      var fields;
      PushedIsOpen(Counted(m), Start(NumStr(m.arrayIndex), false), ArraySpecValue);
      fields, rest := ReadBraces(next, tail, start);
      v := Doc(fields);
      DocIs(fields);
      assert list == [S(OPEN_BRACE)] + (FieldEntries(fields) + ([S(CLOSE_BRACE)] + rest));
      assert list == Entries(v) + rest;
    } else if TokenOf(s) == OpenBracket {
      var items;
      PushedIsOpen(Counted(m), Start(NumStr(m.arrayIndex), true), ArraySpecValue);
      items, rest := ReadBrackets(next, tail, start);
      v := Arr(items);
      ArrIs(items);
      assert list == [S(OPEN_BRACKET)] + (ItemEntries(items) + ([S(CLOSE_BRACKET)] + rest));
      assert list == Entries(v) + rest;
    } else {
      PlainIs(s, true);
    }
    Behind(list, Entries(v), rest);
  }

  // The items up to a closing bracket or the end.
  lemma {:induction false} ReadItems(m: Machine, list: seq<Bcon>, start: Return)
    returns (items: seq<BVal>, t: CString, rest: seq<Bcon>)
    requires Sane(m) && m.mode == ArraySpecValue && Open(m) && m.arrayIndex <= MAX_INDEX + 1 && Bound(m, list, start)
    ensures WellFormedItems(items) && ItemsDepth(items) + |m.docStack| <= STACK_SIZE
    ensures m.arrayIndex + |items| <= MAX_INDEX + 1 && (t == END || t == CLOSE_BRACKET)
    ensures list == ItemEntries(items) + ([S(t)] + rest)
    decreases list, 4
  {
    hide Drive, StepEntry, TokenOf, Entries, WellFormed, Depth, Complete, Elems, ArrayElems, NumStr, Calls;
    hide ItemEntries, ItemsDepth, WellFormedItems;
    NoItems();
    NextEntry(m, list, start);
    ItemEntry(m, list[0]);
    var s, tail := list[0].s, list[1..];
    TokenText(s);
    if TokenOf(s) == CloseBracket || TokenOf(s) == End {
      items, t, rest := [], s, tail;
      assert list == ItemEntries(items) + ([S(t)] + rest);
    } else {
      var v, behind := ReadItem(m, list, start);
      ItemIsRead(m, v, behind, start);
      var others;
      others, t, rest := ReadItems(Counted(Advanced(m, Elems(NumStr(m.arrayIndex), v))), behind, start);
      items := OneItem(v, others);
      assert list == ItemEntries(items) + ([S(t)] + rest);
    }
  }

  lemma ItemsAreRead(m: Machine, list: seq<Bcon>, items: seq<BVal>, t: CString, rest: seq<Bcon>, start: Return)
    requires Sane(m) && m.mode == ArraySpecValue && Open(m) && Bound(m, list, start)
    requires WellFormedItems(items) && ItemsDepth(items) + |m.docStack| <= STACK_SIZE
    requires m.arrayIndex + |items| <= MAX_INDEX + 1 && list == ItemEntries(items) + ([S(t)] + rest)
    ensures |rest| < |list| && rest == list[|list| - |rest|..]
    ensures var next := Advanced(m, ArrayElems(items, m.arrayIndex)).(arrayIndex := m.arrayIndex + |items|);
            Bound(next, [S(t)] + rest, start)
  {
    hide Drive, Complete, ArrayElems, Calls, ItemEntries, ItemsDepth, WellFormedItems;
    ItemsCompile(m, items, [S(t)] + rest);
  }

  lemma ItemIsRead(m: Machine, v: BVal, behind: seq<Bcon>, start: Return)
    requires Sane(m) && m.mode == ArraySpecValue && Open(m) && m.arrayIndex <= MAX_INDEX
    requires WellFormed(v, true) && Depth(v) + |m.docStack| <= STACK_SIZE && Bound(m, Entries(v) + behind, start)
    ensures Bound(Counted(Advanced(m, Elems(NumStr(m.arrayIndex), v))), behind, start)
  {
    hide Drive, Entries, WellFormed, Depth, Complete, Elems, Calls, NumStr;
    ItemCompiles(m, v, behind);
  }

  lemma NoItems()
    ensures WellFormedItems([]) && ItemEntries([]) == [] && ItemsDepth([]) == 0
  {
  }

  lemma OneItem(v: BVal, others: seq<BVal>) returns (items: seq<BVal>)
    requires WellFormed(v, true) && WellFormedItems(others)
    ensures items == [v] + others && WellFormedItems(items)
    ensures ItemEntries(items) == Entries(v) + ItemEntries(others)
    ensures ItemsDepth(items) == Max(Depth(v), ItemsDepth(others))
  {
    items := [v] + others;
    assert items[1..] == others;
  }

  lemma {:induction false} ReadBrackets(m: Machine, list: seq<Bcon>, start: Return)
    returns (items: seq<BVal>, rest: seq<Bcon>)
    requires Sane(m) && m.mode == ArraySpecValue && Open(m) && m.docStack != [] && m.arrayIndex == 0
    requires Bound(m, list, start)
    ensures WellFormedItems(items) && |items| <= MAX_INDEX + 1 && ItemsDepth(items) + |m.docStack| <= STACK_SIZE
    ensures list == ItemEntries(items) + ([S(CLOSE_BRACKET)] + rest) && |rest| < |list|
    decreases list, 5
  {
    hide Drive, ArrayElems, Complete;
    var t;
    items, t, rest := ReadItems(m, list, start);
    ItemsAreRead(m, list, items, t, rest, start);
    MustCloseArray(Advanced(m, ArrayElems(items, 0)).(arrayIndex := |items|), t, rest, start);
  }

  // ---- Whole lists

  lemma {:induction false} ReadDocument(list: seq<Bcon>) returns (fields: seq<BField>, junk: seq<Bcon>)
    requires Compile(list, Element).Some? && Complete(Compile(list, Element).value, Element)
    ensures WellFormedFields(fields) && FieldsDepth(fields) <= STACK_SIZE
    ensures list == FieldEntries(fields) + [S(END)] + junk
    decreases list, 6
  {
    hide Drive, DocElems, Complete;
    var t;
    fields, t, junk := ReadFields(Begin(Element), list, Element);
    FieldsAreRead(Begin(Element), list, fields, t, junk, Element);
    MustEnd(Advanced(Begin(Element), DocElems(fields)), t, junk, Element);
  }

  lemma {:induction false} ReadArray(list: seq<Bcon>) returns (items: seq<BVal>, junk: seq<Bcon>)
    requires Compile(list, ArraySpecValue).Some? && Complete(Compile(list, ArraySpecValue).value, ArraySpecValue)
    ensures WellFormedItems(items) && Stackable(items) && list == ItemEntries(items) + [S(END)] + junk
    decreases list, 6
  {
    hide Drive, ArrayElems, Complete;
    var t;
    items, t, junk := ReadItems(Begin(ArraySpecValue), list, ArraySpecValue);
    ItemsAreRead(Begin(ArraySpecValue), list, items, t, junk, ArraySpecValue);
    MustEnd(Advanced(Begin(ArraySpecValue), ArrayElems(items, 0)).(arrayIndex := |items|), t, junk, ArraySpecValue);
  }

  // The entries of a document up to its end token.
  ghost predicate IsDocument(list: seq<Bcon>, fields: seq<BField>) {
    WellFormedFields(fields) && FieldsDepth(fields) <= STACK_SIZE && FieldEntries(fields) + [S(END)] <= list
  }

  // A list is well formed if and only if its run, and that of every list interpolated in it, ends at its end token in
  // its start state with both stacks empty.
  lemma WellFormedIsComplete(list: seq<Bcon>)
    ensures (Compile(list, Element).Some? && Complete(Compile(list, Element).value, Element))
       <==> exists fields :: IsDocument(list, fields)
  {
    hide Compile, FieldEntries, FieldsDepth, WellFormedFields, DocElems, Calls;
    if Compile(list, Element).Some? && Complete(Compile(list, Element).value, Element) {
      var fields, junk := ReadDocument(list);
      assert IsDocument(list, fields);
    }
    forall fields | IsDocument(list, fields)
      ensures Compile(list, Element).Some? && Complete(Compile(list, Element).value, Element)
    {
      var all := FieldEntries(fields) + [S(END)];
      DocumentCompiles(fields, list[|all|..]);
      assert list == all + list[|all|..];
    }
  }
}

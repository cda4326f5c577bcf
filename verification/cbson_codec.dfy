// save and parse themselves, proved to compute the functions of CBson.
module CBsonCodec {
  import opened Bytes
  import opened Wrappers
  import F = BsonFormat
  import opened BsonSpec
  import opened BsonRuns
  import opened BsonTrees
  import opened BsonRoom
  import opened BsonOpen
  import opened BsonFinish
  import opened BsonReads
  import opened BsonLost
  import opened BsonIterator
  import opened BsonBuilder
  import opened CBson

  lemma {:induction false} CallsConcat(a: seq<F.Elem>, b: seq<F.Elem>)
    ensures Calls(a + b) == Calls(a) + Calls(b)
  {
    hide CallsFor;
    if a == [] {
      assert a + b == b;
    } else {
      assert (a + b)[1..] == a[1..] + b;
      CallsConcat(a[1..], b);
    }
  }

  // CBson::__save. The results of the append functions are ignored.
  method SaveFields(fields: seq<Field>, b: Bson)
    requires b.Valid() && !b.finished
    modifies b.Repr()
    ensures b.Valid() && !b.finished && fresh(b.Repr() - old(b.Repr()))
    ensures b.Abs() == Run(old(b.Abs()), Calls(FieldElems(fields)))
    decreases fields, 0
  {
    hide Bson.Valid, Step, CallsFor, ToElems;
    ghost var st := b.Abs();
    var i := 0;
    assert fields[0..] == fields;
    while i < |fields|
      invariant 0 <= i <= |fields|
      invariant b.Valid() && !b.finished && fresh(b.Repr() - old(b.Repr()))
      invariant Run(b.Abs(), Calls(FieldElems(fields[i..]))) == Run(st, Calls(FieldElems(fields)))
    {
      ghost var f, rest := fields[i], FieldElems(fields[i + 1..]);
      assert fields[i..][1..] == fields[i + 1..];
      CallsConcat(ToElems(f.key, f.value), rest);
      RunConcat(b.Abs(), Calls(ToElems(f.key, f.value)), Calls(rest));
      SaveValue(fields[i].value, fields[i].key, b);
      i := i + 1;
    }
  }

  method SaveItems(items: seq<Tree>, b: Bson)
    requires b.Valid() && !b.finished
    modifies b.Repr()
    ensures b.Valid() && !b.finished && fresh(b.Repr() - old(b.Repr()))
    ensures b.Abs() == Run(old(b.Abs()), Calls(ItemElems(items)))
    decreases items, 0
  {
    hide Bson.Valid, Step, CallsFor, ToElems;
    ghost var st := b.Abs();
    var i := 0;
    assert items[0..] == items;
    while i < |items|
      invariant 0 <= i <= |items|
      invariant b.Valid() && !b.finished && fresh(b.Repr() - old(b.Repr()))
      invariant Run(b.Abs(), Calls(ItemElems(items[i..]))) == Run(st, Calls(ItemElems(items)))
    {
      ghost var rest := ItemElems(items[i + 1..]);
      assert items[i..][1..] == items[i + 1..];
      CallsConcat(ToElems([], items[i]), rest);
      RunConcat(b.Abs(), Calls(ToElems([], items[i])), Calls(rest));
      SaveValue(items[i], [], b);
      i := i + 1;
    }
  }

  lemma NoCalls(st: State)
    requires st.Open()
    ensures Run(st, Calls([])) == st
  {
  }

  // CBson::__save_value.
  method SaveValue(o: Tree, key: CString, b: Bson)
    requires b.Valid() && !b.finished
    modifies b.Repr()
    ensures b.Valid() && !b.finished && fresh(b.Repr() - old(b.Repr()))
    ensures b.Abs() == Run(old(b.Abs()), Calls(ToElems(key, o)))
    decreases o
  {
    hide Bson.Valid, Step, Calls, Run, FieldElems, ItemElems;
    NoCalls(b.Abs());
    match o
    case Double(bits) => SaveScalar(F.Double(bits), key, b);
    case Int(i) => SaveScalar(F.Int(i), key, b);
    case Bool(v) => SaveScalar(F.Bool(v), key, b);
    case Str(s) => SaveScalar(F.Str(s), key, b);
    case Null => SaveScalar(F.Null, key, b);
    case Date(bits) => SaveScalar(F.Date(bits), key, b);
    case Bin(data) => SaveScalar(F.Binary(0, data), key, b);
    case Obj(fields) => SaveObject(fields, key, b);
    case List(items) => SaveList(items, key, b);
    case Long(_) =>
    case Other(_) =>
  }

  method SaveObject(fields: seq<Field>, key: CString, b: Bson)
    requires b.Valid() && !b.finished
    modifies b.Repr()
    ensures b.Valid() && !b.finished && fresh(b.Repr() - old(b.Repr()))
    ensures b.Abs() == Run(old(b.Abs()), Calls([F.Elem(key, F.Document(FieldElems(fields)))]))
    decreases fields, 1
  {
    hide Bson.Valid, Step, Calls, Run, FieldElems;
    NestedRun(b.Abs(), F.Elem(key, F.Document(FieldElems(fields))), FieldElems(fields), false);
    b.Call(Start(key, false));
    SaveFields(fields, b);
    b.Call(Close);
  }

  method SaveList(items: seq<Tree>, key: CString, b: Bson)
    requires b.Valid() && !b.finished
    modifies b.Repr()
    ensures b.Valid() && !b.finished && fresh(b.Repr() - old(b.Repr()))
    ensures b.Abs() == Run(old(b.Abs()), Calls([F.Elem(key, F.Array(ItemElems(items)))]))
    decreases items, 1
  {
    hide Bson.Valid, Step, Calls, Run, ItemElems;
    NestedRun(b.Abs(), F.Elem(key, F.Array(ItemElems(items))), ItemElems(items), true);
    b.Call(Start(key, true));
    SaveItems(items, b);
    b.Call(Close);
  }

  method SaveScalar(v: F.Value, key: CString, b: Bson)
    requires b.Valid() && !b.finished && !v.Array? && !v.Document?
    modifies b.Repr()
    ensures b.Valid() && !b.finished && fresh(b.Repr() - old(b.Repr()))
    ensures b.Abs() == Run(old(b.Abs()), Calls([F.Elem(key, v)]))
  {
    hide Bson.Valid, Step;
    assert [F.Elem(key, v)][1..] == [];
    assert Calls([F.Elem(key, v)]) == [Append(key, v)];
    OneCall(b.Abs(), Append(key, v));
    b.Call(Append(key, v));
  }

  lemma NestedRun(st: State, e: F.Elem, es: seq<F.Elem>, isArray: bool)
    requires st.Open() && e.value == if isArray then F.Array(es) else F.Document(es)
    ensures Run(st, Calls([e])) == Step(Run(Step(st, Start(e.name, isArray)), Calls(es)), Close)
  {
    hide Step;
    assert [e][1..] == [];
    assert Calls([e]) == [Start(e.name, isArray)] + Calls(es) + [Close];
    OneCall(st, Start(e.name, isArray));
    RunConcat(st, [Start(e.name, isArray)], Calls(es));
    RunConcat(st, [Start(e.name, isArray)] + Calls(es), [Close]);
    OneCall(Run(Step(st, Start(e.name, isArray)), Calls(es)), Close);
  }

  // CBson::save. When bson_finish fails, its result is ignored and an unset length is read: no value.
  method Save(dict: seq<Field>) returns (r: Option<seq<byte>>)
    ensures var (st, ok) := Finish(Run(InitialState(INITIAL_BUFFER_SIZE), Calls(FieldElems(dict))));
            r == if ok then Some(st.doc) else None
  {
    hide Run, Calls, FieldElems, EncLen, Flat;
    var b := new Bson();
    SaveFields(dict, b);
    ghost var st := b.Abs();
    var ok := b.FinishBson();
    if !ok {
      return None;
    }
    assert b.data[..b.cur] == F.Framed(Flat(st.levels));
    RawIntIs(b.data[..b.cur], 0, b.cur, b.data[4..b.cur]);
    assert b.data[..][0..4] == b.data[..b.cur][0..4];
    var size := RawInt(b.data[..], 0);
    r := Some(b.data[..size]);
  }

  // CBson::parse on the bytes of a finished document.
  method Parse(buf: seq<byte>, base: nat, ghost es: seq<F.Elem>) returns (dict: seq<Field>)
    requires At(buf, base, F.EncDoc(es)) && F.Sized(es)
    ensures dict == FromElems([], es)
  {
    var it := new Iterator(buf, base, es);
    dict := ParseFields(it, es);
  }

  // CBson::__parse.
  method ParseFields(it: Iterator, ghost es: seq<F.Elem>) returns (dict: seq<Field>)
    requires it.Valid() && it.first && it.rest == es
    modifies it
    ensures dict == FromElems([], es)
    decreases es, 1
  {
    hide Iterator.Valid, FromValue, Insert;
    dict := [];
    var t := it.Next();
    ghost var k := 0;
    while t != 0
      invariant it.Valid() && !it.first
      invariant 0 <= k <= |es| && it.rest == es[k..]
      invariant t == if it.rest == [] then 0 else F.TypeCode(it.rest[0].value)
      invariant FromElems(dict, it.rest) == FromElems([], es)
      decreases |es| - k
    {
      assert it.rest[0] == es[k];
      var v := ParseValue(it, es[k].value);
      dict := Insert(dict, it.Key(), v);
      t := it.Next();
      k := k + 1;
    }
  }

  method ParseItems(it: Iterator, ghost es: seq<F.Elem>) returns (items: seq<Tree>)
    requires it.Valid() && it.first && it.rest == es
    modifies it
    ensures items == FromItems(es)
    decreases es, 1
  {
    hide Iterator.Valid, FromValue;
    items := [];
    var t := it.Next();
    ghost var k := 0;
    assert es[..0] == [];
    while t != 0
      invariant it.Valid() && !it.first
      invariant 0 <= k <= |es| && it.rest == es[k..]
      invariant t == if it.rest == [] then 0 else F.TypeCode(it.rest[0].value)
      invariant items + FromItems(it.rest) == FromItems(es)
      decreases |es| - k
    {
      assert it.rest[0] == es[k];
      var v := ParseValue(it, es[k].value);
      items := items + [v];
      t := it.Next();
      k := k + 1;
    }
  }

  // CBson::__parse_value.
  method ParseValue(it: Iterator, ghost v: F.Value) returns (o: Tree)
    requires it.Valid() && it.rest != [] && it.rest[0].value == v
    ensures o == FromValue(v)
    decreases v, 0
  {
    hide Iterator.Valid, F.Body, EncLen;
    var t, p := it.Type(), it.ValuePos();
    PayloadFits(it);
    if t == 3 {
      var sub := new Iterator(it.buf, p, v.es);
      var dict := ParseFields(sub, v.es);
      o := Obj(dict);
    } else if t == 4 {
      var sub := new Iterator(it.buf, p, v.es);
      var items := ParseItems(sub, v.es);
      o := List(items);
    } else {
      o := ParseScalar(it.buf, t, p, v);
    }
  }

  // The accessors of bson.c read the value of each plain type.
  method ParseScalar(buf: seq<byte>, t: byte, p: nat, ghost v: F.Value) returns (o: Tree)
    requires !v.Document? && !v.Array? && t == F.TypeCode(v)
    requires At(buf, p, F.Payload(v)) && |F.Payload(v)| <= INT32_MAX
    ensures o == FromValue(v)
  {
    hide EncLen, StrLen, UntilNul, FromLittleEndian;
    match t
    case 1 =>
      var bits := Read64(buf, p, v.bits);
      o := Double(bits);
    case 16 =>
      Enc32RoundTrip(v.i);
      o := Int(RawInt(buf, p));
    case 18 =>
      var bits := Read64(buf, p, v.bits);
      o := Long(Signed32(FromLittleEndian(bits[..4]) % TWO_32));
    case 8 =>
      assert buf[p] == buf[p..p + 1][0];
      o := Bool(buf[p] != 0);
    case 2 =>
      StringAt(buf, p, v.s);
      o := Str(ReadCString(buf, p + 4));
    case 10 => o := Null;
    case 9 =>
      var bits := Read64(buf, p, v.bits);
      o := Date(bits);
    case 5 => o := ParseBinary(buf, p, v);
    case _ => o := Other(t);
  }

  // bson_iterator_long_raw and bson_iterator_double_raw.
  method Read64(buf: seq<byte>, p: nat, ghost bits: F.Bits64) returns (r: F.Bits64)
    requires At(buf, p, Reverse(bits))
    ensures r == bits
  {
    ReverseTwice(bits);
    r := Reverse(buf[p..p + 8]);
  }

  lemma PayloadFits(it: Iterator)
    requires it.Valid() && it.rest != []
    ensures |F.Payload(it.rest[0].value)| <= INT32_MAX
  {
    it.Step();
  }

  // What strdup copies from p.
  function ReadCString(buf: seq<byte>, p: nat): (s: CString)
    requires p <= |buf|
  {
    buf[p..p + StrLen(buf, p)]
  }

  lemma StringAt(buf: seq<byte>, p: nat, s: seq<byte>)
    requires At(buf, p, F.EncString(s))
    ensures p + 4 <= |buf| && ReadCString(buf, p + 4) == UntilNul(s)
  {
    hide EncLen, StrLen;
    AtSplit(buf, p, EncLen(|s| + 1), s + [0]);
    var c := UntilNul(s);
    assert exists tail :: s + [0] == (c + [0]) + tail by {
      if |c| < |s| {
        assert s + [0] == (c + [0]) + (s[|c| + 1..] + [0]);
      } else {
        assert s + [0] == (c + [0]) + [];
      }
    }
    var tail :| s + [0] == (c + [0]) + tail;
    AtSplit(buf, p + 4, c + [0], tail);
    AtSplit(buf, p + 4, c, [0]);
    StrLenIs(buf, p + 4, c);
  }

  // bson_iterator_bin_type, _bin_len and _bin_data.
  method ParseBinary(buf: seq<byte>, p: nat, ghost v: F.Value) returns (o: Tree)
    requires v.Binary? && At(buf, p, F.Payload(v)) && |F.Payload(v)| <= INT32_MAX
    ensures o == Bin(v.data)
  {
    hide EncLen, RawInt;
    ghost var data, t := v.data, v.subtype;
    if t == F.BIN_OLD {
      RawIntIs(buf, p, |data| + 4, [t] + (EncLen(|data|) + data));
      AtSplit(buf, p + 4, [t], EncLen(|data|) + data);
      AtSplit(buf, p + 5, EncLen(|data|), data);
    } else {
      RawIntIs(buf, p, |data|, [t] + data);
      AtSplit(buf, p + 4, [t], data);
    }
    assert buf[p + 4] == buf[p + 4..p + 5][0] == t;
    if buf[p + 4] == F.BIN_OLD {
      o := Bin(buf[p + 9..p + 9 + (RawInt(buf, p) - 4)]);
    } else {
      o := Bin(buf[p + 5..p + 5 + RawInt(buf, p)]);
    }
  }

  // ---- The round trip

  // Saving and parsing gives back the tree without the values that save skips, for every ordered tree whose texts pass
  // the UTF-8 check and whose requests are all granted; so exactly the trees with no 64-bit integer and no unknown type
  // come back unchanged.
  method RoundTrip(dict: seq<Field>) returns (r: seq<Field>)
    requires OrderedFields(dict) && Clean(FieldElems(dict)) && HasRoom(INITIAL_BUFFER_SIZE, FieldElems(dict))
    ensures r == StripFields(dict)
    ensures r == dict <==> AllSavedFields(dict)
  {
    hide Clean, FieldElems, Calls, StripFields, Run, AllSucceed, FromElems, AllSavedFields, RoomAfter, F.Body, EncLen;
    ghost var es := FieldElems(dict);
    WrittenExactly(INITIAL_BUFFER_SIZE, es);
    StripIsIdentity(dict);
    FieldsRoundTrip([], dict);
    assert [] + StripFields(dict) == StripFields(dict);
    var bytes := Save(dict);
    assert At(bytes.value, 0, F.EncDoc(es));
    r := Parse(bytes.value, 0, es);
  }

  // ---- Whatever the tree

  // When save yields bytes; that they are the encoding of the tree, which parses to the tree without skipped values,
  // if and only if its text is clean and it has room; and both in terms of the tree alone when it fits.
  lemma SavedBytesAreTheTree(dict: seq<Field>)
    requires OrderedFields(dict)
    ensures var es, st := FieldElems(dict), InitialState(INITIAL_BUFFER_SIZE);
            var r := Finish(Run(st, Calls(es)));
            && (r.1 <==> Passes(End(Fresh(INITIAL_BUFFER_SIZE), Calls(es))))
            && (r.1 && r.0.doc == F.EncDoc(es) <==> Clean(es) && HasRoom(INITIAL_BUFFER_SIZE, es))
            && (r.1 && !Overwrites(st, Calls(es)) ==> Clean(es) && r.0.doc == F.EncDoc(es))
            && (Fits(es) ==> (r.1 <==> !Marks(false, es)) && (r.1 ==> (r.0.doc == F.EncDoc(es) <==> Clean(es))))
            && FromElems([], es) == StripFields(dict)
  {
    hide Clean, FieldElems, Calls, StripFields, Run, FromElems, HasRoom, Passes, End, Overwrites, Finish, Fits, Marks,
      F.EncDoc, Smooth;
    var es := FieldElems(dict);
    FinishedIsEncoding(INITIAL_BUFFER_SIZE, es);
    if Fits(es) {
      FittingFinish(INITIAL_BUFFER_SIZE, es);
    }
    FieldsRoundTrip([], dict);
    assert [] + StripFields(dict) == StripFields(dict);
  }

  // No tree is saved with a regex.
  lemma {:induction false} ValueHasNoPattern(key: CString, o: Tree)
    ensures CleanPatterns(Calls(ToElems(key, o)))
    decreases o
  {
    hide CleanPatterns, Calls, FieldElems, ItemElems;
    NoPattern();
    match o
    case Obj(fields) =>
      FieldsHaveNoPattern(fields);
      NestedPatterns(F.Elem(key, F.Document(FieldElems(fields))), FieldElems(fields));
    case List(items) =>
      ItemsHaveNoPattern(items);
      NestedPatterns(F.Elem(key, F.Array(ItemElems(items))), ItemElems(items));
    case Long(_) =>
    case Other(_) =>
    case _ => PlainPattern(ToElems(key, o)[0]);
  }

  lemma {:induction false} FieldsHaveNoPattern(fields: seq<Field>)
    ensures CleanPatterns(Calls(FieldElems(fields)))
    decreases fields
  {
    hide CleanPatterns, Calls, ToElems;
    NoPattern();
    if fields != [] {
      ValueHasNoPattern(fields[0].key, fields[0].value);
      FieldsHaveNoPattern(fields[1..]);
      BothPatterns(ToElems(fields[0].key, fields[0].value), FieldElems(fields[1..]));
    }
  }

  lemma {:induction false} ItemsHaveNoPattern(items: seq<Tree>)
    ensures CleanPatterns(Calls(ItemElems(items)))
    decreases items
  {
    hide CleanPatterns, Calls, ToElems;
    NoPattern();
    if items != [] {
      ValueHasNoPattern([], items[0]);
      ItemsHaveNoPattern(items[1..]);
      BothPatterns(ToElems([], items[0]), ItemElems(items[1..]));
    }
  }

  lemma NoPattern()
    ensures CleanPatterns(Calls([]))
  {
  }

  lemma PlainPattern(e: F.Elem)
    requires !e.value.Document? && !e.value.Array? && !e.value.Regex?
    ensures CleanPatterns(Calls([e]))
  {
    assert [e][1..] == [];
  }

  lemma NestedPatterns(e: F.Elem, es: seq<F.Elem>)
    requires (e.value.Document? || e.value.Array?) && e.value.es == es && CleanPatterns(Calls(es))
    ensures CleanPatterns(Calls([e]))
  {
    assert [e][1..] == [] && CallsFor(e) == [Start(e.name, e.value.Array?)] + Calls(es) + [Close];
  }

  lemma BothPatterns(a: seq<F.Elem>, b: seq<F.Elem>)
    requires CleanPatterns(Calls(a)) && CleanPatterns(Calls(b))
    ensures CleanPatterns(Calls(a + b))
  {
    hide Calls;
    CallsConcat(a, b);
  }

  // Saving and parsing any tree, clean or not: unless a close was refused, what comes back is what the calls that
  // succeeded have written.
  method Reload(dict: seq<Field>) returns (r: Option<seq<Field>>)
    requires var t := End(Fresh(INITIAL_BUFFER_SIZE), Calls(FieldElems(dict))); Passes(t) ==> t.depth == 0
    ensures var t, ops := Fresh(INITIAL_BUFFER_SIZE), Calls(FieldElems(dict));
            r == if Passes(End(t, ops)) then Some(FromElems([], Read(NOTHING, Taken(t, ops)).docs[0])) else None
  {
    hide FieldElems, Calls, Run, FromElems, Passes, End, Finish, Read, Taken, CleanPatterns, F.Body, EncLen;
    ghost var t, ops := Fresh(INITIAL_BUFFER_SIZE), Calls(FieldElems(dict));
    FinishedIsEncoding(INITIAL_BUFFER_SIZE, FieldElems(dict));
    var bytes := Save(dict);
    if bytes.None? {
      return None;
    }
    FieldsHaveNoPattern(dict);
    FinishedReads(INITIAL_BUFFER_SIZE, ops);
    ghost var es := Read(NOTHING, Taken(t, ops)).docs[0];
    SavedIsSized(INITIAL_BUFFER_SIZE, ops, es);
    assert At(bytes.value, 0, F.EncDoc(es));
    var back := Parse(bytes.value, 0, es);
    r := Some(back);
  }

  lemma SavedIsSized(cap: nat, ops: seq<Op>, es: seq<F.Elem>)
    requires var r := Finish(Run(InitialState(cap), ops)); r.1 && r.0.doc == F.EncDoc(es)
    ensures F.Sized(es)
  {
    hide Run, F.Body, EncLen, Flat;
    NotFinished(InitialState(cap), ops);
  }

  // A map whose one key is not UTF-8 is saved as the empty document.
  lemma LostKeyIsSaved()
    ensures var r := Finish(Run(InitialState(128), Calls(FieldElems([Field([0xFF], Obj([]))]))));
            r.1 && r.0.doc == F.EncDoc([])
  {
    hide Finish, Run, Calls;
    var dict := [Field([0xFF], Obj([]))];
    assert dict[1..] == [] && FieldElems([]) == [];
    assert FieldElems(dict) == LOST_NAME;
    LostNameIsFinished();
  }
}

// The tree codec: saving a tree of values with the builder and parsing it back with the iterator.
module CBson {
  import opened Bytes
  import F = BsonFormat

  datatype Tree =
    | Double(bits: F.Bits64)
    | Int(i: int32)
    | Long(i: int32)            // the parser keeps the low 32 bits
    | Bool(b: bool)
    | Str(s: CString)
    | Null
    | Date(bits: F.Bits64)
    | Bin(data: seq<byte>)
    | Obj(fields: seq<Field>)
    | List(items: seq<Tree>)
    | Other(t: byte)            // a type the codec does not know

  // An entry of the ordered map of an object.
  datatype Field = Field(key: CString, value: Tree)

  // ---- The ordered map, keyed by strcmp.

  predicate Less(a: seq<byte>, b: seq<byte>) {
    b != [] && (a == [] || a[0] < b[0] || (a[0] == b[0] && Less(a[1..], b[1..])))
  }

  // strcmp: behind a common prefix of k bytes the first is over, or has the smaller byte.
  lemma {:induction false} LessIs(a: seq<byte>, b: seq<byte>)
    ensures Less(a, b) <==> exists k :: 0 <= k <= |a| && k < |b| && a[..k] == b[..k] && (k == |a| || a[k] < b[k])
  {
    forall k | 0 < k <= |a| && k < |b| && a[..k] == b[..k] ensures a[0] == b[0] {
      assert a[..k][0] == b[..k][0];
    }
    assert a[..0] == [];
    assert b[..0] == [];
    if a != [] && b != [] && a[0] == b[0] {
      var x, y := a[1..], b[1..];
      LessIs(x, y);
      if Less(a, b) {
        var k :| 0 <= k <= |x| && k < |y| && x[..k] == y[..k] && (k == |x| || x[k] < y[k]);
        assert a[..k + 1] == [a[0]] + x[..k] && b[..k + 1] == [b[0]] + y[..k];
      }
      if k :| 0 <= k <= |a| && k < |b| && a[..k] == b[..k] && (k == |a| || a[k] < b[k]) {
        assert x[..k - 1] == a[..k][1..] && y[..k - 1] == b[..k][1..];
      }
    }
  }

  lemma {:induction false} LessTransitive(a: seq<byte>, b: seq<byte>, c: seq<byte>)
    requires Less(a, b) && Less(b, c)
    ensures Less(a, c)
  {
    if a != [] && a[0] == b[0] == c[0] {
      LessTransitive(a[1..], b[1..], c[1..]);
    }
  }

  lemma {:induction false} LessTotal(a: seq<byte>, b: seq<byte>)
    ensures !(Less(a, b) && Less(b, a)) && !Less(a, a)
    ensures Less(a, b) || Less(b, a) || a == b
  {
    if a != [] {
      LessTotal(a[1..], a[1..]);
      if b != [] {
        LessTotal(a[1..], b[1..]);
        assert a == [a[0]] + a[1..] && b == [b[0]] + b[1..];
      }
    }
  }

  ghost predicate Sorted(fields: seq<Field>) {
    forall i, j :: 0 <= i < j < |fields| ==> Less(fields[i].key, fields[j].key)
  }

  // map[key] = v.
  function Insert(fields: seq<Field>, key: CString, v: Tree): seq<Field> {
    if fields == [] then [Field(key, v)]
    else if key == fields[0].key then [Field(key, v)] + fields[1..]
    else if Less(key, fields[0].key) then [Field(key, v)] + fields
    else [fields[0]] + Insert(fields[1..], key, v)
  }

  lemma {:induction false} InsertLast(fields: seq<Field>, key: CString, v: Tree)
    requires forall i :: 0 <= i < |fields| ==> Less(fields[i].key, key)
    ensures Insert(fields, key, v) == fields + [Field(key, v)]
  {
    if fields != [] {
      LessTotal(fields[0].key, key);
      InsertLast(fields[1..], key, v);
      assert fields == [fields[0]] + fields[1..];
    }
  }

  lemma {:induction false} InsertKeepsOrder(fields: seq<Field>, key: CString, v: Tree)
    requires Sorted(fields)
    ensures Sorted(Insert(fields, key, v))
    ensures forall f :: f in Insert(fields, key, v) ==> f == Field(key, v) || f in fields
  {
    if fields != [] && key != fields[0].key {
      LessTotal(key, fields[0].key);
      if Less(key, fields[0].key) {
        forall j | 0 <= j < |fields| ensures Less(key, fields[j].key) {
          if j > 0 {
            LessTransitive(key, fields[0].key, fields[j].key);
          }
        }
      } else {
        InsertKeepsOrder(fields[1..], key, v);
        var rest := Insert(fields[1..], key, v);
        forall j | 0 <= j < |rest| ensures Less(fields[0].key, rest[j].key) {
          if rest[j].key != key {
            assert rest[j] in fields[1..];
          }
        }
      }
    }
  }

  // ---- What save writes

  // __save_value: nothing for a 64-bit integer or an unknown type.
  function ToElems(key: CString, o: Tree): (es: seq<F.Elem>)
    decreases o
  {
    match o
    case Double(bits) => [F.Elem(key, F.Double(bits))]
    case Int(i) => [F.Elem(key, F.Int(i))]
    case Long(_) => []
    case Bool(b) => [F.Elem(key, F.Bool(b))]
    case Str(s) => [F.Elem(key, F.Str(s))]
    case Null => [F.Elem(key, F.Null)]
    case Date(bits) => [F.Elem(key, F.Date(bits))]
    case Bin(data) => [F.Elem(key, F.Binary(0, data))]
    case Obj(fields) => [F.Elem(key, F.Document(FieldElems(fields)))]
    case List(items) => [F.Elem(key, F.Array(ItemElems(items)))]
    case Other(_) => []
  }

  function FieldElems(fields: seq<Field>): (es: seq<F.Elem>)
    decreases fields
  {
    if fields == [] then [] else ToElems(fields[0].key, fields[0].value) + FieldElems(fields[1..])
  }

  // Every array element is saved under the empty key.
  function ItemElems(items: seq<Tree>): (es: seq<F.Elem>)
    decreases items
  {
    if items == [] then [] else ToElems([], items[0]) + ItemElems(items[1..])
  }

  // ---- What parse reads

  // strdup stops at the first NUL.
  function UntilNul(s: seq<byte>): (r: CString) {
    s[..StrLen(s, 0)]
  }

  function FromValue(v: F.Value): (o: Tree)
    decreases v
  {
    match v
    case Double(bits) => Double(bits)
    case Int(i) => Int(i)
    case Long(bits) => Long(Signed32(FromLittleEndian(bits[..4]) % TWO_32))
    case Bool(b) => Bool(b)
    case Str(s) => Str(UntilNul(s))
    case Null => Null
    case Date(bits) => Date(bits)
    case Binary(_, data) => Bin(data)
    case Document(es) => Obj(FromElems([], es))
    case Array(es) => List(FromItems(es))
    case _ => Other(F.TypeCode(v))
  }

  // __parse: every element is assigned into the map in turn.
  function FromElems(dict: seq<Field>, es: seq<F.Elem>): (fields: seq<Field>)
    decreases es
  {
    if es == [] then dict else FromElems(Insert(dict, es[0].name, FromValue(es[0].value)), es[1..])
  }

  function FromItems(es: seq<F.Elem>): (items: seq<Tree>)
    decreases es
  {
    if es == [] then [] else [FromValue(es[0].value)] + FromItems(es[1..])
  }

  // ---- The round trip

  // A tree whose maps are ordered, as every map is.
  ghost predicate Ordered(o: Tree)
    decreases o
  {
    match o
    case Obj(fields) => OrderedFields(fields)
    case List(items) => forall i :: 0 <= i < |items| ==> Ordered(items[i])
    case _ => true
  }

  ghost predicate OrderedFields(fields: seq<Field>)
    decreases fields
  {
    Sorted(fields) && forall i :: 0 <= i < |fields| ==> Ordered(fields[i].value)
  }

  predicate Saved(o: Tree) {
    !o.Long? && !o.Other?
  }

  // The tree without the values that save skips.
  function Strip(o: Tree): (r: Tree)
    decreases o
  {
    match o
    case Obj(fields) => Obj(StripFields(fields))
    case List(items) => List(StripItems(items))
    case _ => o
  }

  function StripFields(fields: seq<Field>): (r: seq<Field>)
    decreases fields
  {
    if fields == [] then []
    else
      (if Saved(fields[0].value) then [Field(fields[0].key, Strip(fields[0].value))] else [])
      + StripFields(fields[1..])
  }

  function StripItems(items: seq<Tree>): (r: seq<Tree>)
    decreases items
  {
    if items == [] then []
    else (if Saved(items[0]) then [Strip(items[0])] else []) + StripItems(items[1..])
  }

  lemma UntilNulIsAll(s: CString)
    ensures UntilNul(s) == s
  {
    forall i | 0 <= i < |s| ensures s[i] != 0 {
      assert s[i] in s;
    }
  }

  lemma {:induction false} ValueRoundTrip(key: CString, o: Tree)
    requires Ordered(o)
    ensures if Saved(o) then |ToElems(key, o)| == 1 && ToElems(key, o)[0].name == key
                             && FromValue(ToElems(key, o)[0].value) == Strip(o)
            else ToElems(key, o) == []
    decreases o
  {
    match o
    case Str(s) => UntilNulIsAll(s);
    case Obj(fields) => FieldsRoundTrip([], fields);
    case List(items) => ItemsRoundTrip(items);
    case _ =>
  }

  // Every key of dict comes before every key of fields.
  ghost predicate Precedes(dict: seq<Field>, fields: seq<Field>) {
    forall i, j :: 0 <= i < |dict| && 0 <= j < |fields| ==> Less(dict[i].key, fields[j].key)
  }

  lemma PrecedesNext(dict: seq<Field>, fields: seq<Field>, v: Tree)
    requires fields != [] && Sorted(fields) && Precedes(dict, fields)
    ensures Insert(dict, fields[0].key, v) == dict + [Field(fields[0].key, v)]
    ensures Precedes(dict, fields[1..]) && Precedes(dict + [Field(fields[0].key, v)], fields[1..])
  {
    InsertLast(dict, fields[0].key, v);
  }

  lemma {:induction false} FieldsRoundTrip(dict: seq<Field>, fields: seq<Field>)
    requires OrderedFields(fields) && Precedes(dict, fields)
    ensures FromElems(dict, FieldElems(fields)) == dict + StripFields(fields)
    decreases fields, 1
  {
    hide FromElems, Precedes, Less;
    if fields == [] {
      FromNoElems(dict);
    } else {
      ValueRoundTrip(fields[0].key, fields[0].value);
      FieldRoundTrip(dict, fields);
    }
  }

  lemma {:induction false} FieldRoundTrip(dict: seq<Field>, fields: seq<Field>)
    requires fields != [] && OrderedFields(fields) && Precedes(dict, fields)
    requires var f := fields[0];
             if Saved(f.value) then |ToElems(f.key, f.value)| == 1 && ToElems(f.key, f.value)[0].name == f.key
                                    && FromValue(ToElems(f.key, f.value)[0].value) == Strip(f.value)
             else ToElems(f.key, f.value) == []
    ensures FromElems(dict, FieldElems(fields)) == dict + StripFields(fields)
    decreases fields, 0
  {
    hide Insert, FromValue, ToElems, Strip, Precedes, Less, FromElems, Saved, StripFields, FieldElems;
    var f, rest := fields[0], fields[1..];
    var stripped := Field(f.key, Strip(f.value));
    PrecedesNext(dict, fields, Strip(f.value));
    StepOfFields(fields);
    if Saved(f.value) {
      FromElemsStep(dict, ToElems(f.key, f.value)[0], FieldElems(rest));
      FieldsRoundTrip(dict + [stripped], rest);
      assert dict + [stripped] + StripFields(rest) == dict + ([stripped] + StripFields(rest));
    } else {
      FieldsRoundTrip(dict, rest);
    }
  }

  lemma StepOfFields(fields: seq<Field>)
    requires fields != []
    ensures var f := fields[0];
            && (|ToElems(f.key, f.value)| == 1 ==>
                  FieldElems(fields) == [ToElems(f.key, f.value)[0]] + FieldElems(fields[1..]))
            && (ToElems(f.key, f.value) == [] ==> FieldElems(fields) == FieldElems(fields[1..]))
            && StripFields(fields) == if Saved(f.value) then [Field(f.key, Strip(f.value))] + StripFields(fields[1..])
                                      else StripFields(fields[1..])
  {
    hide ToElems, Strip, Saved;
  }

  lemma FromNoElems(dict: seq<Field>)
    ensures FromElems(dict, []) == dict
  {
  }

  lemma FromElemsStep(dict: seq<Field>, e: F.Elem, es: seq<F.Elem>)
    ensures FromElems(dict, [e] + es) == FromElems(Insert(dict, e.name, FromValue(e.value)), es)
  {
    assert ([e] + es)[1..] == es;
  }

  lemma {:induction false} ItemsRoundTrip(items: seq<Tree>)
    requires forall i :: 0 <= i < |items| ==> Ordered(items[i])
    ensures FromItems(ItemElems(items)) == StripItems(items)
    decreases items
  {
    if items != [] {
      ValueRoundTrip([], items[0]);
      ItemsRoundTrip(items[1..]);
      if Saved(items[0]) {
        var e := ToElems([], items[0])[0];
        assert ItemElems(items) == [e] + ItemElems(items[1..]);
        assert ([e] + ItemElems(items[1..]))[1..] == ItemElems(items[1..]);
      } else {
        assert ItemElems(items) == ItemElems(items[1..]);
      }
    }
  }

  // No 64-bit integer and no unknown type anywhere.
  predicate AllSaved(o: Tree)
    decreases o
  {
    Saved(o) && match o
      case Obj(fields) => AllSavedFields(fields)
      case List(items) => AllSavedItems(items)
      case _ => true
  }

  predicate AllSavedFields(fields: seq<Field>)
    decreases fields
  {
    fields == [] || (AllSaved(fields[0].value) && AllSavedFields(fields[1..]))
  }

  predicate AllSavedItems(items: seq<Tree>)
    decreases items
  {
    items == [] || (AllSaved(items[0]) && AllSavedItems(items[1..]))
  }

  // Exactly the trees without such values are unchanged.
  lemma {:induction false} StripIsIdentity(fields: seq<Field>)
    ensures |StripFields(fields)| <= |fields|
    ensures StripFields(fields) == fields <==> AllSavedFields(fields)
    decreases fields
  {
    if fields != [] {
      StripIsIdentity(fields[1..]);
      StripValue(fields[0].value);
      assert fields == [fields[0]] + fields[1..];
      if StripFields(fields) == fields {
        assert Saved(fields[0].value);
        assert StripFields(fields)[1..] == StripFields(fields[1..]);
      }
    }
  }

  lemma {:induction false} StripItemsIsIdentity(items: seq<Tree>)
    ensures |StripItems(items)| <= |items|
    ensures StripItems(items) == items <==> AllSavedItems(items)
    decreases items
  {
    if items != [] {
      StripItemsIsIdentity(items[1..]);
      StripValue(items[0]);
      assert items == [items[0]] + items[1..];
      if StripItems(items) == items {
        assert Saved(items[0]);
        assert StripItems(items)[1..] == StripItems(items[1..]);
      }
    }
  }

  lemma {:induction false} StripValue(o: Tree)
    ensures Saved(o) ==> (Strip(o) == o <==> AllSaved(o))
    decreases o
  {
    match o
    case Obj(fields) => StripIsIdentity(fields);
    case List(items) => StripItemsIsIdentity(items);
    case _ =>
  }

  // What parse builds is ordered, whatever the order and repetition of names it read.
  lemma {:induction false} ParsedIsOrdered(v: F.Value)
    ensures Ordered(FromValue(v))
    decreases v
  {
    match v
    case Document(es) => ParsedFieldsAreOrdered([], es);
    case Array(es) => ParsedItemsAreOrdered(es);
    case _ =>
  }

  lemma {:induction false} ParsedFieldsAreOrdered(dict: seq<Field>, es: seq<F.Elem>)
    requires OrderedFields(dict)
    ensures OrderedFields(FromElems(dict, es))
    decreases es
  {
    hide Insert, FromValue, Less;
    if es != [] {
      var v := FromValue(es[0].value);
      ParsedIsOrdered(es[0].value);
      InsertKeepsOrder(dict, es[0].name, v);
      var next := Insert(dict, es[0].name, v);
      forall i | 0 <= i < |next| ensures Ordered(next[i].value) {
        assert next[i] in next;
      }
      ParsedFieldsAreOrdered(Insert(dict, es[0].name, v), es[1..]);
    }
  }

  lemma {:induction false} ParsedItemsAreOrdered(es: seq<F.Elem>)
    ensures forall o :: o in FromItems(es) ==> Ordered(o)
    decreases es
  {
    if es != [] {
      ParsedIsOrdered(es[0].value);
      ParsedItemsAreOrdered(es[1..]);
    }
  }
}

// The builder: a growable buffer, a stack of open length fields that moves from an inline array of 32
// entries to a doubling heap array, and back-patched lengths.
module BsonBuilder {
  import opened Bytes
  import opened Utf8
  import opened BsonFormat
  import opened BsonSpec
  import opened BsonRuns
  import opened BsonOpen

  const INITIAL_BUFFER_SIZE: nat := 128
  const INLINE_STACK: nat := 32

  class Bson {
    var data: array<byte>
    var cur: nat
    var dataSize: nat
    var finished: bool
    var ownsData: bool
    const stack: array<nat>
    var stackPos: nat
    var err: Err
    var stackPtr: array?<nat>
    var stackSize: nat

    ghost var levels: seq<seq<byte>>
    ghost var doc: seq<byte>

    ghost function Repr(): set<object>
      reads this`data, this`stackPtr
    {
      if stackPtr == null then {this, data, stack} else var p: array<nat> := stackPtr; {this, data, stack, p}
    }

    // The error bits play no part in it.
    ghost predicate Valid()
      reads this`data, this`cur, this`dataSize, this`finished, this`levels, this`doc
      reads this`stackPos, this`stackPtr, this`stackSize, data, stack, stackPtr
      ensures Valid() ==> levels != [] && stackPos == |levels| - 1 <= stackSize
      ensures Valid() && !finished ==> cur == 4 + |Flat(levels)| <= dataSize
      ensures Valid() && finished ==> cur == |doc| <= dataSize
    {
      && stack as object != data && (stackPtr != null ==> stackPtr as object != data)
      && data.Length == dataSize <= INT32_MAX
      && levels != [] && stackPos == |levels| - 1
      && (if finished then 4 + |Flat(levels)| <= cur == |doc| <= dataSize && data[..cur] == doc
          else cur == 4 + |Flat(levels)| <= dataSize && data[4..cur] == Flat(levels))
      && ValidStack()
    }

    ghost predicate ValidStack()
      reads this`levels, this`stackPos, this`stackPtr, this`stackSize, stack, stackPtr
    {
      && stack.Length == INLINE_STACK
      && (stackPtr == null ==> stackSize == 0)
      && (stackPtr != null ==> stackPtr.Length == stackSize >= INLINE_STACK)
      && (stackPtr == stack ==> stackSize == INLINE_STACK)
      && stackPos <= stackSize && stackPos < |levels|
      && forall i :: 0 <= i < stackPos ==> stackPtr[i] == OpenAt(levels, i)
    }

    ghost function Abs(): State
      reads this
    {
      State(levels, dataSize, err, finished, ownsData, doc)
    }

    // bson_init.
    constructor ()
      ensures Valid() && fresh(Repr()) && Abs() == InitialState(INITIAL_BUFFER_SIZE)
    {
      data := new byte[INITIAL_BUFFER_SIZE];
      stack := new nat[INLINE_STACK];
      cur, dataSize, finished, ownsData := 4, INITIAL_BUFFER_SIZE, false, true;
      stackPos, err, stackPtr, stackSize := 0, 0, null, 0;
      levels, doc := [[]], [];
    }

    // _bson_append_grow_stack, with allocation that succeeds.
    method GrowStack()
      requires Valid() && stackPos == stackSize
      modifies this`stackPtr, this`stackSize
      ensures Valid() && stackPos < stackSize && stackPtr != null
      ensures stackPtr == stack || fresh(stackPtr)
    {
      if stackPtr == null {
        stackPtr, stackSize := stack, INLINE_STACK;
      } else {
        var bigger := new nat[2 * stackSize];
        forall i | 0 <= i < stackSize {
          bigger[i] := stackPtr[i];
        }
        stackPtr, stackSize := bigger, 2 * stackSize;
      }
    }

    method EnsureSpace(bytesNeeded: nat) returns (ok: bool)
      requires Valid()
      modifies this`data, this`dataSize, this`err
      ensures Valid() && (data == old(data) || fresh(data))
      ensures (Abs(), ok) == Reserve(old(Abs()), old(cur), bytesNeeded)
      ensures ok ==> cur + bytesNeeded <= dataSize
    {
      hide Flat, OpenAt;
      if cur + bytesNeeded <= dataSize {
        return true;
      }
      var newSize := 3 * (dataSize + bytesNeeded) / 2;
      if newSize > INT32_MAX {
        if dataSize + bytesNeeded < INT32_MAX {
          newSize := INT32_MAX;
        } else {
          err := SIZE_OVERFLOW;
          return false;
        }
      }
      if !ownsData {
        err := DOES_NOT_OWN_DATA;
        return false;
      }
      Grow(newSize);
      ok := true;
    }

    method Grow(newSize: nat)
      requires Valid() && dataSize <= newSize <= INT32_MAX
      modifies this`data, this`dataSize
      ensures Valid() && fresh(data) && Abs() == old(Abs()).(cap := newSize)
    {
      hide Flat, OpenAt;
      var bigger := new byte[newSize];
      forall i | 0 <= i < dataSize {
        bigger[i] := data[i];
      }
      assert bigger[..cur] == data[..cur];
      assert !finished ==> bigger[4..cur] == bigger[..cur][4..] == data[4..cur];
      data, dataSize := bigger, newSize;
      assert ValidStack();
    }

    // bson_append, bson_append_byte, bson_append32 and bson_append64: copy bytes to cur.
    method Write(bytes: seq<byte>)
      requires Valid() && !finished && cur + |bytes| <= dataSize
      modifies this`cur, this`levels, data
      ensures Valid() && Abs() == old(Abs()).Add(bytes)
      ensures cur == old(cur) + |bytes|
    {
      ghost var before := Abs();
      forall i | 0 <= i < |bytes| {
        data[cur + i] := bytes[i];
      }
      assert data[4..cur] == old(data[4..cur]);
      assert data[4..cur + |bytes|] == data[4..cur] + bytes;
      levels := before.Add(bytes).levels;
      cur := cur + |bytes|;
      FlatOfAdd(before, bytes);
      forall i | 0 <= i < stackPos ensures OpenAt(levels, i) == OpenAt(before.levels, i) {
        assert levels[..i + 1] == before.levels[..i + 1];
      }
    }

    static lemma AddedLast(st: State, bytes: seq<byte>)
      requires st.Open()
      ensures var n := |st.levels| - 1;
              |st.Add(bytes).levels| == n + 1 && st.Add(bytes).levels[..n] == st.levels[..n]
              && st.Add(bytes).levels[n] == st.levels[n] + bytes
    {
    }

    static lemma FlatOfAdd(st: State, bytes: seq<byte>)
      requires st.Open()
      ensures Flat(st.Add(bytes).levels) == Flat(st.levels) + bytes
    {
      var n := |st.levels| - 1;
      assert st.Add(bytes).levels[..n] == st.levels[..n];
      if n > 0 {
        assert Flat(st.levels[..n]) + PLACEHOLDER + (st.levels[n] + bytes)
            == Flat(st.levels[..n]) + PLACEHOLDER + st.levels[n] + bytes;
      }
    }

    method WriteHeader(t: byte, name: CString)
      requires Valid() && !finished && cur + 2 + |name| <= dataSize
      modifies this`cur, this`levels, data
      ensures Valid() && Abs() == old(Abs()).Add(Header(t, name))
      ensures cur == old(cur) + 2 + |name|
    {
      hide Flat, Valid, State.Add;
      AddTwice(Abs(), [t], name + [0]);
      Write([t]);
      Write(name + [0]);
    }

    method CheckFieldName(s: CString) returns (ok: bool)
      modifies this`err
      ensures ok <==> !Scan(s, 0, true, true).notUtf8
      ensures Abs() == old(Abs()).(err := Flagged(old(err), s, true, true, true))
    {
      hide Scan, Flagged;
      ok, err := ValidateString(s, true, true, true, err);
    }

    // bson_append_estart.
    method AppendStart(t: byte, name: CString, extra: nat) returns (ok: bool)
      requires Valid()
      modifies Repr()
      ensures Valid() && fresh(Repr() - old(Repr()))
      ensures (Abs(), ok) == StartElement(old(Abs()), t, name, extra)
      ensures ok ==> !finished && cur + extra <= dataSize
      ensures stackPtr == old(stackPtr)
    {
      hide Flat, Scan, Flagged, Reserve, Valid, State.Add, Header;
      ReserveKeeps(Abs(), cur, 1 + (|name| + 1) + extra);
      if finished {
        err := err | ALREADY_FINISHED;
        return false;
      }
      ok := EnsureSpace(1 + (|name| + 1) + extra);
      if !ok {
        return false;
      }
      ok := CheckFieldName(name);
      if ok {
        WriteHeader(t, name);
      }
    }

    // ---- The append functions. Each returns what AppendValue says of its value.

    // bson_append_int and bson_append_bool, _oid, _null, _undefined: one plain payload.
    method AppendSmall(name: CString, v: Value) returns (ok: bool)
      requires Valid()
      requires v.Int? || v.Bool? || v.Oid? || v.Null? || v.Undefined?
      modifies Repr()
      ensures Valid() && fresh(Repr() - old(Repr()))
      ensures (Abs(), ok) == AppendValue(old(Abs()), name, v)
    {
      hide Flat, Valid, State.Add, StartElement, EncLen;
      ok := AppendStart(TypeCode(v), name, |Payload(v)|);
      if ok {
        Write(Payload(v));
      }
    }

    // bson_append_long, _double and _date.
    method Append64(name: CString, v: Value) returns (ok: bool)
      requires Valid() && (v.Long? || v.Double? || v.Date?)
      modifies Repr()
      ensures Valid() && fresh(Repr() - old(Repr()))
      ensures (Abs(), ok) == AppendValue(old(Abs()), name, v)
    {
      hide Flat, Valid, State.Add, StartElement, EncLen;
      ok := AppendStart(TypeCode(v), name, 8);
      if ok {
        Write(Reverse(v.bits));
      }
    }

    method AppendTimestamp(name: CString, increment: int32, time: int32) returns (ok: bool)
      requires Valid()
      modifies Repr()
      ensures Valid() && fresh(Repr() - old(Repr()))
      ensures (Abs(), ok) == AppendValue(old(Abs()), name, Timestamp(increment, time))
    {
      hide Flat, Valid, State.Add, StartElement, EncLen;
      ok := AppendStart(17, name, 8);
      if ok {
        AddTwice(Abs(), Enc32(increment), Enc32(time));
        Write(Enc32(increment));
        Write(Enc32(time));
      }
    }

    method CheckString(s: seq<byte>) returns (ok: bool)
      modifies this`err
      ensures ok <==> !Scan(s, 0, true, false).notUtf8
      ensures Abs() == old(Abs()).(err := Flagged(old(err), s, true, false, false))
    {
      hide Scan, Flagged;
      ok, err := ValidateString(s, true, false, false, err);
    }

    // bson_append_string_base: strings, symbols and code.
    method AppendStringBase(name: CString, t: byte, s: seq<byte>) returns (ok: bool)
      requires Valid()
      modifies Repr()
      ensures Valid() && fresh(Repr() - old(Repr()))
      ensures (Abs(), ok) == AppendString(old(Abs()), t, name, s)
    {
      hide Flat, Valid, State.Add, StartElement, EncLen, Flagged, Scan;
      if |s| + 1 > INT32_MAX {
        err := SIZE_OVERFLOW;
        return false;
      }
      ok := CheckString(s);
      if ok {
        ok := AppendStart(t, name, 4 + (|s| + 1));
        if ok {
          WriteString(s);
        }
      }
    }

    method WriteString(s: seq<byte>)
      requires Valid() && !finished && cur + |s| + 5 <= dataSize
      modifies this`cur, this`levels, data
      ensures Valid() && Abs() == old(Abs()).Add(EncString(s)) && cur == old(cur) + |s| + 5
    {
      hide Flat, Valid, State.Add, EncLen;
      AddTwice(Abs(), EncLen(|s| + 1), s + [0]);
      AddTwice(Abs().Add(EncLen(|s| + 1)), s, [0]);
      Write(EncLen(|s| + 1));
      Write(s);
      Write([0]);
    }

    method AppendBinary(name: CString, t: byte, data': seq<byte>) returns (ok: bool)
      requires Valid()
      modifies Repr()
      ensures Valid() && fresh(Repr() - old(Repr()))
      ensures (Abs(), ok) == AppendValue(old(Abs()), name, Binary(t, data'))
    {
      hide Flat, Valid, State.Add, StartElement, EncLen;
      if t == BIN_OLD {
        ok := AppendStart(5, name, 4 + 1 + 4 + |data'|);
        if ok {
          AddTwice(Abs(), EncLen(|data'| + 4), [t] + (EncLen(|data'|) + data'));
          Write(EncLen(|data'| + 4));
          WriteTagged(t, EncLen(|data'|), data');
        }
      } else {
        ok := AppendStart(5, name, 4 + 1 + |data'|);
        if ok {
          AddTwice(Abs(), EncLen(|data'|), [t] + data');
          assert [] + data' == data';
          Write(EncLen(|data'|));
          WriteTagged(t, [], data');
        }
      }
    }

    // The subtype and what follows it.
    method WriteTagged(t: byte, length: seq<byte>, bytes: seq<byte>)
      requires Valid() && !finished && cur + 1 + |length| + |bytes| <= dataSize
      modifies this`cur, this`levels, data
      ensures Valid() && Abs() == old(Abs()).Add([t] + (length + bytes))
    {
      hide Flat, Valid, State.Add;
      AddTwice(Abs(), [t], length + bytes);
      AddTwice(Abs().Add([t]), length, bytes);
      Write([t]);
      Write(length);
      Write(bytes);
    }

    // bson_append_code_w_scope_n; scope is a finished document.
    method AppendCodeWithScope(name: CString, code: seq<byte>, scope: seq<byte>, ghost es: seq<Elem>) returns (ok: bool)
      requires Valid() && scope == EncDoc(es)
      modifies Repr()
      ensures Valid() && fresh(Repr() - old(Repr()))
      ensures (Abs(), ok) == AppendCodeWScope(old(Abs()), name, CodeWScope(code, es))
    {
      hide Flat, Valid, State.Add, StartElement, EncLen, Body;
      var size := 4 + 4 + (|code| + 1) + |scope|;
      assert Payload(CodeWScope(code, es)) == EncLen(size) + (EncString(code) + scope);
      if size > INT32_MAX {
        err := SIZE_OVERFLOW;
        return false;
      }
      ok := AppendStart(15, name, size);
      if ok {
        AddTwice(Abs(), EncLen(size), EncString(code) + scope);
        AddTwice(Abs().Add(EncLen(size)), EncString(code), scope);
        Write(EncLen(size));
        WriteString(code);
        Write(scope);
      }
    }

    method AppendRegex(name: CString, pattern: CString, opts: CString) returns (ok: bool)
      requires Valid()
      modifies Repr()
      ensures Valid() && fresh(Repr() - old(Repr()))
      ensures (Abs(), ok) == AppendValue(old(Abs()), name, Regex(pattern, opts))
    {
      hide Flat, Valid, State.Add, StartElement, EncLen, Flagged, Scan;
      ok := AppendStart(11, name, (|pattern| + 1) + (|opts| + 1));
      if ok {
        ok := CheckString(pattern);
        if ok {
          AddTwice(Abs(), pattern + [0], opts + [0]);
          Write(pattern + [0]);
          Write(opts + [0]);
        }
      }
    }

    // bson_append_bson: embed a finished document.
    method AppendBson(name: CString, sub: seq<byte>, ghost es: seq<Elem>) returns (ok: bool)
      requires Valid() && sub == EncDoc(es)
      modifies Repr()
      ensures Valid() && fresh(Repr() - old(Repr()))
      ensures (Abs(), ok) == AppendValue(old(Abs()), name, Document(es))
    {
      hide Flat, Valid, State.Add, StartElement, EncLen, Body;
      ok := AppendStart(3, name, |sub|);
      if ok {
        Write(sub);
      }
    }

    // Bytes behind a finished document.
    method WriteBehind(bytes: seq<byte>)
      requires Valid() && finished && cur + |bytes| <= dataSize
      modifies this`cur, this`doc, data
      ensures Valid() && Abs() == old(Abs()).(doc := old(doc) + bytes) && cur == old(cur) + |bytes|
    {
      forall i | 0 <= i < |bytes| {
        data[cur + i] := bytes[i];
      }
      assert data[..cur] == old(data[..cur]);
      assert data[..cur + |bytes|] == data[..cur] + bytes;
      cur := cur + |bytes|;
      doc := doc + bytes;
    }

    // bson_append_element without a new name: copy the bytes of an element, behind a finished document too.
    method AppendRaw(bytes: seq<byte>) returns (ok: bool)
      requires Valid()
      modifies Repr()
      ensures Valid() && fresh(Repr() - old(Repr()))
      ensures ok <==> CanReserve(old(cur), old(dataSize), old(ownsData), |bytes|)
      ensures levels == if ok && !finished then old(Abs()).Add(bytes).levels else old(levels)
      ensures doc == if ok && finished then old(doc) + bytes else old(doc)
      ensures finished == old(finished) && ownsData == old(ownsData) && (ok ==> err == old(err))
    {
      hide Flat, Valid;
      ok := EnsureSpace(|bytes|);
      if ok {
        if finished {
          WriteBehind(bytes);
        } else {
          Write(bytes);
        }
      }
    }

    // ---- Nested documents

    // bson_append_start_object and bson_append_start_array.
    method StartNested(name: CString, isArray: bool) returns (ok: bool)
      requires Valid()
      modifies Repr()
      ensures Valid() && fresh(Repr() - old(Repr()))
      ensures (Abs(), ok) == StartDocument(old(Abs()), name, isArray)
    {
      hide Flat, Valid, State.Add, StartElement;
      ok := AppendStart(if isArray then 4 else 3, name, 5);
      if ok {
        if stackPos >= stackSize {
          GrowStack();
        }
        Push();
      }
    }

    method Push()
      requires Valid() && !finished && cur + 4 <= dataSize && stackPos < stackSize
      modifies this`cur, this`levels, this`stackPos, data, stackPtr
      ensures Valid() && Abs() == old(Abs()).(levels := old(levels) + [[]])
    {
      hide Flat, OpenAt;
      FlatOfPush(levels);
      stackPtr[stackPos] := cur;
      stackPos := stackPos + 1;
      forall i | 0 <= i < 4 {
        data[cur + i] := 0;
      }
      cur := cur + 4;
      levels := levels + [[]];
      assert data[4..cur - 4] == old(data[4..cur]);
      assert data[4..cur] == data[4..cur - 4] + PLACEHOLDER;
    }

    static lemma FlatOfPush(levels: seq<seq<byte>>)
      requires levels != []
      ensures Flat(levels + [[]]) == Flat(levels) + PLACEHOLDER
      ensures forall i :: 0 <= i < |levels| - 1 ==> OpenAt(levels + [[]], i) == OpenAt(levels, i)
      ensures OpenAt(levels + [[]], |levels| - 1) == 4 + |Flat(levels)|
    {
      assert (levels + [[]])[..|levels|] == levels;
      forall i | 0 <= i < |levels| - 1 ensures OpenAt(levels + [[]], i) == OpenAt(levels, i) {
        assert (levels + [[]])[..i + 1] == levels[..i + 1];
      }
    }

    // bson_append_finish_object and bson_append_finish_array.
    method FinishNested() returns (ok: bool)
      requires Valid()
      modifies Repr()
      ensures Valid() && fresh(Repr() - old(Repr()))
      ensures (Abs(), ok) == FinishDocument(old(Abs()))
    {
      hide Flat, Valid, State.Add, Framed, Patched;
      if stackPos == 0 {
        err := NOT_IN_SUBOBJECT;
        return false;
      }
      ok := EnsureSpace(1);
      if ok && finished {
        WriteBehind([0]);
        PopBehind();
      } else if ok {
        CloseInnermost();
      }
    }

    method CloseInnermost()
      requires Valid() && !finished && stackPos > 0 && cur + 1 <= dataSize
      modifies this`cur, this`levels, this`stackPos, data
      ensures Valid()
      ensures var n := old(stackPos); Abs() == old(Abs()).(levels := old(levels)[..n]).Add(Framed(old(levels)[n]))
    {
      hide Flat, Valid, State.Add, Framed;
      ghost var before := Abs();
      Write([0]);
      AddedLast(before, [0]);
      Pop(before.levels[stackPos]);
    }

    // The same on a finished builder: the patched length counts to the end of all bytes.
    method PopBehind()
      requires Valid() && finished && stackPos > 0
      modifies this`levels, this`stackPos, this`doc, data
      ensures Valid()
      ensures var n := old(stackPos);
              Abs() == old(Abs()).(levels := old(levels)[..n], doc := Patched(old(doc), OpenAt(old(levels), n - 1)))
    {
      hide Flat, EncLen, OpenAt, Patched;
      ghost var before := levels;
      stackPos := stackPos - 1;
      var start := stackPtr[stackPos];
      OpenInside(levels, stackPos);
      PatchBehind(start);
      PatchedSize(doc, start);
      doc := Patched(doc, start);
      levels := levels[..stackPos + 1];
    }

    static lemma PatchedSize(bytes: seq<byte>, start: nat)
      ensures |Patched(bytes, start)| == |bytes|
    {
    }

    method PatchBehind(start: nat)
      requires start + 4 <= cur <= data.Length
      modifies data
      ensures data[..cur] == Patched(old(data[..cur]), start)
    {
      hide EncLen;
      ghost var was := data[..cur];
      PatchLength(start, cur - start);
      assert data[..cur] == data[..start] + (data[start..start + 4] + data[start + 4..][..cur - start - 4]);
      assert old(data[start + 4..])[..cur - start - 4] == was[start + 4..];
    }

    // Popping a level moves no other open position.
    static lemma OpenInside(levels: seq<seq<byte>>, n: nat)
      requires n + 1 < |levels|
      ensures OpenAt(levels, n) + 4 <= 4 + |Flat(levels)| && |Flat(levels[..n + 1])| <= |Flat(levels)|
      ensures forall i :: 0 <= i < n ==> OpenAt(levels[..n + 1], i) == OpenAt(levels, i)
    {
      FlatPrefix(levels, n);
      forall i | 0 <= i < n ensures OpenAt(levels[..n + 1], i) == OpenAt(levels, i) {
        assert levels[..n + 1][..i + 1] == levels[..i + 1];
      }
    }

    // bson_little_endian32 into the buffer.
    method PatchLength(start: nat, n: nat)
      requires start + 4 <= data.Length
      modifies data
      ensures data[..start] == old(data[..start]) && data[start..start + 4] == EncLen(n)
      ensures data[start + 4..] == old(data[start + 4..])
    {
      var length := EncLen(n);
      forall i | 0 <= i < 4 {
        data[start + i] := length[i];
      }
    }

    static lemma FlatOfPop(levels: seq<seq<byte>>, body: seq<byte>)
      requires |levels| > 1 && levels[|levels| - 1] == body + [0]
      ensures Flat(levels) == Flat(levels[..|levels| - 1]) + PLACEHOLDER + (body + [0])
    {
    }

    method PatchNested(start: nat, ghost prefix: seq<byte>, ghost body: seq<byte>)
      requires 4 <= cur <= data.Length && start == 4 + |prefix|
      requires data[4..cur] == prefix + PLACEHOLDER + (body + [0])
      modifies data
      ensures data[4..cur] == prefix + Framed(body)
    {
      hide EncLen, Framed;
      ghost var was := data[..];
      PatchLength(start, cur - start);
      PatchedBody(was, data[..], prefix, body);
    }

    static lemma PatchedBody(was: seq<byte>, now: seq<byte>, prefix: seq<byte>, body: seq<byte>)
      requires |was| == |now| && 4 + |prefix| + 4 + |body| + 1 <= |was|
      requires var start, end := 4 + |prefix|, 4 + |prefix| + 4 + |body| + 1;
               && was[4..end] == prefix + PLACEHOLDER + (body + [0])
               && now[..start] == was[..start] && now[start + 4..] == was[start + 4..]
               && now[start..start + 4] == EncLen(end - start)
      ensures now[4..4 + |prefix| + 4 + |body| + 1] == prefix + Framed(body)
    {
      hide EncLen;
      var start, end := 4 + |prefix|, 4 + |prefix| + 4 + |body| + 1;
      assert now[4..start] == was[..start][4..] == was[4..end][..|prefix|] == prefix;
      assert now[start + 4..end] == was[start + 4..][..|body| + 1] == was[4..end][|prefix| + 4..] == body + [0];
      assert now[4..end] == now[4..start] + (now[start..start + 4] + now[start + 4..end]);
    }

    static lemma FramedSize(body: seq<byte>)
      ensures |Framed(body)| == |body| + 5
    {
    }

    // Back-patch the length of the innermost document; it cannot reach INT32_MAX, since the buffer does not.
    method Pop(ghost body: seq<byte>)
      requires Valid() && !finished && stackPos > 0 && levels[stackPos] == body + [0]
      modifies this`levels, this`stackPos, data
      ensures Valid() && Abs() == old(Abs()).(levels := old(levels)[..old(stackPos)]).Add(Framed(body))
    {
      hide Flat, EncLen, Framed;
      ghost var before := levels;
      ghost var outer := Abs().(levels := levels[..stackPos]);
      FlatOfPop(levels, body);
      FlatOfAdd(outer, Framed(body));
      FramedSize(body);
      stackPos := stackPos - 1;
      var start := stackPtr[stackPos];
      assert start == 4 + |Flat(outer.levels)|;
      PatchNested(start, Flat(outer.levels), body);
      levels := outer.Add(Framed(body)).levels;
      forall i | 0 <= i < stackPos ensures stackPtr[i] == OpenAt(levels, i) {
        assert levels[..i + 1] == before[..i + 1];
      }
    }

    // bson_finish.
    method FinishBson() returns (ok: bool)
      requires Valid()
      modifies Repr()
      ensures Valid() && fresh(Repr() - old(Repr()))
      ensures (Abs(), ok) == Finish(old(Abs()))
    {
      hide Flat, Valid;
      if err & NOT_UTF8 != 0 {
        return false;
      }
      if !finished {
        ok := EnsureSpace(1);
        if !ok {
          return false;
        }
        ghost var before := Abs();
        Write([0]);
        if cur >= INT32_MAX {
          err := SIZE_OVERFLOW;
          return false;
        }
        FlatOfAdd(before, [0]);
        Seal(Flat(before.levels));
      }
      ok := true;
    }

    method Seal(ghost body: seq<byte>)
      requires Valid() && !finished && Flat(levels) == body + [0]
      modifies this`finished, this`doc, data
      ensures Valid() && Abs() == old(Abs()).(finished := true, doc := Framed(body))
    {
      PatchLength(0, cur);
      finished, doc := true, Framed(body);
      assert data[4..][..cur - 4] == old(data[4..])[..cur - 4];
      assert data[4..cur] == data[4..][..cur - 4];
      assert data[..cur] == data[..4] + data[4..cur];
    }

    // ---- Runs

    // The call that an operation stands for. No call appends a finished array.
    method Perform(op: Op) returns (ok: bool)
      requires Valid()
      requires op.Append? ==> !op.value.Array?
      modifies Repr()
      ensures Valid() && fresh(Repr() - old(Repr()))
      ensures (Abs(), ok) == Try(old(Abs()), op)
    {
      hide Valid, AppendString, AppendCodeWScope, BsonSpec.AppendRegex, AppendPayload, StartDocument, FinishDocument;
      match op
      case Start(name, isArray) => ok := StartNested(name, isArray);
      case Close => ok := FinishNested();
      case Append(name, v) => ok := AppendTyped(name, v);
    }

    method AppendTyped(name: CString, v: Value) returns (ok: bool)
      requires Valid() && !v.Array?
      modifies Repr()
      ensures Valid() && fresh(Repr() - old(Repr()))
      ensures (Abs(), ok) == AppendValue(old(Abs()), name, v)
    {
      hide Valid, AppendString, AppendCodeWScope, BsonSpec.AppendRegex, AppendPayload, Payload;
      match v
      case Str(s) => ok := AppendStringBase(name, 2, s);
      case Code(s) => ok := AppendStringBase(name, 13, s);
      case Symbol(s) => ok := AppendStringBase(name, 14, s);
      case Document(es) => ok := AppendBson(name, EncDoc(es), es);
      case Binary(t, bytes) => ok := AppendBinary(name, t, bytes);
      case Regex(pattern, opts) => ok := AppendRegex(name, pattern, opts);
      case CodeWScope(code, scope) => ok := AppendCodeWithScope(name, code, EncDoc(scope), scope);
      case Timestamp(increment, time) => ok := AppendTimestamp(name, increment, time);
      case Long(_) => ok := Append64(name, v);
      case Double(_) => ok := Append64(name, v);
      case Date(_) => ok := Append64(name, v);
      case Int(_) => ok := AppendSmall(name, v);
      case Bool(_) => ok := AppendSmall(name, v);
      case Oid(_) => ok := AppendSmall(name, v);
      case Null => ok := AppendSmall(name, v);
      case Undefined => ok := AppendSmall(name, v);
    }

    // A call whose result the caller ignores.
    method Call(op: Op)
      requires Valid() && (op.Append? ==> !op.value.Array?)
      modifies Repr()
      ensures Valid() && fresh(Repr() - old(Repr()))
      ensures Abs() == Step(old(Abs()), op) && finished == old(finished)
    {
      hide Valid, Step, Try;
      StepKeepsFinished(Abs(), op);
      var _ := Perform(op);
    }

    // Any run of calls, before or after bson_finish.
    method PerformAll(ops: seq<Op>)
      requires Valid()
      requires forall op :: op in ops && op.Append? ==> !op.value.Array?
      modifies Repr()
      ensures Valid() && fresh(Repr() - old(Repr()))
      ensures Abs() == Run(old(Abs()), ops) && finished == old(finished)
    {
      hide Valid, Step, Try;
      ghost var st := Abs();
      var i := 0;
      assert ops[0..] == ops;
      while i < |ops|
        invariant 0 <= i <= |ops|
        invariant Valid() && finished == old(finished) && fresh(Repr() - old(Repr()))
        invariant Run(Abs(), ops[i..]) == Run(st, ops)
      {
        assert ops[i..][1..] == ops[i + 1..];
        Call(ops[i]);
        i := i + 1;
      }
    }

    // At every moment of a run, whatever is open: the bytes up to cur are the encoding of the elements read so far,
    // level by level, with a zero placeholder opening every inner level.
    lemma BytesSoFar(cap: nat, ops: seq<Op>)
      requires Valid() && !finished && Abs() == Run(InitialState(cap), ops) && Tidy(InitialState(cap), ops)
      ensures data[4..cur] == Flat(levels) && Shows(levels, Read(NOTHING, Kept(InitialState(cap), ops)))
    {
      hide Run, Read, Kept, Tidy;
      assert Shows(InitialState(cap).levels, NOTHING);
      RunShows(InitialState(cap), NOTHING, ops);
    }

    // The open length fields are zero, and their offsets strictly increase.
    lemma OpenFieldsAreZero(i: nat)
      requires Valid() && !finished && i < stackPos
      ensures At(data[..cur], stackPtr[i], PLACEHOLDER)
      ensures i > 0 ==> stackPtr[i - 1] < stackPtr[i]
    {
      var flat := Flat(levels);
      FlatPrefix(levels, i);
      assert data[..cur][4..] == flat;
      assert data[..cur][stackPtr[i]..stackPtr[i] + 4] == flat[stackPtr[i] - 4..stackPtr[i]];
      if i > 0 {
        FlatPrefix(levels[..i + 1], i - 1);
        assert levels[..i + 1][..i] == levels[..i];
      }
    }

    static lemma {:induction false} FlatPrefix(levels: seq<seq<byte>>, i: nat)
      requires i + 1 < |levels|
      ensures |Flat(levels[..i + 1])| + 4 <= |Flat(levels)|
      ensures Flat(levels)[|Flat(levels[..i + 1])|..|Flat(levels[..i + 1])| + 4] == PLACEHOLDER
      decreases |levels|
    {
      var n := |levels| - 1;
      if i + 1 < n {
        FlatPrefix(levels[..n], i);
        assert levels[..n][..i + 1] == levels[..i + 1];
      }
    }
  }
}

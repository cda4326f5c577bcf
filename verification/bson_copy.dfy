// Copying a finished document element by element with the iterator.
module BsonCopy {
  import opened Bytes
  import opened BsonFormat
  import opened BsonSpec
  import opened BsonRuns
  import opened BsonTrees
  import opened BsonIterator
  import opened BsonBuilder

  // bson_append_element without a new name: a copy of the iterator finds the end of the element. An iterator that was
  // never advanced, or is at the end, copies nothing; a finished builder gets the bytes behind its document.
  method AppendElement(b: Bson, elem: Iterator) returns (ok: bool)
    requires b.Valid() && elem.Valid() && elem !in b.Repr()
    modifies b.Repr()
    ensures b.Valid() && fresh(b.Repr() - old(b.Repr()))
    ensures var bytes := if elem.first || elem.rest == [] then [] else EncElem(elem.rest[0]);
            && (ok <==> CanReserve(old(b.cur), old(b.dataSize), old(b.ownsData), |bytes|))
            && b.levels == (if ok && !b.finished then old(b.Abs()).Add(bytes).levels else old(b.levels))
            && b.doc == (if ok && b.finished then old(b.doc) + bytes else old(b.doc))
    ensures b.finished == old(b.finished) && b.ownsData == old(b.ownsData) && (ok ==> b.err == old(b.err))
  {
    hide Bson.Valid, Iterator.Valid, CanReserve, State.Add, EncElem;
    var bytes := ElementBytes(elem);
    ok := b.AppendRaw(bytes);
  }

  method ElementBytes(elem: Iterator) returns (bytes: seq<byte>)
    requires elem.Valid()
    ensures bytes == if elem.first || elem.rest == [] then [] else EncElem(elem.rest[0])
  {
    hide EncElem;
    var next := new Iterator.Copy(elem);
    var _ := next.Next();
    bytes := elem.buf[elem.cur..next.cur];
    if !elem.first && elem.rest != [] {
      elem.Step();
    }
  }

  // Visiting a document with the iterator and re-appending each element rebuilds its body.
  method CopyDocument(b: Bson, buf: seq<byte>, base: nat, ghost es: seq<Elem>) returns (ok: bool)
    requires b.Valid() && !b.finished
    requires At(buf, base, EncDoc(es)) && Sized(es)
    modifies b.Repr()
    ensures b.Valid() && !b.finished && fresh(b.Repr() - old(b.Repr()))
    ensures ok ==> b.levels == old(b.Abs()).Add(Body(es)).levels && b.err == old(b.err)
    ensures Ready(old(b.Abs()), |Body(es)|, |Body(es)| + 1) ==> ok
  {
    hide Bson.Valid, State.Add, EncElem, Flat, CanReserve;
    ghost var st := b.Abs();
    var it := new Iterator(buf, base, es);
    var t := it.Next();
    ghost var done: seq<Elem> := [];
    AddNothing(st);
    assert done + it.rest == es;
    while t != 0
      invariant b.Valid() && !b.finished && fresh(b.Repr() - old(b.Repr())) && b.ownsData == st.ownsData
      invariant it.Valid() && !it.first && fresh(it) && it !in b.Repr()
      invariant done + it.rest == es
      invariant t == if it.rest == [] then 0 else TypeCode(it.rest[0].value)
      invariant b.levels == st.Add(Body(done)).levels && b.err == st.err
      decreases |it.rest|
    {
      CopyStep(st, b.Abs(), done, it.rest);
      done := done + [it.rest[0]];
      ok := AppendElement(b, it);
      if !ok {
        return;
      }
      t := it.Next();
    }
    assert done == es;
    ok := true;
  }

  lemma AddNothing(st: State)
    requires st.Open()
    ensures st.levels == st.Add(Body([])).levels
  {
    var n := |st.levels| - 1;
    assert st.levels[n] + [] == st.levels[n];
  }

  // One element further, there is room for it if there was room for the whole body.
  lemma CopyStep(st: State, now: State, done: seq<Elem>, rest: seq<Elem>)
    requires st.Open() && rest != [] && now.levels == st.Add(Body(done)).levels && now.ownsData == st.ownsData
    ensures now.Add(EncElem(rest[0])).levels == st.Add(Body(done + [rest[0]])).levels
    ensures done + [rest[0]] + rest[1..] == done + rest
    ensures Ready(st, |Body(done + rest)|, |Body(done + rest)| + 1) ==>
              CanReserve(now.Position(), now.cap, now.ownsData, |EncElem(rest[0])|)
  {
    hide EncElem, Flat, Ready, CanReserve, State.Add;
    var e := rest[0];
    BodySnoc(done, e);
    BodyConcat(done, rest);
    AddTwice(st, Body(done), EncElem(e));
    SameAdd(now, st.Add(Body(done)), EncElem(e));
    FlatAdd(st, Body(done));
    RoomForNext(st, now, |Body(done)|, |EncElem(e)|, |Body(done + rest)|);
  }

  lemma SameAdd(a: State, b: State, bytes: seq<byte>)
    requires a.Open() && a.levels == b.levels
    ensures a.Add(bytes).levels == b.Add(bytes).levels
  {
  }

  lemma RoomForNext(st: State, now: State, done: nat, next: nat, all: nat)
    requires st.Open() && now.Open() && now.ownsData == st.ownsData
    requires now.Position() == st.Position() + done && done + next <= all
    ensures Ready(st, all, all + 1) ==> CanReserve(now.Position(), now.cap, now.ownsData, next)
  {
    hide Flat, NonUtf8;
  }
}

// What sorting a bag does to its stacks, on values: who is kept, and how many each stack holds.
module ItemMerge {
  import opened Wrappers

  // An item; its template gives the type and the stack limit. Only the number and the cell index change.
  class Item {
    const id: int
    const itemId: int
    const itemType: int
    const stackNum: nat
    var number: int
    var index: int

    constructor (id: int, itemId: int, itemType: int, stackNum: nat, number: int)
      ensures this.id == id && this.itemId == itemId && this.itemType == itemType && this.stackNum == stackNum
      ensures this.number == number
    {
      this.id, this.itemId, this.itemType, this.stackNum, this.number := id, itemId, itemType, stackNum, number;
      index := 0;
    }
  }

  // How many each item holds.
  type Counts = map<Item, int>

  predicate Covers(n: Counts, s: seq<Item>) {
    forall it :: it in s ==> it in n
  }

  predicate Distinct(s: seq<Item>) {
    forall i, j :: 0 <= i < j < |s| ==> s[i] != s[j]
  }

  // The number of things of kind x in the stacks of s.
  function Total(s: seq<Item>, n: Counts, x: int): int
    requires Covers(n, s)
  {
    if s == [] then 0 else (if s[0].itemId == x then n[s[0]] else 0) + Total(s[1..], n, x)
  }

  lemma {:induction false} TotalConcat(a: seq<Item>, b: seq<Item>, n: Counts, x: int)
    requires Covers(n, a + b)
    ensures Covers(n, a) && Covers(n, b)
    ensures Total(a + b, n, x) == Total(a, n, x) + Total(b, n, x)
  {
    assert forall it :: it in a || it in b ==> it in a + b;
    if a == [] {
      assert a + b == b;
    } else {
      assert (a + b)[1..] == a[1..] + b;
      TotalConcat(a[1..], b, n, x);
    }
  }

  lemma {:induction false} TotalUpdate(s: seq<Item>, n: Counts, it: Item, v: int, x: int)
    requires Covers(n, s) && Distinct(s) && it in n
    ensures Total(s, n[it := v], x) == Total(s, n, x) + (if it in s && it.itemId == x then v - n[it] else 0)
  {
    if s != [] {
      TotalUpdate(s[1..], n, it, v, x);
      assert it in s <==> it == s[0] || it in s[1..];
    }
  }

  // ---- The order of std::sort

  // ItemCompare, negated and turned round: a does not come after b.
  predicate InOrder(a: Item, b: Item) {
    a.itemType < b.itemType || (a.itemType == b.itemType && a.id <= b.id)
  }

  ghost predicate Sorted(s: seq<Item>) {
    forall i, j :: 0 <= i < j < |s| ==> InOrder(s[i], s[j])
  }

  function InsertItem(it: Item, s: seq<Item>): (r: seq<Item>) {
    if s == [] || InOrder(it, s[0]) then [it] + s else [s[0]] + InsertItem(it, s[1..])
  }

  // std::sort with ItemCompare.
  function SortItems(s: seq<Item>): (r: seq<Item>) {
    if s == [] then [] else InsertItem(s[0], SortItems(s[1..]))
  }

  lemma {:induction false} InsertPermutes(it: Item, s: seq<Item>)
    ensures multiset(InsertItem(it, s)) == multiset{it} + multiset(s)
  {
    if s != [] && !InOrder(it, s[0]) {
      InsertPermutes(it, s[1..]);
      assert s == [s[0]] + s[1..];
    }
  }

  lemma {:induction false} InsertMembers(it: Item, s: seq<Item>)
    ensures forall x :: x in InsertItem(it, s) <==> x == it || x in s
    ensures forall i :: 0 <= i < |InsertItem(it, s)| ==> InsertItem(it, s)[i] == it || InsertItem(it, s)[i] in s
  {
    if s != [] && !InOrder(it, s[0]) {
      InsertMembers(it, s[1..]);
    }
  }

  lemma {:induction false} InsertSorts(it: Item, s: seq<Item>)
    requires Sorted(s)
    ensures Sorted(InsertItem(it, s))
  {
    var r := InsertItem(it, s);
    if s == [] || InOrder(it, s[0]) {
      forall i, j | 0 <= i < j < |r| ensures InOrder(r[i], r[j]) {
        assert r[j] == s[j - 1] && InOrder(s[0], s[j - 1]);
        assert i > 0 ==> r[i] == s[i - 1];
      }
    } else {
      var t := InsertItem(it, s[1..]);
      assert forall i, j :: 0 <= i < j < |s[1..]| ==> s[1..][i] == s[i + 1] && s[1..][j] == s[j + 1];
      InsertSorts(it, s[1..]);
      InsertMembers(it, s[1..]);
      forall i, j | 0 <= i < j < |r| ensures InOrder(r[i], r[j]) {
        assert r[j] == t[j - 1] && t[j - 1] in t;
        assert forall x :: x in s[1..] ==> InOrder(s[0], x);
        if i > 0 {
          assert r[i] == t[i - 1] && InOrder(t[i - 1], t[j - 1]);
        } else {
          assert r[i] == s[0] && (t[j - 1] == it || t[j - 1] in s[1..]);
        }
      }
    }
  }

  lemma {:induction false} SortSorts(s: seq<Item>)
    ensures Sorted(SortItems(s)) && multiset(SortItems(s)) == multiset(s)
    ensures var r := SortItems(s);
            forall i, j :: 0 <= i < j < |r| ==>
              r[i].itemType < r[j].itemType || (r[i].itemType == r[j].itemType && r[i].id <= r[j].id)
  {
    if s != [] {
      SortSorts(s[1..]);
      InsertSorts(s[0], SortItems(s[1..]));
      InsertPermutes(s[0], SortItems(s[1..]));
      assert s == [s[0]] + s[1..];
    }
  }

  // A permutation of distinct items is distinct and has the same totals.
  lemma {:induction false} InsertTotal(it: Item, s: seq<Item>, n: Counts, x: int)
    requires Covers(n, [it] + s)
    ensures Covers(n, InsertItem(it, s))
    ensures Total(InsertItem(it, s), n, x) == Total([it] + s, n, x)
  {
    assert forall y :: y in s || y == it ==> y in [it] + s;
    assert ([it] + s)[1..] == s;
    if s != [] && !InOrder(it, s[0]) {
      InsertTotal(it, s[1..], n, x);
      assert ([it] + s[1..])[1..] == s[1..];
      assert ([s[0]] + InsertItem(it, s[1..]))[1..] == InsertItem(it, s[1..]);
    }
  }

  lemma {:induction false} SortTotal(s: seq<Item>, n: Counts, x: int)
    requires Covers(n, s)
    ensures Covers(n, SortItems(s)) && Total(SortItems(s), n, x) == Total(s, n, x)
  {
    if s != [] {
      SortTotal(s[1..], n, x);
      InsertTotal(s[0], SortItems(s[1..]), n, x);
      assert ([s[0]] + SortItems(s[1..]))[1..] == SortItems(s[1..]);
    }
  }

  lemma {:induction false} InsertDistinct(it: Item, s: seq<Item>)
    requires Distinct(s) && it !in s
    ensures Distinct(InsertItem(it, s))
  {
    InsertMembers(it, s);
    if s != [] && !InOrder(it, s[0]) {
      InsertMembers(it, s[1..]);
      InsertDistinct(it, s[1..]);
      assert s[0] !in s[1..];
    }
  }

  lemma {:induction false} SortDistinct(s: seq<Item>)
    requires Distinct(s)
    ensures Distinct(SortItems(s))
    ensures forall x :: x in SortItems(s) <==> x in s
    ensures forall i :: 0 <= i < |SortItems(s)| ==> SortItems(s)[i] in s
  {
    if s != [] {
      SortDistinct(s[1..]);
      assert s[0] !in s[1..];
      InsertDistinct(s[0], SortItems(s[1..]));
      InsertMembers(s[0], SortItems(s[1..]));
    }
  }

  // ---- The merging loop

  // The cells kept so far, from cell 1 on, and what each item holds now.
  datatype Work = Work(kept: seq<Item>, n: Counts)

  predicate Full(it: Item, n: Counts)
    requires it in n
  {
    it.stackNum <= 1 || n[it] >= it.stackNum
  }

  predicate Ready(w: Work, todo: seq<Item>) {
    Covers(w.n, w.kept + todo) && Distinct(w.kept + todo)
  }

  predicate BackIsOpen(w: Work)
    requires Covers(w.n, w.kept)
  {
    w.kept != [] && w.n[w.kept[|w.kept| - 1]] < w.kept[|w.kept| - 1].stackNum
  }

  // One turn of the loop: the new state, and whether the same item is looked at again because it overfilled
  // the last kept stack. None where the turn reads the null item of cell 0.
  function Turn(w: Work, it: Item): (r: Option<(Work, bool)>)
    requires Covers(w.n, w.kept) && it in w.n && it !in w.kept
    ensures r.Some? && r.value.1 ==> BackIsOpen(w)
    ensures r.Some? ==> Covers(r.value.0.n, r.value.0.kept) && (r.value.1 ==> !BackIsOpen(r.value.0))
  {
    var push := Some((Work(w.kept + [it], w.n), false));
    if w.n[it] <= 0 then Some((w, false))
    else if Full(it, w.n) then push
    else if w.kept == [] then None
    else
      var back := w.kept[|w.kept| - 1];
      if it.itemId != back.itemId || w.n[back] >= back.stackNum then push
      else if w.n[back] + w.n[it] <= back.stackNum then
        Some((w.(n := w.n[back := w.n[back] + w.n[it]][it := 0]), false))
      else
        Some((w.(n := w.n[it := w.n[it] + w.n[back] - back.stackNum][back := back.stackNum]), true))
  }

  function Left(todo: seq<Item>, again: bool): seq<Item>
    requires todo != []
  {
    if again then todo else todo[1..]
  }

  lemma DropMiddle(a: seq<Item>, it: Item, b: seq<Item>)
    requires Distinct(a + [it] + b)
    ensures Distinct(a + b)
  {
    var s := a + [it] + b;
    forall i, j | 0 <= i < j < |a + b| ensures (a + b)[i] != (a + b)[j] {
      assert (a + b)[i] == s[if i < |a| then i else i + 1];
      assert (a + b)[j] == s[if j < |a| then j else j + 1];
    }
  }

  lemma ReadyHead(w: Work, todo: seq<Item>)
    requires Ready(w, todo) && todo != []
    ensures Covers(w.n, w.kept) && Covers(w.n, todo) && todo[0] !in w.kept
    ensures Distinct(w.kept) && Distinct(todo)
  {
    var s := w.kept + todo;
    assert s[|w.kept|] == todo[0];
    assert forall i :: 0 <= i < |w.kept| ==> s[i] == w.kept[i];
    assert forall i :: 0 <= i < |todo| ==> s[|w.kept| + i] == todo[i];
  }

  lemma TurnReady(w: Work, todo: seq<Item>)
    requires Ready(w, todo) && todo != []
    ensures Covers(w.n, w.kept) && todo[0] in w.n && todo[0] !in w.kept
    ensures var r := Turn(w, todo[0]); r.Some? ==> Ready(r.value.0, Left(todo, r.value.1))
  {
    ReadyHead(w, todo);
    var r := Turn(w, todo[0]);
    if r.Some? {
      var a, b := w.kept + todo, r.value.0.kept + Left(todo, r.value.1);
      if b == a {
      } else {
        assert a == w.kept + [todo[0]] + todo[1..] && b == w.kept + todo[1..];
        DropMiddle(w.kept, todo[0], todo[1..]);
      }
    }
  }

  // The whole loop.
  function Merge(w: Work, todo: seq<Item>): (r: Option<Work>)
    requires Ready(w, todo)
    decreases |todo|, if BackIsOpen(w) then 1 else 0
  {
    if todo == [] then Some(w)
    else
      TurnReady(w, todo);
      match Turn(w, todo[0])
      case None => None
      case Some((v, again)) => Merge(v, Left(todo, again))
  }

  lemma MergeStep(w: Work, todo: seq<Item>)
    requires Ready(w, todo) && todo != []
    ensures Covers(w.n, w.kept) && todo[0] in w.n && todo[0] !in w.kept
    ensures var r := Turn(w, todo[0]);
            if r.None? then Merge(w, todo).None?
            else Ready(r.value.0, Left(todo, r.value.1)) && Merge(w, todo) == Merge(r.value.0, Left(todo, r.value.1))
  {
    TurnReady(w, todo);
  }

  lemma MergeEnd(w: Work)
    requires Ready(w, [])
    ensures Merge(w, []) == Some(w)
  {
  }

  // ---- When the loop reaches the null cell

  // The first item that holds anything is a loose stack.
  predicate MeetsNullCell(todo: seq<Item>, n: Counts)
    requires Covers(n, todo)
  {
    todo != [] && if n[todo[0]] <= 0 then MeetsNullCell(todo[1..], n) else !Full(todo[0], n)
  }

  lemma {:induction false} MergeDefined(w: Work, todo: seq<Item>)
    requires Ready(w, todo)
    ensures Covers(w.n, todo)
    ensures Merge(w, todo).None? <==> w.kept == [] && MeetsNullCell(todo, w.n)
    decreases |todo|, if BackIsOpen(w) then 1 else 0
  {
    if todo != [] {
      ReadyHead(w, todo);
      TurnReady(w, todo);
      var r := Turn(w, todo[0]);
      if r.Some? {
        MergeDefined(r.value.0, Left(todo, r.value.1));
      }
    }
  }

  // ---- What merging keeps

  ghost predicate NonNegative(n: Counts) {
    forall it :: it in n ==> n[it] >= 0
  }

  function Max(a: int, b: int): int {
    if a < b then b else a
  }

  // Nowhere does a loose stack follow a stack of its own kind that has room.
  ghost predicate Compact(w: Work)
    requires Covers(w.n, w.kept)
  {
    forall i :: 1 <= i < |w.kept| ==>
      Full(w.kept[i], w.n) || w.kept[i].itemId != w.kept[i - 1].itemId || w.n[w.kept[i - 1]] >= w.kept[i - 1].stackNum
  }

  // From one point of the loop, with the items a kept or to come, to a later one: the totals of every kind, no
  // stack raised above its limit, items only ever dropped when they are empty, the order of what is left.
  ghost predicate Carries(w: Work, a: seq<Item>, v: Work, b: seq<Item>)
    requires Covers(w.n, a) && Covers(v.n, b)
  {
    && v.n.Keys == w.n.Keys && NonNegative(v.n)
    && (forall x :: Total(b, v.n, x) == Total(a, w.n, x))
    && (forall it :: it in w.n ==> v.n[it] <= Max(w.n[it], it.stackNum))
    && (forall it :: it in w.n && it !in a ==> v.n[it] == w.n[it])
    && (forall it :: it in b ==> it in a)
    && (forall it :: it in a && it !in b ==> v.n[it] == 0)
    && (Sorted(a) ==> Sorted(b))
  }

  // Kept items stay, in place, and lose nothing; what is added to them holds something.
  ghost predicate KeptGrows(w: Work, v: Work)
    requires Covers(w.n, w.kept) && Covers(v.n, v.kept)
  {
    && w.kept <= v.kept
    && (forall i :: 0 <= i < |w.kept| ==> v.n[v.kept[i]] >= w.n[v.kept[i]])
    && (forall i :: |w.kept| <= i < |v.kept| ==> v.n[v.kept[i]] > 0)
  }

  // Moving v things from one stack to another of the same kind.
  lemma MoveTotal(s: seq<Item>, n: Counts, from: Item, to: Item, v: int, x: int)
    requires Covers(n, s) && Distinct(s) && from in s && to in s && from != to && from.itemId == to.itemId
    ensures var n' := n[from := n[from] - v][to := n[to] + v];
            Covers(n', s) && Total(s, n', x) == Total(s, n, x)
  {
    TotalUpdate(s, n, from, n[from] - v, x);
    TotalUpdate(s, n[from := n[from] - v], to, n[to] + v, x);
  }

  // An empty stack adds nothing.
  lemma DropTotal(a: seq<Item>, it: Item, b: seq<Item>, n: Counts, x: int)
    requires Covers(n, a + [it] + b) && n[it] == 0
    ensures Covers(n, a + b) && Total(a + [it] + b, n, x) == Total(a + b, n, x)
  {
    assert forall y :: y in a + b ==> y in a + [it] + b;
    TotalConcat(a + [it], b, n, x);
    TotalConcat(a, [it], n, x);
    TotalConcat(a, b, n, x);
  }

  lemma TurnTotal(w: Work, todo: seq<Item>, x: int)
    requires Ready(w, todo) && todo != [] && NonNegative(w.n)
    requires Covers(w.n, w.kept) && todo[0] !in w.kept && Turn(w, todo[0]).Some?
    requires var (v, again) := Turn(w, todo[0]).value; Ready(v, Left(todo, again))
    ensures var (v, again) := Turn(w, todo[0]).value;
            Total(v.kept + Left(todo, again), v.n, x) == Total(w.kept + todo, w.n, x)
  {
    hide Total, Distinct;
    var it, rest, s := todo[0], todo[1..], w.kept + todo;
    var (v, again) := Turn(w, it).value;
    assert s == w.kept + [it] + rest;
    if v.kept == w.kept + [it] {
      assert v.kept + rest == s;
    } else if w.n[it] <= 0 {
      DropTotal(w.kept, it, rest, w.n, x);
    } else {
      var back := w.kept[|w.kept| - 1];
      assert s[|w.kept| - 1] == back && s[|w.kept|] == it;
      if again {
        MoveTotal(s, w.n, it, back, back.stackNum - w.n[back], x);
      } else {
        MoveTotal(s, w.n, it, back, w.n[it], x);
        assert v.n == w.n[it := 0][back := w.n[back] + w.n[it]];
        DropTotal(w.kept, it, rest, v.n, x);
      }
    }
  }

  lemma TurnCarries(w: Work, todo: seq<Item>)
    requires Ready(w, todo) && todo != [] && NonNegative(w.n)
    requires Covers(w.n, w.kept) && todo[0] !in w.kept && Turn(w, todo[0]).Some?
    requires var (v, again) := Turn(w, todo[0]).value; Ready(v, Left(todo, again))
    ensures var (v, again) := Turn(w, todo[0]).value; Carries(w, w.kept + todo, v, v.kept + Left(todo, again))
    ensures NonNegative(Turn(w, todo[0]).value.0.n)
  {
    hide Total, Distinct;
    var it, rest := todo[0], todo[1..];
    var (v, again) := Turn(w, it).value;
    var a, b := w.kept + todo, v.kept + Left(todo, again);
    forall x ensures Total(b, v.n, x) == Total(a, w.n, x) {
      TurnTotal(w, todo, x);
    }
    assert a == w.kept + [it] + rest;
    assert b == a || (b == w.kept + rest && v.n[it] == 0);
    if w.kept != [] {
      assert w.kept[|w.kept| - 1] == a[|w.kept| - 1];
    }
    if Sorted(a) && b != a {
      SortedWithout(w.kept, it, rest);
    }
  }

  lemma SortedWithout(s: seq<Item>, it: Item, rest: seq<Item>)
    requires Sorted(s + [it] + rest)
    ensures Sorted(s + rest)
  {
    var a, b := s + [it] + rest, s + rest;
    forall i, j | 0 <= i < j < |b| ensures InOrder(b[i], b[j]) {
      assert b[i] == a[if i < |s| then i else i + 1] && b[j] == a[if j < |s| then j else j + 1];
    }
  }

  lemma TurnGrows(w: Work, it: Item)
    requires Covers(w.n, w.kept) && it in w.n && it !in w.kept && Distinct(w.kept)
    requires Turn(w, it).Some?
    ensures KeptGrows(w, Turn(w, it).value.0)
  {
    hide Distinct;
    if w.kept != [] {
      assert w.kept[|w.kept| - 1] in w.kept;
    }
  }

  lemma TurnCompacts(w: Work, it: Item)
    requires Covers(w.n, w.kept) && it in w.n && it !in w.kept && Distinct(w.kept)
    requires Turn(w, it).Some? && Compact(w)
    ensures Compact(Turn(w, it).value.0)
  {
    var v := Turn(w, it).value.0;
    forall i | 1 <= i < |v.kept|
      ensures Full(v.kept[i], v.n) || v.kept[i].itemId != v.kept[i - 1].itemId
           || v.n[v.kept[i - 1]] >= v.kept[i - 1].stackNum
    {
      if i < |w.kept| {
        assert v.kept[i] == w.kept[i] && v.kept[i - 1] == w.kept[i - 1];
        assert w.kept[i - 1] != w.kept[|w.kept| - 1];
        assert v.n[w.kept[i - 1]] == w.n[w.kept[i - 1]] && v.n[w.kept[i]] >= w.n[w.kept[i]];
      }
    }
  }

  lemma CarriesOn(w: Work, a: seq<Item>, v: Work, b: seq<Item>, u: Work, c: seq<Item>)
    requires Covers(w.n, a) && Covers(v.n, b) && Covers(u.n, c)
    requires Carries(w, a, v, b) && Carries(v, b, u, c)
    ensures Carries(w, a, u, c)
  {
    hide Total, Sorted;
  }

  lemma GrowsOn(w: Work, v: Work, u: Work)
    requires Covers(w.n, w.kept) && Covers(v.n, v.kept) && Covers(u.n, u.kept)
    requires KeptGrows(w, v) && KeptGrows(v, u)
    ensures KeptGrows(w, u)
  {
    forall i | 0 <= i < |v.kept| ensures u.n[u.kept[i]] >= v.n[v.kept[i]] {
      assert u.kept[i] == v.kept[i];
    }
  }

  // The loop conserves the number of things of every kind, raises no stack above its limit, drops only items it
  // has emptied, keeps the order and leaves no loose stack behind a stack of its kind with room.
  lemma {:induction false} MergeCarries(w: Work, todo: seq<Item>)
    requires Ready(w, todo) && NonNegative(w.n) && Merge(w, todo).Some?
    ensures var v := Merge(w, todo).value;
            && Ready(v, []) && Covers(v.n, v.kept) && Covers(w.n, w.kept)
            && Carries(w, w.kept + todo, v, v.kept) && KeptGrows(w, v)
            && (Compact(w) ==> Compact(v))
    decreases |todo|, if BackIsOpen(w) then 1 else 0
  {
    hide Total, Compact, Carries, KeptGrows, Turn;
    assert forall it :: it in w.kept ==> it in w.kept + todo;
    if todo == [] {
      assert w.kept + [] == w.kept;
      MergeDone(w);
    } else {
      ReadyHead(w, todo);
      TurnReady(w, todo);
      TurnCarries(w, todo);
      TurnGrows(w, todo[0]);
      if Compact(w) {
        TurnCompacts(w, todo[0]);
      }
      var (v, again) := Turn(w, todo[0]).value;
      var left := Left(todo, again);
      MergeCarries(v, left);
      CarriesOn(w, w.kept + todo, v, v.kept + left, Merge(v, left).value, Merge(v, left).value.kept);
      GrowsOn(w, v, Merge(v, left).value);
    }
  }

  lemma MergeDone(w: Work)
    requires Covers(w.n, w.kept) && NonNegative(w.n)
    ensures Carries(w, w.kept, w, w.kept) && KeptGrows(w, w)
  {
  }
}

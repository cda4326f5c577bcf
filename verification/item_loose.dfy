// How many loose stacks of a kind a sort leaves: one for every stretch of loose stacks that stand together in the
// sorted list and do not fill whole stacks.
module ItemLoose {
  import opened Wrappers
  import opened ItemMerge

  predicate Loose(it: Item, n: Counts)
    requires it in n
  {
    n[it] > 0 && !Full(it, n)
  }

  function LooseCount(s: seq<Item>, n: Counts, x: int): nat
    requires Covers(n, s)
  {
    if s == [] then 0
    else
      var it := s[|s| - 1];
      LooseCount(s[..|s| - 1], n, x) + (if it.itemId == x && Loose(it, n) then 1 else 0)
  }

  // The totals of the stretches of loose stacks of kind x, the first one begun with run: a stretch ends at any other
  // stack that holds something, and empty ones are passed over.
  function Stretches(todo: seq<Item>, n: Counts, x: int, run: nat): (r: seq<nat>)
    requires Covers(n, todo)
  {
    if todo == [] then [run]
    else
      var it, rest := todo[0], todo[1..];
      if n[it] <= 0 then Stretches(rest, n, x, run)
      else if it.itemId == x && Loose(it, n) then Stretches(rest, n, x, run + n[it])
      else [run] + Stretches(rest, n, x, 0)
  }

  // How many of the totals leave a remainder.
  function Remainders(ts: seq<nat>, limit: nat): nat
    requires limit >= 1
  {
    if ts == [] then 0 else (if ts[0] % limit != 0 then 1 else 0) + Remainders(ts[1..], limit)
  }

  // The items of kind x share a template, and so a limit.
  predicate Uniform(s: seq<Item>, x: int, limit: nat) {
    forall i :: 0 <= i < |s| && s[i].itemId == x ==> Limit(s[i]) == limit
  }

  // An item that does not stack is full with one.
  function Limit(it: Item): (l: nat)
    ensures l >= 1
  {
    if it.stackNum <= 1 then 1 else it.stackNum
  }

  lemma {:induction false} LooseFrame(s: seq<Item>, n: Counts, m: Counts, x: int)
    requires Covers(n, s) && Covers(m, s) && forall i :: 0 <= i < |s| ==> n[s[i]] == m[s[i]]
    ensures LooseCount(s, n, x) == LooseCount(s, m, x)
  {
    if s != [] {
      LooseFrame(s[..|s| - 1], n, m, x);
    }
  }

  lemma {:induction false} StretchFrame(s: seq<Item>, n: Counts, m: Counts, x: int, run: nat)
    requires Covers(n, s) && Covers(m, s) && forall i :: 0 <= i < |s| ==> n[s[i]] == m[s[i]]
    ensures Stretches(s, n, x, run) == Stretches(s, m, x, run)
  {
    if s != [] {
      var it := s[0];
      var next := if n[it] <= 0 then run else if it.itemId == x && Loose(it, n) then run + n[it] else 0;
      StretchFrame(s[1..], n, m, x, next);
    }
  }

  // A whole stack more at the start of the first stretch makes no difference.
  lemma {:induction false} StretchModulo(s: seq<Item>, n: Counts, x: int, run: nat, limit: nat)
    requires Covers(n, s) && limit >= 1
    ensures Remainders(Stretches(s, n, x, run + limit), limit) == Remainders(Stretches(s, n, x, run), limit)
  {
    AddLimit(run, limit);
    if s != [] {
      var it := s[0];
      if n[it] <= 0 {
        StretchModulo(s[1..], n, x, run, limit);
      } else if it.itemId == x && Loose(it, n) {
        StretchModulo(s[1..], n, x, run + n[it], limit);
      } else {
        OneMore(run, Stretches(s[1..], n, x, 0), limit);
        OneMore(run + limit, Stretches(s[1..], n, x, 0), limit);
      }
    }
  }

  lemma AtLeastOnce(l: int, d: int)
    requires l >= 0
    ensures d >= 1 ==> d * l >= l
    ensures d <= -1 ==> d * l <= -l
  {
    assert d * l == l + (d - 1) * l == (d + 1) * l - l;
  }

  lemma QuotientIsUnique(l: nat, q: int, r: nat, q': int, r': nat)
    requires r < l && r' < l && q * l + r == q' * l + r'
    ensures q == q'
  {
    AtLeastOnce(l, q - q');
    assert (q - q') * l == q * l - q' * l;
  }

  lemma AddLimit(a: nat, limit: nat)
    requires limit >= 1
    ensures (a + limit) % limit == a % limit
  {
    var q, q' := a / limit, (a + limit) / limit;
    assert a == q * limit + a % limit && a + limit == q' * limit + (a + limit) % limit;
    assert (q + 1) * limit == q * limit + limit;
    QuotientIsUnique(limit, q + 1, a % limit, q', (a + limit) % limit);
  }

  lemma OneMore(t: nat, ts: seq<nat>, limit: nat)
    requires limit >= 1
    ensures Remainders([t] + ts, limit) == (if t % limit != 0 then 1 else 0) + Remainders(ts, limit)
  {
    assert ([t] + ts)[1..] == ts;
  }

  // What the last kept stack holds when it is a loose one of kind x.
  function OpenRun(w: Work, x: int): nat
    requires Covers(w.n, w.kept)
  {
    if w.kept == [] then 0
    else
      var back := w.kept[|w.kept| - 1];
      if back.itemId == x && Loose(back, w.n) then w.n[back] else 0
  }

  lemma LooseSnoc(s: seq<Item>, it: Item, n: Counts, x: int)
    requires Covers(n, s) && it in n
    ensures Covers(n, s + [it])
    ensures LooseCount(s + [it], n, x) == LooseCount(s, n, x) + (if it.itemId == x && Loose(it, n) then 1 else 0)
  {
    assert (s + [it])[..|s|] == s;
  }

  lemma LooseLast(w: Work, x: int)
    requires Covers(w.n, w.kept)
    ensures w.kept != [] ==>
              Covers(w.n, w.kept[..|w.kept| - 1])
              && LooseCount(w.kept, w.n, x)
                 == LooseCount(w.kept[..|w.kept| - 1], w.n, x) + (if OpenRun(w, x) > 0 then 1 else 0)
  {
  }

  // The loose stacks of kind x at the end of the loop, foretold from the middle of it.
  function Foretold(w: Work, todo: seq<Item>, x: int, limit: nat): nat
    requires Covers(w.n, w.kept) && Covers(w.n, todo) && limit >= 1
  {
    (if OpenRun(w, x) > 0 then LooseCount(w.kept[..|w.kept| - 1], w.n, x) else LooseCount(w.kept, w.n, x))
    + Remainders(Stretches(todo, w.n, x, OpenRun(w, x)), limit)
  }

  lemma ZeroIsWhole(limit: nat)
    requires limit >= 1
    ensures 0 % limit == 0
  {
  }

  lemma PartIsNotWhole(t: nat, limit: nat)
    requires 0 < t < limit
    ensures t % limit != 0
  {
  }

  lemma PushForetells(w: Work, todo: seq<Item>, x: int, limit: nat)
    requires Ready(w, todo) && todo != [] && NonNegative(w.n) && limit >= 1 && Uniform(w.kept + todo, x, limit)
    requires Covers(w.n, w.kept) && Covers(w.n, todo) && w.n[todo[0]] > 0
    requires Loose(todo[0], w.n) ==> OpenRun(w, x) == 0 || todo[0].itemId != x
    ensures Covers(w.n, w.kept + [todo[0]]) && Covers(w.n, todo[1..])
    ensures Foretold(Work(w.kept + [todo[0]], w.n), todo[1..], x, limit) == Foretold(w, todo, x, limit)
  {
    hide LooseCount, Remainders;
    var it, rest := todo[0], todo[1..];
    var v := Work(w.kept + [it], w.n);
    assert v.kept[..|w.kept|] == w.kept;
    var run := OpenRun(w, x);
    LooseSnoc(w.kept, it, w.n, x);
    LooseLast(w, x);
    if run > 0 {
      assert w.kept[|w.kept| - 1] == (w.kept + todo)[|w.kept| - 1];
      PartIsNotWhole(run, limit);
    } else {
      ZeroIsWhole(limit);
    }
    OneMore(run, Stretches(rest, w.n, x, 0), limit);
  }

  // What pouring an item onto the last kept stack changes: nothing before that stack and nothing after the item.
  lemma PourFrame(w: Work, todo: seq<Item>, m: Counts, x: int, run: nat)
    requires Ready(w, todo) && todo != [] && w.kept != [] && m.Keys == w.n.Keys
    requires forall it :: it in w.n && it != todo[0] && it != w.kept[|w.kept| - 1] ==> m[it] == w.n[it]
    ensures Covers(w.n, w.kept[..|w.kept| - 1]) && Covers(m, w.kept[..|w.kept| - 1])
    ensures LooseCount(w.kept[..|w.kept| - 1], m, x) == LooseCount(w.kept[..|w.kept| - 1], w.n, x)
    ensures Covers(w.n, todo[1..]) && Covers(m, todo[1..])
    ensures Stretches(todo[1..], m, x, run) == Stretches(todo[1..], w.n, x, run)
  {
    var k, s := |w.kept| - 1, w.kept + todo;
    assert s[k] == w.kept[k] && s[k + 1] == todo[0];
    forall i | 0 <= i < k ensures w.kept[i] in w.n && w.kept[i] != s[k] && w.kept[i] != s[k + 1] {
      assert s[i] == w.kept[i];
    }
    forall i | 1 <= i < |todo| ensures todo[i] in w.n && todo[i] != s[k] && todo[i] != s[k + 1] {
      assert s[k + 1 + i] == todo[i];
    }
    LooseFrame(w.kept[..k], m, w.n, x);
    StretchFrame(todo[1..], m, w.n, x, run);
  }

  predicate Meet(w: Work, it: Item)
    requires Covers(w.n, w.kept) && it in w.n
  {
    w.kept != [] && it.itemId == w.kept[|w.kept| - 1].itemId && Loose(it, w.n) && Loose(w.kept[|w.kept| - 1], w.n)
  }

  // All of it fits.
  lemma FitForetells(w: Work, todo: seq<Item>, x: int, limit: nat)
    requires Ready(w, todo) && todo != [] && limit >= 1 && Covers(w.n, w.kept) && Covers(w.n, todo) && Meet(w, todo[0])
    requires todo[0] !in w.kept
    requires var back := w.kept[|w.kept| - 1];
             (back.itemId == x ==> back.stackNum == limit == todo[0].stackNum)
             && w.n[back] + w.n[todo[0]] <= back.stackNum
    ensures var back := w.kept[|w.kept| - 1];
            var v := w.(n := w.n[back := w.n[back] + w.n[todo[0]]][todo[0] := 0]);
            Covers(v.n, v.kept) && Covers(v.n, todo[1..])
            && Foretold(v, todo[1..], x, limit) == Foretold(w, todo, x, limit)
  {
    hide Remainders;
    var it, rest, k := todo[0], todo[1..], |w.kept| - 1;
    var back := w.kept[k];
    var v := w.(n := w.n[back := w.n[back] + w.n[it]][it := 0]);
    var run := OpenRun(w, x);
    PourFrame(w, todo, v.n, x, OpenRun(v, x));
    if back.itemId == x {
      if v.n[back] == limit {
        StretchModulo(rest, w.n, x, 0, limit);
      }
    } else {
      OneMore(0, Stretches(rest, w.n, x, 0), limit);
      ZeroIsWhole(limit);
    }
  }

  // It overfills the stack.
  lemma OverfillForetells(w: Work, todo: seq<Item>, x: int, limit: nat)
    requires Ready(w, todo) && todo != [] && limit >= 1 && Covers(w.n, w.kept) && Covers(w.n, todo) && Meet(w, todo[0])
    requires todo[0] !in w.kept
    requires var back := w.kept[|w.kept| - 1];
             (back.itemId == x ==> back.stackNum == limit == todo[0].stackNum)
             && w.n[back] + w.n[todo[0]] > back.stackNum
    ensures var back := w.kept[|w.kept| - 1];
            var v := w.(n := w.n[todo[0] := w.n[todo[0]] + w.n[back] - back.stackNum][back := back.stackNum]);
            Covers(v.n, v.kept) && Covers(v.n, todo)
            && Foretold(v, todo, x, limit) == Foretold(w, todo, x, limit)
  {
    hide Remainders;
    var it, rest, k := todo[0], todo[1..], |w.kept| - 1;
    var back := w.kept[k];
    var v := w.(n := w.n[it := w.n[it] + w.n[back] - back.stackNum][back := back.stackNum]);
    assert OpenRun(v, x) == 0;
    if back.itemId == x {
      PourFrame(w, todo, v.n, x, v.n[it]);
      StretchModulo(rest, w.n, x, v.n[it], limit);
    } else {
      PourFrame(w, todo, v.n, x, 0);
    }
  }

  lemma SkipForetells(w: Work, todo: seq<Item>, x: int, limit: nat)
    requires Covers(w.n, w.kept) && Covers(w.n, todo) && todo != [] && w.n[todo[0]] <= 0 && limit >= 1
    ensures Covers(w.n, todo[1..]) && Foretold(w, todo[1..], x, limit) == Foretold(w, todo, x, limit)
  {
    hide LooseCount, Remainders;
  }

  lemma TurnForetells(w: Work, todo: seq<Item>, x: int, limit: nat)
    requires Ready(w, todo) && todo != [] && NonNegative(w.n) && limit >= 1 && Uniform(w.kept + todo, x, limit)
    requires Covers(w.n, w.kept) && Covers(w.n, todo) && todo[0] !in w.kept && Turn(w, todo[0]).Some?
    requires forall i :: 0 <= i < |w.kept| ==> w.n[w.kept[i]] > 0
    ensures var (v, again) := Turn(w, todo[0]).value;
            Covers(v.n, v.kept) && Covers(v.n, Left(todo, again))
            && Foretold(v, Left(todo, again), x, limit) == Foretold(w, todo, x, limit)
  {
    hide Remainders, LooseCount, Distinct, Foretold;
    var it := todo[0];
    if w.n[it] > 0 {
      if Full(it, w.n) {
        PushForetells(w, todo, x, limit);
      } else {
        var back := w.kept[|w.kept| - 1];
        if it.itemId != back.itemId || w.n[back] >= back.stackNum {
          PushForetells(w, todo, x, limit);
        } else {
          assert back == (w.kept + todo)[|w.kept| - 1] && it == (w.kept + todo)[|w.kept|];
          if w.n[back] + w.n[it] <= back.stackNum {
            FitForetells(w, todo, x, limit);
          } else {
            OverfillForetells(w, todo, x, limit);
          }
        }
      }
    } else {
      SkipForetells(w, todo, x, limit);
    }
  }

  // The number of loose stacks of a kind at the end of the merging loop, from any point of it.
  lemma {:induction false} MergeForetold(w: Work, todo: seq<Item>, x: int, limit: nat)
    requires Ready(w, todo) && NonNegative(w.n) && Merge(w, todo).Some?
    requires limit >= 1 && Uniform(w.kept + todo, x, limit)
    requires Covers(w.n, w.kept) && Covers(w.n, todo) && forall i :: 0 <= i < |w.kept| ==> w.n[w.kept[i]] > 0
    ensures var v := Merge(w, todo).value;
            Covers(v.n, v.kept) && LooseCount(v.kept, v.n, x) == Foretold(w, todo, x, limit)
    decreases |todo|, if BackIsOpen(w) then 1 else 0
  {
    hide LooseCount, Stretches, Foretold, Turn, Carries, Merge;
    if todo == [] {
      MergeEnd(w);
      assert w.kept + todo == w.kept;
      ForetoldAtEnd(w, x, limit);
    } else {
      ReadyHead(w, todo);
      MergeStep(w, todo);
      TurnReady(w, todo);
      TurnCarries(w, todo);
      TurnGrows(w, todo[0]);
      TurnForetells(w, todo, x, limit);
      var (v, again) := Turn(w, todo[0]).value;
      UniformStays(w, todo, v, Left(todo, again), x, limit);
      MergeForetold(v, Left(todo, again), x, limit);
    }
  }

  lemma ForetoldAtEnd(w: Work, x: int, limit: nat)
    requires Covers(w.n, w.kept) && limit >= 1
    requires Uniform(w.kept, x, limit)
    ensures Foretold(w, [], x, limit) == LooseCount(w.kept, w.n, x)
  {
    hide LooseCount;
    var run := OpenRun(w, x);
    assert Stretches([], w.n, x, run) == [run] == [run] + [];
    OneMore(run, [], limit);
    assert Remainders([], limit) == 0;
    LooseLast(w, x);
    ZeroIsWhole(limit);
    if run > 0 {
      assert Limit(w.kept[|w.kept| - 1]) == limit;
      PartIsNotWhole(run, limit);
    }
  }

  lemma UniformStays(w: Work, todo: seq<Item>, v: Work, left: seq<Item>, x: int, limit: nat)
    requires Covers(w.n, w.kept + todo) && Covers(v.n, v.kept + left)
    requires Carries(w, w.kept + todo, v, v.kept + left) && Uniform(w.kept + todo, x, limit)
    ensures Uniform(v.kept + left, x, limit)
  {
    var a, b := w.kept + todo, v.kept + left;
    forall i | 0 <= i < |b| && b[i].itemId == x ensures Limit(b[i]) == limit {
      assert b[i] in b && b[i] in a;
    }
  }

  // A sorted list ends with as many loose stacks of a kind as it has stretches that leave a remainder.
  lemma LooseStacksLeft(sorted: seq<Item>, n: Counts, x: int, limit: nat)
    requires Ready(Work([], n), sorted) && NonNegative(n) && Merge(Work([], n), sorted).Some?
    requires limit >= 1 && Uniform(sorted, x, limit)
    ensures Covers(n, sorted)
    ensures var v := Merge(Work([], n), sorted).value;
            Covers(v.n, v.kept) && LooseCount(v.kept, v.n, x) == Remainders(Stretches(sorted, n, x, 0), limit)
  {
    assert [] + sorted == sorted;
    MergeForetold(Work([], n), sorted, x, limit);
  }

  // A full stack, or one behind a full stack, is kept as it is.
  lemma Keeps(kept: seq<Item>, it: Item, rest: seq<Item>, n: Counts)
    requires Ready(Work(kept, n), [it] + rest) && it in n && n[it] > 0
    requires Full(it, n) || (kept != [] && kept[|kept| - 1] in n && n[kept[|kept| - 1]] >= kept[|kept| - 1].stackNum)
    ensures Ready(Work(kept + [it], n), rest)
    ensures Merge(Work(kept, n), [it] + rest) == Merge(Work(kept + [it], n), rest)
  {
    hide Merge, Distinct;
    assert ([it] + rest)[1..] == rest && ([it] + rest)[0] == it;
    MergeStep(Work(kept, n), [it] + rest);
  }

  // So a kind may end with more than one: sorted by their ids, two loose stacks stand apart because full ones stand
  // between them.
  lemma TwoLooseStacks(a: Item, b: Item, c: Item, d: Item)
    requires a.id < b.id < c.id < d.id && a.itemType == b.itemType == c.itemType == d.itemType
    requires a.itemId == b.itemId == c.itemId == d.itemId
    requires a.stackNum == b.stackNum == c.stackNum == d.stackNum == 10
    ensures var n: Counts := map[a := 10, b := 3, c := 10, d := 4];
            var s := SortItems([d, b, c, a]);
            && s == [a, b, c, d]
            && Ready(Work([], n), s) && Merge(Work([], n), s) == Some(Work(s, n))
            && LooseCount(s, n, a.itemId) == 2
  {
    FourSorted(a, b, c, d);
    hide Merge, LooseCount, Turn, Ready, SortItems;
    var n: Counts := map[a := 10, b := 3, c := 10, d := 4];
    var s := [a, b, c, d];
    FourApart(a, b, c, d);
    FourReady(a, b, c, d, n);
    assert [a] + [b, c, d] == s && [b] + [c, d] == [b, c, d] && [c] + [d] == [c, d] && [d] + [] == [d];
    assert [] + [a] == [a] && [a] + [b] == [a, b] && [a, b] + [c] == [a, b, c] && [a, b, c] + [d] == s;
    Keeps([], a, [b, c, d], n);
    Keeps([a], b, [c, d], n);
    Keeps([a, b], c, [d], n);
    Keeps([a, b, c], d, [], n);
    MergeEnd(Work(s, n));
    FourCount(a, b, c, d, n);
  }

  lemma FourSorted(a: Item, b: Item, c: Item, d: Item)
    requires a.id < b.id < c.id < d.id && a.itemType == b.itemType == c.itemType == d.itemType
    ensures SortItems([d, b, c, a]) == [a, b, c, d] && Distinct([a, b, c, d])
  {
    assert [d, b, c, a][1..] == [b, c, a] && [b, c, a][1..] == [c, a] && [c, a][1..] == [a] && [a][1..] == [];
    assert SortItems([a]) == [a];
    assert SortItems([c, a]) == InsertItem(c, [a]) == [a, c];
    assert [a, c][1..] == [c] && [a, b, c][1..] == [b, c] && [b, c][1..] == [c] && [c][1..] == [];
    assert SortItems([b, c, a]) == InsertItem(b, [a, c]) == [a] + InsertItem(b, [c]) == [a, b, c];
    assert InsertItem(d, [a, b, c]) == [a] + InsertItem(d, [b, c]);
    assert InsertItem(d, [b, c]) == [b] + InsertItem(d, [c]);
    assert InsertItem(d, [c]) == [c] + InsertItem(d, []);
  }

  lemma FourReady(a: Item, b: Item, c: Item, d: Item, n: Counts)
    requires Distinct([a, b, c, d]) && a in n && b in n && c in n && d in n
    ensures Ready(Work([], n), [a, b, c, d])
  {
    assert [] + [a, b, c, d] == [a, b, c, d];
  }

  lemma FourCount(a: Item, b: Item, c: Item, d: Item, n: Counts)
    requires Covers(n, [a, b, c, d]) && n[a] == n[c] == 10 && n[b] == 3 && n[d] == 4
    requires a.itemId == b.itemId == c.itemId == d.itemId
    requires a.stackNum == b.stackNum == c.stackNum == d.stackNum == 10
    ensures LooseCount([a, b, c, d], n, a.itemId) == 2
  {
    hide LooseCount;
    assert [] + [a] == [a] && [a] + [b] == [a, b] && [a, b] + [c] == [a, b, c] && [a, b, c] + [d] == [a, b, c, d];
    assert [a, b, c, d][0] in n && [a, b, c, d][1] in n && [a, b, c, d][2] in n && [a, b, c, d][3] in n;
    NoneLoose(n, a.itemId);
    LooseSnoc([], a, n, a.itemId);
    LooseSnoc([a], b, n, a.itemId);
    LooseSnoc([a, b], c, n, a.itemId);
    LooseSnoc([a, b, c], d, n, a.itemId);
  }

  lemma NoneLoose(n: Counts, x: int)
    ensures LooseCount([], n, x) == 0
  {
  }

  lemma FourApart(a: Item, b: Item, c: Item, d: Item)
    requires Distinct([a, b, c, d])
    ensures b != a && c != a && c != b && d != a && d != b && d != c
  {
    var s := [a, b, c, d];
    assert s[0] != s[1] && s[0] != s[2] && s[0] != s[3] && s[1] != s[2] && s[1] != s[3] && s[2] != s[3];
  }
}

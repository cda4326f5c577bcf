// The item bag: a vector of cells and a map from ids, changed in place by every operation.
module ItemBags {
  import opened Wrappers
  import opened ItemMerge
  import opened ItemLoose
  import opened Sums

  const DEFAULT_BAG_CELL := 25

  // ---- Quantities

  // How many things of kind x a cell holds.
  ghost function Weight(c: Item?, x: int): int
    reads {c}`number
  {
    if c == null || c.itemId != x then 0 else c.number
  }

  ghost function Weights(cells: seq<Item?>, x: int): (r: seq<int>)
    reads cells`number
    ensures |r| == |cells| && forall i :: 0 <= i < |r| ==> r[i] == Weight(cells[i], x)
  {
    if cells == [] then [] else [Weight(cells[0], x)] + Weights(cells[1..], x)
  }

  // The sum after one cell has changed.
  lemma CellChanges(now: seq<Item?>, was: seq<int>, i: nat, x: int)
    requires i < |was| == |now|
    requires forall j :: 0 <= j < |was| && j != i ==> was[j] == Weight(now[j], x)
    ensures Sum(Weights(now, x)) == Sum(was) - was[i] + Weight(now[i], x)
  {
    assert Weights(now, x) == was[i := Weight(now[i], x)];
    SumUpdate(was, i, Weight(now[i], x));
  }

  lemma TwoCellsChange(now: seq<Item?>, was: seq<int>, i: nat, k: nat, x: int)
    requires i < |was| == |now| && k < |was| && i != k
    requires forall j :: 0 <= j < |was| && j != i && j != k ==> was[j] == Weight(now[j], x)
    ensures Sum(Weights(now, x)) == Sum(was) - was[i] - was[k] + Weight(now[i], x) + Weight(now[k], x)
  {
    SumUpdate(was, i, Weight(now[i], x));
    CellChanges(now, was[i := Weight(now[i], x)], k, x);
  }

  lemma EmptyCell(a: seq<Item?>, x: int)
    ensures Sum(Weights(a + [null], x)) == Sum(Weights(a, x))
  {
    assert Weights(a + [null], x) == Weights(a, x) + [0];
    SumConcat(Weights(a, x), [0]);
  }

  ghost function CellNumbers(cells: seq<Item?>): (r: seq<int>)
    reads cells`number
    ensures |r| == |cells| && forall i :: 0 <= i < |r| ==> r[i] == if cells[i] == null then 0 else cells[i].number
  {
    if cells == [] then [] else [if cells[0] == null then 0 else cells[0].number] + CellNumbers(cells[1..])
  }

  ghost function Numbers(s: seq<Item>): (n: Counts)
    reads s`number
    ensures Covers(n, s) && forall it :: it in n ==> it in s && n[it] == it.number
  {
    map it | it in s :: it.number
  }

  // The items in the cells, in order.
  ghost function Held(cells: seq<Item?>): (r: seq<Item>) {
    if cells == [] then [] else (if cells[0] == null then [] else [cells[0]]) + Held(cells[1..])
  }

  // An item in a cell has that cell as its index and is what its id finds; cell 0 is never used.
  ghost predicate Agree(cells: seq<Item?>, m: map<int, Item>)
    reads cells
  {
    && (forall i :: 0 <= i < |cells| && cells[i] != null ==>
          i >= 1 && cells[i].index == i && cells[i].number >= 0 && cells[i].id in m && m[cells[i].id] == cells[i])
    && (forall id :: id in m ==> m[id].id == id)
  }

  lemma OwnCell(cells: seq<Item?>, m: map<int, Item>, i: nat)
    requires Agree(cells, m) && i < |cells| && cells[i] != null
    ensures cells[i].index == i
  {
  }

  lemma Displaced(cells: seq<Item?>, m: map<int, Item>, i: nat)
    requires i < |cells| && cells[i] != null && cells[i].index != i
    ensures !Agree(cells, m)
  {
  }

  lemma AtOwnCell(cells: seq<Item?>, m: map<int, Item>, c: Item)
    requires Agree(cells, m) && c in cells
    ensures 1 <= c.index < |cells| && cells[c.index] == c
  {
  }

  lemma OnlyCell(cells: seq<Item?>, m: map<int, Item>, c: Item)
    requires Agree(cells, m) && 0 <= c.index < |cells| && cells[c.index] == c
    ensures forall i :: 0 <= i < |cells| && i != c.index ==> cells[i] != c
  {
  }

  // The numbers in the cells after one has changed.
  lemma OneNumber(now: seq<Item?>, was: seq<int>, i: nat)
    requires i < |was| == |now| && now[i] != null
    requires forall j :: 0 <= j < |now| && j != i ==> was[j] == if now[j] == null then 0 else now[j].number
    ensures CellNumbers(now) == was[i := now[i].number]
  {
  }

  predicate NoneHasId(cells: seq<Item?>, id: int) {
    forall i :: 0 <= i < |cells| && cells[i] != null ==> cells[i].id != id
  }

  predicate NoneElseHasId(cells: seq<Item?>, k: int, id: int) {
    forall i :: 0 <= i < |cells| && i != k && cells[i] != null ==> cells[i].id != id
  }

  lemma OwnIds(cells: seq<Item?>, m: map<int, Item>, item: Item)
    requires Agree(cells, m) && item.id in m && m[item.id] == item
    ensures NoneElseHasId(cells, item.index, item.id)
  {
  }

  // Vector and map agree after emptying cell k and forgetting an id exactly when no other cell holds that id.
  lemma RemovedAgree(cells: seq<Item?>, m: map<int, Item>, k: int, id: int)
    requires Agree(cells, m)
    ensures var now := if 1 <= k < |cells| then cells[k := null] else cells;
            && Agree(now, m)
            && (Agree(now, m - {id}) <==> NoneElseHasId(cells, k, id))
  {
    var now := if 1 <= k < |cells| then cells[k := null] else cells;
    assert forall i :: 0 <= i < |cells| && i != k ==> now[i] == cells[i];
    if Agree(now, m - {id}) {
      forall i | 0 <= i < |cells| && i != k && cells[i] != null ensures cells[i].id != id {
        assert now[i] == cells[i];
      }
    }
  }

  lemma AddedAgree(cells: seq<Item?>, m: map<int, Item>, idx: nat, item: Item)
    requires Agree(cells, m) && 1 <= idx < |cells| && cells[idx] == null
    requires item !in cells && item.index == idx && item.number >= 0
    ensures Agree(cells[idx := item], m[item.id := item]) <==> NoneHasId(cells, item.id)
  {
    var now, m' := cells[idx := item], m[item.id := item];
    if Agree(now, m') {
      forall i | 0 <= i < |cells| && cells[i] != null ensures cells[i].id != item.id {
        assert now[i] == cells[i];
      }
    } else {
      assert forall i :: 0 <= i < |cells| && cells[i] != null ==> cells[i] in cells;
    }
  }

  // Among the first k cells every stack of the item's kind is exactly full.
  predicate AllFull(cells: seq<Item?>, nums: seq<int>, k: nat, item: Item)
    requires k <= |cells| == |nums|
  {
    forall i :: 0 <= i < k && cells[i] != null && cells[i].itemId == item.itemId ==> nums[i] == item.stackNum
  }

  // No stack holds other than before, but for those of the item's kind, which may have been filled up to its limit.
  predicate NoneOverfilled(cells: seq<Item?>, nums: seq<int>, was: seq<int>, item: Item)
    requires |nums| == |was| == |cells|
  {
    forall i :: 0 <= i < |cells| && cells[i] != null ==>
      nums[i] == was[i] || (cells[i].itemId == item.itemId && nums[i] <= item.stackNum)
  }

  // A move changes places with what is in the cell, rather than being poured onto it.
  predicate MovesCell(from: Item, to: Item?) {
    to == null || from.itemId != to.itemId || from.stackNum == 0
  }

  predicate SitsIn(cells: seq<Item?>, c: Item)
    reads c
  {
    0 <= c.index < |cells| && cells[c.index] == c
  }

  // A swap keeps the bag in agreement: the moving item's recorded cell holds it or nothing.
  ghost predicate MoveAgrees(cells: seq<Item?>, from: Item, toIdx: nat)
    requires toIdx < |cells| && 0 <= from.index < |cells|
    reads from
  {
    from.index == toIdx || cells[from.index] == from
      || (cells[from.index] == null && (from.index == 0 ==> cells[toIdx] == null))
  }

  lemma {:induction false} HeldIsDistinct(cells: seq<Item?>, base: int)
    requires forall i :: 0 <= i < |cells| && cells[i] != null ==> cells[i].index == base + i
    ensures Distinct(Held(cells))
    ensures forall i :: 0 <= i < |Held(cells)| ==> Held(cells)[i].index >= base
  {
    if cells != [] {
      assert forall i :: 0 <= i < |cells[1..]| ==> cells[1..][i] == cells[i + 1];
      HeldIsDistinct(cells[1..], base + 1);
    }
  }

  lemma {:induction false} HeldConcat(a: seq<Item?>, b: seq<Item?>)
    ensures Held(a + b) == Held(a) + Held(b)
  {
    if a == [] {
      assert a + b == b;
    } else {
      assert (a + b)[1..] == a[1..] + b;
      HeldConcat(a[1..], b);
    }
  }

  lemma HeldHead(cells: seq<Item?>)
    requires cells != []
    ensures Held(cells) == (if cells[0] == null then [] else [cells[0]]) + Held(cells[1..])
  {
  }

  lemma NoItemZero(cells: seq<Item?>, m: map<int, Item>)
    requires Agree(cells, m) && cells != []
    ensures cells[0] == null
  {
  }

  lemma {:induction false} HeldItems(s: seq<Item>)
    ensures Held(s) == s
  {
    if s != [] {
      HeldItems(s[1..]);
    }
  }

  lemma {:induction false} HeldNulls(cells: seq<Item?>)
    requires forall i :: 0 <= i < |cells| ==> cells[i] == null
    ensures Held(cells) == []
  {
    if cells != [] {
      HeldNulls(cells[1..]);
    }
  }

  lemma {:induction false} HeldMembers(cells: seq<Item?>)
    ensures forall i :: 0 <= i < |Held(cells)| ==> Held(cells)[i] in cells
    ensures forall i :: 0 <= i < |cells| && cells[i] != null ==> cells[i] in Held(cells)
  {
    if cells != [] {
      HeldMembers(cells[1..]);
      assert forall c :: c in cells[1..] ==> c in cells;
    }
  }

  lemma {:induction false} HeldTotal(cells: seq<Item?>, n: Counts, x: int)
    requires Covers(n, Held(cells)) && forall it :: it in Held(cells) ==> n[it] == it.number
    ensures Total(Held(cells), n, x) == Sum(Weights(cells, x))
  {
    if cells != [] {
      assert forall it :: it in Held(cells[1..]) ==> it in Held(cells);
      HeldTotal(cells[1..], n, x);
      if cells[0] != null {
        assert Held(cells)[0] == cells[0] && Held(cells)[1..] == Held(cells[1..]);
      } else {
        assert Held(cells) == Held(cells[1..]);
      }
      assert Weights(cells, x)[1..] == Weights(cells[1..], x);
    }
  }

  // What a sort makes of the items held.
  ghost function Sorting(held: seq<Item>): Option<Work>
    requires Distinct(held)
    reads held`number
  {
    SortReady(held);
    Merge(Work([], Numbers(held)), SortItems(held))
  }

  lemma SortReady(held: seq<Item>)
    requires Distinct(held)
    ensures Ready(Work([], Numbers(held)), SortItems(held))
  {
    SortDistinct(held);
    assert [] + SortItems(held) == SortItems(held);
  }

  // A sort fails exactly when the first item that holds anything is a loose stack. Otherwise the stacks are in order,
  // none is empty or over its limit, none that has room is followed by a loose one of its kind, and together they
  // hold what the cells held.
  lemma SortingLaws(cells: seq<Item?>, m: map<int, Item>)
    requires Agree(cells, m)
    ensures Distinct(Held(cells))
    ensures Covers(Numbers(Held(cells)), SortItems(Held(cells)))
    ensures Sorting(Held(cells)).None? <==> MeetsNullCell(SortItems(Held(cells)), Numbers(Held(cells)))
    ensures Sorting(Held(cells)).Some? ==>
              var w := Sorting(Held(cells)).value;
              && Covers(w.n, w.kept) && Sorted(w.kept) && Distinct(w.kept) && Compact(w)
              && (forall i :: 0 <= i < |w.kept| ==>
                    && w.kept[i] in cells && 0 < w.n[w.kept[i]] <= Max(w.kept[i].number, w.kept[i].stackNum))
              && (forall x :: Total(w.kept, w.n, x) == Sum(Weights(cells, x)))
  {
    hide Total, Sum, Weights, Merge, Held, ItemMerge.SortItems, InOrder;
    HeldIsDistinct(cells, 0);
    HeldMembers(cells);
    var held := Held(cells);
    var s := SortItems(held);
    SortReady(held);
    SortSorts(held);
    var n, w := Numbers(held), Work([], Numbers(held));
    assert [] + s == s;
    MergeDefined(w, s);
    if Merge(w, s).Some? {
      var v := Merge(w, s).value;
      assert NonNegative(n);
      MergeCarries(w, s);
      assert v.kept + [] == v.kept;
      forall x ensures Total(v.kept, v.n, x) == Sum(Weights(cells, x)) {
        SortTotal(held, n, x);
        HeldTotal(cells, n, x);
      }
    }
  }

  // After a sort a kind is down to at most one loose stack exactly when at most one stretch of its loose stacks, in the
  // order of the sort, does not fill whole stacks.
  lemma SortingLeavesLoose(cells: seq<Item?>, m: map<int, Item>, x: int, limit: nat)
    requires Agree(cells, m) && Distinct(Held(cells)) && Sorting(Held(cells)).Some?
    requires limit >= 1 && Uniform(SortItems(Held(cells)), x, limit)
    ensures var w, s, n := Sorting(Held(cells)).value, SortItems(Held(cells)), Numbers(Held(cells));
            && Covers(w.n, w.kept) && Covers(n, s)
            && (LooseCount(w.kept, w.n, x) <= 1 <==> Remainders(Stretches(s, n, x, 0), limit) <= 1)
  {
    hide Merge, Held, ItemMerge.SortItems, LooseCount, Stretches, Remainders, Distinct;
    SortReady(Held(cells));
    HeldMembers(cells);
    var n := Numbers(Held(cells));
    assert NonNegative(n);
    LooseStacksLeft(SortItems(Held(cells)), n, x, limit);
  }

  // The vector after a sort: cell 0, the first 24 of the merged stacks, empty cells.
  ghost predicate SortedCells(cells: seq<Item?>, w: Work)
    reads cells`number
  {
    && |cells| == DEFAULT_BAG_CELL && cells[0] == null
    && forall i :: 1 <= i < DEFAULT_BAG_CELL ==>
         if i <= |w.kept| then cells[i] == w.kept[i - 1] && w.kept[i - 1] in w.n
             && cells[i].number == w.n[w.kept[i - 1]]
         else cells[i] == null
  }

  lemma AgreeingIds(cells: seq<Item?>, m: map<int, Item>, kept: seq<Item>)
    requires Agree(cells, m) && forall i :: 0 <= i < |kept| ==> kept[i] in cells
    ensures forall i :: 0 <= i < |kept| ==> kept[i].id in m && m[kept[i].id] == kept[i]
    ensures forall id :: id in m ==> m[id].id == id
  {
  }

  function Resized(cells: seq<Item?>): seq<Item?> {
    if |cells| >= DEFAULT_BAG_CELL then cells[..DEFAULT_BAG_CELL]
    else cells + seq(DEFAULT_BAG_CELL - |cells|, _ => null)
  }

  lemma SortedResult(cells: seq<Item?>, w: Work, m: map<int, Item>)
    requires Covers(w.n, w.kept) && cells == [null] + w.kept
    requires forall i :: 1 <= i < |cells| ==>
             cells[i] in w.n && cells[i].number == w.n[cells[i]] > 0 && cells[i].index == i
    requires forall i :: 1 <= i < |cells| ==> cells[i].id in m && m[cells[i].id] == cells[i]
    requires forall id :: id in m ==> m[id].id == id
    ensures SortedCells(Resized(cells), w) && Agree(Resized(cells), m)
  {
    var r := Resized(cells);
    assert forall i :: 0 <= i < |r| ==> r[i] == if i < |cells| then cells[i] else null;
    assert forall i :: 1 <= i < |cells| ==> cells[i] == w.kept[i - 1];
  }

  // What the stacks beyond the 24th hold.
  ghost function Beyond(w: Work, x: int): int
    requires Covers(w.n, w.kept)
  {
    if |w.kept| < DEFAULT_BAG_CELL then 0 else Total(w.kept[DEFAULT_BAG_CELL - 1..], w.n, x)
  }

  lemma HeldInOrder(cells: seq<Item?>, w: Work, k: nat)
    requires SortedCells(cells, w) && Covers(w.n, w.kept)
    requires k == if |w.kept| < DEFAULT_BAG_CELL then |w.kept| else DEFAULT_BAG_CELL - 1
    ensures Held(cells) == w.kept[..k]
  {
    hide Held;
    var first := w.kept[..k];
    var none: seq<Item?> := seq(1, _ => null);
    var pad: seq<Item?> := seq(DEFAULT_BAG_CELL - 1 - k, _ => null);
    assert cells == none + first + pad;
    HeldConcat(none + first, pad);
    HeldConcat(none, first);
    HeldItems(first);
    HeldNulls(none);
    HeldNulls(pad);
  }

  lemma SortedTotal(cells: seq<Item?>, w: Work, x: int)
    requires SortedCells(cells, w) && Covers(w.n, w.kept)
    ensures Sum(Weights(cells, x)) + Beyond(w, x) == Total(w.kept, w.n, x)
  {
    hide Sum, Weights, Total, Held;
    var k := if |w.kept| < DEFAULT_BAG_CELL then |w.kept| else DEFAULT_BAG_CELL - 1;
    var first, rest := w.kept[..k], w.kept[k..];
    HeldInOrder(cells, w, k);
    assert forall i :: 0 <= i < k ==> first[i] == w.kept[i] == cells[i + 1];
    HeldTotal(cells, w.n, x);
    assert w.kept == first + rest;
    TotalConcat(first, rest, w.n, x);
    if rest == [] {
      TotalOfNone(w.n, x);
    }
  }

  lemma {:induction false} TotalNonNegative(s: seq<Item>, n: Counts, x: int)
    requires Covers(n, s) && forall i :: 0 <= i < |s| ==> n[s[i]] >= 0
    ensures Total(s, n, x) >= 0
  {
    if s != [] {
      TotalNonNegative(s[1..], n, x);
    }
  }

  // A sort loses nothing exactly when at most 24 stacks remain.
  lemma NothingIsLost(w: Work)
    requires Covers(w.n, w.kept) && forall i :: 0 <= i < |w.kept| ==> w.n[w.kept[i]] > 0
    ensures (forall x :: Beyond(w, x) == 0) <==> |w.kept| <= 24
  {
    if |w.kept| >= DEFAULT_BAG_CELL {
      var rest := w.kept[DEFAULT_BAG_CELL - 1..];
      assert rest[0] == w.kept[DEFAULT_BAG_CELL - 1];
      TotalNonNegative(rest[1..], w.n, rest[0].itemId);
      assert Beyond(w, rest[0].itemId) > 0;
    }
  }

  lemma TotalOfNone(n: Counts, x: int)
    ensures Total([], n, x) == 0
  {
  }

  class ItemBag {
    var items: seq<Item?>
    var itemMap: map<int, Item>
    var lastSyncTime: nat

    ghost predicate Valid()
      reads this, items
    {
      1 <= |items| < 0x8000 && Agree(items, itemMap)
    }

    // The number of things of kind x in the cells.
    ghost function Quantity(x: int): int
      reads this, items
    {
      Sum(Weights(items, x))
    }

    constructor ()
      ensures Valid() && itemMap == map[] && lastSyncTime == 0
      ensures items == seq(DEFAULT_BAG_CELL, _ => null)
    {
      items := seq(DEFAULT_BAG_CELL, _ => null);
      itemMap := map[];
      lastSyncTime := 0;
    }

    // An item goes to the lowest free cell from 1 on, even if it sits in one already; then it counts twice. The bag
    // still agrees exactly when no cell held an item with that id.
    method AddItem(item: Item)
      requires Valid() && item.number >= 0
      requires |items| < 0x7fff
      modifies this`items, this`itemMap, item`index
      ensures 1 <= item.index <= old(|items|)
      ensures forall i :: 1 <= i < item.index ==> old(items)[i] != null
      ensures item.index < old(|items|) ==> old(items)[item.index] == null && items == old(items)[item.index := item]
      ensures item.index == old(|items|) ==> items == old(items) + [item]
      ensures itemMap == old(itemMap)[item.id := item]
      ensures Valid() <==> NoneHasId(old(items), item.id)
      ensures forall x :: Quantity(x) == old(Quantity(x)) + Weight(item, x)
    {
      hide Sum, Weights, Agree;
      var idx := FreeCell();
      ghost var was := items;
      label before:
      item.index := idx;
      items := items[idx := item];
      itemMap := itemMap[item.id := item];
      forall x ensures Quantity(x) == old(Quantity(x)) + Weight(item, x) {
        CellChanges(items, old@before(Weights(items, x)), idx, x);
      }
      if item in was {
        var k :| 0 <= k < |was| && was[k] == item;
        Displaced(items, itemMap, k);
        assert !NoneHasId(was, item.id);
      } else {
        AddedAgree(was, old(itemMap), idx, item);
      }
      assert forall i :: 0 <= i < |old(items)| ==> was[i] == old(items)[i];
      assert NoneHasId(was, item.id) <==> NoneHasId(old(items), item.id);
    }

    // The lowest free cell from 1 on, behind the last one if need be.
    method FreeCell() returns (idx: nat)
      requires Valid() && |items| < 0x7fff
      modifies this`items
      ensures 1 <= idx < |items| && items[idx] == null
      ensures idx <= |old(items)| && forall i :: 1 <= i < idx ==> old(items)[i] != null
      ensures if idx < |old(items)| then items == old(items) else idx == |old(items)| && items == old(items) + [null]
      ensures Valid() && forall x :: Quantity(x) == old(Quantity(x))
    {
      idx := 1;
      while idx < |items| && items[idx] != null
        invariant 1 <= idx <= |items|
        invariant forall i :: 1 <= i < idx ==> items[i] != null
      {
        idx := idx + 1;
      }
      if idx >= |items| {
        forall x ensures Sum(Weights(items + [null], x)) == Sum(Weights(items, x)) {
          EmptyCell(items, x);
        }
        items := items + [null];
      }
    }

    // The cell the item's index names is emptied, whatever it holds. The bag still agrees exactly when the id stays in
    // the map or no other cell holds an item with it.
    method RemoveItem(item: Item, resideInMap: bool)
      requires Valid()
      modifies this`items, this`itemMap
      ensures items == if 1 <= item.index < |old(items)| then old(items)[item.index := null] else old(items)
      ensures itemMap == if resideInMap then old(itemMap) else old(itemMap) - {item.id}
      ensures Valid() <==> resideInMap || NoneElseHasId(old(items), item.index, item.id)
      ensures old(item.id in itemMap && itemMap[item.id] == item) ==> Valid()
      ensures old(item in items) ==> forall x :: Quantity(x) == old(Quantity(x)) - Weight(item, x)
    {
      hide Sum, Weights, Agree;
      RemovedAgree(items, itemMap, item.index, item.id);
      if item in items {
        AtOwnCell(items, itemMap, item);
      }
      label before:
      if 1 <= item.index < |items| {
        items := items[item.index := null];
        forall x ensures Quantity(x) == old(Quantity(x)) - old(Weight(items[item.index], x)) {
          CellChanges(items, old@before(Weights(items, x)), item.index, x);
        }
      }
      if !resideInMap {
        if item.id in itemMap && itemMap[item.id] == item {
          OwnIds(old(items), itemMap, item);
        }
        itemMap := itemMap - {item.id};
      }
    }

    // One stack takes what it can of another item of its kind.
    method Pour(c: Item, item: Item, limit: nat) returns (all: bool)
      requires Valid() && 0 <= c.index < |items| && items[c.index] == c && c.itemId == item.itemId
      requires item !in items && item.number > 0
      modifies item`number, c`number
      ensures Valid() && item.number >= 0
      ensures CellNumbers(items) == old(CellNumbers(items))[c.index := c.number]
      ensures all <==> old(c.number + item.number) <= limit
      ensures item.number == if all then 0 else old(c.number + item.number) - limit
      ensures c.number == if all then old(c.number + item.number) else limit
      ensures forall x :: Quantity(x) + Weight(item, x) == old(Quantity(x)) + old(Weight(item, x))
    {
      hide Sum, Weights, CellNumbers;
      OnlyCell(items, itemMap, c);
      all := c.number + item.number <= limit;
      if all {
        c.number := c.number + item.number;
        item.number := 0;
      } else {
        item.number := item.number + c.number - limit;
        c.number := limit;
      }
      OneNumber(items, old(CellNumbers(items)), c.index);
      forall x ensures Quantity(x) + Weight(item, x) == old(Quantity(x)) + old(Weight(item, x)) {
        CellChanges(items, old(Weights(items, x)), c.index, x);
      }
    }

    // The incoming item is spread over the stacks of its kind: what they gain it loses. Afterwards it is empty or
    // every one of them is exactly full. Nothing happens to an unstackable item.
    method StackItem(item: Item) returns (ok: bool)
      requires Valid() && item !in items && item.number >= 0
      modifies item`number, items
      ensures Valid() && item.number >= 0
      ensures ok <==> item.stackNum != 0
      ensures !ok ==> item.number == old(item.number)
      ensures ok && item.number != 0 ==> AllFull(items, CellNumbers(items), |items|, item)
      ensures NoneOverfilled(items, CellNumbers(items), old(CellNumbers(items)), item)
      ensures forall x :: Quantity(x) + Weight(item, x) == old(Quantity(x)) + old(Weight(item, x))
    {
      hide Sum, Weights, CellNumbers, Agree;
      if item.stackNum == 0 {
        return false;
      }
      var i := 0;
      while i < |items|
        invariant 0 <= i <= |items| && Valid() && item.number >= 0
        invariant item.number > 0 ==> AllFull(items, CellNumbers(items), i, item)
        invariant NoneOverfilled(items, CellNumbers(items), old(CellNumbers(items)), item)
        invariant forall x :: Quantity(x) + Weight(item, x) == old(Quantity(x)) + old(Weight(item, x))
      {
        var c := items[i];
        if item.number > 0 && c != null && c.itemId == item.itemId {
          OwnCell(items, itemMap, i);
          var all := Pour(c, item, item.stackNum);
          if all {
            break;
          }
        }
        i := i + 1;
      }
      return true;
    }

    // Two cells change places; the one named by the moving item's index may hold something else.
    method Swap(from: Item, toIdx: nat)
      requires Valid() && 1 <= toIdx < |items| && 0 <= from.index < |items|
      requires from.id in itemMap && itemMap[from.id] == from
      modifies this`items, from`index, items
      ensures items == old(items[from.index := items[toIdx]][toIdx := items[from.index]])
      ensures from.index == if old(items)[toIdx] == from then old(from.index) else toIdx
      ensures old(items)[toIdx] != null ==> old(items)[toIdx].index == old(from.index)
      ensures forall c :: c in items && c != null ==> c.number == old(c.number)
      ensures forall x :: Quantity(x) == old(Quantity(x))
      ensures Valid() <==> old(MoveAgrees(items, from, toIdx))
    {
      hide Sum, Weights;
      var fromIdx, to := from.index, items[toIdx];
      items := items[fromIdx := to][toIdx := items[fromIdx]];
      from.index := toIdx;
      if to != null {
        to.index := fromIdx;
      }
      if fromIdx != toIdx {
        forall x ensures Quantity(x) == old(Quantity(x)) {
          TwoCellsChange(items, old(Weights(items, x)), fromIdx, toIdx, x);
        }
      } else {
        assert items == old(items);
        forall x ensures Quantity(x) == old(Quantity(x)) {
          CellChanges(items, old(Weights(items, x)), toIdx, x);
        }
      }
      if !old(MoveAgrees(items, from, toIdx)) {
        assert items[fromIdx] == to && items[toIdx] == old(items)[fromIdx];
        assert items[toIdx] != null ==> items[toIdx].index == fromIdx;
      } else {
        forall i | 0 <= i < |items| && items[i] != null ensures i >= 1 && items[i].index == i {
          assert i != fromIdx && i != toIdx ==> items[i] == old(items)[i];
        }
      }
    }

    // As much as fits moves from one stack to another; onto itself, an item is emptied or becomes a full stack.
    method Transfer(from: Item, to: Item) returns (fits: bool)
      requires Valid() && from.number >= 0 && 1 <= to.index < |items| && items[to.index] == to
      modifies from`number, to`number
      ensures Valid() && (fits <==> old(to.number + from.number) <= from.stackNum)
      ensures from.number == if fits then 0 else if from == to then from.stackNum
                             else old(to.number + from.number) - from.stackNum
      ensures to != from ==> to.number == if fits then old(to.number + from.number) else from.stackNum
    {
      fits := to.number + from.number <= from.stackNum;
      if fits {
        to.number := to.number + from.number;
        from.number := 0;
      } else {
        from.number := from.number + to.number - from.stackNum;
        to.number := from.stackNum;
      }
    }

    // An item is poured onto a stack of its kind, and taken out of the bag when all of it fits. Poured onto itself,
    // an item that takes at most half a stack is lost and any other becomes exactly a full stack.
    method Join(from: Item, to: Item)
      requires Valid() && 1 <= to.index < |items| && items[to.index] == to && from.itemId == to.itemId
      requires from.id in itemMap && itemMap[from.id] == from && from.number >= 0
      modifies this`items, this`itemMap, from`number, to`number
      ensures var fits, sum := old(to.number + from.number) <= from.stackNum, old(to.number + from.number);
              && from.number == (if fits then 0 else if from == to then from.stackNum else sum - from.stackNum)
              && (to != from ==> to.number == if fits then sum else from.stackNum)
              && items == (if fits && 1 <= from.index < |old(items)| then old(items)[from.index := null]
                           else old(items))
              && itemMap == (if fits then old(itemMap) - {from.id} else old(itemMap))
      ensures Valid()
      ensures from == to ==> forall x ::
                Quantity(x) == old(Quantity(x)) - old(Weight(from, x)) + Weight(from, x)
      ensures from != to && 1 <= from.index < |old(items)| && old(items)[from.index] == from ==>
                forall x :: Quantity(x) == old(Quantity(x))
    {
      hide Sum, Weights, Agree;
      OnlyCell(items, itemMap, to);
      if SitsIn(items, from) {
        OnlyCell(items, itemMap, from);
      }
      var fits := Transfer(from, to);
      if fits {
        RemoveItem(from, false);
      }
      if from == to {
        forall x ensures Quantity(x) == old(Quantity(x)) - old(Weight(from, x)) + Weight(from, x) {
          CellChanges(items, old(Weights(items, x)), to.index, x);
        }
      } else if 1 <= from.index < |items| && old(items)[from.index] == from {
        forall x ensures Quantity(x) == old(Quantity(x)) {
          TwoCellsChange(items, old(Weights(items, x)), from.index, to.index, x);
        }
      }
    }

    // Nothing happens for a cell outside the bag or an unknown id. An item that sits at its recorded cell and moves
    // to a different one changes places with what is there, or is poured onto a stack of its kind; the bag stays in
    // agreement and keeps every quantity. Moved onto its own cell, an item is kept exactly when it is unstackable,
    // empty or a full stack. Not ok: an item that is to change places has a recorded cell outside the vector, which is
    // read all the same.
    method MoveItem(fromId: int, toIdx: int) returns (ok: bool)
      requires Valid() && (fromId in itemMap ==> itemMap[fromId].number >= 0)
      modifies this`items, this`itemMap, itemMap.Values, items
      ensures !ok <==> 1 <= toIdx < |old(items)| && fromId in old(itemMap)
                       && old(MovesCell(itemMap[fromId], items[toIdx]))
                       && !(0 <= old(itemMap[fromId].index) < |old(items)|)
      ensures !ok || !(1 <= toIdx < |old(items)| && fromId in old(itemMap)) ==>
                Valid() && items == old(items) && itemMap == old(itemMap) && forall x :: Quantity(x) == old(Quantity(x))
      ensures ok && 1 <= toIdx < |old(items)| && fromId in old(itemMap) ==>
                var from, to := old(itemMap)[fromId], old(items)[toIdx];
                && (MovesCell(from, to) ==>
                      && items == old(items[from.index := to][toIdx := items[from.index]])
                      && (to != from ==> from.index == toIdx && (to != null ==> to.index == old(from.index)))
                      && (Valid() <==> old(MoveAgrees(items, from, toIdx))))
                && (!MovesCell(from, to) ==> Valid())
                && (!MovesCell(from, to) ==>
                      var sum, i := old(to.number + from.number), old(from.index);
                      if sum <= from.stackNum then
                        && items == (if 1 <= i < |old(items)| then old(items)[i := null] else old(items))
                        && itemMap == old(itemMap) - {fromId}
                        && from.number == 0 && (from != to ==> to.number == sum)
                      else
                        && items == old(items) && itemMap == old(itemMap)
                        && from.number == (if from == to then from.stackNum else sum - from.stackNum)
                        && to.number == from.stackNum)
                && (old(SitsIn(items, from)) && from != to ==>
                      Valid() && forall x :: Quantity(x) == old(Quantity(x)))
                && (from == to ==> ((forall x :: Quantity(x) == old(Quantity(x))) <==>
                      from.stackNum == 0 || old(from.number) == 0 || old(from.number) == from.stackNum))
    {
      ok := true;
      if toIdx < 1 || toIdx >= |items| || fromId !in itemMap {
        return;
      }
      hide Sum, Weights;
      var from, to := itemMap[fromId], items[toIdx];
      if to == null || from.itemId != to.itemId || from.stackNum == 0 {
        if from.index < 0 || from.index >= |items| {
          return false;
        }
        Swap(from, toIdx);
      } else {
        OwnCell(items, itemMap, toIdx);
        Join(from, to);
        if from == to {
          assert Quantity(from.itemId) == old(Quantity(from.itemId)) - old(from.number) + from.number;
        }
      }
    }

    // One turn of the merging loop of a sort, and whether the loop index steps back. It fails where it would read the
    // null item of cell 0.
    method MergeTurn(ghost w: Work, ghost sorted: seq<Item>, it: Item) returns (ok: bool, back: bool)
      requires items == [null] + w.kept && w.n == Numbers(sorted) && Covers(w.n, w.kept)
      requires it in sorted && it !in w.kept
      modifies this`items, sorted`number
      ensures var r := Turn(w, it);
              && (ok <==> r.Some?)
              && (ok ==> items == [null] + r.value.0.kept && Numbers(sorted) == r.value.0.n && back == r.value.1)
    {
      ok, back := true, false;
      if it.number <= 0 {
        return;
      }
      if it.stackNum <= 1 || it.number >= it.stackNum {
        items := items + [it];
        return;
      }
      var last := items[|items| - 1];
      if last == null {
        ok := false;
        return;
      }
      assert last == w.kept[|w.kept| - 1] && last in w.n;
      if it.itemId != last.itemId || last.number >= last.stackNum {
        items := items + [it];
        return;
      }
      if last.number + it.number <= last.stackNum {
        last.number := last.number + it.number;
        it.number := 0;
      } else {
        it.number := it.number + last.number - last.stackNum;
        last.number := last.stackNum;
        back := true;
      }
    }

    // The merging loop of a sort: the cells become the kept items, behind the unused cell 0.
    method MergeStacks(sorted: seq<Item>) returns (ok: bool)
      requires Distinct(sorted)
      modifies this`items, sorted`number
      ensures Ready(Work([], old(Numbers(sorted))), sorted)
      ensures ok <==> Merge(Work([], old(Numbers(sorted))), sorted).Some?
      ensures ok ==> var w := Merge(Work([], old(Numbers(sorted))), sorted).value;
                     items == [null] + w.kept && Numbers(sorted) == w.n
    {
      hide Merge, Turn;
      items := [null];
      ghost var w := Work([], Numbers(sorted));
      assert [] + sorted == sorted == sorted[0..];
      var i := 0;
      while i < |sorted|
        invariant 0 <= i <= |sorted|
        invariant items == [null] + w.kept && w.n == Numbers(sorted)
        invariant Ready(w, sorted[i..])
        invariant Merge(w, sorted[i..]) == Merge(Work([], old(Numbers(sorted))), sorted)
        decreases |sorted| - i, Covers(w.n, w.kept) && BackIsOpen(w)
      {
        MergeStep(w, sorted[i..]);
        assert sorted[i..][1..] == sorted[i + 1..];
        var back;
        ok, back := MergeTurn(w, sorted, sorted[i]);
        if !ok {
          return;
        }
        w := Turn(w, sorted[i]).value.0;
        i := if back then i else i + 1;
      }
      assert sorted[i..] == [];
      MergeEnd(w);
      return true;
    }

    // Nothing happens within three seconds of the last sort. Otherwise the sort may fail on the null cell; else the
    // cells become the merged stacks in order, cut or padded to 25 cells, and what is lost is what the stacks beyond
    // the 24th hold.
    method SortItems(now: nat) returns (ok: bool)
      requires Valid()
      modifies this`items, this`lastSyncTime, Held(items)
      ensures Distinct(old(Held(items)))
      ensures now < old(lastSyncTime) + 3 ==>
                ok && Valid() && items == old(items) && lastSyncTime == old(lastSyncTime)
                && forall x :: Quantity(x) == old(Quantity(x))
      ensures now >= old(lastSyncTime) + 3 ==> lastSyncTime == now && (ok <==> old(Sorting(Held(items))).Some?)
      ensures now >= old(lastSyncTime) + 3 && ok ==>
                var w := old(Sorting(Held(items))).value;
                && Valid() && SortedCells(items, w) && Covers(w.n, w.kept)
                && Numbers(old(Held(items))) == w.n && itemMap == old(itemMap)
                && forall x :: Quantity(x) + Beyond(w, x) == old(Quantity(x))
    {
      hide Sum, Weights, Total, Merge, Held, ItemMerge.SortItems, Sorted, Compact, MeetsNullCell, Beyond;
      hide SortedCells, Agree;
      SortingLaws(items, itemMap);
      SortDistinct(Held(items));
      if Sorting(Held(items)).Some? {
        AgreeingIds(items, itemMap, Sorting(Held(items)).value.kept);
      }
      if lastSyncTime + 3 > now {
        return true;
      }
      lastSyncTime := now;
      var collected := Collect();
      var sorted := ItemMerge.SortItems(collected);
      assert Numbers(sorted) == old(Numbers(Held(items)));
      ok := MergeStacks(sorted);
      if !ok {
        return;
      }
      ghost var w := old(Sorting(Held(items))).value;
      assert Numbers(old(Held(items))) == Numbers(sorted);
      LayOut(w);
    }

    // The merged stacks get their indices, and the vector its 25 cells.
    method LayOut(ghost w: Work)
      requires items == [null] + w.kept && Distinct(w.kept) && Covers(w.n, w.kept)
      requires forall i :: 0 <= i < |w.kept| ==> w.kept[i].number == w.n[w.kept[i]] > 0
      requires forall i :: 0 <= i < |w.kept| ==> w.kept[i].id in itemMap && itemMap[w.kept[i].id] == w.kept[i]
      requires forall id :: id in itemMap ==> itemMap[id].id == id
      modifies this`items, items`index
      ensures Valid() && SortedCells(items, w)
      ensures forall x :: Quantity(x) + Beyond(w, x) == Total(w.kept, w.n, x)
    {
      hide Sum, Weights, Total, Beyond;
      Reindex();
      SortedResult(items, w, itemMap);
      items := Resized(items);
      forall x ensures Quantity(x) + Beyond(w, x) == Total(w.kept, w.n, x) {
        SortedTotal(items, w, x);
      }
    }

    method Reindex()
      requires |items| >= 1 && forall i :: 1 <= i < |items| ==> items[i] != null
      requires forall i, j :: 1 <= i < j < |items| ==> items[i] != items[j]
      modifies items`index
      ensures forall i :: 1 <= i < |items| ==> items[i].index == i
    {
      var i := 1;
      while i < |items|
        invariant 1 <= i <= |items|
        invariant forall j :: 1 <= j < i ==> items[j].index == j
      {
        items[i].index := i;
        i := i + 1;
      }
    }

    // The items in the cells from 1 on.
    method Collect() returns (r: seq<Item>)
      requires Valid()
      ensures r == Held(items)
    {
      hide Held, Agree;
      r := [];
      var i := 1;
      assert items[0] == null by { NoItemZero(items, itemMap); }
      HeldHead(items);
      while i < |items|
        invariant 1 <= i <= |items| && r + Held(items[i..]) == Held(items)
      {
        HeldHead(items[i..]);
        assert items[i..][1..] == items[i + 1..];
        if items[i] != null {
          r := r + [items[i]];
        }
        i := i + 1;
      }
      HeldNulls([]);
      assert items[i..] == [];
    }
  }
}

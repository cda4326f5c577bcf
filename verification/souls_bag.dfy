// The souls of a role: three maps by id and a vector of bag cells, changed in place.
module SoulsBags {
  import opened SoulTable
  import opened Pigeonholes

  const MAX_HUNT_SOULS_COUNT := 18
  const BAG_CELLS := 48 // four pages of twelve

  // The part of an item template that souls use.
  datatype SoulTemplate = SoulTemplate(itemId: int, quality: int, next: int)

  datatype Kind = Hunted | InBag | Equipped | Deleted

  class SoulItem {
    const id: int
    var soulId: int
    var index: int
    var kind: Kind
    var exp: int
    var template: SoulTemplate

    constructor (id: int, template: SoulTemplate, index: int)
      ensures this.id == id && this.template == template && this.index == index
      ensures soulId == template.itemId && kind == Hunted && exp == 0
    {
      this.id, this.template, this.index := id, template, index;
      soulId, kind, exp := template.itemId, Hunted, 0;
    }

    // Experience never falls below zero.
    method AddExp(v: int)
      modifies this`exp
      ensures exp == if old(exp) + v < 0 then 0 else old(exp) + v
    {
      var expVal := exp + v;
      if expVal < 0 {
        expVal := 0;
      }
      exp := expVal;
    }
  }

  // ---- The bag

  ghost predicate Keyed(m: map<int, SoulItem>) {
    forall id :: id in m ==> m[id].id == id
  }

  // The vector and the map of the bag say the same: cell k is occupied exactly by the soul whose index is k.
  ghost predicate SameSouls(vect: seq<SoulItem?>, bag: map<int, SoulItem>)
    reads bag.Values`index
  {
    && |vect| == BAG_CELLS
    && (forall k :: 0 <= k < BAG_CELLS && vect[k] != null ==> vect[k].id in bag && bag[vect[k].id] == vect[k])
    && (forall id :: id in bag ==> 0 <= bag[id].index < BAG_CELLS)
    && (forall id, k :: id in bag && 0 <= k < BAG_CELLS ==> (vect[k] == bag[id] <==> bag[id].index == k))
  }

  // Hunted souls have different indices among the first 18.
  ghost predicate Placed(hunted: map<int, SoulItem>)
    reads hunted.Values`index
  {
    && (forall id :: id in hunted ==> 0 <= hunted[id].index < MAX_HUNT_SOULS_COUNT)
    && (forall id, jd :: id in hunted && jd in hunted && id != jd ==> hunted[id].index != hunted[jd].index)
  }

  ghost predicate IndexHeld(m: map<int, SoulItem>, i: int)
    reads m.Values`index
  {
    exists id :: id in m && m[id].index == i
  }

  ghost function Indices(m: map<int, SoulItem>, ids: seq<int>): (r: seq<int>)
    requires forall k :: 0 <= k < |ids| ==> ids[k] in m
    reads m.Values`index
    ensures |r| == |ids| && forall k :: 0 <= k < |r| ==> r[k] == m[ids[k]].index
  {
    if ids == [] then [] else [m[ids[0]].index] + Indices(m, ids[1..])
  }

  // At most 18 souls can be placed.
  lemma PlacedAreFew(m: map<int, SoulItem>)
    requires Placed(m)
    ensures |m| <= MAX_HUNT_SOULS_COUNT
  {
    var ids := Ordered(m.Keys);
    var held := Indices(m, ids);
    forall i | 0 <= i < |ids| ensures 0 <= held[i] < MAX_HUNT_SOULS_COUNT {
      assert ids[i] in m && held[i] == m[ids[i]].index;
    }
    forall i, j | 0 <= i < j < |ids| ensures held[i] != held[j] {
      assert ids[i] in m && ids[j] in m && ids[i] < ids[j];
    }
    AtMostBelow(held, MAX_HUNT_SOULS_COUNT);
  }

  // Every soul of a map is found by its id, is of the map's kind and has experience that is not negative.
  ghost predicate Members(m: map<int, SoulItem>, k: Kind)
    reads m.Values`kind, m.Values`exp
  {
    forall id :: id in m ==> m[id].id == id && m[id].kind == k && m[id].exp >= 0
  }

  // No id is in two of the maps.
  ghost predicate Disjoint(a: map<int, SoulItem>, b: map<int, SoulItem>, c: map<int, SoulItem>) {
    forall id :: !(id in a && id in b) && !(id in a && id in c) && !(id in b && id in c)
  }

  // What the counting array says after j souls: which indices below its size are held.
  ghost predicate Counted(idx: seq<int>, held: seq<int>, j: nat)
    requires j <= |held|
  {
    forall i :: 0 <= i < |idx| ==> idx[i] >= 0 && (idx[i] == 0 <==> i !in held[..j])
  }

  lemma CountNone(idx: seq<int>, held: seq<int>)
    requires forall i :: 0 <= i < |idx| ==> idx[i] == 0
    ensures Counted(idx, held, 0)
  {
  }

  lemma CountOne(idx: seq<int>, held: seq<int>, j: nat)
    requires j < |held| && held[j] >= 0 && Counted(idx, held, j)
    ensures Counted(if held[j] < |idx| then idx[held[j] := idx[held[j]] + 1] else idx, held, j + 1)
  {
    assert held[..j + 1] == held[..j] + [held[j]];
  }

  // The first zero of the array, or its size, is the least free index; past the array by the pigeonhole principle.
  lemma CountedMeans(idx: seq<int>, held: seq<int>, r: nat)
    requires |idx| == |held| && Counted(idx, held, |held|)
    requires r <= |idx| && (r < |idx| ==> idx[r] == 0) && forall i :: 0 <= i < r ==> idx[i] != 0
    ensures r !in held && forall i :: 0 <= i < r ==> i in held
  {
    assert held[..|held|] == held;
    if r == |held| {
      Pigeonhole(held);
    }
  }

  lemma IndicesHold(m: map<int, SoulItem>)
    ensures forall i :: IndexHeld(m, i) <==> i in Indices(m, Ordered(m.Keys))
  {
    var ids := Ordered(m.Keys);
    var held := Indices(m, ids);
    forall i ensures IndexHeld(m, i) <==> i in held {
      if IndexHeld(m, i) {
        var id :| id in m && m[id].index == i;
        OrderedHas(m.Keys, id);
        var k :| 0 <= k < |ids| && ids[k] == id;
        assert held[k] == i;
      }
      if i in held {
        var k :| 0 <= k < |held| && held[k] == i;
        assert m[ids[k]].index == i;
      }
    }
  }

  lemma LeastFree(m: map<int, SoulItem>, idx: seq<int>, r: nat)
    requires |idx| == |m| == |Ordered(m.Keys)| && Counted(idx, Indices(m, Ordered(m.Keys)), |m|)
    requires r <= |idx| && (r < |idx| ==> idx[r] == 0) && forall i :: 0 <= i < r ==> idx[i] != 0
    ensures !IndexHeld(m, r) && forall i :: 0 <= i < r ==> IndexHeld(m, i)
  {
    hide Ordered, Indices, Counted, IndexHeld;
    CountedMeans(idx, Indices(m, Ordered(m.Keys)), r);
    IndicesHold(m);
  }

  lemma SameLength(vect: seq<SoulItem?>, bag: map<int, SoulItem>)
    requires SameSouls(vect, bag)
    ensures |vect| == BAG_CELLS
  {
  }

  lemma StoredSame(vect: seq<SoulItem?>, bag: map<int, SoulItem>, k: nat, item: SoulItem)
    requires SameSouls(vect, bag) && Members(bag, InBag)
    requires k < BAG_CELLS && vect[k] == null && item.id !in bag && item.index == k
    ensures SameSouls(vect[k := item], bag[item.id := item])
  {
  }

  lemma RemovedSame(vect: seq<SoulItem?>, bag: map<int, SoulItem>, item: SoulItem)
    requires SameSouls(vect, bag) && Members(bag, InBag) && item.id in bag && bag[item.id] == item
    ensures 0 <= item.index < |vect| && SameSouls(vect[item.index := null], bag - {item.id})
  {
    var now, m := vect[item.index := null], bag - {item.id};
    forall k | 0 <= k < BAG_CELLS && now[k] != null ensures now[k].id in m && m[now[k].id] == now[k] {
      assert now[k] == vect[k] && vect[k].id in bag && bag[vect[k].id] == vect[k];
      assert vect[k] == bag[vect[k].id] <==> bag[vect[k].id].index == k;
    }
    forall id, k | id in m && 0 <= k < BAG_CELLS ensures now[k] == m[id] <==> m[id].index == k {
      assert vect[k] == bag[id] <==> bag[id].index == k;
      assert vect[item.index] == bag[item.id];
    }
  }

  lemma NotAmong(m: map<int, SoulItem>, item: SoulItem, k: Kind)
    requires Members(m, k) && item.id !in m
    ensures item !in m.Values
  {
    assert forall id :: id in m ==> m[id] != item;
  }

  // What stays true of a map when a soul leaves it or joins it.
  lemma Leaves(m: map<int, SoulItem>, id: int, k: Kind)
    requires Members(m, k)
    ensures Members(m - {id}, k) && (Placed(m) ==> Placed(m - {id}))
  {
  }

  lemma Joins(m: map<int, SoulItem>, item: SoulItem, k: Kind)
    requires Members(m, k) && item.id !in m && item.kind == k && item.exp >= 0
    ensures Members(m[item.id := item], k)
  {
  }

  lemma MembersAre(m: map<int, SoulItem>, k: Kind)
    requires Members(m, k)
    ensures Keyed(m) && forall id :: id in m ==> m[id].kind == k && m[id].exp >= 0
  {
  }

  lemma DisjointLess(a: map<int, SoulItem>, b: map<int, SoulItem>, c: map<int, SoulItem>, id: int)
    requires Disjoint(a, b, c)
    ensures Disjoint(a - {id}, b, c) && Disjoint(a, b - {id}, c)
    ensures id in a ==> id !in b && id !in c
    ensures id in b ==> id !in a && id !in c
  {
  }

  lemma DisjointMore(a: map<int, SoulItem>, b: map<int, SoulItem>, c: map<int, SoulItem>, item: SoulItem)
    requires Disjoint(a, b, c) && item.id !in a && item.id !in b && item.id !in c
    ensures Disjoint(a[item.id := item], b, c) && Disjoint(a, b[item.id := item], c)
    ensures Disjoint(a, b, c[item.id := item])
  {
  }

  lemma PlacedIndices(m: map<int, SoulItem>)
    requires Placed(m)
    ensures forall id :: id in m ==> m[id].index >= 0
  {
  }

  lemma JoinsPlaced(m: map<int, SoulItem>, item: SoulItem)
    requires Placed(m) && item.id !in m && 0 <= item.index < MAX_HUNT_SOULS_COUNT && !IndexHeld(m, item.index)
    ensures Placed(m[item.id := item])
  {
  }

  class SoulsBag {
    var hunted: map<int, SoulItem>
    var bag: map<int, SoulItem>
    var vect: seq<SoulItem?>
    var equipped: map<int, SoulItem>

    ghost predicate Valid()
      reads this, hunted.Values`index, hunted.Values`kind, bag.Values`index, bag.Values`kind, equipped.Values`kind
      reads hunted.Values`exp, bag.Values`exp, equipped.Values`exp
    {
      && Members(hunted, Hunted) && Members(bag, InBag) && Members(equipped, Equipped)
      && Disjoint(hunted, bag, equipped) && Placed(hunted) && SameSouls(vect, bag)
    }

    ghost function Ids(): set<int>
      reads this
    {
      hunted.Keys + bag.Keys + equipped.Keys
    }

    constructor ()
      ensures Valid() && hunted == map[] && bag == map[] && equipped == map[]
    {
      hunted, bag, equipped := map[], map[], map[];
      vect := seq(BAG_CELLS, _ => null);
    }

    predicate IsFull()
      reads this
    {
      |hunted| >= MAX_HUNT_SOULS_COUNT
    }

    // How many souls hold each index below their number.
    method CountIndices(ids: seq<int>) returns (idx: array<int>)
      requires forall k :: 0 <= k < |ids| ==> ids[k] in hunted && hunted[ids[k]].index >= 0
      ensures fresh(idx) && idx.Length == |ids| && Counted(idx[..], Indices(hunted, ids), |ids|)
    {
      hide Ordered, Indices, Counted;
      ghost var held := Indices(hunted, ids);
      idx := new int[|ids|](_ => 0);
      CountNone(idx[..], held);
      var j := 0;
      while j < |ids|
        invariant 0 <= j <= |ids| && Counted(idx[..], held, j)
      {
        var soul := hunted[ids[j]];
        CountOne(idx[..], held, j);
        if soul.index < idx.Length {
          idx[soul.index] := idx[soul.index] + 1;
        }
        j := j + 1;
      }
    }

    method FirstZero(idx: array<int>) returns (i: nat)
      ensures i <= idx.Length && (i < idx.Length ==> idx[i] == 0) && forall k :: 0 <= k < i ==> idx[k] != 0
    {
      i := 0;
      while i < idx.Length
        invariant i <= idx.Length
        invariant forall k :: 0 <= k < i ==> idx[k] != 0
      {
        if idx[i] == 0 {
          break;
        }
        i := i + 1;
      }
    }

    // The least index no hunted soul holds.
    method NextHuntSoulIndex() returns (r: int)
      requires forall id :: id in hunted ==> hunted[id].index >= 0
      ensures 0 <= r <= |hunted| && !IndexHeld(hunted, r)
      ensures forall i :: 0 <= i < r ==> IndexHeld(hunted, i)
    {
      if hunted == map[] {
        return 0;
      }
      hide Ordered, Indices, Counted, IndexHeld;
      var size := |hunted|;
      var ids := Ordered(hunted.Keys);
      assert |ids| == size;
      var idx := CountIndices(ids);
      var i := FirstZero(idx);
      LeastFree(hunted, idx[..], i);
      return i;
    }

    method AddSoulItem(item: SoulItem)
      modifies this`hunted
      ensures hunted == if item.id in old(hunted) then old(hunted) else old(hunted)[item.id := item]
    {
      if item.id !in hunted {
        hunted := hunted[item.id := item];
      }
    }

    method Remove(item: SoulItem)
      modifies this`bag, this`vect
      ensures bag == old(bag) - {item.id}
      ensures vect == if 0 <= item.index < |old(vect)| then old(vect)[item.index := null] else old(vect)
    {
      bag := bag - {item.id};
      if item.index >= 0 && item.index < |vect| {
        vect := vect[item.index := null];
      }
    }

    method RemoveHuntedSoul(item: SoulItem)
      modifies this`hunted
      ensures hunted == old(hunted) - {item.id}
      ensures old(Valid()) ==> Valid()
    {
      if Valid() {
        Leaves(hunted, item.id, Hunted);
        DisjointLess(hunted, bag, equipped, item.id);
      }
      hide SameSouls, Placed, Members, Disjoint;
      hunted := hunted - {item.id};
    }

    method AddEquipSoul(item: SoulItem)
      modifies this`equipped
      ensures equipped == if item.id in old(equipped) then old(equipped) else old(equipped)[item.id := item]
    {
      if item.id !in equipped {
        equipped := equipped[item.id := item];
      }
    }

    // A soul goes to the first free cell of the bag and leaves the hunted ones; nothing happens when no cell is free.
    method StoreSoulItem(item: SoulItem) returns (ok: bool)
      requires Valid() && item.id !in bag && item.id !in equipped && item.exp >= 0
      requires item.id in hunted ==> hunted[item.id] == item
      modifies this`hunted, this`bag, this`vect, item`index, item`kind
      ensures Valid() && equipped == old(equipped)
      ensures !ok <==> forall k :: 0 <= k < BAG_CELLS ==> old(vect)[k] != null
      ensures !ok ==> hunted == old(hunted) && bag == old(bag) && vect == old(vect)
      ensures !ok ==> item.index == old(item.index) && item.kind == old(item.kind)
      ensures ok ==> hunted == old(hunted) - {item.id} && bag == old(bag)[item.id := item]
      ensures ok ==>
                && 0 <= item.index < BAG_CELLS && old(vect)[item.index] == null
                && vect == old(vect)[item.index := item]
      ensures ok ==> forall k :: 0 <= k < item.index ==> old(vect)[k] != null
    {
      SameLength(vect, bag);
      DisjointLess(hunted, bag, equipped, item.id);
      hide Valid;
      var idx := FirstFreeCell();
      if idx >= |vect| {
        return false;
      }
      RemoveHuntedSoul(item);
      PutInCell(item, idx);
      return true;
    }

    method FirstFreeCell() returns (idx: nat)
      ensures idx <= |vect| && (idx < |vect| ==> vect[idx] == null) && forall k :: 0 <= k < idx ==> vect[k] != null
    {
      idx := 0;
      while idx < |vect| && vect[idx] != null
        invariant 0 <= idx <= |vect| && forall k :: 0 <= k < idx ==> vect[k] != null
      {
        idx := idx + 1;
      }
    }

    // A soul that is in no container goes to a free cell.
    method PutInCell(item: SoulItem, idx: nat)
      requires Valid() && item.id !in hunted && item.id !in bag && item.id !in equipped && item.exp >= 0
      requires idx < BAG_CELLS == |vect| && vect[idx] == null
      modifies this`bag, this`vect, item`index, item`kind
      ensures Valid() && item.index == idx && bag == old(bag)[item.id := item] && vect == old(vect)[idx := item]
    {
      hide SameSouls, Placed, Members, Disjoint;
      NotAmong(hunted, item, Hunted);
      NotAmong(bag, item, InBag);
      NotAmong(equipped, item, Equipped);
      item.kind := InBag;
      item.index := idx;
      StoredSame(vect, bag, idx, item);
      Joins(bag, item, InBag);
      DisjointMore(hunted, bag, equipped, item);
      vect := vect[idx := item];
      bag := bag[item.id := item];
    }

    // A soul gains experience, wherever it is.
    method GainExp(soul: SoulItem, v: int)
      requires Valid()
      modifies soul`exp
      ensures Valid() && soul.exp == if old(soul.exp) + v < 0 then 0 else old(soul.exp) + v
    {
      hide SameSouls, Placed, Disjoint;
      soul.AddExp(v);
      assert forall id :: id in hunted ==> hunted[id] == soul || hunted[id].exp == old(hunted[id].exp);
      assert forall id :: id in bag ==> bag[id] == soul || bag[id].exp == old(bag[id].exp);
      assert forall id :: id in equipped ==> equipped[id] == soul || equipped[id].exp == old(equipped[id].exp);
    }

    // A hunted soul is consumed.
    method Consume(soul: SoulItem)
      requires Valid() && soul.id in hunted && hunted[soul.id] == soul
      modifies this`hunted, soul`kind
      ensures Valid() && hunted == old(hunted) - {soul.id} && soul.kind == Deleted
    {
      DisjointLess(hunted, bag, equipped, soul.id);
      hide SameSouls, Placed, Members, Disjoint;
      RemoveHuntedSoul(soul);
      Discard(soul);
    }

    // A soul in no container is marked as deleted.
    method Discard(soul: SoulItem)
      requires Valid() && soul.id !in hunted && soul.id !in bag && soul.id !in equipped
      modifies soul`kind
      ensures Valid() && soul.kind == Deleted
    {
      hide SameSouls, Placed, Members, Disjoint;
      NotAmong(hunted, soul, Hunted);
      NotAmong(bag, soul, InBag);
      NotAmong(equipped, soul, Equipped);
      soul.kind := Deleted;
    }

    // A soul leaves the bag; its fields may then change.
    method TakeOut(soul: SoulItem)
      requires Valid() && soul.id in bag && bag[soul.id] == soul
      modifies this`bag, this`vect
      ensures Valid() && bag == old(bag) - {soul.id} && 0 <= soul.index < |old(vect)|
      ensures vect == old(vect)[soul.index := null]
    {
      Leaves(bag, soul.id, InBag);
      DisjointLess(hunted, bag, equipped, soul.id);
      RemovedSame(vect, bag, soul);
      hide SameSouls, Placed, Members, Disjoint;
      Remove(soul);
    }

    // A soul of the bag is consumed.
    method ConsumeFromBag(soul: SoulItem)
      requires Valid() && soul.id in bag && bag[soul.id] == soul
      modifies this`bag, this`vect, soul`kind
      ensures Valid() && bag == old(bag) - {soul.id} && soul.kind == Deleted
      ensures 0 <= soul.index < |old(vect)| && vect == old(vect)[soul.index := null]
    {
      DisjointLess(hunted, bag, equipped, soul.id);
      hide Valid;
      TakeOut(soul);
      Discard(soul);
    }

    // A soul of the bag is equipped at an index of the player's choosing.
    method Equip(soul: SoulItem, index: int)
      requires Valid() && soul.id in bag && bag[soul.id] == soul
      modifies this`bag, this`vect, this`equipped, soul`index, soul`kind
      ensures Valid() && bag == old(bag) - {soul.id} && equipped == old(equipped)[soul.id := soul]
      ensures 0 <= old(soul.index) < |old(vect)| && vect == old(vect)[old(soul.index) := null]
      ensures soul.index == index && soul.kind == Equipped
    {
      MembersAre(bag, InBag);
      DisjointLess(hunted, bag, equipped, soul.id);
      hide Valid;
      TakeOut(soul);
      Wear(soul, index);
    }

    // A soul in no container is equipped.
    method Wear(soul: SoulItem, index: int)
      requires Valid() && soul.id !in hunted && soul.id !in bag && soul.id !in equipped && soul.exp >= 0
      modifies this`equipped, soul`index, soul`kind
      ensures Valid() && equipped == old(equipped)[soul.id := soul] && soul.index == index && soul.kind == Equipped
    {
      hide SameSouls, Placed, Members, Disjoint;
      NotAmong(hunted, soul, Hunted);
      NotAmong(bag, soul, InBag);
      NotAmong(equipped, soul, Equipped);
      soul.index := index;
      soul.kind := Equipped;
      Joins(equipped, soul, Equipped);
      DisjointMore(hunted, bag, equipped, soul);
      AddEquipSoul(soul);
    }

    // A newly hunted soul takes the least free index.
    method AddHunted(soul: SoulItem) returns (next: int)
      requires Valid() && !IsFull() && soul.id !in Ids() && soul.kind == Hunted && soul.exp >= 0
      modifies this`hunted, soul`index
      ensures Valid() && hunted == old(hunted)[soul.id := soul]
      ensures soul.index == next && 0 <= next < MAX_HUNT_SOULS_COUNT
      ensures !old(IndexHeld(hunted, next)) && forall i :: 0 <= i < next ==> old(IndexHeld(hunted, i))
    {
      PlacedIndices(hunted);
      hide SameSouls, Placed, Members, Disjoint, IndexHeld;
      next := NextHuntSoulIndex();
      label found:
      forall i ensures old(IndexHeld(hunted, i)) == old@found(IndexHeld(hunted, i)) {
      }
      Place(soul, next);
    }

    method Place(soul: SoulItem, index: int)
      requires Valid() && soul.kind == Hunted && soul.id !in hunted && soul.id !in bag && soul.id !in equipped
      requires soul.exp >= 0
      requires 0 <= index < MAX_HUNT_SOULS_COUNT && !IndexHeld(hunted, index)
      modifies this`hunted, soul`index
      ensures Valid() && hunted == old(hunted)[soul.id := soul] && soul.index == index
    {
      hide SameSouls, Placed, Members, Disjoint, IndexHeld;
      NotAmong(hunted, soul, Hunted);
      NotAmong(bag, soul, InBag);
      NotAmong(equipped, soul, Equipped);
      soul.index := index;
      Joins(hunted, soul, Hunted);
      DisjointMore(hunted, bag, equipped, soul);
      JoinsPlaced(hunted, soul);
      AddSoulItem(soul);
    }
  }
}

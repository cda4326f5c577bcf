// What the soul requests do to a role: hunting, storing, equipping and swallowing souls.
module SoulServlet {
  import opened Wrappers
  import opened SoulTable
  import opened SoulsBags
  import opened Sums

  datatype SoulHuntInfo = SoulHuntInfo(moneyNeed: int, levelNeed: int, soulValue: int)

  // How a request ends. Crash: the handler dereferences a null template.
  datatype Outcome = Done | NotEnoughMoney | BagFull | Ignored | Crash

  class Role {
    var money: int
    var level: int
    var soulsIndex: int
    var soulsValue: int
    const souls: SoulsBag

    constructor (money: int, level: int, soulsIndex: int, soulsValue: int)
      ensures this.money == money && this.level == level && souls.Valid() && fresh(souls)
      ensures this.soulsIndex == soulsIndex && this.soulsValue == soulsValue
      ensures souls.hunted == map[] && souls.bag == map[] && souls.equipped == map[]
    {
      this.money, this.level, this.soulsIndex, this.soulsValue := money, level, soulsIndex, soulsValue;
      souls := new SoulsBag();
    }
  }

  function Clamp(v: int): int {
    if v < 0 then 0 else v
  }

  // ---- Levels and what a consumed soul is worth

  predicate Graded(t: seq<Grade>, template: SoulTemplate) {
    0 <= template.quality < |t|
  }

  // The experience a soul hands on: what its level is worth and its own; None past the top threshold.
  function Worth(t: seq<Grade>, soul: SoulItem): (r: Option<int>)
    requires SoundTable(t) && Graded(t, soul.template)
    reads soul`template, soul`exp
  {
    var g := t[soul.template.quality];
    var level := LevelByExp(g, soul.exp);
    if level < 0 then None else Some(g.levels[level].value.swallowExp + soul.exp)
  }

  lemma WorthIs(t: seq<Grade>, soul: SoulItem)
    requires SoundTable(t) && Graded(t, soul.template)
    ensures var g := t[soul.template.quality];
            var level := LevelByExp(g, soul.exp);
            if level < 0 then Worth(t, soul).None?
            else level < |g.levels| && g.levels[level].Some?
                 && Worth(t, soul) == Some(g.levels[level].value.swallowExp + soul.exp)
  {
  }

  lemma KeyedAt(m: map<int, SoulItem>, id: int)
    requires Keyed(m) && id in m
    ensures m[id].id == id
  {
  }

  // Following the next-level links of the templates.
  function Chain(itm: map<int, SoulTemplate>, it: SoulTemplate, steps: int): Option<SoulTemplate>
    decreases steps
  {
    if steps <= 0 then Some(it)
    else if it.next !in itm then None
    else Chain(itm, itm[it.next], steps - 1)
  }

  // Each template is the next of the one before.
  predicate Linked(itm: map<int, SoulTemplate>, it: SoulTemplate, links: seq<SoulTemplate>) {
    links != [] && links[0] == it && forall k :: 0 <= k < |links| - 1 ==> IsNext(itm, links, k)
  }

  predicate IsNext(itm: map<int, SoulTemplate>, links: seq<SoulTemplate>, k: nat)
    requires k + 1 < |links|
  {
    links[k].next in itm && links[k + 1] == itm[links[k].next]
  }

  // Promotion by a number of steps ends that many links further, and fails exactly when the links end before.
  lemma {:induction false} ChainIsLinked(itm: map<int, SoulTemplate>, it: SoulTemplate, links: seq<SoulTemplate>)
    requires Linked(itm, it, links)
    ensures Chain(itm, it, |links| - 1) == Some(links[|links| - 1])
    ensures links[|links| - 1].next !in itm ==> forall more :: more >= |links| ==> Chain(itm, it, more).None?
    decreases |links|
  {
    if |links| > 1 {
      assert IsNext(itm, links, 0);
      forall k | 0 <= k < |links[1..]| - 1 ensures IsNext(itm, links[1..], k) {
        assert IsNext(itm, links, k + 1);
      }
      ChainIsLinked(itm, links[1], links[1..]);
      forall more | links[|links| - 1].next !in itm && more >= |links| ensures Chain(itm, it, more).None? {
        assert Chain(itm, links[1], more - 1).None?;
      }
    }
  }

  // ---- Hunting

  function GetSoulHuntInfo(infos: seq<Option<SoulHuntInfo>>, id: int): Option<SoulHuntInfo> {
    if 1 <= id < |infos| then infos[id] else None
  }

  // The next place's terms apply whenever there is a next place.
  function HuntTerms(infos: seq<Option<SoulHuntInfo>>, id: int): Option<SoulHuntInfo> {
    if GetSoulHuntInfo(infos, id).None? then None
    else if GetSoulHuntInfo(infos, id + 1).Some? then GetSoulHuntInfo(infos, id + 1)
    else GetSoulHuntInfo(infos, id)
  }

  // The terms are those of the next place if there is one, else those of the place itself; places count from 1.
  lemma TermsAre(infos: seq<Option<SoulHuntInfo>>, id: int)
    ensures 1 <= id && id + 1 < |infos| && infos[id].Some? && infos[id + 1].Some? ==>
              HuntTerms(infos, id) == infos[id + 1]
    ensures 1 <= id < |infos| && infos[id].Some? && (id + 1 == |infos| || infos[id + 1].None?) ==>
              HuntTerms(infos, id) == infos[id]
    ensures !(1 <= id < |infos| && infos[id].Some?) ==> HuntTerms(infos, id).None?
  {
  }

  // The drawn template and the lucky roll are inputs, and so is the id the database gives the new soul.
  method Hunt(
    role: Role, infos: seq<Option<SoulHuntInfo>>, id: int, drawn: Option<SoulTemplate>, lucky: bool, newId: int)
    returns (outcome: Outcome, soul: SoulItem?, index: int)
    requires role.souls.Valid() && newId !in role.souls.Ids()
    modifies role, role.souls`hunted
    ensures role.souls.Valid()
    ensures outcome == var terms := HuntTerms(infos, id);
                       if terms.None? then Ignored
                       else if old(role.money) < terms.value.moneyNeed then NotEnoughMoney
                       else if |old(role.souls.hunted)| >= 18 then BagFull
                       else if drawn.None? then Ignored
                       else Done
    ensures outcome != Done ==>
              && role.souls.hunted == old(role.souls.hunted) && role.money == old(role.money)
              && role.soulsIndex == old(role.soulsIndex) && role.soulsValue == old(role.soulsValue)
    ensures outcome == Done ==>
              var terms := HuntTerms(infos, id).value;
              && soul != null && fresh(soul) && soul.id == newId && soul.template == drawn.value && soul.exp == 0
              && role.souls.hunted == old(role.souls.hunted)[newId := soul]
              && role.money == Clamp(old(role.money) - terms.moneyNeed)
              && role.soulsValue == Clamp(old(role.soulsValue) + terms.soulValue)
              && role.soulsIndex == old(role.soulsIndex) + (if role.level >= terms.levelNeed && lucky then 1 else 0)
              && soul.index == index && 0 <= index < MAX_HUNT_SOULS_COUNT
              && !old(IndexHeld(role.souls.hunted, index))
              && forall i :: 0 <= i < index ==> old(IndexHeld(role.souls.hunted, i))
  {
    hide Placed, SameSouls, Members, Disjoint, IndexHeld, HuntTerms;
    soul, index := null, 0;
    var terms := HuntTerms(infos, id);
    if terms.None? {
      return Ignored, null, 0;
    }
    var info := terms.value;
    if role.money < info.moneyNeed {
      return NotEnoughMoney, null, 0;
    }
    if role.souls.IsFull() {
      return BagFull, null, 0;
    }
    if drawn.None? {
      return Ignored, null, 0;
    }
    if role.level >= info.levelNeed && lucky {
      role.soulsIndex := role.soulsIndex + 1;
    }
    role.money := Clamp(role.money - info.moneyNeed);
    role.soulsValue := Clamp(role.soulsValue + info.soulValue);
    var item := new SoulItem(newId, drawn.value, 0);
    label drawn:
    forall i ensures old(IndexHeld(role.souls.hunted, i)) == old@drawn(IndexHeld(role.souls.hunted, i)) {
    }
    index := role.souls.AddHunted(item);
    return Done, item, index;
  }

  // ---- Storing and equipping

  method Store(role: Role, id: int) returns (outcome: Outcome)
    requires role.souls.Valid()
    modifies role.souls, role.souls.hunted.Values
    ensures role.souls.Valid() && role.souls.equipped == old(role.souls.equipped)
    ensures id !in old(role.souls.hunted) ==> outcome == Ignored
    ensures id in old(role.souls.hunted) ==>
              outcome == if forall k :: 0 <= k < BAG_CELLS ==> old(role.souls.vect)[k] != null then BagFull else Done
    ensures outcome != Done ==>
              role.souls.hunted == old(role.souls.hunted) && role.souls.bag == old(role.souls.bag)
              && role.souls.vect == old(role.souls.vect)
    ensures outcome == Done ==>
              && role.souls.hunted == old(role.souls.hunted) - {id}
              && role.souls.bag == old(role.souls.bag)[id := old(role.souls.hunted)[id]]
  {
    var souls := role.souls;
    if id !in souls.hunted {
      return Ignored;
    }
    var ok := souls.StoreSoulItem(souls.hunted[id]);
    return if ok then Done else BagFull;
  }

  method EquipSoul(role: Role, id: int, index: int) returns (outcome: Outcome)
    requires role.souls.Valid()
    modifies role.souls, role.souls.bag.Values
    ensures role.souls.Valid() && role.souls.hunted == old(role.souls.hunted)
    ensures outcome == if id in old(role.souls.bag) then Done else Ignored
    ensures outcome == Ignored ==>
              role.souls.bag == old(role.souls.bag) && role.souls.equipped == old(role.souls.equipped)
    ensures outcome == Done ==>
              && role.souls.bag == old(role.souls.bag) - {id}
              && role.souls.equipped == old(role.souls.equipped)[id := old(role.souls.bag)[id]]
              && role.souls.equipped[id].index == index
  {
    var souls := role.souls;
    if id !in souls.bag {
      return Ignored;
    }
    var soul := souls.bag[id];
    if soul.kind == Equipped {
      return Ignored;
    }
    souls.Equip(soul, index);
    return Done;
  }

  // ---- Swallowing one soul

  // What gained experience makes of a soul's template: as many steps along the chain as the level rose.
  function Promoted(t: seq<Grade>, itm: map<int, SoulTemplate>, it: SoulTemplate, before: int, after: int)
    : Option<SoulTemplate>
    requires Graded(t, it)
  {
    var g := t[it.quality];
    Chain(itm, it, LevelByExp(g, after) - LevelByExp(g, before))
  }

  // The steps of a promotion; false where a template of the chain is missing and its null pointer is read.
  method Promote(t: seq<Grade>, itm: map<int, SoulTemplate>, soul: SoulItem, oldLevel: int) returns (ok: bool)
    requires Graded(t, soul.template)
    modifies soul`template, soul`soulId
    ensures var up := Chain(itm, old(soul.template), LevelByExp(t[old(soul.template).quality], soul.exp) - oldLevel);
            && (ok <==> up.Some?)
            && soul.template == (if ok then up.value else old(soul.template))
            && (soul.soulId == old(soul.soulId) || soul.soulId == soul.template.itemId)
            && (ok && LevelByExp(t[old(soul.template).quality], soul.exp) != oldLevel ==>
                soul.soulId == soul.template.itemId)
  {
    var newLevel := LevelByExp(t[soul.template.quality], soul.exp);
    if newLevel != oldLevel {
      var delta := newLevel - oldLevel;
      var it := soul.template;
      var i := 0;
      while i < delta
        invariant i <= delta || i == 0
        invariant Chain(itm, it, delta - i) == Chain(itm, soul.template, delta)
      {
        if it.next !in itm {
          return false;
        }
        it := itm[it.next];
        i := i + 1;
      }
      soul.soulId := it.itemId;
      soul.template := it;
    }
    return true;
  }

  // One soul of the bag is consumed by another. A soul told to swallow itself is lost.
  method SwallowOne(role: Role, t: seq<Grade>, itm: map<int, SoulTemplate>, eaterId: int, foodId: int)
    returns (outcome: Outcome)
    requires role.souls.Valid() && SoundTable(t)
    requires forall id :: id in role.souls.bag ==> Graded(t, role.souls.bag[id].template)
    modifies role.souls, role.souls.bag.Values
    ensures role.souls.Valid() && role.souls.hunted == old(role.souls.hunted)
    ensures role.souls.equipped == old(role.souls.equipped)
    ensures var bag := old(role.souls.bag);
            if eaterId !in bag || foodId !in bag || old(Worth(t, role.souls.bag[foodId])).None? then
              outcome == Ignored && role.souls.bag == bag && role.souls.vect == old(role.souls.vect)
            else
              var eater, worth := bag[eaterId], old(Worth(t, role.souls.bag[foodId])).value;
              var was, oldExp := old(role.souls.bag[eaterId].template), old(role.souls.bag[eaterId].exp);
              var up := Promoted(t, itm, was, oldExp, eater.exp);
              && eater.exp == Clamp(old(role.souls.bag[eaterId].exp) + worth)
              && outcome == (if up.None? then Crash else Done)
              && (outcome == Crash ==> role.souls.bag == bag)
              && (outcome == Done ==> eater.template == up.value && role.souls.bag == bag - {foodId})
  {
    hide Placed, SameSouls, Members, Disjoint, LevelByExp, Chain, LowerBound, SoundTable, Worth;
    var souls := role.souls;
    if eaterId !in souls.bag || foodId !in souls.bag {
      return Ignored;
    }
    MembersAre(souls.bag, InBag);
    WorthIs(t, souls.bag[foodId]);
    var eater, food := souls.bag[eaterId], souls.bag[foodId];
    var toLevel := LevelByExp(t[food.template.quality], food.exp);
    if toLevel < 0 {
      return Ignored;
    }
    var info := t[food.template.quality].levels[toLevel].value;
    var oldLevel := LevelByExp(t[eater.template.quality], eater.exp);
    souls.GainExp(eater, info.swallowExp + food.exp);
    var ok := Promote(t, itm, eater, oldLevel);
    if !ok {
      return Crash;
    }
    souls.ConsumeFromBag(food);
    return Done;
  }

  // ---- Swallowing all hunted souls

  // Of the best quality, and of those the one with the least id.
  ghost predicate Best(m: map<int, SoulItem>, ids: seq<int>, soul: SoulItem)
    requires forall k :: 0 <= k < |ids| ==> ids[k] in m
    reads m.Values`template, soul`template
  {
    forall k :: 0 <= k < |ids| ==>
      var q := m[ids[k]].template.quality;
      q < soul.template.quality || (q == soul.template.quality && soul.id <= ids[k])
  }

  method PickBest(m: map<int, SoulItem>) returns (best: SoulItem)
    requires m != map[] && Keyed(m)
    ensures best.id in m && m[best.id] == best && Best(m, Ordered(m.Keys), best)
  {
    var ids := Ordered(m.Keys);
    assert |ids| == |m|;
    best := m[ids[0]];
    var j := 1;
    while j < |ids|
      invariant 1 <= j <= |ids| && best.id in m && m[best.id] == best
      invariant best.id <= ids[j - 1]
      invariant Best(m, ids[..j], best)
    {
      assert ids[..j + 1] == ids[..j] + [ids[j]];
      if m[ids[j]].template.quality > best.template.quality {
        best := m[ids[j]];
      }
      j := j + 1;
    }
    assert ids[..|ids|] == ids;
  }

  function Listed(m: map<int, SoulItem>, ids: seq<int>): (r: seq<SoulItem>)
    requires forall k :: 0 <= k < |ids| ==> ids[k] in m
    ensures |r| == |ids| && forall k :: 0 <= k < |ids| ==> r[k] == m[ids[k]]
  {
    if ids == [] then [] else [m[ids[0]]] + Listed(m, ids[1..])
  }

  ghost function Worths(t: seq<Grade>, souls: seq<SoulItem>): (r: seq<Option<int>>)
    requires SoundTable(t) && forall k :: 0 <= k < |souls| ==> Graded(t, souls[k].template)
    reads souls`template, souls`exp
    ensures |r| == |souls|
  {
    if souls == [] then [] else [Worth(t, souls[0])] + Worths(t, souls[1..])
  }

  lemma {:induction false} WorthsAre(t: seq<Grade>, souls: seq<SoulItem>)
    requires SoundTable(t) && forall k :: 0 <= k < |souls| ==> Graded(t, souls[k].template)
    ensures forall k :: 0 <= k < |souls| ==> Worths(t, souls)[k] == Worth(t, souls[k])
  {
    hide SoundTable, Worth;
    if souls != [] {
      WorthsAre(t, souls[1..]);
      forall k | 0 <= k < |souls| ensures Worths(t, souls)[k] == Worth(t, souls[k]) {
        assert k > 0 ==> souls[k] == souls[1..][k - 1];
      }
    }
  }

  // The souls are consumed in turn until one of them is past the top threshold.
  function Taken(ws: seq<Option<int>>): (r: seq<int>)
    ensures |r| <= |ws| && forall k :: 0 <= k < |r| ==> ws[k] == Some(r[k])
    ensures |r| < |ws| ==> ws[|r|] == None
  {
    if ws == [] || ws[0].None? then [] else [ws[0].value] + Taken(ws[1..])
  }

  function Absorb(exp: int, gains: seq<int>): int {
    if gains == [] then exp else Clamp(Absorb(exp, gains[..|gains| - 1]) + gains[|gains| - 1])
  }

  lemma AbsorbNothing(exp: int)
    ensures Absorb(exp, []) == exp
  {
  }

  lemma AbsorbOne(exp: int, gains: seq<int>, k: nat)
    requires k < |gains|
    ensures Absorb(exp, gains[..k + 1]) == Clamp(Absorb(exp, gains[..k]) + gains[k])
  {
    assert gains[..k + 1][..k] == gains[..k];
  }

  // Whether a running total ever falls below zero.
  predicate StaysUp(exp: int, gains: seq<int>) {
    forall k :: 0 <= k <= |gains| ==> exp + Sum(gains[..k]) >= 0
  }

  lemma StaysUpOne(exp: int, gains: seq<int>, k: nat)
    requires k < |gains|
    ensures Sum(gains[..k + 1]) == Sum(gains[..k]) + gains[k]
    ensures StaysUp(exp, gains[..k + 1]) <==> StaysUp(exp, gains[..k]) && exp + Sum(gains[..k]) + gains[k] >= 0
  {
    var a, b := gains[..k], gains[..k + 1];
    assert b == a + [gains[k]] && [gains[k]][1..] == [];
    SumConcat(a, [gains[k]]);
    forall i | 0 <= i <= k ensures b[..i] == a[..i] {
    }
    assert b[..k + 1] == b;
  }

  // Experience only moves: at any point what the survivor has and what is still to come make the same total if and
  // only if no running total before was below zero, where addExp cuts it off.
  lemma {:induction false} AbsorbConserves(exp: int, gains: seq<int>, k: nat)
    requires exp >= 0 && k <= |gains|
    ensures Absorb(exp, gains[..k]) >= 0 && Absorb(exp, gains[..k]) >= exp + Sum(gains[..k])
    ensures Absorb(exp, gains[..k]) + Sum(gains[k..]) == exp + Sum(gains) <==> StaysUp(exp, gains[..k])
    decreases k
  {
    hide StaysUp, Sum, Absorb;
    assert gains[..k] + gains[k..] == gains;
    SumConcat(gains[..k], gains[k..]);
    if k == 0 {
      AbsorbNothing(exp);
      NothingToCome();
      assert gains[..0] == [] && StaysUp(exp, []) by { NothingFalls(exp); }
    } else {
      AbsorbConserves(exp, gains, k - 1);
      AbsorbOne(exp, gains, k - 1);
      StaysUpOne(exp, gains, k - 1);
      assert gains[..k - 1] + gains[k - 1..] == gains;
      SumConcat(gains[..k - 1], gains[k - 1..]);
    }
  }

  lemma NothingFalls(exp: int)
    requires exp >= 0
    ensures StaysUp(exp, [])
  {
  }

  lemma {:induction false} GainsStayUp(exp: int, gains: seq<int>, k: nat)
    requires exp >= 0 && k <= |gains| && forall i :: 0 <= i < |gains| ==> gains[i] >= 0
    ensures StaysUp(exp, gains[..k]) && Sum(gains[..k]) >= 0
  {
    hide StaysUp, Sum;
    if k == 0 {
      NothingToCome();
      assert gains[..0] == [];
      NothingFalls(exp);
    } else {
      GainsStayUp(exp, gains, k - 1);
      StaysUpOne(exp, gains, k - 1);
    }
  }

  // No level of the table takes experience away from the one that swallows it.
  predicate NonNegativeGains(t: seq<Grade>) {
    forall q, l :: 0 <= q < |t| && 0 <= l < |t[q].levels| && t[q].levels[l].Some? ==>
      t[q].levels[l].value.swallowExp >= 0
  }

  lemma WorthIsNonNegative(t: seq<Grade>, soul: SoulItem)
    requires SoundTable(t) && Graded(t, soul.template) && soul.exp >= 0
    requires NonNegativeGains(t)
    ensures Worth(t, soul).Some? ==> Worth(t, soul).value >= 0
  {
    WorthIs(t, soul);
  }

  // A swallow-all only moves experience, so that the survivor ends with what it had and what the consumed souls were
  // worth, if and only if no running total falls below zero; and none does with a table and souls of non-negative
  // experience.
  lemma ExperienceIsConserved(t: seq<Grade>, m: map<int, SoulItem>, ids: seq<int>, exp: int)
    requires SoundTable(t) && exp >= 0 && forall k :: 0 <= k < |ids| ==> ids[k] in m && Graded(t, m[ids[k]].template)
    ensures var gains := Taken(Worths(t, Listed(m, ids)));
            && (Absorb(exp, gains) == exp + Sum(gains) <==> StaysUp(exp, gains))
            && (NonNegativeGains(t) && (forall k :: 0 <= k < |ids| ==> m[ids[k]].exp >= 0) ==> StaysUp(exp, gains))
  {
    hide SoundTable, Worth, Worths, Taken, Absorb, Sum, StaysUp, NonNegativeGains;
    var gains := Taken(Worths(t, Listed(m, ids)));
    AbsorbConserves(exp, gains, |gains|);
    assert gains[..|gains|] == gains && gains[|gains|..] == [];
    NothingToCome();
    if NonNegativeGains(t) && forall k :: 0 <= k < |ids| ==> m[ids[k]].exp >= 0 {
      WorthsAre(t, Listed(m, ids));
      forall k | 0 <= k < |gains| ensures gains[k] >= 0 {
        WorthIsNonNegative(t, m[ids[k]]);
      }
      GainsStayUp(exp, gains, |gains|);
    }
  }

  lemma NothingToCome()
    ensures Sum([]) == 0
  {
  }

  function Without(m: map<int, SoulItem>, ids: seq<int>): map<int, SoulItem> {
    m - (set id | id in ids)
  }

  lemma WithoutNone(m: map<int, SoulItem>, ids: seq<int>)
    ensures Without(m, ids[..0]) == m
  {
  }

  lemma WithoutOne(m: map<int, SoulItem>, ids: seq<int>, j: nat)
    requires j < |ids| && forall k :: 0 <= k < j ==> ids[k] != ids[j]
    ensures Without(m, ids[..j + 1]) == Without(m, ids[..j]) - {ids[j]}
    ensures ids[j] in m ==> ids[j] in Without(m, ids[..j]) && Without(m, ids[..j])[ids[j]] == m[ids[j]]
  {
    assert ids[..j + 1] == ids[..j] + [ids[j]];
  }

  lemma TakenAt(ws: seq<Option<int>>, j: nat)
    requires j < |ws| && j <= |Taken(ws)|
    ensures if ws[j].Some? then j < |Taken(ws)| && Taken(ws)[j] == ws[j].value else j == |Taken(ws)|
  {
  }

  // One turn of the loop over the souls to consume. The original reads the consumed soul's experience after freeing it.
  method DevourOne(souls: SoulsBag, t: seq<Grade>, eater: SoulItem, soul: SoulItem) returns (ok: bool)
    requires souls.Valid() && SoundTable(t) && Graded(t, soul.template) && eater != soul
    requires soul.id in souls.hunted && souls.hunted[soul.id] == soul
    modifies souls`hunted, eater`exp, soul`kind
    ensures souls.Valid() && (ok <==> old(Worth(t, soul)).Some?)
    ensures eater.exp == if ok then Clamp(old(eater.exp) + old(Worth(t, soul)).value) else old(eater.exp)
    ensures souls.hunted == if ok then old(souls.hunted) - {soul.id} else old(souls.hunted)
    ensures ok ==> soul.kind == Deleted
  {
    hide Placed, SameSouls, Members, Disjoint, LevelByExp, SoundTable, Worth;
    WorthIs(t, soul);
    var g := t[soul.template.quality];
    var level := LevelByExp(g, soul.exp);
    if level < 0 {
      return false;
    }
    var info := g.levels[level].value;
    souls.Consume(soul);
    souls.GainExp(eater, info.swallowExp + soul.exp);
    return true;
  }

  // The loop over the souls to consume.
  method Devour(souls: SoulsBag, t: seq<Grade>, eater: SoulItem, ids: seq<int>) returns (all: bool)
    requires souls.Valid() && SoundTable(t)
    requires forall k :: 0 <= k < |ids| ==>
               ids[k] in souls.hunted && souls.hunted[ids[k]] != eater && Graded(t, souls.hunted[ids[k]].template)
    requires forall i, j :: 0 <= i < j < |ids| ==> ids[i] != ids[j]
    modifies souls`hunted, eater`exp, souls.hunted.Values`kind
    ensures souls.Valid()
    ensures var gains := Taken(old(Worths(t, Listed(souls.hunted, ids))));
            && (all <==> |gains| == |ids|)
            && eater.exp == Absorb(old(eater.exp), gains)
            && souls.hunted == Without(old(souls.hunted), ids[..|gains|])
  {
    hide SoulsBag.Valid, LevelByExp, SoundTable, Worth, Worths, Listed, Taken, Without, Absorb, Keyed;
    AbsorbNothing(eater.exp);
    var hunted := souls.hunted;
    ghost var ws := Worths(t, Listed(hunted, ids));
    WorthsAre(t, Listed(hunted, ids));
    ghost var gains := Taken(ws);
    AllKeyed(souls);
    var j := 0;
    WithoutNone(hunted, ids);
    while j < |ids|
      invariant 0 <= j <= |gains| && souls.Valid() && souls.hunted == Without(hunted, ids[..j])
      invariant eater.exp == Absorb(old(eater.exp), gains[..j])
      invariant forall k :: j <= k < |ids| ==> Worth(t, hunted[ids[k]]) == ws[k]
    {
      var soul := hunted[ids[j]];
      WithoutOne(hunted, ids, j);
      KeyedAt(hunted, ids[j]);
      assert soul.id in souls.hunted && souls.hunted[soul.id] == soul;
      TakenAt(ws, j);
      var ok := DevourOne(souls, t, eater, soul);
      if !ok {
        assert gains[..j] == gains;
        return false;
      }
      AbsorbOne(old(eater.exp), gains, j);
      j := j + 1;
    }
    assert gains[..j] == gains;
    return true;
  }

  lemma AllKeyed(souls: SoulsBag)
    requires souls.Valid()
    ensures Keyed(souls.hunted)
  {
  }

  lemma AllExperienced(souls: SoulsBag)
    requires souls.Valid()
    ensures forall id :: id in souls.hunted ==> souls.hunted[id].exp >= 0
  {
  }

  // What follows the loop: the survivor is promoted, leaves the hunted souls and goes to the bag. The result of
  // storing it is not looked at, so with a full bag it ends up in no container.
  method Settle(souls: SoulsBag, t: seq<Grade>, itm: map<int, SoulTemplate>, survivor: SoulItem, oldLevel: int)
    returns (ok: bool)
    requires souls.Valid() && souls.hunted == map[survivor.id := survivor] && Graded(t, survivor.template)
    modifies souls, survivor
    ensures souls.Valid() && souls.equipped == old(souls.equipped) && survivor.exp == old(survivor.exp)
    ensures var level := LevelByExp(t[old(survivor.template).quality], survivor.exp);
            var up := Chain(itm, old(survivor.template), level - oldLevel);
            && (ok <==> up.Some?)
            && (ok ==> survivor.template == up.value && souls.hunted == map[])
            && (!ok ==> souls.hunted == old(souls.hunted))
    ensures souls.bag == if ok && !old(CellsFull(souls.vect)) then old(souls.bag)[survivor.id := survivor]
                         else old(souls.bag)
  {
    hide LevelByExp, Chain;
    ok := Promote(t, itm, survivor, oldLevel);
    if !ok {
      return;
    }
    AllExperienced(souls);
    DisjointLess(souls.hunted, souls.bag, souls.equipped, survivor.id);
    hide Placed, SameSouls, Members, Disjoint;
    souls.RemoveHuntedSoul(survivor);
    var stored := souls.StoreSoulItem(survivor);
  }

  predicate CellsFull(vect: seq<SoulItem?>) {
    |vect| == BAG_CELLS && forall k :: 0 <= k < BAG_CELLS ==> vect[k] != null
  }

  // A soul consumes the hunted souls of the given ids, all others than itself, and is then promoted and stored.
  method Gorge(souls: SoulsBag, t: seq<Grade>, itm: map<int, SoulTemplate>, best: SoulItem, ids: seq<int>)
    returns (outcome: Outcome)
    requires souls.Valid() && SoundTable(t) && best.id in souls.hunted && souls.hunted[best.id] == best
    requires Graded(t, best.template) && Without(souls.hunted, ids) == map[best.id := best]
    requires forall k :: 0 <= k < |ids| ==>
               ids[k] in souls.hunted && souls.hunted[ids[k]] != best && Graded(t, souls.hunted[ids[k]].template)
    requires forall i, j :: 0 <= i < j < |ids| ==> ids[i] != ids[j]
    modifies souls, best, souls.hunted.Values`kind
    ensures souls.Valid() && souls.equipped == old(souls.equipped)
    ensures var gains := Taken(old(Worths(t, Listed(souls.hunted, ids))));
            && best.exp == Absorb(old(best.exp), gains)
            && (best.exp == old(best.exp) + Sum(gains) <==> StaysUp(old(best.exp), gains))
            && (NonNegativeGains(t) ==> best.exp == old(best.exp) + Sum(gains))
            && if |gains| < |ids| then
                 && outcome == Ignored && souls.bag == old(souls.bag)
                 && souls.hunted == Without(old(souls.hunted), ids[..|gains|])
               else
                 var up := Promoted(t, itm, old(best.template), old(best.exp), best.exp);
                 if up.None? then
                   outcome == Crash && souls.bag == old(souls.bag) && souls.hunted == map[best.id := best]
                 else
                   && outcome == Done && souls.hunted == map[] && best.template == up.value
                   && souls.bag == if old(CellsFull(souls.vect)) then old(souls.bag)
                                   else old(souls.bag)[best.id := best]
  {
    hide SoulsBag.Valid, LevelByExp, SoundTable, Worth, Worths, Listed, Taken, Chain, Absorb, CellsFull, Without, Keyed;
    hide StaysUp, Sum, NonNegativeGains;
    var oldLevel := LevelByExp(t[best.template.quality], best.exp);
    AllExperienced(souls);
    assert souls.hunted[best.id].exp >= 0;
    forall k | 0 <= k < |ids| ensures souls.hunted[ids[k]].exp >= 0 {
      var id := ids[k];
      assert id in souls.hunted && souls.hunted[id].exp >= 0;
    }
    ExperienceIsConserved(t, souls.hunted, ids, best.exp);
    var all := Devour(souls, t, best, ids);
    if !all {
      return Ignored;
    }
    assert ids[..|ids|] == ids;
    var ok := Settle(souls, t, itm, best, oldLevel);
    outcome := if ok then Done else Crash;
  }

  // The best hunted soul consumes the others in turn, up to one past its top threshold, where the request ends.
  // A completed request leaves no soul hunted and, unless the bag is full, the survivor in the bag.
  method SwallowAll(role: Role, t: seq<Grade>, itm: map<int, SoulTemplate>) returns (outcome: Outcome, bestId: int)
    requires role.souls.Valid() && SoundTable(t)
    requires forall id :: id in role.souls.hunted ==> Graded(t, role.souls.hunted[id].template)
    modifies role.souls, role.souls.hunted.Values
    ensures role.souls.Valid() && role.souls.equipped == old(role.souls.equipped)
    ensures old(role.souls.hunted) == map[] ==>
              outcome == Ignored && role.souls.hunted == map[] && role.souls.bag == old(role.souls.bag)
    ensures old(role.souls.hunted) != map[] ==>
              var hunted := old(role.souls.hunted);
              && bestId in hunted
              && old(Best(role.souls.hunted, Ordered(role.souls.hunted.Keys), role.souls.hunted[bestId]))
              && var ids := Ordered(hunted.Keys - {bestId});
                 var gains := Taken(old(Worths(t, Listed(role.souls.hunted, ids))));
                 var best := hunted[bestId];
                 var oldTemplate, oldExp := old(role.souls.hunted[bestId].template), old(role.souls.hunted[bestId].exp);
                 && best.exp == Absorb(oldExp, gains)
                 && (best.exp == oldExp + Sum(gains) <==> StaysUp(oldExp, gains))
                 && (NonNegativeGains(t) ==> best.exp == oldExp + Sum(gains))
                 && if |gains| < |ids| then
                      && outcome == Ignored && role.souls.bag == old(role.souls.bag)
                      && role.souls.hunted == Without(hunted, ids[..|gains|])
                    else
                      var up := Promoted(t, itm, oldTemplate, oldExp, best.exp);
                      if up.None? then
                        && outcome == Crash && role.souls.bag == old(role.souls.bag)
                        && role.souls.hunted == map[bestId := best]
                      else
                        && outcome == Done && role.souls.hunted == map[] && best.template == up.value
                        && role.souls.bag == if old(CellsFull(role.souls.vect)) then old(role.souls.bag)
                                             else old(role.souls.bag)[bestId := best]
  {
    hide SoulsBag.Valid, LevelByExp, SoundTable, Worth, Worths, Listed, Taken, Chain, Best, Absorb, Ordered, CellsFull;
    hide Without, Keyed, NonNegativeGains, Sum, StaysUp, Promoted;
    var souls := role.souls;
    var hunted := souls.hunted;
    if hunted == map[] {
      return Ignored, 0;
    }
    AllKeyed(souls);
    var best := PickBest(hunted);
    bestId := best.id;
    var ids := Ordered(hunted.Keys - {bestId});
    AllButOne(hunted, bestId);
    OthersAre(hunted, best, ids);
    outcome := Gorge(souls, t, itm, best, ids);
  }

  lemma OthersAre(m: map<int, SoulItem>, best: SoulItem, ids: seq<int>)
    requires Keyed(m) && forall k :: 0 <= k < |ids| ==> ids[k] in m && ids[k] != best.id
    ensures forall k :: 0 <= k < |ids| ==> m[ids[k]] != best
  {
    forall k | 0 <= k < |ids| ensures m[ids[k]] != best {
      assert m[ids[k]].id == ids[k];
    }
  }

  lemma AllButOne(m: map<int, SoulItem>, id: int)
    requires id in m
    ensures Without(m, Ordered(m.Keys - {id})) == map[id := m[id]]
  {
    var ids := Ordered(m.Keys - {id});
    forall k | k in m && k != id ensures k in ids {
      OrderedHas(m.Keys - {id}, k);
    }
  }
}

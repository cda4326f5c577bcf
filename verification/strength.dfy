// Strengthening an item: the table of prices by quality and level, one step of it, and the request.
module Strength {
  import opened Wrappers
  import opened Sums

  // ---- The price table

  datatype Row = Row(quality: int, level: nat, money: int)

  type Prices = map<int, seq<int>>

  // One more than the highest level among the rows of a quality; 0 without rows.
  function Size(rows: seq<Row>, quality: int): nat {
    if rows == [] then 0
    else
      var last, before := rows[|rows| - 1], Size(rows[..|rows| - 1], quality);
      if last.quality == quality && last.level >= before then last.level + 1 else before
  }

  // The last row for a place sets its price; a level that was skipped costs nothing.
  function Price(rows: seq<Row>, quality: int, level: int): int {
    if rows == [] then 0
    else
      var last := rows[|rows| - 1];
      if last.quality == quality && last.level == level then last.money else Price(rows[..|rows| - 1], quality, level)
  }

  lemma {:induction false} NoPriceBeyond(rows: seq<Row>, quality: int, level: int)
    requires level >= Size(rows, quality)
    ensures Price(rows, quality, level) == 0
  {
    if rows != [] {
      NoPriceBeyond(rows[..|rows| - 1], quality, level);
    }
  }

  // The price of a place is that of the last row for it, ...
  lemma {:induction false} PriceIsLast(rows: seq<Row>, i: nat)
    requires i < |rows| && forall j :: i < j < |rows| ==>
               rows[j].quality != rows[i].quality || rows[j].level != rows[i].level
    ensures Price(rows, rows[i].quality, rows[i].level) == rows[i].money
  {
    var n := |rows| - 1;
    if i < n {
      assert rows[..n][i] == rows[i];
      PriceIsLast(rows[..n], i);
    }
  }

  // ... or zero without one.
  lemma {:induction false} NoPrice(rows: seq<Row>, quality: int, level: int)
    requires forall i :: 0 <= i < |rows| ==> rows[i].quality != quality || rows[i].level != level
    ensures Price(rows, quality, level) == 0
  {
    if rows != [] {
      NoPrice(rows[..|rows| - 1], quality, level);
    }
  }

  // A quality has one more level than the highest in its rows, and none without a row.
  lemma {:induction false} SizeIsHighest(rows: seq<Row>, quality: int)
    ensures forall i :: 0 <= i < |rows| && rows[i].quality == quality ==> rows[i].level < Size(rows, quality)
    ensures Size(rows, quality) > 0 ==>
              exists i :: 0 <= i < |rows| && rows[i].quality == quality && rows[i].level + 1 == Size(rows, quality)
  {
    if rows != [] {
      var n := |rows| - 1;
      SizeIsHighest(rows[..n], quality);
      if Size(rows, quality) == Size(rows[..n], quality) > 0 {
        var i :| 0 <= i < n && rows[..n][i].quality == quality && rows[..n][i].level + 1 == Size(rows, quality);
        assert rows[i].quality == quality && rows[i].level + 1 == Size(rows, quality);
      }
    }
  }

  method Load(rows: seq<Row>) returns (t: Prices)
    ensures forall q :: q in t <==> Size(rows, q) > 0
    ensures forall q :: q in t ==>
              |t[q]| == Size(rows, q) && forall l :: 0 <= l < |t[q]| ==> t[q][l] == Price(rows, q, l)
  {
    t := map[];
    var i := 0;
    while i < |rows|
      invariant 0 <= i <= |rows|
      invariant forall q :: q in t <==> Size(rows[..i], q) > 0
      invariant forall q :: q in t ==>
        |t[q]| == Size(rows[..i], q) && forall l :: 0 <= l < |t[q]| ==> t[q][l] == Price(rows[..i], q, l)
    {
      var row := rows[i];
      assert rows[..i + 1][..i] == rows[..i];
      forall l | l >= Size(rows[..i], row.quality) ensures Price(rows[..i], row.quality, l) == 0 {
        NoPriceBeyond(rows[..i], row.quality, l);
      }
      var vect := if row.quality in t then t[row.quality] else [];
      if |vect| <= row.level {
        vect := vect + seq(row.level + 1 - |vect|, _ => 0);
      }
      t := t[row.quality := vect[row.level := row.money]];
      i := i + 1;
    }
    assert rows[..|rows|] == rows;
  }

  // ---- One step

  datatype Place = Place(quality: int, level: int)

  predicate Less(a: Place, b: Place) {
    a.quality < b.quality || (a.quality == b.quality && a.level < b.level)
  }

  // The places the table can lead to.
  predicate IsPlace(t: Prices, p: Place) {
    p.quality in t && 1 <= p.level < |t[p.quality]|
  }

  // getStrengthEquipMoney: the price, -1 for none, and the place its reference parameters are left at.
  method GetStrengthEquipMoney(t: Prices, quality: int, level: int) returns (money: int, q: int, l: int)
    requires level >= 0
    ensures (money, Place(q, l)) == Step(t, Place(quality, level))
  {
    q, l := quality, level;
    if q == 0 {
      q := 1;
      l := 1;
    }
    if q !in t {
      return -1, q, l;
    }
    if l + 1 >= |t[q]| {
      l := 1;
      q := q + 1;
      if q !in t {
        return -1, q, l;
      }
      return if |t[q]| > 1 then t[q][1] else -1, q, l;
    }
    l := l + 1;
    return t[q][l], q, l;
  }

  // A white item without quality counts as the first place.
  function Start(p: Place): Place {
    if p.quality == 0 then Place(1, 1) else p
  }

  function Step(t: Prices, p: Place): (int, Place)
    requires p.level >= 0
  {
    var s := Start(p);
    var up, over := Place(s.quality, s.level + 1), Place(s.quality + 1, 1);
    if s.quality !in t then (-1, s)
    else if IsPlace(t, up) then (t[up.quality][up.level], up)
    else (if IsPlace(t, over) then t[over.quality][1] else -1, over)
  }

  predicate Rises(t: Prices, p: Place)
    requires p.level >= 0
  {
    Step(t, p).0 != -1
  }

  // The least place above p.
  ghost predicate Successor(t: Prices, p: Place, s: Place) {
    IsPlace(t, s) && Less(p, s) && forall r :: IsPlace(t, r) && Less(p, r) ==> s == r || Less(s, r)
  }

  // A step leads to the least place above, and it succeeds exactly when the table has the quality, that place is at
  // most one quality up, and its price is not -1.
  lemma StepIsSuccessor(t: Prices, p: Place)
    requires p.level >= 0
    ensures Rises(t, p) ==>
              var (money, s) := Step(t, p);
              Successor(t, Start(p), s) && money == t[s.quality][s.level]
    ensures Rises(t, p) <==>
              && Start(p).quality in t
              && exists s :: Successor(t, Start(p), s) && s.quality <= Start(p).quality + 1
                  && t[s.quality][s.level] != -1
  {
    var a := Start(p);
    var (money, s) := Step(t, p);
    if a.quality in t && IsPlace(t, s) {
      assert Successor(t, a, s);
    }
    if a.quality in t {
      forall r | Successor(t, a, r) && r.quality <= a.quality + 1 ensures r == s && IsPlace(t, s) {
        assert IsPlace(t, Place(r.quality, 1));
        assert Less(a, Place(r.quality, 1)) || r.quality == a.quality;
        assert r.quality == a.quality ==> IsPlace(t, Place(a.quality, a.level + 1));
      }
    }
  }

  lemma StepRises(t: Prices, p: Place)
    requires p.level >= 0 && p.quality >= 0 && Rises(t, p)
    ensures Less(p, Step(t, p).1) && Less(Start(p), Step(t, p).1) && IsPlace(t, Step(t, p).1)
    ensures Step(t, p).1.quality >= 1
  {
  }

  // ---- Paths

  // The price of n steps and where they lead; None when one of them fails.
  function Path(t: Prices, p: Place, n: nat): (r: Option<(int, Place)>)
    requires p.level >= 0
    ensures r.Some? ==> r.value.1.level >= 0
  {
    if n == 0 then Some((0, p))
    else
      match Path(t, p, n - 1)
      case None => None
      case Some((money, q)) =>
        if !Rises(t, q) then None else Some((money + Step(t, q).0, Step(t, q).1))
  }

  ghost function Above(t: Prices, p: Place): (r: set<Place>) {
    set q, l | q in t && 0 <= l < |t[q]| && l >= 1 && Less(p, Place(q, l)) :: Place(q, l)
  }

  lemma InAbove(t: Prices, p: Place, r: Place)
    ensures r in Above(t, p) <==> IsPlace(t, r) && Less(p, r)
  {
    assert r == Place(r.quality, r.level);
  }

  // Every step uses up exactly one of the places above.
  lemma StepUsesPlaces(t: Prices, p: Place)
    requires p.level >= 0 && p.quality >= 0 && Rises(t, p)
    ensures |Above(t, Step(t, p).1)| + 1 == |Above(t, Start(p))|
  {
    hide Above, Step;
    StepIsSuccessor(t, p);
    var s := Step(t, p).1;
    forall r ensures r in Above(t, Start(p)) <==> r in Above(t, s) || r == s {
      InAbove(t, Start(p), r);
      InAbove(t, s, r);
    }
    InAbove(t, s, s);
    assert Above(t, Start(p)) == Above(t, s) + {s};
  }

  // n steps lead to the n-th place above the start, and a finite table is exhausted: no path is longer than the number
  // of those places.
  lemma {:induction false} PathsEnd(t: Prices, p: Place, n: nat)
    requires p.level >= 0 && p.quality >= 0 && Path(t, p, n).Some?
    ensures var q := Path(t, p, n).value.1;
            && q.quality >= 0
            && (n > 0 ==> Less(p, q) && IsPlace(t, q) && q.quality >= 1 && n + |Above(t, q)| == |Above(t, Start(p))|)
  {
    if n > 0 {
      PathsEnd(t, p, n - 1);
      var q := Path(t, p, n - 1).value.1;
      StepUsesPlaces(t, q);
      StepRises(t, q);
    }
  }

  // ---- Climbs: a path without its functions

  // One place can be reached from another: it is the least place above, at most one quality up, and it has a price.
  ghost predicate Reachable(t: Prices, a: Place, s: Place) {
    a.quality in t && Successor(t, a, s) && s.quality <= a.quality + 1 && t[s.quality][s.level] != -1
  }

  function Before(p: Place, places: seq<Place>, k: nat): Place
    requires k <= |places|
  {
    if k == 0 then Start(p) else places[k - 1]
  }

  // Each place is reached from the one before.
  ghost predicate Climbs(t: Prices, p: Place, places: seq<Place>) {
    forall k :: 0 <= k < |places| ==> Reachable(t, Before(p, places, k), places[k])
  }

  function Fee(t: Prices, r: Place): int {
    if IsPlace(t, r) then t[r.quality][r.level] else 0
  }

  function Fees(t: Prices, places: seq<Place>): (r: seq<int>)
    ensures |r| == |places| && forall k :: 0 <= k < |r| ==> r[k] == Fee(t, places[k])
  {
    seq(|places|, k requires 0 <= k < |places| => Fee(t, places[k]))
  }

  lemma FeesSnoc(t: Prices, places: seq<Place>, s: Place)
    ensures Sum(Fees(t, places + [s])) == Sum(Fees(t, places)) + Fee(t, s)
  {
    assert Fees(t, places + [s]) == Fees(t, places) + [Fee(t, s)];
    SumConcat(Fees(t, places), [Fee(t, s)]);
    assert [Fee(t, s)][1..] == [];
  }

  lemma OneSuccessor(t: Prices, a: Place, r: Place, s: Place)
    requires Successor(t, a, r) && Successor(t, a, s)
    ensures r == s
  {
  }

  // A step succeeds exactly when there is a place to reach, and leads there for its price.
  lemma StepReaches(t: Prices, p: Place, s: Place)
    requires p.level >= 0
    ensures Reachable(t, Start(p), s) <==> Rises(t, p) && Step(t, p).1 == s
    ensures Rises(t, p) ==> Step(t, p).0 == Fee(t, Step(t, p).1)
  {
    hide Successor, Step;
    StepIsSuccessor(t, p);
    if Reachable(t, Start(p), s) {
      OneSuccessor(t, Start(p), s, Step(t, p).1);
    }
    if Rises(t, p) {
      SuccessorIsPlace(t, Start(p), Step(t, p).1);
      var r :| Successor(t, Start(p), r) && r.quality <= Start(p).quality + 1;
      OneSuccessor(t, Start(p), r, Step(t, p).1);
    }
  }

  lemma SuccessorIsPlace(t: Prices, a: Place, s: Place)
    requires Successor(t, a, s)
    ensures IsPlace(t, s) && Less(a, s)
  {
  }

  lemma ClimbsOneMore(t: Prices, p: Place, places: seq<Place>, s: Place)
    requires Climbs(t, p, places)
    ensures Climbs(t, p, places + [s]) <==> Reachable(t, Before(p, places, |places|), s)
  {
    hide Reachable;
    var all := places + [s];
    forall k | 0 <= k < |places| ensures Before(p, all, k) == Before(p, places, k) && all[k] == places[k] {
    }
    assert Before(p, all, |places|) == Before(p, places, |places|) && all[|places|] == s;
  }

  lemma ClimbsBefore(t: Prices, p: Place, places: seq<Place>, k: nat)
    requires Climbs(t, p, places) && k <= |places|
    ensures Climbs(t, p, places[..k])
  {
    hide Reachable;
    forall j | 0 <= j < k ensures Reachable(t, Before(p, places[..k], j), places[..k][j]) {
      assert Before(p, places[..k], j) == Before(p, places, j);
    }
  }

  // What a climb of n places costs and where it ends is what the path of n steps says, ...
  lemma {:induction false} PathOfClimb(t: Prices, p: Place, places: seq<Place>)
    requires p.level >= 0 && p.quality >= 0 && Climbs(t, p, places)
    ensures Path(t, p, |places|)
         == Some((Sum(Fees(t, places)), if places == [] then p else places[|places| - 1]))
    decreases |places|
  {
    hide Climbs, Step, Reachable, Fees, Sum;
    var n := |places|;
    if n == 0 {
      NothingToPay(t);
      assert places == [];
    } else {
      var first, last := places[..n - 1], places[n - 1];
      ClimbsBefore(t, p, places, n - 1);
      assert places == first + [last];
      ClimbsOneMore(t, p, first, last);
      PathOfClimb(t, p, first);
      var q := Path(t, p, n - 1).value.1;
      PathsEnd(t, p, n - 1);
      assert Start(q) == Before(p, first, n - 1);
      StepReaches(t, q, last);
      FeesSnoc(t, first, last);
    }
  }

  lemma NothingToPay(t: Prices)
    ensures Sum(Fees(t, [])) == 0
  {
  }

  // ... and there is a climb of n places whenever there is a path.
  lemma {:induction false} ClimbOfPath(t: Prices, p: Place, n: nat) returns (places: seq<Place>)
    requires p.level >= 0 && p.quality >= 0 && Path(t, p, n).Some?
    ensures |places| == n && Climbs(t, p, places)
    ensures Path(t, p, n).value == (Sum(Fees(t, places)), if n == 0 then p else places[n - 1])
  {
    hide Step, Reachable, Fees, Sum;
    if n == 0 {
      places := [];
      NothingToPay(t);
    } else {
      var first := ClimbOfPath(t, p, n - 1);
      var q := Path(t, p, n - 1).value.1;
      PathsEnd(t, p, n - 1);
      assert Start(q) == Before(p, first, n - 1);
      StepReaches(t, q, Step(t, q).1);
      ClimbsOneMore(t, p, first, Step(t, q).1);
      FeesSnoc(t, first, Step(t, q).1);
      places := first + [Step(t, q).1];
    }
  }

  // A climb rises, ...
  lemma {:induction false} ClimbRises(t: Prices, p: Place, places: seq<Place>, i: nat, j: nat)
    requires Climbs(t, p, places) && i < j <= |places|
    ensures Less(Before(p, places, i), Before(p, places, j))
    decreases j
  {
    hide Less, Successor;
    var k := j - 1;
    assert Reachable(t, Before(p, places, k), places[k]);
    SuccessorIsPlace(t, Before(p, places, k), places[k]);
    if i < k {
      ClimbRises(t, p, places, i, k);
      LessTwice(Before(p, places, i), Before(p, places, k), places[k]);
    }
  }

  // ... and passes all places above its start and not above its end.
  lemma {:induction false} ClimbIsAll(t: Prices, p: Place, places: seq<Place>, r: Place)
    requires Climbs(t, p, places) && places != []
    ensures r in places <==> IsPlace(t, r) && Less(Start(p), r) && !Less(places[|places| - 1], r)
    decreases |places|
  {
    hide IsPlace, Start, Less, Successor, Climbs;
    var n := |places| - 1;
    var first, last := places[..n], places[n];
    LastIsReached(t, p, places);
    ClimbsBefore(t, p, places, n);
    assert places == first + [last];
    if n > 0 {
      ClimbIsAll(t, p, first, r);
      ClimbRises(t, p, places, 0, n);
      ClimbRises(t, p, places, 0, n + 1);
    }
    OneFurther(t, Start(p), Before(p, places, n), last, r);
  }

  lemma LastIsReached(t: Prices, p: Place, places: seq<Place>)
    requires Climbs(t, p, places) && places != []
    ensures Successor(t, Before(p, places, |places| - 1), places[|places| - 1])
  {
  }

  lemma LessTwice(a: Place, b: Place, c: Place)
    requires Less(a, b) && Less(b, c)
    ensures Less(a, c)
  {
  }

  lemma OneFurther(t: Prices, start: Place, a: Place, s: Place, r: Place)
    requires Successor(t, a, s) && (a == start || Less(start, a))
    ensures IsPlace(t, r) && Less(start, r) && !Less(s, r)
       <==> r == s || (IsPlace(t, r) && Less(start, r) && !Less(a, r))
  {
  }

  // ---- The request

  datatype ItemTemplate = ItemTemplate(itemId: int, next: int)

  type Templates = map<int, ItemTemplate>

  // The n-th template along the chain of next levels; the given one for n = 0.
  function Follow(items: Templates, it: ItemTemplate, n: nat): Option<ItemTemplate> {
    if n == 0 then Some(it)
    else
      match Follow(items, it, n - 1)
      case None => None
      case Some(prev) => if prev.next in items then Some(items[prev.next]) else None
  }

  // Crash: no step is made, and the missing new template is read.
  datatype Outcome = Done | Fail | LevelTooHigh | NotEnoughMoney | Ignored | Crash

  // How the n-th step of a request fares; checked in this order.
  function Check(t: Prices, items: Templates, p: Place, it: ItemTemplate, money: int, roleLevel: int, n: nat): Outcome
    requires p.level >= 0
  {
    match Path(t, p, n)
    case None => Fail
    case Some((need, q)) =>
      if q.level > roleLevel then LevelTooHigh
      else if money < need then NotEnoughMoney
      else if Follow(items, it, n).None? then Ignored
      else Done
  }

  // The first failing step of a request, if one fails.
  ghost predicate FailsFirst(
    t: Prices, items: Templates, p: Place, it: ItemTemplate, money: int, roleLevel: int, count: int, outcome: Outcome)
    requires p.level >= 0
  {
    exists n :: 1 <= n <= count && Check(t, items, p, it, money, roleLevel, n) == outcome
      && forall k :: 1 <= k < n ==> Check(t, items, p, it, money, roleLevel, k) == Done
  }

  // ---- A request without its functions

  // Each template is the next level of the one before.
  predicate Chained(items: Templates, it: ItemTemplate, chain: seq<ItemTemplate>) {
    forall k :: 0 <= k < |chain| ==>
      Previous(it, chain, k).next in items && chain[k] == items[Previous(it, chain, k).next]
  }

  function Previous(it: ItemTemplate, chain: seq<ItemTemplate>, k: nat): ItemTemplate
    requires k <= |chain|
  {
    if k == 0 then it else chain[k - 1]
  }

  // A role of that level and money gets as far as the places climbed and the templates taken.
  ghost predicate Reaches(t: Prices, items: Templates, p: Place, it: ItemTemplate, money: int, roleLevel: int,
                          places: seq<Place>, chain: seq<ItemTemplate>)
  {
    && Climbs(t, p, places) && Chained(items, it, chain) && |chain| == |places|
    && forall k :: 0 <= k < |places| ==> Affords(t, money, roleLevel, places, k)
  }

  predicate Affords(t: Prices, money: int, roleLevel: int, places: seq<Place>, k: nat)
    requires k < |places|
  {
    places[k].level <= roleLevel && Sum(Fees(t, places[..k + 1])) <= money
  }

  // Why it gets no further.
  ghost predicate Stops(t: Prices, items: Templates, p: Place, it: ItemTemplate, money: int, roleLevel: int,
                        places: seq<Place>, chain: seq<ItemTemplate>, outcome: Outcome)
  {
    var a, last := Before(p, places, |places|), Previous(it, chain, |chain|);
    match outcome
    case Fail => forall s :: !Reachable(t, a, s)
    case LevelTooHigh => exists s :: Reachable(t, a, s) && s.level > roleLevel
    case NotEnoughMoney =>
      exists s :: Reachable(t, a, s) && s.level <= roleLevel && Sum(Fees(t, places)) + Fee(t, s) > money
    case Ignored =>
      && last.next !in items
      && exists s :: Reachable(t, a, s) && s.level <= roleLevel && Sum(Fees(t, places)) + Fee(t, s) <= money
    case _ => false
  }

  lemma {:induction false} FollowIsChained(items: Templates, it: ItemTemplate, n: nat)
    returns (chain: seq<ItemTemplate>)
    requires Follow(items, it, n).Some?
    ensures |chain| == n && Chained(items, it, chain)
    ensures Follow(items, it, n).value == if n == 0 then it else chain[n - 1]
  {
    if n == 0 {
      chain := [];
    } else {
      var first := FollowIsChained(items, it, n - 1);
      chain := first + [Follow(items, it, n).value];
      forall k | 0 <= k < n
        ensures Previous(it, chain, k).next in items && chain[k] == items[Previous(it, chain, k).next]
      {
        assert Previous(it, chain, k) == Previous(it, first, k) && (k < n - 1 ==> chain[k] == first[k]);
      }
    }
  }

  // If n steps pass their checks, the role gets as far as n places; and the outcome of the next step says why no
  // further.
  lemma StepsTell(t: Prices, items: Templates, p: Place, it: ItemTemplate, money: int, roleLevel: int, n: nat)
    returns (places: seq<Place>, chain: seq<ItemTemplate>)
    requires p.level >= 0 && p.quality >= 0
    requires forall k :: 1 <= k <= n ==> Check(t, items, p, it, money, roleLevel, k) == Done
    ensures |places| == n && Reaches(t, items, p, it, money, roleLevel, places, chain)
    ensures Path(t, p, n) == Some((Sum(Fees(t, places)), if n == 0 then p else places[n - 1]))
    ensures Follow(items, it, n) == Some(if n == 0 then it else chain[n - 1])
    ensures var next := Check(t, items, p, it, money, roleLevel, n + 1);
            next != Done ==> Stops(t, items, p, it, money, roleLevel, places, chain, next)
  {
    hide Climbs, Fees, Sum, Step, Reachable, Chained;
    if n > 0 {
      assert Check(t, items, p, it, money, roleLevel, n) == Done;
    }
    places := ClimbOfPath(t, p, n);
    chain := FollowIsChained(items, it, n);
    forall k | 0 <= k < n ensures Affords(t, money, roleLevel, places, k) {
      assert Check(t, items, p, it, money, roleLevel, k + 1) == Done;
      ClimbsBefore(t, p, places, k + 1);
      PathOfClimb(t, p, places[..k + 1]);
      assert places[..k + 1][k] == places[k];
      assert Path(t, p, k + 1) == Some((Sum(Fees(t, places[..k + 1])), places[k]));
    }
    NextTells(t, items, p, it, money, roleLevel, places, chain);
  }

  lemma NextTells(t: Prices, items: Templates, p: Place, it: ItemTemplate, money: int, roleLevel: int,
                  places: seq<Place>, chain: seq<ItemTemplate>)
    requires p.level >= 0 && p.quality >= 0 && Climbs(t, p, places)
    requires var n := |places|;
             && |chain| == n && Path(t, p, n) == Some((Sum(Fees(t, places)), if n == 0 then p else places[n - 1]))
             && Follow(items, it, n) == Some(if n == 0 then it else chain[n - 1])
    ensures var next := Check(t, items, p, it, money, roleLevel, |places| + 1);
            next != Done ==> Stops(t, items, p, it, money, roleLevel, places, chain, next)
  {
    hide Climbs, Fees, Sum, Step, Reachable;
    var n := |places|;
    var q := Path(t, p, n).value.1;
    PathsEnd(t, p, n);
    assert Start(q) == Before(p, places, n);
    var s := Step(t, q).1;
    forall r ensures Reachable(t, Start(q), r) <==> Rises(t, q) && s == r {
      StepReaches(t, q, r);
    }
    StepReaches(t, q, s);
  }

  lemma FirstFailureTells(t: Prices, items: Templates, p: Place, it: ItemTemplate, money: int, roleLevel: int,
                          count: int, outcome: Outcome)
    requires p.level >= 0 && outcome != Done && FailsFirst(t, items, p, it, money, roleLevel, count, outcome)
    ensures p.quality >= 0 ==>
              exists places, chain :: Reaches(t, items, p, it, money, roleLevel, places, chain) && |places| < count
                && Stops(t, items, p, it, money, roleLevel, places, chain, outcome)
  {
    hide Reaches, Stops, Check;
    var n :| 1 <= n <= count && Check(t, items, p, it, money, roleLevel, n) == outcome
      && forall k :: 1 <= k < n ==> Check(t, items, p, it, money, roleLevel, k) == Done;
    if p.quality >= 0 {
      var places, chain := StepsTell(t, items, p, it, money, roleLevel, n - 1);
      assert Reaches(t, items, p, it, money, roleLevel, places, chain);
    }
  }

  class Role {
    var money: int
    var level: int
    var items: map<int, Item>

    constructor (money: int, level: int, items: map<int, Item>)
      ensures this.money == money && this.level == level && this.items == items
    {
      this.money, this.level, this.items := money, level, items;
    }
  }

  class Item {
    var quality: int
    var level: int
    var itemId: int
    var template: ItemTemplate

    constructor (template: ItemTemplate, quality: int, level: int)
      ensures this.template == template && this.quality == quality && this.level == level && itemId == template.itemId
    {
      this.template, this.quality, this.level, this.itemId := template, quality, level, template.itemId;
    }
  }

  // The loop: the steps of the request, without their effect.
  method Quote(t: Prices, items: Templates, p: Place, it: ItemTemplate, money: int, roleLevel: int, count: int)
    returns (outcome: Outcome, need: int, q: Place, last: Option<ItemTemplate>)
    requires p.level >= 0
    ensures outcome == Done <==> forall n :: 1 <= n <= count ==> Check(t, items, p, it, money, roleLevel, n) == Done
    ensures outcome != Done ==> FailsFirst(t, items, p, it, money, roleLevel, count, outcome)
    ensures outcome == Done ==>
              if count <= 0 then need == 0 && q == p && last == None
              else Path(t, p, count) == Some((need, q)) && last == Follow(items, it, count) && last.Some?
  {
    hide Step;
    last := None;
    var nextId, quality, level := it.next, p.quality, p.level;
    need, q := 0, p;
    var i := 0;
    while i < count
      invariant 0 <= i && (i <= count || i == 0) && level >= 0
      invariant Path(t, p, i) == Some((need, Place(quality, level)))
      invariant if i == 0 then last.None? && nextId == it.next && need == 0 && Place(quality, level) == p
                else last.Some? && last == Follow(items, it, i) && nextId == last.value.next
      invariant forall n :: 1 <= n <= i ==> Check(t, items, p, it, money, roleLevel, n) == Done
    {
      assert Follow(items, it, i).Some? && Follow(items, it, i).value.next == nextId;
      var equipMoney;
      equipMoney, quality, level := GetStrengthEquipMoney(t, quality, level);
      ghost var checked := Check(t, items, p, it, money, roleLevel, i + 1);
      if equipMoney == -1 {
        assert checked == Fail;
        return Fail, need, q, last;
      }
      assert Path(t, p, i + 1) == Some((need + equipMoney, Place(quality, level)));
      if level > roleLevel {
        assert checked == LevelTooHigh;
        return LevelTooHigh, need, q, last;
      }
      need := need + equipMoney;
      if money < need {
        assert checked == NotEnoughMoney;
        return NotEnoughMoney, need, q, last;
      }
      if nextId !in items {
        assert checked == Ignored;
        return Ignored, need, q, last;
      }
      last := Some(items[nextId]);
      nextId := items[nextId].next;
      assert checked == Done;
      i := i + 1;
    }
    return Done, need, Place(quality, level), last;
  }

  // All or nothing. The first step that fails decides the outcome and nothing changes; when all succeed, exactly the
  // price of the path is paid, which the role can afford, and the item is at the count-th place above its start.
  method StrengthItem(t: Prices, items: Templates, role: Role, id: int, count: int) returns (outcome: Outcome)
    requires id in role.items ==> role.items[id].level >= 0
    modifies role, role.items.Values
    ensures id !in old(role.items) ==> outcome == Ignored
    ensures role.items == old(role.items) && role.level == old(role.level)
    ensures outcome != Done ==> role.money == old(role.money)
    ensures id in old(role.items) ==>
              var item := old(role.items)[id];
              var p, it := Place(old(role.items[id].quality), old(role.items[id].level)), old(role.items[id].template);
              && (count <= 0 ==> outcome == Crash)
              && (outcome != Done ==>
                    Place(item.quality, item.level) == p && item.template == it
                        && item.itemId == old(role.items[id].itemId))
              && (outcome == Done <==>
                    count >= 1 && forall n :: 1 <= n <= count ==>
                      Check(t, items, p, it, old(role.money), old(role.level), n) == Done)
              && (outcome != Done && count >= 1 ==>
                    FailsFirst(t, items, p, it, old(role.money), old(role.level), count, outcome))
              && (outcome == Done ==>
                    && Path(t, p, count).Some?
                    && var (need, q) := Path(t, p, count).value;
                    && role.money == old(role.money) - need >= 0
                    && (p.quality >= 0 ==> Less(p, q) && IsPlace(t, q) && count + |Above(t, q)| == |Above(t, Start(p))|)
                    && Place(item.quality, item.level) == q
                    && Some(item.template) == Follow(items, it, count) && item.itemId == item.template.itemId)
              && (p.quality >= 0 && count >= 1 ==> exists places, chain ::
                    && Reaches(t, items, p, it, old(role.money), old(role.level), places, chain)
                    && if outcome == Done then
                         && |places| == count && role.money == old(role.money) - Sum(Fees(t, places))
                         && Place(item.quality, item.level) == places[count - 1] && item.template == chain[count - 1]
                       else
                         |places| < count
                         && Stops(t, items, p, it, old(role.money), old(role.level), places, chain, outcome))
  {
    hide Above, Step, Successor, FailsFirst, Reaches, Stops, Sum, Fees;
    if id !in role.items {
      return Ignored;
    }
    var item := role.items[id];
    ghost var p := Place(item.quality, item.level);
    var need, q, last;
    outcome, need, q, last :=
      Quote(t, items, Place(item.quality, item.level), item.template, role.money, role.level, count);
    if outcome != Done {
      FirstFailureTells(t, items, p, item.template, role.money, role.level, count, outcome);
      return;
    }
    if last.None? {
      return Crash;
    }
    assert Check(t, items, p, item.template, role.money, role.level, count) == Done;
    if p.quality >= 0 {
      PathsEnd(t, p, count);
      ghost var places, chain := StepsTell(t, items, p, item.template, role.money, role.level, count);
    }
    role.money := role.money - need;
    item.quality := q.quality;
    item.itemId := last.value.itemId;
    item.template := last.value;
    item.level := q.level;
    return Done;
  }
}

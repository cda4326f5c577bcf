// The soul experience table: thresholds by level and levels by threshold, for every quality.
module SoulTable {
  import opened Wrappers

  // ---- Ordered sets of ids and thresholds

  lemma Inhabited(s: set<int>)
    ensures s == {} || exists x :: x in s
  {
    if forall x: int :: x !in s {
      assert s == {};
    }
  }

  lemma LeastExists(s: set<int>)
    requires s != {}
    ensures exists k :: k in s && forall j :: j in s ==> k <= j
    decreases |s|
  {
    Inhabited(s);
    var x :| x in s;
    if s != {x} {
      var rest := s - {x};
      assert rest != {};
      LeastExists(rest);
      var k :| k in rest && forall j :: j in rest ==> k <= j;
      var least := if x < k then x else k;
      assert least in s && forall j :: j in s ==> j == x || j in rest;
      assert forall j :: j in s ==> least <= j;
    } else {
      assert forall j :: j in s ==> x <= j;
    }
  }

  function Least(s: set<int>): (k: int)
    requires s != {}
    ensures k in s && forall j :: j in s ==> k <= j
  {
    LeastExists(s);
    var k :| k in s && forall j :: j in s ==> k <= j;
    k
  }

  // The keys of a std::map in the order in which it is walked.
  function Ordered(s: set<int>): (r: seq<int>)
    ensures forall i :: 0 <= i < |r| ==> r[i] in s
    ensures forall i, j :: 0 <= i < j < |r| ==> r[i] < r[j]
    ensures |r| == |s|
    decreases |s|
  {
    if s == {} then [] else [Least(s)] + Ordered(s - {Least(s)})
  }

  lemma {:induction false} OrderedHas(s: set<int>, k: int)
    requires k in s
    ensures exists i :: 0 <= i < |Ordered(s)| && Ordered(s)[i] == k
    decreases |s|
  {
    if k == Least(s) {
      assert Ordered(s)[0] == k;
    } else {
      var rest := s - {Least(s)};
      OrderedHas(rest, k);
      var i :| 0 <= i < |Ordered(rest)| && Ordered(rest)[i] == k;
      assert Ordered(s)[i + 1] == k;
    }
  }

  // std::map::lower_bound.
  function LowerBound(s: set<int>, v: int): (r: Option<int>)
    ensures r.None? <==> forall k :: k in s ==> k < v
    ensures r.Some? ==> r.value in s && v <= r.value && forall k :: k in s && v <= k ==> r.value <= k
  {
    var above := set k | k in s && v <= k;
    assert forall k :: k in s && v <= k ==> k in above;
    if above == {} then None
    else
      assert Least(above) in above;
      Some(Least(above))
  }

  // ---- The table

  datatype SoulInfo = SoulInfo(quality: int, level: nat, exp: int, swallowExp: int)

  // The infos of one quality: by level, and the level of the info that each threshold points to.
  datatype Grade = Grade(levels: seq<Option<SoulInfo>>, byExp: map<int, nat>)

  datatype Row = Row(quality: nat, level: nat, exp: int, swallowExp: int)

  // A threshold always points to an info that is there and knows its own place.
  predicate Sound(g: Grade, quality: nat) {
    && (forall e :: e in g.byExp ==> g.byExp[e] < |g.levels| && g.levels[g.byExp[e]].Some?)
    && (forall l :: 0 <= l < |g.levels| && g.levels[l].Some? ==>
          g.levels[l].value.quality == quality && g.levels[l].value.level == l && g.levels[l].value.exp in g.byExp)
  }

  // No threshold is left over from an info that was overwritten.
  predicate Current(g: Grade) {
    forall e :: e in g.byExp ==>
      g.byExp[e] < |g.levels| && g.levels[g.byExp[e]].Some? && g.levels[g.byExp[e]].value.exp == e
  }

  predicate Rising(g: Grade) {
    forall l, h :: 0 <= l < h < |g.levels| && g.levels[l].Some? && g.levels[h].Some? ==>
      g.levels[l].value.exp < g.levels[h].value.exp
  }

  // The level of the least threshold at or above exp; -1 past the top.
  function LevelByExp(g: Grade, exp: int): (r: int)
    ensures r == -1 <==> forall e :: e in g.byExp ==> e < exp
    ensures r != -1 ==> exists e :: e in g.byExp && g.byExp[e] == r && exp <= e
  {
    match LowerBound(g.byExp.Keys, exp)
    case None => -1
    case Some(e) => g.byExp[e]
  }

  // With rising thresholds the level is the least one whose threshold is at least the experience.
  lemma LevelIsLeast(g: Grade, quality: nat, exp: int, l: nat)
    requires Sound(g, quality) && Current(g) && Rising(g)
    requires l < |g.levels| && g.levels[l].Some?
    ensures LevelByExp(g, exp) == l <==>
              && exp <= g.levels[l].value.exp
              && forall k :: 0 <= k < l && g.levels[k].Some? ==> g.levels[k].value.exp < exp
  {
    var level := LevelByExp(g, exp);
    if level == l {
      forall k | 0 <= k < l && g.levels[k].Some? ensures g.levels[k].value.exp < exp {
        assert g.levels[k].value.exp in g.byExp.Keys;
      }
    } else if exp <= g.levels[l].value.exp {
      assert g.levels[l].value.exp in g.byExp.Keys;
      assert g.levels[level].value.exp <= g.levels[l].value.exp;
      assert level < l && exp <= g.levels[level].value.exp;
    }
  }

  // More experience, no lower level, up to the top threshold.
  lemma LevelIsMonotone(g: Grade, quality: nat, exp: int, more: int)
    requires Sound(g, quality) && Current(g) && Rising(g)
    requires exp <= more && LevelByExp(g, more) != -1
    ensures LevelByExp(g, exp) != -1 && LevelByExp(g, exp) <= LevelByExp(g, more)
  {
    var e := LowerBound(g.byExp.Keys, more).value;
    assert e in g.byExp && exp <= e;
    LevelIsLeast(g, quality, exp, LevelByExp(g, exp));
  }

  predicate SoundTable(t: seq<Grade>) {
    forall q :: 0 <= q < |t| ==> Sound(t[q], q)
  }

  // The effect of one row of the table file.
  function AddRow(t: seq<Grade>, row: Row): (r: seq<Grade>)
    ensures |r| == if row.quality >= |t| then row.quality + 1 else |t|
    ensures forall q :: 0 <= q < |r| && q != row.quality ==> r[q] == if q < |t| then t[q] else Grade([], map[])
  {
    var wide := if row.quality >= |t| then t + seq(row.quality + 1 - |t|, _ => Grade([], map[])) else t;
    var g := wide[row.quality];
    var levels := if row.level >= |g.levels| then g.levels + seq(row.level + 1 - |g.levels|, _ => None) else g.levels;
    var info := SoulInfo(row.quality, row.level, row.exp, row.swallowExp);
    wide[row.quality := Grade(levels[row.level := Some(info)],
                              if row.exp in g.byExp then g.byExp else g.byExp[row.exp := row.level])]
  }

  lemma RowKeepsSound(t: seq<Grade>, row: Row)
    requires SoundTable(t)
    ensures SoundTable(AddRow(t, row))
  {
    assert Sound(Grade([], map[]), 0);
  }

  // The rows up to k say the same quality and level only once.
  predicate NoRowTwice(rows: seq<Row>, k: nat)
    requires k <= |rows|
  {
    forall i, j :: 0 <= i < j < k ==> rows[i].quality != rows[j].quality || rows[i].level != rows[j].level
  }

  lemma FewerRows(rows: seq<Row>, k: nat)
    requires k < |rows| && NoRowTwice(rows, k + 1)
    ensures NoRowTwice(rows, k)
  {
  }

  // What the table file says: the last row of a quality and level gives its info, ...
  function InfoOf(rows: seq<Row>, q: nat, l: nat): Option<SoulInfo> {
    if rows == [] then None
    else
      var last := rows[|rows| - 1];
      if last.quality == q && last.level == l then Some(SoulInfo(q, l, last.exp, last.swallowExp))
      else InfoOf(rows[..|rows| - 1], q, l)
  }

  // ... and the first row of a quality with a threshold gives the level it points to.
  function LevelOf(rows: seq<Row>, q: nat, e: int): Option<nat> {
    if rows == [] then None
    else
      var last, before := rows[|rows| - 1], LevelOf(rows[..|rows| - 1], q, e);
      if before.Some? then before else if last.quality == q && last.exp == e then Some(last.level) else None
  }

  // The i-th row gives an info exactly when no later one has the same quality and level, ...
  lemma {:induction false} InfoIsLast(rows: seq<Row>, i: nat)
    requires i < |rows| && forall j :: i < j < |rows| ==>
               rows[j].quality != rows[i].quality || rows[j].level != rows[i].level
    ensures var r := rows[i];
            InfoOf(rows, r.quality, r.level) == Some(SoulInfo(r.quality, r.level, r.exp, r.swallowExp))
  {
    var n := |rows| - 1;
    if i < n {
      assert rows[..n][i] == rows[i];
      InfoIsLast(rows[..n], i);
    }
  }

  // ... and a threshold its level exactly when no earlier one has the same quality and threshold.
  lemma {:induction false} LevelIsFirst(rows: seq<Row>, i: nat)
    requires i < |rows| && forall j :: 0 <= j < i ==> rows[j].quality != rows[i].quality || rows[j].exp != rows[i].exp
    ensures LevelOf(rows, rows[i].quality, rows[i].exp) == Some(rows[i].level)
  {
    var n := |rows| - 1;
    if i < n {
      assert rows[..n][i] == rows[i];
      LevelIsFirst(rows[..n], i);
    } else {
      NoThreshold(rows[..n], rows[i].quality, rows[i].exp);
    }
  }

  lemma {:induction false} NoThreshold(rows: seq<Row>, q: nat, e: int)
    requires forall j :: 0 <= j < |rows| ==> rows[j].quality != q || rows[j].exp != e
    ensures LevelOf(rows, q, e).None?
  {
    if rows != [] {
      NoThreshold(rows[..|rows| - 1], q, e);
    }
  }

  function InfoAt(t: seq<Grade>, q: nat, l: nat): Option<SoulInfo> {
    if q < |t| && l < |t[q].levels| then t[q].levels[l] else None
  }

  function LevelAt(t: seq<Grade>, q: nat, e: int): Option<nat> {
    if q < |t| && e in t[q].byExp then Some(t[q].byExp[e]) else None
  }

  ghost predicate Exact(t: seq<Grade>, rows: seq<Row>) {
    && (forall q: nat, l: nat :: InfoAt(t, q, l) == InfoOf(rows, q, l))
    && (forall q: nat, e: int :: LevelAt(t, q, e) == LevelOf(rows, q, e))
  }

  lemma RowKeepsExact(t: seq<Grade>, rows: seq<Row>, row: Row)
    requires Exact(t, rows)
    ensures Exact(AddRow(t, row), rows + [row])
  {
    var r, all := AddRow(t, row), rows + [row];
    assert all[..|rows|] == rows;
    forall q: nat, l: nat ensures InfoAt(r, q, l) == InfoOf(all, q, l) {
      assert InfoAt(t, q, l) == InfoOf(rows, q, l);
    }
    forall q: nat, e: int ensures LevelAt(r, q, e) == LevelOf(all, q, e) {
      assert LevelAt(t, q, e) == LevelOf(rows, q, e);
    }
  }

  lemma {:induction false} NoRowNoInfo(rows: seq<Row>, q: nat, l: nat)
    requires forall i :: 0 <= i < |rows| ==> rows[i].quality != q || rows[i].level != l
    ensures InfoOf(rows, q, l).None?
  {
    if rows != [] {
      NoRowNoInfo(rows[..|rows| - 1], q, l);
    }
  }

  lemma RowIsNew(t: seq<Grade>, rows: seq<Row>, k: nat)
    requires k < |rows| && NoRowTwice(rows, k + 1) && Exact(t, rows[..k])
    ensures var r := rows[k];
            r.quality < |t| && r.level < |t[r.quality].levels| ==> t[r.quality].levels[r.level].None?
  {
    var r := rows[k];
    NoRowNoInfo(rows[..k], r.quality, r.level);
    assert InfoAt(t, r.quality, r.level) == InfoOf(rows[..k], r.quality, r.level);
  }

  lemma RowKeepsCurrent(t: seq<Grade>, row: Row)
    requires forall q :: 0 <= q < |t| ==> Current(t[q])
    requires row.quality < |t| && row.level < |t[row.quality].levels| ==> t[row.quality].levels[row.level].None?
    ensures forall q :: 0 <= q < |AddRow(t, row)| ==> Current(AddRow(t, row)[q])
  {
  }

  // What the table says after k rows: exactly what they say; it is sound, and when no quality and level occurs twice no
  // threshold is stale.
  ghost predicate Loaded(t: seq<Grade>, rows: seq<Row>, k: nat)
    requires k <= |rows|
  {
    && SoundTable(t) && Exact(t, rows[..k])
    && (NoRowTwice(rows, k) ==> forall q :: 0 <= q < |t| ==> Current(t[q]))
  }

  lemma LoadedOne(t: seq<Grade>, rows: seq<Row>, k: nat)
    requires k < |rows| && Loaded(t, rows, k)
    ensures Loaded(AddRow(t, rows[k]), rows, k + 1)
  {
    hide Current, Sound, SoundTable, Exact, AddRow, NoRowTwice;
    RowKeepsSound(t, rows[k]);
    assert rows[..k + 1] == rows[..k] + [rows[k]];
    RowKeepsExact(t, rows[..k], rows[k]);
    if NoRowTwice(rows, k + 1) {
      FewerRows(rows, k);
      RowIsNew(t, rows, k);
      RowKeepsCurrent(t, rows[k]);
    }
  }

  // Building the table.
  method Load(rows: seq<Row>) returns (t: seq<Grade>)
    ensures Loaded(t, rows, |rows|)
  {
    t := [];
    var i := 0;
    assert Loaded([], rows, 0);
    hide Loaded, AddRow;
    while i < |rows|
      invariant 0 <= i <= |rows| && Loaded(t, rows, i)
    {
      LoadedOne(t, rows, i);
      t := AddRow(t, rows[i]);
      i := i + 1;
    }
  }
}

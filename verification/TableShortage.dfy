/**
 A dynamic addition that the pool cannot serve: where the mapper stops, and when
 that leaves a table orphaned, told from the state before the addition.
 */
module TableShortage {
  import opened Geometry
  import opened Tables
  import opened Mapping
  import opened Counts
  import opened TableState
  import opened UnmapState
  import opened Regions
  import opened Denotation
  import opened Accounting
  import opened PoolOrder
  import opened TableNeeds

  // The order in which the mapper links tables: by first address, upper ones first.
  predicate Precedes(p: Pos, q: Pos) {
    || TableLo(p.level, p.num) < TableLo(q.level, q.num)
    || (TableLo(p.level, p.num) == TableLo(q.level, q.num) && p.level < q.level)
  }

  ghost function Preceding(N: set<Pos>, m: Pos): set<Pos> {
    set p | p in N && Precedes(p, m)
  }

  // The first needed table that the pool has no room for.
  ghost predicate FirstLacking(t: Tabs, L: seq<Region>, R: Region, m: Pos) {
    var N := Needs(Positions(t), L, R, t.baseLevel);
    m in N && |Positions(t)| + |Preceding(N, m)| == |t.subs|
  }

  // The lacking table is one of level 3 for the first entry of a level 2 table
  // that is not the first in its level 1 table, and some of R lies in front of it.
  predicate Straddles(R: Region, m: Pos) {
    && m.level == 3 && R.baseVa < TableLo(m.level, m.num)
    && m.num % 512 == 0 && (m.num / 512) % 512 != 0
  }

  // The number of the level 1 table around it.
  function Around(m: Pos): int { m.num / 512 / 512 }

  // The addition of R runs out of tables like that, and the level 1 table was not
  // linked before.
  ghost predicate Orphaning(t: Tabs, L: seq<Region>, R: Region) {
    t.baseLevel == 0 && exists m :: FirstLacking(t, L, R, m) && Straddles(R, m) && Pos(1, Around(m)) !in Positions(t)
  }

  // A linked table of the position counts more than the listed regions.
  ghost predicate Overcounted(st: State, L: seq<Region>, level: int, n: int) {
    exists s :: s in st.tabs.place && s < |st.cnt| && st.tabs.place[s].level == level && st.tabs.place[s].num == n
             && st.cnt[s] > Users(st.tabs, L, s)
  }

  // The level 1 table of the number depends on dynamic regions: it does not count
  // too much, and no region that is never removed meets it.
  ghost predicate Passing(st: State, L: seq<Region>, n: int) {
    !Overcounted(st, L, 1, n) && !StaticMeets(L, TableLo(1, n), TableHi(1, n))
  }

  // No listed region meets the level 1 table of the number.
  ghost predicate Unused(L: seq<Region>, n: int) {
    Meeting(L, TableLo(1, n), TableHi(1, n)) == 0
  }

  // The addition of R runs out of tables like that, and dynamic regions alone, R
  // among them, keep the level 1 table.
  ghost predicate Burdening(st: State, L: seq<Region>, R: Region) {
    st.tabs.baseLevel == 0 && exists m :: FirstLacking(st.tabs, L, R, m) && Straddles(R, m) && Passing(st, L, Around(m))
  }

  // ---- there is only one first lacking table -------------------------------

  lemma Total(p: Pos, q: Pos)
    requires 0 <= p.level <= 3 && 0 <= q.level <= 3 && p != q
    ensures Precedes(p, q) || Precedes(q, p)
  {
    if p.level == q.level {
      Monotone(p.level, 512 * p.num, 512 * q.num);
    }
  }

  lemma FewerPrecede(N: set<Pos>, p: Pos, q: Pos)
    requires p in N && Precedes(p, q)
    ensures |Preceding(N, p)| < |Preceding(N, q)|
  {
    assert p in Preceding(N, q) && p !in Preceding(N, p);
    Smaller(Preceding(N, p), Preceding(N, q));
  }

  lemma LackingUnique(t: Tabs, L: seq<Region>, R: Region, m: Pos, m': Pos)
    requires 0 <= t.baseLevel && FirstLacking(t, L, R, m) && FirstLacking(t, L, R, m')
    ensures m == m'
  {
    var N := Needs(Positions(t), L, R, t.baseLevel);
    NeedsMeans(Positions(t), L, R, t.baseLevel, m);
    NeedsMeans(Positions(t), L, R, t.baseLevel, m');
    if m != m' {
      Total(m, m');
      if Precedes(m, m') { FewerPrecede(N, m, m'); } else { FewerPrecede(N, m', m); }
    }
  }

  // A pool that suffices lacks nothing.
  lemma LackingShort(t: Tabs, L: seq<Region>, R: Region, m: Pos)
    requires 0 <= t.baseLevel && FirstLacking(t, L, R, m)
    ensures !Suffice(t, L, R)
  {
    var P, N := Positions(t), Needs(Positions(t), L, R, t.baseLevel);
    assert m !in Preceding(N, m);
    Smaller(Preceding(N, m), N);
    assert P !! N by {
      forall p | p in N ensures p !in P { NeedsMeans(P, L, R, t.baseLevel, p); }
    }
    assert |P + N| == |P| + |N|;
  }

  // ---- the mapper stops at it ----------------------------------------------

  // A table of an upper level around a linked one is linked.
  lemma AroundLinked(t: Tabs, r: Ref, i: int, p: Pos)
    requires Tree(t) && Slot(t, r, i) && t.baseLevel < p.level <= At(t, r).level
    requires TableLo(p.level, p.num) <= EntryLo(t, r, i) < TableHi(p.level, p.num)
    ensures p in Positions(t)
  {
    LevelBounds(t, r);
    SlotInRef(t, r, i);
    var u := At(t, r);
    TablesNest(p.level, 512 * p.num, 512 * p.num + 512, u.level, u.num);
    AboveLinked(t, r.idx, p.level, p.num);
    var s :| s in t.place && t.place[s].level == p.level && t.place[s].num == p.num;
    PositionOf(t, s);
  }

  // A needed table in front of the stuck entry was linked.
  lemma FrontLinked(t: Tabs, t': Tabs, T: Trans, L: seq<Region>, R: Region, r: Ref, i: int, p: Pos)
    requires Tree(t') && Sized(t) && Extends(t, t', T, R) && Denotes(T, L) && Compatible(T, R) && 0 < R.size
    requires StuckAt(t', R, r, i) && Agree(t', Upto(T, R, EntryLo(t', r, i))) && R.EndVa() <= RefHi(t', Base)
    requires p in Needs(Positions(t), L, R, t.baseLevel) && Precedes(p, Lacking(t', r, i))
    ensures p in Positions(t')
  {
    var f := EntryLo(t', r, i);
    NeedsMeans(Positions(t), L, R, t.baseLevel, p);
    LackingLo(t', R, r, i);
    if R.baseVa < f && TableLo(p.level, p.num) < f {
      NeededLinked(t, t', T, L, R, f, p);
    } else {
      FrontAround(t', R, r, i, p, t.baseLevel);
      AroundLinked(t', r, i, p);
    }
  }

  lemma LackingLo(t: Tabs, R: Region, r: Ref, i: int)
    requires Sized(t) && StuckAt(t, R, r, i)
    ensures TableLo(At(t, r).level + 1, Num(t, r, i)) == EntryLo(t, r, i)
    ensures TableHi(At(t, r).level + 1, Num(t, r, i)) == EntryHi(t, r, i)
    ensures EntryLo(t, r, i) < EntryHi(t, r, i) && R.baseVa < EntryHi(t, r, i)
  {
    LevelBounds(t, r);
    PosRange(At(t, r).level + 1, Num(t, r, i));
  }

  // A table in front that does not lie before both the region and the stuck entry
  // holds the stuck entry.
  lemma FrontAround(t: Tabs, R: Region, r: Ref, i: int, p: Pos, base: int)
    requires Sized(t) && StuckAt(t, R, r, i) && 0 <= base < p.level <= 3
    requires Meets(R, TableLo(p.level, p.num), TableHi(p.level, p.num))
    requires Precedes(p, Lacking(t, r, i))
    requires R.baseVa >= EntryLo(t, r, i) || TableLo(p.level, p.num) >= EntryLo(t, r, i)
    ensures p.level <= At(t, r).level && TableLo(p.level, p.num) <= EntryLo(t, r, i) < TableHi(p.level, p.num)
  {
    LackingLo(t, R, r, i);
    PosRange(p.level, p.num);
    LevelBounds(t, r);
    if TableLo(p.level, p.num) < EntryLo(t, r, i) && At(t, r).level < p.level {
      Laminar(At(t, r).level, Num(t, r, i), p.level - 1, p.num);
    }
  }

  // A table linked by the mapper lies in front of the entry it got stuck at.
  lemma LinkedInFront(st: State, st': State, T: Trans, R: Region, f: int, L: seq<Region>, r: Ref, i: int, s: nat)
    requires Failed(st, st', T, R, f) && StuckAt(st'.tabs, R, r, i) && EntryLo(st'.tabs, r, i) == f
    requires s in st'.tabs.place && s !in st.tabs.place
    ensures Precedes(Pos(st'.tabs.place[s].level, st'.tabs.place[s].num), Lacking(st'.tabs, r, i))
  {
    var p := st'.tabs.place[s];
    assert SeenAtFailure(p, R, f) by {
      assert st'.cnt[s] > 0;
    }
    SeenInFront(st'.tabs, R, r, i, s, p.level, p.num);
  }

  lemma SeenInFront(t: Tabs, R: Region, r: Ref, i: int, s: nat, level: int, n: int)
    requires Tree(t) && StuckAt(t, R, r, i) && s in t.place && level == t.place[s].level && n == t.place[s].num
    requires SeenAtFailure(t.place[s], R, EntryLo(t, r, i))
    ensures Precedes(Pos(level, n), Lacking(t, r, i))
  {
    LackingLo(t, R, r, i);
    Monotone(level, 512 * n, 512 * n + 512);
    assert TableLo(level, n) >= EntryLo(t, r, i) ==>
      Overlap(EntryLo(t, r, i), EntryHi(t, r, i), TableLo(level, n), TableHi(level, n));
    if !Precedes(Pos(level, n), Lacking(t, r, i)) {
      NotInFront(t, r, i, s);
    }
  }

  // No linked table starts in the range of a stuck entry, below or beside it.
  lemma NotInFront(t: Tabs, r: Ref, i: int, s: nat)
    requires Tree(t) && Slot(t, r, i) && !Row(t, r)[i].Table? && s in t.place
    requires Overlap(EntryLo(t, r, i), EntryHi(t, r, i), PlaceLo(t.place[s]), PlaceHi(t.place[s]))
    ensures t.place[s].level <= At(t, r).level && PlaceLo(t.place[s]) <= EntryLo(t, r, i)
  {
    SlotInRef(t, r, i);
    MeetsNonTable(t, r, i, s);
  }

  // The tables linked when the mapper stopped: those from before, and the needed
  // ones in front of the lacking one.
  lemma StopTables(st: State, st': State, T: Trans, R: Region, f: int, L: seq<Region>, r: Ref, i: int)
    requires Failed(st, st', T, R, f) && StuckAt(st'.tabs, R, r, i) && EntryLo(st'.tabs, r, i) == f
    requires Sized(st.tabs) && Denotes(T, L) && Compatible(T, R) && 0 < R.size && R.EndVa() <= RefHi(st'.tabs, Base)
    ensures Positions(st'.tabs) ==
      Positions(st.tabs) + Preceding(Needs(Positions(st.tabs), L, R, st.tabs.baseLevel), Lacking(st'.tabs, r, i))
  {
    var t, t', m := st.tabs, st'.tabs, Lacking(st'.tabs, r, i);
    var P, N := Positions(t), Needs(Positions(t), L, R, t.baseLevel);
    OnlyNeeded(t, t', T, L, R);
    ExtendsPositions(t, t', T, R);
    forall p | p in Positions(t') && p !in P
      ensures p in Preceding(N, m)
    {
      var s := PositionTable(t', p);
      if s in t.place {
        PositionOf(t, s);
      }
      LinkedInFront(st, st', T, R, f, L, r, i, s);
    }
    forall p | p in Preceding(N, m)
      ensures p in Positions(t')
    {
      FrontLinked(t, t', T, L, R, r, i, p);
    }
  }

  // It stops at the first lacking table.
  lemma StopsAtLacking(st: State, st': State, T: Trans, R: Region, f: int, L: seq<Region>, r: Ref, i: int)
    requires Failed(st, st', T, R, f) && StuckAt(st'.tabs, R, r, i) && EntryLo(st'.tabs, r, i) == f
    requires Sized(st.tabs) && Denotes(T, L) && Compatible(T, R) && 0 < R.size && R.EndVa() <= RefHi(st'.tabs, Base)
    ensures FirstLacking(st.tabs, L, R, Lacking(st'.tabs, r, i))
    ensures TableLo(Lacking(st'.tabs, r, i).level, Lacking(st'.tabs, r, i).num) == f
  {
    var t, t', m := st.tabs, st'.tabs, Lacking(st'.tabs, r, i);
    var P, N := Positions(t), Needs(Positions(t), L, R, t.baseLevel);
    LackingNeeded(t, t', T, L, R, r, i);
    LackingLo(t', R, r, i);
    StopTables(st, st', T, R, f, L, r, i);
    PositionCount(t');
    assert P !! Preceding(N, m) by {
      forall p | p in N ensures p !in P { NeedsMeans(P, L, R, t.baseLevel, p); }
    }
    assert |P + Preceding(N, m)| == |P| + |Preceding(N, m)|;
  }

  // ---- when a table is orphaned --------------------------------------------

  // A linked table around the address of the stuck entry is at its level or above.
  lemma StuckInside(t: Tabs, R: Region, r: Ref, i: int, k: nat)
    requires Tree(t) && StuckAt(t, R, r, i) && k in t.place
    requires PlaceLo(t.place[k]) <= EntryLo(t, r, i) < PlaceHi(t.place[k])
    ensures t.place[k].level <= At(t, r).level <= 2
    ensures t.place[k].level == At(t, r).level ==> t.place[k].num == At(t, r).num
  {
    var p, q := t.place[k], At(t, r);
    LevelBounds(t, r);
    SlotInRef(t, r, i);
    MeetsNonTable(t, r, i, k);
    if p.level == q.level {
      Monotone(p.level, 512 * p.num, 512 * q.num + 512);
      Monotone(p.level, 512 * q.num, 512 * p.num + 512);
    }
  }

  lemma Starts(m: int, k: int, s: int)
    ensures TableLo(3, m) == TableLo(2, k) <==> m == 512 * k
    ensures TableLo(3, m) == TableLo(1, s) <==> m == 512 * 512 * s
    ensures TableLo(1, s) <= TableLo(3, m) < TableHi(1, s) <==> m / 512 / 512 == s
  {
    PosRange(3, m);
    PosRange(2, k);
    PosRange(1, s);
    Values(2, m);
    Values(1, k);
    Values(0, s);
    Values(0, s + 1);
  }

  // Where a table that starts at the stuck entry and the table above it are.
  lemma AstridePlaces(t: Tabs, R: Region, r: Ref, i: int, k: nat, s: nat)
    requires Tree(t) && StuckAt(t, R, r, i) && Astride(t, EntryLo(t, r, i), k, s)
    ensures t.baseLevel == 0 && t.place[s].level == 1 && At(t, r).level == 2
    ensures R.baseVa < EntryLo(t, r, i) ==> Straddles(R, Lacking(t, r, i))
    ensures Around(Lacking(t, r, i)) == t.place[s].num
  {
    var p, q := t.place[k], t.place[s];
    InsideHolds(t, k, s);
    StuckInside(t, R, r, i, k);
    StuckInside(t, R, r, i, s);
    LackingLo(t, R, r, i);
    if p.level == q.level {
      Monotone(p.level, 512 * p.num, 512 * q.num + 512);
      Monotone(p.level, 512 * q.num, 512 * p.num + 512);
    }
    Starts(Num(t, r, i), p.num, q.num);
  }

  // The tables above the lacking one.
  lemma LackingPlaces(t: Tabs, R: Region, r: Ref, i: int) returns (k: nat, s: nat)
    requires Tree(t) && StuckAt(t, R, r, i) && t.baseLevel == 0 && Straddles(R, Lacking(t, r, i))
    ensures Astride(t, EntryLo(t, r, i), k, s) && t.place[s].level == 1 && t.place[s].num == Around(Lacking(t, r, i))
  {
    LevelBounds(t, r);
    k := r.idx;
    var q := AboveOf(t, k);
    s := q.idx;
    LackingLo(t, R, r, i);
    Starts(Num(t, r, i), t.place[k].num, t.place[s].num);
  }

  // The position of a table was taken before exactly if the table was linked before.
  lemma OldPosition(t: Tabs, t': Tabs, T: Trans, R: Region, s: nat)
    requires Extends(t, t', T, R) && Unique(t') && s in t'.place
    ensures s in t.place <==> Pos(t'.place[s].level, t'.place[s].num) in Positions(t)
  {
    if s in t.place {
      PositionOf(t, s);
    }
    if Pos(t'.place[s].level, t'.place[s].num) in Positions(t) {
      var k := PositionTable(t, Pos(t'.place[s].level, t'.place[s].num));
      assert t'.place[k] == t.place[k];
    }
  }

  // A failed addition that mapped something leaves an orphan exactly if the state
  // before it says so.
  lemma OrphansExactly(st: State, st': State, T: Trans, R: Region, f: int, L: seq<Region>)
    requires Failed(st, st', T, R, f) && Denotes(T, L) && Sized(st.tabs) && R.baseVa < f
    requires Compatible(T, R) && 0 < R.size && R.EndVa() <= RefHi(st'.tabs, Base)
    ensures Orphans(st.tabs, st'.tabs, f) <==> Orphaning(st.tabs, L, R)
  {
    var r, i :| StuckAt(st'.tabs, R, r, i) && EntryLo(st'.tabs, r, i) == f;
    var m := Lacking(st'.tabs, r, i);
    StopsAtLacking(st, st', T, R, f, L, r, i);
    if Orphans(st.tabs, st'.tabs, f) {
      var k, s :| Orphan(st.tabs, st'.tabs, f, k, s);
      AstridePlaces(st'.tabs, R, r, i, k, s);
      OldPosition(st.tabs, st'.tabs, T, R, s);
    }
    if Orphaning(st.tabs, L, R) {
      var n :| FirstLacking(st.tabs, L, R, n) && Straddles(R, n) && Pos(1, Around(n)) !in Positions(st.tabs);
      LackingUnique(st.tabs, L, R, m, n);
      var k, s := LackingPlaces(st'.tabs, R, r, i);
      OldPosition(st.tabs, st'.tabs, T, R, s);
      assert Orphan(st.tabs, st'.tabs, f, k, s);
    }
  }

  // One that mapped nothing leaves none.
  lemma NoneBefore(st: State, st': State, T: Trans, R: Region, f: int, L: seq<Region>)
    requires Failed(st, st', T, R, f) && Denotes(T, L) && Sized(st.tabs) && f <= R.baseVa
    requires Compatible(T, R) && 0 < R.size && R.EndVa() <= RefHi(st'.tabs, Base)
    ensures !Orphaning(st.tabs, L, R) && !Burdening(st, L, R)
  {
    var r, i :| StuckAt(st'.tabs, R, r, i) && EntryLo(st'.tabs, r, i) == f;
    StopsAtLacking(st, st', T, R, f, L, r, i);
    if m :| FirstLacking(st.tabs, L, R, m) && Straddles(R, m) {
      LackingUnique(st.tabs, L, R, Lacking(st'.tabs, r, i), m);
    }
  }

  // ---- when the counts turn harmful ----------------------------------------

  // No listed region uses a level 1 table that was not linked before.
  lemma OrphaningBurdens(st: State, st': State, T: Trans, R: Region, f: int, L: seq<Region>)
    requires Failed(st, st', T, R, f) && Denotes(T, L) && (forall q :: q in L ==> 0 < q.size) && Sized(st.tabs)
    requires Compatible(T, R) && 0 < R.size && R.EndVa() <= RefHi(st'.tabs, Base) && Orphaning(st.tabs, L, R)
    ensures Burdening(st, L, R)
  {
    var r, i :| StuckAt(st'.tabs, R, r, i) && EntryLo(st'.tabs, r, i) == f;
    StopsAtLacking(st, st', T, R, f, L, r, i);
    var m :| FirstLacking(st.tabs, L, R, m) && Straddles(R, m) && Pos(1, Around(m)) !in Positions(st.tabs);
    LackingUnique(st.tabs, L, R, Lacking(st'.tabs, r, i), m);
    var k, s := LackingPlaces(st'.tabs, R, r, i);
    OldPosition(st.tabs, st'.tabs, T, R, s);
    NewPassing(st, st', T, R, L, s);
  }

  // The level 1 table was not linked exactly if it counted nothing: no listed region
  // uses it, and it did not count too much.
  ghost predicate Uncounted(st: State, L: seq<Region>, R: Region, m: Pos) {
    FirstLacking(st.tabs, L, R, m) && Straddles(R, m) && Unused(L, Around(m)) && !Overcounted(st, L, 1, Around(m))
  }

  lemma OrphaningUncounted(st: State, st': State, T: Trans, R: Region, f: int, L: seq<Region>)
    requires Failed(st, st', T, R, f) && Denotes(T, L) && (forall q :: q in L ==> 0 < q.size) && Ready(st, T, Base)
    requires Compatible(T, R) && 0 < R.size && R.EndVa() <= RefHi(st'.tabs, Base)
    ensures Orphaning(st.tabs, L, R) <==> st.tabs.baseLevel == 0 && exists m :: Uncounted(st, L, R, m)
  {
    hide Denotes, Compatible, Children, Parents, Agree, Clean, Needs, PosOf, FirstLacking, Straddles, Unused,
      Overcounted;
    if Orphaning(st.tabs, L, R) {
      var r, i :| StuckAt(st'.tabs, R, r, i) && EntryLo(st'.tabs, r, i) == f;
      StopsAtLacking(st, st', T, R, f, L, r, i);
      var m :| FirstLacking(st.tabs, L, R, m) && Straddles(R, m) && Pos(1, Around(m)) !in Positions(st.tabs);
      LackingUnique(st.tabs, L, R, Lacking(st'.tabs, r, i), m);
      var k, s := LackingPlaces(st'.tabs, R, r, i);
      OldPosition(st.tabs, st'.tabs, T, R, s);
      NewPassing(st, st', T, R, L, s);
      assert Uncounted(st, L, R, m);
    }
    if m :| Uncounted(st, L, R, m) && Pos(1, Around(m)) in Positions(st.tabs) {
      LinkedCounts(st, T, L, Around(m));
    }
  }

  // A linked table counts something.
  lemma LinkedCounts(st: State, T: Trans, L: seq<Region>, n: int)
    requires Ready(st, T, Base) && st.dynamic && Pos(1, n) in Positions(st.tabs)
    ensures Overcounted(st, L, 1, n) || !Unused(L, n)
  {
    var s := PositionTable(st.tabs, Pos(1, n));
    assert 0 < st.cnt[s];
  }

  lemma NewPassing(st: State, st': State, T: Trans, R: Region, L: seq<Region>, s: nat)
    requires Extends(st.tabs, st'.tabs, T, R) && Denotes(T, L) && (forall q :: q in L ==> 0 < q.size) && Sized(st'.tabs)
    requires s in st'.tabs.place && s !in st.tabs.place && st'.tabs.place[s].level == 1
    requires Pos(1, st'.tabs.place[s].num) !in Positions(st.tabs)
    ensures Passing(st, L, st'.tabs.place[s].num) && Unused(L, st'.tabs.place[s].num)
  {
    var p := st'.tabs.place[s];
    NoUsers(L, T, p);
    if StaticMeets(L, PlaceLo(p), PlaceHi(p)) {
      var q :| q in L && !IsDynamic(q) && Meets(q, PlaceLo(p), PlaceHi(p));
      MeetingSome(L, PlaceLo(p), PlaceHi(p), q);
    }
    if k :| k in st.tabs.place && st.tabs.place[k].level == 1 && st.tabs.place[k].num == p.num {
      PositionOf(st.tabs, k);
    }
  }

  // A table counted too much exactly if the state before says so of its position.
  lemma SlackTold(st: State, st': State, T: Trans, R: Region, f: int, L: seq<Region>, s: nat)
    requires Failed(st, st', T, R, f) && Accounted(st.tabs, st.cnt, L) && s in st'.tabs.place
    ensures Slack(st, L, s) == 0 <==> !Overcounted(st, L, st'.tabs.place[s].level, st'.tabs.place[s].num)
  {
    var p := st'.tabs.place[s];
    if Overcounted(st, L, p.level, p.num) {
      var k :| k in st.tabs.place && k < |st.cnt| && st.tabs.place[k].level == p.level && st.tabs.place[k].num == p.num
            && st.cnt[k] > Users(st.tabs, L, k);
      assert st'.tabs.place[k] == st.tabs.place[k];
      assert k == s;
    }
  }

  // A rollback that leaves the pool in order keeps the counts harmless exactly if
  // the state before the addition says so.
  lemma BurdensExactly(st: State, st': State, st'': State, T: Trans, R: Region, f: int, L: seq<Region>, J: Job)
    requires Failed(st, st', T, R, f) && Denotes(T, L) && (forall q :: q in L ==> 0 < q.size) && R.baseVa < f
    requires Tree(st.tabs) && Accounted(st.tabs, st.cnt, L) && Backed(st.tabs, st.cnt, L)
    requires Compatible(T, R) && 0 < R.size && R.EndVa() <= RefHi(st'.tabs, Base)
    requires J == RollbackJob(st', T, R, f, L, J.tidy) && Unmapped(st'.tabs, st'', J) && Ready(st'', T, Base)
    requires st''.dynamic
    ensures Backed(st''.tabs, st''.cnt, L) <==> !Burdening(st, L, R)
  {
    hide Denotes, Compatible, Children, Parents, Unique, Agree, Clean, Booked, Meeting, Needs, PosOf, Loose, Unmapped,
      Accounted;
    var r, i :| StuckAt(st'.tabs, R, r, i) && EntryLo(st'.tabs, r, i) == f;
    StopsAtLacking(st, st', T, R, f, L, r, i);
    if !Backed(st''.tabs, st''.cnt, L) {
      var k, s :| Loose(st''.tabs, st''.cnt, L, k, s);
      LooseAstride(st, st', st'', T, R, f, L, J, k, s);
      AstridePlaces(st'.tabs, R, r, i, k, s);
      SlackTold(st, st', T, R, f, L, s);
    }
    if Burdening(st, L, R) {
      var m :| FirstLacking(st.tabs, L, R, m) && Straddles(R, m) && Passing(st, L, Around(m));
      LackingUnique(st.tabs, L, R, Lacking(st'.tabs, r, i), m);
      var k, s := LackingPlaces(st'.tabs, R, r, i);
      SlackTold(st, st', T, R, f, L, s);
      AstrideLoose(st, st', st'', T, R, f, L, J, k, s);
    }
  }

  lemma LooseAstride(st: State, st': State, st'': State, T: Trans, R: Region, f: int, L: seq<Region>, J: Job, k: nat,
      s: nat)
    requires Failed(st, st', T, R, f) && Denotes(T, L) && (forall q :: q in L ==> 0 < q.size) && R.baseVa < f
    requires Tree(st.tabs) && Accounted(st.tabs, st.cnt, L) && Backed(st.tabs, st.cnt, L)
    requires J == RollbackJob(st', T, R, f, L, J.tidy) && Unmapped(st'.tabs, st'', J)
    requires Loose(st''.tabs, st''.cnt, L, k, s)
    ensures Astride(st'.tabs, f, k, s) && Slack(st, L, s) == 0
    ensures !StaticMeets(L, PlaceLo(st'.tabs.place[s]), PlaceHi(st'.tabs.place[s]))
  {
    LeftDue(st'.tabs, st'', J, k);
    LeftDue(st'.tabs, st'', J, s);
    RollbackCounts(st, st', T, R, f, L, J.tidy, k);
    RollbackCounts(st, st', T, R, f, L, J.tidy, s);
    SlackHolds(st, st', T, R, f, L, k, s);
    InsideHolds(st'.tabs, k, s);
    assert Slack(st, L, k) > 0 ==> Loose(st.tabs, st.cnt, L, k, s);
  }

  lemma AstrideLoose(st: State, st': State, st'': State, T: Trans, R: Region, f: int, L: seq<Region>, J: Job, k: nat,
      s: nat)
    requires Failed(st, st', T, R, f) && Denotes(T, L) && (forall q :: q in L ==> 0 < q.size) && R.baseVa < f
    requires Tree(st.tabs) && Accounted(st.tabs, st.cnt, L)
    requires J == RollbackJob(st', T, R, f, L, J.tidy) && Unmapped(st'.tabs, st'', J) && Ready(st'', T, Base)
    requires st''.dynamic
    requires Astride(st'.tabs, f, k, s) && Slack(st, L, s) == 0
    requires !StaticMeets(L, PlaceLo(st'.tabs.place[s]), PlaceHi(st'.tabs.place[s]))
    ensures Loose(st''.tabs, st''.cnt, L, k, s)
  {
    RollbackCounts(st, st', T, R, f, L, J.tidy, k);
    RollbackCounts(st, st', T, R, f, L, J.tidy, s);
    PairKept(st'.tabs, st'', J, k, s, T);
    LeftDue(st'.tabs, st'', J, k);
    LeftDue(st'.tabs, st'', J, s);
  }

  // A failure before anything was mapped keeps them harmless.
  lemma EarlyBacked(st: State, st': State, T: Trans, R: Region, f: int, L: seq<Region>)
    requires Failed(st, st', T, R, f) && Denotes(T, L) && (forall q :: q in L ==> 0 < q.size) && f <= R.baseVa
    requires Tree(st.tabs) && Accounted(st.tabs, st.cnt, L) && Backed(st.tabs, st.cnt, L)
    ensures Backed(st'.tabs, st'.cnt, L)
  {
    forall k, s
      ensures !Loose(st'.tabs, st'.cnt, L, k, s)
    {
      if Loose(st'.tabs, st'.cnt, L, k, s) {
        EarlyLoose(st, st', T, R, f, L, k, s);
      }
    }
  }

  lemma EarlyLoose(st: State, st': State, T: Trans, R: Region, f: int, L: seq<Region>, k: nat, s: nat)
    requires Failed(st, st', T, R, f) && Denotes(T, L) && (forall q :: q in L ==> 0 < q.size) && f <= R.baseVa
    requires Tree(st.tabs) && Accounted(st.tabs, st.cnt, L) && Loose(st'.tabs, st'.cnt, L, k, s)
    ensures Loose(st.tabs, st.cnt, L, k, s)
  {
    FailUsers(st, st', T, R, f, L, k);
    FailUsers(st, st', T, R, f, L, s);
    InsideHolds(st'.tabs, k, s);
    if s !in st.tabs.place && k in st.tabs.place {
      OldAbove(st.tabs, st'.tabs, k, s);
    }
  }
}

/**
 The tables that a region needs, and those of a list of regions: which additions
 the pool can serve, and where the mapper stops if it cannot.
 */
module TableNeeds {
  import opened Geometry
  import opened Tables
  import opened Mapping
  import opened Counts
  import opened TableState
  import opened Denotation

  // Where a table is: its level, and its number at that level.
  datatype Pos = Pos(level: int, num: int)

  // The positions of the linked tables.
  ghost function Positions(t: Tabs): set<Pos> {
    PosOf(t.place, t.place.Keys)
  }

  ghost function PosOf(place: map<nat, Place>, K: set<nat>): set<Pos>
    requires K <= place.Keys
  {
    set s | s in K :: Pos(place[s].level, place[s].num)
  }

  // R has to be described in a table at the position: R meets its range, the same
  // holds of the table above, and either the table is there already or no leaf
  // describes its range, be it of a listed region or one for R.
  ghost predicate Entered(P: set<Pos>, L: seq<Region>, R: Region, base: int, level: int, n: int)
    decreases level
  {
    && Meets(R, TableLo(level, n), TableHi(level, n))
    && if level <= base || level <= 0 then level == base && n == 0
       else (Pos(level, n) in P || Unserved(L, R, level, n)) && Entered(P, L, R, base, level - 1, n / 512)
  }

  ghost predicate Unserved(L: seq<Region>, R: Region, level: int, n: int) {
    First(L, TableLo(level, n)).None? && !LeafFor(R, level - 1, n)
  }

  // The tables R needs beyond those linked at P, when the regions of L are mapped.
  ghost function Needs(P: set<Pos>, L: seq<Region>, R: Region, base: int): set<Pos> {
    set level, n | base < level <= 3 && 0 <= n < R.EndVa() && Entered(P, L, R, base, level, n)
      && Pos(level, n) !in P :: Pos(level, n)
  }

  // The tables linked once R has been mapped.
  ghost function TablesAfter(P: set<Pos>, L: seq<Region>, R: Region, base: int): set<Pos> {
    P + Needs(P, L, R, base)
  }

  // The pool has a table for each of them.
  ghost predicate Suffice(t: Tabs, L: seq<Region>, R: Region) {
    |TablesAfter(Positions(t), L, R, t.baseLevel)| <= |t.subs|
  }

  // The tables of a list mapped from its first region to its last.
  ghost function TablesOf(L: seq<Region>, base: int): set<Pos> {
    if L == [] then {}
    else TablesAfter(TablesOf(L[..|L| - 1], base), L[..|L| - 1], L[|L| - 1], base)
  }

  // ---- facts about positions -----------------------------------------------

  lemma PosRange(level: int, n: int)
    requires 0 < level <= 3
    ensures TableLo(level, n) == Lo(level - 1, n) < TableHi(level, n) == Lo(level - 1, n + 1)
  {
    EntryStep(level - 1, n);
  }

  lemma AbovePos(level: int, n: int)
    requires 0 < level <= 3
    ensures 512 * (n / 512) <= n < 512 * (n / 512) + 512
    ensures TableLo(level - 1, n / 512) <= TableLo(level, n) < TableHi(level, n) <= TableHi(level - 1, n / 512)
  {
    PosRange(level, n);
    InTable(level - 1, n / 512, n);
  }

  lemma {:induction false} EnteredRange(P: set<Pos>, L: seq<Region>, R: Region, base: int, level: int, n: int)
    requires 0 <= base && level <= 3 && Entered(P, L, R, base, level, n)
    ensures base <= level && 0 <= n < R.EndVa()
    decreases level
  {
    if base < level {
      EnteredRange(P, L, R, base, level - 1, n / 512);
    }
    Values(level, 512 * n);
  }

  lemma NeedsMeans(P: set<Pos>, L: seq<Region>, R: Region, base: int, p: Pos)
    requires 0 <= base
    ensures p in Needs(P, L, R, base) <==> base < p.level <= 3 && p !in P && Entered(P, L, R, base, p.level, p.num)
  {
    if p.level <= 3 && Entered(P, L, R, base, p.level, p.num) {
      EnteredRange(P, L, R, base, p.level, p.num);
    }
    assert p == Pos(p.level, p.num);
  }

  lemma PositionOf(t: Tabs, s: nat)
    requires s in t.place
    ensures Pos(t.place[s].level, t.place[s].num) in Positions(t)
  {
  }

  lemma PositionTable(t: Tabs, p: Pos) returns (s: nat)
    requires p in Positions(t)
    ensures s in t.place && t.place[s].level == p.level && t.place[s].num == p.num
  {
    s :| s in t.place && Pos(t.place[s].level, t.place[s].num) == p;
  }

  lemma ExtendsPositions(t: Tabs, t': Tabs, T: Trans, R: Region)
    requires Extends(t, t', T, R)
    ensures Positions(t) <= Positions(t')
  {
    forall p | p in Positions(t)
      ensures p in Positions(t')
    {
      var s := PositionTable(t, p);
      PositionOf(t', s);
    }
  }

  // ---- how many tables there are -------------------------------------------

  lemma {:induction false} PosCount(place: map<nat, Place>, K: set<nat>)
    requires K <= place.Keys
    requires forall s, s' :: s in K && s' in K && s != s' ==>
      place[s].level != place[s'].level || place[s].num != place[s'].num
    ensures |PosOf(place, K)| == |K|
  {
    if K != {} {
      var k :| k in K;
      var p := Pos(place[k].level, place[k].num);
      PosCount(place, K - {k});
      assert PosOf(place, K) == PosOf(place, K - {k}) + {p};
      assert p !in PosOf(place, K - {k});
    } else {
      assert PosOf(place, K) == {};
    }
  }

  lemma {:induction false} RangeCount(K: set<nat>, n: nat)
    requires forall k :: k in K ==> k < n
    ensures |K| <= n
    ensures (forall k: nat :: k < n ==> k in K) ==> |K| == n
  {
    if n == 0 {
      assert K == {};
    } else {
      RangeCount(K - {n - 1}, n - 1);
      if n - 1 in K {
        assert |K - {n - 1}| == |K| - 1;
      } else {
        assert K - {n - 1} == K;
      }
    }
  }

  // Every linked table takes one of the pool.
  lemma PositionCount(t: Tabs)
    requires Sized(t) && Unique(t)
    ensures |Positions(t)| <= |t.subs|
    ensures (forall k :: 0 <= k < |t.subs| ==> k in t.place) ==> |Positions(t)| == |t.subs|
  {
    PosCount(t.place, t.place.Keys);
    RangeCount(t.place.Keys, |t.subs|);
  }

  lemma Smaller<A>(a: set<A>, b: set<A>)
    requires a <= b
    ensures |a| <= |b| && (a != b ==> |a| < |b|)
  {
    assert b == a + (b - a);
    assert |b| == |a| + |b - a|;
    if |b - a| == 0 {
      assert b - a == {};
    }
  }

  // ---- linked tables are needed --------------------------------------------

  // R meets the table above as well.
  lemma MeetsAbove(R: Region, level: int, n: int)
    requires 0 < level <= 3 && Meets(R, TableLo(level, n), TableHi(level, n))
    ensures Meets(R, TableLo(level - 1, n / 512), TableHi(level - 1, n / 512))
  {
    AbovePos(level, n);
  }

  // A linked table was linked before, or no leaf can serve its range.
  lemma LinkedServes(t: Tabs, t': Tabs, T: Trans, L: seq<Region>, R: Region, s: nat)
    requires Extends(t, t', T, R) && Denotes(T, L) && s in t'.place && 0 < t'.place[s].level <= 3
    ensures Pos(t'.place[s].level, t'.place[s].num) in Positions(t)
      || Unserved(L, R, t'.place[s].level, t'.place[s].num)
  {
    var p := t'.place[s];
    if s in t.place {
      PositionOf(t, s);
    } else {
      PosRange(p.level, p.num);
      assert First(L, TableLo(p.level, p.num)).Some? <==> TableLo(p.level, p.num) in T;
    }
  }

  lemma {:induction false} LinkedEntered(t: Tabs, t': Tabs, T: Trans, L: seq<Region>, R: Region, s: nat)
    requires Tree(t') && Sized(t) && Extends(t, t', T, R) && Denotes(T, L)
    requires s in t'.place && Meets(R, PlaceLo(t'.place[s]), PlaceHi(t'.place[s]))
    ensures Entered(Positions(t), L, R, t.baseLevel, t'.place[s].level, t'.place[s].num)
    decreases t'.place[s].level
  {
    hide Sized, Denotes;
    var p := t'.place[s];
    var q := AboveOf(t', s);
    MeetsAbove(R, p.level, p.num);
    if q.Sub? {
      LinkedEntered(t, t', T, L, R, q.idx);
    }
    assert Entered(Positions(t), L, R, t.baseLevel, p.level - 1, p.num / 512);
    LinkedServes(t, t', T, L, R, s);
  }

  // The table above a linked one.
  lemma AboveOf(t: Tabs, s: nat) returns (q: Ref)
    requires Tree(t) && s in t.place
    ensures Has(t, q) && 0 <= t.baseLevel < t.place[s].level <= 3
    ensures At(t, q).level == t.place[s].level - 1 && At(t, q).num == t.place[s].num / 512
  {
    var j;
    q, j := LinkOf(t, s);
    LevelBounds(t, q);
  }

  lemma RefEntered(t: Tabs, t': Tabs, T: Trans, L: seq<Region>, R: Region, r: Ref)
    requires Tree(t') && Sized(t) && Extends(t, t', T, R) && Denotes(T, L) && Has(t', r)
    requires Meets(R, TableLo(At(t', r).level, At(t', r).num), TableHi(At(t', r).level, At(t', r).num))
    ensures Entered(Positions(t), L, R, t.baseLevel, At(t', r).level, At(t', r).num)
  {
    if r.Sub? {
      LinkedEntered(t, t', T, L, R, r.idx);
    }
  }

  // Every table linked while R was being mapped is needed.
  lemma OnlyNeeded(t: Tabs, t': Tabs, T: Trans, L: seq<Region>, R: Region)
    requires Tree(t') && Sized(t) && Extends(t, t', T, R) && Denotes(T, L)
    ensures Positions(t') <= TablesAfter(Positions(t), L, R, t.baseLevel)
  {
    forall p | p in Positions(t') && p !in Positions(t)
      ensures p in Needs(Positions(t), L, R, t.baseLevel)
    {
      var s := PositionTable(t', p);
      if s in t.place {
        PositionOf(t, s);
      }
      LinkedEntered(t, t', T, L, R, s);
      NeedsMeans(Positions(t), L, R, t.baseLevel, p);
    }
  }

  // ---- needed tables are linked --------------------------------------------

  // A leaf of the mapping of R over addresses that T does not map is one for R.
  lemma LeafOfRegion(d: Desc, l: int, e: int, T: Trans, R: Region, f: int)
    requires 0 <= l < 3 && Compatible(T, R) && EntryOk(d, l, e, Upto(T, R, f)) && (d.Block? || d.Page?)
    requires Lo(l, e) !in T
    ensures LeafFor(R, l, e)
  {
    var lo, hi, U := Lo(l, e), Lo(l, e + 1), Upto(T, R, f);
    EntryStep(l, e);
    assert lo in U && U[lo] == Own(R, R.attr);
    assert hi - 1 in U && U[hi - 1] == U[lo];
    assert R.Contains(lo) && R.Contains(hi - 1);
  }

  // An entry that needs a table and of which R is mapped in part has one.
  lemma MustBeTable(t: Tabs, T: Trans, R: Region, f: int, r: Ref, i: int)
    requires Sized(t) && Slot(t, r, i) && At(t, r).level < 3 && Compatible(T, R) && 0 < R.size
    requires SlotOk(t, r, i, Upto(T, R, f)) && Meets(R, EntryLo(t, r, i), EntryHi(t, r, i))
    requires EntryLo(t, r, i) < f && R.baseVa < f && EntryLo(t, r, i) !in T
    requires !LeafFor(R, At(t, r).level, Num(t, r, i))
    ensures Row(t, r)[i].Table?
  {
    var d, l, e := Row(t, r)[i], At(t, r).level, Num(t, r, i);
    LevelBounds(t, r);
    EntryStep(l, e);
    assert (if R.baseVa > Lo(l, e) then R.baseVa else Lo(l, e)) in Upto(T, R, f);
    if d.Block? || d.Page? {
      LeafOfRegion(d, l, e, T, R, f);
      assert false;
    }
  }

  lemma SlotThere(t: Tabs, r: Ref, R: Region, level: int, n: int)
    requires Sized(t) && Has(t, r) && At(t, r).level == level - 1 && At(t, r).num == n / 512
    requires R.EndVa() <= RefHi(t, Base) && Meets(R, TableLo(level, n), TableHi(level, n)) && level <= 3
    ensures Slot(t, r, n - 512 * (n / 512)) && Num(t, r, n - 512 * (n / 512)) == n
    ensures EntryLo(t, r, n - 512 * (n / 512)) == TableLo(level, n)
    ensures EntryHi(t, r, n - 512 * (n / 512)) == TableHi(level, n)
  {
    LevelBounds(t, r);
    AbovePos(level, n);
    PosRange(level, n);
    if r.Base? {
      Monotone(level - 1, n, |t.base|);
    }
  }

  lemma {:induction false} EnteredLinked(t: Tabs, t': Tabs, T: Trans, L: seq<Region>, R: Region, f: int, level: int,
      n: int)
    returns (r: Ref)
    requires Tree(t') && Agree(t', Upto(T, R, f)) && Sized(t) && Extends(t, t', T, R) && Denotes(T, L)
    requires Compatible(T, R)
    requires 0 < R.size && R.EndVa() <= RefHi(t', Base) && level <= 3
    requires Entered(Positions(t), L, R, t.baseLevel, level, n) && TableLo(level, n) < f && R.baseVa < f
    ensures Has(t', r) && At(t', r).level == level && At(t', r).num == n
    decreases level
  {
    hide Compatible, Upto, LeafFor, LeafFits, LeafOk, Lo, Parents, Unique, Vacant, PosOf;
    if level == t.baseLevel {
      r := Base;
    } else if Pos(level, n) in Positions(t) {
      var s := PositionTable(t, Pos(level, n));
      r := Sub(s);
    } else {
      AbovePos(level, n);
      var q := EnteredLinked(t, t', T, L, R, f, level - 1, n / 512);
      var i := n - 512 * (n / 512);
      SlotThere(t', q, R, level, n);
      assert SlotOk(t', q, i, Upto(T, R, f)) && ChildOk(t', q, i);
      assert First(L, TableLo(level, n)).Some? <==> TableLo(level, n) in T;
      MustBeTable(t', T, R, f, q, i);
      r := Sub(Row(t', q)[i].next);
    }
  }

  lemma NeededLinked(t: Tabs, t': Tabs, T: Trans, L: seq<Region>, R: Region, f: int, p: Pos)
    requires Tree(t') && Agree(t', Upto(T, R, f)) && Sized(t) && Extends(t, t', T, R) && Denotes(T, L)
    requires Compatible(T, R)
    requires 0 < R.size && R.EndVa() <= RefHi(t', Base)
    requires p in Needs(Positions(t), L, R, t.baseLevel) && TableLo(p.level, p.num) < f && R.baseVa < f
    ensures p in Positions(t')
  {
    NeedsMeans(Positions(t), L, R, t.baseLevel, p);
    var r := EnteredLinked(t, t', T, L, R, f, p.level, p.num);
    PositionOf(t', r.idx);
  }

  // Mapping all of R links exactly the tables it needs.
  lemma AllNeeded(t: Tabs, t': Tabs, T: Trans, L: seq<Region>, R: Region)
    requires Tree(t') && Agree(t', Upto(T, R, R.EndVa())) && Sized(t) && Extends(t, t', T, R) && Denotes(T, L)
    requires Compatible(T, R)
    requires 0 < R.size && R.EndVa() <= RefHi(t', Base)
    ensures Positions(t') == TablesAfter(Positions(t), L, R, t.baseLevel)
    ensures Suffice(t, L, R)
  {
    hide Sized, Compatible, Denotes, Upto, Agree;
    OnlyNeeded(t, t', T, L, R);
    ExtendsPositions(t, t', T, R);
    forall p | p in Needs(Positions(t), L, R, t.baseLevel)
      ensures p in Positions(t')
    {
      NeedsMeans(Positions(t), L, R, t.baseLevel, p);
      NeededLinked(t, t', T, L, R, R.EndVa(), p);
    }
    PositionCount(t');
  }

  // ---- a table that is not there -------------------------------------------

  // The position of the table that a stuck entry needs.
  function Lacking(t: Tabs, r: Ref, i: int): Pos
    requires Has(t, r)
  {
    Pos(At(t, r).level + 1, Num(t, r, i))
  }

  lemma LackingNeeded(t: Tabs, t': Tabs, T: Trans, L: seq<Region>, R: Region, r: Ref, i: int)
    requires Tree(t') && Sized(t) && Extends(t, t', T, R) && Denotes(T, L)
    requires StuckAt(t', R, r, i) && Agree(t', Upto(T, R, EntryLo(t', r, i)))
    ensures Lacking(t', r, i) in Needs(Positions(t), L, R, t.baseLevel) && Lacking(t', r, i) !in Positions(t')
  {
    var m := Lacking(t', r, i);
    LackingEntered(t, t', T, L, R, r, i, m.level, m.num);
    NotThere(t', R, r, i);
    ExtendsPositions(t, t', T, R);
    NeedsMeans(Positions(t), L, R, t.baseLevel, m);
  }

  lemma LackingEntered(t: Tabs, t': Tabs, T: Trans, L: seq<Region>, R: Region, r: Ref, i: int, level: int, n: int)
    requires Tree(t') && Sized(t) && Extends(t, t', T, R) && Denotes(T, L)
    requires StuckAt(t', R, r, i) && Agree(t', Upto(T, R, EntryLo(t', r, i)))
    requires level == At(t', r).level + 1 && n == Num(t', r, i)
    ensures t.baseLevel < level <= 3 && Entered(Positions(t), L, R, t.baseLevel, level, n)
  {
    LevelBounds(t', r);
    MeetsAbove(R, level, n);
    assert At(t', r).level == level - 1 && At(t', r).num == n / 512;
    RefEntered(t, t', T, L, R, r);
    assert Entered(Positions(t), L, R, t.baseLevel, level - 1, n / 512);
    LackingUnserved(t', T, L, R, r, i, level, n);
  }

  lemma LackingUnserved(t: Tabs, T: Trans, L: seq<Region>, R: Region, r: Ref, i: int, level: int, n: int)
    requires Tree(t) && Denotes(T, L) && StuckAt(t, R, r, i) && Agree(t, Upto(T, R, EntryLo(t, r, i)))
    requires level == At(t, r).level + 1 && n == Num(t, r, i)
    ensures Unserved(L, R, level, n)
  {
    var f := EntryLo(t, r, i);
    LevelBounds(t, r);
    PosRange(level, n);
    assert SlotOk(t, r, i, Upto(T, R, f));
    assert f !in Upto(T, R, f);
    assert First(L, f).Some? <==> f in T;
  }

  lemma NotThere(t: Tabs, R: Region, r: Ref, i: int)
    requires Tree(t) && StuckAt(t, R, r, i)
    ensures Lacking(t, r, i) !in Positions(t)
  {
    if Lacking(t, r, i) in Positions(t) {
      var s := PositionTable(t, Lacking(t, r, i));
      var q, j := LinkOf(t, s);
      SamePlace(t, q, r, j, i);
      assert false;
    }
  }

  // With all tables in use, an entry that needs another one shows that the pool
  // was too small.
  lemma TooFew(t: Tabs, t': Tabs, T: Trans, L: seq<Region>, R: Region, r: Ref, i: int)
    requires Tree(t') && Sized(t) && Extends(t, t', T, R) && Denotes(T, L)
    requires StuckAt(t', R, r, i) && Agree(t', Upto(T, R, EntryLo(t', r, i)))
    requires forall k :: 0 <= k < |t'.subs| ==> k in t'.place
    ensures !Suffice(t, L, R)
  {
    LackingNeeded(t, t', T, L, R, r, i);
    OnlyNeeded(t, t', T, L, R);
    PositionCount(t');
    Smaller(Positions(t'), TablesAfter(Positions(t), L, R, t.baseLevel));
  }

  // ---- the tables of a list ------------------------------------------------

  // A longer list has at least the tables of a shorter one.
  lemma {:induction false} PrefixTables(L: seq<Region>, k: nat, base: int)
    requires k <= |L|
    ensures TablesOf(L[..k], base) <= TablesOf(L, base)
  {
    if k < |L| {
      assert L[..|L| - 1][..k] == L[..k];
      PrefixTables(L[..|L| - 1], k, base);
    } else {
      assert L[..k] == L;
    }
  }
}

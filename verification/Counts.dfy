/**
 Region counts of the pool tables while a region is being mapped or unmapped.

 Mapping increments the count of a table when it enters it, unmapping
 decrements it when it leaves.  In address order that makes the set of tables
 already counted a function of the address reached and of the tables still open.
 */
module Counts {
  import opened Geometry
  import opened Tables
  import opened Mapping

  function PlaceLo(p: Place): int { TableLo(p.level, p.num) }
  function PlaceHi(p: Place): int { TableHi(p.level, p.num) }

  // Table `p` has addresses of [lo, hi).
  predicate InWindow(p: Place, lo: int, hi: int) {
    PlaceLo(p) < hi && lo < PlaceHi(p) && lo < hi
  }

  // Table `p`, of the given level or above, holds address `a`.
  predicate OnPath(p: Place, level: int, a: int) {
    p.level <= level && PlaceLo(p) <= a < PlaceHi(p)
  }

  // Counted once the region is mapped up to `c` with the tables of level at
  // most `level` around `a` open.
  predicate Seen(p: Place, R: Region, c: int, level: int, a: int) {
    InWindow(p, R.baseVa, c) || OnPath(p, level, a)
  }

  // Counted when mapping stopped for lack of a table at `f`.
  predicate SeenAtFailure(p: Place, R: Region, f: int) {
    R.baseVa < PlaceHi(p) && PlaceLo(p) <= (if f < R.baseVa then R.baseVa else f)
  }

  // Uncounted once the region is unmapped up to `c`.
  predicate Left(p: Place, R: Region, c: int, level: int, a: int) {
    InWindow(p, R.baseVa, if c < R.EndVa() then c else R.EndVa()) && !OnPath(p, level, a)
  }

  function One(b: bool): int { if b then 1 else 0 }

  ghost predicate SeenCounts(t: Tabs, cnt: seq<int>, c0: seq<int>, R: Region, c: int, level: int, a: int) {
    |cnt| == |c0| == |t.subs| &&
    forall s {:trigger t.place[s]} :: s in t.place && s < |cnt| ==>
      cnt[s] == c0[s] + One(Seen(t.place[s], R, c, level, a))
  }

  ghost predicate FailureCounts(t: Tabs, cnt: seq<int>, c0: seq<int>, R: Region, f: int) {
    |cnt| == |c0| == |t.subs| &&
    forall s {:trigger t.place[s]} :: s in t.place && s < |cnt| ==>
      cnt[s] == c0[s] + One(SeenAtFailure(t.place[s], R, f))
  }

  ghost predicate LeftCounts(t: Tabs, cnt: seq<int>, c0: seq<int>, R: Region, c: int, level: int, a: int) {
    |cnt| == |c0| == |t.subs| &&
    forall s {:trigger t.place[s]} :: s in t.place && s < |cnt| ==>
      cnt[s] == c0[s] - One(Left(t.place[s], R, c, level, a))
  }

  // The range of table `r` as a place.
  function RefLo(t: Tabs, r: Ref): int
    requires Has(t, r)
  {
    TableLo(At(t, r).level, At(t, r).num)
  }

  function RefHi(t: Tabs, r: Ref): int
    requires Has(t, r)
  {
    Lo(At(t, r).level, 512 * At(t, r).num + |Row(t, r)|)
  }

  lemma SlotInRef(t: Tabs, r: Ref, i: int)
    requires Sized(t) && Slot(t, r, i)
    ensures RefLo(t, r) <= EntryLo(t, r, i) < EntryHi(t, r, i) <= RefHi(t, r)
    ensures EntryHi(t, r, i) == EntryLo(t, r, i) + BlockSize(At(t, r).level)
    ensures EntryHi(t, r, i) <= TableHi(At(t, r).level, At(t, r).num)
    ensures i + 1 == |Row(t, r)| <==> EntryHi(t, r, i) == RefHi(t, r)
  {
    hide Sized, Lo;
    LevelBounds(t, r);
    var p := At(t, r);
    Monotone(p.level, 512 * p.num, 512 * p.num + i);
    Monotone(p.level, 512 * p.num + i + 1, 512 * p.num + |Row(t, r)|);
    Monotone(p.level, 512 * p.num + i + 1, 512 * p.num + 512);
    EntryStep(p.level, 512 * p.num + i);
  }

  // The loops over a table start at the entry holding the region's first address.
  lemma StartEntry(t: Tabs, r: Ref, R: Region)
    requires Sized(t) && Has(t, r) && Meets(R, RefLo(t, r), RefHi(t, r)) && 0 < R.size
    ensures var l := At(t, r).level;
      var va := StartVa(R, RefLo(t, r), l);
      var i := VaToIndex(RefLo(t, r), va, l);
      && Slot(t, r, i) && va == EntryLo(t, r, i)
      && RefLo(t, r) <= va < R.EndVa() && R.baseVa < EntryHi(t, r, i)
      && (va == RefLo(t, r) || va <= R.baseVa)
  {
    hide Lo;
    LevelBounds(t, r);
    var l, n := At(t, r).level, At(t, r).num;
    if R.baseVa > RefLo(t, r) {
      var e := R.baseVa / BlockSizeOf(l);
      EntryHolding(l, R.baseVa);
      Monotone(l, 512 * n, e + 1);
      Monotone(l, e, 512 * n + |Row(t, r)|);
      IndexOfEntry(l, 512 * n, e);
      Monotone(l, 512 * n, e);
    } else {
      IndexOfEntry(l, 512 * n, 512 * n);
      EntryStep(l, 512 * n);
    }
  }

  function BlockSizeOf(level: int): (b: int)
    ensures b > 0
  {
    BlockSizePositive(level);
    BlockSize(level)
  }

  lemma EntryHolding(level: int, a: int)
    requires 0 <= level <= 3
    ensures Lo(level, a / BlockSizeOf(level)) == (a / BlockSizeOf(level)) * BlockSizeOf(level)
    ensures Lo(level, a / BlockSizeOf(level)) <= a < Lo(level, a / BlockSizeOf(level) + 1)
  {
    LoIsProduct(level, a / BlockSizeOf(level));
    EntryStep(level, a / BlockSizeOf(level));
  }

  // Nothing of the region lies between the table's start and the first entry.
  lemma StartUpto(T: Trans, R: Region, tableVa: int, va: int)
    requires tableVa == va || (tableVa <= va <= R.baseVa)
    ensures Upto(T, R, tableVa) == Upto(T, R, va)
  {
  }

  // Past an entry that was handled to its end, the region continues or ends there.
  lemma NextEntry(t: Tabs, r: Ref, i: int, R: Region)
    requires Sized(t) && Slot(t, r, i) && Aligned4K(R)
    requires EntryHi(t, r, i) <= R.EndVa() && R.baseVa < EntryHi(t, r, i)
    ensures EntryLo(t, r, i + 1) == EntryHi(t, r, i) == EntryLo(t, r, i) + BlockSize(At(t, r).level)
    ensures R.baseVa < EntryHi(t, r, i + 1)
    ensures R.EndVa() - 1 <= EntryHi(t, r, i) ==> R.EndVa() == EntryHi(t, r, i)
    ensures RefLo(t, r) < EntryHi(t, r, i) <= RefHi(t, r)
    ensures i + 1 == |Row(t, r)| ==> EntryHi(t, r, i) == RefHi(t, r)
  {
    SlotInRef(t, r, i);
    LevelBounds(t, r);
    EntryStep(At(t, r).level, Num(t, r, i) + 1);
    Aligned(At(t, r).level, Num(t, r, i) + 1);
  }

  // Past an entry, the region continues into the next one or has ended.
  lemma NextEntryOrEnd(t: Tabs, r: Ref, i: int, R: Region)
    requires Sized(t) && Slot(t, r, i) && Aligned4K(R) && R.baseVa < EntryHi(t, r, i)
    ensures EntryLo(t, r, i + 1) == EntryHi(t, r, i) == EntryLo(t, r, i) + BlockSize(At(t, r).level)
    ensures R.baseVa < EntryHi(t, r, i + 1)
    ensures R.EndVa() - 1 <= EntryHi(t, r, i) ==> R.EndVa() <= EntryHi(t, r, i)
    ensures RefLo(t, r) < EntryHi(t, r, i) <= RefHi(t, r)
    ensures i + 1 == |Row(t, r)| ==> EntryHi(t, r, i) == RefHi(t, r)
  {
    SlotInRef(t, r, i);
    LevelBounds(t, r);
    EntryStep(At(t, r).level, Num(t, r, i) + 1);
    Aligned(At(t, r).level, Num(t, r, i) + 1);
  }

  // The table below an entry covers the entry's range.
  lemma TableBelow(t: Tabs, r: Ref, i: int)
    requires Tree(t) && Slot(t, r, i) && Row(t, r)[i].Table?
    ensures At(t, r).level < 3
    ensures var s := Sub(Row(t, r)[i].next);
      Has(t, s) && At(t, s).level == At(t, r).level + 1 && RefLo(t, s) == EntryLo(t, r, i)
        && RefHi(t, s) == EntryHi(t, r, i)
    ensures EntryHi(t, r, i) == EntryLo(t, r, i) + BlockSize(At(t, r).level)
    ensures EntryHi(t, r, i) % 0x1000 == 0
  {
    StepTable(t, r, i);
    SlotInRef(t, r, i);
    LevelBounds(t, r);
    Aligned(At(t, r).level, Num(t, r, i) + 1);
  }

  // A table of an upper or equal level holds all of table (level, n) or none of it.
  lemma PathShift(p: Place, level: int, n: int, a: int)
    requires 0 <= p.level <= 3 && 0 <= level <= 3
    requires TableLo(level, n) <= a < TableHi(level, n)
    requires p.level <= level
    ensures OnPath(p, level, a) <==> OnPath(p, level, TableLo(level, n))
  {
    Monotone(p.level, 512 * p.num, 512 * p.num + 512);
    if OnPath(p, level, a) || OnPath(p, level, TableLo(level, n)) {
      PathCovers(p, level, n, a);
    }
  }

  lemma {:induction false} PathCovers(p: Place, level: int, n: int, a: int)
    requires 0 <= p.level <= level <= 3
    requires TableLo(level, n) <= a < TableHi(level, n)
    requires OnPath(p, level, a) || OnPath(p, level, TableLo(level, n))
    ensures PlaceLo(p) <= TableLo(level, n) && TableHi(level, n) <= PlaceHi(p)
  {
    TablesNest(p.level, 512 * p.num, 512 * p.num + 512, level, n);
  }

  lemma Whole512(a: int)
    ensures (512 * a) % 512 == 0
  {
  }

  lemma WholeTables(a: int, b: int, n: int)
    requires a % 512 == 0 && b % 512 == 0 && a < 512 * n + 512 && 512 * n < b
    ensures a <= 512 * n && 512 * n + 512 <= b
  {
  }

  // A run of entries aligned to whole tables and a table of the same or a
  // deeper level are nested or disjoint.
  lemma {:induction false} TablesNest(l: int, a: int, b: int, l': int, n: int)
    requires 0 <= l <= l' <= 3 && a < b && a % 512 == 0 && b % 512 == 0
    requires Overlap(Lo(l, a), Lo(l, b), TableLo(l', n), TableHi(l', n))
    ensures Lo(l, a) <= TableLo(l', n) && TableHi(l', n) <= Lo(l, b)
    decreases l' - l
  {
    hide BlockSize;
    if l == l' {
      Monotone(l, a, 512 * n + 512);
      Monotone(l, 512 * n, b);
      WholeTables(a, b, n);
      Monotone(l, a, 512 * n);
      Monotone(l, 512 * n + 512, b);
    } else {
      Whole512(a);
      Whole512(b);
      assert Lo(l, a) == Lo(l + 1, 512 * a) && Lo(l, b) == Lo(l + 1, 512 * b);
      TablesNest(l + 1, 512 * a, 512 * b, l', n);
    }
  }

  // A linked table meeting a non-table entry is open whenever that entry's table is.
  lemma MeetsNonTable(t: Tabs, r: Ref, i: int, s: nat)
    requires Tree(t) && Slot(t, r, i) && !Row(t, r)[i].Table? && s in t.place
    requires Overlap(EntryLo(t, r, i), EntryHi(t, r, i), PlaceLo(t.place[s]), PlaceHi(t.place[s]))
    ensures OnPath(t.place[s], At(t, r).level, RefLo(t, r))
    ensures PlaceLo(t.place[s]) <= RefLo(t, r) && TableHi(At(t, r).level, At(t, r).num) <= PlaceHi(t.place[s])
  {
    var p, q := t.place[s], At(t, r);
    LevelBounds(t, r);
    SlotInRef(t, r, i);
    if q.level < p.level {
      Ancestor(t, r, i, s);
      assert false;
    } else {
      TablesNest(p.level, 512 * p.num, 512 * p.num + 512, q.level, q.num);
    }
  }

  // Stepping over a non-table entry counts no table.
  lemma SeenStep(t: Tabs, r: Ref, i: int, R: Region, s: nat)
    requires Tree(t) && Slot(t, r, i) && !Row(t, r)[i].Table? && s in t.place
    requires Meets(R, EntryLo(t, r, i), EntryHi(t, r, i))
    ensures Seen(t.place[s], R, EntryHi(t, r, i), At(t, r).level, RefLo(t, r))
         == Seen(t.place[s], R, EntryLo(t, r, i), At(t, r).level, RefLo(t, r))
  {
    var p := t.place[s];
    SlotInRef(t, r, i);
    if Overlap(EntryLo(t, r, i), EntryHi(t, r, i), PlaceLo(p), PlaceHi(p)) {
      MeetsNonTable(t, r, i, s);
    }
  }

  lemma SeenStepAll(t: Tabs, cnt: seq<int>, c0: seq<int>, r: Ref, i: int, R: Region)
    requires Tree(t) && Slot(t, r, i) && !Row(t, r)[i].Table?
    requires Meets(R, EntryLo(t, r, i), EntryHi(t, r, i))
    requires SeenCounts(t, cnt, c0, R, EntryLo(t, r, i), At(t, r).level, RefLo(t, r))
    ensures SeenCounts(t, cnt, c0, R, EntryHi(t, r, i), At(t, r).level, RefLo(t, r))
  {
    forall s | s in t.place
      ensures Seen(t.place[s], R, EntryHi(t, r, i), At(t, r).level, RefLo(t, r))
           == Seen(t.place[s], R, EntryLo(t, r, i), At(t, r).level, RefLo(t, r))
    {
      SeenStep(t, r, i, R, s);
    }
  }

  lemma SeenFails(t: Tabs, r: Ref, i: int, R: Region, s: nat)
    requires Tree(t) && Slot(t, r, i) && !Row(t, r)[i].Table? && s in t.place
    requires Meets(R, EntryLo(t, r, i), EntryHi(t, r, i))
    ensures SeenAtFailure(t.place[s], R, EntryLo(t, r, i))
         == Seen(t.place[s], R, EntryLo(t, r, i), At(t, r).level, RefLo(t, r))
  {
    var p, f := t.place[s], EntryLo(t, r, i);
    SlotInRef(t, r, i);
    Monotone(p.level, 512 * p.num, 512 * p.num + 512);
    if Overlap(f, EntryHi(t, r, i), PlaceLo(p), PlaceHi(p)) {
      MeetsNonTable(t, r, i, s);
    } else if OnPath(p, At(t, r).level, RefLo(t, r)) {
      LevelBounds(t, r);
      PathCovers(p, At(t, r).level, At(t, r).num, RefLo(t, r));
    }
  }

  lemma SeenFailsAll(t: Tabs, cnt: seq<int>, c0: seq<int>, r: Ref, i: int, R: Region)
    requires Tree(t) && Slot(t, r, i) && !Row(t, r)[i].Table?
    requires Meets(R, EntryLo(t, r, i), EntryHi(t, r, i))
    requires SeenCounts(t, cnt, c0, R, EntryLo(t, r, i), At(t, r).level, RefLo(t, r))
    ensures FailureCounts(t, cnt, c0, R, EntryLo(t, r, i))
  {
    forall s | s in t.place
      ensures SeenAtFailure(t.place[s], R, EntryLo(t, r, i))
           == Seen(t.place[s], R, EntryLo(t, r, i), At(t, r).level, RefLo(t, r))
    {
      SeenFails(t, r, i, R, s);
    }
  }

  // Before and after the table below an entry is processed, "open down to the
  // entry's table" is the same whether measured at the entry or at the table.
  lemma SeenShift(t: Tabs, cnt: seq<int>, c0: seq<int>, r: Ref, i: int, R: Region, c: int)
    requires Tree(t) && Slot(t, r, i)
    ensures SeenCounts(t, cnt, c0, R, c, At(t, r).level, RefLo(t, r))
       <==> SeenCounts(t, cnt, c0, R, c, At(t, r).level, EntryLo(t, r, i))
  {
    LevelBounds(t, r);
    SlotInRef(t, r, i);
    forall s | s in t.place
      ensures OnPath(t.place[s], At(t, r).level, RefLo(t, r)) == OnPath(t.place[s], At(t, r).level, EntryLo(t, r, i))
    {
      if t.place[s].level <= At(t, r).level {
        PathShift(t.place[s], At(t, r).level, At(t, r).num, EntryLo(t, r, i));
      }
    }
  }

  // Opening a table: its own count goes up by one.
  lemma SeenOpen(t: Tabs, cnt: seq<int>, cnt': seq<int>, c0: seq<int>, r: Ref, R: Region, c: int)
    requires Tree(t) && Has(t, r) && RefLo(t, r) <= c
    requires c == RefLo(t, r) || c <= R.baseVa
    requires SeenCounts(t, cnt, c0, R, RefLo(t, r), At(t, r).level - 1, RefLo(t, r))
    requires |cnt'| == |cnt|
    requires forall s :: 0 <= s < |cnt| ==> cnt'[s] == cnt[s] + One(r == Sub(s))
    ensures SeenCounts(t, cnt', c0, R, c, At(t, r).level, RefLo(t, r))
  {
    forall s | s in t.place
      ensures One(Seen(t.place[s], R, c, At(t, r).level, RefLo(t, r)))
           == One(Seen(t.place[s], R, RefLo(t, r), At(t, r).level - 1, RefLo(t, r))) + One(r == Sub(s))
    {
      OpenOnly(t, r, s);
      if r == Sub(s) {
        assert !InWindow(t.place[s], R.baseVa, RefLo(t, r));
      }
    }
  }

  // Among the tables of its level, a linked table is the only one on its path.
  lemma OpenOnly(t: Tabs, r: Ref, s: nat)
    requires Tree(t) && Has(t, r) && s in t.place
    ensures OnPath(t.place[s], At(t, r).level, RefLo(t, r))
       <==> OnPath(t.place[s], At(t, r).level - 1, RefLo(t, r)) || r == Sub(s)
  {
    LevelBounds(t, r);
    var p, q := t.place[s], At(t, r);
    Monotone(p.level, 512 * p.num, 512 * p.num + 512);
    if p.level == q.level && PlaceLo(p) <= RefLo(t, r) < PlaceHi(p) {
      Monotone(p.level, 512 * p.num, 512 * q.num);
      Monotone(p.level, 512 * q.num, 512 * p.num + 512);
      assert p.num == q.num;
    }
  }

  // Leaving a table that the region meets: it stays counted.
  lemma SeenClose(t: Tabs, cnt: seq<int>, c0: seq<int>, r: Ref, R: Region, c: int)
    requires Tree(t) && Has(t, r) && RefLo(t, r) < c && R.baseVa < c && R.baseVa < RefHi(t, r)
    requires SeenCounts(t, cnt, c0, R, c, At(t, r).level, RefLo(t, r))
    ensures SeenCounts(t, cnt, c0, R, c, At(t, r).level - 1, RefLo(t, r))
  {
    LevelBounds(t, r);
    Monotone(At(t, r).level, 512 * At(t, r).num + |Row(t, r)|, 512 * At(t, r).num + 512);
    forall s | s in t.place
      ensures Seen(t.place[s], R, c, At(t, r).level, RefLo(t, r))
           == Seen(t.place[s], R, c, At(t, r).level - 1, RefLo(t, r))
    {
      OpenOnly(t, r, s);
    }
  }

  ghost predicate FreshZero(t: Tabs, c0: seq<int>) {
    forall s :: 0 <= s < |c0| && s !in t.place ==> c0[s] == 0
  }

  // A freshly linked table has not been counted yet.
  lemma SeenLink(t: Tabs, cnt: seq<int>, c0: seq<int>, r: Ref, i: int, s: nat, R: Region)
    requires Linkable(t, r, i, s) && FreshZero(t, c0) && |cnt| == |c0| == |t.subs| && cnt[s] == 0
    requires SeenCounts(t, cnt, c0, R, EntryLo(t, r, i), At(t, r).level, EntryLo(t, r, i))
    ensures SeenCounts(Link(t, r, i, s), cnt, c0, R, EntryLo(t, r, i), At(t, r).level, EntryLo(t, r, i))
  {
    LevelBounds(t, r);
    var t' := Link(t, r, i, s);
    forall k | k in t'.place
      ensures cnt[k] == c0[k] + One(Seen(t'.place[k], R, EntryLo(t, r, i), At(t, r).level, EntryLo(t, r, i)))
    {
      if k != s {
        assert t'.place[k] == t.place[k];
      } else {
        assert PlaceLo(t'.place[s]) == EntryLo(t, r, i);
      }
    }
  }

  // ---- unmapping -----------------------------------------------------------

  // Stepping over a non-table entry leaves no table.
  lemma LeftStep(t: Tabs, r: Ref, i: int, R: Region, s: nat)
    requires Tree(t) && Slot(t, r, i) && !Row(t, r)[i].Table? && s in t.place
    requires Meets(R, EntryLo(t, r, i), EntryHi(t, r, i))
    ensures Left(t.place[s], R, EntryHi(t, r, i), At(t, r).level, RefLo(t, r))
         == Left(t.place[s], R, EntryLo(t, r, i), At(t, r).level, RefLo(t, r))
  {
    SlotInRef(t, r, i);
    if Overlap(EntryLo(t, r, i), EntryHi(t, r, i), PlaceLo(t.place[s]), PlaceHi(t.place[s])) {
      MeetsNonTable(t, r, i, s);
    }
  }

  lemma LeftStepAll(t: Tabs, cnt: seq<int>, c0: seq<int>, r: Ref, i: int, R: Region)
    requires Tree(t) && Slot(t, r, i) && !Row(t, r)[i].Table?
    requires Meets(R, EntryLo(t, r, i), EntryHi(t, r, i))
    requires LeftCounts(t, cnt, c0, R, EntryLo(t, r, i), At(t, r).level, RefLo(t, r))
    ensures LeftCounts(t, cnt, c0, R, EntryHi(t, r, i), At(t, r).level, RefLo(t, r))
  {
    forall s | s in t.place
      ensures Left(t.place[s], R, EntryHi(t, r, i), At(t, r).level, RefLo(t, r))
           == Left(t.place[s], R, EntryLo(t, r, i), At(t, r).level, RefLo(t, r))
    {
      LeftStep(t, r, i, R, s);
    }
  }

  lemma LeftShift(t: Tabs, cnt: seq<int>, c0: seq<int>, r: Ref, i: int, R: Region, c: int)
    requires Tree(t) && Slot(t, r, i)
    ensures LeftCounts(t, cnt, c0, R, c, At(t, r).level, RefLo(t, r))
       <==> LeftCounts(t, cnt, c0, R, c, At(t, r).level, EntryLo(t, r, i))
  {
    LevelBounds(t, r);
    SlotInRef(t, r, i);
    forall s | s in t.place
      ensures OnPath(t.place[s], At(t, r).level, RefLo(t, r)) == OnPath(t.place[s], At(t, r).level, EntryLo(t, r, i))
    {
      if t.place[s].level <= At(t, r).level {
        PathShift(t.place[s], At(t, r).level, At(t, r).num, EntryLo(t, r, i));
      }
    }
  }

  // Entering a table changes no count.
  lemma LeftOpen(t: Tabs, cnt: seq<int>, c0: seq<int>, r: Ref, R: Region, c: int)
    requires Tree(t) && Has(t, r) && RefLo(t, r) <= c
    requires c == RefLo(t, r) || c <= R.baseVa
    requires LeftCounts(t, cnt, c0, R, RefLo(t, r), At(t, r).level - 1, RefLo(t, r))
    ensures LeftCounts(t, cnt, c0, R, c, At(t, r).level, RefLo(t, r))
  {
    forall s | s in t.place
      ensures Left(t.place[s], R, c, At(t, r).level, RefLo(t, r))
           == Left(t.place[s], R, RefLo(t, r), At(t, r).level - 1, RefLo(t, r))
    {
      OpenOnly(t, r, s);
    }
  }

  // Leaving a table that the region meets: its own count goes down by one.
  lemma LeftClose(t: Tabs, cnt: seq<int>, cnt': seq<int>, c0: seq<int>, r: Ref, R: Region, c: int)
    requires Tree(t) && Has(t, r) && RefLo(t, r) < c && R.baseVa < c && 0 < R.size
    requires Meets(R, RefLo(t, r), RefHi(t, r))
    requires LeftCounts(t, cnt, c0, R, c, At(t, r).level, RefLo(t, r))
    requires |cnt'| == |cnt|
    requires forall s :: 0 <= s < |cnt| ==> cnt'[s] == cnt[s] - One(r == Sub(s))
    ensures LeftCounts(t, cnt', c0, R, c, At(t, r).level - 1, RefLo(t, r))
  {
    LevelBounds(t, r);
    Monotone(At(t, r).level, 512 * At(t, r).num + |Row(t, r)|, 512 * At(t, r).num + 512);
    forall s | s in t.place
      ensures One(Left(t.place[s], R, c, At(t, r).level - 1, RefLo(t, r)))
           == One(Left(t.place[s], R, c, At(t, r).level, RefLo(t, r))) + One(r == Sub(s))
    {
      OpenOnly(t, r, s);
      SelfOpen(t, r, s);
    }
  }

  // A linked table is open while it is being processed, not after.
  lemma SelfOpen(t: Tabs, r: Ref, s: nat)
    requires Tree(t) && Has(t, r) && s in t.place
    ensures r == Sub(s) ==>
      OnPath(t.place[s], At(t, r).level, RefLo(t, r)) && !OnPath(t.place[s], At(t, r).level - 1, RefLo(t, r))
  {
    Monotone(t.place[s].level, 512 * t.place[s].num, 512 * t.place[s].num + 512);
  }

  // Past the end of the region, how far past does not matter.
  lemma LeftEnd(t: Tabs, cnt: seq<int>, c0: seq<int>, R: Region, c: int, c': int, level: int, a: int)
    requires c == c' || (R.EndVa() <= c && R.EndVa() <= c')
    requires LeftCounts(t, cnt, c0, R, c, level, a)
    ensures LeftCounts(t, cnt, c0, R, c', level, a)
  {
  }

  // ---- listed regions meeting a table --------------------------------------

  // Number of regions of a list with addresses in [lo, hi).
  function Meeting(L: seq<Region>, lo: int, hi: int): (n: nat) {
    if L == [] then 0
    else Meeting(L[..|L| - 1], lo, hi) + One(Meets(L[|L| - 1], lo, hi))
  }

  lemma {:induction false} MeetingSome(L: seq<Region>, lo: int, hi: int, q: Region)
    requires q in L && Meets(q, lo, hi)
    ensures Meeting(L, lo, hi) > 0
  {
    if L[|L| - 1] != q {
      MeetingSome(L[..|L| - 1], lo, hi, q);
    }
  }

  lemma {:induction false} MeetingWider(L: seq<Region>, lo: int, hi: int, lo': int, hi': int)
    requires lo' <= lo && hi <= hi'
    ensures Meeting(L, lo, hi) <= Meeting(L, lo', hi')
  {
    if L != [] {
      MeetingWider(L[..|L| - 1], lo, hi, lo', hi');
    }
  }
}

/**
 The state of the tables while a region is being unmapped, and what clearing a
 leaf or dropping an empty table does to it.
 */
module UnmapState {
  import opened Geometry
  import opened Tables
  import opened Mapping
  import opened Counts
  import opened BreakBeforeMake
  import opened TableState

  // Unmapping R from translation T, where `own` is the region whose addresses
  // go, L the listed regions that stay, and `home`, `rows` and c0 the places, the
  // entries and the counts of the pool tables at the start.  `tidy` tells whether
  // the pool stays in order.
  datatype Job = Job(T: Trans, R: Region, own: Region, L: seq<Region>, home: map<nat, Place>, rows: seq<seq<Desc>>,
                     c0: seq<int>, tidy: bool)

  ghost predicate Owners(J: Job) {
    && Aligned4K(J.R) && Owned(J.T, J.R, J.own)
    && forall va {:trigger J.T[va]} :: va in J.T && !J.R.Contains(va) ==> J.T[va].r in J.L && J.T[va].r.Contains(va)
  }

  // Regions, staying or going, that meet a table.
  function DueAt(J: Job, p: Place): int {
    Meeting(J.L, PlaceLo(p), PlaceHi(p)) + One(Meets(J.R, PlaceLo(p), PlaceHi(p)))
  }

  function Due(t: Tabs, J: Job, s: nat): int
    requires s in t.place
  {
    DueAt(J, t.place[s])
  }

  ghost predicate Enough(t: Tabs, J: Job) {
    |J.c0| == |t.subs| &&
    forall s {:trigger t.place[s]} :: s in t.place && s < |J.c0| ==> J.c0[s] >= Due(t, J, s)
  }

  // A table that counts more than the listed regions lies below tables that do so
  // too or that a region that stays uses.
  ghost predicate Nested(t: Tabs, J: Job)
    requires |J.c0| == |t.subs| && Sized(t)
  {
    forall k, s {:trigger Inside(t.place[k], t.place[s].level, t.place[s].num)} ::
      (k in t.place && s in t.place && Inside(t.place[k], t.place[s].level, t.place[s].num)
        && J.c0[k] > Due(t, J, k)) ==>
      J.c0[s] > Due(t, J, s) || Meeting(J.L, PlaceLo(t.place[s]), PlaceHi(t.place[s])) > 0
  }

  // Only tables that R meets are uncounted.
  ghost predicate Untouched(st: State, J: Job) {
    && (forall s {:trigger st.tabs.place[s]} :: s in st.tabs.place ==> s in J.home && st.tabs.place[s] == J.home[s])
    && (forall s {:trigger J.home[s]} ::
          s in J.home && s < |st.cnt| && s < |J.c0| && !Meets(J.R, PlaceLo(J.home[s]), PlaceHi(J.home[s])) ==>
          st.cnt[s] == J.c0[s])
  }

  // A table that counted more than the listed regions at the start.
  ghost predicate Over(J: Job, s: nat) {
    s in J.home && s < |J.c0| && J.c0[s] > DueAt(J, J.home[s])
  }

  // Entry `i` of a table linked at the start is outside of R, or links a table
  // that counts too much.
  ghost predicate Stays(J: Job, s: nat, i: int)
    requires s in J.home && s < |J.rows|
  {
    var p := J.home[s];
    && 0 <= i < |J.rows[s]|
    && (!Meets(J.R, Lo(p.level, 512 * p.num + i), Lo(p.level, 512 * p.num + i + 1))
        || (J.rows[s][i].Table? && Over(J, J.rows[s][i].next)))
  }

  // Tables keep such entries, also when they are dropped.
  ghost predicate RowsKept(st: State, J: Job) {
    && |st.tabs.subs| == |J.rows| && Sized(st.tabs) && (forall s :: 0 <= s < |J.rows| ==> |J.rows[s]| == 512)
    && forall s, i {:trigger Stays(J, s, i)} :: s in J.home && s < |J.rows| && Stays(J, s, i) ==>
         st.tabs.subs[s][i] == J.rows[s][i]
  }

  // Linked tables count something.  A dropped table is used by no region that
  // stays, and counts nothing unless it counted too much.
  ghost predicate Tallied(st: State, J: Job, hot: Ref) {
    && |st.cnt| == |J.c0|
    && (forall s {:trigger st.tabs.place[s]} :: s in st.tabs.place && s < |st.cnt| ==>
      st.cnt[s] > 0 || (hot == Sub(s) && st.cnt[s] == 0))
    && (forall s {:trigger J.home[s]} :: s in J.home && s < |st.cnt| ==>
          && 0 < J.c0[s] && (Over(J, s) ==> 0 < st.cnt[s])
          && (s !in st.tabs.place ==>
            Meeting(J.L, PlaceLo(J.home[s]), PlaceHi(J.home[s])) == 0 && (st.cnt[s] == 0 || Over(J, s))))
  }

  ghost predicate Residue(st: State, J: Job, hot: Ref) {
    RowsKept(st, J) && Tallied(st, J, hot)
  }

  // Everything of R below `c` is unmapped; the tables of level at most `level`
  // around `a` are still open, and `hot` has just been left.
  ghost predicate Draining(st: State, J: Job, c: int, level: int, a: int, hot: Ref) {
    && st.dynamic && |st.cnt| == |st.tabs.subs| && Sized(st.tabs) && 0 <= st.next <= |st.tabs.subs|
    && Tree(st.tabs) && Agree(st.tabs, Without(J.T, J.R, c)) && Settled(st.trace)
    && Owners(J) && Enough(st.tabs, J) && Untouched(st, J)
    && LeftCounts(st.tabs, st.cnt, J.c0, J.R, c, level, a) && Residue(st, J, hot)
    && (J.tidy ==> Nested(st.tabs, J) && Clean(st.tabs) && Booked(st, hot))
  }

  // Same table sizes; tables are only dropped.
  ghost predicate Shrinks(t: Tabs, t': Tabs) {
    && t'.baseLevel == t.baseLevel && |t'.base| == |t.base| && |t'.subs| == |t.subs|
    && forall s {:trigger t'.place[s]} :: s in t'.place ==> s in t.place && t'.place[s] == t.place[s]
  }

  // A table that is kept keeps its place and size.
  lemma KeptAbove(t: Tabs, t': Tabs, r: Ref)
    requires Sized(t) && Sized(t') && Shrinks(t, t') && Has(t', r)
    ensures Has(t, r) && At(t', r) == At(t, r) && |Row(t', r)| == |Row(t, r)|
    ensures RefLo(t', r) == RefLo(t, r) && RefHi(t', r) == RefHi(t, r)
  {
  }

  lemma ShrinksFurther(t: Tabs, t': Tabs, t'': Tabs)
    requires Shrinks(t, t') && Shrinks(t', t'')
    ensures Shrinks(t, t'')
  {
  }

  // Clearing an entry and invalidating its addresses.
  function Cleared(st: State, r: Ref, i: int): State
    requires Slot(st.tabs, r, i)
  {
    var w := Put(st, r, i, Invalid);
    w.(trace := w.trace + [Flushed(EntryLo(st.tabs, r, i))])
  }

  lemma ClearTree(st: State, J: Job, r: Ref, i: int, level: int, a: int)
    requires Slot(st.tabs, r, i) && !Row(st.tabs, r)[i].Table?
    requires Draining(st, J, EntryLo(st.tabs, r, i), level, a, Base)
    requires Covers(J.R, EntryLo(st.tabs, r, i), EntryHi(st.tabs, r, i))
    ensures var w := Cleared(st, r, i);
      Tree(w.tabs) && Agree(w.tabs, Without(J.T, J.R, EntryHi(st.tabs, r, i))) && Settled(w.trace)
  {
    hide Nested, Owners, Agree, Without, Children, Parents, Unique, LeftCounts, Residue, Untouched, Enough, EntryOk,
      SameOutside, Pending, Ordered;
    var t, lo, hi := st.tabs, EntryLo(st.tabs, r, i), EntryHi(st.tabs, r, i);
    LevelBounds(t, r);
    ClearAdvances(At(t, r).level, Num(t, r, i), J.T, J.R);
    WriteKeepsTree(t, r, i, Invalid);
    WriteAgrees(t, r, i, Invalid, Without(J.T, J.R, lo), Without(J.T, J.R, hi));
    Break(st.trace, r, i, lo, Row(t, r)[i]);
  }

  lemma ClearReady(st: State, J: Job, r: Ref, i: int)
    requires Slot(st.tabs, r, i) && !Row(st.tabs, r)[i].Table?
    requires Draining(st, J, EntryLo(st.tabs, r, i), At(st.tabs, r).level, RefLo(st.tabs, r), Base)
    requires Covers(J.R, EntryLo(st.tabs, r, i), EntryHi(st.tabs, r, i))
    ensures Draining(Cleared(st, r, i), J, EntryHi(st.tabs, r, i), At(st.tabs, r).level, RefLo(st.tabs, r), Base)
    ensures Shrinks(st.tabs, Cleared(st, r, i).tabs)
  {
    hide Agree, Without, Children, Parents, Unique, Owners, Enough, Nested, LeftCounts, Residue, Untouched;
    ClearTree(st, J, r, i, At(st.tabs, r).level, RefLo(st.tabs, r));
    ClearBooks(st, J, r, i);
  }

  // The counts and the places of tables stay in order when an entry is cleared.
  lemma ClearBooks(st: State, J: Job, r: Ref, i: int)
    requires Slot(st.tabs, r, i) && !Row(st.tabs, r)[i].Table?
    requires Draining(st, J, EntryLo(st.tabs, r, i), At(st.tabs, r).level, RefLo(st.tabs, r), Base)
    requires Covers(J.R, EntryLo(st.tabs, r, i), EntryHi(st.tabs, r, i))
    ensures var w := Cleared(st, r, i);
      && Sized(w.tabs) && Enough(w.tabs, J) && Untouched(w, J) && Residue(w, J, Base) && Shrinks(st.tabs, w.tabs)
      && LeftCounts(w.tabs, w.cnt, J.c0, J.R, EntryHi(st.tabs, r, i), At(st.tabs, r).level, RefLo(st.tabs, r))
      && (J.tidy ==> Nested(w.tabs, J) && Clean(w.tabs) && Booked(w, Base))
  {
    hide Agree, Without, Children, Parents, Unique, Owners, Settled, Enough, Nested, LeftCounts, Untouched, RowsKept,
      Tallied, Booked;
    ClearShape(st, r, i);
    ClearCounts(st, J, r, i);
    SamePlaces(st.tabs, Cleared(st, r, i).tabs, J);
    SameBooks(st, Cleared(st, r, i), J);
    ClearMeets(st.tabs, J, r, i);
    ClearRows(st, J, r, i);
    ClearTally(st, J, r, i, Base);
    if J.tidy {
      ClearClean(st.tabs, r, i);
    }
  }

  lemma ClearMeets(t: Tabs, J: Job, r: Ref, i: int)
    requires Slot(t, r, i) && Sized(t) && Covers(J.R, EntryLo(t, r, i), EntryHi(t, r, i))
    ensures Meets(J.R, EntryLo(t, r, i), EntryHi(t, r, i))
  {
    SlotInRef(t, r, i);
  }

  // Clearing an entry changes neither places nor counts.
  lemma ClearShape(st: State, r: Ref, i: int)
    requires Slot(st.tabs, r, i) && Sized(st.tabs) && |st.cnt| == |st.tabs.subs|
    ensures var w := Cleared(st, r, i);
      && w.tabs == With(st.tabs, r, i, Invalid) && Sized(w.tabs) && Shrinks(st.tabs, w.tabs)
      && w.tabs.place == st.tabs.place && |w.tabs.subs| == |st.tabs.subs|
      && w.cnt == st.cnt && w.dynamic == st.dynamic && w.next == st.next
  {
  }

  lemma SameBooks(st: State, w: State, J: Job)
    requires w.tabs.place == st.tabs.place && w.cnt == st.cnt && w.dynamic == st.dynamic && w.next == st.next
    requires |st.cnt| == |st.tabs.subs| == |w.tabs.subs|
    ensures Untouched(st, J) ==> Untouched(w, J)
    ensures Booked(st, Base) ==> Booked(w, Base)
  {
  }

  // Clearing an entry that R meets, and that links no table that counts too much,
  // leaves the others as they are.
  lemma ClearRows(st: State, J: Job, r: Ref, i: int)
    requires Slot(st.tabs, r, i) && RowsKept(st, J) && Untouched(st, J)
    requires Meets(J.R, EntryLo(st.tabs, r, i), EntryHi(st.tabs, r, i))
    requires Row(st.tabs, r)[i].Table? ==> !Over(J, Row(st.tabs, r)[i].next)
    ensures RowsKept(Cleared(st, r, i), J)
  {
    hide Lo, Over;
    if r.Sub? {
      assert J.home[r.idx] == st.tabs.place[r.idx];
    }
  }

  lemma ClearTally(st: State, J: Job, r: Ref, i: int, hot: Ref)
    requires Slot(st.tabs, r, i) && Tallied(st, J, hot)
    ensures Tallied(Cleared(st, r, i), J, hot)
  {
    hide Over, Lo;
  }

  lemma ClearCounts(st: State, J: Job, r: Ref, i: int)
    requires Slot(st.tabs, r, i) && !Row(st.tabs, r)[i].Table? && Tree(st.tabs)
    requires LeftCounts(st.tabs, st.cnt, J.c0, J.R, EntryLo(st.tabs, r, i), At(st.tabs, r).level, RefLo(st.tabs, r))
    requires Covers(J.R, EntryLo(st.tabs, r, i), EntryHi(st.tabs, r, i))
    ensures LeftCounts(Cleared(st, r, i).tabs, st.cnt, J.c0, J.R, EntryHi(st.tabs, r, i), At(st.tabs, r).level,
      RefLo(st.tabs, r))
  {
    SlotInRef(st.tabs, r, i);
    LeftStepAll(st.tabs, st.cnt, J.c0, r, i, J.R);
    assert Cleared(st, r, i).tabs.place == st.tabs.place;
  }

  lemma ClearClean(t: Tabs, r: Ref, i: int)
    requires Slot(t, r, i) && Sized(t) && Clean(t)
    ensures Clean(With(t, r, i, Invalid))
  {
  }

  // Facts about the places of tables carry over to tables that are dropped or
  // rewritten but not moved.
  lemma SamePlaces(t: Tabs, t': Tabs, J: Job)
    requires Shrinks(t, t') && Sized(t) && Sized(t') && Enough(t, J)
    ensures Enough(t', J)
    ensures Nested(t, J) ==> Nested(t', J)
  {
    forall s | s in t'.place
      ensures Due(t', J, s) == Due(t, J, s)
    {
    }
  }

  // ---- dropping an empty table ---------------------------------------------

  // A table of count 0 that the region has left holds no mapped address.
  lemma EmptyRange(st: State, J: Job, r: Ref, i: int, s: nat, hot: Ref)
    requires Slot(st.tabs, r, i) && Row(st.tabs, r)[i] == Table(s) && s < |st.cnt| && st.cnt[s] == 0
    requires Draining(st, J, EntryHi(st.tabs, r, i), At(st.tabs, r).level, EntryLo(st.tabs, r, i), hot)
    requires Meets(J.R, EntryLo(st.tabs, r, i), EntryHi(st.tabs, r, i))
    ensures s in st.tabs.place && PlaceLo(st.tabs.place[s]) == EntryLo(st.tabs, r, i)
    ensures PlaceHi(st.tabs.place[s]) == EntryHi(st.tabs, r, i)
    ensures J.c0[s] == Due(st.tabs, J, s) && Meeting(J.L, EntryLo(st.tabs, r, i), EntryHi(st.tabs, r, i)) == 0
    ensures forall va :: EntryLo(st.tabs, r, i) <= va < EntryHi(st.tabs, r, i) ==>
      va !in Without(J.T, J.R, EntryHi(st.tabs, r, i))
  {
    hide Agree, Settled, Untouched, Nested, Clean, Booked, Residue, BlockSize;
    var t, lo, hi := st.tabs, EntryLo(st.tabs, r, i), EntryHi(st.tabs, r, i);
    TableBelow(t, r, i);
    StepTable(t, r, i);
    var W := Without(J.T, J.R, hi);
    assert J.c0[s] >= Due(t, J, s);
    forall va | lo <= va < hi
      ensures va !in W
    {
      if va in W {
        assert J.T[va].r in J.L;
        MeetingSome(J.L, lo, hi, J.T[va].r);
      }
    }
  }

  // A table inside the range of an entry is inside the table the entry links.
  lemma BelowPlaces(t: Tabs, r: Ref, i: int, s: nat, k: nat)
    requires Tree(t) && Slot(t, r, i) && Row(t, r)[i] == Table(s)
    requires k in t.place && Inside(t.place[k], At(t, r).level + 1, Num(t, r, i))
    ensures s in t.place && Inside(t.place[k], t.place[s].level, t.place[s].num) && At(t, r).level < t.place[k].level
    ensures EntryLo(t, r, i) <= PlaceLo(t.place[k]) < PlaceHi(t.place[k]) <= EntryHi(t, r, i)
  {
    StepTable(t, r, i);
    var p := t.place[k];
    Monotone(p.level, 512 * p.num, 512 * p.num + 512);
    InsideRange(At(t, r).level + 1, Num(t, r, i), p);
  }

  // If it is not overcounted, and no region that stays meets its range, neither
  // does one count there.
  lemma BelowUncounted(t: Tabs, cnt: seq<int>, J: Job, s: nat, k: nat, lo: int, hi: int, level: int)
    requires Sized(t) && |cnt| == |t.subs| && Enough(t, J) && Nested(t, J)
    requires LeftCounts(t, cnt, J.c0, J.R, hi, level, lo)
    requires s in t.place && k in t.place && Inside(t.place[k], t.place[s].level, t.place[s].num)
    requires level < t.place[k].level
    requires PlaceLo(t.place[s]) == lo && PlaceHi(t.place[s]) == hi
    requires lo <= PlaceLo(t.place[k]) < PlaceHi(t.place[k]) <= hi
    requires J.c0[s] == Due(t, J, s) && Meeting(J.L, lo, hi) == 0 && 0 < J.R.size
    ensures k < |cnt| && cnt[k] == 0
  {
    var p := t.place[k];
    MeetingWider(J.L, PlaceLo(p), PlaceHi(p), lo, hi);
    assert J.c0[k] == Due(t, J, k);
    assert Left(p, J.R, hi, level, lo) == Meets(J.R, PlaceLo(p), PlaceHi(p));
  }

  // In a tidy state such a table has no table below it ...
  lemma NothingBelow(st: State, J: Job, r: Ref, i: int, s: nat, k: nat)
    requires Slot(st.tabs, r, i) && Row(st.tabs, r)[i] == Table(s) && s < |st.cnt| && st.cnt[s] == 0
    requires Draining(st, J, EntryHi(st.tabs, r, i), At(st.tabs, r).level, EntryLo(st.tabs, r, i), Sub(s))
    requires Meets(J.R, EntryLo(st.tabs, r, i), EntryHi(st.tabs, r, i))
    requires J.tidy && k in st.tabs.place && Inside(st.tabs.place[k], At(st.tabs, r).level + 1, Num(st.tabs, r, i))
    ensures k == s
  {
    hide Tree, Without, Sized;
    EmptyRange(st, J, r, i, s, Sub(s));
    BelowPlaces(st.tabs, r, i, s, k);
    BelowUncounted(st.tabs, st.cnt, J, s, k, EntryLo(st.tabs, r, i), EntryHi(st.tabs, r, i), At(st.tabs, r).level);
  }

  lemma InsideRange(level: int, n: int, p: Place)
    requires 0 <= level <= 3 && 0 <= p.level <= 3 && Inside(p, level, n)
    ensures TableLo(level, n) <= PlaceLo(p) && PlaceHi(p) <= TableHi(level, n)
  {
    Monotone(level, 512 * n, 512 * n + 512);
    Monotone(p.level, 512 * p.num, 512 * p.num + 512);
    TablesNest(level, 512 * n, 512 * n + 512, p.level, p.num);
  }

  // ... and only invalid descriptors.
  lemma EmptyRow(st: State, J: Job, r: Ref, i: int, s: nat, j: int)
    requires Slot(st.tabs, r, i) && Row(st.tabs, r)[i] == Table(s) && s < |st.cnt| && st.cnt[s] == 0
    requires Draining(st, J, EntryHi(st.tabs, r, i), At(st.tabs, r).level, EntryLo(st.tabs, r, i), Sub(s))
    requires Meets(J.R, EntryLo(st.tabs, r, i), EntryHi(st.tabs, r, i))
    requires J.tidy && 0 <= j < |st.tabs.subs[s]|
    ensures st.tabs.subs[s][j] == Invalid
  {
    hide Without, BlockSize, Nested, LeftCounts, Owners, Enough, Untouched, Residue, Clean, Booked;
    var t := st.tabs;
    var W := Without(J.T, J.R, EntryHi(t, r, i));
    EmptyRange(st, J, r, i, s, Sub(s));
    TableBelow(t, r, i);
    StepTable(t, r, i);
    SlotInRef(t, Sub(s), j);
    assert SlotOk(t, Sub(s), j, W) && ChildOk(t, Sub(s), j);
    if t.subs[s][j].Table? {
      var k := t.subs[s][j].next;
      StepTable(t, Sub(s), j);
      NothingBelow(st, J, r, i, s, k);
      assert false;
    }
  }

  // The state after clearing the entry of a table and dropping the table.
  function Dropped(st: State, r: Ref, i: int): State
    requires Slot(st.tabs, r, i)
  {
    var w := Cleared(st, r, i);
    w.(tabs := Unlink(st.tabs, r, i))
  }

  // If the dropped table was empty and had none below it, the pool stays in
  // order.
  lemma DropClean(st: State, r: Ref, i: int, s: nat)
    requires Slot(st.tabs, r, i) && At(st.tabs, r).level < 3 && |st.cnt| == |st.tabs.subs| && Clean(st.tabs)
    requires Booked(st, Sub(s)) && st.dynamic
    requires s in st.tabs.place && s < |st.cnt| && st.cnt[s] == 0 && s !in Unlink(st.tabs, r, i).place && r != Sub(s)
    requires forall k :: k in st.tabs.place && k !in Unlink(st.tabs, r, i).place ==> k == s
    requires forall j :: 0 <= j < |st.tabs.subs[s]| ==> st.tabs.subs[s][j] == Invalid
    requires r.Sub? ==> r.idx in Unlink(st.tabs, r, i).place
    ensures Clean(Unlink(st.tabs, r, i)) && Booked(Dropped(st, r, i), Base)
  {
  }

  lemma DropTidy(st: State, J: Job, r: Ref, i: int, s: nat)
    requires Slot(st.tabs, r, i) && Row(st.tabs, r)[i] == Table(s) && s < |st.cnt| && st.cnt[s] == 0
    requires Draining(st, J, EntryHi(st.tabs, r, i), At(st.tabs, r).level, EntryLo(st.tabs, r, i), Sub(s))
    requires Meets(J.R, EntryLo(st.tabs, r, i), EntryHi(st.tabs, r, i))
    requires J.tidy
    ensures Clean(Unlink(st.tabs, r, i)) && Booked(Dropped(st, r, i), Base)
  {
    hide Owners, Enough, LeftCounts, Agree, Without, Untouched, Residue, Settled, Nested;
    var t := st.tabs;
    var t' := Unlink(t, r, i);
    StepTable(t, r, i);
    NotInside(t, r, i);
    forall k | k in t.place && k !in t'.place
      ensures k == s
    {
      NothingBelow(st, J, r, i, s, k);
    }
    forall j | 0 <= j < |t.subs[s]|
      ensures t.subs[s][j] == Invalid
    {
      EmptyRow(st, J, r, i, s, j);
    }
    assert Inside(t.place[s], At(t, r).level + 1, Num(t, r, i)) by {
      TableBelow(t, r, i);
      SlotInRef(t, r, i);
    }
    DropClean(st, r, i, s);
  }

  lemma DropTree(st: State, J: Job, r: Ref, i: int, s: nat)
    requires Slot(st.tabs, r, i) && Row(st.tabs, r)[i] == Table(s) && s < |st.cnt| && st.cnt[s] == 0
    requires Draining(st, J, EntryHi(st.tabs, r, i), At(st.tabs, r).level, EntryLo(st.tabs, r, i), Sub(s))
    requires Meets(J.R, EntryLo(st.tabs, r, i), EntryHi(st.tabs, r, i))
    ensures var w := Dropped(st, r, i);
      Tree(w.tabs) && Agree(w.tabs, Without(J.T, J.R, EntryHi(st.tabs, r, i))) && Settled(w.trace)
  {
    hide Clean;
    var t := st.tabs;
    EmptyRange(st, J, r, i, s, Sub(s));
    StepTable(t, r, i);
    UnlinkKeepsTree(t, r, i);
    UnlinkAgrees(t, r, i, Without(J.T, J.R, EntryHi(t, r, i)));
    Break(st.trace, r, i, EntryLo(t, r, i), Table(s));
  }

  // Counts of fewer tables still are what they were.
  lemma FewerCounts(st: State, w: State, J: Job, c: int, level: int, a: int)
    requires Shrinks(st.tabs, w.tabs) && w.cnt == st.cnt && Untouched(st, J)
    requires LeftCounts(st.tabs, st.cnt, J.c0, J.R, c, level, a)
    ensures Untouched(w, J) && LeftCounts(w.tabs, w.cnt, J.c0, J.R, c, level, a)
  {
    forall s | s in w.tabs.place && s < |w.cnt|
      ensures w.cnt[s] == J.c0[s] - One(Left(w.tabs.place[s], J.R, c, level, a))
    {
      assert w.tabs.place[s] == st.tabs.place[s];
    }
  }

  lemma DropShape(st: State, r: Ref, i: int)
    requires Slot(st.tabs, r, i) && Sized(st.tabs) && |st.cnt| == |st.tabs.subs|
    ensures var w := Dropped(st, r, i);
      && w.tabs.subs == Cleared(st, r, i).tabs.subs && w.cnt == st.cnt && Sized(w.tabs)
        && w.tabs.baseLevel == st.tabs.baseLevel
      && w.tabs == Unlink(st.tabs, r, i)
      && forall k {:trigger w.tabs.place[k]} :: k in w.tabs.place ==>
        k in st.tabs.place && w.tabs.place[k] == st.tabs.place[k]
  {
  }

  // A linked table below an empty one counts too much.
  lemma BelowOver(st: State, J: Job, s: nat, k: nat, lo: int, hi: int, level: int)
    requires Sized(st.tabs) && |st.cnt| == |st.tabs.subs| && Untouched(st, J) && Tallied(st, J, Sub(s))
    requires LeftCounts(st.tabs, st.cnt, J.c0, J.R, hi, level, lo) && k in st.tabs.place
    requires level < st.tabs.place[k].level
    requires lo <= PlaceLo(st.tabs.place[k]) < PlaceHi(st.tabs.place[k]) <= hi
    requires Meeting(J.L, lo, hi) == 0 && 0 < J.R.size
    ensures k == s || Over(J, k)
    ensures Meeting(J.L, PlaceLo(st.tabs.place[k]), PlaceHi(st.tabs.place[k])) == 0
  {
    var p := st.tabs.place[k];
    MeetingWider(J.L, PlaceLo(p), PlaceHi(p), lo, hi);
    assert p == J.home[k];
    assert Left(p, J.R, hi, level, lo) == Meets(J.R, PlaceLo(p), PlaceHi(p));
  }

  // Dropping an empty table keeps the tally.
  lemma DropTally(st: State, J: Job, r: Ref, i: int, s: nat)
    requires Tree(st.tabs) && Slot(st.tabs, r, i) && Row(st.tabs, r)[i] == Table(s) && s < |st.cnt| && st.cnt[s] == 0
    requires |st.cnt| == |st.tabs.subs| && Untouched(st, J) && Tallied(st, J, Sub(s)) && 0 < J.R.size
    requires LeftCounts(st.tabs, st.cnt, J.c0, J.R, EntryHi(st.tabs, r, i), At(st.tabs, r).level,
      EntryLo(st.tabs, r, i))
    requires Meeting(J.L, EntryLo(st.tabs, r, i), EntryHi(st.tabs, r, i)) == 0
    ensures Tallied(Dropped(st, r, i), J, Base)
  {
    hide Parents, Unique, Children, Lo, LeftCounts, Over, Meeting;
    var w := Dropped(st, r, i);
    DropShape(st, r, i);
    StepTable(st.tabs, r, i);
    DroppedSelf(st.tabs, r, i, s);
    forall k | k in st.tabs.place && k !in w.tabs.place
      ensures k == s || Over(J, k)
      ensures Meeting(J.L, PlaceLo(st.tabs.place[k]), PlaceHi(st.tabs.place[k])) == 0
    {
      BelowPlaces(st.tabs, r, i, s, k);
      BelowOver(st, J, s, k, EntryLo(st.tabs, r, i), EntryHi(st.tabs, r, i), At(st.tabs, r).level);
    }
    forall k | k in J.home && k < |w.cnt| && k !in w.tabs.place
      ensures Meeting(J.L, PlaceLo(J.home[k]), PlaceHi(J.home[k])) == 0 && (w.cnt[k] == 0 || Over(J, k))
    {
      assert k in st.tabs.place ==> st.tabs.place[k] == J.home[k];
    }
  }

  // The table below the cleared entry is dropped.
  lemma DroppedSelf(t: Tabs, r: Ref, i: int, s: nat)
    requires Tree(t) && Slot(t, r, i) && Row(t, r)[i] == Table(s) && At(t, r).level < 3
    ensures s in t.place && s !in Unlink(t, r, i).place
  {
    hide BlockSize, Sized, Parents;
    TableBelow(t, r, i);
    SlotInRef(t, r, i);
    StepTable(t, r, i);
  }

  // It also keeps the entries of other tables.
  lemma DropRows(st: State, J: Job, r: Ref, i: int, s: nat)
    requires Tree(st.tabs) && Slot(st.tabs, r, i) && Row(st.tabs, r)[i] == Table(s) && s < |st.cnt| && st.cnt[s] == 0
    requires |st.cnt| == |st.tabs.subs| && Untouched(st, J) && Tallied(st, J, Sub(s)) && RowsKept(st, J)
    requires Meets(J.R, EntryLo(st.tabs, r, i), EntryHi(st.tabs, r, i))
    ensures RowsKept(Dropped(st, r, i), J)
  {
    hide Parents, Unique, Children, Lo, Stays, Unlink;
    StepTable(st.tabs, r, i);
    assert s in J.home;
    ClearRows(st, J, r, i);
    DropShape(st, r, i);
  }

  lemma DropReady(st: State, J: Job, r: Ref, i: int, s: nat)
    requires Slot(st.tabs, r, i) && Row(st.tabs, r)[i] == Table(s) && s < |st.cnt| && st.cnt[s] == 0
    requires Draining(st, J, EntryHi(st.tabs, r, i), At(st.tabs, r).level, EntryLo(st.tabs, r, i), Sub(s))
    requires Meets(J.R, EntryLo(st.tabs, r, i), EntryHi(st.tabs, r, i))
    ensures Draining(Dropped(st, r, i), J, EntryHi(st.tabs, r, i), At(st.tabs, r).level, EntryLo(st.tabs, r, i), Base)
    ensures Shrinks(st.tabs, Dropped(st, r, i).tabs)
  {
    var t := st.tabs;
    DropTree(st, J, r, i, s);
    SamePlaces(t, Unlink(t, r, i), J);
    FewerCounts(st, Dropped(st, r, i), J, EntryHi(t, r, i), At(t, r).level, EntryLo(t, r, i));
    EmptyRange(st, J, r, i, s, Sub(s));
    DropTally(st, J, r, i, s);
    DropRows(st, J, r, i, s);
    if J.tidy {
      DropTidy(st, J, r, i, s);
    }
  }
}

/**
 The whole state of the translation tables as a value: contents, bookkeeping of
 the pool, and the trace of descriptor writes.
 */
module TableState {
  import opened Geometry
  import opened Tables
  import opened Mapping
  import opened Counts
  import opened BreakBeforeMake

  // `dynamic` selects the build variant: per-table region counts, or a bump
  // index over the pool.
  datatype State = State(dynamic: bool, tabs: Tabs, cnt: seq<int>, next: int, trace: seq<Event>)

  // A pool table is free exactly while it is not linked.  `hot` is a table that
  // was linked and is about to be counted.
  ghost predicate Booked(st: State, hot: Ref)
    requires |st.cnt| == |st.tabs.subs|
  {
    if st.dynamic then
      forall s :: 0 <= s < |st.cnt| ==>
        && (s in st.tabs.place ==> st.cnt[s] > 0 || (hot == Sub(s) && st.cnt[s] == 0))
        && (s !in st.tabs.place ==> st.cnt[s] == 0)
    else
      forall s :: s in st.tabs.place <==> 0 <= s < st.next
  }

  // The tables are a tree that describes T, free tables are empty, and no
  // invalidation is outstanding.
  ghost predicate Ready(st: State, T: Trans, hot: Ref) {
    && Sized(st.tabs) && |st.cnt| == |st.tabs.subs| && 0 <= st.next <= |st.tabs.subs|
    && Tree(st.tabs) && Agree(st.tabs, T) && Clean(st.tabs)
    && Booked(st, hot) && Settled(st.trace)
  }

  ghost predicate Counted(st: State, c0: seq<int>, R: Region, c: int, level: int, a: int) {
    FreshZero(st.tabs, c0) && (st.dynamic ==> SeenCounts(st.tabs, st.cnt, c0, R, c, level, a))
  }

  ghost predicate Exhausted(st: State) {
    forall k :: 0 <= k < |st.tabs.subs| ==> k in st.tabs.place
  }

  // The region meets the range of table `p`, and no leaf can describe it.
  ghost predicate Split(R: Region, p: Place) {
    Meets(R, PlaceLo(p), PlaceHi(p)) && !LeafFor(R, p.level - 1, p.num)
  }

  // An entry that needs a table it does not have.
  ghost predicate StuckAt(t: Tabs, R: Region, r: Ref, i: int) {
    && Slot(t, r, i) && Row(t, r)[i] == Invalid && At(t, r).level < 3
    && Split(R, Place(At(t, r).level + 1, Num(t, r, i), r))
  }

  // Such an entry starts at `f`.
  ghost predicate Stuck(t: Tabs, R: Region, f: int) {
    exists r, i :: StuckAt(t, R, r, i) && EntryLo(t, r, i) == f
  }

  // Mapping stopped at `f`, where the region needs a table and none was left.
  ghost predicate OutOfTables(st: State, c0: seq<int>, R: Region, f: int) {
    && f % 0x1000 == 0 && Stuck(st.tabs, R, f)
    && FreshZero(st.tabs, c0) && Exhausted(st) && (st.dynamic ==> FailureCounts(st.tabs, st.cnt, c0, R, f))
  }

  // The part of R in [lo, hi) is mapped up to `to`, and `end` says so the way
  // xlat_tables_map_region does: the last byte if all of it is mapped, else
  // the address of the entry that needed a table.
  ghost predicate Mapped(st: State, T: Trans, c0: seq<int>, R: Region, lo: int, hi: int, level: int, end: int,
      to: int) {
    && Ready(st, Upto(T, R, to), Base)
    && (if end == to then
          OutOfTables(st, c0, R, to) && lo <= to < hi && to < R.EndVa()
        else
          end == to - 1 && to == (if R.EndVa() < hi then R.EndVa() else hi) && Counted(st, c0, R, to, level, lo))
  }

  ghost predicate Mappable(T: Trans, R: Region) {
    Aligned4K(R) && Compatible(T, R)
  }

  // No address of the table's range is mapped.
  ghost predicate Vacant(p: Place, T: Trans) {
    forall va :: PlaceLo(p) <= va < PlaceHi(p) ==> va !in T
  }

  // Same table sizes; tables once linked stay where they are, and new ones
  // are needed by R at addresses that T does not map.
  ghost predicate Extends(t: Tabs, t': Tabs, T: Trans, R: Region) {
    && t'.baseLevel == t.baseLevel && |t'.base| == |t.base| && |t'.subs| == |t.subs|
    && (forall s {:trigger t'.place[s]} {:trigger t.place[s]} :: s in t.place ==>
      s in t'.place && t'.place[s] == t.place[s])
    && (forall s {:trigger t'.place[s]} :: s in t'.place ==>
      s in t.place || (Vacant(t'.place[s], T) && Split(R, t'.place[s])))
  }

  // The loop goes on exactly when the entry has been handled to its end.
  ghost predicate Stops(R: Region, hi: int, stop: bool, end: int, to: int) {
    && (!stop ==> to == hi <= R.EndVa() && end == to - 1)
    && (stop && end != to ==> R.EndVa() < hi)
  }

  // ---- single steps --------------------------------------------------------

  // The state after writing one descriptor.
  function Put(st: State, r: Ref, i: int, d: Desc): State
    requires Slot(st.tabs, r, i)
  {
    st.(tabs := With(st.tabs, r, i, d),
        trace := st.trace + [Wrote(r, i, EntryLo(st.tabs, r, i), Row(st.tabs, r)[i], d)])
  }

  // The state after linking pool table `s` below an entry.
  function PutLink(st: State, r: Ref, i: int, s: nat): State
    requires Slot(st.tabs, r, i)
  {
    var w := Put(st, r, i, Table(s));
    w.(tabs := Link(st.tabs, r, i, s), next := if st.dynamic then st.next else s + 1)
  }

  // The table get_empty returns: the first of count 0, or the next unused one.
  ghost predicate FirstFree(st: State, s: int) {
    if st.dynamic then
      && -1 <= s < |st.cnt|
      && (forall k :: 0 <= k < (if s < 0 then |st.cnt| else s) && k < |st.cnt| ==> st.cnt[k] != 0)
      && (0 <= s ==> st.cnt[s] == 0)
    else
      s == if st.next < |st.tabs.subs| then st.next else -1
  }

  lemma LinkReady(st: State, r: Ref, i: int, s: nat, T: Trans)
    requires Ready(st, T, Base) && Slot(st.tabs, r, i) && Row(st.tabs, r)[i] == Invalid && At(st.tabs, r).level < 3
    requires FirstFree(st, s)
    ensures Linkable(st.tabs, r, i, s)
    ensures Ready(PutLink(st, r, i, s), T, Sub(s)) && (st.dynamic ==> st.cnt[s] == 0)
  {
    hide Sized;
    var t := st.tabs;
    assert s !in t.place && s < |t.subs|;
    LinkKeepsTree(t, r, i, s);
    LinkAgrees(t, r, i, s, T);
    LinkKeepsClean(t, r, i, s);
    Make(st.trace, r, i, EntryLo(t, r, i), Table(s));
  }

  lemma LinkShape(t: Tabs, r: Ref, i: int, s: nat)
    requires Linkable(t, r, i, s)
    ensures Slot(Link(t, r, i, s), r, i) && At(Link(t, r, i, s), r) == At(t, r)
    ensures Row(Link(t, r, i, s), r)[i] == Table(s)
    ensures EntryLo(Link(t, r, i, s), r, i) == EntryLo(t, r, i) && EntryHi(Link(t, r, i, s), r, i) == EntryHi(t, r, i)
  {
    LinkRow(t, r, i, s, r);
  }

  lemma LinkExtends(t: Tabs, r: Ref, i: int, s: nat, T: Trans, R: Region)
    requires Linkable(t, r, i, s) && Agree(t, Upto(T, R, EntryLo(t, r, i)))
    requires Split(R, Place(At(t, r).level + 1, Num(t, r, i), r))
    ensures Extends(t, Link(t, r, i, s), T, R)
  {
    hide Sized, LeafFor, Unique, LeafOk;
    LinkRow(t, r, i, s, r);
    LevelBounds(t, r);
    var U := Upto(T, R, EntryLo(t, r, i));
    assert SlotOk(t, r, i, U);
    assert PlaceLo(Link(t, r, i, s).place[s]) == EntryLo(t, r, i)
      && PlaceHi(Link(t, r, i, s).place[s]) == EntryHi(t, r, i);
    forall va | EntryLo(t, r, i) <= va < EntryHi(t, r, i)
      ensures va !in T
    {
      assert va !in U;
    }
  }

  lemma NoneFree(st: State, T: Trans)
    requires Ready(st, T, Base) && FirstFree(st, -1)
    ensures Exhausted(st)
  {
  }

  lemma LinkCounted(st: State, c0: seq<int>, R: Region, r: Ref, i: int, s: nat)
    requires Linkable(st.tabs, r, i, s) && FreshZero(st.tabs, c0)
    requires st.dynamic ==> s < |st.cnt| && st.cnt[s] == 0
    requires Counted(st, c0, R, EntryLo(st.tabs, r, i), At(st.tabs, r).level, RefLo(st.tabs, r))
    ensures Counted(PutLink(st, r, i, s), c0, R, EntryLo(st.tabs, r, i), At(st.tabs, r).level, EntryLo(st.tabs, r, i))
  {
    if st.dynamic {
      SeenShift(st.tabs, st.cnt, c0, r, i, R, EntryLo(st.tabs, r, i));
      SeenLink(st.tabs, st.cnt, c0, r, i, s, R);
    }
  }

  lemma EmptyEntry(t: Tabs, r: Ref, i: int, T: Trans)
    requires Agree(t, T) && Slot(t, r, i) && Row(t, r)[i] == Invalid
    ensures EntryOk(Invalid, At(t, r).level, Num(t, r, i), T)
  {
    assert SlotOk(t, r, i, T);
  }

  // Writing the leaf of a covered invalid entry.
  lemma LeafTree(t: Tabs, R: Region, r: Ref, i: int, T: Trans)
    requires Tree(t) && Slot(t, r, i) && Row(t, r)[i] == Invalid && 1 <= At(t, r).level
    requires Agree(t, Upto(T, R, EntryLo(t, r, i))) && Covers(R, EntryLo(t, r, i), EntryHi(t, r, i))
    requires LeafFits(R.PaOf(EntryLo(t, r, i)), At(t, r).level, R.granularity)
    ensures var d := LeafDesc(R.attr, R.PaOf(EntryLo(t, r, i)), At(t, r).level);
      Tree(With(t, r, i, d)) && Agree(With(t, r, i, d), Upto(T, R, EntryHi(t, r, i)))
  {
    hide Agree, EntryOk, SameOutside, LeafFits, Upto, Children, Parents, Unique, Lo;
    var lo, hi, level := EntryLo(t, r, i), EntryHi(t, r, i), At(t, r).level;
    var d := LeafDesc(R.attr, R.PaOf(lo), level);
    LevelBounds(t, r);
    EmptyEntry(t, r, i, Upto(T, R, lo));
    WriteKeepsTree(t, r, i, d);
    WriteAdvances(level, Num(t, r, i), T, R);
    WriteAgrees(t, r, i, d, Upto(T, R, lo), Upto(T, R, hi));
  }

  lemma LeafReady(st: State, R: Region, r: Ref, i: int, T: Trans)
    requires Slot(st.tabs, r, i) && Row(st.tabs, r)[i] == Invalid && 1 <= At(st.tabs, r).level
    requires Ready(st, Upto(T, R, EntryLo(st.tabs, r, i)), Base)
    requires Covers(R, EntryLo(st.tabs, r, i), EntryHi(st.tabs, r, i))
    requires LeafFits(R.PaOf(EntryLo(st.tabs, r, i)), At(st.tabs, r).level, R.granularity)
    ensures var lo, level := EntryLo(st.tabs, r, i), At(st.tabs, r).level;
      Ready(Put(st, r, i, LeafDesc(R.attr, R.PaOf(lo), level)), Upto(T, R, EntryHi(st.tabs, r, i)), Base)
  {
    var lo := EntryLo(st.tabs, r, i);
    LeafTree(st.tabs, R, r, i, T);
    Make(st.trace, r, i, lo, LeafDesc(R.attr, R.PaOf(lo), At(st.tabs, r).level));
  }

  // Stepping over a non-table entry, which may have been overwritten.
  lemma StepCounted(st: State, st': State, c0: seq<int>, R: Region, r: Ref, i: int)
    requires Tree(st.tabs) && Slot(st.tabs, r, i) && !Row(st.tabs, r)[i].Table?
    requires st' == st || (exists d :: st' == Put(st, r, i, d))
    requires Meets(R, EntryLo(st.tabs, r, i), EntryHi(st.tabs, r, i))
    requires Counted(st, c0, R, EntryLo(st.tabs, r, i), At(st.tabs, r).level, RefLo(st.tabs, r))
    ensures Counted(st', c0, R, EntryHi(st.tabs, r, i), At(st.tabs, r).level, EntryLo(st.tabs, r, i))
  {
    assert st'.tabs.place == st.tabs.place && |st'.tabs.subs| == |st.tabs.subs| && st'.cnt == st.cnt
      && st'.dynamic == st.dynamic;
    if st.dynamic {
      SeenStepAll(st.tabs, st.cnt, c0, r, i, R);
      SeenShift(st.tabs, st.cnt, c0, r, i, R, EntryHi(st.tabs, r, i));
    }
  }

  lemma FailCounted(st: State, c0: seq<int>, R: Region, r: Ref, i: int)
    requires Tree(st.tabs) && StuckAt(st.tabs, R, r, i) && Exhausted(st)
    requires Meets(R, EntryLo(st.tabs, r, i), EntryHi(st.tabs, r, i))
    requires Counted(st, c0, R, EntryLo(st.tabs, r, i), At(st.tabs, r).level, RefLo(st.tabs, r))
    ensures OutOfTables(st, c0, R, EntryLo(st.tabs, r, i))
    ensures EntryLo(st.tabs, r, i) < EntryHi(st.tabs, r, i)
  {
    LevelBounds(st.tabs, r);
    Aligned(At(st.tabs, r).level, Num(st.tabs, r, i));
    SlotInRef(st.tabs, r, i);
    if st.dynamic {
      SeenFailsAll(st.tabs, st.cnt, c0, r, i, R);
    }
  }

  lemma ShiftCounted(st: State, c0: seq<int>, r: Ref, i: int, R: Region, c: int)
    requires Tree(st.tabs) && Slot(st.tabs, r, i)
    ensures Counted(st, c0, R, c, At(st.tabs, r).level, EntryLo(st.tabs, r, i))
       <==> Counted(st, c0, R, c, At(st.tabs, r).level, RefLo(st.tabs, r))
  {
    if st.dynamic {
      SeenShift(st.tabs, st.cnt, c0, r, i, R, c);
    }
  }

  // Entering a table counts the region in it.
  function Opened(st: State, r: Ref): State
    requires r.Sub? ==> r.idx < |st.cnt|
  {
    if st.dynamic && r.Sub? then st.(cnt := st.cnt[r.idx := st.cnt[r.idx] + 1]) else st
  }

  lemma OpenReady(st: State, c0: seq<int>, r: Ref, R: Region, c: int, T: Trans)
    requires Ready(st, T, r) && Has(st.tabs, r)
    requires RefLo(st.tabs, r) <= c && (c == RefLo(st.tabs, r) || c <= R.baseVa)
    requires Counted(st, c0, R, RefLo(st.tabs, r), At(st.tabs, r).level - 1, RefLo(st.tabs, r))
    ensures Ready(Opened(st, r), T, Base)
    ensures Counted(Opened(st, r), c0, R, c, At(st.tabs, r).level, RefLo(st.tabs, r))
  {
    if st.dynamic {
      SeenOpen(st.tabs, st.cnt, Opened(st, r).cnt, c0, r, R, c);
    }
  }

  lemma CloseCounted(st: State, c0: seq<int>, r: Ref, R: Region, c: int)
    requires Tree(st.tabs) && Has(st.tabs, r)
    requires Counted(st, c0, R, c, At(st.tabs, r).level, RefLo(st.tabs, r))
    requires RefLo(st.tabs, r) < c && R.baseVa < c && R.baseVa < RefHi(st.tabs, r)
    ensures Counted(st, c0, R, c, At(st.tabs, r).level - 1, RefLo(st.tabs, r))
  {
    if st.dynamic {
      SeenClose(st.tabs, st.cnt, c0, r, R, c);
    }
  }

  lemma ExtendsFurther(t: Tabs, t': Tabs, t'': Tabs, T: Trans, R: Region)
    requires Extends(t, t', T, R) && Extends(t', t'', T, R)
    ensures Extends(t, t'', T, R)
  {
    forall s | s in t''.place && s !in t.place
      ensures Vacant(t''.place[s], T) && Split(R, t''.place[s])
    {
      if s in t'.place {
        assert t''.place[s] == t'.place[s];
      }
    }
  }

  // All tables cleared and none linked.
  ghost predicate Blank(st: State) {
    && |st.cnt| == |st.tabs.subs| && st.next == 0 && st.trace == []
    && 0 <= st.tabs.baseLevel <= 3 && 1 <= |st.tabs.base| <= 512 && st.tabs.place == map[]
    && (forall i :: 0 <= i < |st.tabs.base| ==> st.tabs.base[i] == Invalid)
    && (forall s :: 0 <= s < |st.tabs.subs| ==> |st.tabs.subs[s]| == 512)
    && (forall s, i :: 0 <= s < |st.tabs.subs| && 0 <= i < 512 ==> st.tabs.subs[s][i] == Invalid)
    && (st.dynamic ==> forall s :: 0 <= s < |st.cnt| ==> st.cnt[s] == 0)
  }

  lemma BlankReady(st: State)
    requires Blank(st)
    ensures Ready(st, imap[], Base)
  {
    forall r, i | Slot(st.tabs, r, i)
      ensures SlotOk(st.tabs, r, i, imap[])
    {
      assert r == Base;
    }
  }
}

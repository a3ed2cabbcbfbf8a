/**
 What each step of the mapping recursion needs and achieves, as facts about the
 state before and after it.
 */
module MapLoop {
  import opened Folding
  import opened Geometry
  import opened Tables
  import opened Mapping
  import opened Counts
  import opened TableState

  // What is needed to handle entry `i` of table `r`.
  ghost predicate MapPre(st: State, T: Trans, c0: seq<int>, R: Region, r: Ref, i: int) {
    forall k {:trigger Look(k)} :: Look(k) ==>
      && Mappable(T, R) && Slot(st.tabs, r, i)
      && Ready(st, Upto(T, R, EntryLo(st.tabs, r, i)), Base)
      && Meets(R, EntryLo(st.tabs, r, i), EntryHi(st.tabs, r, i))
      && Counted(st, c0, R, EntryLo(st.tabs, r, i), At(st.tabs, r).level, RefLo(st.tabs, r))
  }

  // What handling an entry with range [lo, hi) of a table of `level` achieves.
  ghost predicate MapPost(st: State, st': State, T: Trans, c0: seq<int>, R: Region, level: int, lo: int, hi: int,
                          stop: bool, end: int, to: int)
  {
    forall k {:trigger Look(k)} :: Look(k) ==>
      && Extends(st.tabs, st'.tabs, T, R) && st'.dynamic == st.dynamic && Stops(R, hi, stop, end, to)
      && Mapped(st', T, c0, R, lo, hi, level, end, to)
  }

  // What is needed to map the region in the table below entry `i`.
  ghost predicate BelowPre(st: State, T: Trans, c0: seq<int>, R: Region, r: Ref, i: int, s: nat) {
    forall k {:trigger Look(k)} :: Look(k) ==>
      && Mappable(T, R) && Slot(st.tabs, r, i) && Row(st.tabs, r)[i] == Table(s)
      && Ready(st, Upto(T, R, EntryLo(st.tabs, r, i)), Sub(s))
      && Meets(R, EntryLo(st.tabs, r, i), EntryHi(st.tabs, r, i))
      && Counted(st, c0, R, EntryLo(st.tabs, r, i), At(st.tabs, r).level, EntryLo(st.tabs, r, i))
  }

  // What is needed to map the region in table `r`.
  ghost predicate RegionPre(st: State, T: Trans, c0: seq<int>, R: Region, r: Ref) {
    forall k {:trigger Look(k)} :: Look(k) ==>
      && Mappable(T, R) && Has(st.tabs, r)
      && Ready(st, Upto(T, R, RefLo(st.tabs, r)), r)
      && Meets(R, RefLo(st.tabs, r), RefHi(st.tabs, r))
      && Counted(st, c0, R, RefLo(st.tabs, r), At(st.tabs, r).level - 1, RefLo(st.tabs, r))
  }

  // What mapping the region in a table of range [lo, hi) achieves.
  ghost predicate RegionPost(t: Tabs, st: State, T: Trans, c0: seq<int>, R: Region, level: int, lo: int, hi: int,
      end: int, to: int) {
    forall k {:trigger Look(k)} :: Look(k) ==>
      Extends(t, st.tabs, T, R) && Mapped(st, T, c0, R, lo, hi, level - 1, end, to)
  }

  // The loop over table `r` of `t` has reached entry `idx`, which meets R.
  ghost predicate LoopAt(t: Tabs, R: Region, r: Ref, idx: int) {
    && Sized(t) && Has(t, r) && 0 <= idx <= |Row(t, r)|
    && R.baseVa < EntryHi(t, r, idx) && EntryLo(t, r, idx) < R.EndVa()
  }

  // The state at the head of that loop, which started in `t`.
  ghost predicate Looping(t: Tabs, st: State, T: Trans, c0: seq<int>, R: Region, r: Ref, idx: int) {
    forall k {:trigger Look(k)} :: Look(k) ==>
      && Mappable(T, R) && LoopAt(t, R, r, idx) && Extends(t, st.tabs, T, R)
      && Ready(st, Upto(T, R, EntryLo(t, r, idx)), Base)
      && Counted(st, c0, R, EntryLo(t, r, idx), At(t, r).level, RefLo(t, r))
  }

  // ---- the actions on one entry --------------------------------------------

  lemma WriteDone(st: State, T: Trans, c0: seq<int>, R: Region, r: Ref, i: int)
    requires MapPre(st, T, c0, R, r, i) && Slot(st.tabs, r, i)
    requires Row(st.tabs, r)[i] == Invalid && 1 <= At(st.tabs, r).level
    requires Covers(R, EntryLo(st.tabs, r, i), EntryHi(st.tabs, r, i))
    requires LeafFits(R.PaOf(EntryLo(st.tabs, r, i)), At(st.tabs, r).level, R.granularity)
    ensures var lo, hi, level := EntryLo(st.tabs, r, i), EntryHi(st.tabs, r, i), At(st.tabs, r).level;
      MapPost(st, Put(st, r, i, LeafDesc(R.attr, R.PaOf(lo), level)), T, c0, R, level, lo, hi, false, hi - 1, hi)
  {
    assert Look(0);
    var lo, level := EntryLo(st.tabs, r, i), At(st.tabs, r).level;
    var d := LeafDesc(R.attr, R.PaOf(lo), level);
    LeafReady(st, R, r, i, T);
    StepCounted(st, Put(st, r, i, d), c0, R, r, i);
  }

  lemma SkipDone(st: State, T: Trans, c0: seq<int>, R: Region, r: Ref, i: int)
    requires MapPre(st, T, c0, R, r, i) && Slot(st.tabs, r, i) && !Row(st.tabs, r)[i].Table?
    requires Covers(R, EntryLo(st.tabs, r, i), EntryHi(st.tabs, r, i))
    requires forall va :: EntryLo(st.tabs, r, i) <= va < EntryHi(st.tabs, r, i) ==> va in T
    ensures var lo, hi, level := EntryLo(st.tabs, r, i), EntryHi(st.tabs, r, i), At(st.tabs, r).level;
      MapPost(st, st, T, c0, R, level, lo, hi, false, hi - 1, hi)
  {
    assert Look(0);
    SlotInRef(st.tabs, r, i);
    SkipAdvances(T, R, EntryLo(st.tabs, r, i), EntryHi(st.tabs, r, i));
    StepCounted(st, st, c0, R, r, i);
  }

  lemma NeedsTable(t: Tabs, r: Ref, i: int, R: Region)
    requires Sized(t) && Slot(t, r, i) && At(t, r).level < 3 && Meets(R, EntryLo(t, r, i), EntryHi(t, r, i))
    requires !LeafFor(R, At(t, r).level, Num(t, r, i))
    ensures Split(R, Place(At(t, r).level + 1, Num(t, r, i), r))
  {
    LevelBounds(t, r);
  }

  lemma FailDone(st: State, T: Trans, c0: seq<int>, R: Region, r: Ref, i: int)
    requires MapPre(st, T, c0, R, r, i) && Slot(st.tabs, r, i) && Row(st.tabs, r)[i] == Invalid && FirstFree(st, -1)
    requires At(st.tabs, r).level < 3 && !LeafFor(R, At(st.tabs, r).level, Num(st.tabs, r, i))
    ensures var lo, hi, level := EntryLo(st.tabs, r, i), EntryHi(st.tabs, r, i), At(st.tabs, r).level;
      MapPost(st, st, T, c0, R, level, lo, hi, true, lo, lo)
  {
    assert Look(0);
    NeedsTable(st.tabs, r, i, R);
    NoneFree(st, Upto(T, R, EntryLo(st.tabs, r, i)));
    FailCounted(st, c0, R, r, i);
  }

  lemma RecurseReady(st: State, T: Trans, c0: seq<int>, R: Region, r: Ref, i: int)
    requires MapPre(st, T, c0, R, r, i) && Slot(st.tabs, r, i) && Row(st.tabs, r)[i].Table?
    ensures BelowPre(st, T, c0, R, r, i, Row(st.tabs, r)[i].next)
  {
    assert Look(0);
    ShiftCounted(st, c0, r, i, R, EntryLo(st.tabs, r, i));
  }

  lemma CreateReady(st: State, T: Trans, c0: seq<int>, R: Region, r: Ref, i: int, s: nat)
    requires MapPre(st, T, c0, R, r, i) && Slot(st.tabs, r, i) && Row(st.tabs, r)[i] == Invalid
    requires At(st.tabs, r).level < 3
    requires FirstFree(st, s) && !LeafFor(R, At(st.tabs, r).level, Num(st.tabs, r, i))
    ensures BelowPre(PutLink(st, r, i, s), T, c0, R, r, i, s)
    ensures Extends(st.tabs, PutLink(st, r, i, s).tabs, T, R)
    ensures Slot(PutLink(st, r, i, s).tabs, r, i) && At(PutLink(st, r, i, s).tabs, r) == At(st.tabs, r)
    ensures EntryLo(PutLink(st, r, i, s).tabs, r, i) == EntryLo(st.tabs, r, i)
    ensures EntryHi(PutLink(st, r, i, s).tabs, r, i) == EntryHi(st.tabs, r, i)
    ensures Row(PutLink(st, r, i, s).tabs, r)[i] == Table(s)
  {
    hide FirstFree, LeafFor, Lo, Agree, Vacant, FreshZero, Clean, Booked, SeenCounts, Compatible, Unique, Parents,
      Children;
    assert Look(0);
    LinkReady(st, r, i, s, Upto(T, R, EntryLo(st.tabs, r, i)));
    LinkCounted(st, c0, R, r, i, s);
    LinkShape(st.tabs, r, i, s);
    NeedsTable(st.tabs, r, i, R);
    LinkExtends(st.tabs, r, i, s, T, R);
  }

  lemma PostAfter(t: Tabs, st: State, st1: State, st': State, T: Trans, c0: seq<int>, R: Region, level: int, lo: int,
      hi: int, stop: bool, end: int, to: int)
    requires MapPost(st1, st', T, c0, R, level, lo, hi, stop, end, to)
    requires Extends(st.tabs, st1.tabs, T, R) && st1.dynamic == st.dynamic
    ensures MapPost(st, st', T, c0, R, level, lo, hi, stop, end, to)
  {
    assert Look(0);
    ExtendsFurther(st.tabs, st1.tabs, st'.tabs, T, R);
  }

  // No assertion of the action choice fires.
  lemma ActionReady(st: State, T: Trans, c0: seq<int>, R: Region, r: Ref, i: int)
    requires MapPre(st, T, c0, R, r, i) && Slot(st.tabs, r, i)
    ensures Sized(st.tabs)
    ensures var l, lo, hi := At(st.tabs, r).level, EntryLo(st.tabs, r, i), EntryHi(st.tabs, r, i);
      var d := Row(st.tabs, r)[i];
      var a := MapAction(R, DescType(d), R.PaOf(lo), lo, l);
      && a != AssertionFails
      && (a == ActionNone ==> !d.Table? && Covers(R, lo, hi) && forall va :: lo <= va < hi ==> va in T)
      && (a == ActionWriteBlock ==>
        d == Invalid && Covers(R, lo, hi) && l >= 1 && LeafFits(R.PaOf(lo), l, R.granularity))
      && (a == ActionCreateTable ==> d == Invalid && l < 3 && !LeafFor(R, l, Num(st.tabs, r, i)))
      && (a == ActionRecurse ==> d.Table? && l < 3)
    ensures EntryHi(st.tabs, r, i) == EntryLo(st.tabs, r, i) + BlockSize(At(st.tabs, r).level)
  {
    assert Look(0);
    assert SlotOk(st.tabs, r, i, Upto(T, R, EntryLo(st.tabs, r, i))) && ChildOk(st.tabs, r, i);
    MapActionSafe(st.tabs, r, i, T, R);
    SlotInRef(st.tabs, r, i);
  }

  // ---- recursion -----------------------------------------------------------

  lemma BelowIsRegion(st: State, T: Trans, c0: seq<int>, R: Region, r: Ref, i: int, s: nat)
    requires BelowPre(st, T, c0, R, r, i, s) && Slot(st.tabs, r, i)
    ensures RegionPre(st, T, c0, R, Sub(s))
    ensures Has(st.tabs, Sub(s)) && 0 <= At(st.tabs, r).level < 3
    ensures At(st.tabs, Sub(s)).level == At(st.tabs, r).level + 1
    ensures RefLo(st.tabs, Sub(s)) == EntryLo(st.tabs, r, i) && RefHi(st.tabs, Sub(s)) == EntryHi(st.tabs, r, i)
    ensures EntryHi(st.tabs, r, i) == EntryLo(st.tabs, r, i) + BlockSize(At(st.tabs, r).level)
    ensures EntryHi(st.tabs, r, i) % 0x1000 == 0
  {
    assert Look(0);
    LevelBounds(st.tabs, r);
    TableBelow(st.tabs, r, i);
  }

  // Comparing the returned address with the end of the entry tells whether the
  // entry was handled to its end; a failure address is never mistaken for it.
  lemma BelowDone(st: State, st': State, T: Trans, c0: seq<int>, R: Region, level: int, lo: int, hi: int, end: int,
      to: int)
    requires 0 <= level < 3 && hi == lo + BlockSize(level) && hi % 0x1000 == 0
    requires RegionPost(st.tabs, st', T, c0, R, level + 1, lo, hi, end, to)
    requires st'.dynamic == st.dynamic
    ensures MapPost(st, st', T, c0, R, level, lo, hi, end != hi - 1, end, to)
  {
    assert Look(0);
  }

  // ---- the loop ------------------------------------------------------------

  // A linked table keeps its place and size when more tables are linked.
  lemma Kept(t: Tabs, t': Tabs, T: Trans, R: Region, r: Ref)
    requires Sized(t) && Has(t, r) && Extends(t, t', T, R) && Sized(t')
    ensures Has(t', r) && At(t', r) == At(t, r) && |Row(t', r)| == |Row(t, r)|
  {
  }

  lemma LoopStarts(st: State, T: Trans, c0: seq<int>, R: Region, r: Ref)
    requires RegionPre(st, T, c0, R, r) && Has(st.tabs, r)
    ensures Sized(st.tabs)
    ensures var va := StartVa(R, RefLo(st.tabs, r), At(st.tabs, r).level);
      var idx := VaToIndex(RefLo(st.tabs, r), va, At(st.tabs, r).level);
      va == EntryLo(st.tabs, r, idx) && 0 <= idx < |Row(st.tabs, r)|
    ensures r.Sub? ==> r.idx < |st.cnt|
    ensures var va := StartVa(R, RefLo(st.tabs, r), At(st.tabs, r).level);
      Looping(st.tabs, Opened(st, r), T, c0, R, r, VaToIndex(RefLo(st.tabs, r), va, At(st.tabs, r).level))
  {
    assert Look(0);
    StartEntry(st.tabs, r, R);
    var va := StartVa(R, RefLo(st.tabs, r), At(st.tabs, r).level);
    StartUpto(T, R, RefLo(st.tabs, r), va);
    OpenReady(st, c0, r, R, va, Upto(T, R, va));
  }

  lemma LoopBody(t: Tabs, st: State, T: Trans, c0: seq<int>, R: Region, r: Ref, idx: int)
    requires Looping(t, st, T, c0, R, r, idx) && Has(t, r) && idx < |Row(t, r)|
    ensures MapPre(st, T, c0, R, r, idx)
    ensures Slot(st.tabs, r, idx) && At(st.tabs, r) == At(t, r)
    ensures EntryLo(st.tabs, r, idx) == EntryLo(t, r, idx) && EntryHi(st.tabs, r, idx) == EntryHi(t, r, idx)
  {
    hide Mappable, Sized, Upto, Extends, Clean, Agree, Booked, Lo;
    var c, level := EntryLo(t, r, idx), At(t, r).level;
    assert LoopAt(t, R, r, idx) && Counted(st, c0, R, c, level, RefLo(t, r)) by { assert Look(0); }
    assert Mappable(T, R) && Extends(t, st.tabs, T, R) && Ready(st, Upto(T, R, c), Base) by { assert Look(0); }
    Kept(t, st.tabs, T, R, r);
    assert EntryLo(st.tabs, r, idx) == c && EntryHi(st.tabs, r, idx) == EntryHi(t, r, idx)
      && RefLo(st.tabs, r) == RefLo(t, r);
  }

  lemma KeptRange(t: Tabs, t': Tabs, T: Trans, R: Region, r: Ref, i: int)
    requires Sized(t) && Has(t, r) && Extends(t, t', T, R) && Sized(t')
    ensures Has(t', r) && At(t', r) == At(t, r) && |Row(t', r)| == |Row(t, r)|
    ensures RefLo(t', r) == RefLo(t, r) && RefHi(t', r) == RefHi(t, r)
    ensures EntryLo(t', r, i) == EntryLo(t, r, i)
  {
    Kept(t, t', T, R, r);
  }

  lemma LoopCounted(t: Tabs, st: State, T: Trans, c0: seq<int>, R: Region, r: Ref, idx: int, to: int)
    requires LoopAt(t, R, r, idx) && idx < |Row(t, r)| && Extends(t, st.tabs, T, R) && Tree(st.tabs)
    requires Counted(st, c0, R, to, At(t, r).level, EntryLo(t, r, idx))
    requires EntryLo(t, r, idx) < to && R.baseVa < to
    ensures Counted(st, c0, R, to, At(t, r).level, RefLo(t, r))
    ensures Counted(st, c0, R, to, At(t, r).level - 1, RefLo(t, r))
  {
    assert RefLo(t, r) < to && R.baseVa < RefHi(t, r) by {
      SlotInRef(t, r, idx);
    }
    KeptRange(t, st.tabs, T, R, r, idx);
    ShiftCounted(st, c0, r, idx, R, to);
    CloseCounted(st, c0, r, R, to);
  }

  // The entry was handled to its end: on to the next one, or done.
  // Everything of the region up to `to` has been handled and counted.
  ghost predicate Handled(t: Tabs, st: State, T: Trans, c0: seq<int>, R: Region, lo: int, level: int, to: int) {
    forall k {:trigger Look(k)} :: Look(k) ==>
      && Mappable(T, R) && Extends(t, st.tabs, T, R) && Ready(st, Upto(T, R, to), Base)
      && Counted(st, c0, R, to, level, lo) && Counted(st, c0, R, to, level - 1, lo)
  }

  lemma TurnDone(t: Tabs, st: State, st': State, T: Trans, c0: seq<int>, R: Region, r: Ref, idx: int,
                 lo: int, hi: int, level: int, end: int, to: int)
    requires Looping(t, st, T, c0, R, r, idx) && Has(t, r) && idx < |Row(t, r)|
    requires lo == EntryLo(t, r, idx) && hi == EntryHi(t, r, idx) && level == At(t, r).level
    requires MapPost(st, st', T, c0, R, level, lo, hi, false, end, to)
    ensures end == hi - 1 && to == hi <= R.EndVa() && LoopAt(t, R, r, idx) && Aligned4K(R)
    ensures Handled(t, st', T, c0, R, RefLo(t, r), level, to)
  {
    hide Extends, Sized, Lo, BlockSize, Compatible, Upto, Unique, Parents, Children, SeenCounts, FreshZero, Clean,
      Agree, Booked, Stuck, FailureCounts, Exhausted;
    assert LoopAt(t, R, r, idx) && Mappable(T, R) by { assert Look(0); }
    assert Extends(t, st'.tabs, T, R) by { assert Look(0); ExtendsFurther(t, st.tabs, st'.tabs, T, R); }
    assert Stops(R, hi, false, end, to) && Mapped(st', T, c0, R, lo, hi, level, end, to) by { assert Look(0); }
    SlotInRef(t, r, idx);
    LoopCounted(t, st', T, c0, R, r, idx, to);
  }

  lemma LoopNext(t: Tabs, st: State, st': State, T: Trans, c0: seq<int>, R: Region, r: Ref, idx: int,
                 lo: int, hi: int, level: int, end: int, to: int, va: int)
    requires Looping(t, st, T, c0, R, r, idx) && Has(t, r) && idx < |Row(t, r)|
    requires lo == EntryLo(t, r, idx) && hi == EntryHi(t, r, idx) && level == At(t, r).level
    requires va == lo + BlockSize(level)
    requires MapPost(st, st', T, c0, R, level, lo, hi, false, end, to)
    ensures va == EntryLo(t, r, idx + 1) && end == va - 1 && to == va
    ensures !(R.EndVa() - 1 <= va) ==> Looping(t, st', T, c0, R, r, idx + 1)
    ensures R.EndVa() - 1 <= va || idx + 1 == |Row(t, r)| ==>
      RegionPost(t, st', T, c0, R, level, RefLo(t, r), RefHi(t, r), end, to)
  {
    TurnDone(t, st, st', T, c0, R, r, idx, lo, hi, level, end, to);
    NextEntry(t, r, idx, R);
    if !(R.EndVa() - 1 <= va) {
      GoesOn(t, st', T, c0, R, r, idx, level, to);
    }
    if R.EndVa() - 1 <= va || idx + 1 == |Row(t, r)| {
      LoopEnds(t, st', T, c0, R, RefLo(t, r), RefHi(t, r), level, end, to);
    }
  }

  lemma GoesOn(t: Tabs, st: State, T: Trans, c0: seq<int>, R: Region, r: Ref, idx: int, level: int, to: int)
    requires Has(t, r) && level == At(t, r).level && to == EntryLo(t, r, idx + 1) && to < R.EndVa()
    requires Handled(t, st, T, c0, R, RefLo(t, r), level, to)
    requires Sized(t) && 0 <= idx < |Row(t, r)| && R.baseVa < EntryHi(t, r, idx + 1)
    ensures Looping(t, st, T, c0, R, r, idx + 1)
  {
    assert Look(0);
  }

  lemma LoopEnds(t: Tabs, st: State, T: Trans, c0: seq<int>, R: Region, lo: int, hi: int, level: int, end: int, to: int)
    requires Handled(t, st, T, c0, R, lo, level, to)
    requires end == to - 1 && to == if R.EndVa() < hi then R.EndVa() else hi
    ensures RegionPost(t, st, T, c0, R, level, lo, hi, end, to)
  {
    assert Look(0);
  }

  lemma LoopStop(t: Tabs, st: State, st': State, T: Trans, c0: seq<int>, R: Region, r: Ref, idx: int,
                 lo: int, hi: int, level: int, end: int, to: int)
    requires Looping(t, st, T, c0, R, r, idx) && Has(t, r) && idx < |Row(t, r)|
    requires lo == EntryLo(t, r, idx) && hi == EntryHi(t, r, idx) && level == At(t, r).level
    requires MapPost(st, st', T, c0, R, level, lo, hi, true, end, to)
    ensures RegionPost(t, st', T, c0, R, level, RefLo(t, r), RefHi(t, r), end, to)
  {
    hide Sized, Tree, Extends;
    assert Look(0);
    ExtendsFurther(t, st.tabs, st'.tabs, T, R);
    SlotInRef(t, r, idx);
    if end != to {
      LoopCounted(t, st', T, c0, R, r, idx, to);
    }
  }

  // ---- the loop as a whole -------------------------------------------------

  // The head of the loop over table `r`, of range [lo, high), at entry `idx`.
  ghost predicate Head(t: Tabs, st: State, T: Trans, c0: seq<int>, R: Region, r: Ref, idx: int, va: int, entries: int,
                       level: int, lo: int, high: int, end: int, to: int)
  {
    forall k {:trigger Look(k)} :: Look(k) ==>
      && Has(t, r) && level == At(t, r).level && lo == RefLo(t, r) && high == RefHi(t, r)
      && 0 <= idx <= entries == |Row(t, r)| && va == EntryLo(t, r, idx)
      && (idx < entries ==> Looping(t, st, T, c0, R, r, idx))
      && (idx == entries ==> RegionPost(t, st, T, c0, R, level, lo, high, end, to))
  }

  lemma HeadStarts(t: Tabs, st: State, T: Trans, c0: seq<int>, R: Region, r: Ref, idx: int, va: int, entries: int,
                   level: int, lo: int, high: int, end: int, to: int)
    requires Has(t, r) && level == At(t, r).level && lo == RefLo(t, r) && high == RefHi(t, r)
    requires 0 <= idx < entries == |Row(t, r)| && va == EntryLo(t, r, idx) && Looping(t, st, T, c0, R, r, idx)
    ensures Head(t, st, T, c0, R, r, idx, va, entries, level, lo, high, end, to)
  {
  }

  // The entry at the head is ready to be handled.
  lemma HeadEntry(t: Tabs, st: State, T: Trans, c0: seq<int>, R: Region, r: Ref, idx: int, va: int, entries: int,
                  level: int, lo: int, high: int, end: int, to: int)
    requires Head(t, st, T, c0, R, r, idx, va, entries, level, lo, high, end, to) && idx < entries
    ensures MapPre(st, T, c0, R, r, idx) && Slot(st.tabs, r, idx)
    ensures level == At(st.tabs, r).level && va == EntryLo(st.tabs, r, idx)
  {
    assert Has(t, r) && level == At(t, r).level && 0 <= idx < |Row(t, r)|
      && va == EntryLo(t, r, idx) by { assert Look(0); }
    assert Looping(t, st, T, c0, R, r, idx) by { assert Look(0); }
    LoopBody(t, st, T, c0, R, r, idx);
  }

  lemma HeadStops(t: Tabs, st: State, st': State, T: Trans, c0: seq<int>, R: Region, r: Ref, idx: int, va: int,
      entries: int, level: int, lo: int, high: int, end0: int, to0: int, hi: int, end: int, to: int)
    requires Head(t, st, T, c0, R, r, idx, va, entries, level, lo, high, end0, to0) && idx < entries
    requires Slot(st.tabs, r, idx) && hi == EntryHi(st.tabs, r, idx)
    requires MapPost(st, st', T, c0, R, level, va, hi, true, end, to)
    ensures RegionPost(t, st', T, c0, R, level, lo, high, end, to)
  {
    assert Has(t, r) && level == At(t, r).level && 0 <= idx < |Row(t, r)|
      && va == EntryLo(t, r, idx) by { assert Look(0); }
    assert Looping(t, st, T, c0, R, r, idx) && lo == RefLo(t, r) && high == RefHi(t, r) by { assert Look(0); }
    LoopBody(t, st, T, c0, R, r, idx);
    LoopStop(t, st, st', T, c0, R, r, idx, va, hi, level, end, to);
  }

  lemma HeadNext(t: Tabs, st: State, st': State, T: Trans, c0: seq<int>, R: Region, r: Ref, idx: int, va: int,
      entries: int, level: int, lo: int, high: int, end0: int, to0: int, hi: int, end: int, to: int, next: int)
    requires Head(t, st, T, c0, R, r, idx, va, entries, level, lo, high, end0, to0) && idx < entries
    requires Slot(st.tabs, r, idx) && hi == EntryHi(st.tabs, r, idx) && next == va + BlockSize(level)
    requires MapPost(st, st', T, c0, R, level, va, hi, false, end, to)
    ensures R.EndVa() - 1 <= next || idx + 1 == entries ==> RegionPost(t, st', T, c0, R, level, lo, high, end, to)
    ensures !(R.EndVa() - 1 <= next) ==> Head(t, st', T, c0, R, r, idx + 1, next, entries, level, lo, high, end, to)
  {
    assert Has(t, r) && level == At(t, r).level && 0 <= idx < |Row(t, r)|
      && va == EntryLo(t, r, idx) by { assert Look(0); }
    assert Looping(t, st, T, c0, R, r, idx) && lo == RefLo(t, r) && high == RefHi(t, r)
      && entries == |Row(t, r)| by { assert Look(0); }
    LoopBody(t, st, T, c0, R, r, idx);
    LoopNext(t, st, st', T, c0, R, r, idx, va, hi, level, end, to, next);
  }

  lemma HeadDone(t: Tabs, st: State, T: Trans, c0: seq<int>, R: Region, r: Ref, idx: int, va: int, entries: int,
                 level: int, lo: int, high: int, end: int, to: int)
    requires Head(t, st, T, c0, R, r, idx, va, entries, level, lo, high, end, to) && entries <= idx
    ensures RegionPost(t, st, T, c0, R, level, lo, high, end, to)
  {
    assert Look(0);
  }
}

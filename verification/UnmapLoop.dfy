/**
 What each step of the unmapping recursion needs and achieves, as facts about
 the state before and after it.
 */
module UnmapLoop {
  import opened Folding
  import opened Geometry
  import opened Tables
  import opened Mapping
  import opened Counts
  import opened TableState
  import opened UnmapState
  import opened MapLoop

  // What is needed to handle entry `i` of table `r`.
  ghost predicate DropPre(st: State, J: Job, r: Ref, i: int) {
    forall k {:trigger Look(k)} :: Look(k) ==>
      && Slot(st.tabs, r, i)
      && Draining(st, J, EntryLo(st.tabs, r, i), At(st.tabs, r).level, RefLo(st.tabs, r), Base)
      && Meets(J.R, EntryLo(st.tabs, r, i), EntryHi(st.tabs, r, i))
  }

  // What handling an entry that ends at `hi` of table `r` achieves.
  ghost predicate DropPost(st: State, st': State, J: Job, r: Ref, hi: int, level: int, a: int) {
    forall k {:trigger Look(k)} :: Look(k) ==>
      Shrinks(st.tabs, st'.tabs) && Has(st'.tabs, r) && Draining(st', J, hi, level, a, Base)
  }

  // What is needed to unmap the region in table `r`.
  ghost predicate DrainPre(st: State, J: Job, r: Ref) {
    forall k {:trigger Look(k)} :: Look(k) ==>
      && Has(st.tabs, r)
      && Draining(st, J, RefLo(st.tabs, r), At(st.tabs, r).level - 1, RefLo(st.tabs, r), Base)
      && Meets(J.R, RefLo(st.tabs, r), RefHi(st.tabs, r))
  }

  // What unmapping it in a table of range [lo, hi) achieves.
  ghost predicate DrainPost(t: Tabs, st: State, J: Job, r: Ref, level: int, lo: int, hi: int) {
    forall k {:trigger Look(k)} :: Look(k) ==>
      Shrinks(t, st.tabs) && Has(st.tabs, r) && Draining(st, J, hi, level - 1, lo, r)
  }

  // The head of the loop over table `r`, which started in `t`, at entry `idx`.
  ghost predicate DrainLoop(t: Tabs, st: State, J: Job, r: Ref, idx: int) {
    forall k {:trigger Look(k)} :: Look(k) ==>
      && LoopAt(t, J.R, r, idx) && Shrinks(t, st.tabs) && Has(st.tabs, r)
      && Draining(st, J, EntryLo(t, r, idx), At(t, r).level, RefLo(t, r), Base)
  }

  // The loop is over: all of the region in the table is unmapped.
  ghost predicate DrainEnd(t: Tabs, st: State, J: Job, r: Ref) {
    forall k {:trigger Look(k)} :: Look(k) ==>
      && Sized(t) && Has(t, r) && Shrinks(t, st.tabs) && Has(st.tabs, r)
      && Draining(st, J, RefHi(t, r), At(t, r).level, RefLo(t, r), Base)
      && Meets(J.R, RefLo(t, r), RefHi(t, r)) && RefLo(t, r) < RefHi(t, r)
  }

  // ---- one entry -----------------------------------------------------------

  // No assertion of the action choice fires, and no entry is skipped.
  lemma DropAction(st: State, J: Job, r: Ref, i: int)
    requires DropPre(st, J, r, i) && Slot(st.tabs, r, i)
    ensures Sized(st.tabs)
    ensures var l, lo, hi := At(st.tabs, r).level, EntryLo(st.tabs, r, i), EntryHi(st.tabs, r, i);
      var d := Row(st.tabs, r)[i];
      var a := UnmapAction(J.R, lo, hi - 1, l, DescType(d));
      && (a == ActionWriteBlock || a == ActionRecurse)
      && (a == ActionWriteBlock ==> (d.Block? || d.Page?) && Covers(J.R, lo, hi))
      && (a == ActionRecurse ==> d.Table? && l < 3)
    ensures EntryHi(st.tabs, r, i) == EntryLo(st.tabs, r, i) + BlockSize(At(st.tabs, r).level)
  {
    hide Sized, Lo, EntryOk, Owned;
    assert Look(0);
    assert SlotOk(st.tabs, r, i, Without(J.T, J.R, EntryLo(st.tabs, r, i))) && ChildOk(st.tabs, r, i);
    UnmapActionSafe(st.tabs, r, i, J.T, J.R, J.own);
    SlotInRef(st.tabs, r, i);
  }

  lemma ClearDone(st: State, J: Job, r: Ref, i: int)
    requires DropPre(st, J, r, i) && Slot(st.tabs, r, i) && !Row(st.tabs, r)[i].Table?
    requires Covers(J.R, EntryLo(st.tabs, r, i), EntryHi(st.tabs, r, i))
    ensures DropPost(st, Cleared(st, r, i), J, r, EntryHi(st.tabs, r, i), At(st.tabs, r).level, RefLo(st.tabs, r))
  {
    assert Look(0);
    ClearReady(st, J, r, i);
  }

  lemma BelowReady(st: State, J: Job, r: Ref, i: int)
    requires DropPre(st, J, r, i) && Slot(st.tabs, r, i) && Row(st.tabs, r)[i].Table?
    ensures var s := Row(st.tabs, r)[i].next;
      && DrainPre(st, J, Sub(s)) && s < |st.cnt|
      && Has(st.tabs, Sub(s)) && At(st.tabs, Sub(s)).level == At(st.tabs, r).level + 1
      && RefLo(st.tabs, Sub(s)) == EntryLo(st.tabs, r, i) && RefHi(st.tabs, Sub(s)) == EntryHi(st.tabs, r, i)
  {
    hide Tree;
    assert Look(0);
    TableBelow(st.tabs, r, i);
    LeftShift(st.tabs, st.cnt, J.c0, r, i, J.R, EntryLo(st.tabs, r, i));
  }

  // The entry still links the table when the recursion returns.
  lemma StillLinked(t: Tabs, st: State, J: Job, r: Ref, i: int, s: nat)
    requires Tree(t) && Slot(t, r, i) && Row(t, r)[i] == Table(s)
    requires Shrinks(t, st.tabs) && Has(st.tabs, Sub(s)) && Tree(st.tabs)
    ensures Slot(st.tabs, r, i) && Row(st.tabs, r)[i] == Table(s) && At(st.tabs, r) == At(t, r)
  {
    StepTable(t, r, i);
    assert LinkedBy(st.tabs, s, st.tabs.place[s]);
  }

  // The table below the entry has been processed.
  lemma BelowFacts(st: State, st': State, J: Job, r: Ref, i: int)
    requires DropPre(st, J, r, i) && Slot(st.tabs, r, i) && Row(st.tabs, r)[i].Table?
    requires DrainPost(st.tabs, st', J, Sub(Row(st.tabs, r)[i].next), At(st.tabs, r).level + 1, EntryLo(st.tabs, r, i),
      EntryHi(st.tabs, r, i))
    ensures Sized(st'.tabs) && Slot(st'.tabs, r, i) && Row(st'.tabs, r)[i] == Row(st.tabs, r)[i]
    ensures Row(st.tabs, r)[i].next < |st'.cnt| && Shrinks(st.tabs, st'.tabs) && At(st'.tabs, r) == At(st.tabs, r)
    ensures Draining(st', J, EntryHi(st.tabs, r, i), At(st.tabs, r).level, EntryLo(st.tabs, r, i),
      Sub(Row(st.tabs, r)[i].next))
    ensures Tree(st.tabs) && Meets(J.R, EntryLo(st.tabs, r, i), EntryHi(st.tabs, r, i))
  {
    assert Look(0);
    StillLinked(st.tabs, st', J, r, i, Row(st.tabs, r)[i].next);
  }

  lemma BelowShape(st: State, st': State, J: Job, r: Ref, i: int)
    requires DropPre(st, J, r, i) && Slot(st.tabs, r, i) && Row(st.tabs, r)[i].Table?
    requires DrainPost(st.tabs, st', J, Sub(Row(st.tabs, r)[i].next), At(st.tabs, r).level + 1, EntryLo(st.tabs, r, i),
      EntryHi(st.tabs, r, i))
    ensures Sized(st'.tabs) && Slot(st'.tabs, r, i) && Row(st.tabs, r)[i].next < |st'.cnt|
    ensures EntryLo(st'.tabs, r, i) == EntryLo(st.tabs, r, i)
  {
    hide Draining;
    BelowFacts(st, st', J, r, i);
  }

  // It still has regions: it stays.
  lemma KeepDone(st: State, st': State, J: Job, r: Ref, i: int)
    requires DropPre(st, J, r, i) && Slot(st.tabs, r, i) && Row(st.tabs, r)[i].Table?
    requires DrainPost(st.tabs, st', J, Sub(Row(st.tabs, r)[i].next), At(st.tabs, r).level + 1, EntryLo(st.tabs, r, i),
      EntryHi(st.tabs, r, i))
    requires Row(st.tabs, r)[i].next < |st'.cnt| && st'.cnt[Row(st.tabs, r)[i].next] != 0
    ensures DropPost(st, st', J, r, EntryHi(st.tabs, r, i), At(st.tabs, r).level, RefLo(st.tabs, r))
  {
    hide Tree, DropPost, DrainPost, DropPre, Sized, Owners, Enough;
    BelowFacts(st, st', J, r, i);
    AfterBelow(st, st', J, r, i, EntryHi(st.tabs, r, i), EntryLo(st.tabs, r, i), At(st.tabs, r).level);
  }

  // It is empty: its entry is cleared.
  lemma DropDone(st: State, st': State, J: Job, r: Ref, i: int)
    requires DropPre(st, J, r, i) && Slot(st.tabs, r, i) && Row(st.tabs, r)[i].Table?
    requires DrainPost(st.tabs, st', J, Sub(Row(st.tabs, r)[i].next), At(st.tabs, r).level + 1, EntryLo(st.tabs, r, i),
      EntryHi(st.tabs, r, i))
    requires Row(st.tabs, r)[i].next < |st'.cnt| && st'.cnt[Row(st.tabs, r)[i].next] == 0
    ensures Slot(st'.tabs, r, i)
    ensures DropPost(st, Dropped(st', r, i), J, r, EntryHi(st.tabs, r, i), At(st.tabs, r).level, RefLo(st.tabs, r))
  {
    BelowFacts(st, st', J, r, i);
    DropAfterBelow(st, st', J, r, i, EntryLo(st.tabs, r, i), EntryHi(st.tabs, r, i), At(st.tabs, r).level);
  }

  lemma DropAfterBelow(st: State, st': State, J: Job, r: Ref, i: int, lo: int, hi: int, level: int)
    requires Slot(st.tabs, r, i) && Tree(st.tabs) && Shrinks(st.tabs, st'.tabs) && Slot(st'.tabs, r, i)
    requires Sized(st'.tabs)
    requires lo == EntryLo(st.tabs, r, i) && hi == EntryHi(st.tabs, r, i) && level == At(st.tabs, r).level
    requires Row(st'.tabs, r)[i].Table? && Row(st'.tabs, r)[i].next < |st'.cnt|
    requires st'.cnt[Row(st'.tabs, r)[i].next] == 0
    requires Drained(st', J, hi, level, lo, Sub(Row(st'.tabs, r)[i].next)) && Meets(J.R, lo, hi)
    ensures DropPost(st, Dropped(st', r, i), J, r, hi, level, RefLo(st.tabs, r))
  {
    hide Sized;
    KeptAbove(st.tabs, st'.tabs, r);
    assert lo == EntryLo(st'.tabs, r, i) && hi == EntryHi(st'.tabs, r, i) && level == At(st'.tabs, r).level;
    DropKeeps(st', J, r, i, lo, hi, level);
    ShrinksFurther(st.tabs, st'.tabs, Dropped(st', r, i).tabs);
    AfterBelow(st, Dropped(st', r, i), J, r, i, hi, lo, level);
  }

  // Draining, kept folded.
  ghost predicate Drained(st: State, J: Job, c: int, level: int, a: int, hot: Ref) {
    forall k {:trigger Look(k)} :: Look(k) ==> Draining(st, J, c, level, a, hot)
  }

  lemma DropKeeps(st: State, J: Job, r: Ref, i: int, lo: int, hi: int, level: int)
    requires Slot(st.tabs, r, i) && Row(st.tabs, r)[i].Table? && Row(st.tabs, r)[i].next < |st.cnt|
    requires st.cnt[Row(st.tabs, r)[i].next] == 0
    requires lo == EntryLo(st.tabs, r, i) && hi == EntryHi(st.tabs, r, i) && level == At(st.tabs, r).level
    requires Drained(st, J, hi, level, lo, Sub(Row(st.tabs, r)[i].next)) && Meets(J.R, lo, hi)
    ensures Shrinks(st.tabs, Dropped(st, r, i).tabs) && Has(Dropped(st, r, i).tabs, r)
    ensures Drained(Dropped(st, r, i), J, hi, level, lo, Base)
  {
    assert Look(0);
    StepTable(st.tabs, r, i);
    DropReady(st, J, r, i, Row(st.tabs, r)[i].next);
    NotInside(st.tabs, r, i);
  }

  lemma AfterBelow(st: State, w: State, J: Job, r: Ref, i: int, c: int, lo: int, level: int)
    requires Slot(st.tabs, r, i) && Tree(st.tabs) && Has(w.tabs, r) && Shrinks(st.tabs, w.tabs)
    requires lo == EntryLo(st.tabs, r, i) && level == At(st.tabs, r).level && Drained(w, J, c, level, lo, Base)
    ensures DropPost(st, w, J, r, c, level, RefLo(st.tabs, r))
  {
    hide Shrinks, Sized, LeftCounts, Enough;
    assert Look(0);
    KeptAbove(st.tabs, w.tabs, r);
    ShiftLeft(w, J.c0, r, i, J.R, c);
  }

  lemma ShiftLeft(w: State, c0: seq<int>, r: Ref, i: int, R: Region, c: int)
    requires Tree(w.tabs) && Slot(w.tabs, r, i)
    requires LeftCounts(w.tabs, w.cnt, c0, R, c, At(w.tabs, r).level, EntryLo(w.tabs, r, i))
    ensures LeftCounts(w.tabs, w.cnt, c0, R, c, At(w.tabs, r).level, RefLo(w.tabs, r))
  {
    LeftShift(w.tabs, w.cnt, c0, r, i, R, c);
  }

  // ---- the loop ------------------------------------------------------------

  lemma DrainStarts(st: State, J: Job, r: Ref)
    requires DrainPre(st, J, r) && Has(st.tabs, r)
    ensures Sized(st.tabs)
    ensures var va := StartVa(J.R, RefLo(st.tabs, r), At(st.tabs, r).level);
      var idx := VaToIndex(RefLo(st.tabs, r), va, At(st.tabs, r).level);
      va == EntryLo(st.tabs, r, idx) && 0 <= idx < |Row(st.tabs, r)| && DrainLoop(st.tabs, st, J, r, idx)
  {
    hide Sized, LeftCounts, Enough, Untouched, Residue;
    assert Look(0);
    StartEntry(st.tabs, r, J.R);
    var va := StartVa(J.R, RefLo(st.tabs, r), At(st.tabs, r).level);
    assert Without(J.T, J.R, RefLo(st.tabs, r)) == Without(J.T, J.R, va);
    LeftOpen(st.tabs, st.cnt, J.c0, r, J.R, va);
  }

  lemma DrainBody(t: Tabs, st: State, J: Job, r: Ref, idx: int)
    requires DrainLoop(t, st, J, r, idx) && Has(t, r) && idx < |Row(t, r)|
    ensures DropPre(st, J, r, idx) && Slot(st.tabs, r, idx) && At(st.tabs, r) == At(t, r)
    ensures EntryLo(st.tabs, r, idx) == EntryLo(t, r, idx) && EntryHi(st.tabs, r, idx) == EntryHi(t, r, idx)
    ensures RefLo(st.tabs, r) == RefLo(t, r)
  {
    hide Tree, Sized, Nested, Owners, Enough;
    var c, level := EntryLo(t, r, idx), At(t, r).level;
    assert LoopAt(t, J.R, r, idx) && Draining(st, J, c, level, RefLo(t, r), Base) by { assert Look(0); }
    assert Shrinks(t, st.tabs) && Has(st.tabs, r) by { assert Look(0); }
    KeptAbove(t, st.tabs, r);
    SlotInRef(t, r, idx);
    assert EntryLo(st.tabs, r, idx) == c && EntryHi(st.tabs, r, idx) == EntryHi(t, r, idx);
    assert Meets(J.R, EntryLo(st.tabs, r, idx), EntryHi(st.tabs, r, idx));
  }

  lemma DrainNext(t: Tabs, st: State, st': State, J: Job, r: Ref, idx: int, va: int, hi: int, level: int, a: int)
    requires DrainLoop(t, st, J, r, idx) && Has(t, r) && idx < |Row(t, r)|
    requires hi == EntryHi(t, r, idx) && level == At(t, r).level && a == RefLo(t, r)
    requires va == EntryLo(t, r, idx) + BlockSize(level)
    requires DropPost(st, st', J, r, hi, level, a)
    ensures va == EntryLo(t, r, idx + 1)
    ensures !(J.R.EndVa() - 1 <= va) ==> DrainLoop(t, st', J, r, idx + 1)
    ensures J.R.EndVa() - 1 <= va || idx + 1 == |Row(t, r)| ==> DrainEnd(t, st', J, r)
  {
    hide Shrinks, DrainLoop, DropPost, DrainEnd, Drained, Lo, BlockSize;
    DrainTurn(t, st, st', J, r, idx, hi, level, a);
    LoopRange(t, J.R, r, idx);
    NextEntryOrEnd(t, r, idx, J.R);
    if !(J.R.EndVa() - 1 <= va) {
      DrainGoesOn(t, st', J, r, idx, va, level, a);
    }
    if J.R.EndVa() - 1 <= va || idx + 1 == |Row(t, r)| {
      DrainEnds(t, st', J, r, va, level, a);
    }
  }

  lemma DrainTurn(t: Tabs, st: State, st': State, J: Job, r: Ref, idx: int, hi: int, level: int, a: int)
    requires DrainLoop(t, st, J, r, idx) && DropPost(st, st', J, r, hi, level, a)
    ensures LoopAt(t, J.R, r, idx) && Aligned4K(J.R) && Shrinks(t, st'.tabs) && Has(st'.tabs, r)
    ensures Drained(st', J, hi, level, a, Base)
  {
    hide Without, LeftCounts, Agree, Residue, Untouched, Children, Parents, Unique;
    assert Look(0);
    ShrinksFurther(t, st.tabs, st'.tabs);
  }

  lemma LoopRange(t: Tabs, R: Region, r: Ref, idx: int)
    requires LoopAt(t, R, r, idx) && idx < |Row(t, r)|
    ensures Meets(R, RefLo(t, r), RefHi(t, r)) && RefLo(t, r) < RefHi(t, r)
  {
    SlotInRef(t, r, idx);
  }

  lemma DrainGoesOn(t: Tabs, st: State, J: Job, r: Ref, idx: int, c: int, level: int, a: int)
    requires LoopAt(t, J.R, r, idx) && idx < |Row(t, r)| && Shrinks(t, st.tabs) && Has(st.tabs, r)
    requires c == EntryLo(t, r, idx + 1) && level == At(t, r).level && a == RefLo(t, r)
    requires Drained(st, J, c, level, a, Base)
    requires c < J.R.EndVa() && J.R.baseVa < EntryHi(t, r, idx + 1)
    ensures DrainLoop(t, st, J, r, idx + 1)
  {
    hide Draining, Shrinks;
    assert Look(0);
  }

  lemma DrainEnds(t: Tabs, st: State, J: Job, r: Ref, c: int, level: int, a: int)
    requires Sized(t) && Has(t, r) && Shrinks(t, st.tabs) && Has(st.tabs, r)
    requires level == At(t, r).level && a == RefLo(t, r) && Drained(st, J, c, level, a, Base)
    requires J.R.EndVa() <= c <= RefHi(t, r) || c == RefHi(t, r)
    requires Meets(J.R, RefLo(t, r), RefHi(t, r)) && RefLo(t, r) < RefHi(t, r)
    ensures DrainEnd(t, st, J, r)
  {
    assert Draining(st, J, c, level, a, Base) by { assert Look(0); }
    DrainFurther(st, J, c, RefHi(t, r), level, a);
    hide Draining, Shrinks;
    assert Look(0);
  }

  lemma WithoutFurther(J: Job, c: int, c': int)
    requires c == c' || (J.R.EndVa() <= c && J.R.EndVa() <= c')
    ensures Without(J.T, J.R, c) == Without(J.T, J.R, c')
  {
  }

  // Past the end of the region, how far past does not matter.
  lemma DrainFurther(st: State, J: Job, c: int, c': int, level: int, a: int)
    requires Draining(st, J, c, level, a, Base) && (c == c' || (J.R.EndVa() <= c && J.R.EndVa() <= c'))
    ensures Draining(st, J, c', level, a, Base)
  {
    hide Without, LeftCounts, Agree, Residue, Untouched, Children, Parents, Unique;
    WithoutFurther(J, c, c');
    LeftEnd(st.tabs, st.cnt, J.c0, J.R, c, c', level, a);
  }

  // Leaving a table uncounts the region in it.
  function Closed(st: State, r: Ref): State
    requires r.Sub? ==> r.idx < |st.cnt|
  {
    if r.Sub? then st.(cnt := st.cnt[r.idx := st.cnt[r.idx] - 1]) else st
  }

  lemma DrainDone(t: Tabs, st: State, J: Job, r: Ref)
    requires DrainEnd(t, st, J, r) && Has(t, r)
    ensures Sized(st.tabs) && Has(st.tabs, r) && At(st.tabs, r) == At(t, r) && (r.Sub? ==> r.idx < |st.cnt|)
    ensures DrainPost(t, Closed(st, r), J, r, At(t, r).level, RefLo(t, r), RefHi(t, r))
  {
    hide Draining, DrainEnd, Shrinks, Lo;
    EndFacts(t, st, J, r);
    KeptAbove(t, st.tabs, r);
    CloseDraining(st, J, r, At(t, r).level, RefLo(t, r), RefHi(t, r));
    ClosedShape(t, st, r);
  }

  lemma EndFacts(t: Tabs, st: State, J: Job, r: Ref)
    requires DrainEnd(t, st, J, r) && Has(t, r)
    ensures Shrinks(t, st.tabs) && Has(st.tabs, r) && Sized(st.tabs) && Sized(t)
    ensures Draining(st, J, RefHi(t, r), At(t, r).level, RefLo(t, r), Base) && Meets(J.R, RefLo(t, r), RefHi(t, r))
  {
    hide Without, LeftCounts, Agree, Residue, Untouched, Children, Parents, Unique;
    assert Look(0);
  }

  lemma ClosedShape(t: Tabs, st: State, r: Ref)
    requires r.Sub? ==> r.idx < |st.cnt|
    ensures Closed(st, r).tabs == st.tabs
  {
  }

  // The table is left: it is the last one that may have become empty.
  lemma CloseDraining(st: State, J: Job, r: Ref, level: int, lo: int, hi: int)
    requires Sized(st.tabs) && Has(st.tabs, r) && level == At(st.tabs, r).level && lo == RefLo(st.tabs, r)
    requires hi == RefHi(st.tabs, r)
    requires Draining(st, J, hi, level, lo, Base) && Meets(J.R, lo, hi)
    ensures (r.Sub? ==> r.idx < |st.cnt|) && Draining(Closed(st, r), J, hi, level - 1, lo, r)
  {
    hide LeftCounts, Agree, Residue, Untouched, Children, Parents, Unique, Without, Booked, Nested, Enough, Lo;
    CloseCounts(st, J, r, level, lo, hi);
    CloseRange(st.tabs, J, r, lo, hi);
    OpenCount(st, J, r, level, lo, hi);
    CloseBooks(st, J, r);
  }

  lemma CloseCounts(st: State, J: Job, r: Ref, level: int, lo: int, hi: int)
    requires Tree(st.tabs) && Has(st.tabs, r) && level == At(st.tabs, r).level && lo == RefLo(st.tabs, r)
    requires hi == RefHi(st.tabs, r)
    requires LeftCounts(st.tabs, st.cnt, J.c0, J.R, hi, level, lo) && Meets(J.R, lo, hi) && 0 < J.R.size
    requires |st.cnt| == |st.tabs.subs|
    ensures (r.Sub? ==> r.idx < |st.cnt|) && LeftCounts(st.tabs, Closed(st, r).cnt, J.c0, J.R, hi, level - 1, lo)
  {
    hide LeftCounts, Children, Parents, Unique, Lo;
    LevelBounds(st.tabs, r);
    Monotone(level, 512 * At(st.tabs, r).num, 512 * At(st.tabs, r).num + |Row(st.tabs, r)|);
    LeftClose(st.tabs, st.cnt, Closed(st, r).cnt, J.c0, r, J.R, hi);
  }

  lemma CloseRange(t: Tabs, J: Job, r: Ref, lo: int, hi: int)
    requires Sized(t) && Has(t, r) && lo == RefLo(t, r) && hi == RefHi(t, r) && Meets(J.R, lo, hi)
    ensures r.Sub? ==> Meets(J.R, PlaceLo(t.place[r.idx]), PlaceHi(t.place[r.idx]))
  {
  }

  // A table that is open has not been uncounted.
  lemma OpenCount(st: State, J: Job, r: Ref, level: int, lo: int, hi: int)
    requires Sized(st.tabs) && Has(st.tabs, r) && level == At(st.tabs, r).level && lo == RefLo(st.tabs, r)
    requires LeftCounts(st.tabs, st.cnt, J.c0, J.R, hi, level, lo)
    ensures r.Sub? ==> r.idx < |st.cnt| == |J.c0| && st.cnt[r.idx] == J.c0[r.idx]
  {
    LevelBounds(st.tabs, r);
    Monotone(level, 512 * At(st.tabs, r).num, 512 * At(st.tabs, r).num + 512);
  }

  lemma CloseBooks(st: State, J: Job, r: Ref)
    requires Has(st.tabs, r) && |st.cnt| == |st.tabs.subs| && Residue(st, J, Base) && Untouched(st, J) && st.dynamic
    requires r.Sub? ==> r.idx < |st.cnt| == |J.c0| && st.cnt[r.idx] == J.c0[r.idx]
    requires r.Sub? ==> Meets(J.R, PlaceLo(st.tabs.place[r.idx]), PlaceHi(st.tabs.place[r.idx]))
    ensures Residue(Closed(st, r), J, r) && Untouched(Closed(st, r), J)
    ensures Booked(st, Base) ==> Booked(Closed(st, r), r)
  {
    hide Stays, Lo;
    if r.Sub? {
      assert J.home[r.idx] == st.tabs.place[r.idx];
    }
  }
}

/**
 A translation context: the list of regions and the translation tables built
 from it, through initialisation, additions and removals.
 */
module Context {
  import opened Folding
  import opened Tables
  import opened Mapping
  import opened Counts
  import opened TableState
  import opened MapLoop
  import opened UnmapState
  import opened UnmapLoop
  import opened Regions
  import opened Denotation
  import opened Accounting
  import opened TableNeeds
  import opened PoolOrder
  import opened TableShortage
  import opened Walk
  import BreakBeforeMake

  // The tables describe T, which is what the list denotes, and their counts
  // fit the list.
  ghost predicate Good(st: State, T: Trans, L: seq<Region>) {
    forall k {:trigger Look(k)} :: Look(k) ==>
      && Ready(st, T, Base) && Denotes(T, L)
      && (st.dynamic ==> Accounted(st.tabs, st.cnt, L))
  }

  // No removal can put the pool out of order.
  ghost predicate Steady(st: State, L: seq<Region>) {
    forall k {:trigger Look(k)} :: Look(k) ==> (st.dynamic ==> Backed(st.tabs, st.cnt, L))
  }

  ghost predicate ExactCounts(st: State, L: seq<Region>) {
    forall k {:trigger Look(k)} :: Look(k) ==> (st.dynamic ==> Exact(st.tabs, st.cnt, L))
  }

  lemma ExactSteady(st: State, L: seq<Region>)
    requires ExactCounts(st, L)
    ensures Steady(st, L)
  {
    assert Look(0);
    if st.dynamic {
      ExactBacked(st.tabs, st.cnt, L);
    }
  }

  // Attributes and translation right after mapping, before any later change.
  ghost predicate AsMapped(T: Trans) {
    forall k {:trigger Look(k)} :: Look(k) ==> Pristine(T)
  }

  // ---- initialisation ------------------------------------------------------

  lemma InitStart(st: State)
    requires Blank(st)
    ensures InitState(st, imap[], [])
  {
    BlankReady(st);
    assert Positions(st.tabs) == {};
  }

  // Exactly the tables the list needs are linked.
  ghost predicate Compiled(st: State, L: seq<Region>) {
    forall k {:trigger Look(k)} :: Look(k) ==> Positions(st.tabs) == TablesOf(L, st.tabs.baseLevel)
  }

  ghost predicate InitState(st: State, T: Trans, L: seq<Region>) {
    Good(st, T, L) && ExactCounts(st, L) && AsMapped(T) && Compiled(st, L)
  }

  lemma InitPre(st: State, T: Trans, L: seq<Region>, lim: Limits, dyn: bool, k: int)
    requires 0 <= k < |L| && InitState(st, T, L[..k]) && WellFormed(L, lim, dyn)
    requires RefHi(st.tabs, Base) == lim.vaMax + 1
    ensures RegionPre(st, T, StartCounts(st), L[k], Base) && RefLo(st.tabs, Base) == 0
  {
    assert Look(0);
    PrefixApart(L, lim, dyn, k);
    CompatibleNext(T, L[..k], L[k]);
    TopPre(st, T, L[k]);
  }

  lemma InitNext(st: State, st': State, T: Trans, L: seq<Region>, lim: Limits, dyn: bool, k: int, end: int, to: int)
    requires 0 <= k < |L| && InitState(st, T, L[..k]) && WellFormed(L, lim, dyn)
    requires RefHi(st.tabs, Base) == lim.vaMax + 1
    requires st'.dynamic == st.dynamic
    requires RegionPost(st.tabs, st', T, StartCounts(st), L[k], st.tabs.baseLevel, 0, RefHi(st.tabs, Base), end, to)
    ensures end == L[k].EndVa() - 1 ==> InitState(st', Upto(T, L[k], L[k].EndVa()), L[..k + 1])
    ensures end == L[k].EndVa() - 1 <==> |TablesOf(L[..k + 1], st.tabs.baseLevel)| <= |st.tabs.subs|
  {
    hide RegionPost, Upto, TablesOf, Sized, Compiled, ExactCounts, Pristine, Denotes, Clean, Agree, Booked, Grown,
      Compatible, Apart, Accounted, PosOf, Unique, Parents, Children, Needs;
    assert Good(st, T, L[..k]) && ExactCounts(st, L[..k]) && Compiled(st, L[..k]);
    assert Ready(st, T, Base) && Denotes(T, L[..k]) && Pristine(T) && Aligned4K(L[k]) by { assert Look(0); }
    PrefixApart(L, lim, dyn, k);
    CompatibleNext(T, L[..k], L[k]);
    TopMapped(st, st', T, L[k], end, to);
    assert L[..k + 1] == L[..k] + [L[k]];
    NextTables(st, L[..k], L[k], L[..k + 1]);
    SizesPositive(L[..k], lim);
    if end == L[k].EndVa() - 1 {
      InitGrown(st, st', T, L[..k], L[k], L[..k + 1]);
    } else {
      Overrun(st, st', T, L[..k], L[k], end, to);
    }
  }

  // The tables of a list with one region more.
  lemma NextTables(st: State, L: seq<Region>, R: Region, L': seq<Region>)
    requires Compiled(st, L) && L' == L + [R]
    ensures TablesOf(L', st.tabs.baseLevel) == TablesAfter(Positions(st.tabs), L, R, st.tabs.baseLevel)
    ensures Suffice(st.tabs, L, R) <==> |TablesOf(L', st.tabs.baseLevel)| <= |st.tabs.subs|
  {
    assert Look(0);
    assert L'[..|L'| - 1] == L;
  }

  lemma InitGrown(st: State, st': State, T: Trans, L: seq<Region>, R: Region, L': seq<Region>)
    requires InitState(st, T, L) && Grown(st, st', T, R) && L' == L + [R] && Compatible(T, R) && 0 < R.size
    requires Sized(st.tabs) && R.EndVa() <= RefHi(st.tabs, Base) && forall q :: q in L ==> 0 < q.size
    ensures InitState(st', Upto(T, R, R.EndVa()), L') && Suffice(st.tabs, L, R)
  {
    assert Look(0);
    MapsNext(T, L, R);
    AppendAdds(L, R);
    GrownNeeds(st, st', T, L, R);
    NextTables(st, L, R, L');
    if st.dynamic {
      GrownAccounted(st, st', T, R, L, L');
    }
  }

  // A mapping that succeeded linked exactly the tables needed.
  lemma GrownNeeds(st: State, st': State, T: Trans, L: seq<Region>, R: Region)
    requires Grown(st, st', T, R) && Denotes(T, L) && Compatible(T, R) && 0 < R.size
    requires Sized(st.tabs) && R.EndVa() <= RefHi(st.tabs, Base)
    ensures Positions(st'.tabs) == TablesAfter(Positions(st.tabs), L, R, st.tabs.baseLevel)
    ensures Suffice(st.tabs, L, R)
  {
    assert RefHi(st'.tabs, Base) == RefHi(st.tabs, Base);
    AllNeeded(st.tabs, st'.tabs, T, L, R);
  }

  // One that failed needed more tables than there are.
  lemma Overrun(st: State, st': State, T: Trans, L: seq<Region>, R: Region, end: int, to: int)
    requires Ready(st, T, Base) && Denotes(T, L) && Aligned4K(R) && R.EndVa() <= RefHi(st.tabs, Base)
    requires RegionPost(st.tabs, st', T, StartCounts(st), R, st.tabs.baseLevel, 0, RefHi(st.tabs, Base), end, to)
    requires end == to
    ensures !Suffice(st.tabs, L, R)
  {
    assert Extends(st.tabs, st'.tabs, T, R) by { assert Look(0); }
    assert Mapped(st', T, StartCounts(st), R, 0, RefHi(st.tabs, Base), st.tabs.baseLevel - 1, end, to) by {
      assert Look(0);
    }
    var r, i :| StuckAt(st'.tabs, R, r, i) && EntryLo(st'.tabs, r, i) == to;
    TooFew(st.tabs, st'.tabs, T, L, R, r, i);
  }

  // ---- additions and removals ----------------------------------------------

  // The list L' is L with R, which no region of L overlaps, at index p.
  ghost predicate Joined(L: seq<Region>, L': seq<Region>, p: nat, R: Region, lim: Limits) {
    forall k {:trigger Look(k)} :: Look(k) ==>
      && p < |L'| && L'[p] == R && L == Delete(L', p) && Alone(L', p)
      && Listable(R, lim) && IsDynamic(R) && forall q :: q in L ==> 0 < q.size
  }

  lemma InsertJoins(L: seq<Region>, R: Region, lim: Limits)
    requires WellFormed(Insert(L, R), lim, true) && IsDynamic(R) && WellFormed(L, lim, true)
    ensures Joined(L, Insert(L, R), PlaceOf(L, R), R, lim)
  {
    var p := PlaceOf(L, R);
    DeleteInsert(L, R);
    RemovableRegion(Insert(L, R), lim, p);
    SizesPositive(L, lim);
  }

  lemma SizesPositive(L: seq<Region>, lim: Limits)
    requires forall i :: 0 <= i < |L| ==> Listable(L[i], lim)
    ensures forall q :: q in L ==> 0 < q.size
  {
    forall q | q in L
      ensures 0 < q.size
    {
      var i :| 0 <= i < |L| && L[i] == q;
      assert Listable(L[i], lim);
    }
  }

  // T' maps the addresses of R, which T does not map, by R, and all others as T.
  ghost predicate Gains(T: Trans, T': Trans, R: Region) {
    forall va ::
      && (va in T' <==> va in T || R.Contains(va))
      && (R.Contains(va) ==> va !in T && T'[va].r == R && T'[va].attr == R.attr)
      && (va in T ==> T'[va] == T[va])
  }

  // T' maps all addresses but those of R as T.
  ghost predicate Loses(T: Trans, T': Trans, R: Region) {
    forall va ::
      (va in T' <==> va in T && !R.Contains(va)) && (va in T' ==> T'[va] == T[va])
  }

  lemma AddedGains(T: Trans, L: seq<Region>, L': seq<Region>, p: nat, R: Region)
    requires Denotes(T, L) && p < |L'| && L'[p] == R && L == Delete(L', p) && Alone(L', p)
    ensures Gains(T, Upto(T, R, R.EndVa()), R)
  {
    forall va | R.Contains(va)
      ensures va !in T
    {
      NotElsewhere(L', p, va);
      assert First(L, va).Some? <==> va in T;
    }
  }

  // R has been added to what the list and the tables describe; exactly the
  // tables it needed were linked, counts are as exact and as harmless as before,
  // and R can be removed again.
  ghost predicate AddSuccess(st: State, st': State, T: Trans, T': Trans, L: seq<Region>, L': seq<Region>, R: Region) {
    forall k {:trigger Look(k)} :: Look(k) ==>
      && T' == Upto(T, R, R.EndVa()) && Gains(T, T', R) && Good(st', T', L')
      && Positions(st'.tabs) == TablesAfter(Positions(st.tabs), L, R, st.tabs.baseLevel)
      && (Steady(st, L) <==> Steady(st', L')) && !Unseating(st', L', L)
      && (ExactCounts(st, L) ==> ExactCounts(st', L')) && (AsMapped(T) ==> AsMapped(T'))
  }

  // R could not be mapped, from state st on: the tables describe T as before, no
  // invalidation is outstanding, and the pool is in order unless a table was
  // orphaned; then a free table still links it.  Counts that were harmless stay so
  // exactly if the addition does not burden the pool.
  ghost predicate AddFailure(st: State, st': State, T: Trans, L: seq<Region>, R: Region) {
    forall k {:trigger Look(k)} :: Look(k) ==>
      && Tree(st'.tabs) && Agree(st'.tabs, T) && BreakBeforeMake.Settled(st'.trace)
      && (Good(st', T, L) <==> !Orphaning(st.tabs, L, R))
      && (Stale(st') <==> Orphaning(st.tabs, L, R))
      && (Steady(st, L) ==> (Good(st', T, L) && Steady(st', L) <==> !Burdening(st, L, R)))
  }

  lemma AddPre(st: State, T: Trans, L: seq<Region>, L': seq<Region>, p: nat, R: Region, lim: Limits)
    requires Good(st, T, L) && Joined(L, L', p, R, lim) && RefHi(st.tabs, Base) == lim.vaMax + 1
    ensures RegionPre(st, T, StartCounts(st), R, Base) && RefLo(st.tabs, Base) == 0
  {
    assert Look(0);
    ApartAlone(L', p);
    CompatibleNext(T, L, R);
    TopPre(st, T, R);
  }

  lemma AddDone(st: State, st': State, T: Trans, L: seq<Region>, L': seq<Region>, p: nat, R: Region, lim: Limits,
      end: int, to: int)
    requires Good(st, T, L) && Joined(L, L', p, R, lim) && RefHi(st.tabs, Base) == lim.vaMax + 1
    requires st.dynamic && st'.dynamic
    requires RegionPost(st.tabs, st', T, StartCounts(st), R, st.tabs.baseLevel, 0, RefHi(st.tabs, Base), end, to)
    requires end == R.EndVa() - 1
    ensures AddSuccess(st, st', T, Upto(T, R, R.EndVa()), L, L', R) && Suffice(st.tabs, L, R)
  {
    assert Look(0);
    ApartAlone(L', p);
    CompatibleNext(T, L, R);
    TopMapped(st, st', T, R, end, to);
    GrownNeeds(st, st', T, L, R);
    MapsAlone(T, L', p);
    AddedGains(T, L, L', p, R);
    InsertAdds(L, L', p);
    GrownAccounted(st, st', T, R, L, L');
    AddSteady(st, st', T, L, L', p, R);
  }

  lemma AddSteady(st: State, st': State, T: Trans, L: seq<Region>, L': seq<Region>, p: nat, R: Region)
    requires Good(st, T, L) && Grown(st, st', T, R) && Adds(L, L', R) && (forall q :: q in L ==> 0 < q.size)
    requires p < |L'| && L'[p] == R && L == Delete(L', p) && IsDynamic(R) && st.dynamic
    ensures Steady(st, L) <==> Steady(st', L')
    ensures !Unseating(st', L', L)
  {
    assert Look(0);
    StaticsDeleted(L', p);
    GrownBacked(st, st', T, R, L, L');
    AddedSeats(st, st', T, R, L, L');
  }

  lemma AddFailed(st: State, st': State, T: Trans, L: seq<Region>, L': seq<Region>, p: nat, R: Region, lim: Limits,
      end: int, to: int)
    requires Good(st, T, L) && Joined(L, L', p, R, lim) && RefHi(st.tabs, Base) == lim.vaMax + 1
    requires st.dynamic && st'.dynamic
    requires RegionPost(st.tabs, st', T, StartCounts(st), R, st.tabs.baseLevel, 0, RefHi(st.tabs, Base), end, to)
    requires end != R.EndVa() - 1
    ensures Failed(st, st', T, R, end) && Ready(st, T, Base) && Accounted(st.tabs, st.cnt, L) && Denotes(T, L)
    ensures Compatible(T, R) && 0 < R.size && R.EndVa() <= RefHi(st'.tabs, Base) && !Suffice(st.tabs, L, R)
  {
    hide Ready, Accounted, Needs;
    assert Look(0);
    ApartAlone(L', p);
    CompatibleNext(T, L, R);
    TopFailed(st, st', T, R, end, to);
    Overrun(st, st', T, L, R, end, to);
  }

  // Nothing of R was mapped.
  lemma AddUnstarted(st: State, st': State, T: Trans, L: seq<Region>, L': seq<Region>, p: nat, R: Region, lim: Limits,
      end: int, to: int)
    requires Good(st, T, L) && Joined(L, L', p, R, lim) && RefHi(st.tabs, Base) == lim.vaMax + 1
    requires st.dynamic && st'.dynamic
    requires RegionPost(st.tabs, st', T, StartCounts(st), R, st.tabs.baseLevel, 0, RefHi(st.tabs, Base), end, to)
    requires end != R.EndVa() - 1 && end <= R.baseVa
    ensures AddFailure(st, st', T, L, R) && !Suffice(st.tabs, L, R)
  {
    AddFailed(st, st', T, L, L', p, R, lim, end, to);
    assert forall q :: q in L ==> 0 < q.size by { assert Look(0); }
    FailedEarly(st, st', T, R, end, L);
    NoneBefore(st, st', T, R, end, L);
    assert Good(st', T, L) by { assert Look(0); }
    if Stale(st') {
      StaleUnready(st', T);
    }
    if Steady(st, L) {
      EarlySteady(st, st', T, R, end, L);
    }
  }

  lemma EarlySteady(st: State, st': State, T: Trans, R: Region, f: int, L: seq<Region>)
    requires Failed(st, st', T, R, f) && Denotes(T, L) && (forall q :: q in L ==> 0 < q.size) && f <= R.baseVa
    requires Tree(st.tabs) && Accounted(st.tabs, st.cnt, L) && Steady(st, L)
    ensures Steady(st', L)
  {
    assert Look(0);
    EarlyBacked(st, st', T, R, f, L);
  }

  // The job of the rollback knows whether it leaves the pool in order.
  ghost function UndoJob(st: State, T: Trans, R: Region, f: int, L: seq<Region>): Job {
    var J := RollbackJob(st, T, R, f, L, true);
    J.(tidy := |st.cnt| == |st.tabs.subs| && Sized(st.tabs) && Nested(st.tabs, J))
  }

  // Part of R was mapped: the unmapper can take it back.
  lemma UndoPre(st: State, st': State, T: Trans, L: seq<Region>, L': seq<Region>, p: nat, R: Region, lim: Limits,
      end: int, to: int)
    requires Good(st, T, L) && Joined(L, L', p, R, lim) && RefHi(st.tabs, Base) == lim.vaMax + 1
    requires st.dynamic && st'.dynamic
    requires RegionPost(st.tabs, st', T, StartCounts(st), R, st.tabs.baseLevel, 0, RefHi(st.tabs, Base), end, to)
    requires end != R.EndVa() - 1 && R.baseVa < end
    ensures DrainPre(st', UndoJob(st', T, R, end, L), Base) && Sized(st'.tabs) && Has(st'.tabs, Base)
    ensures RefLo(st'.tabs, Base) == 0
    ensures st'.tabs.baseLevel == st.tabs.baseLevel && RefHi(st'.tabs, Base) == RefHi(st.tabs, Base) && end < R.EndVa()
  {
    assert Look(0);
    AddFailed(st, st', T, L, L', p, R, lim, end, to);
    ApartAlone(L', p);
    AloneList(L', p);
    UndoReady(st, st', T, L, R, end);
  }

  lemma UndoReady(st: State, st': State, T: Trans, L: seq<Region>, R: Region, f: int)
    requires Failed(st, st', T, R, f) && Ready(st, T, Base) && Accounted(st.tabs, st.cnt, L) && Denotes(T, L)
    requires (forall q :: q in L ==> 0 < q.size) && R.baseVa < f && Aligned4K(R) && Apart(L, R)
    requires forall q :: q in L ==> Disjoint(R.baseVa, R.EndVa(), q.baseVa, q.EndVa())
    requires R.EndVa() <= RefHi(st.tabs, Base)
    ensures DrainPre(st', UndoJob(st', T, R, f, L), Base) && RefLo(st'.tabs, Base) == 0
    ensures st'.tabs.baseLevel == st.tabs.baseLevel && RefHi(st'.tabs, Base) == RefHi(st.tabs, Base)
  {
    hide Stuck;
    assert RefHi(st'.tabs, Base) == RefHi(st.tabs, Base);
    var J := UndoJob(st', T, R, f, L);
    RollbackOwners(st', T, R, f, L, J.tidy);
    RollbackEnough(st, st', T, R, f, L, J.tidy);
    TopDrainPre(st', J, L);
  }

  // The translation is restored in every case; the rest of the invariant is
  // restored exactly if the addition left no orphan.
  lemma UndoDone(st: State, st': State, st'': State, T: Trans, L: seq<Region>, L': seq<Region>, p: nat, R: Region,
      lim: Limits, end: int, to: int)
    requires Good(st, T, L) && Joined(L, L', p, R, lim) && RefHi(st.tabs, Base) == lim.vaMax + 1
    requires st.dynamic && st'.dynamic
    requires RegionPost(st.tabs, st', T, StartCounts(st), R, st.tabs.baseLevel, 0, RefHi(st.tabs, Base), end, to)
    requires end != R.EndVa() - 1 && R.baseVa < end && end < R.EndVa()
    requires RefHi(st'.tabs, Base) == RefHi(st.tabs, Base) && Sized(st'.tabs) && st'.tabs.baseLevel == st.tabs.baseLevel
    requires DrainPost(st'.tabs, st'', UndoJob(st', T, R, end, L), Base, st'.tabs.baseLevel, 0, RefHi(st'.tabs, Base))
    ensures AddFailure(st, st'', T, L, R) && !Suffice(st.tabs, L, R)
  {
    hide DrainPost, Sized, Good, RegionPost, Orphans, Accounted, Failed, Compatible, Denotes, Agree, Orphaning, Stale,
      Alone, Apart, Clean, Booked, Upto, Unique, Parents, Children, PosOf, Needs, Burdening, Steady;
    AddFailed(st, st', T, L, L', p, R, lim, end, to);
    assert Undone(st, st', st'', T, L, R, end) by {
      assert Look(0);
      ApartAlone(L', p);
      AloneList(L', p);
    }
    assert forall q :: q in L ==> 0 < q.size by { assert Look(0); }
    UndoneOrder(st, st', st'', T, L, R, end);
    if Steady(st, L) {
      UndoneSteady(st, st', st'', T, L, R, end);
    }
  }

  // An addition stopped at `f` has been taken back.
  ghost predicate Undone(st: State, st': State, st'': State, T: Trans, L: seq<Region>, R: Region, f: int) {
    forall k {:trigger Look(k)} :: Look(k) ==>
      && Failed(st, st', T, R, f) && Ready(st, T, Base) && Accounted(st.tabs, st.cnt, L) && Denotes(T, L)
      && (forall q :: q in L ==> 0 < q.size) && R.baseVa < f && Aligned4K(R) && Apart(L, R)
      && (forall q :: q in L ==> Disjoint(R.baseVa, R.EndVa(), q.baseVa, q.EndVa()))
      && Sized(st'.tabs) && f <= RefHi(st'.tabs, Base) && st'.tabs.baseLevel == st.tabs.baseLevel
      && Compatible(T, R) && 0 < R.size && R.EndVa() <= RefHi(st'.tabs, Base)
      && DrainPost(st'.tabs, st'', UndoJob(st', T, R, f, L), Base, st'.tabs.baseLevel, 0, RefHi(st'.tabs, Base))
  }

  // What the rollback leaves.
  lemma UndoneOutcome(st: State, st': State, st'': State, T: Trans, L: seq<Region>, R: Region, f: int)
    requires Undone(st, st', st'', T, L, R, f)
    ensures Tree(st''.tabs) && Agree(st''.tabs, T) && BreakBeforeMake.Settled(st''.trace)
    ensures Accounted(st''.tabs, st''.cnt, L) && st''.dynamic && Unmapped(st'.tabs, st'', UndoJob(st', T, R, f, L))
    ensures Ready(st'', T, Base) <==> !Orphaning(st.tabs, L, R)
    ensures Stale(st'') <==> Orphaning(st.tabs, L, R)
  {
    hide DrainPost, Nested, Agree, Unmapped, Stale, Orphaning, Accounted, Denotes, Extends, Compatible, Apart, Upto,
      Without, Orphans, Clean, Booked, Children, Parents, Unique;
    assert Look(0);
    var J := UndoJob(st', T, R, f, L);
    RollbackOwners(st', T, R, f, L, J.tidy);
    RollbackNested(st, st', T, R, f, L, true);
    SameNested(st'.tabs, RollbackJob(st', T, R, f, L, true), J);
    OrphansExactly(st, st', T, R, f, L);
    ReadyIfNested(st'.tabs, st'', J);
  }

  lemma SameNested(t: Tabs, J: Job, J': Job)
    requires |J.c0| == |t.subs| && Sized(t) && J' == J.(tidy := J'.tidy)
    ensures Nested(t, J) <==> Nested(t, J')
  {
    assert forall s :: s in t.place ==> Due(t, J', s) == Due(t, J, s);
  }

  lemma UndoneOrder(st: State, st': State, st'': State, T: Trans, L: seq<Region>, R: Region, f: int)
    requires Undone(st, st', st'', T, L, R, f)
    ensures Tree(st''.tabs) && Agree(st''.tabs, T) && BreakBeforeMake.Settled(st''.trace)
    ensures Good(st'', T, L) <==> !Orphaning(st.tabs, L, R)
    ensures Stale(st'') <==> Orphaning(st.tabs, L, R)
  {
    hide Orphaning, Stale, Ready, Accounted, Denotes, DrainPost, Unmapped;
    assert Look(0);
    UndoneOutcome(st, st', st'', T, L, R, f);
  }

  lemma UndoneSteady(st: State, st': State, st'': State, T: Trans, L: seq<Region>, R: Region, f: int)
    requires Undone(st, st', st'', T, L, R, f) && Steady(st, L)
    ensures Good(st'', T, L) && Steady(st'', L) <==> !Burdening(st, L, R)
  {
    hide Orphaning, Stale, Accounted, Denotes, DrainPost, Unmapped, Burdening, Backed, Agree, Clean, Booked,
      Compatible, Children, Parents, Unique, Extends, Apart, Stuck, Exhausted;
    assert Look(0);
    UndoneOutcome(st, st', st'', T, L, R, f);
    if Orphaning(st.tabs, L, R) {
      OrphaningBurdens(st, st', T, R, f, L);
    } else {
      BurdensExactly(st, st', st'', T, R, f, L, UndoJob(st', T, R, f, L));
    }
  }

  lemma AloneList(L': seq<Region>, p: nat)
    requires p < |L'| && Alone(L', p)
    ensures forall q :: q in Delete(L', p) ==> Disjoint(L'[p].baseVa, L'[p].EndVa(), q.baseVa, q.EndVa())
  {
    forall q | q in Delete(L', p)
      ensures Disjoint(L'[p].baseVa, L'[p].EndVa(), q.baseVa, q.EndVa())
    {
      var i :| 0 <= i < |Delete(L', p)| && Delete(L', p)[i] == q;
      assert q == L'[if i < p then i else i + 1];
    }
  }

  // ---- removal -------------------------------------------------------------

  // The job of a removal knows whether it leaves the pool in order.
  ghost function RemoveJob(st: State, T: Trans, L: seq<Region>, p: nat): Job
    requires p < |L|
  {
    var J := Job(T, L[p], L[p], Delete(L, p), st.tabs.place, st.tabs.subs, st.cnt, true);
    J.(tidy := |st.cnt| == |st.tabs.subs| && Sized(st.tabs) && Nested(st.tabs, J))
  }

  lemma RemovePre(st: State, T: Trans, L: seq<Region>, p: nat, lim: Limits)
    requires Good(st, T, L) && p < |L| && Alone(L, p) && Listable(L[p], lim) && st.dynamic
    requires RefHi(st.tabs, Base) == lim.vaMax + 1
    ensures DrainPre(st, RemoveJob(st, T, L, p), Base) && Has(st.tabs, Base) && RefLo(st.tabs, Base) == 0
    ensures Sized(st.tabs)
  {
    assert Look(0);
    var J := RemoveJob(st, T, L, p);
    OwnedAlone(T, L, p);
    InsertAdds(Delete(L, p), L, p);
    JobAccounts(st, J, L);
    SameNested(st.tabs, J.(tidy := true), J);
    TopDrainPre(st, J, L);
  }

  // L[p] is gone from what the list and the tables describe.  The pool is in order
  // unless a table was unseated; then a free table still links it.  Counts are as
  // harmless as before, exact ones stay exact, and harmless ones unseat nothing.
  ghost predicate RemoveSuccess(st: State, st': State, T: Trans, T': Trans, L: seq<Region>, p: nat)
    requires p < |L|
  {
    forall k {:trigger Look(k)} :: Look(k) ==>
      && T' == Without(T, L[p], L[p].EndVa()) && Loses(T, T', L[p]) && Denotes(T', Delete(L, p)) && st'.dynamic
      && Tree(st'.tabs) && Agree(st'.tabs, T') && BreakBeforeMake.Settled(st'.trace)
      && (Good(st', T', Delete(L, p)) <==> !Unseating(st, L, Delete(L, p)))
      && (Stale(st') <==> Unseating(st, L, Delete(L, p)))
      && (Steady(st, L) ==> Good(st', T', Delete(L, p)))
      && (Good(st', T', Delete(L, p)) ==> (Steady(st', Delete(L, p)) <==> Steady(st, L)))
      && (ExactCounts(st, L) ==> ExactCounts(st', Delete(L, p))) && (AsMapped(T) ==> AsMapped(T'))
  }

  // A dynamic region of a well-formed list can be removed.
  lemma RemovableRegion(L: seq<Region>, lim: Limits, p: nat)
    requires WellFormed(L, lim, true) && p < |L| && IsDynamic(L[p])
    ensures Alone(L, p) && Listable(L[p], lim)
  {
    DynamicAlone(L, lim, p);
  }

  lemma RemoveDone(st: State, st': State, T: Trans, L: seq<Region>, p: nat, lim: Limits)
    requires Good(st, T, L) && p < |L| && Alone(L, p) && Listable(L[p], lim) && IsDynamic(L[p]) && st.dynamic
    requires RefHi(st.tabs, Base) == lim.vaMax + 1 && Sized(st.tabs)
    requires DrainPost(st.tabs, st', RemoveJob(st, T, L, p), Base, st.tabs.baseLevel, 0, RefHi(st.tabs, Base))
    ensures RemoveSuccess(st, st', T, Without(T, L[p], L[p].EndVa()), L, p)
  {
    hide Tree, Ready, Sized, DrainPost, Alone, Agree, Accounted, Denotes, Steady, ExactCounts, Unmapped, Unseating,
      Stale, Without;
    assert Look(0);
    RemoveOutcome(st, st', T, L, p);
    UnmapsAlone(T, L, p);
    WithoutLoses(T, L[p]);
    RemoveSteady(st, st', T, L, p);
    RemoveExact(st, st', T, L, p);
  }

  lemma WithoutLoses(T: Trans, R: Region)
    ensures Loses(T, Without(T, R, R.EndVa()), R)
  {
  }

  // What the removal leaves.
  lemma RemoveOutcome(st: State, st': State, T: Trans, L: seq<Region>, p: nat)
    requires Good(st, T, L) && p < |L| && L[p].EndVa() <= RefHi(st.tabs, Base) && st.dynamic
    requires DrainPost(st.tabs, st', RemoveJob(st, T, L, p), Base, st.tabs.baseLevel, 0, RefHi(st.tabs, Base))
    ensures var T' := Without(T, L[p], L[p].EndVa());
      && Unmapped(st.tabs, st', RemoveJob(st, T, L, p)) && Accounted(st'.tabs, st'.cnt, Delete(L, p)) && st'.dynamic
      && Tree(st'.tabs) && Agree(st'.tabs, T') && BreakBeforeMake.Settled(st'.trace)
      && (Ready(st', T', Base) <==> !Unseating(st, L, Delete(L, p))) && (Stale(st') <==> Unseating(st, L, Delete(L, p)))
    ensures Adds(Delete(L, p), L, L[p])
    ensures (Nested(st.tabs, RemoveJob(st, T, L, p)) <==> !Unseating(st, L, Delete(L, p)))
  {
    hide DrainPost, Nested, Agree, Unmapped, Stale, Unseating, Without, Clean, Booked, Children, Parents, Unique;
    assert Look(0);
    var J := RemoveJob(st, T, L, p);
    InsertAdds(Delete(L, p), L, p);
    SameNested(st.tabs, J.(tidy := true), J);
    RemovalNested(st, J, L);
    ReadyIfNested(st.tabs, st', J);
  }

  lemma RemoveSteady(st: State, st': State, T: Trans, L: seq<Region>, p: nat)
    requires Good(st, T, L) && p < |L| && L[p].EndVa() <= RefHi(st.tabs, Base) && IsDynamic(L[p]) && st.dynamic
    requires DrainPost(st.tabs, st', RemoveJob(st, T, L, p), Base, st.tabs.baseLevel, 0, RefHi(st.tabs, Base))
    ensures Steady(st, L) ==> !Unseating(st, L, Delete(L, p))
    ensures !Unseating(st, L, Delete(L, p)) ==> (Steady(st', Delete(L, p)) <==> Steady(st, L))
  {
    hide DrainPost, Nested, Unmapped, Stale, Unseating, Without, Agree, Clean, Booked, Children, Parents, Unique,
      Loose;
    assert Look(0);
    var J := RemoveJob(st, T, L, p);
    RemoveOutcome(st, st', T, L, p);
    StaticsDeleted(L, p);
    if Backed(st.tabs, st.cnt, L) {
      BackedNests(st.tabs, J, L);
      DrainedBacked(st.tabs, st', J, L);
    } else if !Unseating(st, L, Delete(L, p)) {
      var k, s :| Loose(st.tabs, st.cnt, L, k, s);
      LooseStays(st.tabs, st', J, L, k, s, Without(T, L[p], L[p].EndVa()));
    }
  }

  lemma StaticsDeleted(L: seq<Region>, p: nat)
    requires p < |L| && IsDynamic(L[p])
    ensures StaticsIn(L, Delete(L, p)) && forall q :: q in Delete(L, p) ==> q in L
  {
    forall q | q in L && !IsDynamic(q)
      ensures q in Delete(L, p)
    {
      var i :| 0 <= i < |L| && L[i] == q;
      assert Delete(L, p)[if i < p then i else i - 1] == q;
    }
  }

  lemma RemoveExact(st: State, st': State, T: Trans, L: seq<Region>, p: nat)
    requires Good(st, T, L) && p < |L| && L[p].EndVa() <= RefHi(st.tabs, Base) && st.dynamic
    requires DrainPost(st.tabs, st', RemoveJob(st, T, L, p), Base, st.tabs.baseLevel, 0, RefHi(st.tabs, Base))
    ensures ExactCounts(st, L) ==> ExactCounts(st', Delete(L, p))
  {
    hide Tree, Ready, DrainPost, Agree, Shrinks, Accounted, Denotes, Meeting, Nested, Residue, Enough, Untouched,
      Adds;
    if ExactCounts(st, L) {
      assert Look(0);
      var J := RemoveJob(st, T, L, p);
      InsertAdds(Delete(L, p), L, p);
      forall s | s in st.tabs.place && s < |J.c0|
        ensures J.c0[s] == Due(st.tabs, J, s)
      {
        assert Meeting(L, PlaceLo(st.tabs.place[s]), PlaceHi(st.tabs.place[s])) == Due(st.tabs, J, s);
      }
      DrainedAccounted(st.tabs, st', J);
    }
  }

  // ---- the pool ------------------------------------------------------------

  // Every linked table is linked by exactly one entry and counts at least the
  // listed regions that meet it, exactly those if the counts are exact.  Every
  // other table counts nothing and is empty.
  lemma PoolInOrder(st: State, T: Trans, L: seq<Region>, s: nat)
    requires Good(st, T, L) && st.dynamic && s < |st.tabs.subs|
    ensures |st.cnt| == |st.tabs.subs| && |st.tabs.subs[s]| == 512
    ensures s in st.tabs.place ==>
      exists r, i :: Links(st.tabs, r, i, s) && forall r', i' :: Links(st.tabs, r', i', s) ==> r' == r && i' == i
    ensures s in st.tabs.place ==> 0 < st.cnt[s] && Users(st.tabs, L, s) <= st.cnt[s]
    ensures s in st.tabs.place && ExactCounts(st, L) ==> st.cnt[s] == Users(st.tabs, L, s)
    ensures s !in st.tabs.place ==> st.cnt[s] == 0 && forall i :: 0 <= i < 512 ==> st.tabs.subs[s][i] == Invalid
    ensures s !in st.tabs.place ==> forall r, i :: !Links(st.tabs, r, i, s)
  {
    assert Look(0);
    if s in st.tabs.place {
      OneLink(st.tabs, s);
    } else {
      forall r, i | Slot(st.tabs, r, i)
        ensures !Links(st.tabs, r, i, s)
      {
        assert ChildOk(st.tabs, r, i);
      }
    }
  }

  // ---- lookup --------------------------------------------------------------

  lemma MappedBelow(T: Trans, L: seq<Region>, lim: Limits, dyn: bool)
    requires Denotes(T, L) && WellFormed(L, lim, dyn)
    ensures forall va :: va in T ==> 0 <= va < lim.vaMax + 1
  {
    forall va | va in T
      ensures 0 <= va < lim.vaMax + 1
    {
      assert First(L, va).Some?;
      FirstIsFirst(L, va);
      var i :| LeastAt(L, va, i) && L[i] == First(L, va).value;
      assert Listable(L[i], lim);
    }
  }

  lemma LeafMeaning(t: Tabs, h: Hit, a: int, T: Trans)
    requires HitOk(t, h, a, T)
    ensures var d := Row(t, h.r)[h.i];
      && (d.Block? || d.Page?) && a in T
      && d.pa + (a - EntryLo(t, h.r, h.i)) == T[a].r.basePa + (a - T[a].r.baseVa) && d.attr == T[a].attr
  {
  }

  // The walk finds a leaf exactly for the addresses, taken modulo the span of
  // the tables, that some listed region contains.  The leaf has the output
  // address and, unless changed since, the attributes of the first such region.
  lemma Lookup(st: State, T: Trans, L: seq<Region>, lim: Limits, dyn: bool, va: int)
    requires Good(st, T, L) && WellFormed(L, lim, dyn) && Tree(st.tabs) && 0 <= va
    requires RefHi(st.tabs, Base) == lim.vaMax + 1
    ensures 0 < Span(st.tabs)
    ensures Find(st.tabs, va).Some? <==> exists k :: 0 <= k < |L| && L[k].Contains(va % Span(st.tabs))
    ensures Find(st.tabs, va).Some? ==> HitOk(st.tabs, Find(st.tabs, va).value, va % Span(st.tabs), T)
    ensures Find(st.tabs, va).Some? ==>
      var h, a := Find(st.tabs, va).value, va % Span(st.tabs);
      var d := Row(st.tabs, h.r)[h.i];
      && (d.Block? || d.Page?) && First(L, a).Some? && a in T
      && d.pa + (a - EntryLo(st.tabs, h.r, h.i)) == First(L, a).value.basePa + (a - First(L, a).value.baseVa)
      && d.attr == T[a].attr && (AsMapped(T) ==> d.attr == First(L, a).value.attr)
  {
    hide First, WellFormed;
    assert Look(0);
    MappedBelow(T, L, lim, dyn);
    FindAgrees(st.tabs, va, T);
    var a := va % Span(st.tabs);
    FirstIsFirst(L, a);
    assert a in T <==> First(L, a).Some?;
    if Find(st.tabs, va).Some? {
      LeafMeaning(st.tabs, Find(st.tabs, va).value, a, T);
    }
  }
}

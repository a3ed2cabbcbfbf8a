/**
 Runs of a whole context, from its construction on: one that adds a region and
 removes it again, and one that changes attributes past the span of the tables.
 */
module ContextRuns {
  import opened Folding
  import opened Geometry
  import opened Tables
  import opened Mapping
  import opened Counts
  import opened TableState
  import opened Walk
  import opened Regions
  import opened Denotation
  import opened TableNeeds
  import opened PoolOrder
  import opened TableShortage
  import opened Context
  import opened ContextAttributes
  import opened XlatContext
  import opened Descriptor

  // The largest address space: its base table is of level 0.
  function Wide(): Limits { Limits(0xffff_ffff_ffff, 0xffff_ffff_ffff) }

  // ---- adding and removing -------------------------------------------------

  // In a well-formed list, base and size identify a region.
  lemma SameRegion(L: seq<Region>, lim: Limits, dyn: bool, i: nat, j: nat)
    requires WellFormed(L, lim, dyn) && i < |L| && j < |L| && L[i].baseVa == L[j].baseVa && L[i].size == L[j].size
    ensures i == j
  {
    assert i < j ==> Before(L[i], L[j]);
    assert j < i ==> Before(L[j], L[i]);
  }

  // Unmapping a region that overlaps no other takes back its mapping.
  lemma MappedAndBack(st: State, T: Trans, L: seq<Region>, L': seq<Region>, p: nat, R: Region, lim: Limits)
    requires Good(st, T, L) && Joined(L, L', p, R, lim)
    ensures Without(Upto(T, R, R.EndVa()), R, R.EndVa()) == T
  {
    assert Denotes(T, L) && p < |L'| && L'[p] == R && L == Delete(L', p) && Alone(L', p) by { assert Look(0); }
    forall va | R.Contains(va)
      ensures va !in T
    {
      NotElsewhere(L', p, va);
      assert First(L, va).Some? <==> va in T;
    }
  }

  // Removing a region that was just added restores list and translation.
  method AddAndRemove(ctx: XlatCtx, mm: Region) returns (added: Code, removed: Code)
    requires ctx.Valid() && ctx.initialized && ctx.list.dyn && Fields64(mm) && 0 < mm.size
    modifies ctx`T, ctx.list, ctx.list.mmap, ctx.mem, ctx.mem.baseTable, ctx.mem.pool, ctx.mem.regionCount
    ensures added == Success <==>
      |old(ctx.list.L)| < ctx.list.mmapNum && old(ctx.list.Joins(Dynamic(mm))) && old(ctx.Servable(Dynamic(mm)))
    ensures added == Success ==>
      removed == Success && ctx.Valid() && ctx.list.L == old(ctx.list.L) && ctx.T == old(ctx.T)
    ensures ctx.Shaped()
    ensures added != Success ==> removed == EINVAL && ctx.list.L == old(ctx.list.L) && ctx.T == old(ctx.T)
  {
    hide WellFormed, Good, AddFailure, AddSuccess, RemoveSuccess, Unseating, Steady, Orphaning, Burdening, Suffice,
      Upto, Without, Listable, Highest, PlaceOf;
    ghost var st0, T0, L0, R := ctx.mem.st, ctx.T, ctx.list.L, Dynamic(mm);
    ctx.OrderedList();
    added := ctx.AddDynamic(mm);
    if added != Success {
      return added, EINVAL;
    }
    ctx.OrderedList();
    InsertJoins(L0, R, ctx.list.lim);
    Added(st0, ctx.mem.st, T0, ctx.T, L0, ctx.list.L, R);
    MappedAndBack(st0, T0, L0, ctx.list.L, PlaceOf(L0, R), R, ctx.list.lim);
    ghost var st1, L1, T1, p := ctx.mem.st, ctx.list.L, ctx.T, PlaceOf(L0, R);
    DeleteInsert(L0, R);
    assert p < |L1| && L1[p].baseVa == mm.baseVa && L1[p].size == mm.size;
    ghost var q;
    removed, q := ctx.RemoveDynamic(mm.baseVa, mm.size);
    SameRegion(L1, ctx.list.lim, true, p, q);
    Removed(st1, ctx.mem.st, T1, ctx.T, L1, p);
  }

  lemma Added(st: State, st': State, T: Trans, T': Trans, L: seq<Region>, L': seq<Region>, R: Region)
    requires AddSuccess(st, st', T, T', L, L', R)
    ensures T' == Upto(T, R, R.EndVa()) && Good(st', T', L') && !Unseating(st', L', L)
  {
    assert Look(0);
  }

  lemma Removed(st: State, st': State, T: Trans, T': Trans, L: seq<Region>, p: nat)
    requires p < |L| && RemoveSuccess(st, st', T, T', L, p)
    ensures T' == Without(T, L[p], L[p].EndVa())
  {
    assert Look(0);
  }

  // A new context with a static region, if it is acceptable, before initialisation.
  method Defined(tablesNum: nat, mm: Region) returns (ctx: XlatCtx)
    requires Fields64(mm) && 0 < mm.size
    ensures fresh(ctx) && fresh(ctx.list) && fresh(ctx.list.mmap)
    ensures fresh(ctx.mem) && fresh(ctx.mem.baseTable) && fresh(ctx.mem.pool) && fresh(ctx.mem.regionCount)
    ensures ctx.Valid() && !ctx.initialized && ctx.list.dyn && ctx.list.lim == Wide()
    ensures ctx.mem.pool.Length0 == tablesNum
    ensures ctx.list.L == if Listable(mm, Wide()) then [mm] else []
  {
    hide BlockSize, Good;
    Values(0, 512);
    FirstListed(mm);
    ctx := new XlatCtx(8, tablesNum, Wide(), 512, true, EL3_REGIME);
    var ret := ctx.AddStatic(mm);
  }

  lemma FirstListed(mm: Region)
    ensures Insert([], mm) == [mm]
  {
  }

  // A context from its construction on: a static region, initialisation, and a
  // dynamic region that comes and goes.
  method FullRun(tablesNum: nat, mm: Region, dynamic: Region) returns (ctx: XlatCtx, ok: bool, added: Code)
    requires Fields64(mm) && 0 < mm.size && Fields64(dynamic) && 0 < dynamic.size
    ensures fresh(ctx) && ctx.Shaped() && ctx.list.lim == Wide() && ctx.mem.pool.Length0 == tablesNum
    ensures ctx.list.L == if Listable(mm, Wide()) then [mm] else []
    ensures ok <==> |TablesOf(ctx.list.L, ctx.mem.baseLevel)| <= tablesNum
    ensures ok && added == Success ==> ctx.Valid() && ctx.initialized
  {
    hide Good, TablesOf, Lo, BlockSize, Listable, AsMapped, ExactCounts, Compiled, WellFormed, Highest;
    ctx := Defined(tablesNum, mm);
    ok := ctx.Init();
    added := EINVAL;
    if ok {
      var removed;
      added, removed := AddAndRemove(ctx, dynamic);
    }
  }

  lemma NothingMapped(st: State, T: Trans, L: seq<Region>)
    requires Good(st, T, L) && Compiled(st, L) && L == []
    ensures Positions(st.tabs) == {} && T == imap[]
  {
    assert Positions(st.tabs) == {} && Denotes(T, []) by { assert Look(0); }
    forall va
      ensures va !in T
    {
      assert First([], va).Some? <==> va in T;
    }
  }

  // A context without regions, initialised.
  method Empty(tablesNum: nat) returns (ctx: XlatCtx)
    ensures fresh(ctx) && fresh(ctx.list) && fresh(ctx.list.mmap)
    ensures fresh(ctx.mem) && fresh(ctx.mem.baseTable) && fresh(ctx.mem.pool) && fresh(ctx.mem.regionCount)
    ensures ctx.Valid() && ctx.initialized && ctx.list.dyn && ctx.list.lim == Wide() && ctx.list.mmapNum == 8
    ensures ctx.list.L == [] && ctx.T == imap[] && Positions(ctx.mem.st.tabs) == {}
    ensures ExactCounts(ctx.mem.st, []) && ctx.PoolSteady()
    ensures ctx.mem.st.tabs.baseLevel == 0 && |ctx.mem.st.tabs.subs| == tablesNum
  {
    hide BlockSize, Good, Compiled, AsMapped, ExactCounts, PosOf;
    Values(0, 512);
    ctx := new XlatCtx(8, tablesNum, Wide(), 512, true, EL3_REGIME);
    assert TablesOf([], 0) == {};
    var ok := ctx.Init();
    NothingMapped(ctx.mem.st, ctx.T, ctx.list.L);
  }

  // ---- past the span -------------------------------------------------------

  // The first page, and the same one as a dynamic region.
  function LowPage(): Region { Region(0, 0, 0x1000, MT_CODE, 0x1000) }

  // The tables around it.
  function FirstTables(): set<Pos> { {Pos(1, 0), Pos(2, 0), Pos(3, 0)} }

  lemma NeedsFirst(n: int)
    ensures Entered({}, [], Dynamic(LowPage()), 0, 1, n) <==> n == 0
    ensures Entered({}, [], Dynamic(LowPage()), 0, 2, n) <==> n == 0
    ensures Entered({}, [], Dynamic(LowPage()), 0, 3, n) <==> n == 0
  {
    var R := Dynamic(LowPage());
    PosRange(1, n);
    PosRange(2, n);
    PosRange(3, n);
    Values(0, n);
    Values(0, n + 1);
    Values(1, n);
    Values(1, n + 1);
    Values(2, n);
    Values(2, n + 1);
    PosRange(1, 0);
    PosRange(2, 0);
    Values(0, 0);
    Values(0, 1);
    Values(1, 0);
    Values(1, 1);
    assert !LeafFor(R, 0, 0) && !LeafFor(R, 1, 0) && !LeafFor(R, 2, 0) by { assert Look(0); }
  }

  lemma NeedsFirstTables()
    ensures Needs({}, [], Dynamic(LowPage()), 0) == FirstTables()
  {
    forall p: Pos
      ensures p in Needs({}, [], Dynamic(LowPage()), 0) <==> p in FirstTables()
    {
      NeedsMeans({}, [], Dynamic(LowPage()), 0, p);
      NeedsFirst(p.num);
    }
  }

  lemma PageAcceptable()
    ensures Fields64(LowPage()) && 0 < LowPage().size && Listable(Dynamic(LowPage()), Wide())
  {
  }

  // A context with the first page, and nothing else, mapped.
  method OnePage(tablesNum: nat) returns (ctx: XlatCtx)
    requires 3 <= tablesNum
    ensures fresh(ctx) && fresh(ctx.list) && fresh(ctx.list.mmap)
    ensures fresh(ctx.mem) && fresh(ctx.mem.baseTable) && fresh(ctx.mem.pool) && fresh(ctx.mem.regionCount)
    ensures ctx.Valid() && ctx.initialized && ctx.list.dyn && ctx.list.lim == Wide() && ctx.list.mmapNum == 8
    ensures ctx.list.L == [Dynamic(LowPage())] && Positions(ctx.mem.st.tabs) == FirstTables()
    ensures ExactCounts(ctx.mem.st, ctx.list.L) && ctx.PoolSteady()
    ensures ctx.mem.st.tabs.baseLevel == 0 && |ctx.mem.st.tabs.subs| == tablesNum
  {
    hide Good, Compiled, AsMapped, ExactCounts, PosOf, Needs, Steady, Listable, Orphaning, Burdening, BlockSize, Lo,
      Fields64, Suffice, LowPage, Dynamic, AddSuccess, AddFailure, Insert, FirstTables, Wide;
    ctx := Empty(tablesNum);
    ghost var st0, T0 := ctx.mem.st, ctx.T;
    PageAcceptable();
    FirstListed(Dynamic(LowPage()));
    PageServable(st0.tabs);
    EnoughKeeps(st0, [], Dynamic(LowPage()));
    var ret := ctx.AddDynamic(LowPage());
    PageTables(st0, ctx.mem.st, T0, ctx.T);
  }

  lemma PageServable(t: Tabs)
    requires Positions(t) == {} && t.baseLevel == 0 && 3 <= |t.subs|
    ensures Suffice(t, [], Dynamic(LowPage()))
  {
    NeedsFirstTables();
    assert {} + FirstTables() == FirstTables() && |FirstTables()| == 3;
  }

  lemma PageTables(st: State, st': State, T: Trans, T': Trans)
    requires AddSuccess(st, st', T, T', [], [Dynamic(LowPage())], Dynamic(LowPage()))
    requires Positions(st.tabs) == {} && st.tabs.baseLevel == 0 && ExactCounts(st, [])
    ensures Positions(st'.tabs) == FirstTables() && ExactCounts(st', [Dynamic(LowPage())])
  {
    assert Look(0);
    NeedsFirstTables();
  }

  // Its page can be changed.
  lemma PageChangeable(st: State, T: Trans)
    requires Good(st, T, [Dynamic(LowPage())]) && Tree(st.tabs) && RefHi(st.tabs, Base) == 0x1_0000_0000_0000
    ensures Changeable(st.tabs, 0, 0x1000, MT_EXECUTE_NEVER)
  {
    hide Good, Children, Parents, Unique, Agree, SlotOk, WalkFrom, Lo, BlockSize, AsMapped;
    var L := [Dynamic(LowPage())];
    PageAcceptable();
    Lookup(st, T, L, Wide(), true, 0);
    assert L[0].Contains(0 % Span(st.tabs));
    PageLeaf(st, T, Find(st.tabs, 0).value);
  }

  // It is mapped by a page descriptor.
  lemma PageLeaf(st: State, T: Trans, h: Hit)
    requires Good(st, T, [Dynamic(LowPage())]) && Sized(st.tabs) && HitOk(st.tabs, h, 0, T)
    ensures h.level == 3
  {
    assert Denotes(T, [Dynamic(LowPage())]) by { assert Look(0); }
    var lo, hi, level, n := EntryLo(st.tabs, h.r, h.i), EntryHi(st.tabs, h.r, h.i), At(st.tabs, h.r).level,
      Num(st.tabs, h.r, h.i);
    LevelBounds(st.tabs, h.r);
    Values(level, n);
    Values(level, n + 1);
    if level < 3 {
      assert lo <= 0 < 0x1000 <= hi - 1;
      assert hi - 1 in T;
      FirstIsFirst([Dynamic(LowPage())], hi - 1);
    }
  }

  // A request for the page one span further is accepted, and its invalidations are
  // not those of the page.
  method PastEnd() returns (ctx: XlatCtx, ret: Code)
    ensures fresh(ctx) && ctx.initialized && ret == Success && ctx.list.L == [Dynamic(LowPage())]
    ensures ctx.Shaped() && !ctx.Valid() && Good(ctx.mem.st.(trace := []), ctx.T, ctx.list.L)
  {
    hide Good, ExactCounts, Changeable, Lo, BlockSize, Tree, PagesReadBack, ChangedRun, Steady;
    ctx := OnePage(3);
    WideSpan(ctx.mem.st.tabs);
    ctx.BaseRange();
    GoodTree(ctx.mem.st, ctx.T, ctx.list.L);
    PageChangeable(ctx.mem.st, ctx.T);
    PastSpan(ctx.mem.st.tabs, 0, 0x1000, MT_EXECUTE_NEVER);
    ret := ctx.ChangeMemAttributes(0x1_0000_0000_0000, 0x1000, MT_EXECUTE_NEVER);
  }

  lemma GoodTree(st: State, T: Trans, L: seq<Region>)
    requires Good(st, T, L)
    ensures Tree(st.tabs)
  {
    assert Look(0);
  }

  lemma WideSpan(t: Tabs)
    requires t.baseLevel == 0
    ensures Span(t) == 0x1_0000_0000_0000
  {
    Values(0, 0);
  }
}

/**
 Runs that run out of tables and do not leave them in order: one at once, and one
 when a region is removed later.
 */
module ShortageRuns {
  import opened Folding
  import opened Geometry
  import opened Tables
  import opened Mapping
  import opened TableState
  import opened Regions
  import opened Denotation
  import opened TableNeeds
  import opened PoolOrder
  import opened TableShortage
  import opened Context
  import opened RemovalRuns
  import opened XlatContext
  import opened ContextRuns

  const GIB: int := 0x4000_0000

  // 1 GiB and one page, from 1 GiB on.
  function GibAndPage(): Region { Region(GIB, GIB, 0x4000_1000, 0x2, GIB) }

  // It needs a level 1 table, the level 2 table of its last page, and the level 3
  // table of that page; its first GiB takes a block.
  function PageTables(): set<Pos> { {Pos(1, 0), Pos(2, 2), Pos(3, 1024)} }

  // Nothing is linked, or the level 1 table is and at most those of the first page,
  // and no region of L is where that region will be.
  ghost predicate Low(P: set<Pos>, L: seq<Region>) {
    && P <= FirstTables() && (Pos(1, 0) in P || L == [])
    && forall va :: GIB <= va ==> First(L, va).None?
  }

  lemma NeedsThree(P: set<Pos>, L: seq<Region>, n: int, R: Region)
    requires R == Dynamic(GibAndPage()) && Low(P, L)
    ensures Entered(P, L, R, 0, 1, n) <==> n == 0
    ensures Entered(P, L, R, 0, 2, n) <==> n == 2
    ensures Entered(P, L, R, 0, 3, n) <==> n == 1024
  {
    Level1(P, L, n, R);
    Level2(P, L, n, R);
    Level3(P, L, n, R);
  }

  lemma Level1(P: set<Pos>, L: seq<Region>, n: int, R: Region)
    requires R == Dynamic(GibAndPage()) && Low(P, L)
    ensures Entered(P, L, R, 0, 1, n) <==> n == 0
  {
    PosRange(1, n);
    Values(0, n);
    Values(0, n + 1);
    Values(0, 0);
    Values(0, 512);
    assert !LeafFor(R, 0, n) by { assert Look(0); }
  }

  lemma Level2(P: set<Pos>, L: seq<Region>, n: int, R: Region)
    requires R == Dynamic(GibAndPage()) && Low(P, L)
    ensures Entered(P, L, R, 0, 2, n) <==> n == 2
  {
    PosRange(2, n);
    Values(1, n);
    Values(1, n + 1);
    Level1(P, L, n / 512, R);
    assert n == 1 ==> LeafFor(R, 1, n) by { FitsMeans(R.PaOf(Lo(1, n)), 1, R.granularity); }
    assert n == 2 ==> !LeafFor(R, 1, n) by { assert Look(0); }
  }

  lemma Level3(P: set<Pos>, L: seq<Region>, n: int, R: Region)
    requires R == Dynamic(GibAndPage()) && Low(P, L)
    ensures Entered(P, L, R, 0, 3, n) <==> n == 1024
  {
    PosRange(3, n);
    Values(2, n);
    Values(2, n + 1);
    Level2(P, L, n / 512, R);
    assert n == 1024 ==> !LeafFor(R, 2, n) by { assert Look(0); }
  }

  lemma NeedsPageTables(P: set<Pos>, L: seq<Region>, R: Region)
    requires R == Dynamic(GibAndPage()) && Low(P, L)
    ensures Needs(P, L, R, 0) == PageTables() - P
  {
    forall p: Pos
      ensures p in Needs(P, L, R, 0) <==> p in PageTables() - P
    {
      NeedsMeans(P, L, R, 0, p);
      NeedsThree(P, L, p.num, R);
    }
  }

  // With a table too few, the last one is lacking.
  lemma LacksLast(t: Tabs, L: seq<Region>, R: Region)
    requires R == Dynamic(GibAndPage()) && Low(Positions(t), L) && t.baseLevel == 0
    requires |Positions(t)| + |{Pos(1, 0), Pos(2, 2)} - Positions(t)| == |t.subs|
    ensures FirstLacking(t, L, R, Pos(3, 1024)) && Straddles(R, Pos(3, 1024)) && !Suffice(t, L, R)
  {
    hide Needs, PosOf, Suffice, First, LeafFor;
    NeedsPageTables(Positions(t), L, R);
    PosRange(1, 0);
    PosRange(2, 2);
    PosRange(3, 1024);
    Values(0, 0);
    Values(1, 2);
    Values(2, 1024);
    assert Preceding(PageTables() - Positions(t), Pos(3, 1024)) == {Pos(1, 0), Pos(2, 2)} - Positions(t);
    LackingShort(t, L, R, Pos(3, 1024));
  }

  lemma Acceptable()
    ensures Fields64(GibAndPage()) && 0 < GibAndPage().size && Listable(Dynamic(GibAndPage()), Wide())
    ensures Together(Dynamic(GibAndPage()), Dynamic(LowPage()), true)
  {
  }

  // ---- at once -------------------------------------------------------------

  lemma OrphansLevel2(st: State, R: Region)
    requires R == Dynamic(GibAndPage()) && Positions(st.tabs) == {} && st.tabs.baseLevel == 0 && |st.tabs.subs| == 2
    ensures Orphaning(st.tabs, [], R) && !Suffice(st.tabs, [], R)
  {
    LacksLast(st.tabs, [], R);
    assert Around(Pos(3, 1024)) == 0;
  }

  // With a pool of two tables the addition fails, and the tables are no longer in
  // order, although list and translation are as before.
  method RunOut() returns (ctx: XlatCtx, ret: Code)
    ensures fresh(ctx) && ret == ENOMEM && ctx.list.L == [] && ctx.Shaped() && !ctx.Valid()
    ensures Tree(ctx.mem.st.tabs) && Agree(ctx.mem.st.tabs, imap[]) && Stale(ctx.mem.st)
  {
    hide Stale, Good, AddFailure, AddSuccess, Tree, Agree, PosOf, Suffice, Lo, BlockSize, Orphaning, FirstLacking,
      Listable, Fields64, GibAndPage, Wide, Insert, Steady, Burdening, Dynamic, Together, BadArguments, OutOfRange,
      ExactCounts, Positions;
    Acceptable();
    ctx := Empty(2);
    ghost var st0 := ctx.mem.st;
    OrphansLevel2(st0, Dynamic(GibAndPage()));
    ret := ctx.AddDynamic(GibAndPage());
    Leftover(st0, ctx.mem.st, Dynamic(GibAndPage()));
  }

  lemma Leftover(st: State, st': State, R: Region)
    requires AddFailure(st, st', imap[], [], R) && Orphaning(st.tabs, [], R)
    ensures Tree(st'.tabs) && Agree(st'.tabs, imap[]) && Stale(st')
  {
    assert Look(0);
  }

  // ---- at a removal --------------------------------------------------------

  lemma LowOne()
    ensures Low(FirstTables(), [Dynamic(LowPage())])
  {
    forall va | GIB <= va
      ensures First([Dynamic(LowPage())], va).None?
    {
      FirstIsFirst([Dynamic(LowPage())], va);
    }
  }

  lemma LacksOne(t: Tabs, R: Region)
    requires R == Dynamic(GibAndPage()) && Positions(t) == FirstTables() && t.baseLevel == 0 && |t.subs| == 4
    ensures FirstLacking(t, [Dynamic(LowPage())], R, Pos(3, 1024)) && Straddles(R, Pos(3, 1024))
    ensures !Suffice(t, [Dynamic(LowPage())], R)
  {
    hide Low, FirstLacking, Suffice, Straddles, LowPage, GibAndPage, Dynamic, PosOf;
    LowOne();
    assert {Pos(1, 0), Pos(2, 2)} - FirstTables() == {Pos(2, 2)};
    LacksLast(t, [Dynamic(LowPage())], R);
  }

  lemma BurdensLevel1(st: State, R: Region)
    requires R == Dynamic(GibAndPage()) && Positions(st.tabs) == FirstTables() && st.tabs.baseLevel == 0
    requires |st.tabs.subs| == 4
    requires ExactCounts(st, [Dynamic(LowPage())]) && st.dynamic
    ensures Burdening(st, [Dynamic(LowPage())], R) && !Orphaning(st.tabs, [Dynamic(LowPage())], R)
    ensures !Suffice(st.tabs, [Dynamic(LowPage())], R)
  {
    hide FirstLacking, Suffice, Straddles, LowPage, GibAndPage, PosOf, StaticMeets, Lo, Overcounted;
    var L := [Dynamic(LowPage())];
    LacksOne(st.tabs, R);
    assert Around(Pos(3, 1024)) == 0;
    OnlyDynamic(L, TableLo(1, 0), TableHi(1, 0));
    ExactOvercounts(st, L);
    if m :| FirstLacking(st.tabs, L, R, m) && Straddles(R, m) && Pos(1, Around(m)) !in Positions(st.tabs) {
      LackingUnique(st.tabs, L, R, m, Pos(3, 1024));
    }
  }

  lemma OnlyDynamic(L: seq<Region>, lo: int, hi: int)
    requires forall q :: q in L ==> IsDynamic(q)
    ensures !StaticMeets(L, lo, hi)
  {
  }

  lemma ExactOvercounts(st: State, L: seq<Region>)
    requires ExactCounts(st, L) && st.dynamic
    ensures !Overcounted(st, L, 1, 0)
  {
    assert Look(0);
  }

  // With a pool of four tables and the first page mapped, the addition fails too.
  // The pool stays in order, as the page uses the level 1 table.
  method Burden() returns (ctx: XlatCtx, ret: Code)
    ensures fresh(ctx) && fresh(ctx.list) && fresh(ctx.list.mmap)
    ensures fresh(ctx.mem) && fresh(ctx.mem.baseTable) && fresh(ctx.mem.pool) && fresh(ctx.mem.regionCount)
    ensures ret == ENOMEM && ctx.list.L == [Dynamic(LowPage())] && ctx.list.dyn && ctx.initialized
    ensures ctx.Valid() && !ctx.PoolSteady()
  {
    hide Good, AddFailure, AddSuccess, PosOf, Suffice, Lo, BlockSize, Orphaning, FirstLacking, Listable, Fields64,
      GibAndPage, Insert, Steady, Burdening, ExactCounts, Together, LowPage;
    Acceptable();
    ctx := OnePage(4);
    BurdensLevel1(ctx.mem.st, Dynamic(GibAndPage()));
    ret := ctx.AddDynamic(GibAndPage());
  }

  // Removing the page then leaves a free table that links another one.
  method BurdenTold() returns (ctx: XlatCtx, ret: Code)
    ensures fresh(ctx) && ret == Success && ctx.list.L == [] && ctx.Shaped() && !ctx.Valid() && Stale(ctx.mem.st)
  {
    hide Good, Steady, Stale, Unseating, RemoveSuccess;
    var full;
    ctx, full := Burden();
    ghost var c, p := Snapshot(ctx.mem.st, ctx.T, ctx.list.L), 0;
    assert ctx.list.L[0].baseVa == 0 && ctx.list.L[0].size == 0x1000;
    ret, p := ctx.RemoveDynamic(0, 0x1000);
    ghost var c' := Snapshot(ctx.mem.st, ctx.T, ctx.list.L);
    assert RemovesOne(c, c');
    assert RemovalRun([c, c']);
    SteadyRun([c, c']);
  }
}

/**
 The operations of a translation context on its list and tables in place.
 */
module XlatContext {
  import opened Folding
  import opened Geometry
  import opened Tables
  import opened Mapping
  import opened Counts
  import opened TableState
  import opened MapLoop
  import opened UnmapLoop
  import opened TableMemory
  import opened Regions
  import opened RegionList
  import opened Denotation
  import opened Accounting
  import opened TableNeeds
  import opened PoolOrder
  import opened TableShortage
  import opened Context
  import opened Walk
  import opened AttributeChange
  import opened ContextAttributes
  import opened Descriptor
  import opened VaAllocation

  class XlatCtx {
    const list: RegionArray
    const mem: Memory
    const regime: Regime
    var initialized: bool

    // The translation in force.
    ghost var T: Trans

    ghost predicate TablesShaped()
      reads this, mem, mem.baseTable, mem.pool, mem.regionCount
    {
      && mem.Stored() && mem.dynamic == list.dyn
      && 0 <= mem.baseLevel <= 3 && 1 <= mem.baseTable.Length <= 512
      && mem.baseLevel == BaseLevel(list.lim.vaMax + 1)
      && Lo(mem.baseLevel, mem.baseTable.Length) == list.lim.vaMax + 1
    }

    ghost predicate Shaped()
      reads this, list, list.mmap, mem, mem.baseTable, mem.pool, mem.regionCount
    {
      list.Valid() && TablesShaped()
    }

    ghost predicate Valid()
      reads this, list, list.mmap, mem, mem.baseTable, mem.pool, mem.regionCount
    {
      Shaped() && if initialized then Good(mem.st, T, list.L) else mem.st.next == 0
    }

    // No removal can put the pool out of order.
    ghost predicate PoolSteady()
      reads this, list, mem
    {
      initialized ==> Steady(mem.st, list.L)
    }

    // The static definition of a context.  The address space is a whole number
    // of base level blocks.
    constructor (capacity: int, tablesNum: int, limits: Limits, entries: int, dynamic: bool, xlatRegime: Regime)
      requires 1 <= capacity < 0xffff_ffff && 0 <= tablesNum && ValidLimits(limits) && 1 <= entries <= 512
      requires Lo(BaseLevel(limits.vaMax + 1), entries) == limits.vaMax + 1
      ensures Valid() && PoolSteady() && !initialized && list.L == [] && list.dyn == dynamic && list.lim == limits
      ensures list.mmapNum == capacity && mem.pool.Length0 == tablesNum && regime == xlatRegime
      ensures fresh(list) && fresh(list.mmap)
      ensures fresh(mem) && fresh(mem.baseTable) && fresh(mem.pool) && fresh(mem.regionCount)
    {
      list := new RegionArray(capacity, limits, dynamic);
      mem := new Memory(dynamic, BaseLevel(limits.vaMax + 1), entries, tablesNum);
      regime := xlatRegime;
      initialized := false;
      T := imap[];
    }

    lemma BaseRange()
      requires TablesShaped()
      ensures Has(mem.st.tabs, Base) && RefHi(mem.st.tabs, Base) == list.lim.vaMax + 1
      ensures At(mem.st.tabs, Base).level == mem.baseLevel
    {
    }

    lemma StoredList()
      requires Shaped()
      ensures list.Holds(list.L) && forall k :: 0 <= k < |list.L| ==> 0 < list.L[k].size
    {
      assert Look(0);
    }

    lemma ListKept()
      requires Shaped()
      ensures KeptList(list.L, list.lim, list.dyn)
    {
      assert Look(0);
    }

    lemma OrderedList()
      requires Shaped()
      ensures WellFormed(list.L, list.lim, list.dyn)
    {
      assert Look(0);
    }

    // Maps the listed region `k` into the base table.
    method InitRegion(k: int) returns (ok: bool)
      requires Shaped() && 0 <= k < |list.L| && InitState(mem.st, T, list.L[..k])
      modifies this`T, mem, mem.baseTable, mem.pool, mem.regionCount
      ensures TablesShaped()
      ensures ok ==> InitState(mem.st, T, list.L[..k + 1])
      ensures ok <==> |TablesOf(list.L[..k + 1], mem.baseLevel)| <= mem.pool.Length0
    {
      hide Upto, TablesOf, WellFormed, RegionPre, RegionPost, Lo, AsMapped, ExactCounts, Compiled, Good;
      ghost var st0 := mem.st;
      BaseRange();
      assert list.Holds(list.L) && WellFormed(list.L, list.lim, list.dyn) by { assert Look(0); }
      var mm := list.mmap[k];
      InitPre(st0, T, list.L, list.lim, list.dyn, k);
      var end;
      ghost var to;
      end, to := mem.MapRegion(mm, 0, Base, mem.baseLevel, T, StartCounts(st0), list.lim.vaMax + 1);
      InitNext(st0, mem.st, T, list.L, list.lim, list.dyn, k, end, to);
      ok := end == mm.EndVa() - 1;
      if ok {
        T := Upto(T, mm, mm.EndVa());
      }
    }

    // init_xlat_tables_ctx.  It does not return when the tables run out, which it
    // does exactly if the list needs more than there are.
    method Init() returns (ok: bool)
      requires Valid() && !initialized
      modifies this, mem, mem.baseTable, mem.pool, mem.regionCount
      ensures ok <==> |TablesOf(list.L, mem.baseLevel)| <= mem.pool.Length0
      ensures ok ==> Valid() && initialized && AsMapped(T) && Compiled(mem.st, list.L)
      ensures ok ==> ExactCounts(mem.st, list.L) && PoolSteady()
      ensures Shaped() && list.L == old(list.L)
    {
      hide TablesOf, ExactCounts, Compiled, AsMapped, Blank, Good, Lo, WellFormed, Steady;
      mem.Reset();
      T := imap[];
      InitStart(mem.st);
      assert list.L[..0] == [];
      StoredList();
      var k := 0;
      while list.mmap[k].size != 0
        invariant 0 <= k <= |list.L|
        invariant Shaped() && !initialized && InitState(mem.st, T, list.L[..k])
        decreases |list.L| - k
      {
        ok := InitRegion(k);
        if !ok {
          TooManyTables(k + 1);
          return;
        }
        k := k + 1;
      }
      assert list.L[..k] == list.L;
      Enough();
      ExactSteady(mem.st, list.L);
      initialized := true;
      return true;
    }

    // The tables of the first regions already are too many.
    lemma TooManyTables(k: nat)
      requires k <= |list.L| && |TablesOf(list.L[..k], mem.baseLevel)| > mem.pool.Length0
      ensures |TablesOf(list.L, mem.baseLevel)| > mem.pool.Length0
    {
      PrefixTables(list.L, k, mem.baseLevel);
      Smaller(TablesOf(list.L[..k], mem.baseLevel), TablesOf(list.L, mem.baseLevel));
    }

    // All tables of the list were linked, so there are enough.
    lemma Enough()
      requires TablesShaped() && InitState(mem.st, T, list.L)
      ensures |TablesOf(list.L, mem.baseLevel)| <= mem.pool.Length0
    {
      assert Look(0);
      PositionCount(mem.st.tabs);
    }

    // mmap_add_region_ctx: static regions join the list before initialisation.
    // A refusal is an assertion failure in the source.
    method AddStatic(mm: Region) returns (ret: Code)
      requires Valid() && !initialized && Fields64(mm)
      modifies list, list.mmap
      ensures Valid() && !initialized
      ensures mm.size == 0 ==> ret == Success && list.L == old(list.L)
      ensures 0 < mm.size ==> (ret == Success <==> |old(list.L)| < list.mmapNum && old(list.Joins(mm)))
      ensures 0 < mm.size && ret == Success ==> list.L == Insert(old(list.L), mm)
      ensures ret != Success ==> list.L == old(list.L)
    {
      ret := list.AddStatic(mm);
    }

    // ---- dynamic regions ---------------------------------------------------

    // There are tables for R, or it will be mapped at initialisation.
    ghost predicate Servable(R: Region)
      reads this, mem, list
    {
      initialized ==> Suffice(mem.st.tabs, list.L, R)
    }

    // An addition of R joins the list, but runs out of tables and orphans one.
    ghost predicate Orphaned(R: Region)
      reads this, mem, list
    {
      initialized && |list.L| < list.mmapNum && list.Joins(R) && Orphaning(mem.st.tabs, list.L, R)
    }

    // An addition of R joins the list, but runs out of tables and burdens the pool.
    ghost predicate Burdened(R: Region)
      reads this, mem, list
    {
      initialized && |list.L| < list.mmapNum && list.Joins(R) && Burdening(mem.st, list.L, R)
    }

    // Maps a region just inserted at `p`; if the tables run out, takes it off
    // the list and undoes what was mapped.
    method MapAdded(mm: Region, p: int, ghost L0: seq<Region>) returns (ret: Code)
      requires TablesShaped() && mem.dynamic && list.Pending(L0, mm, p) && 0 <= p
      requires Good(mem.st, T, L0) && Joined(L0, list.L, p, mm, list.lim)
      modifies this`T, list`L, list.mmap, mem, mem.baseTable, mem.pool, mem.regionCount
      ensures TablesShaped() && ret == if old(Suffice(mem.st.tabs, L0, mm)) then Success else ENOMEM
      ensures ret == Success ==> list.Pending(L0, mm, p) && list.L == old(list.L)
      ensures ret == Success ==> AddSuccess(old(mem.st), mem.st, old(T), T, L0, list.L, mm)
      ensures ret == ENOMEM ==> list.Valid() && list.L == L0 && T == old(T)
      ensures ret == ENOMEM ==> AddFailure(old(mem.st), mem.st, T, L0, mm)
    {
      hide AddFailure, Upto, Joined, AddSuccess, Good, WellFormed, Highest, PlaceOf, RegionPost, RegionPre, Lo, PosOf,
        Needs;
      ghost var st0, L1 := mem.st, list.L;
      BaseRange();
      AddPre(st0, T, L0, L1, p, mm, list.lim);
      var end;
      ghost var to;
      end, to := mem.MapRegion(mm, 0, Base, mem.baseLevel, T, StartCounts(st0), list.lim.vaMax + 1);
      if end == mm.EndVa() - 1 {
        AddDone(st0, mem.st, T, L0, L1, p, mm, list.lim, end, to);
        T := Upto(T, mm, mm.EndVa());
        return Success;
      }
      list.Abort(mm, p, L0);
      ret := ENOMEM;
      if mm.baseVa >= end {
        AddUnstarted(st0, mem.st, T, L0, L1, p, mm, list.lim, end, to);
      } else {
        Undo(mm, p, end, L0, L1, st0, to);
      }
    }

    // Unmaps the part of a region that was mapped when the tables ran out.
    method Undo(mm: Region, p: int, end: int, ghost L0: seq<Region>, ghost L1: seq<Region>, ghost st0: State,
        ghost to: int)
      requires TablesShaped() && mem.dynamic && 0 <= p && st0.dynamic
      requires Good(st0, T, L0) && Joined(L0, L1, p, mm, list.lim) && RefHi(st0.tabs, Base) == list.lim.vaMax + 1
      requires st0.tabs.baseLevel == mem.baseLevel
      requires RegionPost(st0.tabs, mem.st, T, StartCounts(st0), mm, mem.baseLevel, 0, RefHi(st0.tabs, Base), end, to)
      requires end != mm.EndVa() - 1 && mm.baseVa < end
      modifies mem, mem.baseTable, mem.pool, mem.regionCount
      ensures TablesShaped() && AddFailure(st0, mem.st, T, L0, mm) && !Suffice(st0.tabs, L0, mm)
    {
      ghost var st1 := mem.st;
      UndoPre(st0, st1, T, L0, L1, p, mm, list.lim, end, to);
      ghost var J := UndoJob(st1, T, mm, end, L0);
      var unmapMm := Rollback(mm, end);
      mem.UnmapRegion(unmapMm, 0, Base, mem.baseLevel, J);
      UndoDone(st0, st1, mem.st, T, L0, L1, p, mm, list.lim, end, to);
    }

    // mmap_add_dynamic_region_ctx.  The whole invariant is kept unless the region
    // was such that a table got orphaned, and a pool that no removal puts out of
    // order stays like that unless the region burdened it.
    method AddDynamic(mm0: Region) returns (ret: Code)
      requires Valid() && list.dyn && Fields64(mm0)
      modifies this`T, list, list.mmap, mem, mem.baseTable, mem.pool, mem.regionCount
      ensures mm0.size == 0 ==> ret == Success && list.L == old(list.L) && mem.st == old(mem.st) && T == old(T)
      ensures 0 < mm0.size ==> (ret == EINVAL <==> BadArguments(Dynamic(mm0)))
      ensures 0 < mm0.size ==> (ret == ERANGE <==> !BadArguments(Dynamic(mm0)) && OutOfRange(Dynamic(mm0), list.lim))
      // No room in the list, or not enough tables.
      ensures 0 < mm0.size ==> (ret == ENOMEM <==>
        && Listable(Dynamic(mm0), list.lim)
        && (|old(list.L)| == list.mmapNum || (old(list.Joins(Dynamic(mm0))) && !old(Servable(Dynamic(mm0))))))
      ensures 0 < mm0.size ==> (ret == EPERM <==>
        && Listable(Dynamic(mm0), list.lim)
        && |old(list.L)| < list.mmapNum && !old(list.Joins(Dynamic(mm0))))
      ensures 0 < mm0.size ==> (ret == Success <==>
        && |old(list.L)| < list.mmapNum && old(list.Joins(Dynamic(mm0))) && old(Servable(Dynamic(mm0))))
      // Added.
      ensures 0 < mm0.size && ret == Success ==> list.L == Insert(old(list.L), Dynamic(mm0))
      ensures 0 < mm0.size && ret == Success && initialized ==>
        AddSuccess(old(mem.st), mem.st, old(T), T, old(list.L), list.L, Dynamic(mm0))
      ensures 0 < mm0.size && ret == Success && initialized ==> Translates(T, mm0, regime)
      // Refused: nothing changes, but for tables linked in vain.
      ensures ret != Success ==> list.L == old(list.L) && T == old(T)
      ensures ret != Success ==> list.maxVa == old(list.maxVa) && list.maxPa == old(list.maxPa)
      ensures ret != Success && (ret != ENOMEM || |list.L| == list.mmapNum || !initialized) ==> mem.st == old(mem.st)
      ensures ret == ENOMEM && initialized && |list.L| < list.mmapNum ==>
        AddFailure(old(mem.st), mem.st, T, list.L, Dynamic(mm0))
      ensures Shaped() && (Valid() <==> !(0 < mm0.size && old(Orphaned(Dynamic(mm0)))))
      ensures old(PoolSteady()) ==> (Valid() && PoolSteady() <==> !(0 < mm0.size && old(Burdened(Dynamic(mm0)))))
    {
      hide AddFailure, AddSuccess, Good, Orphaning, Joined, Insert, Suffice, Listable, BadArguments, OutOfRange,
        PlaceOf, WellFormed, Highest, Lo, Steady, Burdening, Translates, Gains;
      if mm0.size == 0 {
        return Success;
      }
      var mm := Dynamic(mm0);
      ghost var L0 := list.L;
      list.WithinCapacity();
      var p;
      ret, p := list.Begin(mm);
      if ret != Success {
        return;
      }
      if initialized {
        JoinsList(mm, p, L0);
        ret := MapAdded(mm, p, L0);
        if ret != Success {
          FailureFacts(old(mem.st), mem.st, T, L0, mm);
          return;
        }
        SuccessGood(old(mem.st), mem.st, old(T), T, L0, list.L, mm);
        DynamicTranslates(old(T), T, mm0, regime);
        EnoughKeeps(old(mem.st), L0, mm);
      }
      list.Commit(mm, p, L0);
    }

    lemma JoinsList(mm: Region, p: int, L0: seq<Region>)
      requires list.Pending(L0, mm, p) && list.dyn && IsDynamic(mm) && 0 <= p
      ensures Joined(L0, list.L, p, mm, list.lim)
    {
      assert Look(0);
      InsertJoins(L0, mm, list.lim);
    }

    // ---- chosen addresses --------------------------------------------------

    // mmap_alloc_va_align_ctx: the loop over the levels.
    method AllocVaAlign(baseVa: int, basePa: int, size: int) returns (va: int)
      requires 0 <= mem.baseLevel <= 3
      ensures 0 < Grain(mem.baseLevel, basePa, size)
      ensures va == RoundUp(baseVa, Grain(mem.baseLevel, basePa, size))
    {
      GrainIsLargest(mem.baseLevel, basePa, size);
      var level := mem.baseLevel;
      while level <= 2
        invariant 0 <= level <= 3 && Grain(mem.baseLevel, basePa, size) == Grain(level, basePa, size)
        decreases 3 - level
      {
        BlockSizePositive(level);
        if basePa % BlockSize(level) == 0 && size % BlockSize(level) == 0 {
          return RoundUp(baseVa, BlockSize(level));
        }
        level := level + 1;
      }
      ByOne(baseVa);
      va := baseVa;
    }

    // mmap_add_region_alloc_va_ctx.  A refusal is an assertion failure in the
    // source.
    method AddStaticAllocVa(mm0: Region) returns (ret: Code, va: int)
      requires Valid() && !initialized && Fields64(mm0) && 0 < mm0.size && 0 <= mem.baseLevel <= 3
      modifies list, list.mmap
      ensures Valid() && !initialized && va == AllocatedVa(old(list.maxVa), mem.baseLevel, mm0.basePa, mm0.size)
      ensures IsLeast(va, old(list.maxVa), Grain(mem.baseLevel, mm0.basePa, mm0.size))
      ensures ret == Success <==>
        |old(list.L)| < list.mmapNum && Listable(mm0.(baseVa := va), list.lim) && PaFree(mm0, old(list.L))
      ensures ret == Success ==> list.L == Insert(old(list.L), mm0.(baseVa := va))
      ensures ret != Success ==> list.L == old(list.L)
    {
      hide PlaceOf, Good, WellFormed, Highest, Grain, RoundUp, BlockSize, Lo;
      list.MaximaBounded();
      ghost var L0, maxVa0, maxPa0 := list.L, list.maxVa, list.maxPa;
      va := AllocVaAlign(list.maxVa + 1, mm0.basePa, mm0.size);
      AllocatedBounds(maxVa0, mem.baseLevel, mm0.basePa, mm0.size);
      var mm := mm0.(baseVa := va);
      if Listable(mm, list.lim) {
        AllocatedApart(L0, maxVa0, maxPa0, list.lim, list.dyn, mm);
      }
      ret := AddStatic(mm);
    }

    // mmap_add_dynamic_region_alloc_va_ctx.  The region gets the least suitable
    // address above every listed one, so no listed address is in its way.
    method AddDynamicAllocVa(mm0: Region) returns (ret: Code, va: int)
      requires Valid() && list.dyn && Fields64(mm0) && 0 <= mem.baseLevel <= 3
      modifies this`T, list, list.mmap, mem, mem.baseTable, mem.pool, mem.regionCount
      ensures mm0.size == 0 ==> ret == Success && va == old(list.maxVa) + 1
      ensures mm0.size == 0 ==> list.L == old(list.L) && mem.st == old(mem.st) && T == old(T)
      ensures 0 < mm0.size ==> va == AllocatedVa(old(list.maxVa), mem.baseLevel, mm0.basePa, mm0.size)
      ensures 0 < mm0.size ==> IsLeast(va, old(list.maxVa), Grain(mem.baseLevel, mm0.basePa, mm0.size))
      ensures forall k :: 0 <= k < |old(list.L)| ==> old(list.L)[k].EndVa() <= va
      ensures 0 < mm0.size ==> (ret == Success <==>
        && Listable(Chosen(mm0, va), list.lim) && |old(list.L)| < list.mmapNum
        && PaFree(mm0, old(list.L)) && old(Servable(Chosen(mm0, va))))
      ensures 0 < mm0.size ==> (ret == ENOMEM <==>
        && Listable(Chosen(mm0, va), list.lim)
        && (|old(list.L)| == list.mmapNum || (PaFree(mm0, old(list.L)) && !old(Servable(Chosen(mm0, va))))))
      ensures 0 < mm0.size ==> (ret == EPERM <==>
        && Listable(Chosen(mm0, va), list.lim)
        && |old(list.L)| < list.mmapNum && !PaFree(mm0, old(list.L)))
      ensures 0 < mm0.size && ret == Success ==> list.L == Insert(old(list.L), Chosen(mm0, va))
      ensures 0 < mm0.size && ret == Success && initialized ==>
        AddSuccess(old(mem.st), mem.st, old(T), T, old(list.L), list.L, Chosen(mm0, va))
      ensures 0 < mm0.size && ret == Success && initialized ==> Translates(T, mm0.(baseVa := va), regime)
      ensures ret != Success ==> list.L == old(list.L) && T == old(T)
      ensures ret == ENOMEM && initialized && |list.L| < list.mmapNum ==>
        AddFailure(old(mem.st), mem.st, T, list.L, Chosen(mm0, va))
      ensures Shaped() && (Valid() <==> !(0 < mm0.size && old(Orphaned(Chosen(mm0, va)))))
      ensures old(PoolSteady()) ==> (Valid() && PoolSteady() <==> !(0 < mm0.size && old(Burdened(Chosen(mm0, va)))))
    {
      hide Good, Orphaning, Highest, AddFailure, Steady, Burdening, Translates;
      list.MaximaBounded();
      ghost var L0, maxVa0, maxPa0 := list.L, list.maxVa, list.maxPa;
      va := list.maxVa + 1;
      HighestBelow(L0, maxVa0, maxPa0);
      if mm0.size == 0 {
        return Success, va;
      }
      va := AllocVaAlign(va, mm0.basePa, mm0.size);
      AllocatedBounds(maxVa0, mem.baseLevel, mm0.basePa, mm0.size);
      var mm := mm0.(baseVa := va);
      JoinsAbove(Dynamic(mm), maxVa0, maxPa0);
      ret := AddDynamic(mm);
    }

    // A region above the highest address joins the list exactly if its output
    // addresses are free.
    lemma JoinsAbove(R: Region, maxVa: int, maxPa: int)
      requires Highest(list.L, maxVa, maxPa) && WellFormed(list.L, list.lim, list.dyn) && maxVa < R.baseVa
      ensures Listable(R, list.lim) ==> (list.Joins(R) <==> PaFree(R, list.L))
    {
      if Listable(R, list.lim) {
        AllocatedApart(list.L, maxVa, maxPa, list.lim, list.dyn, R);
      }
    }

    // ---- removal -----------------------------------------------------------

    // mmap_remove_dynamic_region_ctx.  The whole invariant is kept unless a table
    // was unseated, and as far as it is, the pool is as settled as before.
    method RemoveDynamic(baseVa: int, size: int) returns (ret: Code, ghost p: int)
      requires Valid() && list.dyn
      modifies this`T, list, list.mmap, mem, mem.baseTable, mem.pool, mem.regionCount
      ensures ret == EINVAL || ret == EPERM || ret == Success
      ensures ret == EINVAL <==> forall k :: 0 <= k < |old(list.L)| ==>
        old(list.L)[k].baseVa != baseVa || old(list.L)[k].size != size
      ensures ret != EINVAL ==> 0 <= p < |old(list.L)| && old(list.L)[p].baseVa == baseVa && old(list.L)[p].size == size
      ensures ret == EPERM ==> !IsDynamic(old(list.L)[p])
      ensures ret == Success ==> IsDynamic(old(list.L)[p])
      ensures ret != Success ==> list.L == old(list.L) && T == old(T) && mem.st == old(mem.st)
      ensures ret == Success ==> list.L == Delete(old(list.L), p)
      ensures ret == Success && initialized ==> RemoveSuccess(old(mem.st), mem.st, old(T), T, old(list.L), p)
      ensures Shaped() && (Valid() <==> !(ret == Success && initialized && Unseating(old(mem.st), old(list.L), list.L)))
      ensures old(PoolSteady()) ==> Valid()
      ensures Valid() ==> (PoolSteady() <==> old(PoolSteady()))
    {
      hide Good, WellFormed, Steady, Unseating;
      var q := list.FindRegion(baseVa, size);
      p := q;
      if q < 0 {
        return EINVAL, q;
      }
      var mm := list.mmap[q];
      if !IsDynamic(mm) {
        return EPERM, q;
      }
      var updateVa := mm.EndVa() - 1 == list.maxVa;
      var updatePa := mm.EndPa() - 1 == list.maxPa;
      if initialized {
        UnmapListed(q);
      }
      list.RemoveAt(q, updateVa, updatePa);
      ret := Success;
    }

    method UnmapListed(p: int)
      requires Shaped() && list.dyn && Good(mem.st, T, list.L) && 0 <= p < |list.L| && IsDynamic(list.L[p])
      modifies this`T, mem, mem.baseTable, mem.pool, mem.regionCount
      ensures TablesShaped() && RemoveSuccess(old(mem.st), mem.st, old(T), T, list.L, p)
      ensures Good(mem.st, T, Delete(list.L, p)) <==> !Unseating(old(mem.st), list.L, Delete(list.L, p))
      ensures Steady(old(mem.st), list.L) ==> Good(mem.st, T, Delete(list.L, p))
      ensures Good(mem.st, T, Delete(list.L, p)) ==>
        (Steady(mem.st, Delete(list.L, p)) <==> Steady(old(mem.st), list.L))
    {
      hide Good, WellFormed, Without, ExactCounts, AsMapped, Sized, Alone, DrainPost, DrainPre, Lo, Steady, Unseating;
      ghost var st0 := mem.st;
      assert list.Holds(list.L) && WellFormed(list.L, list.lim, true) by { assert Look(0); }
      var mm := list.mmap[p];
      RemovableRegion(list.L, list.lim, p);
      BaseRange();
      RemovePre(st0, T, list.L, p, list.lim);
      mem.UnmapRegion(mm, 0, Base, mem.baseLevel, RemoveJob(st0, T, list.L, p));
      RemoveDone(st0, mem.st, T, list.L, p, list.lim);
      T := Without(T, mm, mm.EndVa());
      RemovalFacts(st0, mem.st, old(T), T, list.L, p);
    }

    // ---- attributes --------------------------------------------------------

    lemma LookupHere(va: int)
      requires Shaped() && Good(mem.st.(trace := []), T, list.L) && 0 <= va
      ensures Tree(mem.st.tabs) && Agree(mem.st.tabs, T) && 0 < Span(mem.st.tabs)
      ensures Find(mem.st.tabs, va).Some? <==> First(list.L, va % Span(mem.st.tabs)).Some?
      ensures Find(mem.st.tabs, va).Some? ==> HitOk(mem.st.tabs, Find(mem.st.tabs, va).value, va % Span(mem.st.tabs), T)
    {
      assert list.Holds(list.L) && WellFormed(list.L, list.lim, list.dyn) by { assert Look(0); }
      assert Tree(mem.st.tabs) && Agree(mem.st.tabs, T) by { assert Look(0); }
      BaseRange();
      Lookup(mem.st.(trace := []), T, list.L, list.lim, list.dyn, va);
      FirstIsFirst(list.L, va % Span(mem.st.tabs));
    }

    // xlat_get_mem_attributes_ctx.
    method GetMemAttributes(va: int) returns (ret: Code, attr: bv32)
      requires Valid() && initialized && 0 <= va
      ensures 0 < Span(mem.st.tabs)
      ensures ret == if First(list.L, va % Span(mem.st.tabs)).Some? then Success else EINVAL
      ensures ret == Success ==> var a := va % Span(mem.st.tabs);
        a in T && T[a].r == First(list.L, a).value && attr == Effective(regime, T[a].attr)
    {
      hide Sized, WalkFrom;
      GoodTrace(mem.st, T, list.L);
      LookupHere(va);
      var hit := mem.FindEntry(va, T);
      if hit.None? {
        return EINVAL, 0;
      }
      LeafMeaning(mem.st.tabs, hit.value, va % Span(mem.st.tabs), T);
      FirstOwns(mem.st, T, list.L, va % Span(mem.st.tabs));
      mem.EntryIsRow(hit.value.r, hit.value.i);
      var d := mem.Entry(hit.value.r, hit.value.i);
      return Success, Effective(regime, d.attr);
    }

    // The checks of one page.
    method CheckPage(va: int, attr: bv32) returns (ok: bool)
      requires Shaped() && Good(mem.st, T, list.L) && 0 <= va
      ensures ok <==> PageAccepts(mem.st.tabs, va, attr)
    {
      hide Sized, WalkFrom, Parents;
      GoodTrace(mem.st, T, list.L);
      LookupHere(va);
      var hit := mem.FindEntry(va, T);
      if hit.None? {
        return false;
      }
      mem.EntryIsRow(hit.value.r, hit.value.i);
      var d := mem.Entry(hit.value.r, hit.value.i);
      ok := !(DescType(d) != PAGE_DESC || hit.value.level != 3 || (IsDevice(d.attr) && attr & MT_EXECUTE_NEVER == 0));
    }

    // The first loop of xlat_change_mem_attributes_ctx.
    method CheckPages(base: int, n: int, attr: bv32) returns (ok: bool)
      requires Shaped() && Good(mem.st, T, list.L) && 0 <= base && 0 <= n
      ensures ok <==> PagesAccept(mem.st.tabs, base, n, attr)
    {
      var i, va := 0, base;
      while i < n
        invariant 0 <= i <= n && va == PageAt(base, i)
        invariant PagesAccept(mem.st.tabs, base, i, attr)
      {
        OneMoreAccepts(mem.st.tabs, base, i, n, attr);
        ok := CheckPage(va, attr);
        if !ok {
          return;
        }
        i, va := i + 1, va + 0x1000;
      }
      ok := true;
    }

    // TablesShaped, kept folded.
    ghost predicate Held()
      reads this, mem, mem.baseTable, mem.pool, mem.regionCount
    {
      forall k {:trigger Look(k)} :: Look(k) ==> TablesShaped()
    }

    // The second loop.
    method ChangePages(ghost Q: Request, base: int, n: int, attr: bv32, ghost T0: Trans, ghost L: seq<Region>)
      requires Held() && Q.base == base && Q.n == n && 0 <= n && Q.regime == regime && Q.attr == attr
      requires Changing(mem.st, T0, T, L, Q, 0) && KeptList(L, list.lim, list.dyn)
      modifies this`T, mem, mem.baseTable, mem.pool
      ensures Held() && Changing(mem.st, T0, T, L, Q, n) && SamePool(old(mem.st), mem.st)
    {
      hide Changing, Held, KeptList;
      var i, va := 0, base;
      while i < n
        invariant 0 <= i <= n && va == PageVa(Q, i) && SamePool(old(mem.st), mem.st)
        invariant Held() && Changing(mem.st, T0, T, L, Q, i)
      {
        ChangeOne(Q, i, va, attr, T0, L);
        i, va := i + 1, va + 0x1000;
      }
    }

    method ChangeOne(ghost Q: Request, ghost i: int, va: int, attr: bv32, ghost T0: Trans, ghost L: seq<Region>)
      requires Held() && Q.regime == regime && Q.attr == attr && va == PageVa(Q, i)
      requires i < Q.n && Changing(mem.st, T0, T, L, Q, i) && KeptList(L, list.lim, list.dyn)
      modifies this`T, mem, mem.baseTable, mem.pool
      ensures Held() && Changing(mem.st, T0, T, L, Q, i + 1) && SamePool(old(mem.st), mem.st)
    {
      hide Changing, Retouch, KeptList, Sized, Agree, Lo, WalkFrom, Children, Parents, Unique, EntryOk;
      assert TablesShaped() by { assert Look(0); }
      ChangeHere(Q, i, T0, L);
      var hit := mem.FindEntry(va, T);
      var h := hit.value;
      mem.EntryIsRow(h.r, h.i);
      var d := mem.Entry(h.r, h.i);
      var now := Page(d.pa, Changed(Effective(regime, d.attr), attr));
      ChangeNext(mem.st, T0, T, L, Q, i, h, now);
      mem.RewritePage(h.r, h.i, now, va);
      T := Retouch(T, PageLo(Q, i), regime, attr);
    }

    lemma ChangeHere(Q: Request, i: int, T0: Trans, L: seq<Region>)
      requires TablesShaped() && KeptList(L, list.lim, list.dyn) && i < Q.n && Changing(mem.st, T0, T, L, Q, i)
      ensures Tree(mem.st.tabs) && Agree(mem.st.tabs, T) && Q.span > 0 && 0 <= i && PageLo(Q, i) % 0x1000 == 0
      ensures PageMapped(mem.st.tabs, PageVa(Q, i))
      ensures HitOk(mem.st.tabs, Find(mem.st.tabs, PageVa(Q, i)).value, PageLo(Q, i), T)
    {
      BaseRange();
      assert Sized(mem.st.tabs) && WellFormed(L, list.lim, list.dyn) by { assert Look(0); }
      ChangePage(mem.st, T0, T, L, Q, i, list.lim, list.dyn);
    }

    // xlat_change_mem_attributes_ctx.  All or nothing; addresses past the span
    // of the tables are taken modulo the span, and then the TLB invalidations
    // name the wrong addresses.  Its second loop counts pages in 32 bits, so it
    // never ends for an accepted request of 2^32 pages or more.
    method ChangeMemAttributes(base: int, size: int, attr: bv32) returns (ret: Code)
      requires Valid() && initialized && 0 <= base && 0 <= size
      requires size < 0x1000_0000_0000 || !Changeable(mem.st.tabs, base, size, attr)
      modifies this`T, mem, mem.baseTable, mem.pool
      ensures Shaped() && 0 < Span(mem.st.tabs)
      ensures ret == if Changeable(old(mem.st).tabs, base, size, attr) then Success else EINVAL
      ensures ret == EINVAL ==> T == old(T) && mem.st == old(mem.st)
      ensures ret == Success ==> var Q := Request(base, size / 0x1000, Span(mem.st.tabs), regime, attr);
        ChangedRun(old(T), T, Q) && PagesReadBack(old(T), T, Q)
      ensures ret == Success ==>
        Good(mem.st.(trace := []), T, list.L) && (Valid() <==> base + size <= Span(mem.st.tabs))
      ensures PoolSteady() <==> old(PoolSteady())
    {
      hide Steady, Good, PagesReadBack, ChangedRun, PagesAccept, BlockSize, Lo, Sized;
      GoodTrace(mem.st, T, list.L);
      SpanPositive();
      if base % 0x1000 != 0 || size == 0 || size % 0x1000 != 0 {
        return EINVAL;
      }
      if attr & MT_EXECUTE_NEVER == 0 && attr & MT_RW != 0 {
        return EINVAL;
      }
      var n := size / 0x1000;
      var ok := CheckPages(base, n, attr);
      if !ok {
        return EINVAL;
      }
      ChangeAccepted(base, n, attr);
      SamePoolSteady(old(mem.st), mem.st, list.L);
      ret := Success;
    }

    // The second loop, on a request that the checks accept.
    method ChangeAccepted(base: int, n: int, attr: bv32)
      requires Shaped() && Good(mem.st, T, list.L) && 0 <= base && base % 0x1000 == 0 && 0 < n
      requires !(attr & MT_EXECUTE_NEVER == 0 && attr & MT_RW != 0) && PagesAccept(mem.st.tabs, base, n, attr)
      modifies this`T, mem, mem.baseTable, mem.pool
      ensures Shaped() && Span(mem.st.tabs) == Span(old(mem.st).tabs) > 0
      ensures var Q := Request(base, n, Span(mem.st.tabs), regime, attr);
        ChangedRun(old(T), T, Q) && PagesReadBack(old(T), T, Q)
      ensures Good(mem.st.(trace := []), T, list.L) && SamePool(old(mem.st), mem.st)
      ensures Good(mem.st, T, list.L) <==> base + n * 0x1000 <= Span(mem.st.tabs)
    {
      hide Good, PagesReadBack, ChangedRun, PagesAccept, BlockSize, KeptList, Changing, Lo, Sized;
      SpanPositive();
      ghost var Q, T0, st0 := Request(base, n, Span(mem.st.tabs), regime, attr), T, mem.st;
      ChangeStarts(mem.st, T, list.L, Q);
      ListKept();
      ChangePages(Q, base, n, attr, T0, list.L);
      HeldShape();
      ChangeEnds(mem.st, T0, T, list.L, Q);
      ReadsBackHere(st0, T0, Q);
    }

    lemma HeldShape()
      requires Held()
      ensures TablesShaped()
    {
      assert Look(0);
    }

    lemma ReadsBackHere(st: State, T0: Trans, Q: Request)
      requires Shaped() && Good(st, T0, list.L) && |st.tabs.base| == mem.baseTable.Length
      requires st.tabs.baseLevel == mem.baseLevel
      requires ValidRequest(Q) && Q.span == Span(st.tabs) && PagesAccept(st.tabs, Q.base, Q.n, Q.attr)
      requires !(Q.attr & MT_EXECUTE_NEVER == 0 && Q.attr & MT_RW != 0) && ChangedRun(T0, T, Q)
      ensures PagesReadBack(T0, T, Q)
    {
      OrderedList();
      assert Tree(st.tabs) by { assert Look(0); }
      PageReadsBack(st, T0, T, list.L, list.lim, list.dyn, Q);
    }

    lemma SpanPositive()
      requires TablesShaped()
      ensures 0 < Span(mem.st.tabs) && Span(mem.st.tabs) % 0x1000 == 0
    {
      Values(mem.baseLevel, 0);
    }
  }

  // Every address of the region is mapped to its output address, with the
  // permissions asked for.
  ghost predicate Translates(T: Trans, mm: Region, regime: Regime) {
    forall va {:trigger T[va]} :: mm.Contains(va) ==>
      && va in T && T[va].r.basePa + (va - T[va].r.baseVa) == mm.basePa + (va - mm.baseVa)
      && Effective(regime, T[va].attr) == Effective(regime, mm.attr)
  }

  lemma DynamicTranslates(T: Trans, T': Trans, mm: Region, regime: Regime)
    requires Gains(T, T', Dynamic(mm))
    ensures Translates(T', mm, regime)
  {
    hide Effective;
    forall va | mm.Contains(va)
      ensures va in T' && T'[va].r == Dynamic(mm) && T'[va].attr == Dynamic(mm).attr
    {
      assert Dynamic(mm).Contains(va);
    }
  }

  // The dynamic region at a chosen address.
  function Chosen(mm: Region, va: int): (r: Region)
    ensures IsDynamic(r)
  {
    Dynamic(mm.(baseVa := va))
  }

  // The region as a dynamic one.
  // It is where it was, with the same permissions.
  function Dynamic(mm: Region): (r: Region)
    ensures IsDynamic(r) && r.baseVa == mm.baseVa && r.basePa == mm.basePa && r.size == mm.size
    ensures r.granularity == mm.granularity && forall g :: Effective(g, r.attr) == Effective(g, mm.attr)
  {
    SamePermissions(mm.attr);
    mm.(attr := mm.attr | MT_DYNAMIC)
  }

  lemma SamePermissions(attr: bv32)
    ensures forall g :: Effective(g, attr | MT_DYNAMIC) == Effective(g, attr)
  {
  }

  lemma FailureFacts(st: State, st': State, T: Trans, L: seq<Region>, R: Region)
    requires AddFailure(st, st', T, L, R)
    ensures Good(st', T, L) <==> !Orphaning(st.tabs, L, R)
    ensures Steady(st, L) ==> (Good(st', T, L) && Steady(st', L) <==> !Burdening(st, L, R))
  {
    assert Look(0);
  }

  lemma RemovalFacts(st: State, st': State, T: Trans, T': Trans, L: seq<Region>, p: nat)
    requires p < |L| && RemoveSuccess(st, st', T, T', L, p)
    ensures Good(st', T', Delete(L, p)) <==> !Unseating(st, L, Delete(L, p))
    ensures Steady(st, L) ==> Good(st', T', Delete(L, p))
    ensures Good(st', T', Delete(L, p)) ==> (Steady(st', Delete(L, p)) <==> Steady(st, L))
  {
    assert Look(0);
  }

  // A region for which there are enough tables does neither.
  lemma EnoughKeeps(st: State, L: seq<Region>, R: Region)
    requires Suffice(st.tabs, L, R) && 0 <= st.tabs.baseLevel
    ensures !Orphaning(st.tabs, L, R) && !Burdening(st, L, R)
  {
    if m :| FirstLacking(st.tabs, L, R, m) {
      LackingShort(st.tabs, L, R, m);
    }
  }

  lemma SuccessGood(st: State, st': State, T: Trans, T': Trans, L: seq<Region>, L': seq<Region>, R: Region)
    requires AddSuccess(st, st', T, T', L, L', R)
    ensures Good(st', T', L') && (Steady(st', L') <==> Steady(st, L)) && Gains(T, T', R)
  {
    assert Look(0);
  }
}

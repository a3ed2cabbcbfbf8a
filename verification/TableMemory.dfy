/**
 The translation tables as they are stored and changed in place: the base
 table, the pool of subtables, and the pool's bookkeeping in both build
 variants (per-table region counts when `dynamic`, a bump index otherwise).
 */
module TableMemory {
  import opened Folding
  import opened Geometry
  import opened Tables
  import opened Mapping
  import opened Counts
  import opened TableState
  import opened MapLoop
  import opened UnmapState
  import opened UnmapLoop
  import opened BreakBeforeMake
  import opened Options
  import opened Walk
  import opened AttributeChange

  class Memory {
    const dynamic: bool
    const baseLevel: int
    const baseTable: array<Desc>
    const pool: array2<Desc>
    const regionCount: array<int>
    var nextTable: int

    // What is stored, as a value.
    ghost var st: State

    ghost predicate Mirrors()
      reads this, baseTable, pool, regionCount
    {
      && st.next == nextTable && 0 <= nextTable && st.cnt == regionCount[..]
      && |st.tabs.subs| == pool.Length0 && pool.Length1 == 512
      && st.tabs.base == baseTable[..]
      && (forall s :: 0 <= s < pool.Length0 ==> |st.tabs.subs[s]| == 512)
      && (forall s, i :: 0 <= s < pool.Length0 && 0 <= i < 512 ==> pool[s, i] == st.tabs.subs[s][i])
    }

    ghost predicate Stored()
      reads this, baseTable, pool, regionCount
    {
      && st.dynamic == dynamic && st.tabs.baseLevel == baseLevel && |st.tabs.base| == baseTable.Length
      && |st.tabs.subs| == pool.Length0 == regionCount.Length == |st.cnt| && pool.Length1 == 512
      && forall k {:trigger Look(k)} :: Look(k) ==> Mirrors()
    }

    constructor (dyn: bool, level: int, entries: int, tablesNum: int)
      requires 0 <= level <= 3 && 1 <= entries <= 512 && 0 <= tablesNum
      ensures Stored() && st.next == 0 && dynamic == dyn && baseLevel == level
      ensures baseTable.Length == entries && pool.Length0 == tablesNum
      ensures fresh(baseTable) && fresh(pool) && fresh(regionCount)
    {
      dynamic, baseLevel := dyn, level;
      baseTable := new Desc[entries](_ => Invalid);
      pool := new Desc[tablesNum, 512]((_, _) => Invalid);
      regionCount := new int[tablesNum](_ => 0);
      nextTable := 0;
      new;
      st := State(dyn, Tabs(level, baseTable[..], seq(tablesNum, _ => seq(512, _ => Invalid)), map[]), regionCount[..],
        0, []);
    }

    // The clearing loops of init_xlat_tables_ctx; the trace starts here.
    method Reset()
      requires Stored() && st.next == 0 && 0 <= baseLevel <= 3 && 1 <= baseTable.Length <= 512
      modifies this, baseTable, pool, regionCount
      ensures Stored() && Blank(st)
    {
      assert Look(0);
      var i := 0;
      while i < baseTable.Length
        invariant 0 <= i <= baseTable.Length
        invariant forall k :: 0 <= k < i ==> baseTable[k] == Invalid
        invariant nextTable == 0
      {
        baseTable[i] := Invalid;
        i := i + 1;
      }
      var j := 0;
      while j < pool.Length0
        invariant 0 <= j <= pool.Length0 && nextTable == 0
        invariant forall k :: 0 <= k < baseTable.Length ==> baseTable[k] == Invalid
        invariant forall s, k :: 0 <= s < j && 0 <= k < 512 ==> pool[s, k] == Invalid
        invariant dynamic ==> forall s :: 0 <= s < j ==> regionCount[s] == 0
      {
        if dynamic {
          regionCount[j] := 0;
        }
        i := 0;
        while i < 512
          invariant 0 <= i <= 512 && nextTable == 0
          invariant forall k :: 0 <= k < baseTable.Length ==> baseTable[k] == Invalid
          invariant forall s, k :: 0 <= s < j && 0 <= k < 512 ==> pool[s, k] == Invalid
          invariant forall k :: 0 <= k < i ==> pool[j, k] == Invalid
          invariant dynamic ==> forall s :: 0 <= s <= j ==> regionCount[s] == 0
        {
          pool[j, i] := Invalid;
          i := i + 1;
        }
        j := j + 1;
      }
      st := State(dynamic, Tabs(baseLevel, baseTable[..], seq(pool.Length0, _ => seq(512, _ => Invalid)), map[]),
        regionCount[..], 0, []);
    }

    function Entry(r: Ref, i: int): Desc
      requires 0 <= i < 512
      requires r.Base? ==> i < baseTable.Length
      requires r.Sub? ==> r.idx < pool.Length0 && pool.Length1 == 512
      reads baseTable, pool
    {
      if r.Base? then baseTable[i] else pool[r.idx, i]
    }

    lemma EntryIsRow(r: Ref, i: int)
      requires Stored() && Sized(st.tabs) && Slot(st.tabs, r, i)
      ensures 0 <= i < 512
      ensures r.Base? ==> i < baseTable.Length
      ensures r.Sub? ==> r.idx < pool.Length0
      ensures pool.Length1 == 512 && Entry(r, i) == Row(st.tabs, r)[i]
    {
      assert Look(0);
    }

    lemma CountStored(s: nat)
      requires Stored() && s < |st.cnt|
      ensures regionCount[s] == st.cnt[s]
    {
      assert Look(0);
    }

    // Writes one descriptor.
    method Write(r: Ref, i: int, d: Desc)
      requires Stored() && Sized(st.tabs) && Slot(st.tabs, r, i)
      modifies this`st, baseTable, pool
      ensures Stored() && st == Put(old(st), r, i, d)
    {
      assert Look(0);
      LevelBounds(st.tabs, r);
      st := Put(st, r, i, d);
      if r.Base? {
        baseTable[i] := d;
      } else {
        pool[r.idx, i] := d;
      }
    }

    // Records other places for the same contents.
    ghost method Relabel(st1: State)
      requires Stored() && st1 == st.(tabs := st.tabs.(place := st1.tabs.place))
      modifies this`st
      ensures Stored() && st == st1
    {
      st := st1;
    }

    // xlat_table_get_empty: the first table of count 0, or the next unused one.
    method GetEmpty() returns (s: int)
      requires Stored()
      modifies this`nextTable, this`st
      ensures FirstFree(old(st), s) && s < pool.Length0
      ensures Stored() && st == old(st).(next := if !dynamic && 0 <= s then s + 1 else old(st).next)
    {
      assert Look(0);
      if dynamic {
        s := 0;
        while s < regionCount.Length
          invariant 0 <= s <= regionCount.Length
          invariant forall k :: 0 <= k < s ==> regionCount[k] != 0
        {
          if regionCount[s] == 0 {
            return;
          }
          s := s + 1;
        }
        s := -1;
      } else if nextTable < pool.Length0 {
        s := nextTable;
        nextTable := nextTable + 1;
        st := st.(next := s + 1);
      } else {
        s := -1;
      }
    }

    // Enters a table: counts the region in it.
    method IncRegionsCount(r: Ref, level: int)
      requires Stored() && Sized(st.tabs) && Has(st.tabs, r) && level == At(st.tabs, r).level
      modifies this`st, regionCount
      ensures Stored() && st == Opened(old(st), r)
    {
      LevelBounds(st.tabs, r);
      assert Look(0);
      if dynamic && level > baseLevel {
        regionCount[r.idx] := regionCount[r.idx] + 1;
        st := st.(cnt := regionCount[..]);
      }
    }

    // ---- mapping -----------------------------------------------------------

    // Maps the region in the table below an entry, and tells whether to stop.
    method MapBelow(R: Region, r: Ref, i: int, s: nat, va: int, level: int, ghost T: Trans, ghost c0: seq<int>,
        ghost hi: int)
      returns (stop: bool, end: int, ghost to: int)
      requires Stored() && Slot(st.tabs, r, i) && BelowPre(st, T, c0, R, r, i, s)
      requires level == At(st.tabs, r).level && va == EntryLo(st.tabs, r, i) && hi == EntryHi(st.tabs, r, i)
      modifies this, baseTable, pool, regionCount
      ensures Stored() && MapPost(old(st), st, T, c0, R, level, va, hi, stop, end, to)
      decreases 3 - level, 0
    {
      ghost var st0 := st;
      BelowIsRegion(st, T, c0, R, r, i, s);
      end, to := MapRegion(R, va, Sub(s), level + 1, T, c0, hi);
      stop := end != va + BlockSize(level) - 1;
      MapLoop.BelowDone(st0, st, T, c0, R, level, va, hi, end, to);
    }

    // ACTION_CREATE_NEW_TABLE.
    method MapNew(R: Region, r: Ref, i: int, va: int, level: int, ghost T: Trans, ghost c0: seq<int>, ghost hi: int)
      returns (stop: bool, end: int, ghost to: int)
      requires Stored() && Sized(st.tabs) && Slot(st.tabs, r, i) && MapPre(st, T, c0, R, r, i)
      requires Row(st.tabs, r)[i] == Invalid && level < 3 && !LeafFor(R, level, Num(st.tabs, r, i))
      requires level == At(st.tabs, r).level && va == EntryLo(st.tabs, r, i) && hi == EntryHi(st.tabs, r, i)
      modifies this, baseTable, pool, regionCount
      ensures Stored() && MapPost(old(st), st, T, c0, R, level, va, hi, stop, end, to)
      decreases 3 - level, 1
    {
      hide Sized, MapPost, MapPre, BelowPre, FirstFree, Extends, Lo, LeafFits;
      ghost var st0 := st;
      var s := GetEmpty();
      if s < 0 {
        FailDone(st0, T, c0, R, r, i);
        stop, end, to := true, va, va;
      } else {
        CreateReady(st0, T, c0, R, r, i, s);
        Write(r, i, Table(s));
        Relabel(PutLink(st0, r, i, s));
        stop, end, to := MapBelow(R, r, i, s, va, level, T, c0, hi);
        PostAfter(st0.tabs, st0, PutLink(st0, r, i, s), st, T, c0, R, level, va, hi, stop, end, to);
      }
    }

    // One turn of the loop of xlat_tables_map_region.
    method MapEntry(R: Region, r: Ref, i: int, va: int, level: int, ghost T: Trans, ghost c0: seq<int>, ghost hi: int)
      returns (stop: bool, end: int, ghost to: int)
      requires Stored() && Slot(st.tabs, r, i) && MapPre(st, T, c0, R, r, i)
      requires level == At(st.tabs, r).level && va == EntryLo(st.tabs, r, i) && hi == EntryHi(st.tabs, r, i)
      modifies this, baseTable, pool, regionCount
      ensures Stored() && MapPost(old(st), st, T, c0, R, level, va, hi, stop, end, to)
      decreases 3 - level, 2
    {
      hide MapPost;
      ActionReady(st, T, c0, R, r, i);
      EntryIsRow(r, i);
      var d := Entry(r, i);
      var action := MapAction(R, DescType(d), R.PaOf(va), va, level);
      stop, end, to := false, va + BlockSize(level) - 1, hi;
      if action == ActionWriteBlock {
        WriteDone(st, T, c0, R, r, i);
        Write(r, i, LeafDesc(R.attr, R.PaOf(va), level));
      } else if action == ActionCreateTable {
        stop, end, to := MapNew(R, r, i, va, level, T, c0, hi);
      } else if action == ActionRecurse {
        RecurseReady(st, T, c0, R, r, i);
        stop, end, to := MapBelow(R, r, i, d.next, va, level, T, c0, hi);
      } else {
        SkipDone(st, T, c0, R, r, i);
      }
    }

    // The first entry that the region affects.
    method EnterMap(R: Region, tableVa: int, r: Ref, level: int, ghost T: Trans, ghost c0: seq<int>)
      returns (va: int, idx: int, entries: int)
      requires Stored() && Has(st.tabs, r) && RegionPre(st, T, c0, R, r)
      requires level == At(st.tabs, r).level && tableVa == RefLo(st.tabs, r)
      modifies this`st, regionCount
      ensures entries == |Row(old(st).tabs, r)| && 0 <= idx < entries && va == EntryLo(old(st).tabs, r, idx)
      ensures Stored() && Looping(old(st).tabs, st, T, c0, R, r, idx)
    {
      LoopStarts(st, T, c0, R, r);
      IncRegionsCount(r, level);
      va := StartVa(R, tableVa, level);
      idx := VaToIndex(tableVa, va, level);
      entries := if r.Base? then baseTable.Length else 512;
    }

    // xlat_tables_map_region.
    method MapRegion(R: Region, tableVa: int, r: Ref, level: int, ghost T: Trans, ghost c0: seq<int>, ghost high: int)
      returns (end: int, ghost to: int)
      requires Stored() && Has(st.tabs, r) && RegionPre(st, T, c0, R, r)
      requires level == At(st.tabs, r).level && tableVa == RefLo(st.tabs, r) && high == RefHi(st.tabs, r)
      modifies this, baseTable, pool, regionCount
      ensures Stored() && RegionPost(old(st).tabs, st, T, c0, R, level, tableVa, high, end, to)
      decreases 3 - level, 4
    {
      hide RegionPost, BlockSize, Head, Stored, RegionPre, Looping, MapPost, Lo, MapPre;
      ghost var t := st.tabs;
      var va, idx, entries := EnterMap(R, tableVa, r, level, T, c0);
      end, to := va - 1, va;
      HeadStarts(t, st, T, c0, R, r, idx, va, entries, level, tableVa, high, end, to);
      while idx < entries
        invariant Stored() && Head(t, st, T, c0, R, r, idx, va, entries, level, tableVa, high, end, to)
      {
        HeadEntry(t, st, T, c0, R, r, idx, va, entries, level, tableVa, high, end, to);
        ghost var before, hi, end0, to0 := st, EntryHi(st.tabs, r, idx), end, to;
        var stop;
        stop, end, to := MapEntry(R, r, idx, va, level, T, c0, hi);
        if stop {
          HeadStops(t, before, st, T, c0, R, r, idx, va, entries, level, tableVa, high, end0, to0, hi, end, to);
          return;
        }
        HeadNext(t, before, st, T, c0, R, r, idx, va, entries, level, tableVa, high, end0, to0, hi, end, to,
          va + BlockSize(level));
        idx := idx + 1;
        va := va + BlockSize(level);
        if R.EndVa() - 1 <= va {
          return;
        }
      }
      HeadDone(t, st, T, c0, R, r, idx, va, entries, level, tableVa, high, end, to);
    }

    // ---- unmapping ---------------------------------------------------------

    // Writes an invalid descriptor, and invalidates the entry's address.
    method Clear(r: Ref, i: int, va: int)
      requires Stored() && Sized(st.tabs) && Slot(st.tabs, r, i) && va == EntryLo(st.tabs, r, i)
      modifies this`st, baseTable, pool
      ensures Stored() && st == Cleared(old(st), r, i)
    {
      Write(r, i, Invalid);
      Flush(va);
    }

    // xlat_arch_tlbi_va: recorded in the trace only.
    method Flush(va: int)
      requires Stored()
      modifies this`st
      ensures Stored() && st == old(st).(trace := old(st).trace + [Flushed(va)])
    {
      assert Look(0);
      st := st.(trace := st.trace + [Flushed(va)]);
    }

    method DecRegionsCount(r: Ref, level: int)
      requires Stored() && Sized(st.tabs) && Has(st.tabs, r) && level == At(st.tabs, r).level
      modifies this`st, regionCount
      ensures Stored() && st == Closed(old(st), r)
    {
      LevelBounds(st.tabs, r);
      assert Look(0);
      if level > baseLevel {
        regionCount[r.idx] := regionCount[r.idx] - 1;
        st := st.(cnt := regionCount[..]);
      }
    }

    // Unmaps the region in the table below an entry, and drops the table if
    // that leaves it empty.
    method UnmapBelow(R: Region, r: Ref, i: int, s: nat, va: int, level: int, ghost J: Job, ghost hi: int, ghost a: int)
      requires Stored() && R == J.R && Slot(st.tabs, r, i) && DropPre(st, J, r, i)
      requires Row(st.tabs, r)[i] == Table(s)
      requires level == At(st.tabs, r).level && level < 3 && va == EntryLo(st.tabs, r, i)
      requires hi == EntryHi(st.tabs, r, i) && a == RefLo(st.tabs, r)
      modifies this, baseTable, pool, regionCount
      ensures Stored() && DropPost(old(st), st, J, r, hi, level, a)
      decreases 3 - level, 0
    {
      hide DropPre, DropPost, DrainPre, DrainPost;
      ghost var st0 := st;
      BelowReady(st, J, r, i);
      UnmapRegion(R, va, Sub(s), level + 1, J);
      BelowShape(st0, st, J, r, i);
      CountStored(s);
      if regionCount[s] == 0 {
        DropDone(st0, st, J, r, i);
        ghost var st1 := st;
        Clear(r, i, va);
        Relabel(Dropped(st1, r, i));
      } else {
        KeepDone(st0, st, J, r, i);
      }
    }

    // One turn of the loop of xlat_tables_unmap_region.
    method UnmapEntry(R: Region, r: Ref, i: int, va: int, level: int, ghost J: Job, ghost hi: int, ghost a: int)
      requires Stored() && R == J.R && Slot(st.tabs, r, i) && DropPre(st, J, r, i)
      requires level == At(st.tabs, r).level && va == EntryLo(st.tabs, r, i)
      requires hi == EntryHi(st.tabs, r, i) && a == RefLo(st.tabs, r)
      modifies this, baseTable, pool, regionCount
      ensures Stored() && DropPost(old(st), st, J, r, hi, level, a)
      decreases 3 - level, 1
    {
      DropAction(st, J, r, i);
      EntryIsRow(r, i);
      var d := Entry(r, i);
      var action := UnmapAction(R, va, va + BlockSize(level) - 1, level, DescType(d));
      if action == ActionWriteBlock {
        ClearDone(st, J, r, i);
        Clear(r, i, va);
      } else {
        UnmapBelow(R, r, i, d.next, va, level, J, hi, a);
      }
    }

    method EnterUnmap(R: Region, tableVa: int, r: Ref, level: int, ghost J: Job)
      returns (va: int, idx: int, entries: int)
      requires Stored() && R == J.R && Has(st.tabs, r) && DrainPre(st, J, r)
      requires level == At(st.tabs, r).level && tableVa == RefLo(st.tabs, r)
      ensures entries == |Row(st.tabs, r)| && 0 <= idx < entries && va == EntryLo(st.tabs, r, idx)
      ensures DrainLoop(st.tabs, st, J, r, idx)
    {
      DrainStarts(st, J, r);
      va := StartVa(R, tableVa, level);
      idx := VaToIndex(tableVa, va, level);
      entries := if r.Base? then baseTable.Length else 512;
    }

    // xlat_tables_unmap_region.
    method UnmapRegion(R: Region, tableVa: int, r: Ref, level: int, ghost J: Job)
      requires Stored() && R == J.R && Has(st.tabs, r) && DrainPre(st, J, r)
      requires level == At(st.tabs, r).level && tableVa == RefLo(st.tabs, r)
      modifies this, baseTable, pool, regionCount
      ensures Stored() && DrainPost(old(st).tabs, st, J, r, level, tableVa, RefHi(old(st).tabs, r))
      decreases 3 - level, 2
    {
      hide DrainLoop, DrainPre, BlockSize, DrainPost, DrainEnd, Stored, Lo, DropPost, DropPre, Sized;
      ghost var t := st.tabs;
      var va, idx, entries := EnterUnmap(R, tableVa, r, level, J);
      while idx < entries
        invariant idx <= entries == |Row(t, r)| && va == EntryLo(t, r, idx)
        invariant Stored()
        invariant idx < entries ==> DrainLoop(t, st, J, r, idx)
        invariant idx == entries ==> DrainEnd(t, st, J, r)
      {
        DrainBody(t, st, J, r, idx);
        ghost var before, hi := st, EntryHi(t, r, idx);
        UnmapEntry(R, r, idx, va, level, J, hi, tableVa);
        DrainNext(t, before, st, J, r, idx, va + BlockSize(level), hi, level, tableVa);
        idx := idx + 1;
        va := va + BlockSize(level);
        if R.EndVa() - 1 <= va {
          break;
        }
      }
      DrainDone(t, st, J, r);
      DecRegionsCount(r, level);
    }

    // ---- lookup and attribute changes --------------------------------------

    // find_xlat_table_entry: the loop over the levels, down to a leaf.
    method FindEntry(va: int, ghost T: Trans) returns (hit: Option<Hit>)
      requires Stored() && Tree(st.tabs) && Agree(st.tabs, T)
      ensures hit == Find(st.tabs, va)
    {
      hide Unique, BlockSize, Parents, Mirrors, Lo, LeafOk;
      var level, r := baseLevel, Base;
      while level <= 3
        invariant 0 <= level <= 3 && Has(st.tabs, r) && At(st.tabs, r).level == level
        invariant WalkFrom(st.tabs, r, level, va) == Find(st.tabs, va)
        decreases 3 - level
      {
        LevelBounds(st.tabs, r);
        BlockSizePositive(level);
        var idx := (va / BlockSize(level)) % 512;
        var entries := if r.Base? then baseTable.Length else 512;
        if idx >= entries {
          return None;
        }
        EntryIsRow(r, idx);
        assert SlotOk(st.tabs, r, idx, T) && ChildOk(st.tabs, r, idx);
        var d := Entry(r, idx);
        if DescType(d) == INVALID_DESC {
          return None;
        }
        if level == 3 || DescType(d) == BLOCK_DESC {
          return Some(Hit(r, idx, level));
        }
        level, r := level + 1, Sub(d.next);
      }
    }

    // The rewrite of a page descriptor: break, invalidate, make.
    method RewritePage(r: Ref, i: int, d: Desc, va: int)
      requires Stored() && Sized(st.tabs) && Slot(st.tabs, r, i)
      modifies this`st, baseTable, pool
      ensures Stored() && st == Rewritten(old(st), r, i, d, va)
    {
      Write(r, i, Invalid);
      Flush(va);
      Write(r, i, d);
    }
  }
}

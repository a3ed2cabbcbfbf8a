/**
 The mmap array of a context: a sorted list ended by its first empty entry, with
 one entry more than its capacity so that the end marker always fits.
 */
module RegionList {
  import opened Folding
  import opened Tables
  import opened Regions
  import opened MemoryCopy

  class RegionArray {
    const mmap: array<Region>
    const mmapNum: int
    const lim: Limits
    const dyn: bool
    var maxVa: int
    var maxPa: int

    // The listed regions.
    ghost var L: seq<Region>

    // The array holds a well-formed list, with its true maxima.
    ghost predicate Facts()
      reads this, mmap
    {
      Holds(L) && ValidLimits(lim) && WellFormed(L, lim, dyn) && Highest(L, maxVa, maxPa)
    }

    ghost predicate Valid()
      reads this, mmap
    {
      forall k {:trigger Look(k)} :: Look(k) ==> Facts()
    }

    constructor (capacity: int, limits: Limits, dynamic: bool)
      requires 1 <= capacity < 0xffff_ffff && ValidLimits(limits)
      ensures Valid() && |L| == 0 && fresh(mmap) && mmapNum == capacity && lim == limits && dyn == dynamic && L == []
    {
      mmapNum, lim, dyn := capacity, limits, dynamic;
      mmap := new Region[capacity + 1](_ => Region(0, 0, 0, 0, 0));
      maxVa, maxPa := 0, 0;
      L := [];
    }

    ghost predicate Joins(R: Region)
      reads this
    {
      Listable(R, lim) && forall k :: 0 <= k < |L| ==> Together(R, L[k], dyn)
    }

    // mmap_add_region_check.
    method AddRegionCheck(mm: Region) returns (ret: Code)
      requires Facts() && Fields64(mm) && 0 < mm.size
      ensures ret == EINVAL <==> BadArguments(mm)
      ensures ret == ERANGE <==> !BadArguments(mm) && OutOfRange(mm, lim)
      ensures ret == ENOMEM <==> Listable(mm, lim) && |L| == mmapNum
      ensures ret == EPERM <==> Listable(mm, lim) && |L| < mmapNum && !Joins(mm)
      ensures ret == Success <==> |L| < mmapNum && Joins(mm)
    {
      hide Highest;
      CheckMeaning(mm, lim);
      if BadArguments(mm) {
        return EINVAL;
      }
      if OutOfRange(mm, lim) {
        return ERANGE;
      }
      if mmap[mmapNum - 1].size != 0 {
        return ENOMEM;
      }
      var k := 0;
      while mmap[k].size != 0
        invariant 0 <= k <= |L|
        invariant forall j :: 0 <= j < k ==> Together(mm, L[j], dyn)
        decreases |L| - k
      {
        RefusedMeaning(mm, L[k], lim, dyn);
        if Refused(mm, mmap[k], dyn) {
          return EPERM;
        }
        k := k + 1;
      }
      return Success;
    }

    lemma WithinCapacity()
      requires Valid()
      ensures |L| <= mmapNum
    {
      assert Look(0);
    }

    lemma EndsSorted()
      requires Facts()
      ensures forall k :: 0 <= k < |L| ==> 0 < L[k].size
      ensures forall i, j :: 0 <= i < j < |L| ==> L[i].EndVa() <= L[j].EndVa()
    {
      forall i, j | 0 <= i < j < |L|
        ensures L[i].EndVa() <= L[j].EndVa()
      {
        assert Before(L[i], L[j]);
      }
    }

    // The two loops that find the place of a new region.
    method FindPlace(mm: Region) returns (p: int)
      requires Holds(L) && forall k :: 0 <= k < |L| ==> 0 < L[k].size
      requires forall i, j :: 0 <= i < j < |L| ==> L[i].EndVa() <= L[j].EndVa()
      ensures p == PlaceOf(L, mm)
    {
      p := 0;
      while mmap[p].EndVa() - 1 < mm.EndVa() - 1 && mmap[p].size != 0
        invariant 0 <= p <= |L|
        invariant forall k :: 0 <= k < p ==> Before(L[k], mm)
        decreases |L| - p
      {
        assert Before(L[p], mm);
        p := p + 1;
      }
      while mmap[p].EndVa() - 1 == mm.EndVa() - 1 && mmap[p].size != 0 && mmap[p].size < mm.size
        invariant 0 <= p <= |L|
        invariant forall k :: 0 <= k < p ==> Before(L[k], mm)
        invariant p < |L| ==> mm.EndVa() <= L[p].EndVa()
        decreases |L| - p
      {
        assert Before(L[p], mm);
        p := p + 1;
      }
      PlaceIs(L, mm, p);
    }

    // The array holds the list L', ended by empty entries.
    ghost predicate Holds(L': seq<Region>)
      reads mmap
    {
      && 1 <= mmapNum && mmap.Length == mmapNum + 1 && mmap.Length < 0x1_0000_0000
      && |L'| <= mmapNum
      && (forall k :: 0 <= k < |L'| ==> mmap[k] == L'[k])
      && (forall k :: |L'| <= k <= mmapNum ==> mmap[k].size == 0)
    }

    // Opens a gap at `p` by moving the entries below `last` up, and fills it.
    method InsertAt(p: int, last: int, mm: Region)
      requires Holds(L) && |L| < mmapNum && p == PlaceOf(L, mm) && |L| <= last <= mmapNum
      modifies mmap, this`L
      ensures L == Insert(old(L), mm) && Holds(L)
    {
      ghost var s0 := mmap[..];
      MemMove(mmap, p + 1, p, last - p);
      mmap[p] := mm;
      GapFilled(s0, mmap[..], L, p, last, mm);
      L := Insert(L, mm);
    }

    // Closes the gap left by the region at `p`.
    method DeleteAt(p: int)
      requires Holds(L) && 0 <= p < |L|
      modifies mmap, this`L
      ensures L == Delete(old(L), p) && Holds(L)
    {
      MemMove(mmap, p, p + 1, mmapNum - p);
      L := Delete(L, p);
    }

    method RaiseMaxima(mm: Region)
      modifies this`maxVa, this`maxPa
      ensures maxVa == Max(old(maxVa), mm.EndVa() - 1) && maxPa == Max(old(maxPa), mm.EndPa() - 1)
    {
      if mm.EndPa() - 1 > maxPa {
        maxPa := mm.EndPa() - 1;
      }
      if mm.EndVa() - 1 > maxVa {
        maxVa := mm.EndVa() - 1;
      }
    }

    // mmap_add_region_ctx.  A refusal is an assertion failure in the source.
    method AddStatic(mm: Region) returns (ret: Code)
      requires Valid() && Fields64(mm)
      modifies this, mmap
      ensures Valid()
      ensures mm.size == 0 ==> ret == Success && L == old(L)
      ensures 0 < mm.size ==> (ret == Success <==> |old(L)| < mmapNum && old(Joins(mm)))
      ensures 0 < mm.size && ret == Success ==> L == Insert(old(L), mm)
      ensures ret != Success ==> L == old(L) && maxVa == old(maxVa) && maxPa == old(maxPa)
    {
      hide Highest;
      if mm.size == 0 {
        return Success;
      }
      assert Look(0);
      ret := AddRegionCheck(mm);
      if ret != Success {
        return;
      }
      EndsSorted();
      var p := FindPlace(mm);
      var last := 0;
      while mmap[last].size != 0
        invariant 0 <= last <= |L|
        decreases |L| - last
      {
        last := last + 1;
      }
      HighestInsert(L, mm, maxVa, maxPa);
      InsertKeeps(L, mm, lim, dyn);
      InsertAt(p, last, mm);
      RaiseMaxima(mm);
    }

    // ---- dynamic additions -------------------------------------------------

    // A region has been inserted and is being mapped: the maxima still are
    // those of the list L0 without it.
    ghost predicate Pending(L0: seq<Region>, mm: Region, p: int)
      reads this, mmap
    {
      forall k {:trigger Look(k)} :: Look(k) ==>
        && Holds(L) && ValidLimits(lim) && Listable(mm, lim) && L == Insert(L0, mm) && p == PlaceOf(L0, mm)
          && |L0| < mmapNum
        && WellFormed(L, lim, dyn) && WellFormed(L0, lim, dyn) && Highest(L0, maxVa, maxPa)
    }

    // The checks and the insertion of mmap_add_dynamic_region_ctx.
    method Begin(mm: Region) returns (ret: Code, p: int)
      requires Valid() && Fields64(mm) && 0 < mm.size
      modifies this, mmap
      ensures ret != Success ==> Valid() && L == old(L) && unchanged(this)
      ensures ret == Success ==>
        0 <= p && L == Insert(old(L), mm) && Pending(old(L), mm, p) && maxVa == old(maxVa) && maxPa == old(maxPa)
      ensures ret == Success <==> |old(L)| < mmapNum && old(Joins(mm))
      ensures ret == EINVAL <==> BadArguments(mm)
      ensures ret == ERANGE <==> !BadArguments(mm) && OutOfRange(mm, lim)
      ensures ret == ENOMEM <==> Listable(mm, lim) && |old(L)| == mmapNum
      ensures ret == EPERM <==> Listable(mm, lim) && |old(L)| < mmapNum && !old(Joins(mm))
    {
      hide WellFormed;
      assert Look(0);
      p := 0;
      ret := AddRegionCheck(mm);
      if ret == Success {
        EndsSorted();
        p := FindPlace(mm);
        InsertKeeps(L, mm, lim, dyn);
        InsertAt(p, mmapNum, mm);
      }
    }

    // The region was mapped.
    method Commit(mm: Region, p: int, ghost L0: seq<Region>)
      requires Pending(L0, mm, p)
      modifies this`maxVa, this`maxPa
      ensures Valid()
    {
      assert Look(0);
      HighestInsert(L0, mm, maxVa, maxPa);
      RaiseMaxima(mm);
    }

    // It was not: the list is as it was.
    method Abort(mm: Region, p: int, ghost L0: seq<Region>)
      requires Pending(L0, mm, p)
      modifies this`L, mmap
      ensures Valid() && L == L0
    {
      hide Insert, Delete, PlaceOf, WellFormed, Highest;
      assert Look(0);
      DeleteInsert(L0, mm);
      DeleteAt(p);
    }

    lemma MaximaBounded()
      requires Valid()
      ensures 0 <= maxVa <= lim.vaMax < 0x1_0000_0000_0000
      ensures WellFormed(L, lim, dyn) && Highest(L, maxVa, maxPa)
    {
      assert Look(0);
      if L != [] {
        var q :| q in L && q.EndVa() - 1 == maxVa;
        assert Listable(q, lim);
      }
    }

    // ---- removal -----------------------------------------------------------

    // The search of mmap_remove_dynamic_region_ctx.
    method FindRegion(baseVa: int, size: int) returns (p: int)
      requires Valid()
      ensures 0 <= p < |L| ==> L[p].baseVa == baseVa && L[p].size == size && p < mmap.Length && mmap[p] == L[p]
      ensures -1 <= p < |L|
      ensures p < 0 ==> forall k :: 0 <= k < |L| ==> L[k].baseVa != baseVa || L[k].size != size
    {
      assert Look(0);
      p := 0;
      while mmap[p].size != 0
        invariant 0 <= p <= |L|
        invariant forall k :: 0 <= k < p ==> L[k].baseVa != baseVa || L[k].size != size
        decreases |L| - p
      {
        if mmap[p].baseVa == baseVa && mmap[p].size == size {
          return;
        }
        p := p + 1;
      }
      p := -1;
    }

    // Takes the region at `p` off the list; the flags say which maxima it held.
    method RemoveAt(p: int, updateVa: bool, updatePa: bool)
      requires Valid() && 0 <= p < |L|
      requires updateVa <==> L[p].EndVa() - 1 == maxVa
      requires updatePa <==> L[p].EndPa() - 1 == maxPa
      modifies this, mmap
      ensures Valid() && L == Delete(old(L), p)
    {
      hide WellFormed;
      assert Holds(L) && ValidLimits(lim) by { assert Look(0); }
      assert WellFormed(L, lim, dyn) && Highest(L, maxVa, maxPa) by { assert Look(0); }
      Removed(L, p, lim, dyn, maxVa, maxPa);
      DeleteAt(p);
      Recompute(updateVa, updatePa);
    }

    // The loops that recompute the maxima after a removal.
    method Recompute(va: bool, pa: bool)
      requires Holds(L) && AboveZero(L) && (!va ==> TopVa(L, maxVa)) && (!pa ==> TopPa(L, maxPa))
      modifies this`maxVa, this`maxPa
      ensures Highest(L, maxVa, maxPa)
    {
      if va {
        RecomputeVa();
      }
      if pa {
        RecomputePa();
      }
      TopsHighest(L, maxVa, maxPa);
    }

    method RecomputeVa()
      requires Holds(L) && AboveZero(L)
      modifies this`maxVa
      ensures TopVa(L, maxVa) || (L == [] && maxVa == 0)
    {
      maxVa := 0;
      var k := 0;
      while mmap[k].size != 0
        invariant 0 <= k <= |L|
        invariant forall j :: 0 <= j < k ==> L[j].EndVa() - 1 <= maxVa
        invariant if k == 0 then maxVa == 0 else exists j :: 0 <= j < k && L[j].EndVa() - 1 == maxVa
        decreases |L| - k
      {
        if mmap[k].EndVa() - 1 > maxVa {
          maxVa := mmap[k].EndVa() - 1;
        }
        k := k + 1;
      }
    }

    method RecomputePa()
      requires Holds(L) && AboveZero(L)
      modifies this`maxPa
      ensures TopPa(L, maxPa) || (L == [] && maxPa == 0)
    {
      maxPa := 0;
      var k := 0;
      while mmap[k].size != 0
        invariant 0 <= k <= |L|
        invariant forall j :: 0 <= j < k ==> L[j].EndPa() - 1 <= maxPa
        invariant if k == 0 then maxPa == 0 else exists j :: 0 <= j < k && L[j].EndPa() - 1 == maxPa
        decreases |L| - k
      {
        if mmap[k].EndPa() - 1 > maxPa {
          maxPa := mmap[k].EndPa() - 1;
        }
        k := k + 1;
      }
    }
  }

  lemma TopsHighest(L: seq<Region>, va: int, pa: int)
    requires TopVa(L, va) || (L == [] && va == 0)
    requires TopPa(L, pa) || (L == [] && pa == 0)
    ensures Highest(L, va, pa)
  {
  }

  // Moving up the entries from `p` to `last` and filling the gap inserts.
  lemma GapFilled(s0: seq<Region>, s1: seq<Region>, L: seq<Region>, p: nat, last: nat, R: Region)
    requires |s0| == |s1| && p == PlaceOf(L, R) && |L| <= last < |s0|
    requires (forall k :: 0 <= k < |L| ==> s0[k] == L[k]) && (forall k :: |L| <= k < |s0| ==> s0[k].size == 0)
    requires forall k :: 0 <= k < |s1| ==> s1[k] == if k == p then R else Moved(s0, p + 1, p, last - p, k)
    ensures |Insert(L, R)| == |L| + 1
    ensures forall k :: 0 <= k <= |L| ==> s1[k] == Insert(L, R)[k]
    ensures forall k :: |L| < k < |s1| ==> s1[k].size == 0
  {
    Spliced(L, p, R);
  }

  lemma Spliced(L: seq<Region>, p: nat, R: Region)
    requires p == PlaceOf(L, R)
    ensures |Insert(L, R)| == |L| + 1
    ensures forall k :: 0 <= k <= |L| ==> Insert(L, R)[k] == if k < p then L[k] else if k == p then R else L[k - 1]
  {
  }

  lemma PlaceIs(L: seq<Region>, R: Region, p: nat)
    requires p <= |L| && (forall k :: 0 <= k < p ==> Before(L[k], R)) && (p < |L| ==> !Before(L[p], R))
    ensures p == PlaceOf(L, R)
  {
  }

  ghost predicate AboveZero(L: seq<Region>) {
    forall k :: 0 <= k < |L| ==> L[k].size != 0 && 1 < L[k].EndVa() && 1 < L[k].EndPa()
  }

  ghost predicate TopVa(L: seq<Region>, va: int) {
    (forall q :: q in L ==> q.EndVa() - 1 <= va) && L != [] && exists q :: q in L && q.EndVa() - 1 == va
  }

  ghost predicate TopPa(L: seq<Region>, pa: int) {
    (forall q :: q in L ==> q.EndPa() - 1 <= pa) && L != [] && exists q :: q in L && q.EndPa() - 1 == pa
  }

  // The list without one region; a maximum that it did not hold is held by
  // another one.
  lemma Removed(L: seq<Region>, p: nat, lim: Limits, dyn: bool, va: int, pa: int)
    requires p < |L| && WellFormed(L, lim, dyn) && Highest(L, va, pa)
    ensures WellFormed(Delete(L, p), lim, dyn) && AboveZero(Delete(L, p))
    ensures L[p].EndVa() - 1 != va ==> TopVa(Delete(L, p), va)
    ensures L[p].EndPa() - 1 != pa ==> TopPa(Delete(L, p), pa)
  {
    hide Highest;
    DeleteKeeps(L, p, lim, dyn);
    OtherMaxima(L, p, va, pa);
  }

  // A maximum that the removed region did not hold is held by another one.
  lemma OtherMaxima(L: seq<Region>, p: nat, va: int, pa: int)
    requires p < |L| && Highest(L, va, pa)
    ensures forall q :: q in Delete(L, p) ==> q.EndVa() - 1 <= va && q.EndPa() - 1 <= pa
    ensures L[p].EndVa() - 1 != va ==> exists q :: q in Delete(L, p) && q.EndVa() - 1 == va
    ensures L[p].EndPa() - 1 != pa ==> exists q :: q in Delete(L, p) && q.EndPa() - 1 == pa
  {
    DeleteMembers(L, p);
    var q :| q in L && q.EndVa() - 1 == va;
    var q' :| q' in L && q'.EndPa() - 1 == pa;
    assert L[p].EndVa() - 1 != va ==> q in Delete(L, p);
    assert L[p].EndPa() - 1 != pa ==> q' in Delete(L, p);
  }
}

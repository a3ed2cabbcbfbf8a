/**
 The address chosen for a region that does not ask for one.
 */
module VaAllocation {
  import opened Geometry
  import opened Tables
  import opened Regions
  import opened Words

  predicate Divides(b: int, x: int)
    requires 0 < b
  {
    x % b == 0
  }

  // Both the output address and the size are whole blocks of the level.
  predicate WholeBlocks(level: int, basePa: int, size: int) {
    BlockSizePositive(level);
    Divides(BlockSize(level), basePa) && Divides(BlockSize(level), size)
  }

  // The alignment an allocated address gets: the first block size from the base
  // level down to level 2 that fits, or none.
  function Grain(level: int, basePa: int, size: int): int
    decreases 3 - level
  {
    if level > 2 then 1
    else if WholeBlocks(level, basePa, size) then BlockSize(level)
    else Grain(level + 1, basePa, size)
  }

  // It is the largest of those block sizes that fits.
  lemma {:induction false} GrainIsLargest(level: int, basePa: int, size: int)
    requires 0 <= level <= 3
    ensures forall l :: level <= l <= 2 && WholeBlocks(l, basePa, size) ==> BlockSize(l) <= Grain(level, basePa, size)
    ensures (Grain(level, basePa, size) == 1 && forall l :: level <= l <= 2 ==> !WholeBlocks(l, basePa, size))
         || exists l :: level <= l <= 2 && WholeBlocks(l, basePa, size) && Grain(level, basePa, size) == BlockSize(l)
    ensures 0 < Grain(level, basePa, size)
    decreases 3 - level
  {
    if level <= 2 {
      BlockSizePositive(level);
      if WholeBlocks(level, basePa, size) {
        forall l | level <= l <= 2
          ensures BlockSize(l) <= BlockSize(level)
        {
          Values(l, 0);
          Values(level, 0);
        }
      } else {
        GrainIsLargest(level + 1, basePa, size);
      }
    }
  }

  // In figures, for a base table of level 0, 1 or 2: 512 GiB, 1 GiB, 2 MiB or no
  // alignment, whichever is the first to divide both output address and size.
  lemma GrainIs(level: int, basePa: int, size: int)
    requires 0 <= level <= 3
    ensures Grain(level, basePa, size) ==
      if level == 0 && basePa % 0x80_0000_0000 == 0 && size % 0x80_0000_0000 == 0 then 0x80_0000_0000
      else if level <= 1 && basePa % 0x4000_0000 == 0 && size % 0x4000_0000 == 0 then 0x4000_0000
      else if level <= 2 && basePa % 0x20_0000 == 0 && size % 0x20_0000 == 0 then 0x20_0000
      else 1
  {
    hide BlockSize;
    Values(0, 0);
    Values(1, 0);
    Values(2, 0);
    assert Grain(3, basePa, size) == 1;
    assert level <= 2 ==> Grain(2, basePa, size) == if WholeBlocks(2, basePa, size) then 0x20_0000 else 1;
    assert level <= 1 ==>
      Grain(1, basePa, size) == if WholeBlocks(1, basePa, size) then 0x4000_0000 else Grain(2, basePa, size);
  }

  // round_up, for a boundary that is a power of two.
  function RoundUp(value: int, boundary: int): (r: int)
    requires 0 < boundary
    ensures r % boundary == 0 && value <= r < value + boundary
    ensures forall x :: value <= x && x % boundary == 0 ==> r <= x
  {
    var r := (value - 1) / boundary * boundary + (boundary - 1) + 1;
    RoundsUp(value, boundary);
    r
  }

  lemma RoundsUp(value: int, b: int)
    requires 0 < b
    ensures var r := (value - 1) / b * b + (b - 1) + 1;
      r % b == 0 && value <= r < value + b && forall x :: value <= x && x % b == 0 ==> r <= x
  {
    var q := (value - 1) / b;
    var r := q * b + b;
    assert r == (q + 1) * b;
    MultipleMod(q + 1, b);
    forall x | value <= x && x % b == 0
      ensures r <= x
    {
      assert x == x / b * b;
      Between(q + 1, x / b, x / b + 1, b);
    }
  }

  lemma MultipleMod(k: int, b: int)
    requires 0 < b
    ensures (k * b) % b == 0
  {
    var y := k * b;
    QuotientIs(y, k, b);
  }

  // The address chosen: the least one above the highest in use with the alignment.
  function AllocatedVa(maxVa: int, baseLevel: int, basePa: int, size: int): (va: int)
    requires 0 <= baseLevel <= 3
    ensures IsLeast(va, maxVa, Grain(baseLevel, basePa, size))
  {
    GrainIsLargest(baseLevel, basePa, size);
    RoundUp(maxVa + 1, Grain(baseLevel, basePa, size))
  }

  // It fits the address type, and is above the highest one in use.
  lemma AllocatedBounds(maxVa: int, baseLevel: int, basePa: int, size: int)
    requires 0 <= baseLevel <= 3 && 0 <= maxVa < 0x1_0000_0000_0000
    ensures maxVa < AllocatedVa(maxVa, baseLevel, basePa, size) < TWO64
  {
    GrainIsLargest(baseLevel, basePa, size);
    forall l | baseLevel <= l <= 2
      ensures BlockSize(l) <= 0x80_0000_0000
    {
      Values(l, 0);
    }
  }

  // `va` is the least multiple of the alignment above maxVa.
  ghost predicate IsLeast(va: int, maxVa: int, grain: int) {
    0 < grain && maxVa < va && va % grain == 0 && forall x :: maxVa < x && x % grain == 0 ==> va <= x
  }

  lemma ByOne(x: int)
    ensures RoundUp(x, 1) == x
  {
    assert x % 1 == 0;
  }

  lemma HighestBelow(L: seq<Region>, va: int, pa: int)
    requires Highest(L, va, pa)
    ensures forall k :: 0 <= k < |L| ==> L[k].EndVa() <= va + 1
  {
    forall k | 0 <= k < |L|
      ensures L[k].EndVa() <= va + 1
    {
      assert L[k] in L;
    }
  }

  // The output addresses are in use by no listed region.
  ghost predicate PaFree(R: Region, L: seq<Region>) {
    forall k :: 0 <= k < |L| ==> Disjoint(R.basePa, R.EndPa(), L[k].basePa, L[k].EndPa())
  }

  // The chosen address is above every listed region, so a region put there can
  // only be refused for its output addresses.
  lemma AllocatedApart(L: seq<Region>, maxVa: int, maxPa: int, lim: Limits, dyn: bool, R: Region)
    requires Highest(L, maxVa, maxPa) && (forall i :: 0 <= i < |L| ==> Listable(L[i], lim)) && Listable(R, lim)
    requires maxVa < R.baseVa
    ensures (forall k :: 0 <= k < |L| ==> Together(R, L[k], dyn)) <==> PaFree(R, L)
  {
    forall k | 0 <= k < |L|
      ensures Together(R, L[k], dyn) <==> Disjoint(R.basePa, R.EndPa(), L[k].basePa, L[k].EndPa())
    {
      assert L[k] in L;
    }
  }

  lemma BlockMultiple(level: int, x: int)
    requires 0 <= level <= 3
    ensures BlockSize(level) > 1 && (x % BlockSize(level) == 0 ==> x % 0x1000 == 0)
  {
    hide BlockSize, Lo;
    Values(level, 0);
    var b := BlockSize(level);
    var m := b / 0x1000;
    assert b == m * 0x1000;
    if x % b == 0 {
      assert x == x / b * b;
      assert x == (x / b * m) * 0x1000;
    }
  }

  // An address aligned to a block size is page-aligned; otherwise none is chosen.
  lemma AllocatedAligned(maxVa: int, baseLevel: int, basePa: int, size: int)
    requires 0 <= baseLevel <= 3
    ensures (exists l :: baseLevel <= l <= 2 && WholeBlocks(l, basePa, size)) ==>
      AllocatedVa(maxVa, baseLevel, basePa, size) % 0x1000 == 0
    ensures !(exists l :: baseLevel <= l <= 2 && WholeBlocks(l, basePa, size)) ==>
      AllocatedVa(maxVa, baseLevel, basePa, size) == maxVa + 1
  {
    GrainIsLargest(baseLevel, basePa, size);
    var g := Grain(baseLevel, basePa, size);
    if g == 1 {
      forall l | baseLevel <= l <= 2
        ensures !WholeBlocks(l, basePa, size)
      {
        BlockMultiple(l, 0);
      }
      ByOne(maxVa + 1);
    } else {
      var l :| baseLevel <= l <= 2 && WholeBlocks(l, basePa, size) && g == BlockSize(l);
      BlockMultiple(l, AllocatedVa(maxVa, baseLevel, basePa, size));
    }
  }

  // With an empty list, a region that is not a whole number of blocks is given
  // address 1, which is refused.
  lemma FirstAllocation(baseLevel: int, basePa: int, size: int)
    requires 0 <= baseLevel <= 3
    ensures AllocatedVa(0, baseLevel, basePa, size) % 0x1000 == 0 <==>
      exists l :: baseLevel <= l <= 2 && WholeBlocks(l, basePa, size)
  {
    AllocatedAligned(0, baseLevel, basePa, size);
  }

  // Above a list, page alignment is kept.
  lemma NextAllocation(L: seq<Region>, maxVa: int, maxPa: int, lim: Limits, baseLevel: int, basePa: int, size: int)
    requires Highest(L, maxVa, maxPa) && L != [] && (forall i :: 0 <= i < |L| ==> Listable(L[i], lim))
    requires 0 <= baseLevel <= 3
    ensures AllocatedVa(maxVa, baseLevel, basePa, size) % 0x1000 == 0
  {
    AllocatedAligned(maxVa, baseLevel, basePa, size);
    var q :| q in L && q.EndVa() - 1 == maxVa;
    EndAligned(q, lim);
  }

  lemma EndAligned(q: Region, lim: Limits)
    requires Listable(q, lim)
    ensures q.EndVa() % 0x1000 == 0
  {
  }
}

/**
 Mapping and unmapping a region: which action each table entry needs, and what
 one action does to the abstract translation.

 Both recursions visit the entries of a region in address order, so the state
 in the middle of either one is fixed by a single address: everything of the
 region below it has been handled, nothing above it.
 */
module Mapping {
  import opened Folding
  import opened Geometry
  import opened Tables

  datatype Action =
    | ActionNone
    | ActionWriteBlock
    | ActionCreateTable
    | ActionRecurse
    | AssertionFails  // an assert of the source stops execution

  // What is needed of a region before the tables are touched.
  predicate Aligned4K(R: Region) {
    && 0 <= R.baseVa && 0 < R.size
    && R.baseVa % 0x1000 == 0 && R.basePa % 0x1000 == 0 && R.size % 0x1000 == 0
  }

  function MapAction(R: Region, descType: int, destPa: int, entryVa: int, level: int): Action {
    BlockSizePositive(level);
    var mmEndVa := R.baseVa + R.size - 1;
    var entryEndVa := entryVa + BlockSize(level) - 1;
    if R.baseVa <= entryVa && mmEndVa >= entryEndVa then
      if level == 3 then
        if descType == PAGE_DESC then ActionNone
        else if descType == INVALID_DESC then ActionWriteBlock
        else AssertionFails
      else if descType == TABLE_DESC then ActionRecurse
      else if descType == INVALID_DESC then
        if destPa % BlockSize(level) != 0 || level < MIN_LEVEL_BLOCK_DESC || R.granularity < BlockSize(level)
        then ActionCreateTable
        else ActionWriteBlock
      else if descType == BLOCK_DESC then ActionNone
      else AssertionFails
    else if R.baseVa <= entryEndVa || mmEndVa >= entryVa then
      if level >= 3 then AssertionFails
      else if descType == INVALID_DESC then ActionCreateTable
      else if descType == TABLE_DESC then ActionRecurse
      else AssertionFails
    else ActionNone
  }

  function UnmapAction(R: Region, entryVa: int, entryEndVa: int, level: int, descType: int): Action {
    var regionEndVa := R.baseVa + R.size - 1;
    if R.baseVa <= entryVa && regionEndVa >= entryEndVa then
      if level == 3 then
        if descType == PAGE_DESC then ActionWriteBlock else AssertionFails
      else if descType == TABLE_DESC then ActionRecurse
      else if descType == BLOCK_DESC then ActionWriteBlock
      else AssertionFails
    else if R.baseVa <= entryEndVa || regionEndVa >= entryVa then
      if level >= 3 || descType != TABLE_DESC then AssertionFails else ActionRecurse
    else ActionNone
  }

  // The descriptor xlat_desc builds, with its address and attributes kept apart.
  function LeafDesc(attr: bv32, pa: int, level: int): Desc {
    if level == 3 then Page(pa, attr) else Block(pa, attr)
  }

  // xlat_tables_find_start_va: first address of the first entry of a table
  // that the region affects.
  function StartVa(R: Region, tableVa: int, level: int): int {
    BlockSizePositive(level);
    if R.baseVa > tableVa then (R.baseVa / BlockSize(level)) * BlockSize(level) else tableVa
  }

  function VaToIndex(tableVa: int, va: int, level: int): int {
    BlockSizePositive(level);
    (va - tableVa) / BlockSize(level)
  }

  // ---- the translation while a region is being mapped ----------------------

  // T with the part of R below `c` added; addresses already mapped keep their
  // mapping.
  ghost function Upto(T: Trans, R: Region, c: int): Trans {
    imap va | va in T || (R.Contains(va) && va < c) :: if va in T then T[va] else Own(R, R.attr)
  }

  // Every region with mapped addresses is disjoint from R or inside it.
  ghost predicate Compatible(T: Trans, R: Region) {
    forall va {:trigger T[va]} :: va in T ==>
      && T[va].r.Contains(va)
      && (T[va].r.EndVa() <= R.baseVa || R.EndVa() <= T[va].r.baseVa
          || (R.baseVa <= T[va].r.baseVa && T[va].r.EndVa() <= R.EndVa()))
  }

  predicate Meets(R: Region, lo: int, hi: int) {
    R.baseVa < hi && lo < R.EndVa()
  }

  ghost predicate Covers(R: Region, lo: int, hi: int) {
    R.baseVa <= lo && hi <= R.EndVa()
  }

  // A page meeting an aligned region lies inside it.
  lemma PageInside(R: Region, e: int)
    requires Aligned4K(R) && Meets(R, Lo(3, e), Lo(3, e + 1))
    ensures Covers(R, Lo(3, e), Lo(3, e + 1))
  {
    var a, n := R.baseVa / 0x1000, R.size / 0x1000;
    Values(3, e);
    Values(3, e + 1);
    assert R.baseVa == a * 0x1000;
    assert R.EndVa() == (a + n) * 0x1000;
    assert a <= e && e + 1 <= a + n;
  }

  lemma PageFits(R: Region, e: int)
    requires Aligned4K(R)
    ensures LeafFits(R.PaOf(Lo(3, e)), 3, R.granularity)
  {
    Values(3, e);
    var a, b := R.basePa / 0x1000, R.baseVa / 0x1000;
    var k := a + e - b;
    assert R.PaOf(Lo(3, e)) == k * 0x1000;
    assert (k * 0x1000) % 0x1000 == 0;
    assert R.PaOf(Lo(3, e)) % BlockSize(3) == 0;
  }

  // A leaf whose entry meets R lies inside R.
  lemma LeafInside(d: Desc, level: int, e: int, T: Trans, R: Region, c: int)
    requires 0 <= level <= 3 && Compatible(T, R) && c <= Lo(level, e)
    requires EntryOk(d, level, e, Upto(T, R, c)) && (d.Block? || d.Page?)
    requires Meets(R, Lo(level, e), Lo(level, e + 1))
    ensures Covers(R, Lo(level, e), Lo(level, e + 1))
    ensures forall va :: Lo(level, e) <= va < Lo(level, e + 1) ==> va in T
  {
    var lo, hi := Lo(level, e), Lo(level, e + 1);
    var U := Upto(T, R, c);
    EntryStep(level, e);
    assert lo in U && lo in T && U[lo] == T[lo];
    var own := T[lo];
    assert own.r.Contains(lo);
    assert hi - 1 in U && U[hi - 1] == U[lo];
    assert hi - 1 in T && T[hi - 1] == own;
    assert own.r.Contains(hi - 1);
    assert R.baseVa <= own.r.baseVa && own.r.EndVa() <= R.EndVa();
    forall va | lo <= va < hi
      ensures va in T
    {
      assert va in U;
    }
  }

  lemma FitsMeans(pa: int, level: int, granularity: int)
    ensures BlockSize(level) > 0
    ensures LeafFits(pa, level, granularity) <==>
      pa % BlockSize(level) == 0 && (level < 3 ==> BlockSize(level) <= granularity)
  {
    BlockSizePositive(level);
    assert Look(0);
  }

  // A leaf can describe all of entry `e` of a level for R.
  ghost predicate LeafFor(R: Region, level: int, e: int) {
    forall k {:trigger Look(k)} :: Look(k) ==>
      1 <= level && Covers(R, Lo(level, e), Lo(level, e + 1)) && LeafFits(R.PaOf(Lo(level, e)), level, R.granularity)
  }

  // The action chosen for an entry that meets the region: no assertion fires,
  // each action finds the descriptor it expects, and a leaf is written exactly
  // where one can describe the whole of a covered entry.
  lemma MapActionSafe(t: Tabs, r: Ref, i: int, T: Trans, R: Region)
    requires Tree(t) && Slot(t, r, i) && Aligned4K(R) && Compatible(T, R)
    requires SlotOk(t, r, i, Upto(T, R, EntryLo(t, r, i)))
    requires ChildOk(t, r, i)
    requires Meets(R, EntryLo(t, r, i), EntryHi(t, r, i))
    ensures var l, lo, hi := At(t, r).level, EntryLo(t, r, i), EntryHi(t, r, i);
      var d := Row(t, r)[i];
      var a := MapAction(R, DescType(d), R.PaOf(lo), lo, l);
      && a != AssertionFails
      && (a == ActionNone ==> !d.Table? && Covers(R, lo, hi) && forall va :: lo <= va < hi ==> va in T)
      && (a == ActionWriteBlock <==>
        d == Invalid && Covers(R, lo, hi) && l >= 1 && LeafFits(R.PaOf(lo), l, R.granularity))
      && (a == ActionCreateTable ==> d == Invalid && l < 3 && !LeafFor(R, l, Num(t, r, i)))
      && (a == ActionRecurse ==> d.Table? && l < 3)
  {
    hide Upto, Lo;
    LevelBounds(t, r);
    var l, e := At(t, r).level, Num(t, r, i);
    EntryStep(l, e);
    assert LeafFor(R, l, e) ==>
      1 <= l && Covers(R, Lo(l, e), Lo(l, e + 1)) && LeafFits(R.PaOf(Lo(l, e)), l, R.granularity) by { assert Look(0); }
    if l == 3 {
      PageInside(R, e);
      PageFits(R, e);
    }
    FitsMeans(R.PaOf(Lo(l, e)), l, R.granularity);
    var d := Row(t, r)[i];
    if d.Block? || d.Page? {
      LeafInside(d, l, e, T, R, Lo(l, e));
    }
  }

  // Writing a leaf for a covered invalid entry advances the mapping past it.
  lemma WriteAdvances(level: int, e: int, T: Trans, R: Region)
    requires 1 <= level <= 3 && Covers(R, Lo(level, e), Lo(level, e + 1))
    requires EntryOk(Invalid, level, e, Upto(T, R, Lo(level, e)))
    requires LeafFits(R.PaOf(Lo(level, e)), level, R.granularity)
    ensures EntryOk(LeafDesc(R.attr, R.PaOf(Lo(level, e)), level), level, e, Upto(T, R, Lo(level, e + 1)))
    ensures SameOutside(Upto(T, R, Lo(level, e)), Upto(T, R, Lo(level, e + 1)), Lo(level, e), Lo(level, e + 1))
  {
    var lo, hi := Lo(level, e), Lo(level, e + 1);
    EntryStep(level, e);
    var U := Upto(T, R, hi);
    forall va | lo <= va < hi
      ensures va in U && U[va] == Own(R, R.attr)
    {
      assert va !in Upto(T, R, lo);
    }
  }

  // Skipping an entry whose addresses are all mapped changes nothing.
  lemma SkipAdvances(T: Trans, R: Region, lo: int, hi: int)
    requires lo <= hi && forall va :: lo <= va < hi ==> va in T
    ensures Upto(T, R, lo) == Upto(T, R, hi)
  {
  }

  lemma UptoStart(T: Trans, R: Region, c: int)
    requires c <= R.baseVa
    ensures Upto(T, R, c) == T
  {
  }

  // ---- the translation while a region is being unmapped --------------------

  ghost function Without(T: Trans, R: Region, c: int): Trans {
    imap va | va in T && !(R.Contains(va) && va < c) :: T[va]
  }

  // The addresses of R are mapped, by one owner that maps nothing else.
  ghost predicate Owned(T: Trans, R: Region, own: Region) {
    && (forall va :: R.Contains(va) ==> va in T)
    && (forall va {:trigger T[va]} :: va in T ==> (R.Contains(va) <==> T[va].r == own))
  }

  lemma UnmapActionSafe(t: Tabs, r: Ref, i: int, T: Trans, R: Region, own: Region)
    requires Tree(t) && Slot(t, r, i) && Aligned4K(R) && Owned(T, R, own)
    requires SlotOk(t, r, i, Without(T, R, EntryLo(t, r, i)))
    requires ChildOk(t, r, i)
    requires Meets(R, EntryLo(t, r, i), EntryHi(t, r, i))
    ensures var l, lo, hi := At(t, r).level, EntryLo(t, r, i), EntryHi(t, r, i);
      var d := Row(t, r)[i];
      var a := UnmapAction(R, lo, hi - 1, l, DescType(d));
      && (a == ActionWriteBlock || a == ActionRecurse)
      && (a == ActionWriteBlock ==> (d.Block? || d.Page?) && Covers(R, lo, hi))
      && (a == ActionRecurse ==> d.Table? && l < 3)
  {
    hide Lo;
    LevelBounds(t, r);
    var l, e := At(t, r).level, Num(t, r, i);
    var lo, hi := Lo(l, e), Lo(l, e + 1);
    EntryStep(l, e);
    var W := Without(T, R, lo);
    var x := if R.baseVa > lo then R.baseVa else lo;
    assert x in T && x in W;
    var d := Row(t, r)[i];
    if d.Block? || d.Page? {
      LeafOwned(d, l, e, T, R, own);
    }
  }

  lemma LeafOwned(d: Desc, l: int, e: int, T: Trans, R: Region, own: Region)
    requires 0 <= l <= 3 && Owned(T, R, own) && Meets(R, Lo(l, e), Lo(l, e + 1)) && 0 < R.size
    requires EntryOk(d, l, e, Without(T, R, Lo(l, e))) && (d.Block? || d.Page?)
    ensures Covers(R, Lo(l, e), Lo(l, e + 1))
  {
    var lo, hi := Lo(l, e), Lo(l, e + 1);
    EntryStep(l, e);
    var W := Without(T, R, lo);
    var x := if R.baseVa > lo then R.baseVa else lo;
    assert x in W && W[x] == W[lo] && T[x].r == own;
    assert W[lo] == T[lo] && R.Contains(lo);
    assert hi - 1 in W && W[hi - 1] == W[lo];
    assert T[hi - 1].r == own;
  }

  lemma ClearAdvances(level: int, e: int, T: Trans, R: Region)
    requires 0 <= level <= 3 && Covers(R, Lo(level, e), Lo(level, e + 1))
    ensures EntryOk(Invalid, level, e, Without(T, R, Lo(level, e + 1)))
    ensures SameOutside(Without(T, R, Lo(level, e)), Without(T, R, Lo(level, e + 1)), Lo(level, e), Lo(level, e + 1))
  {
    EntryStep(level, e);
  }
}

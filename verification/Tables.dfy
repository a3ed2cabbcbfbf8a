/**
 The contents of the translation tables as a value, and the invariants that
 make them a tree describing one address translation.

 A pool table is named by its index in the pool, which stands for the address
 in a table descriptor.  `place` records, for every table that is linked into
 the tree, the lookup level it serves, its table number and the table holding
 its descriptor.
 */
module Tables {
  import opened Folding
  import opened Geometry

  datatype Region = Region(basePa: int, baseVa: int, size: int, attr: bv32, granularity: int) {
    function EndVa(): int { baseVa + size }
    function EndPa(): int { basePa + size }
    function PaOf(va: int): int { basePa + (va - baseVa) }
    predicate Contains(va: int) { baseVa <= va < EndVa() }
  }

  // What one mapped address has: the region that mapped it and the memory
  // attributes in force.
  datatype Own = Own(r: Region, attr: bv32)

  // The abstract translation: which addresses are mapped, by what.
  type Trans = imap<int, Own>

  datatype Ref = Base | Sub(idx: nat)

  datatype Desc =
    | Invalid
    | Block(pa: int, attr: bv32)
    | Page(pa: int, attr: bv32)
    | Table(next: nat)

  // The two type bits of a descriptor.  A page and a table have the same type.
  const INVALID_DESC := 0
  const BLOCK_DESC := 1
  const TABLE_DESC := 3
  const PAGE_DESC := 3

  function DescType(d: Desc): int {
    match d
    case Invalid => INVALID_DESC
    case Block(_, _) => BLOCK_DESC
    case Page(_, _) => PAGE_DESC
    case Table(_) => TABLE_DESC
  }

  datatype Place = Place(level: int, num: int, parent: Ref)

  datatype Tabs = Tabs(baseLevel: int, base: seq<Desc>, subs: seq<seq<Desc>>, place: map<nat, Place>)

  predicate Has(t: Tabs, r: Ref) {
    r.Base? || (r.idx in t.place && r.idx < |t.subs|)
  }

  function At(t: Tabs, r: Ref): Place
    requires Has(t, r)
  {
    if r.Base? then Place(t.baseLevel, 0, Base) else t.place[r.idx]
  }

  function Row(t: Tabs, r: Ref): seq<Desc>
    requires Has(t, r)
  {
    if r.Base? then t.base else t.subs[r.idx]
  }

  function With(t: Tabs, r: Ref, i: int, d: Desc): Tabs
    requires Has(t, r) && 0 <= i < |Row(t, r)|
  {
    if r.Base? then t.(base := t.base[i := d])
    else t.(subs := t.subs[r.idx := t.subs[r.idx][i := d]])
  }

  predicate Slot(t: Tabs, r: Ref, i: int) {
    Has(t, r) && 0 <= i < |Row(t, r)|
  }

  // Absolute number of an entry at its level, and its address range.
  function Num(t: Tabs, r: Ref, i: int): int
    requires Has(t, r)
  {
    512 * At(t, r).num + i
  }

  function EntryLo(t: Tabs, r: Ref, i: int): int
    requires Has(t, r)
  {
    Lo(At(t, r).level, Num(t, r, i))
  }

  function EntryHi(t: Tabs, r: Ref, i: int): int
    requires Has(t, r)
  {
    Lo(At(t, r).level, Num(t, r, i) + 1)
  }

  // ---- invariants ----------------------------------------------------------

  ghost predicate Sized(t: Tabs) {
    && 0 <= t.baseLevel <= 3
    && 1 <= |t.base| <= 512
    && (forall k :: 0 <= k < |t.subs| ==> |t.subs[k]| == 512)
    && (forall s :: s in t.place ==>
          s < |t.subs| && t.baseLevel < t.place[s].level <= 3 && 0 <= t.place[s].num)
  }

  ghost predicate Unique(t: Tabs) {
    forall s, s' :: s in t.place && s' in t.place && s != s' ==>
      t.place[s].level != t.place[s'].level || t.place[s].num != t.place[s'].num
  }

  ghost predicate ChildOk(t: Tabs, r: Ref, i: int)
    requires Slot(t, r, i)
  {
    Row(t, r)[i].Table? ==>
      && At(t, r).level < 3
      && Row(t, r)[i].next in t.place
      && t.place[Row(t, r)[i].next] == Place(At(t, r).level + 1, Num(t, r, i), r)
  }

  ghost predicate Children(t: Tabs) {
    forall r, i {:trigger ChildOk(t, r, i)} :: Slot(t, r, i) ==> ChildOk(t, r, i)
  }

  ghost predicate LinkedBy(t: Tabs, s: nat, p: Place) {
    && Has(t, p.parent)
    && At(t, p.parent).level == p.level - 1
    && 0 <= p.num - 512 * At(t, p.parent).num < |Row(t, p.parent)|
    && Row(t, p.parent)[p.num - 512 * At(t, p.parent).num] == Table(s)
  }

  ghost predicate Parents(t: Tabs) {
    forall s {:trigger LinkedBy(t, s, t.place[s])} :: s in t.place ==> LinkedBy(t, s, t.place[s])
  }

  // The linked tables form a tree rooted in the base table.
  ghost predicate Tree(t: Tabs) {
    Sized(t) && Unique(t) && Children(t) && Parents(t)
  }

  // Entry `e` of a level says about its addresses what `T` says.  A leaf has the
  // output address that lies in the region as far as the address does.
  ghost predicate EntryOk(d: Desc, level: int, e: int, T: Trans) {
    match d
    case Invalid => forall va :: Lo(level, e) <= va < Lo(level, e + 1) ==> va !in T
    case Table(_) => true
    case Block(pa, attr) => 1 <= level < 3 && LeafOk(pa, attr, level, e, T)
    case Page(pa, attr) => level == 3 && LeafOk(pa, attr, level, e, T)
  }

  // The level can map the output address, and the region's granularity allows
  // blocks of that size.
  ghost predicate LeafFits(pa: int, level: int, granularity: int) {
    forall k {:trigger Look(k)} :: Look(k) ==>
      BlockSize(level) > 0 && pa % BlockSize(level) == 0 && (level < 3 ==> BlockSize(level) <= granularity)
  }

  ghost predicate LeafOk(pa: int, attr: bv32, level: int, e: int, T: Trans) {
    && Lo(level, e) in T
    && (forall va :: Lo(level, e) <= va < Lo(level, e + 1) ==> va in T && T[va] == T[Lo(level, e)])
    && pa == T[Lo(level, e)].r.basePa + (Lo(level, e) - T[Lo(level, e)].r.baseVa)
    && attr == T[Lo(level, e)].attr
    && LeafFits(pa, level, T[Lo(level, e)].r.granularity)
  }

  ghost predicate SlotOk(t: Tabs, r: Ref, i: int, T: Trans)
    requires Slot(t, r, i)
  {
    EntryOk(Row(t, r)[i], At(t, r).level, Num(t, r, i), T)
  }

  ghost predicate Agree(t: Tabs, T: Trans) {
    forall r, i {:trigger SlotOk(t, r, i, T)} :: Slot(t, r, i) ==> SlotOk(t, r, i, T)
  }

  // ---- tree structure ------------------------------------------------------

  // The entry that links a table.
  lemma LinkOf(t: Tabs, s: nat) returns (q: Ref, j: int)
    requires Sized(t) && Parents(t) && s in t.place
    ensures Slot(t, q, j) && Row(t, q)[j] == Table(s)
    ensures At(t, q).level == t.place[s].level - 1 && 0 <= At(t, q).level
    ensures Num(t, q, j) == t.place[s].num
    ensures EntryLo(t, q, j) == TableLo(t.place[s].level, t.place[s].num)
    ensures EntryHi(t, q, j) == TableHi(t.place[s].level, t.place[s].num)
  {
    var p := t.place[s];
    assert LinkedBy(t, s, p);
    q := p.parent;
    j := p.num - 512 * At(t, q).num;
  }

  // Every linked table is linked by exactly one entry.
  lemma OneLink(t: Tabs, s: nat)
    requires Tree(t) && s in t.place
    ensures exists r, i :: Links(t, r, i, s) && forall r', i' :: Links(t, r', i', s) ==> r' == r && i' == i
  {
    var q, j := LinkOf(t, s);
    assert Links(t, q, j, s);
    forall r, i | Links(t, r, i, s)
      ensures r == q && i == j
    {
      assert ChildOk(t, r, i) && ChildOk(t, q, j);
    }
  }

  predicate Links(t: Tabs, r: Ref, i: int, s: nat) {
    Slot(t, r, i) && Row(t, r)[i] == Table(s)
  }

  // A table lying inside the range of an entry of a table above it is reached
  // through that entry.
  lemma {:induction false} Ancestor(t: Tabs, r: Ref, i: int, s: nat)
    requires Sized(t) && Unique(t) && Parents(t) && Slot(t, r, i) && s in t.place
    requires At(t, r).level < t.place[s].level
    requires Overlap(EntryLo(t, r, i), EntryHi(t, r, i),
                     TableLo(t.place[s].level, t.place[s].num), TableHi(t.place[s].level, t.place[s].num))
    ensures Row(t, r)[i].Table?
    decreases t.place[s].level
  {
    hide Unique;
    var q, j := LinkOf(t, s);
    LevelBounds(t, r);
    Laminar(At(t, r).level, Num(t, r, i), At(t, q).level, Num(t, q, j));
    if At(t, q).level == At(t, r).level {
      SamePlace(t, q, r, j, i);
    } else {
      UpperRange(t, r, i, q, j);
      Ancestor(t, r, i, q.idx);
    }
  }

  lemma LevelBounds(t: Tabs, r: Ref)
    requires Sized(t) && Has(t, r)
    ensures 0 <= t.baseLevel <= At(t, r).level <= 3
    ensures 0 <= At(t, r).num && |Row(t, r)| <= 512
    ensures r.Base? <==> At(t, r).level == t.baseLevel
  {
  }

  // An entry meeting an entry of an upper table lies in a table meeting it.
  lemma UpperRange(t: Tabs, r: Ref, i: int, q: Ref, j: int)
    requires Sized(t) && Slot(t, r, i) && Slot(t, q, j)
    requires At(t, r).level < At(t, q).level
    requires Overlap(EntryLo(t, r, i), EntryHi(t, r, i), EntryLo(t, q, j), EntryHi(t, q, j))
    ensures q.Sub?
    ensures Overlap(EntryLo(t, r, i), EntryHi(t, r, i),
                    TableLo(At(t, q).level, At(t, q).num), TableHi(At(t, q).level, At(t, q).num))
  {
    LevelBounds(t, r);
    LevelBounds(t, q);
    InTable(At(t, q).level, At(t, q).num, Num(t, q, j));
  }

  // An entry's range lies inside its table's range.
  lemma InTable(level: int, n: int, e: int)
    requires 0 <= level <= 3 && 512 * n <= e < 512 * n + 512
    ensures TableLo(level, n) <= Lo(level, e) < Lo(level, e + 1) <= TableHi(level, n)
  {
    Monotone(level, 512 * n, e);
    Monotone(level, e, e + 1);
    Monotone(level, e + 1, 512 * n + 512);
  }

  // Two slots of one level with the same entry number are the same slot.
  lemma SamePlace(t: Tabs, q: Ref, r: Ref, j: int, i: int)
    requires Sized(t) && Unique(t) && Slot(t, q, j) && Slot(t, r, i)
    requires At(t, q).level == At(t, r).level && Num(t, q, j) == Num(t, r, i)
    ensures q == r && j == i
  {
    LevelBounds(t, q);
    LevelBounds(t, r);
    assert At(t, q).num == At(t, r).num;
  }

  // Two non-table entries whose ranges meet are one and the same entry.
  lemma Exclusive(t: Tabs, r: Ref, i: int, r': Ref, i': int)
    requires Sized(t) && Unique(t) && Parents(t) && Slot(t, r, i) && Slot(t, r', i')
    requires !Row(t, r)[i].Table? && !Row(t, r')[i'].Table?
    requires Overlap(EntryLo(t, r, i), EntryHi(t, r, i), EntryLo(t, r', i'), EntryHi(t, r', i'))
    ensures r == r' && i == i'
  {
    LevelBounds(t, r);
    LevelBounds(t, r');
    if At(t, r).level == At(t, r').level {
      Laminar(At(t, r).level, Num(t, r, i), At(t, r').level, Num(t, r', i'));
      SamePlace(t, r, r', i, i');
    } else if At(t, r).level < At(t, r').level {
      UpperRange(t, r, i, r', i');
      Ancestor(t, r, i, r'.idx);
      assert false;
    } else {
      UpperRange(t, r', i', r, i);
      Ancestor(t, r', i', r.idx);
      assert false;
    }
  }

  // The subtable an entry links covers exactly the entry's range.
  lemma StepTable(t: Tabs, r: Ref, i: int)
    requires Tree(t) && Slot(t, r, i) && Row(t, r)[i].Table?
    ensures At(t, r).level < 3 && Row(t, r)[i].next in t.place && Has(t, Sub(Row(t, r)[i].next))
    ensures At(t, Sub(Row(t, r)[i].next)) == Place(At(t, r).level + 1, Num(t, r, i), r)
    ensures |Row(t, Sub(Row(t, r)[i].next))| == 512
    ensures TableLo(At(t, r).level + 1, Num(t, r, i)) == EntryLo(t, r, i)
    ensures TableHi(At(t, r).level + 1, Num(t, r, i)) == EntryHi(t, r, i)
  {
    assert ChildOk(t, r, i);
    LevelBounds(t, r);
  }

  // ---- changing one entry --------------------------------------------------

  ghost predicate Clean(t: Tabs) {
    forall k {:trigger t.subs[k]} :: 0 <= k < |t.subs| && k !in t.place ==>
      forall i :: 0 <= i < |t.subs[k]| ==> t.subs[k][i] == Invalid
  }

  ghost predicate SameOutside(T: Trans, T': Trans, lo: int, hi: int) {
    forall va :: !(lo <= va < hi) ==>
      (va in T <==> va in T') && (va in T ==> T[va] == T'[va])
  }

  lemma WithRow(t: Tabs, r: Ref, i: int, d: Desc, r': Ref)
    requires Slot(t, r, i) && Has(t, r')
    ensures Has(With(t, r, i, d), r')
    ensures At(With(t, r, i, d), r') == At(t, r')
    ensures Row(With(t, r, i, d), r') == if r' == r then Row(t, r)[i := d] else Row(t, r')
  {
  }

  lemma OtherEntry(d: Desc, level: int, e: int, T: Trans, T': Trans, lo: int, hi: int)
    requires 0 <= level <= 3 && SameOutside(T, T', lo, hi) && EntryOk(d, level, e, T)
    requires !d.Table? ==> !Overlap(lo, hi, Lo(level, e), Lo(level, e + 1))
    requires lo < hi
    ensures EntryOk(d, level, e, T')
  {
    EntryStep(level, e);
  }

  // Writing a leaf or invalid descriptor over a non-table one keeps the tree.
  lemma WriteKeepsTree(t: Tabs, r: Ref, i: int, d: Desc)
    requires Tree(t) && Slot(t, r, i) && !Row(t, r)[i].Table? && !d.Table?
    ensures Tree(With(t, r, i, d))
  {
    var t' := With(t, r, i, d);
    forall r', i' | Slot(t', r', i')
      ensures ChildOk(t', r', i')
    {
      WriteChildAt(t, r, i, d, r', i');
    }
    forall s {:trigger LinkedBy(t', s, t'.place[s])} | s in t'.place
      ensures LinkedBy(t', s, t'.place[s])
    {
      WriteParentAt(t, r, i, d, s);
    }
  }

  lemma WriteChildAt(t: Tabs, r: Ref, i: int, d: Desc, r': Ref, i': int)
    requires Tree(t) && Slot(t, r, i) && !Row(t, r)[i].Table? && !d.Table? && Slot(With(t, r, i, d), r', i')
    ensures ChildOk(With(t, r, i, d), r', i')
  {
    WithRow(t, r, i, d, r');
    assert ChildOk(t, r', i');
  }

  lemma WriteParentAt(t: Tabs, r: Ref, i: int, d: Desc, s: nat)
    requires Tree(t) && Slot(t, r, i) && !Row(t, r)[i].Table? && !d.Table? && s in t.place
    ensures LinkedBy(With(t, r, i, d), s, t.place[s])
  {
    assert LinkedBy(t, s, t.place[s]);
    WithRow(t, r, i, d, t.place[s].parent);
  }

  // ... and describes the new translation when the new descriptor does.
  lemma WriteAgrees(t: Tabs, r: Ref, i: int, d: Desc, T: Trans, T': Trans)
    requires Tree(t) && Slot(t, r, i) && !Row(t, r)[i].Table? && !d.Table?
    requires Agree(t, T) && SameOutside(T, T', EntryLo(t, r, i), EntryHi(t, r, i))
    requires EntryOk(d, At(t, r).level, Num(t, r, i), T')
    ensures Agree(With(t, r, i, d), T')
  {
    var t' := With(t, r, i, d);
    forall r', i' | Slot(t', r', i')
      ensures SlotOk(t', r', i', T')
    {
      WithRow(t, r, i, d, r');
      WriteAgreesAt(t, r, i, d, T, T', r', i');
    }
  }

  lemma WriteAgreesAt(t: Tabs, r: Ref, i: int, d: Desc, T: Trans, T': Trans, r': Ref, i': int)
    requires Tree(t) && Slot(t, r, i) && !Row(t, r)[i].Table? && !d.Table?
    requires Agree(t, T) && SameOutside(T, T', EntryLo(t, r, i), EntryHi(t, r, i))
    requires EntryOk(d, At(t, r).level, Num(t, r, i), T')
    requires Slot(t, r', i')
    ensures Slot(With(t, r, i, d), r', i') && SlotOk(With(t, r, i, d), r', i', T')
  {
    var t' := With(t, r, i, d);
    WithRow(t, r, i, d, r');
    assert Num(t', r', i') == Num(t, r', i');
    if r' == r && i' == i {
      assert Row(t', r')[i'] == d;
    } else {
      assert Row(t', r')[i'] == Row(t, r')[i'];
      OtherSlot(t, r, i, T, T', r', i');
    }
  }

  lemma OtherSlot(t: Tabs, r: Ref, i: int, T: Trans, T': Trans, r': Ref, i': int)
    requires Tree(t) && Slot(t, r, i) && !Row(t, r)[i].Table?
    requires Agree(t, T) && SameOutside(T, T', EntryLo(t, r, i), EntryHi(t, r, i))
    requires Slot(t, r', i') && (r' != r || i' != i)
    ensures EntryOk(Row(t, r')[i'], At(t, r').level, Num(t, r', i'), T')
  {
    hide Lo;
    LevelBounds(t, r);
    LevelBounds(t, r');
    EntryStep(At(t, r).level, Num(t, r, i));
    var d' := Row(t, r')[i'];
    assert SlotOk(t, r', i', T);
    if !d'.Table? && Overlap(EntryLo(t, r, i), EntryHi(t, r, i), EntryLo(t, r', i'), EntryHi(t, r', i')) {
      Exclusive(t, r, i, r', i');
      assert false;
    }
    OtherEntry(d', At(t, r').level, Num(t, r', i'), T, T', EntryLo(t, r, i), EntryHi(t, r, i));
  }

  // ---- linking a fresh table -----------------------------------------------

  function Link(t: Tabs, r: Ref, i: int, s: nat): Tabs
    requires Slot(t, r, i)
  {
    With(t, r, i, Table(s)).(place := t.place[s := Place(At(t, r).level + 1, Num(t, r, i), r)])
  }

  ghost predicate Linkable(t: Tabs, r: Ref, i: int, s: nat) {
    && Tree(t) && Slot(t, r, i) && Row(t, r)[i] == Invalid && At(t, r).level < 3
    && s !in t.place && s < |t.subs| && (forall k :: 0 <= k < |t.subs[s]| ==> t.subs[s][k] == Invalid)
  }

  lemma LinkRow(t: Tabs, r: Ref, i: int, s: nat, r': Ref)
    requires Linkable(t, r, i, s) && Has(Link(t, r, i, s), r')
    ensures r' != Sub(s) ==>
      Has(t, r') && At(Link(t, r, i, s), r') == At(t, r') &&
      Row(Link(t, r, i, s), r') == if r' == r then Row(t, r)[i := Table(s)] else Row(t, r')
    ensures r' == Sub(s) ==>
      At(Link(t, r, i, s), r') == Place(At(t, r).level + 1, Num(t, r, i), r) &&
      Row(Link(t, r, i, s), r') == t.subs[s]
  {
  }

  lemma LinkUnique(t: Tabs, r: Ref, i: int, s: nat)
    requires Linkable(t, r, i, s)
    ensures Sized(Link(t, r, i, s)) && Unique(Link(t, r, i, s))
  {
    var t' := Link(t, r, i, s);
    LevelBounds(t, r);
    forall k | k in t.place && t.place[k].level == At(t, r).level + 1 && t.place[k].num == Num(t, r, i)
      ensures false
    {
      var q, j := LinkOf(t, k);
      SamePlace(t, q, r, j, i);
    }
  }

  lemma LinkChildAt(t: Tabs, r: Ref, i: int, s: nat, r': Ref, i': int)
    requires Linkable(t, r, i, s) && Slot(Link(t, r, i, s), r', i')
    ensures ChildOk(Link(t, r, i, s), r', i')
  {
    var t' := Link(t, r, i, s);
    LinkRow(t, r, i, s, r');
    if r' == Sub(s) {
      assert Row(t', r')[i'] == Invalid;
    } else if r' == r && i' == i {
      assert Row(t', r')[i'] == Table(s);
      assert Num(t', r', i') == Num(t, r, i);
    } else {
      assert ChildOk(t, r', i');
      assert Row(t', r')[i'] == Row(t, r')[i'];
      assert Num(t', r', i') == Num(t, r', i');
    }
  }

  lemma LinkParentAt(t: Tabs, r: Ref, i: int, s: nat, k: nat)
    requires Linkable(t, r, i, s) && k in Link(t, r, i, s).place
    ensures LinkedBy(Link(t, r, i, s), k, Link(t, r, i, s).place[k])
  {
    var t' := Link(t, r, i, s);
    var p := t'.place[k];
    if k == s {
      LinkRow(t, r, i, s, r);
    } else {
      assert p == t.place[k];
      assert LinkedBy(t, k, t.place[k]);
      LinkRow(t, r, i, s, p.parent);
    }
  }

  lemma LinkKeepsTree(t: Tabs, r: Ref, i: int, s: nat)
    requires Linkable(t, r, i, s)
    ensures Tree(Link(t, r, i, s))
  {
    var t' := Link(t, r, i, s);
    LinkUnique(t, r, i, s);
    forall r', i' | Slot(t', r', i')
      ensures ChildOk(t', r', i')
    {
      LinkChildAt(t, r, i, s, r', i');
    }
    forall k | k in t'.place
      ensures LinkedBy(t', k, t'.place[k])
    {
      LinkParentAt(t, r, i, s, k);
    }
  }

  lemma LinkAgreesAt(t: Tabs, r: Ref, i: int, s: nat, T: Trans, r': Ref, i': int)
    requires Linkable(t, r, i, s) && Agree(t, T) && Slot(Link(t, r, i, s), r', i')
    ensures SlotOk(Link(t, r, i, s), r', i', T)
  {
    if r' == Sub(s) {
      NewRowAgrees(t, r, i, s, T, i');
    } else {
      OldRowAgrees(t, r, i, s, T, r', i');
    }
  }

  // The new table is empty, and so was the entry that links it now.
  lemma NewRowAgrees(t: Tabs, r: Ref, i: int, s: nat, T: Trans, i': int)
    requires Linkable(t, r, i, s) && Agree(t, T) && Slot(Link(t, r, i, s), Sub(s), i')
    ensures SlotOk(Link(t, r, i, s), Sub(s), i', T)
  {
    hide Children, Parents, Unique, LeafOk;
    var t' := Link(t, r, i, s);
    LinkRow(t, r, i, s, Sub(s));
    LevelBounds(t, r);
    assert SlotOk(t, r, i, T);
    assert Row(t', Sub(s))[i'] == Invalid;
    var l, e := At(t, r).level, Num(t, r, i);
    InTable(l + 1, e, 512 * e + i');
    assert TableLo(l + 1, e) == Lo(l, e) && TableHi(l + 1, e) == Lo(l, e + 1);
  }

  lemma OldRowAgrees(t: Tabs, r: Ref, i: int, s: nat, T: Trans, r': Ref, i': int)
    requires Linkable(t, r, i, s) && Agree(t, T) && Slot(Link(t, r, i, s), r', i') && r' != Sub(s)
    ensures SlotOk(Link(t, r, i, s), r', i', T)
  {
    hide Children, Parents, Unique, LeafOk, Lo;
    var t' := Link(t, r, i, s);
    LinkRow(t, r, i, s, r');
    if r' == r && i' == i {
      assert Row(t', r')[i'] == Table(s);
    } else {
      assert SlotOk(t, r', i', T);
      assert Row(t', r')[i'] == Row(t, r')[i'];
      assert Num(t', r', i') == Num(t, r', i');
    }
  }

  lemma LinkAgrees(t: Tabs, r: Ref, i: int, s: nat, T: Trans)
    requires Linkable(t, r, i, s) && Agree(t, T)
    ensures Agree(Link(t, r, i, s), T)
  {
    var t' := Link(t, r, i, s);
    forall r', i' | Slot(t', r', i')
      ensures SlotOk(t', r', i', T)
    {
      LinkAgreesAt(t, r, i, s, T, r', i');
    }
  }

  lemma LinkKeepsClean(t: Tabs, r: Ref, i: int, s: nat)
    requires Linkable(t, r, i, s) && Clean(t)
    ensures Clean(Link(t, r, i, s))
  {
  }

  // ---- unlinking a table ---------------------------------------------------

  // Table `p` lies inside the range of table `n` of a level.
  predicate Inside(p: Place, level: int, n: int) {
    p.level >= level && TableLo(level, n) <= TableLo(p.level, p.num) < TableHi(level, n)
  }

  // Clears the entry and drops the table below it with everything under it.
  function Unlink(t: Tabs, r: Ref, i: int): Tabs
    requires Slot(t, r, i)
  {
    With(t, r, i, Invalid).(place := map s | s in t.place && !Inside(t.place[s], At(t, r).level + 1, Num(t, r, i)) ::
      t.place[s])
  }

  ghost predicate Unlinkable(t: Tabs, r: Ref, i: int) {
    Tree(t) && Slot(t, r, i) && Row(t, r)[i].Table? && At(t, r).level < 3
  }

  lemma UnlinkRow(t: Tabs, r: Ref, i: int, r': Ref)
    requires Unlinkable(t, r, i) && Has(Unlink(t, r, i), r')
    ensures Has(t, r') && At(Unlink(t, r, i), r') == At(t, r')
    ensures Row(Unlink(t, r, i), r') == if r' == r then Row(t, r)[i := Invalid] else Row(t, r')
  {
  }

  // The table holding the cleared entry is not itself below it.
  lemma NotInside(t: Tabs, r: Ref, i: int)
    requires Unlinkable(t, r, i)
    ensures Has(Unlink(t, r, i), r)
  {
  }

  // A table that is not below the entry is linked by a table that is not either.
  lemma KeptParent(t: Tabs, r: Ref, i: int, s: nat)
    requires Unlinkable(t, r, i) && s in Unlink(t, r, i).place
    ensures Has(Unlink(t, r, i), t.place[s].parent)
    ensures t.place[s].parent == r ==> t.place[s].num != Num(t, r, i)
  {
    hide Lo;
    var q, j := LinkOf(t, s);
    LevelBounds(t, r);
    assert LinkedBy(t, s, t.place[s]);
    if q.Sub? && Inside(t.place[q.idx], At(t, r).level + 1, Num(t, r, i)) {
      BelowInside(t, q, j, s, At(t, r).level, Num(t, r, i));
    }
    if q == r && t.place[s].num == Num(t, r, i) {
      Monotone(At(t, r).level, Num(t, r, i), Num(t, r, i) + 1);
    }
  }

  // A table linked by one below the entry is below the entry as well.
  lemma BelowInside(t: Tabs, q: Ref, j: int, s: nat, l: int, e: int)
    requires Sized(t) && Slot(t, q, j) && q.Sub? && s in t.place && 0 <= l
    requires At(t, q).level == t.place[s].level - 1 && Num(t, q, j) == t.place[s].num
    requires Inside(t.place[q.idx], l + 1, e)
    ensures Inside(t.place[s], l + 1, e)
  {
    InTable(At(t, q).level, At(t, q).num, Num(t, q, j));
    InsideStep(l, e, t.place[q.idx], t.place[s]);
  }

  lemma InsideStep(l: int, e: int, p: Place, c: Place)
    requires 0 <= l < p.level < c.level <= 3
    requires TableLo(p.level, p.num) <= TableLo(c.level, c.num) < TableHi(p.level, p.num)
    requires Inside(p, l + 1, e)
    ensures Inside(c, l + 1, e)
  {
    assert TableLo(l + 1, e) == Lo(l, e) && TableHi(l + 1, e) == Lo(l, e + 1);
    assert TableLo(p.level, p.num) == Lo(p.level - 1, p.num) && TableHi(p.level, p.num) == Lo(p.level - 1, p.num + 1);
    Monotone(p.level - 1, p.num, p.num + 1);
    Laminar(l, e, p.level - 1, p.num);
  }

  lemma UnlinkChildAt(t: Tabs, r: Ref, i: int, r': Ref, i': int)
    requires Unlinkable(t, r, i) && Slot(Unlink(t, r, i), r', i')
    ensures ChildOk(Unlink(t, r, i), r', i')
  {
    var t' := Unlink(t, r, i);
    UnlinkRow(t, r, i, r');
    if r' == r && i' == i {
      assert Row(t', r')[i'] == Invalid;
    } else {
      assert ChildOk(t, r', i');
      assert Row(t', r')[i'] == Row(t, r')[i'];
      assert Num(t', r', i') == Num(t, r', i');
      if Row(t, r')[i'].Table? {
        KeptChild(t, r, i, r', i');
      }
    }
  }

  // A table linked by a kept table through another entry is kept.
  lemma KeptChild(t: Tabs, r: Ref, i: int, r': Ref, i': int)
    requires Unlinkable(t, r, i) && Slot(t, r', i') && Has(Unlink(t, r, i), r')
    requires (r' != r || i' != i) && Row(t, r')[i'].Table?
    ensures ChildOk(t, r', i') && Row(t, r')[i'].next in Unlink(t, r, i).place
  {
    hide Sized;
    assert ChildOk(t, r', i');
    var s := Row(t, r')[i'].next;
    var l, e := At(t, r).level, Num(t, r, i);
    LevelBounds(t, r);
    LevelBounds(t, r');
    if Inside(t.place[s], l + 1, e) {
      OutsideStep(l, e, At(t, r'), Num(t, r', i'));
      if At(t, r').level == l {
        SamePlace(t, r', r, i', i);
      } else {
        assert false;
      }
    }
  }

  // If the table below entry `c` of table `p` is inside the table below entry
  // `e`, then it is that table or `p` is inside it as well.
  lemma OutsideStep(l: int, e: int, p: Place, c: int)
    requires 0 <= l < 3 && 0 <= p.level < 3 && 512 * p.num <= c < 512 * p.num + 512
    requires Inside(Place(p.level + 1, c, Base), l + 1, e)
    ensures p.level >= l
    ensures p.level == l ==> c == e
    ensures p.level > l ==> Inside(p, l + 1, e)
  {
    assert TableLo(l + 1, e) == Lo(l, e) && TableHi(l + 1, e) == Lo(l, e + 1);
    assert TableLo(p.level + 1, c) == Lo(p.level, c);
    Monotone(p.level, c, c + 1);
    Laminar(l, e, p.level, c);
    if p.level > l {
      InTable(p.level, p.num, c);
      assert TableLo(p.level, p.num) == Lo(p.level - 1, p.num) && TableHi(p.level, p.num) == Lo(p.level - 1, p.num + 1);
      Laminar(l, e, p.level - 1, p.num);
      Monotone(p.level - 1, p.num, p.num + 1);
    }
  }

  lemma UnlinkParentAt(t: Tabs, r: Ref, i: int, s: nat)
    requires Unlinkable(t, r, i) && s in Unlink(t, r, i).place
    ensures LinkedBy(Unlink(t, r, i), s, Unlink(t, r, i).place[s])
  {
    var t' := Unlink(t, r, i);
    var p := t.place[s];
    assert LinkedBy(t, s, p);
    KeptParent(t, r, i, s);
    UnlinkRow(t, r, i, p.parent);
  }

  lemma UnlinkKeepsTree(t: Tabs, r: Ref, i: int)
    requires Unlinkable(t, r, i)
    ensures Tree(Unlink(t, r, i))
  {
    var t' := Unlink(t, r, i);
    forall r', i' | Slot(t', r', i')
      ensures ChildOk(t', r', i')
    {
      UnlinkChildAt(t, r, i, r', i');
    }
    forall s | s in t'.place
      ensures LinkedBy(t', s, t'.place[s])
    {
      UnlinkParentAt(t, r, i, s);
    }
  }

  lemma UnlinkAgreesAt(t: Tabs, r: Ref, i: int, T: Trans, r': Ref, i': int)
    requires Unlinkable(t, r, i) && Agree(t, T) && Slot(Unlink(t, r, i), r', i')
    requires forall va :: EntryLo(t, r, i) <= va < EntryHi(t, r, i) ==> va !in T
    ensures SlotOk(Unlink(t, r, i), r', i', T)
  {
    var t' := Unlink(t, r, i);
    UnlinkRow(t, r, i, r');
    assert Num(t', r', i') == Num(t, r', i');
    if r' == r && i' == i {
      assert Row(t', r')[i'] == Invalid;
    } else {
      assert SlotOk(t, r', i', T);
      assert Row(t', r')[i'] == Row(t, r')[i'];
    }
  }

  lemma UnlinkAgrees(t: Tabs, r: Ref, i: int, T: Trans)
    requires Unlinkable(t, r, i) && Agree(t, T)
    requires forall va :: EntryLo(t, r, i) <= va < EntryHi(t, r, i) ==> va !in T
    ensures Agree(Unlink(t, r, i), T)
  {
    var t' := Unlink(t, r, i);
    forall r', i' | Slot(t', r', i')
      ensures SlotOk(t', r', i', T)
    {
      UnlinkAgreesAt(t, r, i, T, r', i');
    }
  }
}

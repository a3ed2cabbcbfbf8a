/**
 The translation table walk, and its agreement with the abstract translation.
 */
module Walk {
  import opened Geometry
  import opened Options
  import opened Tables

  datatype Hit = Hit(r: Ref, i: int, level: int)

  // Index of an address in a table of the given level.
  function TableIndex(va: int, level: int): int {
    BlockSizePositive(level);
    (va / BlockSize(level)) % 512
  }

  function WalkFrom(t: Tabs, r: Ref, level: int, va: int): Option<Hit>
    requires Tree(t) && Has(t, r) && At(t, r).level == level
    decreases 3 - level
  {
    LevelBounds(t, r);
    var idx := TableIndex(va, level);
    if idx >= |Row(t, r)| then None
    else
      assert ChildOk(t, r, idx);
      var d := Row(t, r)[idx];
      if DescType(d) == INVALID_DESC then None
      else if level == 3 || DescType(d) == BLOCK_DESC then Some(Hit(r, idx, level))
      else if d.Table? then WalkFrom(t, Sub(d.next), level + 1, va)
      else None  // a page descriptor above level 3, which Agree rules out
  }

  function Find(t: Tabs, va: int): Option<Hit>
    requires Tree(t)
  {
    WalkFrom(t, Base, t.baseLevel, va)
  }

  // Size of the address range over which table indexes do not repeat.
  function Span(t: Tabs): int { 512 * BlockSize(t.baseLevel) }

  lemma IndexInTable(level: int, n: int, va: int)
    requires 0 <= level <= 3 && TableLo(level, n) <= va < TableHi(level, n)
    ensures 0 <= TableIndex(va, level) < 512
    ensures Lo(level, 512 * n + TableIndex(va, level)) <= va < Lo(level, 512 * n + TableIndex(va, level) + 1)
  {
    var i := TableIndex(va, level);
    Values(level, 512 * n);
    Values(level, 512 * n + 512);
    Values(level, 512 * n + i);
    Values(level, 512 * n + i + 1);
    if level == 0 { IndexFacts(va, n, 0x80_0000_0000); }
    else if level == 1 { IndexFacts(va, n, 0x4000_0000); }
    else if level == 2 { IndexFacts(va, n, 0x20_0000); }
    else { IndexFacts(va, n, 0x1000); }
  }

  lemma IndexFacts(va: int, n: int, b: int)
    requires b > 0 && 512 * n * b <= va < (512 * n + 512) * b
    ensures 0 <= (va / b) % 512 < 512
    ensures (512 * n + (va / b) % 512) * b <= va < (512 * n + (va / b) % 512 + 1) * b
  {
    var q := va / b;
    assert q * b <= va < (q + 1) * b;
    Between(512 * n, q, 512 * n + 512, b);
    assert q == 512 * n + q % 512;
  }

  ghost predicate HitOk(t: Tabs, h: Hit, va: int, T: Trans) {
    && Slot(t, h.r, h.i) && At(t, h.r).level == h.level
    && EntryLo(t, h.r, h.i) <= va < EntryHi(t, h.r, h.i)
    && (if h.level == 3 then Row(t, h.r)[h.i].Page? else Row(t, h.r)[h.i].Block?)
    && SlotOk(t, h.r, h.i, T)
  }

  // The entry a walk reads is the one whose range holds the address.
  lemma StepEntry(t: Tabs, r: Ref, va: int)
    requires Sized(t) && Has(t, r)
    requires TableLo(At(t, r).level, At(t, r).num) <= va < Lo(At(t, r).level, 512 * At(t, r).num + |Row(t, r)|)
    ensures Slot(t, r, TableIndex(va, At(t, r).level))
    ensures EntryLo(t, r, TableIndex(va, At(t, r).level)) <= va < EntryHi(t, r, TableIndex(va, At(t, r).level))
  {
    LevelBounds(t, r);
    var p := At(t, r);
    Monotone(p.level, 512 * p.num + |Row(t, r)|, 512 * p.num + 512);
    IndexInTable(p.level, p.num, va);
    Monotone(p.level, 512 * p.num + TableIndex(va, p.level), 512 * p.num + |Row(t, r)|);
  }

  // The walk below a table finds a leaf exactly for the mapped addresses, and
  // the leaf it finds is the one describing the address.
  lemma {:induction false} WalkAgrees(t: Tabs, r: Ref, va: int, T: Trans)
    requires Tree(t) && Agree(t, T) && Has(t, r)
    requires TableLo(At(t, r).level, At(t, r).num) <= va < Lo(At(t, r).level, 512 * At(t, r).num + |Row(t, r)|)
    ensures WalkFrom(t, r, At(t, r).level, va).Some? <==> va in T
    ensures va in T ==> HitOk(t, WalkFrom(t, r, At(t, r).level, va).value, va, T)
    decreases 3 - At(t, r).level
  {
    hide Lo, BlockSize, LeafFits;
    LevelBounds(t, r);
    StepEntry(t, r, va);
    var idx := TableIndex(va, At(t, r).level);
    assert SlotOk(t, r, idx, T);
    if Row(t, r)[idx].Table? {
      StepTable(t, r, idx);
      WalkAgrees(t, Sub(Row(t, r)[idx].next), va, T);
    }
  }

  // A base table shorter than a full table leaves the addresses past its end
  // unmapped, and addresses past the span repeat those below it.
  lemma FindAgrees(t: Tabs, va: int, T: Trans)
    requires Tree(t) && Agree(t, T) && 0 <= va
    requires forall a :: a in T ==> 0 <= a < Lo(t.baseLevel, |t.base|)
    ensures Span(t) > 0
    ensures Find(t, va).Some? <==> va % Span(t) in T
    ensures Find(t, va).Some? ==> HitOk(t, Find(t, va).value, va % Span(t), T)
  {
    BlockSizePositive(t.baseLevel);
    var a := va % Span(t);
    SpanRange(t.baseLevel, va);
    Alias(t, Base, va);
    if a < Lo(t.baseLevel, |t.base|) {
      WalkAgrees(t, Base, a, T);
    } else {
      IndexInTable(t.baseLevel, 0, a);
      Monotone(t.baseLevel, TableIndex(a, t.baseLevel) + 1, |t.base|);
    }
  }

  lemma SpanRange(level: int, va: int)
    requires 0 <= level <= 3
    ensures BlockSize(level) > 0
    ensures TableLo(level, 0) == 0 && TableHi(level, 0) == 512 * BlockSize(level)
    ensures 0 <= va % (512 * BlockSize(level)) < TableHi(level, 0)
  {
    Values(level, 0);
    Values(level, 512);
  }

  lemma SameIndex(level: int, base: int, va: int)
    requires 0 <= base <= level <= 3
    ensures BlockSize(base) > 0
    ensures TableIndex(va, level) == TableIndex(va % (512 * BlockSize(base)), level)
    decreases level - base
  {
    BlockSizePositive(base);
    Values(level, 0);
    Values(base, 0);
    IndexPeriod(level, va);
    if base < level {
      SameIndex(level, base + 1, va);
      SameIndex(level, base + 1, va % (512 * BlockSize(base)));
      ModMod(va, 512, 512 * BlockSize(base + 1));
    }
  }

  lemma IndexPeriod(level: int, va: int)
    requires 0 <= level <= 3
    ensures BlockSize(level) > 0
    ensures TableIndex(va, level) == TableIndex(va % (512 * BlockSize(level)), level)
  {
    Values(level, 0);
    if level == 0 { Period(va, 0x80_0000_0000); }
    else if level == 1 { Period(va, 0x4000_0000); }
    else if level == 2 { Period(va, 0x20_0000); }
    else { Period(va, 0x1000); }
  }

  lemma Period(va: int, b: int)
    requires b > 0
    ensures (va / b) % 512 == ((va % (512 * b)) / b) % 512
  {
    var q := va / (512 * b);
    var rest := va % (512 * b);
    assert va == rest + (512 * q) * b;
    DivShift(rest, 512 * q, b);
    assert (rest / b + 512 * q) % 512 == (rest / b) % 512;
  }

  lemma DivShift(x: int, k: int, b: int)
    requires b > 0
    ensures (x + k * b) / b == x / b + k
  {
    var q := x / b;
    assert q * b <= x < q * b + b;
    var y := x + k * b;
    assert (q + k) * b == q * b + k * b;
    QuotientIs(y, q + k, b);
  }

  lemma ModMod(va: int, k: int, m: int)
    requires k > 0 && m > 0
    ensures k * m > 0 && (va % (k * m)) % m == va % m
  {
    assert k * m > 0;
    var q := va / (k * m);
    var rest := va % (k * m);
    assert va == rest + q * (k * m);
    assert q * (k * m) == (q * k) * m;
    DivShift(rest, q * k, m);
    assert va / m == rest / m + q * k;
    assert (rest / m + q * k) * m == (rest / m) * m + (q * k) * m;
  }

  lemma {:induction false} Alias(t: Tabs, r: Ref, va: int)
    requires Tree(t) && Has(t, r)
    ensures Span(t) > 0
    ensures WalkFrom(t, r, At(t, r).level, va) == WalkFrom(t, r, At(t, r).level, va % Span(t))
    decreases 3 - At(t, r).level
  {
    hide Unique, Parents;
    LevelBounds(t, r);
    BlockSizePositive(t.baseLevel);
    var l := At(t, r).level;
    SameIndex(l, t.baseLevel, va);
    var idx := TableIndex(va, l);
    if idx < |Row(t, r)| && Row(t, r)[idx].Table? && l < 3 {
      assert ChildOk(t, r, idx);
      Alias(t, Sub(Row(t, r)[idx].next), va);
    }
  }
}

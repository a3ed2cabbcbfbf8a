/**
 Changing the attributes of a run of pages: what one page's rewrite does to the
 tables, to the translation and to the trace, and what a run of them adds up to.
 */
module AttributeChange {
  import opened Geometry
  import opened Tables
  import opened Mapping
  import opened Walk
  import opened TableState
  import opened BreakBeforeMake
  import opened Descriptor

  // `n` pages from `base` on.  Tables only tell addresses apart up to `span`.
  datatype Request = Request(base: int, n: int, span: int, regime: Regime, attr: bv32)

  predicate ValidRequest(Q: Request) {
    0 <= Q.base && Q.base % 0x1000 == 0 && 0 <= Q.n && 0 < Q.span && Q.span % 0x1000 == 0
  }

  // The address of a page, and where the tables describe it.
  function PageAt(base: int, k: int): int { base + k * 0x1000 }

  function PageVa(Q: Request, k: int): int { PageAt(Q.base, k) }

  function PageLo(Q: Request, k: int): int
    requires 0 < Q.span
  {
    PageVa(Q, k) % Q.span
  }

  predicate InPage(Q: Request, k: int, va: int)
    requires 0 < Q.span
  {
    PageLo(Q, k) <= va < PageLo(Q, k) + 0x1000
  }

  // One of the first `n` pages holds the address.
  ghost predicate InPages(Q: Request, n: int, va: int)
    requires 0 < Q.span
  {
    exists k :: 0 <= k < n && InPage(Q, k, va)
  }

  lemma PageInSpan(Q: Request, k: int)
    requires ValidRequest(Q) && 0 <= k
    ensures PageVa(Q, k) < Q.span <==> PageLo(Q, k) == PageVa(Q, k)
  {
    SmallMod(PageVa(Q, k), Q.span);
  }

  lemma PageLoAligned(Q: Request, k: int)
    requires ValidRequest(Q) && 0 <= k
    ensures PageLo(Q, k) % 0x1000 == 0
  {
    var a, b := Q.base / 0x1000 + k, Q.span / 0x1000;
    assert PageVa(Q, k) == a * 0x1000 && Q.span == b * 0x1000;
    AlignedMod(a, b);
  }

  lemma SmallMod(x: int, m: int)
    requires 0 <= x && 0 < m
    ensures x < m <==> x % m == x
  {
  }

  lemma AlignedMod(a: int, b: int)
    requires 0 < b
    ensures ((a * 0x1000) % (b * 0x1000)) % 0x1000 == 0
  {
    var q := (a * 0x1000) / (b * 0x1000);
    var rest := (a * 0x1000) % (b * 0x1000);
    assert rest == a * 0x1000 - q * (b * 0x1000);
    assert q * (b * 0x1000) == (q * b) * 0x1000;
    assert rest == (a - q * b) * 0x1000;
  }

  // A run within the span is one range of addresses.
  lemma PagesInSpan(Q: Request, va: int)
    requires ValidRequest(Q) && Q.base + Q.n * 0x1000 <= Q.span
    ensures InPages(Q, Q.n, va) <==> Q.base <= va < Q.base + Q.n * 0x1000
  {
    if Q.base <= va < Q.base + Q.n * 0x1000 {
      var k := (va - Q.base) / 0x1000;
      PageInSpan(Q, k);
      assert InPage(Q, k, va);
    }
    if InPages(Q, Q.n, va) {
      var k :| 0 <= k < Q.n && InPage(Q, k, va);
      PageInSpan(Q, k);
    }
  }

  function Updated(regime: Regime, was: bv32, attr: bv32): bv32 {
    Changed(Effective(regime, was), attr)
  }

  // T after the first `n` pages of a request have been changed: no address gains,
  // loses or changes its mapping, and only those pages change attributes.
  ghost predicate Rewrote(T0: Trans, T: Trans, Q: Request, n: int)
    requires 0 < Q.span
  {
    forall va {:trigger T[va]} {:trigger T0[va]} ::
      && (va in T <==> va in T0)
      && (va in T ==> T[va].r == T0[va].r)
      && (va in T ==> T[va].attr == if InPages(Q, n, va) then Updated(Q.regime, T0[va].attr, Q.attr) else T0[va].attr)
  }

  ghost function Retouch(T: Trans, p: int, regime: Regime, attr: bv32): Trans {
    imap va | va in T :: if p <= va < p + 0x1000 then Own(T[va].r, Updated(regime, T[va].attr, attr)) else T[va]
  }

  lemma RewroteNext(T0: Trans, T: Trans, Q: Request, n: int)
    requires ValidRequest(Q) && 0 <= n && Rewrote(T0, T, Q, n)
    ensures Rewrote(T0, Retouch(T, PageLo(Q, n), Q.regime, Q.attr), Q, n + 1)
  {
    var U := Retouch(T, PageLo(Q, n), Q.regime, Q.attr);
    forall va
      ensures va in U <==> va in T0
      ensures va in U ==> U[va].r == T0[va].r
      ensures va in U ==> U[va].attr == if InPages(Q, n + 1, va) then Updated(Q.regime, T0[va].attr, Q.attr)
        else T0[va].attr
    {
      assert va in T <==> va in T0;
      MorePages(Q, n, va);
      if va in T && InPages(Q, n, va) {
        ChangeTwice(Q.regime, T0[va].attr, Q.attr);
      }
    }
  }

  lemma MorePages(Q: Request, n: int, va: int)
    requires 0 < Q.span && 0 <= n
    ensures InPages(Q, n + 1, va) <==> InPages(Q, n, va) || InPage(Q, n, va)
  {
  }

  // ---- the type of a descriptor --------------------------------------------

  // The type bits that the mapper looks at are those of the 64 bits.
  lemma LeafType(regime: Regime, bti: bool, attr: bv32, pa: bv64, pa': int, level: int)
    requires OutputAddress(pa) && 1 <= level <= 3
    ensures (XlatDesc(regime, bti, attr, pa, level) & 3) as int == DescType(LeafDesc(attr, pa', level))
  {
    TypeAndShareability(regime, bti, attr, pa, level);
  }

  // ---- one page ------------------------------------------------------------

  function NewPage(d: Desc, regime: Regime, attr: bv32): Desc
    requires d.Page?
  {
    Page(d.pa, Updated(regime, d.attr, attr))
  }

  // The walk ends at a page descriptor.
  ghost predicate PageMapped(t: Tabs, va: int) {
    && Tree(t) && Find(t, va).Some?
    && var h := Find(t, va).value;
       h.level == 3 && Slot(t, h.r, h.i) && Row(t, h.r)[h.i].Page?
  }

  // Writing a page descriptor over another leaves every walk as it was.
  lemma {:induction false} SameWalk(t: Tabs, r: Ref, i: int, d: Desc, q: Ref, va: int)
    requires Tree(t) && Slot(t, r, i) && Row(t, r)[i].Page? && d.Page? && Has(t, q) && Tree(With(t, r, i, d))
    ensures Has(With(t, r, i, d), q) && At(With(t, r, i, d), q) == At(t, q)
    ensures WalkFrom(With(t, r, i, d), q, At(t, q).level, va) == WalkFrom(t, q, At(t, q).level, va)
    decreases 3 - At(t, q).level
  {
    hide BlockSize, Sized, Unique;
    WithRow(t, r, i, d, q);
    LevelBounds(t, q);
    BlockSizePositive(At(t, q).level);
    var idx, level, t' := TableIndex(va, At(t, q).level), At(t, q).level, With(t, r, i, d);
    if idx < |Row(t, q)| {
      var was, now := Row(t, q)[idx], Row(t', q)[idx];
      assert now == was || (now.Page? && was.Page?);
      if was.Table? {
        StepTable(t, q, idx);
        SameWalk(t, r, i, d, Sub(was.next), va);
        assert WalkFrom(t, q, level, va) == WalkFrom(t, Sub(was.next), level + 1, va);
        assert WalkFrom(t', q, level, va) == WalkFrom(t', Sub(was.next), level + 1, va);
      }
    }
  }

  lemma StillMapped(t: Tabs, r: Ref, i: int, d: Desc, va: int)
    requires Tree(t) && Slot(t, r, i) && Row(t, r)[i].Page? && d.Page? && Tree(With(t, r, i, d)) && PageMapped(t, va)
    ensures PageMapped(With(t, r, i, d), va)
  {
    SameWalk(t, r, i, d, Base, va);
    WithRow(t, r, i, d, Find(t, va).value.r);
  }

  // The rewrite of one page's descriptor.
  lemma RetouchAgrees(t: Tabs, r: Ref, i: int, T: Trans, regime: Regime, attr: bv32)
    requires Tree(t) && Agree(t, T) && Slot(t, r, i) && Row(t, r)[i].Page?
    ensures var d := NewPage(Row(t, r)[i], regime, attr);
      Tree(With(t, r, i, d)) && Agree(With(t, r, i, d), Retouch(T, EntryLo(t, r, i), regime, attr))
    ensures EntryHi(t, r, i) == EntryLo(t, r, i) + 0x1000
  {
    hide Lo, Agree, EntryOk, SameOutside, Children, Parents, Unique, Retouch;
    LevelBounds(t, r);
    PageEntry(t, r, i, T);
    RetouchEntry(Row(t, r)[i], Num(t, r, i), T, regime, attr);
    var d := NewPage(Row(t, r)[i], regime, attr);
    WriteKeepsTree(t, r, i, d);
    WriteAgrees(t, r, i, d, T, Retouch(T, EntryLo(t, r, i), regime, attr));
  }

  lemma PageEntry(t: Tabs, r: Ref, i: int, T: Trans)
    requires Sized(t) && Agree(t, T) && Slot(t, r, i) && Row(t, r)[i].Page?
    ensures At(t, r).level == 3 && EntryOk(Row(t, r)[i], 3, Num(t, r, i), T)
  {
    assert SlotOk(t, r, i, T);
  }

  // The new descriptor describes the page after the change.
  lemma RetouchEntry(d: Desc, e: int, T: Trans, regime: Regime, attr: bv32)
    requires d.Page? && EntryOk(d, 3, e, T)
    ensures var U := Retouch(T, Lo(3, e), regime, attr);
      EntryOk(NewPage(d, regime, attr), 3, e, U) && SameOutside(T, U, Lo(3, e), Lo(3, e + 1))
    ensures Lo(3, e + 1) == Lo(3, e) + 0x1000
  {
    hide LeafFits;
    Values(3, e);
    Values(3, e + 1);
  }

  // The state after an entry was made invalid, its address invalidated in the
  // TLBs, and the entry written again.
  function Rewritten(st: State, r: Ref, i: int, d: Desc, va: int): State
    requires Slot(st.tabs, r, i)
  {
    var w := Put(st, r, i, Invalid);
    Put(w.(trace := w.trace + [Flushed(va)]), r, i, d)
  }

  lemma RewrittenTabs(st: State, r: Ref, i: int, d: Desc, va: int)
    requires Slot(st.tabs, r, i)
    ensures Rewritten(st, r, i, d, va).tabs == With(st.tabs, r, i, d)
    ensures Rewritten(st, r, i, d, va).trace ==
      st.trace + [Wrote(r, i, EntryLo(st.tabs, r, i), Row(st.tabs, r)[i], Invalid)] + [Flushed(va)]
               + [Wrote(r, i, EntryLo(st.tabs, r, i), Invalid, d)]
  {
    WithRow(st.tabs, r, i, Invalid, r);
    var k := Row(st.tabs, r);
    assert k[i := Invalid][i := d] == k[i := d];
    if r.Sub? {
      assert st.tabs.subs[r.idx := k[i := Invalid]][r.idx := k[i := d]] == st.tabs.subs[r.idx := k[i := d]];
    }
  }

  // Everything but the trace stays in order.
  lemma RewriteReady(st: State, T: Trans, h: Hit, va: int, a: int, regime: Regime, attr: bv32)
    requires Ready(st.(trace := []), T, Base) && HitOk(st.tabs, h, a, T) && h.level == 3 && a % 0x1000 == 0
    ensures var d := NewPage(Row(st.tabs, h.r)[h.i], regime, attr);
      && Ready(Rewritten(st, h.r, h.i, d, va).(trace := []), Retouch(T, a, regime, attr), Base)
      && Rewritten(st, h.r, h.i, d, va).tabs == With(st.tabs, h.r, h.i, d) && EntryLo(st.tabs, h.r, h.i) == a
  {
    hide Retouch, Lo, Sized, EntryOk, Unique;
    var t := st.tabs;
    var d := NewPage(Row(t, h.r)[h.i], regime, attr);
    RewrittenTabs(st, h.r, h.i, d, va);
    RetouchAgrees(t, h.r, h.i, T, regime, attr);
    Aligned(3, Num(t, h.r, h.i));
  }

  // Break-before-make holds for the rewrite exactly if the address invalidated
  // is the one the entry describes.
  lemma RewriteOrder(trace: seq<Event>, r: Ref, i: int, lo: int, va: int, was: Desc, now: Desc)
    requires was != Invalid && now != Invalid
    ensures Settled(trace) && va == lo ==>
      Settled(trace + [Wrote(r, i, lo, was, Invalid)] + [Flushed(va)] + [Wrote(r, i, lo, Invalid, now)])
    ensures !Ordered(trace) || va != lo ==>
      !Ordered(trace + [Wrote(r, i, lo, was, Invalid)] + [Flushed(va)] + [Wrote(r, i, lo, Invalid, now)])
  {
    var one := trace + [Wrote(r, i, lo, was, Invalid)];
    var two := one + [Flushed(va)];
    Extend(trace, Wrote(r, i, lo, was, Invalid));
    Extend(one, Flushed(va));
    Extend(two, Wrote(r, i, lo, Invalid, now));
    if Settled(trace) && va == lo {
      Break(trace, r, i, lo, was);
      Make(two, r, i, lo, now);
    }
    if !Ordered(trace) {
      assert !Ordered(one) && !Ordered(two);
    } else if va != lo {
      assert Broken(r, i, lo) in Pending(one);
      assert Broken(r, i, lo) in Pending(two);
    }
  }
}

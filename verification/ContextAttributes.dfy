/**
 A context's tables while the attributes of a run of pages are being changed.
 */
module ContextAttributes {
  import opened Folding
  import opened Geometry
  import opened Tables
  import opened Walk
  import opened Counts
  import opened TableState
  import opened BreakBeforeMake
  import opened Descriptor
  import opened Regions
  import opened Denotation
  import opened PoolOrder
  import opened Context
  import opened AttributeChange

  // Whether one page can be changed: it is mapped by a page descriptor, and
  // device memory is not made executable.
  ghost predicate PageAccepts(t: Tabs, va: int, attr: bv32) {
    && PageMapped(t, va)
    && (IsDevice(Row(t, Find(t, va).value.r)[Find(t, va).value.i].attr) ==> attr & MT_EXECUTE_NEVER != 0)
  }

  ghost predicate PagesAccept(t: Tabs, base: int, n: int, attr: bv32) {
    forall k {:trigger PageAt(base, k)} :: 0 <= k < n ==> PageAccepts(t, PageAt(base, k), attr)
  }

  lemma OneMoreAccepts(t: Tabs, base: int, i: int, n: int, attr: bv32)
    requires 0 <= i < n
    ensures PagesAccept(t, base, i + 1, attr) <==>
      PagesAccept(t, base, i, attr) && PageAccepts(t, PageAt(base, i), attr)
    ensures PagesAccept(t, base, n, attr) ==> PageAccepts(t, PageAt(base, i), attr)
  {
  }

  // A well-formed list, kept folded.
  ghost predicate KeptList(L: seq<Region>, lim: Limits, dyn: bool) {
    forall k {:trigger Look(k)} :: Look(k) ==> WellFormed(L, lim, dyn)
  }

  // The requests xlat_change_mem_attributes_ctx carries out.
  ghost predicate Changeable(t: Tabs, base: int, size: int, attr: bv32) {
    && base % 0x1000 == 0 && 0 < size && size % 0x1000 == 0
    && !(attr & MT_EXECUTE_NEVER == 0 && attr & MT_RW != 0)
    && PagesAccept(t, base, size / 0x1000, attr)
  }

  // The pages in front of page `i` have been changed.  The invalidations named
  // the right addresses as long as those were within the span.
  ghost predicate Changing(st: State, T0: Trans, T: Trans, L: seq<Region>, Q: Request, i: int) {
    forall k {:trigger Look(k)} :: Look(k) ==>
      && Good(st.(trace := []), T, L) && ValidRequest(Q) && 0 <= i <= Q.n && Tree(st.tabs) && Q.span == Span(st.tabs)
      && Rewrote(T0, T, Q, i) && (forall k :: 0 <= k < Q.n ==> PageMapped(st.tabs, PageVa(Q, k)))
      && (if i == 0 || PageVa(Q, i - 1) < Q.span then Settled(st.trace) else !Ordered(st.trace))
  }

  // The same tables are linked, with the same counts.
  ghost predicate SamePool(st: State, st': State) {
    st'.tabs.place == st.tabs.place && st'.cnt == st.cnt && st'.dynamic == st.dynamic
  }

  lemma SamePoolSteady(st: State, st': State, L: seq<Region>)
    requires SamePool(st, st')
    ensures Steady(st, L) <==> Steady(st', L)
  {
    hide StaticMeets, Meeting, Inside;
    assert Look(0);
    forall k: nat, s: nat
      ensures Loose(st.tabs, st.cnt, L, k, s) <==> Loose(st'.tabs, st'.cnt, L, k, s)
    {
    }
  }

  lemma ChangeStarts(st: State, T: Trans, L: seq<Region>, Q: Request)
    requires Good(st, T, L) && ValidRequest(Q) && Q.span == Span(st.tabs)
    requires PagesAccept(st.tabs, Q.base, Q.n, Q.attr)
    ensures Changing(st, T, T, L, Q, 0)
  {
    assert Look(0);
  }

  // The page about to be changed is still a mapped page.
  lemma ChangePage(st: State, T0: Trans, T: Trans, L: seq<Region>, Q: Request, i: int, lim: Limits, dyn: bool)
    requires Changing(st, T0, T, L, Q, i) && i < Q.n && WellFormed(L, lim, dyn)
    requires Sized(st.tabs) && RefHi(st.tabs, Base) == lim.vaMax + 1
    ensures Tree(st.tabs) && Agree(st.tabs, T) && Q.span > 0 && 0 <= i && PageLo(Q, i) % 0x1000 == 0
    ensures PageMapped(st.tabs, PageVa(Q, i)) && HitOk(st.tabs, Find(st.tabs, PageVa(Q, i)).value, PageLo(Q, i), T)
  {
    assert Look(0);
    Lookup(st.(trace := []), T, L, lim, dyn, PageVa(Q, i));
    PageLoAligned(Q, i);
  }

  lemma ChangeNext(st: State, T0: Trans, T: Trans, L: seq<Region>, Q: Request, i: int, h: Hit, d: Desc)
    requires Changing(st, T0, T, L, Q, i) && i < Q.n && 0 < Q.span && PageLo(Q, i) % 0x1000 == 0
    requires HitOk(st.tabs, h, PageLo(Q, i), T) && h.level == 3
    requires d == NewPage(Row(st.tabs, h.r)[h.i], Q.regime, Q.attr)
    ensures Changing(Rewritten(st, h.r, h.i, d, PageVa(Q, i)), T0, Retouch(T, PageLo(Q, i), Q.regime, Q.attr), L, Q,
      i + 1)
    ensures SamePool(st, Rewritten(st, h.r, h.i, d, PageVa(Q, i)))
  {
    assert Look(0);
    ChangeGood(st, T, L, h, PageVa(Q, i), PageLo(Q, i), Q.regime, Q.attr);
    RewroteNext(T0, T, Q, i);
    forall k | 0 <= k < Q.n
      ensures PageMapped(With(st.tabs, h.r, h.i, d), PageVa(Q, k))
    {
      StillMapped(st.tabs, h.r, h.i, d, PageVa(Q, k));
    }
    ChangeTrace(st, Q, i, h, d);
  }

  lemma ChangeGood(st: State, T: Trans, L: seq<Region>, h: Hit, va: int, a: int, regime: Regime, attr: bv32)
    requires Good(st.(trace := []), T, L) && HitOk(st.tabs, h, a, T) && h.level == 3 && a % 0x1000 == 0
    ensures var d := NewPage(Row(st.tabs, h.r)[h.i], regime, attr);
      && Good(Rewritten(st, h.r, h.i, d, va).(trace := []), Retouch(T, a, regime, attr), L)
      && Rewritten(st, h.r, h.i, d, va).tabs == With(st.tabs, h.r, h.i, d) && EntryLo(st.tabs, h.r, h.i) == a
      && Tree(With(st.tabs, h.r, h.i, d))
  {
    hide Tree, First, Sized, EntryOk, Booked;
    assert Look(0);
    RewriteReady(st, T, h, va, a, regime, attr);
    var U := Retouch(T, a, regime, attr);
    forall va
      ensures (va in U <==> First(L, va).Some?) && (va in U ==> U[va].r == First(L, va).value)
    {
      assert va in T <==> First(L, va).Some?;
    }
  }

  lemma ChangeTrace(st: State, Q: Request, i: int, h: Hit, d: Desc)
    requires ValidRequest(Q) && 0 <= i && Slot(st.tabs, h.r, h.i) && Row(st.tabs, h.r)[h.i].Page? && d.Page?
    requires EntryLo(st.tabs, h.r, h.i) == PageLo(Q, i)
    requires if i == 0 || PageVa(Q, i - 1) < Q.span then Settled(st.trace) else !Ordered(st.trace)
    ensures if PageVa(Q, i) < Q.span then Settled(Rewritten(st, h.r, h.i, d, PageVa(Q, i)).trace)
            else !Ordered(Rewritten(st, h.r, h.i, d, PageVa(Q, i)).trace)
  {
    RewrittenTabs(st, h.r, h.i, d, PageVa(Q, i));
    PageInSpan(Q, i);
    RewriteOrder(st.trace, h.r, h.i, EntryLo(st.tabs, h.r, h.i), PageVa(Q, i), Row(st.tabs, h.r)[h.i], d);
  }

  // All pages of the request, and nothing else, have been changed.
  ghost predicate ChangedRun(T0: Trans, T: Trans, Q: Request) {
    0 < Q.span && Rewrote(T0, T, Q, Q.n)
  }

  // The whole invariant holds again exactly if the request was within the span.
  lemma ChangeEnds(st: State, T0: Trans, T: Trans, L: seq<Region>, Q: Request)
    requires Changing(st, T0, T, L, Q, Q.n) && 0 < Q.n
    ensures ChangedRun(T0, T, Q) && Good(st.(trace := []), T, L) && Q.span == Span(st.tabs)
    ensures Good(st, T, L) <==> Q.base + Q.n * 0x1000 <= Q.span
  {
    assert Look(0);
    LastPage(Q);
  }

  lemma LastPage(Q: Request)
    requires ValidRequest(Q) && 0 < Q.n
    ensures PageVa(Q, Q.n - 1) < Q.span <==> Q.base + Q.n * 0x1000 <= Q.span
  {
    var b, s := Q.base / 0x1000, Q.span / 0x1000;
    assert Q.base == b * 0x1000 && Q.span == s * 0x1000;
  }

  lemma GoodTrace(st: State, T: Trans, L: seq<Region>)
    requires Good(st, T, L)
    ensures Good(st.(trace := []), T, L)
  {
    assert Look(0);
  }

  lemma FirstOwns(st: State, T: Trans, L: seq<Region>, a: int)
    requires a in T && Good(st, T, L)
    ensures First(L, a).Some? && T[a].r == First(L, a).value
  {
    assert Look(0);
  }

  // Attributes `now` enforce the permissions asked for with `attr`, and the memory
  // type and security state of `was`.
  predicate Grants(regime: Regime, was: bv32, attr: bv32, now: bv32) {
    var e := Effective(regime, now);
    && e & MT_RW == attr & MT_RW && e & MT_EXECUTE_NEVER == attr & MT_EXECUTE_NEVER
    && e & MT_USER == (if regime == EL1_EL0_REGIME then attr & MT_USER else 0)
    && e & MT_TYPE_MASK == MemType(was) && e & MT_NS == was & MT_NS
  }

  // Every page of the request reads back so, at the output address it had.
  ghost predicate PagesReadBack(T0: Trans, T: Trans, Q: Request) {
    0 < Q.span &&
    forall va {:trigger T[va]} {:trigger T0[va]} :: InPages(Q, Q.n, va) ==>
      && va in T0 && va in T
      && T[va].r.basePa + (va - T[va].r.baseVa) == T0[va].r.basePa + (va - T0[va].r.baseVa)
      && Granted(Q, T0[va].attr, T[va].attr)
  }

  ghost predicate Granted(Q: Request, was: bv32, now: bv32) {
    forall k {:trigger Look(k)} :: Look(k) ==> Grants(Q.regime, was, Q.attr, now)
  }

  // The addresses of an accepted page are mapped, and execute-never if device
  // memory.
  lemma AcceptedPage(st: State, T: Trans, L: seq<Region>, lim: Limits, dyn: bool, Q: Request, k: int, va: int)
    requires Good(st, T, L) && WellFormed(L, lim, dyn) && Tree(st.tabs) && RefHi(st.tabs, Base) == lim.vaMax + 1
    requires ValidRequest(Q) && Q.span == Span(st.tabs) && PagesAccept(st.tabs, Q.base, Q.n, Q.attr)
    requires 0 <= k < Q.n && InPage(Q, k, va)
    ensures va in T && (IsDevice(T[va].attr) ==> Q.attr & MT_EXECUTE_NEVER != 0)
  {
    assert PageAccepts(st.tabs, PageAt(Q.base, k), Q.attr);
    Lookup(st, T, L, lim, dyn, PageVa(Q, k));
    var h := Find(st.tabs, PageVa(Q, k)).value;
    PageLoAligned(Q, k);
    LeafWhole(st.tabs, h, PageLo(Q, k), va, T);
  }

  // All addresses of a page have what its descriptor says.
  lemma LeafWhole(t: Tabs, h: Hit, a: int, va: int, T: Trans)
    requires Sized(t) && HitOk(t, h, a, T) && h.level == 3 && a % 0x1000 == 0 && a <= va < a + 0x1000
    ensures va in T && T[va].attr == Row(t, h.r)[h.i].attr
  {
    Values(3, Num(t, h.r, h.i));
    Values(3, Num(t, h.r, h.i) + 1);
  }

  lemma GrantsAll(Q: Request, was: bv32)
    requires !(Q.attr & MT_EXECUTE_NEVER == 0 && Q.attr & MT_RW != 0)
    requires IsDevice(was) ==> Q.attr & MT_EXECUTE_NEVER != 0
    ensures Granted(Q, was, Updated(Q.regime, was, Q.attr))
  {
    ChangeReadsBack(Q.regime, was, Q.attr);
  }

  lemma PageReadsBack(st: State, T0: Trans, T: Trans, L: seq<Region>, lim: Limits, dyn: bool, Q: Request)
    requires Good(st, T0, L) && WellFormed(L, lim, dyn) && Tree(st.tabs) && RefHi(st.tabs, Base) == lim.vaMax + 1
    requires ValidRequest(Q) && Q.span == Span(st.tabs) && PagesAccept(st.tabs, Q.base, Q.n, Q.attr)
    requires !(Q.attr & MT_EXECUTE_NEVER == 0 && Q.attr & MT_RW != 0) && ChangedRun(T0, T, Q)
    ensures PagesReadBack(T0, T, Q)
  {
    forall va | InPages(Q, Q.n, va)
      ensures va in T0 && va in T && T[va].r == T0[va].r && Granted(Q, T0[va].attr, T[va].attr)
    {
      var k :| 0 <= k < Q.n && InPage(Q, k, va);
      AcceptedPage(st, T0, L, lim, dyn, Q, k, va);
      GrantsAll(Q, T0[va].attr);
    }
  }

  // The walk does not see a difference of one span.
  lemma SpanAlias(t: Tabs, va: int)
    requires Tree(t)
    ensures 0 < Span(t) && Find(t, va + Span(t)) == Find(t, va)
  {
    Alias(t, Base, va);
    Alias(t, Base, va + Span(t));
    PeriodMod(va, Span(t));
  }

  lemma PeriodMod(x: int, m: int)
    requires 0 < m
    ensures (x + m) % m == x % m
  {
    DivShift(x, 1, m);
  }

  lemma AlignedSum(x: int, y: int)
    requires x % 0x1000 == 0 && y % 0x1000 == 0
    ensures (x + y) % 0x1000 == 0
  {
  }

  lemma SpanAccepts(t: Tabs, va: int, attr: bv32)
    requires Tree(t) && PageAccepts(t, va, attr)
    ensures PageAccepts(t, va + Span(t), attr)
  {
    SpanAlias(t, va);
  }

  lemma SpanAligned(t: Tabs)
    requires Sized(t)
    ensures 0 < Span(t) && Span(t) % 0x1000 == 0
  {
    Values(t.baseLevel, 0);
  }

  // A request that is accepted is accepted one span further as well.
  lemma PastSpan(t: Tabs, base: int, size: int, attr: bv32)
    requires Tree(t) && Changeable(t, base, size, attr)
    ensures 0 < Span(t) && Changeable(t, base + Span(t), size, attr)
  {
    hide PageAccepts, Children, Parents, Unique, BlockSize;
    SpanAligned(t);
    AlignedSum(base, Span(t));
    forall k {:trigger PageAt(base + Span(t), k)} | 0 <= k < size / 0x1000
      ensures PageAccepts(t, PageAt(base + Span(t), k), attr)
    {
      SpanAccepts(t, PageAt(base, k), attr);
    }
  }

  // Within the span, the addresses outside the request keep everything.
  lemma OthersKeep(T0: Trans, T: Trans, Q: Request, va: int)
    requires ChangedRun(T0, T, Q) && ValidRequest(Q) && Q.base + Q.n * 0x1000 <= Q.span
    requires va in T0 && !(Q.base <= va < Q.base + Q.n * 0x1000)
    ensures va in T && T[va] == T0[va]
  {
    PagesInSpan(Q, va);
  }
}

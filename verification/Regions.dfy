/**
 The list of memory regions: which regions may join it, the order it is kept
 in, and the translation it stands for.
 */
module Regions {
  import opened Tables
  import opened Mapping
  import opened Words

  datatype Code = Success | EINVAL | ERANGE | ENOMEM | EPERM

  // Limits of a context.
  datatype Limits = Limits(paMax: int, vaMax: int)

  // Addresses have at most 48 bits, and the space is a whole number of pages.
  predicate ValidLimits(lim: Limits) {
    0 <= lim.paMax < 0x1_0000_0000_0000 && 0xfff <= lim.vaMax < 0x1_0000_0000_0000 && (lim.vaMax + 1) % 0x1000 == 0
  }

  const MT_DYNAMIC: bv32 := 0x8000_0000

  predicate IsDynamic(R: Region) { R.attr & MT_DYNAMIC != 0 }

  // Unsigned 64-bit arithmetic of the source.
  function Wrap(x: int): int { x % 0x1_0000_0000_0000_0000 }

  predicate Fields64(R: Region) {
    0 <= R.basePa < TWO64 && 0 <= R.baseVa < TWO64 && 0 <= R.size < TWO64 && 0 <= R.granularity < TWO64
  }

  predicate PageAligned(x: int) { x % 0x1000 == 0 }

  predicate BadArguments(R: Region) {
    || !PageAligned(R.basePa) || !PageAligned(R.baseVa) || !PageAligned(R.size)
    || (R.granularity != 0x4000_0000 && R.granularity != 0x20_0000 && R.granularity != 0x1000)
  }

  predicate OutOfRange(R: Region, lim: Limits) {
    || R.basePa > Wrap(R.basePa + R.size - 1) || R.baseVa > Wrap(R.baseVa + R.size - 1)
    || Wrap(R.baseVa + R.size - 1) > lim.vaMax
    || Wrap(R.basePa + R.size - 1) > lim.paMax
  }

  // One comparison of mmap_add_region_check: the new region is refused because
  // of a listed one.  `dyn` tells whether the build knows dynamic regions.
  predicate Refused(R: Region, q: Region, dyn: bool) {
    var overlapped := (R.baseVa >= q.baseVa && R.EndVa() <= q.EndVa())
      || (q.baseVa >= R.baseVa && q.EndVa() <= R.EndVa());
    if overlapped then
      || (dyn && (IsDynamic(R) || IsDynamic(q)))
      || q.baseVa - q.basePa != R.baseVa - R.basePa
      || (R.baseVa == q.baseVa && R.size == q.size)
    else
      var separatedPa := R.EndPa() <= q.basePa || R.basePa >= q.EndPa();
      var separatedVa := R.EndVa() <= q.baseVa || R.baseVa >= q.EndVa();
      !separatedVa || !separatedPa
  }

  // ---- what the list guarantees --------------------------------------------

  // A listed region is page-aligned, non-empty and within the limits.
  predicate Listable(R: Region, lim: Limits) {
    && Aligned4K(R) && 0 <= R.basePa
    && R.EndVa() <= lim.vaMax + 1 && R.EndPa() <= lim.paMax + 1
    && (R.granularity == 0x4000_0000 || R.granularity == 0x20_0000 || R.granularity == 0x1000)
  }

  predicate Disjoint(lo: int, hi: int, lo': int, hi': int) { hi <= lo' || hi' <= lo }

  // Strictly nested or equal-ended ranges of one VA-PA offset.
  predicate NestedIn(a: Region, b: Region) {
    b.baseVa <= a.baseVa && a.EndVa() <= b.EndVa() && a.baseVa - a.basePa == b.baseVa - b.basePa
  }

  // Two listed regions: disjoint in both address spaces, or one nested in the
  // other at the same offset, which dynamic regions never are.
  predicate Together(a: Region, b: Region, dyn: bool) {
    || (Disjoint(a.baseVa, a.EndVa(), b.baseVa, b.EndVa()) && Disjoint(a.basePa, a.EndPa(), b.basePa, b.EndPa()))
    || ((NestedIn(a, b) || NestedIn(b, a)) && (a.baseVa != b.baseVa || a.size != b.size)
        && (dyn ==> !IsDynamic(a) && !IsDynamic(b)))
  }

  predicate Before(a: Region, b: Region) {
    a.EndVa() < b.EndVa() || (a.EndVa() == b.EndVa() && a.size < b.size)
  }

  ghost predicate WellFormed(L: seq<Region>, lim: Limits, dyn: bool) {
    && (forall i :: 0 <= i < |L| ==> Listable(L[i], lim))
    && (forall i, j :: 0 <= i < j < |L| ==> Before(L[i], L[j]))
    && (forall i, j :: 0 <= i < j < |L| ==> Together(L[i], L[j], dyn))
  }

  lemma TogetherSym(a: Region, b: Region, dyn: bool)
    ensures Together(a, b, dyn) == Together(b, a, dyn)
  {
  }

  // The checks accept exactly the regions that can join the list.
  lemma CheckMeaning(R: Region, lim: Limits)
    requires Fields64(R) && 0 < R.size && ValidLimits(lim)
    ensures !BadArguments(R) && !OutOfRange(R, lim) <==> Listable(R, lim)
    // Of regions with good arguments those are out of range that end past a limit.
    ensures OutOfRange(R, lim) <==> R.EndVa() > lim.vaMax + 1 || R.EndPa() > lim.paMax + 1
  {
  }

  lemma RefusedMeaning(R: Region, q: Region, lim: Limits, dyn: bool)
    requires Listable(R, lim) && Listable(q, lim)
    ensures Refused(R, q, dyn) <==> !Together(R, q, dyn)
  {
  }

  // ---- insertion and removal -----------------------------------------------

  // Number of leading regions that stay in front of R.
  function PlaceOf(L: seq<Region>, R: Region): (p: nat)
    ensures p <= |L|
    ensures forall i :: 0 <= i < p ==> Before(L[i], R)
    ensures p < |L| ==> !Before(L[p], R)
  {
    if L == [] || !Before(L[0], R) then 0 else 1 + PlaceOf(L[1..], R)
  }

  function Insert(L: seq<Region>, R: Region): seq<Region> {
    L[..PlaceOf(L, R)] + [R] + L[PlaceOf(L, R)..]
  }

  function Delete(L: seq<Region>, p: nat): seq<Region>
    requires p < |L|
  {
    L[..p] + L[p + 1..]
  }

  // Together and not before means after.
  lemma Comparable(a: Region, b: Region, lim: Limits, dyn: bool)
    requires Listable(a, lim) && Listable(b, lim) && Together(a, b, dyn) && !Before(a, b)
    ensures Before(b, a)
  {
  }

  // Inserted at place `p`, a region has the ones in front of `p` before it and the
  // others after it.
  lemma InsertIndex(L: seq<Region>, R: Region, i: int)
    requires 0 <= i < |Insert(L, R)|
    ensures |Insert(L, R)| == |L| + 1
    ensures Insert(L, R)[i] == if i < PlaceOf(L, R) then L[i] else if i == PlaceOf(L, R) then R else L[i - 1]
  {
  }

  lemma BeforeNew(L: seq<Region>, R: Region, dyn: bool, i: int)
    requires 0 <= i < PlaceOf(L, R) && forall k :: 0 <= k < |L| ==> Together(R, L[k], dyn)
    ensures Before(L[i], R) && Together(L[i], R, dyn)
  {
    TogetherSym(R, L[i], dyn);
  }

  lemma AfterNew(L: seq<Region>, R: Region, lim: Limits, dyn: bool, j: int)
    requires WellFormed(L, lim, dyn) && Listable(R, lim) && (forall k :: 0 <= k < |L| ==> Together(R, L[k], dyn))
    requires PlaceOf(L, R) <= j < |L|
    ensures Before(R, L[j]) && Together(R, L[j], dyn)
  {
    var p := PlaceOf(L, R);
    TogetherSym(R, L[p], dyn);
    Comparable(L[p], R, lim, dyn);
    if j != p {
      assert Before(L[p], L[j]);
    }
  }

  lemma InsertSorted(L: seq<Region>, R: Region, lim: Limits, dyn: bool, i: int, j: int)
    requires WellFormed(L, lim, dyn) && Listable(R, lim) && (forall k :: 0 <= k < |L| ==> Together(R, L[k], dyn))
    requires 0 <= i < j < |Insert(L, R)|
    ensures Before(Insert(L, R)[i], Insert(L, R)[j]) && Together(Insert(L, R)[i], Insert(L, R)[j], dyn)
  {
    hide Insert, PlaceOf, Together, Before, Listable;
    InsertIndex(L, R, i);
    InsertIndex(L, R, j);
    if i == PlaceOf(L, R) {
      AfterNew(L, R, lim, dyn, j - 1);
    } else if j == PlaceOf(L, R) {
      BeforeNew(L, R, dyn, i);
    }
  }

  // Inserting a region that passed the checks keeps the list well-formed.
  lemma InsertKeeps(L: seq<Region>, R: Region, lim: Limits, dyn: bool)
    requires WellFormed(L, lim, dyn) && Listable(R, lim) && (forall k :: 0 <= k < |L| ==> Together(R, L[k], dyn))
    ensures WellFormed(Insert(L, R), lim, dyn)
  {
    var M := Insert(L, R);
    forall i, j | 0 <= i < j < |M|
      ensures Before(M[i], M[j]) && Together(M[i], M[j], dyn)
    {
      InsertSorted(L, R, lim, dyn, i, j);
    }
    forall i | 0 <= i < |M|
      ensures Listable(M[i], lim)
    {
      assert M[i] in L || M[i] == R;
    }
  }

  lemma DeleteKeeps(L: seq<Region>, p: nat, lim: Limits, dyn: bool)
    requires WellFormed(L, lim, dyn) && p < |L|
    ensures WellFormed(Delete(L, p), lim, dyn)
  {
    var M := Delete(L, p);
    forall i, j | 0 <= i < j < |M|
      ensures Before(M[i], M[j]) && Together(M[i], M[j], dyn)
    {
      assert M[i] == L[if i < p then i else i + 1] && M[j] == L[if j < p then j else j + 1];
    }
    forall i | 0 <= i < |M|
      ensures Listable(M[i], lim)
    {
      assert M[i] == L[if i < p then i else i + 1];
    }
  }

  // Removing the region that was inserted gives the list back.
  lemma DeleteInsert(L: seq<Region>, R: Region)
    ensures PlaceOf(L, R) < |Insert(L, R)| && Insert(L, R)[PlaceOf(L, R)] == R
    ensures Delete(Insert(L, R), PlaceOf(L, R)) == L
  {
    SpliceOut(L, PlaceOf(L, R), R);
  }

  lemma SpliceOut(L: seq<Region>, p: nat, R: Region)
    requires p <= |L|
    ensures var M := L[..p] + [R] + L[p..]; p < |M| && M[p] == R && Delete(M, p) == L
  {
    var M := L[..p] + [R] + L[p..];
    assert M[..p] == L[..p] && M[p + 1..] == L[p..];
  }

  // ---- the highest addresses in use ----------------------------------------

  // `va` and `pa` are the last addresses of the highest regions, or 0.
  ghost predicate Highest(L: seq<Region>, va: int, pa: int) {
    && (forall q :: q in L ==> q.EndVa() - 1 <= va && q.EndPa() - 1 <= pa)
    && (if L == [] then va == 0 && pa == 0
        else (exists q :: q in L && q.EndVa() - 1 == va) && (exists q :: q in L && q.EndPa() - 1 == pa))
  }

  function Max(a: int, b: int): int { if b > a then b else a }

  lemma InsertMembers(L: seq<Region>, R: Region)
    ensures forall q :: q in Insert(L, R) <==> q in L || q == R
    ensures Insert(L, R) != []
  {
    var p := PlaceOf(L, R);
    assert L == L[..p] + L[p..];
  }

  lemma HighestInsert(L: seq<Region>, R: Region, va: int, pa: int)
    requires Highest(L, va, pa) && 0 < R.EndVa() && 0 < R.EndPa()
    ensures Highest(Insert(L, R), Max(va, R.EndVa() - 1), Max(pa, R.EndPa() - 1))
  {
    var M := Insert(L, R);
    InsertMembers(L, R);
    assert R in M;
    if L != [] {
      var q :| q in L && q.EndVa() - 1 == va;
      var q' :| q' in L && q'.EndPa() - 1 == pa;
      assert q in M && q' in M;
    }
  }

  // Removing a region that does not reach a maximum leaves that maximum.
  lemma DeleteMembers(L: seq<Region>, p: nat)
    requires p < |L|
    ensures forall q :: q in Delete(L, p) ==> q in L
    ensures forall q :: q in L && q != L[p] ==> q in Delete(L, p)
  {
    assert L == L[..p] + [L[p]] + L[p + 1..];
  }
}

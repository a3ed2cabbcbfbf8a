/**
 The translation a list of regions stands for: at every address, the first
 listed region that contains it.  With the list order that is the innermost one.
 */
module Denotation {
  import opened Options
  import opened Tables
  import opened Mapping
  import opened Counts
  import opened Regions

  function First(L: seq<Region>, va: int): Option<Region> {
    if L == [] then None
    else
      match First(L[..|L| - 1], va)
      case Some(q) => Some(q)
      case None => if L[|L| - 1].Contains(va) then Some(L[|L| - 1]) else None
  }

  // L[i] is the region of least index that contains the address.
  ghost predicate LeastAt(L: seq<Region>, va: int, i: int) {
    0 <= i < |L| && L[i].Contains(va) && forall j :: 0 <= j < i ==> !L[j].Contains(va)
  }

  lemma {:induction false} FirstIsFirst(L: seq<Region>, va: int)
    ensures First(L, va).None? <==> forall i :: 0 <= i < |L| ==> !L[i].Contains(va)
    ensures First(L, va).Some? ==> exists i :: LeastAt(L, va, i) && L[i] == First(L, va).value
  {
    if L != [] {
      var M := L[..|L| - 1];
      FirstIsFirst(M, va);
      if First(M, va).Some? {
        var i :| LeastAt(M, va, i) && M[i] == First(M, va).value;
        assert L[i] == M[i] && forall j :: 0 <= j < i ==> L[j] == M[j];
        assert LeastAt(L, va, i);
      } else {
        assert forall i :: 0 <= i < |M| ==> L[i] == M[i] && !M[i].Contains(va);
        assert First(L, va).Some? ==> LeastAt(L, va, |L| - 1);
      }
    }
  }

  // In a well-formed list the first region containing an address is the
  // smallest one.
  lemma FirstIsInnermost(L: seq<Region>, lim: Limits, dyn: bool, va: int, k: int)
    requires WellFormed(L, lim, dyn) && 0 <= k < |L| && L[k].Contains(va)
    ensures First(L, va).Some? && NestedIn(First(L, va).value, L[k])
  {
    FirstIsFirst(L, va);
    var i :| LeastAt(L, va, i) && L[i] == First(L, va).value;
    if i < k {
      assert Before(L[i], L[k]) && Together(L[i], L[k], dyn);
    }
  }

  // No two addresses go to the same output address.
  lemma OneToOne(L: seq<Region>, lim: Limits, dyn: bool, va: int, va': int)
    requires WellFormed(L, lim, dyn) && First(L, va).Some? && First(L, va').Some?
    requires var q, q' := First(L, va).value, First(L, va').value;
      q.basePa + (va - q.baseVa) == q'.basePa + (va' - q'.baseVa)
    ensures va == va'
  {
    hide First, Together, Listable, Before;
    FirstIsFirst(L, va);
    FirstIsFirst(L, va');
    var i :| LeastAt(L, va, i) && L[i] == First(L, va).value;
    var j :| LeastAt(L, va', j) && L[j] == First(L, va').value;
    if i < j {
      PairOneToOne(L[i], L[j], dyn, va, va');
    } else if j < i {
      PairOneToOne(L[j], L[i], dyn, va', va);
    }
  }

  lemma PairOneToOne(a: Region, b: Region, dyn: bool, va: int, va': int)
    requires Together(a, b, dyn) && a.Contains(va) && b.Contains(va')
    requires a.basePa + (va - a.baseVa) == b.basePa + (va' - b.baseVa)
    ensures va == va'
  {
  }

  // T maps exactly the addresses of listed regions, each by its first region.
  ghost predicate Denotes(T: Trans, L: seq<Region>) {
    forall va {:trigger First(L, va)} {:trigger T[va]} ::
      && (va in T <==> First(L, va).Some?)
      && (va in T ==> T[va].r == First(L, va).value)
  }

  // No attributes have been changed since the regions were mapped.
  ghost predicate Pristine(T: Trans) {
    forall va {:trigger T[va]} :: va in T ==> T[va].attr == T[va].r.attr
  }

  // ---- mapping the next region ---------------------------------------------

  lemma MapsNext(T: Trans, L: seq<Region>, R: Region)
    requires Denotes(T, L)
    ensures Denotes(Upto(T, R, R.EndVa()), L + [R])
    ensures Pristine(T) ==> Pristine(Upto(T, R, R.EndVa()))
  {
    assert (L + [R])[..|L + [R]| - 1] == L;
    var U := Upto(T, R, R.EndVa());
    forall va
      ensures (va in U <==> First(L + [R], va).Some?) && (va in U ==> U[va].r == First(L + [R], va).value)
    {
      assert va in T <==> First(L, va).Some?;
    }
  }

  ghost predicate Apart(L: seq<Region>, R: Region) {
    forall q :: q in L ==> Disjoint(R.baseVa, R.EndVa(), q.baseVa, q.EndVa()) || NestedIn(q, R)
  }

  lemma CompatibleNext(T: Trans, L: seq<Region>, R: Region)
    requires Denotes(T, L) && Apart(L, R)
    ensures Compatible(T, R)
  {
    forall va | va in T
      ensures T[va].r in L && T[va].r.Contains(va)
    {
      assert First(L, va).Some?;
      FirstIsFirst(L, va);
    }
  }

  // In list order, each region is apart from the ones in front of it.
  lemma PrefixApart(L: seq<Region>, lim: Limits, dyn: bool, n: int)
    requires WellFormed(L, lim, dyn) && 0 <= n < |L|
    ensures Apart(L[..n], L[n])
  {
    forall q | q in L[..n]
      ensures Disjoint(L[n].baseVa, L[n].EndVa(), q.baseVa, q.EndVa()) || NestedIn(q, L[n])
    {
      var i :| 0 <= i < n && q == L[i];
      assert Before(L[i], L[n]) && Together(L[i], L[n], dyn);
    }
  }

  // ---- regions that overlap no other one -----------------------------------

  lemma {:induction false} FirstDelete(L: seq<Region>, p: nat, va: int)
    requires p < |L| && !L[p].Contains(va)
    ensures First(Delete(L, p), va) == First(L, va)
  {
    var n := |L| - 1;
    if p == n {
      assert Delete(L, p) == L[..n];
    } else {
      FirstDelete(L[..n], p, va);
      assert Delete(L, p)[..n - 1] == Delete(L[..n], p);
      assert Delete(L, p)[n - 1] == L[n];
    }
  }

  lemma FirstOnly(L: seq<Region>, p: nat, va: int)
    requires p < |L| && L[p].Contains(va) && forall i :: 0 <= i < |L| && i != p ==> !L[i].Contains(va)
    ensures First(L, va) == Some(L[p])
  {
    FirstIsFirst(L, va);
  }

  lemma {:induction false} MeetingDelete(L: seq<Region>, p: nat, lo: int, hi: int)
    requires p < |L|
    ensures Meeting(L, lo, hi) == Meeting(Delete(L, p), lo, hi) + One(Meets(L[p], lo, hi))
  {
    var n := |L| - 1;
    if p == n {
      assert Delete(L, p) == L[..n];
    } else {
      MeetingDelete(L[..n], p, lo, hi);
      assert Delete(L, p)[..n - 1] == Delete(L[..n], p);
      assert Delete(L, p)[n - 1] == L[n];
    }
  }

  ghost predicate Alone(L: seq<Region>, p: nat)
    requires p < |L|
  {
    forall i :: 0 <= i < |L| && i != p ==> Disjoint(L[i].baseVa, L[i].EndVa(), L[p].baseVa, L[p].EndVa())
  }

  // Dynamic regions stand alone.
  lemma DynamicAlone(L: seq<Region>, lim: Limits, p: nat)
    requires WellFormed(L, lim, true) && p < |L| && IsDynamic(L[p])
    ensures Alone(L, p)
  {
    forall i | 0 <= i < |L| && i != p
      ensures Disjoint(L[i].baseVa, L[i].EndVa(), L[p].baseVa, L[p].EndVa())
    {
      if i < p { assert Together(L[i], L[p], true); } else { assert Together(L[p], L[i], true); }
    }
  }

  // Mapping a region that stands alone gives what the longer list denotes.
  lemma MapsAlone(T: Trans, L: seq<Region>, p: nat)
    requires p < |L| && Alone(L, p) && Denotes(T, Delete(L, p))
    ensures Denotes(Upto(T, L[p], L[p].EndVa()), L)
  {
    var U := Upto(T, L[p], L[p].EndVa());
    forall va
      ensures (va in U <==> First(L, va).Some?) && (va in U ==> U[va].r == First(L, va).value)
    {
      assert va in T <==> First(Delete(L, p), va).Some?;
      if L[p].Contains(va) {
        FirstOnly(L, p, va);
        NotElsewhere(L, p, va);
      } else {
        FirstDelete(L, p, va);
      }
    }
  }

  lemma NotElsewhere(L: seq<Region>, p: nat, va: int)
    requires p < |L| && Alone(L, p) && L[p].Contains(va)
    ensures First(Delete(L, p), va).None?
  {
    var M := Delete(L, p);
    FirstIsFirst(M, va);
    forall i | 0 <= i < |M|
      ensures !M[i].Contains(va)
    {
      assert M[i] == L[if i < p then i else i + 1];
    }
  }

  lemma ApartAlone(L: seq<Region>, p: nat)
    requires p < |L| && Alone(L, p)
    ensures Apart(Delete(L, p), L[p])
  {
    forall q | q in Delete(L, p)
      ensures Disjoint(L[p].baseVa, L[p].EndVa(), q.baseVa, q.EndVa())
    {
      var i :| 0 <= i < |Delete(L, p)| && Delete(L, p)[i] == q;
      assert q == L[if i < p then i else i + 1];
    }
  }

  // Unmapping it gives what the shorter list denotes.
  lemma UnmapsAlone(T: Trans, L: seq<Region>, p: nat)
    requires p < |L| && Alone(L, p) && Denotes(T, L)
    ensures Denotes(Without(T, L[p], L[p].EndVa()), Delete(L, p))
    ensures Pristine(T) ==> Pristine(Without(T, L[p], L[p].EndVa()))
  {
    var W := Without(T, L[p], L[p].EndVa());
    forall va
      ensures (va in W <==> First(Delete(L, p), va).Some?) && (va in W ==> W[va].r == First(Delete(L, p), va).value)
    {
      assert va in T <==> First(L, va).Some?;
      if L[p].Contains(va) {
        NotElsewhere(L, p, va);
      } else {
        FirstDelete(L, p, va);
      }
    }
  }

  // Its addresses, and no others, are owned by it.
  lemma OwnedAlone(T: Trans, L: seq<Region>, p: nat)
    requires p < |L| && Alone(L, p) && Denotes(T, L)
    ensures Owned(T, L[p], L[p])
    ensures forall va :: va in T && !L[p].Contains(va) ==> T[va].r in Delete(L, p) && T[va].r.Contains(va)
  {
    forall va | L[p].Contains(va)
      ensures va in T && T[va].r == L[p]
    {
      FirstOnly(L, p, va);
    }
    forall va | va in T && !L[p].Contains(va)
      ensures T[va].r in Delete(L, p) && T[va].r.Contains(va) && T[va].r != L[p]
    {
      assert First(L, va).Some?;
      FirstDelete(L, p, va);
      FirstIsFirst(Delete(L, p), va);
    }
  }
}

/**
 The order of descriptor writes and TLB invalidations, as a trace.
 */
module BreakBeforeMake {
  import opened Tables

  datatype Event =
    | Wrote(r: Ref, i: int, lo: int, was: Desc, now: Desc)
    | Flushed(va: int)

  datatype Broken = Broken(r: Ref, i: int, lo: int)

  // Entries made invalid whose old mapping may still be cached.
  ghost function Pending(trace: seq<Event>): set<Broken> {
    if trace == [] then {}
    else
      var before := Pending(trace[..|trace| - 1]);
      match trace[|trace| - 1]
      case Flushed(va) => set b | b in before && b.lo != va
      case Wrote(r, i, lo, was, now) =>
        if was != Invalid && now == Invalid then before + {Broken(r, i, lo)} else before
  }

  // No valid descriptor is replaced by another one, and no entry is written
  // again before its old mapping has been invalidated.
  ghost predicate Ordered(trace: seq<Event>) {
    trace == [] ||
    (Ordered(trace[..|trace| - 1]) &&
     match trace[|trace| - 1]
     case Flushed(_) => true
     case Wrote(r, i, lo, was, now) =>
       && (was == Invalid || now == Invalid)
       && forall b :: b in Pending(trace[..|trace| - 1]) ==> b.r != r || b.i != i)
  }

  ghost predicate Settled(trace: seq<Event>) {
    Ordered(trace) && Pending(trace) == {}
  }

  lemma Extend(trace: seq<Event>, e: Event)
    ensures (trace + [e])[..|trace + [e]| - 1] == trace
    ensures (trace + [e])[|trace + [e]| - 1] == e
  {
  }

  // Filling an invalid entry.
  lemma Make(trace: seq<Event>, r: Ref, i: int, lo: int, d: Desc)
    requires Settled(trace)
    ensures Settled(trace + [Wrote(r, i, lo, Invalid, d)])
  {
    Extend(trace, Wrote(r, i, lo, Invalid, d));
  }

  // Clearing an entry and invalidating its address.
  lemma Break(trace: seq<Event>, r: Ref, i: int, lo: int, d: Desc)
    requires Settled(trace)
    ensures Settled(trace + [Wrote(r, i, lo, d, Invalid)] + [Flushed(lo)])
  {
    var mid := trace + [Wrote(r, i, lo, d, Invalid)];
    Extend(trace, Wrote(r, i, lo, d, Invalid));
    Extend(mid, Flushed(lo));
    assert Pending(mid) <= {Broken(r, i, lo)};
    assert forall b :: b in Pending(mid + [Flushed(lo)]) ==> false;
  }
}

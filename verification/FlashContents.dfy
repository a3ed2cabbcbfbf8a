/**
 What writing a range leaves in the flash: the data, and what the erasing around
 it did.
 */
module FlashContents {
  import opened SpiFlash

  // Byte `k` after writing `d` at `p` over contents `f`.  The sectors of the range
  // and the one behind it have been erased; what was in front of the range in
  // its first sector has been written back, and what was behind it in its last
  // sector only if the range starts in that sector too.
  function ByteAfter(f: seq<bv8>, p: int, d: seq<bv8>, wraps: bool, k: int): bv8
    requires |f| == SIZE && 0 <= k < SIZE && 0 <= p
  {
    var first, last := SectorOf(p), SectorOf(p + |d| - 1);
    if d == [] then f[k]
    else if wraps && last + 1 == SIZE / SECTOR && SectorOf(k) == 0 then 0xFF
    else if p <= k < p + |d| then d[k - p]
    else if SectorOf(k) == last + 1 then 0xFF
    else if SectorOf(k) == last && first < last && p + |d| <= k then 0xFF
    else f[k]
  }

  function After(f: seq<bv8>, p: int, d: seq<bv8>, wraps: bool): (g: seq<bv8>)
    requires |f| == SIZE && 0 <= p
    ensures |g| == SIZE
  {
    seq(SIZE, k requires 0 <= k < SIZE => ByteAfter(f, p, d, wraps, k))
  }

  // Writing a range up to a sector boundary and then more of the next sector is
  // writing the whole range.
  lemma ComposeByte(f: seq<bv8>, p: int, d: seq<bv8>, e: seq<bv8>, wraps: bool, k: int)
    requires |f| == SIZE && 0 <= k < SIZE && 0 <= p && p + |d| + |e| <= SIZE
    requires (p + |d|) % SECTOR == 0 && |e| <= SECTOR && d != []
    ensures ByteAfter(After(f, p, d, wraps), p + |d|, e, wraps, k) == ByteAfter(f, p, d + e, wraps, k)
  {
    var q := p + |d|;
    var m := q / SECTOR;
    assert q == m * SECTOR;
    assert SectorOf(q - 1) == m - 1;
    assert After(f, p, d, wraps)[k] == ByteAfter(f, p, d, wraps, k);
    if e == [] {
      assert d + e == d;
    } else {
      assert SectorOf(q) == m && SectorOf(q + |e| - 1) == m;
      assert SectorOf(p) <= m - 1;
      ComposeWithin(f, p, d, e, wraps, k, m);
    }
  }

  lemma ComposeWithin(f: seq<bv8>, p: int, d: seq<bv8>, e: seq<bv8>, wraps: bool, k: int, m: int)
    requires |f| == SIZE && 0 <= k < SIZE && 0 <= p && p + |d| + |e| <= SIZE
    requires p + |d| == m * SECTOR && |e| <= SECTOR && d != [] && e != []
    requires SectorOf(p) <= m - 1 && SectorOf(p + |d| - 1) == m - 1 && SectorOf(p + |d|) == m
    requires SectorOf(p + |d| + |e| - 1) == m
    ensures ByteAfter(After(f, p, d, wraps), p + |d|, e, wraps, k) == ByteAfter(f, p, d + e, wraps, k)
  {
    assert After(f, p, d, wraps)[k] == ByteAfter(f, p, d, wraps, k);
    assert (d + e)[..|d|] == d && (d + e)[|d|..] == e;
    if k < p + |d| {
      assert SectorOf(k) <= m - 1;
    } else {
      assert m <= SectorOf(k);
    }
  }

  lemma Compose(f: seq<bv8>, p: int, d: seq<bv8>, e: seq<bv8>, wraps: bool)
    requires |f| == SIZE && 0 <= p && p + |d| + |e| <= SIZE
    requires (p + |d|) % SECTOR == 0 && |e| <= SECTOR
    ensures After(After(f, p, d, wraps), p + |d|, e, wraps) == After(f, p, d + e, wraps)
  {
    forall k | 0 <= k < SIZE
      ensures ByteAfter(After(f, p, d, wraps), p + |d|, e, wraps, k) == ByteAfter(f, p, d + e, wraps, k)
    {
      if d == [] {
        assert d + e == e && After(f, p, d, wraps) == f;
      } else {
        ComposeByte(f, p, d, e, wraps, k);
      }
    }
  }

  // ---- what a write guarantees ---------------------------------------------

  // The write reaches the last sector of a device that wraps, so the erasing
  // reaches the first one.
  predicate WrapsAround(p: int, len: int, wraps: bool) {
    wraps && SectorOf(p + len - 1) + 1 == SIZE / SECTOR
  }

  // The bytes a write may change: those of its sectors and of the next one.
  predicate InFootprint(p: int, len: int, wraps: bool, k: int) {
    0 < len && (SectorOf(p) <= SectorOf(k) <= SectorOf(p + len - 1) + 1
      || (WrapsAround(p, len, wraps) && SectorOf(k) == 0))
  }

  // Those are exactly the bytes of the sectors that the device erases for it.
  lemma FootprintErased(p: int, len: int, wraps: bool, k: int)
    requires 0 <= p && 0 < len && p + len <= SIZE && 0 <= k < SIZE
    ensures InFootprint(p, len, wraps, k) <==> ErasedBy(SectorOf(p), SectorOf(p + len - 1) + 1, wraps, k)
  {
    SectorsOrdered(p, len, k);
  }

  // The range holds the data, unless the erasing wraps around onto it.
  lemma DataWritten(f: seq<bv8>, p: int, d: seq<bv8>, wraps: bool, k: int)
    requires |f| == SIZE && 0 <= p && p + |d| <= SIZE && p <= k < p + |d|
    ensures After(f, p, d, wraps)[k] == d[k - p] <==>
      !(WrapsAround(p, |d|, wraps) && SectorOf(k) == 0) || d[k - p] == 0xFF
  {
  }

  lemma SectorsOrdered(p: int, len: int, k: int)
    requires 0 < len
    ensures SectorOf(p) <= SectorOf(p + len - 1)
    ensures p <= k < p + len ==> SectorOf(p) <= SectorOf(k) <= SectorOf(p + len - 1)
  {
  }

  // Bytes outside the footprint are kept.
  lemma OutsideKept(f: seq<bv8>, p: int, d: seq<bv8>, wraps: bool, k: int)
    requires |f| == SIZE && 0 <= p && p + |d| <= SIZE && 0 <= k < SIZE && !InFootprint(p, |d|, wraps, k)
    ensures After(f, p, d, wraps)[k] == f[k]
  {
    if d != [] {
      SectorsOrdered(p, |d|, k);
    }
  }

  // Bytes in front of the range in its first sector are kept.
  lemma HeadKept(f: seq<bv8>, p: int, d: seq<bv8>, wraps: bool, k: int)
    requires |f| == SIZE && 0 <= p && p + |d| <= SIZE && 0 <= k < p && SectorOf(k) == SectorOf(p)
    requires !(d != [] && WrapsAround(p, |d|, wraps) && SectorOf(k) == 0)
    ensures After(f, p, d, wraps)[k] == f[k]
  {
    if d != [] {
      assert SectorOf(p) <= SectorOf(p + |d| - 1);
    }
  }

  // Bytes behind the range in its last sector are kept exactly if the write
  // stays in one sector, or they were erased already; otherwise they are lost.
  lemma TailKept(f: seq<bv8>, p: int, d: seq<bv8>, wraps: bool, k: int)
    requires |f| == SIZE && 0 <= p && p + |d| <= SIZE && d != []
    requires p + |d| <= k < SIZE && SectorOf(k) == SectorOf(p + |d| - 1)
    requires !(WrapsAround(p, |d|, wraps) && SectorOf(k) == 0)
    ensures After(f, p, d, wraps)[k] == f[k] <==> SectorOf(p) == SectorOf(p + |d| - 1) || f[k] == 0xFF
  {
    assert SectorOf(p) <= SectorOf(p + |d| - 1);
  }

  // The sector behind the range ends up erased.
  lemma NextErased(f: seq<bv8>, p: int, d: seq<bv8>, wraps: bool, k: int)
    requires |f| == SIZE && 0 <= p && p + |d| <= SIZE && d != []
    requires 0 <= k < SIZE && SectorOf(k) == SectorOf(p + |d| - 1) + 1
    ensures After(f, p, d, wraps)[k] == 0xFF
  {
  }

  // One sector erased together with the next one and programmed.
  lemma SectorWritten(f: seq<bv8>, g: seq<bv8>, p: int, d: seq<bv8>, wraps: bool)
    requires |f| == SIZE && |g| == SIZE && 0 <= p && p % SECTOR == 0 && |d| == SECTOR && p + |d| <= SIZE
    requires forall k :: 0 <= k < SIZE ==>
      g[k] == (if p <= k < p + |d| then d[k - p] else if ErasedBy(SectorOf(p), SectorOf(p + |d|), wraps, k) then 0xFF
        else f[k])
    ensures g == After(f, p, d, wraps)
  {
    var m := p / SECTOR;
    assert p == m * SECTOR && SectorOf(p + |d|) == m + 1 && SectorOf(p + |d| - 1) == m;
    forall k | 0 <= k < SIZE
      ensures g[k] == ByteAfter(f, p, d, wraps, k)
    {
      assert p <= k < p + |d| <==> SectorOf(k) == m;
    }
  }

  // A sector with some of its bytes replaced.
  function Patched(s: seq<bv8>, at: int, d: seq<bv8>): (r: seq<bv8>)
    requires 0 <= at && at + |d| <= |s|
    ensures |r| == |s|
    ensures forall k :: 0 <= k < |r| ==> r[k] == if at <= k < at + |d| then d[k - at] else s[k]
  {
    s[..at] + d + s[at + |d|..]
  }

  // Reading a sector, replacing some bytes and writing it back is writing the
  // bytes.
  lemma PatchWritten(f: seq<bv8>, p: int, d: seq<bv8>, wraps: bool)
    requires |f| == SIZE && 0 <= p && d != [] && p + |d| <= SIZE && SectorOf(p) == SectorOf(p + |d| - 1)
    ensures var lo := SectorOf(p) * SECTOR;
      && 0 <= lo && lo + SECTOR <= SIZE && p % SECTOR == p - lo && p % SECTOR + |d| <= SECTOR
      && After(f, lo, Patched(f[lo..lo + SECTOR], p % SECTOR, d), wraps) == After(f, p, d, wraps)
  {
    var m := SectorOf(p);
    var lo := m * SECTOR;
    assert lo + SECTOR <= SIZE;
    var e := Patched(f[lo..lo + SECTOR], p % SECTOR, d);
    assert SectorOf(lo) == m && SectorOf(lo + |e| - 1) == m;
    forall k | 0 <= k < SIZE
      ensures ByteAfter(f, lo, e, wraps, k) == ByteAfter(f, p, d, wraps, k)
    {
      assert lo <= k < lo + SECTOR <==> SectorOf(k) == m;
    }
  }

  // ---- many writes ---------------------------------------------------------

  // Data written at an offset.
  datatype Put = Put(at: int, data: seq<bv8>)

  predicate Fits(log: seq<Put>) {
    forall i :: 0 <= i < |log| ==> 0 <= log[i].at && log[i].at + |log[i].data| <= SIZE
  }

  // The flash after writes in order.
  function Replay(f: seq<bv8>, log: seq<Put>, wraps: bool): (g: seq<bv8>)
    requires |f| == SIZE && Fits(log)
    ensures |g| == SIZE
    decreases |log|
  {
    if log == [] then f else Replay(After(f, log[0].at, log[0].data, wraps), log[1..], wraps)
  }

  lemma {:induction false} ReplayMore(f: seq<bv8>, log: seq<Put>, more: seq<Put>, wraps: bool)
    requires |f| == SIZE && Fits(log) && Fits(more)
    ensures Fits(log + more) && Replay(f, log + more, wraps) == Replay(Replay(f, log, wraps), more, wraps)
    decreases |log|
  {
    if log == [] {
      assert log + more == more;
    } else {
      assert (log + more)[1..] == log[1..] + more;
      ReplayMore(After(f, log[0].at, log[0].data, wraps), log[1..], more, wraps);
    }
  }

  // A byte in the footprint of none of them is kept.
  lemma {:induction false} ReplayKeeps(f: seq<bv8>, log: seq<Put>, wraps: bool, k: int)
    requires |f| == SIZE && Fits(log) && 0 <= k < SIZE
    requires forall j :: 0 <= j < |log| ==> !InFootprint(log[j].at, |log[j].data|, wraps, k)
    ensures Replay(f, log, wraps)[k] == f[k]
    decreases |log|
  {
    if log != [] {
      OutsideKept(f, log[0].at, log[0].data, wraps, k);
      ReplayKeeps(After(f, log[0].at, log[0].data, wraps), log[1..], wraps, k);
    }
  }

  // A byte of the data of one of them survives if it is in the footprint of no
  // later one, and the erasing of its own write did not wrap around onto it.
  lemma {:induction false} Survives(f: seq<bv8>, log: seq<Put>, wraps: bool, i: int, k: int)
    requires |f| == SIZE && Fits(log) && 0 <= i < |log| && log[i].at <= k < log[i].at + |log[i].data|
    requires !(WrapsAround(log[i].at, |log[i].data|, wraps) && SectorOf(k) == 0)
    requires forall j :: i < j < |log| ==> !InFootprint(log[j].at, |log[j].data|, wraps, k)
    ensures k < SIZE && Replay(f, log, wraps)[k] == log[i].data[k - log[i].at]
    decreases |log|
  {
    var g := After(f, log[0].at, log[0].data, wraps);
    if i == 0 {
      DataWritten(f, log[0].at, log[0].data, wraps, k);
      ReplayKeeps(g, log[1..], wraps, k);
    } else {
      Survives(g, log[1..], wraps, i - 1, k);
    }
  }
}

/**
 What a firmware update writes, told from the packages in the flash: which of
 their bytes end up where, and when the update goes on, fails or ends.
 */
module UpdateImages {
  import opened SpiFlash
  import opened FlashContents
  import opened FlashFile
  import opened FipLayout
  import opened FirmwareUpdate
  import opened Words

  // ---- the size of a package -----------------------------------------------

  // It is stored in the null entry behind the other ones.
  lemma {:induction false} SizeStored(m: Mem, at: int, gs: seq<Image>, es: seq<Entry>, s: seq<bv8>, x: int, junk: int)
    requires Stored(m, at, gs, es) && NullEntry(m, at + ENTRY_SIZE * |gs|) && at + ENTRY_SIZE * |gs| + ENTRY_SIZE < SIZE
    requires |s| == 8 && Encodes(s, x) && Holds(m, at + ENTRY_SIZE * |gs| + 16, s)
    ensures FipSize(m, at, junk) == ToInt(x)
    decreases |gs|
  {
    hide Le, Encodes, Holds, NullEntry, IsImage;
    if gs == [] {
      LeReadsBack(m, at + 16, s, x);
    } else {
      EntryReadsBack(m, at, gs[0], es[0]);
      SizeStored(m, at + ENTRY_SIZE, gs[1..], es[1..], s, x, junk);
    }
  }

  predicate NullAt(m: Mem, at: int, q: int) { NullEntry(m, at + ENTRY_SIZE * q) }

  // Without a null entry it is not set.
  lemma {:induction false} SizeUnset(m: Mem, at: int, junk: int)
    requires forall q :: 0 <= q && at + ENTRY_SIZE * q + ENTRY_SIZE < SIZE ==> !NullAt(m, at, q)
    ensures FipSize(m, at, junk) == junk
    decreases SIZE - at
  {
    if at + ENTRY_SIZE < SIZE {
      assert !NullAt(m, at, 0);
      forall q | 0 <= q && at + ENTRY_SIZE + ENTRY_SIZE * q + ENTRY_SIZE < SIZE
        ensures !NullAt(m, at + ENTRY_SIZE, q)
      {
        assert !NullAt(m, at, q + 1);
        assert at + ENTRY_SIZE * (q + 1) == at + ENTRY_SIZE + ENTRY_SIZE * q;
      }
      SizeUnset(m, at + ENTRY_SIZE, junk);
    }
  }

  // ---- when an update goes on ----------------------------------------------

  // The images of all entries lie in the flash.
  predicate AllFit(es: seq<Entry>) {
    forall i :: 0 <= i < |es| ==> es[i].size == 0 || es[i].nvm + es[i].size <= SIZE
  }

  // Writing them succeeds exactly then.
  lemma {:induction false} WritesFit(f: seq<bv8>, ram: Mem, es: seq<Entry>, wraps: bool)
    requires |f| == SIZE && InOrder(es)
    ensures WriteAll(f, ram, es, wraps).ok <==> AllFit(es)
    decreases |es|
  {
    if es != [] {
      assert forall i :: 1 <= i < |es| ==> es[1..][i - 1] == es[i];
      assert forall i :: 0 <= i < |es| - 1 ==> es[1..][i] == es[i + 1];
      WritesFit(WriteOne(f, ram, es[0], wraps).flash, ram, es[1..], wraps);
    }
  }

  // The entries and the flags in RAM are those of the package in the flash.
  lemma SameEntry(ram: Mem, flash: Mem, off: int, n: nat, a: int)
    requires 0 <= a && a + ENTRY_SIZE <= n
    ensures var m := RamAfter(ram, flash, off, n);
      EntryAt(m, a) == EntryAt(flash, off + a) && (NullEntry(m, a) <==> NullEntry(flash, off + a))
  {
    hide Le, AllZero, Pow256;
    var m := RamAfter(ram, flash, off, n);
    LeSame(m, a, flash, off + a, 16);
    LeSame(m, a + 16, flash, off + a + 16, 8);
    LeSame(m, a + 24, flash, off + a + 24, 8);
    LeSame(m, a + 40, flash, off + a + 40, 8);
  }

  lemma SameFlags(ram: Mem, flash: Mem, off: int, n: nat)
    requires HEADER_SIZE <= n
    ensures EndOfFile(RamAfter(ram, flash, off, n), 0) <==> EndOfFile(flash, off)
  {
    LeSame(RamAfter(ram, flash, off, n), 8, flash, off + 8, 8);
  }

  // A turn: without a package the update ends well, a package of no size ends it
  // with a failure, and so does one with an image that does not fit.  Otherwise it
  // goes on behind the package unless this is marked as the last one.
  lemma TurnOutcome(f: seq<bv8>, ram: Mem, off: int, outside: int -> bv8, junk: int, wraps: bool)
    requires |f| == SIZE
    ensures var t, flash := TurnAt(f, ram, off, outside, junk, wraps), Mem(f, outside);
      var n := FipSize(flash, off + HEADER_SIZE, junk);
      if !HasPackage(flash, off) then t.status == STATUS_SUCCESS && !t.goOn
      else if n == 0 || off < 0 || SIZE <= off then t.status == STATUS_FAIL && !t.goOn
      else if n < 0 then t.status == Crash && !t.goOn
      else
        && t.status == (if AllFit(Entries(t.ram, HEADER_SIZE, n)) then STATUS_SUCCESS else STATUS_FAIL)
        && (forall i :: 0 <= i < n ==> Get(t.ram, i) == Get(flash, off + i))
        && (HEADER_SIZE <= n ==> (t.goOn <==> t.status == STATUS_SUCCESS && !EndOfFile(flash, off)))
        && (t.goOn ==> t.next == off + n)
  {
    var flash := Mem(f, outside);
    var n := FipSize(flash, off + HEADER_SIZE, junk);
    if HasPackage(flash, off) && 0 < n && 0 <= off < SIZE {
      var m := RamAfter(ram, flash, off, n);
      WritesFit(f, m, Entries(m, HEADER_SIZE, n), wraps);
      if HEADER_SIZE <= n {
        SameFlags(ram, flash, off, n);
      }
    }
  }

  // ---- which bytes are written ---------------------------------------------

  // A write of the image that the entry at `a` of a package of size `n` at `off`
  // asks for.  Its bytes are those of the package, as far as this reaches.
  ghost predicate FromPackage(flash: Mem, off: int, n: int, a: int, p: Put) {
    && HEADER_SIZE <= a && (a - HEADER_SIZE) % ENTRY_SIZE == 0 && a + ENTRY_SIZE < n && !NullEntry(flash, off + a)
    && var e := EntryAt(flash, off + a);
       && 0 < e.size && p.at == e.nvm < SIZE && |p.data| == (if e.nvm + e.size <= SIZE then e.size else SIZE - e.nvm)
       && forall x :: 0 <= x < |p.data| && e.offset + x < n ==> p.data[x] == Get(flash, off + e.offset + x)
  }

  lemma {:induction false} EntryOrigin(ram: Mem, at: int, loadSize: int, q: nat)
    requires q < |Entries(ram, at, loadSize)|
    ensures Entries(ram, at, loadSize)[q] == EntryAt(ram, at + ENTRY_SIZE * q)
    ensures at + ENTRY_SIZE * q + ENTRY_SIZE < loadSize && !NullEntry(ram, at + ENTRY_SIZE * q)
    decreases q
  {
    hide NullEntry, EntryAt;
    if q > 0 {
      EntryOrigin(ram, at + ENTRY_SIZE, loadSize, q - 1);
    }
  }

  lemma {:induction false} ImageOrigin(ram: Mem, es: seq<Entry>, i: nat) returns (q: nat)
    requires InOrder(es) && i < |ImagePuts(ram, es)|
    ensures q < |es| && 0 < es[q].size && es[q].nvm < SIZE
    ensures ImagePuts(ram, es)[i] == Put(es[q].nvm, Bytes(ram, es[q].offset, Room(es[q].nvm, es[q].size)))
    decreases |es|
  {
    var e := es[0];
    if e.size == 0 {
      q := ImageOrigin(ram, es[1..], i);
      q := q + 1;
    } else if i == 0 {
      q := 0;
    } else {
      q := ImageOrigin(ram, es[1..], i - 1);
      q := q + 1;
    }
  }

  lemma TurnOrigin(f: seq<bv8>, ram: Mem, off: int, outside: int -> bv8, junk: int, i: nat) returns (a: int)
    requires |f| == SIZE && i < |TurnPuts(f, ram, off, outside, junk)|
    ensures var load := LoadOf(Mem(f, outside), off, junk);
      load.Loaded? && FromPackage(Mem(f, outside), off, load.size, a, TurnPuts(f, ram, off, outside, junk)[i])
  {
    hide NullEntry, EntryAt, Entries, ImagePuts, FipSize, HasPackage;
    var flash := Mem(f, outside);
    var n := LoadOf(flash, off, junk).size;
    var m := RamAfter(ram, flash, off, n);
    var q := ImageOrigin(m, Entries(m, HEADER_SIZE, n), i);
    EntryOrigin(m, HEADER_SIZE, n, q);
    a := HEADER_SIZE + ENTRY_SIZE * q;
    SameEntry(ram, flash, off, n, a);
  }

  lemma FirstTurn(f: seq<bv8>, ram: Mem, off: int, outside: int -> bv8, junk: int -> int, wraps: bool, i: nat)
    requires |f| == SIZE && i < |UpdatePuts(f, ram, off, outside, junk, wraps)|
    ensures var t, log := TurnAt(f, ram, off, outside, junk(off), wraps), TurnPuts(f, ram, off, outside, junk(off));
      var puts, run := UpdatePuts(f, ram, off, outside, junk, wraps), Packages(f, ram, off, outside, junk, wraps);
      && 0 < |run.visited| && run.visited[0] == off && FlashAt(f, ram, off, outside, junk, wraps, 0) == f
      && (i < |log| ==> puts[i] == log[i])
      && (|log| <= i ==>
            && t.goOn
            && var rest := UpdatePuts(t.flash, t.ram, t.next, outside, junk, wraps);
               var next := Packages(t.flash, t.ram, t.next, outside, junk, wraps);
               && puts == log + rest && run.visited == [off] + next.visited
               && forall j: nat :: FlashAt(f, ram, off, outside, junk, wraps, j + 1) ==
                                   FlashAt(t.flash, t.ram, t.next, outside, junk, wraps, j))
  {
    hide TurnAt, TurnPuts;
    assert forall j: nat {:trigger FlashAt(f, ram, off, outside, junk, wraps, j + 1)} ::
      var t := TurnAt(f, ram, off, outside, junk(off), wraps);
      t.goOn ==> FlashAt(f, ram, off, outside, junk, wraps, j + 1) ==
                 FlashAt(t.flash, t.ram, t.next, outside, junk, wraps, j);
  }

  // Every write of an update is that of an image of one of the packages visited,
  // in the flash as the earlier ones left it.
  lemma {:induction false} UpdateOrigin(f: seq<bv8>, ram: Mem, off: int, outside: int -> bv8, junk: int -> int,
      wraps: bool, i: nat)
      returns (j: nat, a: int)
    requires |f| == SIZE && i < |UpdatePuts(f, ram, off, outside, junk, wraps)|
    ensures j < |Packages(f, ram, off, outside, junk, wraps).visited|
    ensures var v := Packages(f, ram, off, outside, junk, wraps).visited[j];
      var flash := Mem(FlashAt(f, ram, off, outside, junk, wraps, j), outside);
      var load := LoadOf(flash, v, junk(v));
      load.Loaded? && FromPackage(flash, v, load.size, a, UpdatePuts(f, ram, off, outside, junk, wraps)[i])
    decreases if off < SIZE then SIZE - off else 0
  {
    hide FromPackage, TurnAt, TurnPuts, LoadOf, Packages, FlashAt, UpdatePuts;
    var t := TurnAt(f, ram, off, outside, junk(off), wraps);
    var log := TurnPuts(f, ram, off, outside, junk(off));
    FirstTurn(f, ram, off, outside, junk, wraps, i);
    if i < |log| {
      j := 0;
      a := TurnOrigin(f, ram, off, outside, junk(off), i);
    } else {
      j, a := UpdateOrigin(t.flash, t.ram, t.next, outside, junk, wraps, i - |log|);
      j := j + 1;
    }
  }

  // After a whole update a byte of an image is at its place if no later image of
  // any package has it in its footprint, the header has not, that is its sectors
  // and the one behind them, and the write of the image did not wrap onto it.  It
  // is the byte that the package had in the flash, if the image lies in the package.
  lemma UpdateLands(f: seq<bv8>, ram: Mem, off: int, outside: int -> bv8, junk: int -> int, wraps: bool, i: int, k: int)
      returns (j: nat, a: int)
    requires |f| == SIZE && 0 <= i < |UpdatePuts(f, ram, off, outside, junk, wraps)|
    requires var p := UpdatePuts(f, ram, off, outside, junk, wraps)[i];
      p.at <= k < p.at + |p.data| && !(WrapsAround(p.at, |p.data|, wraps) && SectorOf(k) == 0)
    requires var log := UpdatePuts(f, ram, off, outside, junk, wraps);
      forall q :: i < q < |log| ==> !InFootprint(log[q].at, |log[q].data|, wraps, k)
    requires 0 <= off < SIZE ==> !InFootprint(off, Room(off, HEADER_SIZE), wraps, k)
    ensures k < SIZE
    ensures var p := UpdatePuts(f, ram, off, outside, junk, wraps)[i];
      Erased(Packages(f, ram, off, outside, junk, wraps).flash, off, wraps)[k] == p.data[k - p.at]
    ensures j < |Packages(f, ram, off, outside, junk, wraps).visited|
    ensures var v := Packages(f, ram, off, outside, junk, wraps).visited[j];
      var flash := Mem(FlashAt(f, ram, off, outside, junk, wraps, j), outside);
      var load, e := LoadOf(flash, v, junk(v)), EntryAt(flash, v + a);
      && load.Loaded? && FromPackage(flash, v, load.size, a, UpdatePuts(f, ram, off, outside, junk, wraps)[i])
      && (e.offset + (k - e.nvm) < load.size ==>
            Erased(Packages(f, ram, off, outside, junk, wraps).flash, off, wraps)[k] ==
              Get(flash, v + e.offset + (k - e.nvm)))
  {
    hide UpdatePuts, Replay, Packages, FlashAt, LoadOf, EntryAt, Erased, NullEntry;
    var log := UpdatePuts(f, ram, off, outside, junk, wraps);
    var all := log + HeaderPuts(off);
    forall q | i < q < |all|
      ensures !InFootprint(all[q].at, |all[q].data|, wraps, k)
    {
      assert q >= |log| ==> all[q] == HeaderPuts(off)[q - |log|];
    }
    Survives(f, all, wraps, i, k);
    j, a := UpdateOrigin(f, ram, off, outside, junk, wraps, i);
    UpdateReplays(f, ram, off, outside, junk, wraps);
  }
}

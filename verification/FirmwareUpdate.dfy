/**
 The firmware update: packages are copied from the flash to RAM one after the
 other, and the images of each are written to their places in the flash.
 */
module FirmwareUpdate {
  import opened Folding
  import opened SpiFlash
  import opened FlashContents
  import opened FlashFile
  import opened FipLayout
  import opened Words

  const FLASH_BASE: int := 0x800_0000

  // Crash stands for a copy of a negative, that is enormous, number of bytes.
  datatype Status = STATUS_SUCCESS | STATUS_FAIL | Crash

  // ---- what the steps do to RAM and flash ----------------------------------

  // The size of the package whose entries start at `at`, from its null entry.
  // Without one before the end of the flash the variable is never set: `junk`.
  function FipSize(m: Mem, at: int, junk: int): int
    decreases SIZE - at
  {
    if at + ENTRY_SIZE < SIZE then
      if NullEntry(m, at) then ToInt(EntryAt(m, at).offset) else FipSize(m, at + ENTRY_SIZE, junk)
    else junk
  }

  // Outcome of fwu_load_fip_data for a package at a flash offset.
  datatype Load = Loaded(size: int) | NoPackage | LoadFails | LoadCrashes

  function LoadOf(flash: Mem, off: int, junk: int): Load {
    if !HasPackage(flash, off) then NoPackage
    else
      var n := FipSize(flash, off + HEADER_SIZE, junk);
      if n == 0 || off < 0 || SIZE <= off then LoadFails else if n < 0 then LoadCrashes else Loaded(n)
  }

  // RAM after `n` bytes were copied to its start.
  function RamAfter(ram: Mem, flash: Mem, off: int, n: nat): (m: Mem)
    ensures forall i {:trigger Get(m, i)} :: Get(m, i) == if 0 <= i < n then Get(flash, off + i) else Get(ram, i)
  {
    ram.(bytes := Bytes(flash, off, n) + if n < |ram.bytes| then ram.bytes[n..] else [])
  }

  // Entries in front of the null entry or the end of what was loaded.
  function Entries(ram: Mem, at: int, loadSize: int): (es: seq<Entry>)
    ensures forall i :: 0 <= i < |es| ==> 0 <= es[i].offset && 0 <= es[i].size && 0 <= es[i].nvm
    decreases loadSize - at
  {
    if at + ENTRY_SIZE < loadSize && !NullEntry(ram, at) then
      [EntryAt(ram, at)] + Entries(ram, at + ENTRY_SIZE, loadSize)
    else []
  }

  // Memory holds the stored entries one after the other from an address on.
  ghost predicate Stored(m: Mem, at: int, gs: seq<Image>, es: seq<Entry>)
    decreases |gs|
  {
    |gs| == |es| &&
    (gs == [] || (IsImage(gs[0], es[0]) && Holds(m, at, EntryBytes(gs[0]))
      && Stored(m, at + ENTRY_SIZE, gs[1..], es[1..])))
  }

  // The entries found in a package are the ones stored in it, if a null entry
  // follows them.
  lemma {:induction false} TocReadsBack(ram: Mem, at: int, end: int, loadSize: int, gs: seq<Image>, es: seq<Entry>)
    requires Stored(ram, at, gs, es) && end == at + ENTRY_SIZE * |gs|
    requires NullEntry(ram, end) && end < loadSize
    ensures Entries(ram, at, loadSize) == es
    decreases |gs|
  {
    if gs == [] {
      NoMoreEntries(ram, at, loadSize);
    } else {
      EntryReadsBack(ram, at, gs[0], es[0]);
      TocReadsBack(ram, at + ENTRY_SIZE, end, loadSize, gs[1..], es[1..]);
      OneMoreEntry(ram, at, loadSize, es);
    }
  }

  lemma NoMoreEntries(ram: Mem, at: int, loadSize: int)
    requires NullEntry(ram, at)
    ensures Entries(ram, at, loadSize) == []
  {
  }

  lemma OneMoreEntry(ram: Mem, at: int, loadSize: int, es: seq<Entry>)
    requires !NullEntry(ram, at) && at + ENTRY_SIZE < loadSize && es != []
    requires EntryAt(ram, at) == es[0] && Entries(ram, at + ENTRY_SIZE, loadSize) == es[1..]
    ensures Entries(ram, at, loadSize) == es
  {
    assert es == [es[0]] + es[1..];
  }

  datatype Written = Written(ok: bool, flash: seq<bv8>)

  predicate InOrder(es: seq<Entry>) {
    forall i :: 0 <= i < |es| ==> 0 <= es[i].offset && 0 <= es[i].size && 0 <= es[i].nvm
  }

  // The flash after writing one image.
  function WriteOne(f: seq<bv8>, ram: Mem, e: Entry, wraps: bool): (w: Written)
    requires |f| == SIZE && 0 <= e.size && 0 <= e.nvm
    ensures |w.flash| == SIZE
  {
    if e.size == 0 then Written(true, f)
    else if SIZE <= e.nvm then Written(false, f)
    else Written(e.nvm + e.size <= SIZE, After(f, e.nvm, Bytes(ram, e.offset, Room(e.nvm, e.size)), wraps))
  }

  // The flash after writing the images in order, up to a failure.
  function WriteAll(f: seq<bv8>, ram: Mem, es: seq<Entry>, wraps: bool): (w: Written)
    requires |f| == SIZE && InOrder(es)
    ensures |w.flash| == SIZE
    decreases |es|
  {
    if es == [] then Written(true, f)
    else
      var w := WriteOne(f, ram, es[0], wraps);
      if !w.ok then w else WriteAll(w.flash, ram, es[1..], wraps)
  }

  // Writing the images of the entries from `at` on has outcome w.
  ghost predicate Writes(f: seq<bv8>, ram: Mem, at: int, loadSize: int, wraps: bool, w: Written)
    requires |f| == SIZE
  {
    forall k {:trigger Look(k)} :: Look(k) ==> w == WriteAll(f, ram, Entries(ram, at, loadSize), wraps)
  }

  lemma WriteStarts(f: seq<bv8>, ram: Mem, loadSize: int, wraps: bool)
    requires |f| == SIZE
    ensures Writes(f, ram, HEADER_SIZE, loadSize, wraps, WriteAll(f, ram, Entries(ram, HEADER_SIZE, loadSize), wraps))
  {
  }

  lemma WriteNext(f: seq<bv8>, ram: Mem, at: int, loadSize: int, wraps: bool, w: Written)
    requires |f| == SIZE && at + ENTRY_SIZE < loadSize && !NullEntry(ram, at) && Writes(f, ram, at, loadSize, wraps, w)
    ensures 0 <= EntryAt(ram, at).size && 0 <= EntryAt(ram, at).nvm
    ensures var v := WriteOne(f, ram, EntryAt(ram, at), wraps);
      if v.ok then Writes(v.flash, ram, at + ENTRY_SIZE, loadSize, wraps, w) else w == v
  {
    assert Look(0);
    var rest := Entries(ram, at + ENTRY_SIZE, loadSize);
    assert Entries(ram, at, loadSize) == [EntryAt(ram, at)] + rest && ([EntryAt(ram, at)] + rest)[1..] == rest;
  }

  lemma WriteEnds(f: seq<bv8>, ram: Mem, at: int, loadSize: int, wraps: bool, w: Written)
    requires |f| == SIZE && (loadSize <= at + ENTRY_SIZE || NullEntry(ram, at))
    requires Writes(f, ram, at, loadSize, wraps, w)
    ensures w == Written(true, f)
  {
    assert Look(0);
  }

  // One turn of the loop of fwu_update_fip, and whether there is another.
  datatype Turn = Turn(status: Status, flash: seq<bv8>, ram: Mem, next: int, goOn: bool)

  function TurnAt(f: seq<bv8>, ram: Mem, off: int, outside: int -> bv8, junk: int, wraps: bool): (t: Turn)
    requires |f| == SIZE
    ensures |t.flash| == SIZE && (t.goOn ==> 0 <= off < SIZE && off < t.next)
  {
    match LoadOf(Mem(f, outside), off, junk)
    case NoPackage => Turn(STATUS_SUCCESS, f, ram, off, false)
    case LoadFails => Turn(STATUS_FAIL, f, ram, off, false)
    case LoadCrashes => Turn(Crash, f, ram, off, false)
    case Loaded(n) =>
      var m := RamAfter(ram, Mem(f, outside), off, n);
      var w := WriteAll(f, m, Entries(m, HEADER_SIZE, n), wraps);
      if !w.ok then Turn(STATUS_FAIL, w.flash, m, off, false)
      else Turn(STATUS_SUCCESS, w.flash, m, off + n, !EndOfFile(m, 0))
  }

  datatype Result = Result(status: Status, flash: seq<bv8>, ram: Mem, visited: seq<int>)

  // The whole loop: its status, flash and RAM, and the offsets at which it looked
  // for packages.
  function Packages(f: seq<bv8>, ram: Mem, off: int, outside: int -> bv8, junk: int -> int, wraps: bool): (r: Result)
    requires |f| == SIZE
    ensures |r.flash| == SIZE && |r.visited| > 0 && r.visited[0] == off
    decreases if off < SIZE then SIZE - off else 0
  {
    var t := TurnAt(f, ram, off, outside, junk(off), wraps);
    if !t.goOn then Result(t.status, t.flash, t.ram, [off])
    else
      var rest := Packages(t.flash, t.ram, t.next, outside, junk, wraps);
      rest.(visited := [off] + rest.visited)
  }

  // The flash after fwu_erase_fip_data.
  function Erased(f: seq<bv8>, off: int, wraps: bool): (g: seq<bv8>)
    requires |f| == SIZE
    ensures |g| == SIZE
  {
    if 0 <= off < SIZE then After(f, off, seq(Room(off, HEADER_SIZE), _ => 0xFF), wraps) else f
  }

  // ---- the writes of an update ---------------------------------------------

  // The images written for entries, up to the first that the flash does not hold;
  // of that one the part in front of the end.
  function ImagePuts(ram: Mem, es: seq<Entry>): (log: seq<Put>)
    requires InOrder(es)
    ensures Fits(log)
    decreases |es|
  {
    if es == [] then []
    else
      var e := es[0];
      if e.size == 0 then ImagePuts(ram, es[1..])
      else if SIZE <= e.nvm then []
      else
        var put := Put(e.nvm, Bytes(ram, e.offset, Room(e.nvm, e.size)));
        if e.nvm + e.size <= SIZE then [put] + ImagePuts(ram, es[1..]) else [put]
  }

  lemma {:induction false} ImagesReplay(f: seq<bv8>, ram: Mem, es: seq<Entry>, wraps: bool)
    requires |f| == SIZE && InOrder(es)
    ensures WriteAll(f, ram, es, wraps).flash == Replay(f, ImagePuts(ram, es), wraps)
    decreases |es|
  {
    if es != [] {
      var w := WriteOne(f, ram, es[0], wraps);
      if w.ok {
        ImagesReplay(w.flash, ram, es[1..], wraps);
      }
    }
  }

  // Those of one turn, and of all turns.
  function TurnPuts(f: seq<bv8>, ram: Mem, off: int, outside: int -> bv8, junk: int): (log: seq<Put>)
    requires |f| == SIZE
    ensures Fits(log)
  {
    match LoadOf(Mem(f, outside), off, junk)
    case Loaded(n) =>
      var m := RamAfter(ram, Mem(f, outside), off, n);
      ImagePuts(m, Entries(m, HEADER_SIZE, n))
    case _ => []
  }

  function UpdatePuts(f: seq<bv8>, ram: Mem, off: int, outside: int -> bv8, junk: int -> int,
      wraps: bool): (log: seq<Put>)
    requires |f| == SIZE
    ensures Fits(log)
    decreases if off < SIZE then SIZE - off else 0
  {
    var t := TurnAt(f, ram, off, outside, junk(off), wraps);
    TurnPuts(f, ram, off, outside, junk(off)) +
      if t.goOn then UpdatePuts(t.flash, t.ram, t.next, outside, junk, wraps) else []
  }

  lemma TurnReplays(f: seq<bv8>, ram: Mem, off: int, outside: int -> bv8, junk: int, wraps: bool)
    requires |f| == SIZE
    ensures TurnAt(f, ram, off, outside, junk, wraps).flash == Replay(f, TurnPuts(f, ram, off, outside, junk), wraps)
  {
    var load := LoadOf(Mem(f, outside), off, junk);
    if load.Loaded? {
      var m := RamAfter(ram, Mem(f, outside), off, load.size);
      ImagesReplay(f, m, Entries(m, HEADER_SIZE, load.size), wraps);
    }
  }

  // The loop leaves the flash as those writes do, failed or not.
  lemma {:induction false} PackagesReplay(f: seq<bv8>, ram: Mem, off: int, outside: int -> bv8, junk: int -> int,
      wraps: bool)
    requires |f| == SIZE
    ensures Packages(f, ram, off, outside, junk, wraps).flash ==
      Replay(f, UpdatePuts(f, ram, off, outside, junk, wraps), wraps)
    decreases if off < SIZE then SIZE - off else 0
  {
    hide TurnAt, Replay, TurnPuts;
    var t := TurnAt(f, ram, off, outside, junk(off), wraps);
    var log := TurnPuts(f, ram, off, outside, junk(off));
    TurnReplays(f, ram, off, outside, junk(off), wraps);
    if t.goOn {
      PackagesReplay(t.flash, t.ram, t.next, outside, junk, wraps);
      ReplayMore(f, log, UpdatePuts(t.flash, t.ram, t.next, outside, junk, wraps), wraps);
    } else {
      assert log + [] == log;
    }
  }

  // The header that is overwritten in the end, as far as the flash holds it.
  function HeaderPuts(off: int): (log: seq<Put>)
    ensures Fits(log)
  {
    if 0 <= off < SIZE then [Put(off, seq(Room(off, HEADER_SIZE), _ => 0xFF))] else []
  }

  // All writes of an update.
  function AllPuts(f: seq<bv8>, ram: Mem, off: int, outside: int -> bv8, junk: int -> int, wraps: bool): (log: seq<Put>)
    requires |f| == SIZE
    ensures Fits(log)
  {
    UpdatePuts(f, ram, off, outside, junk, wraps) + HeaderPuts(off)
  }

  lemma UpdateReplays(f: seq<bv8>, ram: Mem, off: int, outside: int -> bv8, junk: int -> int, wraps: bool)
    requires |f| == SIZE
    ensures Erased(Packages(f, ram, off, outside, junk, wraps).flash, off, wraps)
         == Replay(f, AllPuts(f, ram, off, outside, junk, wraps), wraps)
  {
    var g := Packages(f, ram, off, outside, junk, wraps).flash;
    PackagesReplay(f, ram, off, outside, junk, wraps);
    ReplayMore(f, UpdatePuts(f, ram, off, outside, junk, wraps), HeaderPuts(off), wraps);
    assert Erased(g, off, wraps) == Replay(g, HeaderPuts(off), wraps);
  }

  // ---- what the update guarantees ------------------------------------------

  // No byte of image `i` lies in the footprint of a later image, and none is
  // erased by its own write wrapping around.
  predicate Undisturbed(es: seq<Entry>, i: int, wraps: bool)
    requires 0 <= i < |es|
  {
    && (forall k :: es[i].nvm <= k < es[i].nvm + es[i].size ==>
      !(WrapsAround(es[i].nvm, es[i].size, wraps) && SectorOf(k) == 0))
    && forall j, k :: i < j < |es| && es[i].nvm <= k < es[i].nvm + es[i].size ==>
      !InFootprint(es[j].nvm, es[j].size, wraps, k)
  }

  lemma OneKeeps(f: seq<bv8>, ram: Mem, e: Entry, wraps: bool, k: int)
    requires |f| == SIZE && 0 <= e.size && 0 <= e.nvm && 0 <= k < SIZE && WriteOne(f, ram, e, wraps).ok
    requires !InFootprint(e.nvm, e.size, wraps, k)
    ensures WriteOne(f, ram, e, wraps).flash[k] == f[k]
  {
    if e.size != 0 {
      OutsideKept(f, e.nvm, Bytes(ram, e.offset, e.size), wraps, k);
    }
  }

  lemma {:induction false} RestKeeps(f: seq<bv8>, ram: Mem, es: seq<Entry>, wraps: bool, k: int)
    requires |f| == SIZE && InOrder(es) && 0 <= k < SIZE && WriteAll(f, ram, es, wraps).ok
    requires forall j :: 0 <= j < |es| ==> !InFootprint(es[j].nvm, es[j].size, wraps, k)
    ensures WriteAll(f, ram, es, wraps).flash[k] == f[k]
    decreases |es|
  {
    if es != [] {
      OneKeeps(f, ram, es[0], wraps, k);
      RestKeeps(WriteOne(f, ram, es[0], wraps).flash, ram, es[1..], wraps, k);
    }
  }

  // An image that no later write disturbs is at its place in the end.
  lemma {:induction false} ImageLands(f: seq<bv8>, ram: Mem, es: seq<Entry>, wraps: bool, i: int, k: int)
    requires |f| == SIZE && InOrder(es) && WriteAll(f, ram, es, wraps).ok && 0 <= i < |es| && Undisturbed(es, i, wraps)
    requires es[i].nvm <= k < es[i].nvm + es[i].size
    ensures k < SIZE && WriteAll(f, ram, es, wraps).flash[k] == Get(ram, es[i].offset + (k - es[i].nvm))
    decreases i
  {
    var e := es[0];
    var w := WriteOne(f, ram, e, wraps);
    if i == 0 {
      DataWritten(f, e.nvm, Bytes(ram, e.offset, e.size), wraps, k);
      RestKeeps(w.flash, ram, es[1..], wraps, k);
    } else {
      assert es[1..][i - 1] == es[i];
      ImageLands(w.flash, ram, es[1..], wraps, i - 1, k);
    }
  }

  // A package built from entries, loaded and written: every image that no later
  // write disturbs is where its entry says.
  lemma PackageLands(f: seq<bv8>, ram: Mem, loadSize: int, gs: seq<Image>, es: seq<Entry>, end: int, wraps: bool,
      i: int, k: int)
    requires |f| == SIZE && Stored(ram, HEADER_SIZE, gs, es)
    requires end == HEADER_SIZE + ENTRY_SIZE * |gs| && NullEntry(ram, end) && end < loadSize
    requires InOrder(es) && WriteAll(f, ram, Entries(ram, HEADER_SIZE, loadSize), wraps).ok
    requires 0 <= i < |es| && Undisturbed(es, i, wraps) && es[i].nvm <= k < es[i].nvm + es[i].size
    ensures k < SIZE
    ensures WriteAll(f, ram, Entries(ram, HEADER_SIZE, loadSize), wraps).flash[k] ==
      Get(ram, es[i].offset + (k - es[i].nvm))
  {
    TocReadsBack(ram, HEADER_SIZE, end, loadSize, gs, es);
    ImageLands(f, ram, es, wraps, i, k);
  }

  ghost predicate Increasing(v: seq<int>) {
    && (forall i, j :: 0 <= i < j < |v| ==> v[i] < v[j])
    && (forall i :: 0 <= i < |v| - 1 ==> 0 <= v[i] < SIZE)
  }

  // Packages are looked for at increasing offsets; all but the last lie in the
  // flash.
  lemma {:induction false} VisitsIncrease(f: seq<bv8>, ram: Mem, off: int, outside: int -> bv8, junk: int -> int,
      wraps: bool)
    requires |f| == SIZE
    ensures Increasing(Packages(f, ram, off, outside, junk, wraps).visited)
    decreases if off < SIZE then SIZE - off else 0
  {
    var t := TurnAt(f, ram, off, outside, junk(off), wraps);
    if t.goOn {
      VisitsIncrease(t.flash, t.ram, t.next, outside, junk, wraps);
      OneMoreVisit(off, Packages(t.flash, t.ram, t.next, outside, junk, wraps).visited);
    }
  }

  lemma OneMoreVisit(off: int, rest: seq<int>)
    requires 0 <= off < SIZE && |rest| > 0 && off < rest[0] && Increasing(rest)
    ensures Increasing([off] + rest)
  {
    var v := [off] + rest;
    forall i, j | 0 <= i < j < |v|
      ensures v[i] < v[j]
    {
      assert v[j] == rest[j - 1];
    }
  }

  // The flash when the loop looks for a package for the i-th time.
  function FlashAt(f: seq<bv8>, ram: Mem, off: int, outside: int -> bv8, junk: int -> int, wraps: bool,
      i: nat): (g: seq<bv8>)
    requires |f| == SIZE
    ensures |g| == SIZE
    decreases i
  {
    var t := TurnAt(f, ram, off, outside, junk(off), wraps);
    if i == 0 then f
    else if !t.goOn then t.flash
    else FlashAt(t.flash, t.ram, t.next, outside, junk, wraps, i - 1)
  }

  // Each offset is the previous one plus the size of the package found there.
  lemma {:induction false} NextVisit(f: seq<bv8>, ram: Mem, off: int, outside: int -> bv8, junk: int -> int,
      wraps: bool, i: nat)
    requires |f| == SIZE && i + 1 < |Packages(f, ram, off, outside, junk, wraps).visited|
    ensures var v := Packages(f, ram, off, outside, junk, wraps).visited;
      var load := LoadOf(Mem(FlashAt(f, ram, off, outside, junk, wraps, i), outside), v[i], junk(v[i]));
      load.Loaded? && v[i + 1] == v[i] + load.size
    decreases i
  {
    hide Packages, FlashAt, LoadOf, TurnAt;
    var t := TurnAt(f, ram, off, outside, junk(off), wraps);
    FirstVisit(f, ram, off, outside, junk, wraps, t, i);
    if i > 0 {
      NextVisit(t.flash, t.ram, t.next, outside, junk, wraps, i - 1);
    }
  }

  // The first turn, and the offsets visited by the others.
  lemma FirstVisit(f: seq<bv8>, ram: Mem, off: int, outside: int -> bv8, junk: int -> int, wraps: bool, t: Turn, i: nat)
    requires |f| == SIZE && t == TurnAt(f, ram, off, outside, junk(off), wraps)
    requires 1 < |Packages(f, ram, off, outside, junk, wraps).visited|
    ensures |t.flash| == SIZE
    ensures Packages(f, ram, off, outside, junk, wraps).visited ==
      [off] + Packages(t.flash, t.ram, t.next, outside, junk, wraps).visited
    ensures Packages(t.flash, t.ram, t.next, outside, junk, wraps).visited[0] == t.next
    ensures var load := LoadOf(Mem(f, outside), off, junk(off)); load.Loaded? && t.next == off + load.size
    ensures FlashAt(f, ram, off, outside, junk, wraps, 0) == f
    ensures 0 < i ==>
      FlashAt(f, ram, off, outside, junk, wraps, i) == FlashAt(t.flash, t.ram, t.next, outside, junk, wraps, i - 1)
  {
  }

  // An update leaves no package at its address, so it is not repeated.
  lemma NoPackageLeft(f: seq<bv8>, off: int, wraps: bool, outside: int -> bv8)
    requires |f| == SIZE && 0 <= off && off + HEADER_SIZE <= SIZE
    ensures !HasPackage(Mem(Erased(f, off, wraps), outside), off)
  {
    var m := Mem(Erased(f, off, wraps), outside);
    forall i | off <= i < off + 4
      ensures Get(m, i) as int == 0xFF
    {
      DataWritten(f, off, seq(HEADER_SIZE, _ => 0xFF), wraps, i);
    }
    LeOnes(m, off, 4);
    assert Pow256(4) == 0x1_0000_0000;
  }

  // A package whose null entry says that its size is 0.
  const FIP_OFFSET: int := 0x300_0000

  function BadPackage(): (f: seq<bv8>)
    ensures |f| == SIZE
  {
    seq(SIZE, k => if k == FIP_OFFSET || k == FIP_OFFSET + 4 then 1 else if k == FIP_OFFSET + 2 then 0x64
                   else if k == FIP_OFFSET + 3 then 0xAA else 0)
  }

  // The status of an update whose loop ended with `loop`: that of erasing the
  // header at `off`.
  function Reported(loop: Status, off: int): Status {
    if loop == Crash then Crash
    else if 0 <= off && off + HEADER_SIZE <= SIZE then STATUS_SUCCESS
    else STATUS_FAIL
  }

  // There is a package on which the loop fails, and the update reports success.
  lemma FailureMasked(ram: Mem, outside: int -> bv8, junk: int -> int, wraps: bool)
    ensures var loop := Packages(BadPackage(), ram, FIP_OFFSET, outside, junk, wraps).status;
      loop == STATUS_FAIL && Reported(loop, FIP_OFFSET) == STATUS_SUCCESS
  {
    var m := Mem(BadPackage(), outside);
    BadHeader(m);
    BadSize(m, junk(FIP_OFFSET));
  }

  lemma BadSize(m: Mem, junk: int)
    requires m.bytes == BadPackage()
    ensures FipSize(m, FIP_OFFSET + HEADER_SIZE, junk) == 0
  {
    var e := FIP_OFFSET + HEADER_SIZE;
    ZerosThere(m, e, 16);
    ZerosThere(m, e + 16, 8);
    assert EntryAt(m, e).offset == 0;
  }

  lemma {:induction false} ZerosThere(m: Mem, at: int, n: nat)
    requires m.bytes == BadPackage() && FIP_OFFSET + 5 <= at && at + n <= SIZE
    ensures AllZero(m, at, n) && Le(m, at, n) == 0
    decreases n
  {
    if n > 0 {
      assert Get(m, at) == 0;
      ZerosThere(m, at + 1, n - 1);
    }
  }

  lemma BadHeader(m: Mem)
    requires m.bytes == BadPackage()
    ensures HasPackage(m, FIP_OFFSET)
  {
    assert Get(m, FIP_OFFSET + 1) == 0 && Get(m, FIP_OFFSET + 2) == 0x64;
    assert Le(m, FIP_OFFSET + 3, 1) == 0xAA;
    assert Le(m, FIP_OFFSET + 2, 2) == 0xAA64;
    assert Le(m, FIP_OFFSET + 1, 3) == 0xAA_6400;
    assert Le(m, FIP_OFFSET, 4) == 0xAA64_0001;
    assert Get(m, FIP_OFFSET + 4) == 1;
    LeBounds(m, FIP_OFFSET + 5, 3);
    assert Le(m, FIP_OFFSET + 4, 4) == 1 + 256 * Le(m, FIP_OFFSET + 5, 3);
  }

  // ---- the update in place -------------------------------------------------

  class Updater {
    const file: File
    var ram: Mem

    ghost predicate Valid()
      reads this, file, file.dev
    {
      file.Valid() && file.inUse
    }

    function Window(): Mem
      requires Valid()
      reads this, file, file.dev, file.dev.cells
    {
      Mem(file.dev.cells[..], file.dev.outside)
    }

    constructor (nvm: File, memory: Mem)
      requires nvm.Valid() && nvm.inUse
      ensures Valid() && file == nvm && ram == memory
    {
      file, ram := nvm, memory;
    }

    // The search for the null entry.
    method FindFipSize(off: int, junk: int) returns (fipSize: int)
      requires Valid()
      ensures fipSize == FipSize(Window(), off + HEADER_SIZE, junk)
    {
      var flash := Window();
      fipSize := junk;
      var entry := off + HEADER_SIZE;
      while entry + ENTRY_SIZE < SIZE
        invariant fipSize == junk && FipSize(flash, off + HEADER_SIZE, junk) == FipSize(flash, entry, junk)
        decreases SIZE - entry
      {
        if NullEntry(flash, entry) {
          return ToInt(EntryAt(flash, entry).offset);
        }
        entry := entry + ENTRY_SIZE;
      }
    }

    // fwu_load_fip_data.
    method LoadFip(off: int, junk: int) returns (status: Status, loadSize: int, ghost load: Load)
      requires Valid()
      modifies this`ram, file`filePos
      ensures Valid() && load == LoadOf(Window(), off, junk)
      ensures load.NoPackage? ==> status == STATUS_SUCCESS && loadSize == 0
      ensures load.LoadFails? ==> status == STATUS_FAIL
      ensures load.LoadCrashes? ==> status == Crash
      ensures load.Loaded? ==> status == STATUS_SUCCESS && loadSize == load.size && 0 < loadSize
      ensures ram == if load.Loaded? && 0 < load.size then RamAfter(old(ram), Window(), off, load.size) else old(ram)
      // The package is copied byte by byte, the rest of RAM stays.
      ensures load.Loaded? ==> forall i :: 0 <= i < load.size ==> Get(ram, i) == file.dev.ReadByte(off + i)
      ensures forall i :: (i < 0 || !load.Loaded? || load.size <= i) ==> Get(ram, i) == Get(old(ram), i)
    {
      loadSize := 0;
      var flash := Window();
      load := LoadOf(flash, off, junk);
      if !HasPackage(flash, off) {
        return STATUS_SUCCESS, 0, load;
      }
      var fipSize := FindFipSize(off, junk);
      if fipSize == 0 {
        return STATUS_FAIL, 0, load;
      }
      var ret := file.Seek(off);
      if ret != IO_SUCCESS {
        return STATUS_FAIL, 0, load;
      }
      if fipSize < 0 {
        return Crash, 0, load;
      }
      CopyToRam(off, fipSize);
      return STATUS_SUCCESS, fipSize, load;
    }

    method CopyToRam(off: nat, size: nat)
      requires Valid() && file.filePos == off
      modifies this`ram, file`filePos
      ensures Valid() && ram == RamAfter(old(ram), Window(), off, size)
    {
      var data := file.Read(size);
      assert forall i :: 0 <= i < size ==> data[i] == Get(Window(), off + i);
      assert data == Bytes(Window(), off, size);
      ram := ram.(bytes := data + if size < |ram.bytes| then ram.bytes[size..] else []);
    }

    // fwu_write_fip_data.
    method WriteFip(loadSize: int) returns (status: Status)
      requires Valid()
      modifies file, file.dev.cells, file.dev.fraction, file.blockBuffer
      ensures Valid()
      ensures var w := WriteAll(old(file.Contents()), ram, Entries(ram, HEADER_SIZE, loadSize), file.dev.wraps);
        status == (if w.ok then STATUS_SUCCESS else STATUS_FAIL) && file.Contents() == w.flash
    {
      hide WriteAll, Entries, Writes, WriteOne, NullEntry, EntryAt;
      ghost var wr := file.dev.wraps;
      ghost var w := WriteAll(file.Contents(), ram, Entries(ram, HEADER_SIZE, loadSize), wr);
      WriteStarts(file.Contents(), ram, loadSize, wr);
      var entry := HEADER_SIZE;
      while entry + ENTRY_SIZE < loadSize
        invariant Valid()
        invariant Writes(file.Contents(), ram, entry, loadSize, wr, w)
        decreases loadSize - entry
      {
        if NullEntry(ram, entry) {
          WriteEnds(file.Contents(), ram, entry, loadSize, wr, w);
          return STATUS_SUCCESS;
        }
        WriteNext(file.Contents(), ram, entry, loadSize, wr, w);
        status := WriteImage(EntryAt(ram, entry));
        if status != STATUS_SUCCESS {
          return;
        }
        entry := entry + ENTRY_SIZE;
      }
      WriteEnds(file.Contents(), ram, entry, loadSize, wr, w);
      status := STATUS_SUCCESS;
    }

    // The body of its loop.
    method WriteImage(e: Entry) returns (status: Status)
      requires Valid() && 0 <= e.size && 0 <= e.nvm
      modifies file, file.dev.cells, file.dev.fraction, file.blockBuffer
      ensures Valid()
      ensures var w := WriteOne(old(file.Contents()), ram, e, file.dev.wraps);
        status == (if w.ok then STATUS_SUCCESS else STATUS_FAIL) && file.Contents() == w.flash
    {
      if 0 < e.size {
        var ret := file.Seek(e.nvm);
        if ret != IO_SUCCESS {
          return STATUS_FAIL;
        }
        var image := Bytes(ram, e.offset, e.size);
        var written;
        ret, written := file.Write(image);
        assert image[..Room(e.nvm, e.size)] == Bytes(ram, e.offset, Room(e.nvm, e.size));
        if ret != IO_SUCCESS || written != e.size {
          return STATUS_FAIL;
        }
      }
      status := STATUS_SUCCESS;
    }

    // fwu_erase_fip_data: overwrites the header.
    method EraseFip(off: int) returns (status: Status)
      requires Valid()
      modifies file, file.dev.cells, file.dev.fraction, file.blockBuffer
      ensures Valid()
      ensures status == if 0 <= off && off + HEADER_SIZE <= SIZE then STATUS_SUCCESS else STATUS_FAIL
      ensures file.Contents() == Erased(old(file.Contents()), off, file.dev.wraps)
    {
      var header: seq<bv8> := seq(HEADER_SIZE, _ => 0xFF);
      var ret := file.Seek(off);
      if ret != IO_SUCCESS {
        return STATUS_FAIL;
      }
      var written;
      ret, written := file.Write(header);
      assert header[..Room(off, HEADER_SIZE)] == seq(Room(off, HEADER_SIZE), _ => 0xFF);
      if ret != IO_SUCCESS || written != HEADER_SIZE {
        return STATUS_FAIL;
      }
      status := STATUS_SUCCESS;
    }

    // One turn of the loop of fwu_update_fip.
    method UpdateOne(off: int, junk: int) returns (status: Status, next: int, goOn: bool)
      requires Valid()
      modifies this`ram, file, file.dev.cells, file.dev.fraction, file.blockBuffer
      ensures Valid()
      ensures Turn(status, file.Contents(), ram, next, goOn)
           == TurnAt(old(file.Contents()), old(ram), off, file.dev.outside, junk, file.dev.wraps)
    {
      hide Le;
      ghost var load;
      var loadSize;
      status, loadSize, load := LoadFip(off, junk);
      next, goOn := off, false;
      if status != STATUS_SUCCESS || loadSize == 0 {
        return;
      }
      var last := EndOfFile(ram, 0);
      status := WriteFip(loadSize);
      if status == STATUS_SUCCESS {
        next, goOn := off + loadSize, !last;
      }
    }

    // fwu_update_fip.  The status of the loop is overwritten by that of erasing
    // the header, so a failed update is reported as a success.
    method UpdateFip(fipAddr: int, junk: int -> int) returns (status: Status)
      requires Valid()
      modifies this`ram, file, file.dev.cells, file.dev.fraction, file.blockBuffer
      ensures Valid()
      ensures fipAddr == 0 ==> status == STATUS_SUCCESS && file.Contents() == old(file.Contents()) && ram == old(ram)
      ensures fipAddr != 0 ==>
        var off := fipAddr - FLASH_BASE;
        var r := Packages(old(file.Contents()), old(ram), off, file.dev.outside, junk, file.dev.wraps);
        && ram == r.ram && status == Reported(r.status, off)
        && (r.status != Crash ==> file.Contents() == Erased(r.flash, off, file.dev.wraps))
        // A failed loop is reported as a success exactly if the header can be erased.
        && (r.status == STATUS_FAIL ==> (status == STATUS_SUCCESS <==> 0 <= off && off + HEADER_SIZE <= SIZE))
        // The flash is as the writes of all packages and of the header leave it.
        && var log := AllPuts(old(file.Contents()), old(ram), off, file.dev.outside, junk, file.dev.wraps);
           r.status != Crash ==> file.Contents() == Replay(old(file.Contents()), log, file.dev.wraps)
    {
      if fipAddr == 0 {
        return STATUS_SUCCESS;
      }
      ghost var f, m, out, wr := file.Contents(), ram, file.dev.outside, file.dev.wraps;
      var start := fipAddr - FLASH_BASE;
      var off := start;
      status := STATUS_SUCCESS;
      ghost var r := Packages(f, m, start, out, junk, wr);
      var goOn := true;
      while goOn
        invariant Valid()
        invariant goOn ==> SameOutcome(Packages(file.Contents(), ram, off, out, junk, wr), r)
        invariant !goOn ==> status == r.status && file.Contents() == r.flash && ram == r.ram
        decreases goOn, if off < SIZE then SIZE - off else 0
      {
        status, off, goOn := UpdateOne(off, junk(off));
      }
      if status != Crash {
        status := EraseFip(start);
        UpdateReplays(f, m, start, out, junk, wr);
      }
    }
  }

  ghost predicate SameOutcome(q: Result, r: Result) {
    q.status == r.status && q.flash == r.flash && q.ram == r.ram
  }
}

/**
 The layout of a firmware image package: a header, table of contents entries, a
 null entry, and the images (rzg_firmware_image_package.h).
 */
module FipLayout {
  // Memory as seen from one base address: known bytes, and whatever lies beyond.
  datatype Mem = Mem(bytes: seq<bv8>, beyond: int -> bv8)

  function Get(m: Mem, at: int): bv8 {
    if 0 <= at < |m.bytes| then m.bytes[at] else m.beyond(at)
  }

  function Pow256(n: nat): int { if n == 0 then 1 else 256 * Pow256(n - 1) }

  // A little-endian number of `n` bytes.
  function Le(m: Mem, at: int, n: nat): int
    decreases n
  {
    if n == 0 then 0 else Get(m, at) as int + 256 * Le(m, at + 1, n - 1)
  }

  lemma {:induction false} LeBounds(m: Mem, at: int, n: nat)
    ensures 0 <= Le(m, at, n) < Pow256(n)
    decreases n
  {
    if n > 0 {
      LeBounds(m, at + 1, n - 1);
    }
  }

  const HEADER_SIZE: int := 16
  const ENTRY_SIZE: int := 48

  function Name(m: Mem, at: int): int { Le(m, at, 4) }
  function SerialNumber(m: Mem, at: int): int { Le(m, at + 4, 4) }
  function HeaderFlags(m: Mem, at: int): int { Le(m, at + 8, 8) }

  predicate HasPackage(m: Mem, at: int) {
    0xAA64_0001 <= Name(m, at) <= 0xAA64_0004 && SerialNumber(m, at) != 0
  }

  // FIP_FLAGS_END_OF_FILE in the upper word of the flags.
  predicate EndOfFile(m: Mem, at: int) {
    (HeaderFlags(m, at) / 0x1_0000_0000) / 0x8000 % 2 == 1
  }

  function Bytes(m: Mem, at: int, n: nat): (s: seq<bv8>)
    ensures |s| == n && forall i :: 0 <= i < n ==> s[i] == Get(m, at + i)
  {
    seq(n, i => Get(m, at + i))
  }

  predicate AllZero(m: Mem, at: int, n: nat)
    decreases n
  {
    n == 0 || (Get(m, at) == 0 && AllZero(m, at + 1, n - 1))
  }

  // The identifier of an entry is all zero.
  predicate NullEntry(m: Mem, at: int) {
    AllZero(m, at, 16)
  }

  lemma {:induction false} ZeroBytes(m: Mem, at: int, n: nat)
    ensures AllZero(m, at, n) <==> forall i {:trigger Get(m, i)} :: at <= i < at + n ==> Get(m, i) == 0
    decreases n
  {
    if n > 0 {
      ZeroBytes(m, at + 1, n - 1);
    }
  }

  datatype Entry = Entry(offset: int, size: int, nvm: int)

  function EntryAt(m: Mem, at: int): (e: Entry)
    ensures 0 <= e.offset && 0 <= e.size && 0 <= e.nvm
  {
    LeBounds(m, at + 16, 8);
    LeBounds(m, at + 24, 8);
    LeBounds(m, at + 40, 8);
    Entry(Le(m, at + 16, 8), Le(m, at + 24, 8), Le(m, at + 40, 8))
  }

  lemma {:induction false} LeOnes(m: Mem, at: int, n: nat)
    requires forall i :: at <= i < at + n ==> Get(m, i) as int == 0xFF
    ensures Le(m, at, n) == Pow256(n) - 1
    decreases n
  {
    if n > 0 {
      LeOnes(m, at + 1, n - 1);
    }
  }

  // The same bytes are the same number, wherever they are.
  lemma {:induction false} LeSame(m: Mem, at: int, m': Mem, at': int, n: nat)
    requires forall i {:trigger GetAt(m, at, i)} :: 0 <= i < n ==> GetAt(m, at, i) == GetAt(m', at', i)
    ensures Le(m, at, n) == Le(m', at', n) && (AllZero(m, at, n) <==> AllZero(m', at', n))
    decreases n
  {
    if n > 0 {
      assert GetAt(m, at, 0) == GetAt(m', at', 0);
      forall i {:trigger GetAt(m, at + 1, i)} | 0 <= i < n - 1
        ensures GetAt(m, at + 1, i) == GetAt(m', at' + 1, i)
      {
        assert GetAt(m, at, i + 1) == GetAt(m', at', i + 1);
      }
      LeSame(m, at + 1, m', at' + 1, n - 1);
    }
  }

  // ---- packages as they are built ------------------------------------------

  // Bytes that encode a number, the lowest one first.
  predicate Encodes(s: seq<bv8>, x: int) {
    if s == [] then x == 0 else s[0] as int == x % 256 && Encodes(s[1..], x / 256)
  }

  // The bytes are found in memory from an address on.
  ghost predicate Holds(m: Mem, at: int, s: seq<bv8>) {
    forall i :: 0 <= i < |s| ==> GetAt(m, at, i) == s[i]
  }

  function GetAt(m: Mem, at: int, i: int): bv8 { Get(m, at + i) }

  lemma HoldsPart(m: Mem, at: int, s: seq<bv8>, from: int, to: int)
    requires Holds(m, at, s) && 0 <= from <= to <= |s|
    ensures Holds(m, at + from, s[from..to])
  {
    forall i | 0 <= i < to - from
      ensures GetAt(m, at + from, i) == s[from..to][i]
    {
      assert GetAt(m, at, from + i) == s[from + i];
    }
  }

  lemma {:induction false} LeReadsBack(m: Mem, at: int, s: seq<bv8>, x: int)
    requires Encodes(s, x) && Holds(m, at, s)
    ensures Le(m, at, |s|) == x
    decreases |s|
  {
    if s != [] {
      HoldsPart(m, at, s, 1, |s|);
      assert s[1..|s|] == s[1..];
      LeReadsBack(m, at + 1, s[1..], x / 256);
      assert GetAt(m, at, 0) == s[0];
    }
  }

  // A header: a package has one of four names, 01 to 04 00 64 aa, and a serial
  // number; the last one has bit 47 of its flags set.
  lemma HeaderReadsBack(m: Mem, at: int, name: seq<bv8>, serial: seq<bv8>, flags: seq<bv8>)
    requires |name| == |serial| == 4 && |flags| == 8 && Holds(m, at, name + serial + flags)
    ensures HasPackage(m, at) <==>
      1 <= name[0] as int <= 4 && name[1] == 0 && name[2] == 0x64 && name[3] == 0xaa && exists i ::
        0 <= i < 4 && serial[i] != 0
    ensures EndOfFile(m, at) <==> 0x80 <= flags[5] as int
  {
    hide Le, Holds, EndOfFile;
    var s := name + serial + flags;
    HoldsPart(m, at, s, 0, 4);
    HoldsPart(m, at, s, 4, 8);
    HoldsPart(m, at, s, 8, 16);
    assert s[0..4] == name && s[4..8] == serial && s[8..16] == flags;
    FourBytes(m, at, name);
    FourBytes(m, at + 4, serial);
    NameNumber(name[0] as int, name[1] as int, name[2] as int, name[3] as int);
    assert SerialNumber(m, at) != 0 <==> serial[0] != 0 || serial[1] != 0 || serial[2] != 0 || serial[3] != 0;
    FlagBytes(m, at, flags);
  }

  lemma NameNumber(a: int, b: int, c: int, d: int)
    requires 0 <= a < 0x100 && 0 <= b < 0x100 && 0 <= c < 0x100 && 0 <= d < 0x100
    ensures 0xAA64_0001 <= a + 0x100 * b + 0x1_0000 * c + 0x100_0000 * d <= 0xAA64_0004 <==>
      1 <= a <= 4 && b == 0 && c == 0x64 && d == 0xaa
  {
  }

  lemma FourBytes(m: Mem, at: int, s: seq<bv8>)
    requires |s| == 4 && Holds(m, at, s)
    ensures Le(m, at, 4) == s[0] as int + 0x100 * s[1] as int + 0x1_0000 * s[2] as int + 0x100_0000 * s[3] as int
  {
    assert GetAt(m, at, 0) == s[0] && GetAt(m, at, 1) == s[1] && GetAt(m, at, 2) == s[2] && GetAt(m, at, 3) == s[3];
    assert Le(m, at + 3, 1) == s[3] as int;
    assert Le(m, at + 2, 2) == s[2] as int + 0x100 * s[3] as int;
    assert Le(m, at + 1, 3) == s[1] as int + 0x100 * Le(m, at + 2, 2);
  }

  lemma FlagBytes(m: Mem, at: int, flags: seq<bv8>)
    requires |flags| == 8 && Holds(m, at + 8, flags)
    ensures EndOfFile(m, at) <==> 0x80 <= flags[5] as int
  {
    hide Le, Holds;
    HoldsPart(m, at + 8, flags, 0, 4);
    HoldsPart(m, at + 8, flags, 4, 8);
    FourBytes(m, at + 8, flags[0..4]);
    FourBytes(m, at + 12, flags[4..8]);
    LowHigh(m, at + 8);
    LeBounds(m, at + 8, 4);
    assert Pow256(4) == 0x1_0000_0000;
    FlagNumber(HeaderFlags(m, at), Le(m, at + 8, 4), flags[4] as int, flags[5] as int, flags[6] as int,
      flags[7] as int);
  }

  lemma FlagNumber(x: int, low: int, b4: int, b5: int, b6: int, b7: int)
    requires x == low + 0x1_0000_0000 * (b4 + 0x100 * b5 + 0x1_0000 * b6 + 0x100_0000 * b7)
    requires 0 <= low < 0x1_0000_0000 && 0 <= b4 < 0x100 && 0 <= b5 < 0x100 && 0 <= b6 < 0x100 && 0 <= b7 < 0x100
    ensures x / 0x1_0000_0000 / 0x8000 % 2 == 1 <==> 0x80 <= b5
  {
    var high := b4 + 0x100 * b5 + 0x1_0000 * b6 + 0x100_0000 * b7;
    assert (low + 0x1_0000_0000 * high) / 0x1_0000_0000 == high;
    assert high / 0x8000 == b5 / 0x80 + 2 * b6 + 0x200 * b7;
  }

  // Eight bytes as two words.
  lemma LowHigh(m: Mem, at: int)
    ensures Le(m, at, 8) == Le(m, at, 4) + 0x1_0000_0000 * Le(m, at + 4, 4)
  {
    assert Le(m, at + 3, 5) == Get(m, at + 3) as int + 0x100 * Le(m, at + 4, 4);
    assert Le(m, at + 2, 6) == Get(m, at + 2) as int + 0x100 * Le(m, at + 3, 5);
    assert Le(m, at + 1, 7) == Get(m, at + 1) as int + 0x100 * Le(m, at + 2, 6);
    assert Le(m, at + 3, 1) == Get(m, at + 3) as int;
    assert Le(m, at + 2, 2) == Get(m, at + 2) as int + 0x100 * Le(m, at + 3, 1);
    assert Le(m, at + 1, 3) == Get(m, at + 1) as int + 0x100 * Le(m, at + 2, 2);
  }

  // The fields of an entry as they are stored.
  datatype Image = Image(uuid: seq<bv8>, offset: seq<bv8>, size: seq<bv8>, flags: seq<bv8>, nvm: seq<bv8>)

  // They encode an entry that is not null.
  predicate IsImage(g: Image, e: Entry) {
    && |g.uuid| == 16 && (exists i :: 0 <= i < 16 && g.uuid[i] != 0)
    && |g.offset| == |g.size| == |g.flags| == |g.nvm| == 8
    && Encodes(g.offset, e.offset) && Encodes(g.size, e.size) && Encodes(g.nvm, e.nvm)
  }

  function EntryBytes(g: Image): seq<bv8> {
    g.uuid + g.offset + g.size + g.flags + g.nvm
  }

  // Reading the entry back.
  lemma EntryReadsBack(m: Mem, at: int, g: Image, e: Entry)
    requires IsImage(g, e) && Holds(m, at, EntryBytes(g))
    ensures |EntryBytes(g)| == ENTRY_SIZE && EntryAt(m, at) == e && !NullEntry(m, at)
  {
    FieldsThere(m, at, g, e);
    LeReadsBack(m, at + 16, g.offset, e.offset);
    LeReadsBack(m, at + 24, g.size, e.size);
    LeReadsBack(m, at + 40, g.nvm, e.nvm);
    NotNull(m, at, g, e);
  }

  lemma FieldsThere(m: Mem, at: int, g: Image, e: Entry)
    requires IsImage(g, e) && Holds(m, at, EntryBytes(g))
    ensures Holds(m, at, g.uuid) && Holds(m, at + 16, g.offset) && Holds(m, at + 24, g.size) && Holds(m, at + 40, g.nvm)
  {
    var s := EntryBytes(g);
    HoldsPart(m, at, s, 0, 16);
    HoldsPart(m, at, s, 16, 24);
    HoldsPart(m, at, s, 24, 32);
    HoldsPart(m, at, s, 40, 48);
    assert s[0..16] == g.uuid && s[16..24] == g.offset && s[24..32] == g.size && s[40..48] == g.nvm;
  }

  lemma NotNull(m: Mem, at: int, g: Image, e: Entry)
    requires IsImage(g, e) && Holds(m, at, g.uuid)
    ensures !NullEntry(m, at)
  {
    ZeroBytes(m, at, 16);
    var i :| 0 <= i < 16 && g.uuid[i] != 0;
    assert GetAt(m, at, i) == g.uuid[i];
  }
}

/**
 The SPI flash: erasing and programming, and the driver's write of a buffer.

 Erasing sets every bit of a sector; programming can only clear bits.
 */
module SpiFlash {
  import opened Words

  const SIZE: int := 0x400_0000   // QSPI_END_ADDR
  const SECTOR: int := 0x1_0000   // QSPI_BLOCK_SIZE
  const PAGE: int := 0x100        // QSPI_PAGE_SIZE

  function SectorOf(k: int): int { k / SECTOR }

  // Erasing at a sector address past the end has no effect, or, on a device that
  // ignores the upper address bits, erases the sector of the remaining ones.
  predicate Erases(sector: int, wraps: bool, k: int) {
    if sector * SECTOR < SIZE then SectorOf(k) == sector else wraps && SectorOf(k) == sector % (SIZE / SECTOR)
  }

  // The sectors rzg_spi_erase_sectors erases: from the one of the first address
  // to the one of the address just past the last.
  predicate ErasedBy(first: int, last: int, wraps: bool, k: int) {
    || first <= SectorOf(k) <= last
    || (wraps && first <= SIZE / SECTOR == last && SectorOf(k) == 0)
  }

  class Device {
    const cells: array<bv8>
    const wraps: bool
    // What reads past the flash in the memory map return.
    const outside: int -> bv8
    const fraction: array<bv8>

    ghost predicate Valid()
      reads this
    {
      cells.Length == SIZE && fraction.Length == PAGE && fraction != cells
    }

    constructor (ignoresUpperBits: bool, elsewhere: int -> bv8)
      ensures Valid() && fresh(cells) && fresh(fraction) && wraps == ignoresUpperBits
    {
      cells := new bv8[SIZE];
      fraction := new bv8[PAGE];
      wraps, outside := ignoresUpperBits, elsewhere;
    }

    // A read through the memory map.
    function ReadByte(k: int): bv8
      requires Valid()
      reads this, cells
    {
      if 0 <= k < SIZE then cells[k] else outside(k)
    }

    method EraseSector(sector: nat)
      requires Valid()
      modifies cells
      ensures forall k :: 0 <= k < SIZE ==> cells[k] == if Erases(sector, wraps, k) then 0xFF else old(cells[k])
    {
      forall k | 0 <= k < SIZE && Erases(sector, wraps, k) {
        cells[k] := 0xFF;
      }
    }

    method ProgramPage(addr: nat, data: seq<bv8>)
      requires Valid() && addr % PAGE == 0 && addr + PAGE <= SIZE && |data| == PAGE
      modifies cells
      ensures forall k :: 0 <= k < SIZE ==>
        cells[k] == if addr <= k < addr + PAGE then old(cells[k]) & data[k - addr] else old(cells[k])
    {
      forall k | addr <= k < addr + PAGE {
        cells[k] := cells[k] & data[k - addr];
      }
    }

    // rzg_spi_erase_sectors.  Addresses are 32 bits wide.
    method EraseSectors(addr: nat, len: nat) returns (ok: bool)
      requires Valid() && addr < TWO32 && len < TWO32
      modifies cells
      ensures ok <==> (addr + len) % TWO32 <= SIZE
      ensures !ok ==> cells[..] == old(cells[..])
      ensures ok ==> forall k :: 0 <= k < SIZE ==>
        cells[k] == if ErasedBy(SectorOf(addr), SectorOf((addr + len) % TWO32), wraps, k) then 0xFF else old(cells[k])
    {
      if (addr + len) % TWO32 > SIZE {
        return false;
      }
      ghost var first, last := SectorOf(addr), SectorOf((addr + len) % TWO32);
      var endAddr := (addr + len) % TWO32 / SECTOR * SECTOR + (SECTOR - 1);
      var sectorAddr := addr / SECTOR * SECTOR;
      ghost var s := first;
      while sectorAddr <= endAddr
        invariant sectorAddr == s * SECTOR && first <= s && (s <= last + 1 || s == first)
        invariant forall k :: 0 <= k < SIZE ==>
          cells[k] == if first <= last && ErasedBy(first, s - 1, wraps, k) then 0xFF else old(cells[k])
        decreases endAddr - sectorAddr
      {
        EraseSector(sectorAddr / SECTOR);
        sectorAddr := sectorAddr + SECTOR;
        s := s + 1;
      }
      ok := true;
    }

    // spi_write_buff: programs page by page; a last page that is not full is
    // padded with bytes that clear no bit.
    method WritePages(addr: nat, data: seq<bv8>)
      requires Valid() && addr % PAGE == 0 && addr + |data| <= SIZE
      requires forall k :: addr <= k < addr + |data| ==> cells[k] == 0xFF
      modifies cells, fraction
      ensures forall k :: 0 <= k < SIZE ==> cells[k] == if addr <= k < addr + |data| then data[k - addr]
        else old(cells[k])
    {
      var i := 0;
      while i < PAGE
        invariant 0 <= i <= PAGE && forall k :: 0 <= k < i ==> fraction[k] == 0xFF
        invariant cells[..] == old(cells[..])
      {
        fraction[i] := 0xFF;
        i := i + 1;
      }
      var done := 0;
      while done < |data|
        invariant done % PAGE == 0 && 0 <= done
        invariant done < |data| ==> forall k :: 0 <= k < PAGE ==> fraction[k] == 0xFF
        invariant forall k :: 0 <= k < SIZE ==>
          cells[k] == if addr <= k < addr + |data| && k < addr + done then data[k - addr] else old(cells[k])
        decreases |data| - done
      {
        NextPage(addr, done);
        WritePage(addr + done, data[done..]);
        done := done + PAGE;
      }
    }

    // One page, or what is left of the data.
    method WritePage(addr: nat, rest: seq<bv8>)
      requires Valid() && addr % PAGE == 0 && 0 < |rest| && addr + |rest| <= SIZE
      requires forall k :: 0 <= k < PAGE ==> fraction[k] == 0xFF
      requires forall k :: addr <= k < addr + |rest| ==> cells[k] == 0xFF
      modifies cells, fraction
      ensures forall k :: 0 <= k < SIZE ==>
        cells[k] == if addr <= k < addr + |rest| && k < addr + PAGE then rest[k - addr] else old(cells[k])
      ensures PAGE < |rest| ==> forall k :: 0 <= k < PAGE ==> fraction[k] == 0xFF
    {
      ghost var was := cells[..];
      if PAGE > |rest| {
        FillFraction(rest);
        FitsPage(addr, 0, |rest|);
        ProgramPage(addr, fraction[..]);
      } else {
        ProgramPage(addr, rest[..PAGE]);
      }
      forall k | addr <= k < addr + PAGE
        ensures cells[k] == if k < addr + |rest| then rest[k - addr] else was[k]
      {
        OnesAnd(if k < addr + |rest| then rest[k - addr] else was[k]);
      }
    }

    lemma NextPage(addr: int, done: int)
      requires addr % PAGE == 0 && done % PAGE == 0
      ensures (addr + done) % PAGE == 0 && (done + PAGE) % PAGE == 0
    {
    }

    lemma OnesAnd(b: bv8)
      ensures 0xFF & b == b && b & 0xFF == b
    {
    }

    method FillFraction(rest: seq<bv8>)
      requires Valid() && |rest| < PAGE && forall k :: 0 <= k < PAGE ==> fraction[k] == 0xFF
      modifies fraction
      ensures forall k :: 0 <= k < PAGE ==> fraction[k] == if k < |rest| then rest[k] else 0xFF
    {
      var i := 0;
      while i < |rest|
        invariant 0 <= i <= |rest|
        invariant forall k :: 0 <= k < PAGE ==> fraction[k] == if k < i then rest[k] else 0xFF
      {
        fraction[i] := rest[i];
        i := i + 1;
      }
    }

    lemma FitsPage(addr: int, done: int, len: int)
      requires addr % PAGE == 0 && done % PAGE == 0 && addr + len <= SIZE && done < len
      ensures addr + done + PAGE <= SIZE
    {
    }

    // rzg_spi_write_buff.
    method WriteBuff(addr: nat, data: seq<bv8>) returns (ok: bool)
      requires Valid() && addr % PAGE == 0 && addr + |data| < TWO32
      modifies cells, fraction
      ensures ok <==> addr + |data| <= SIZE
      ensures !ok ==> cells[..] == old(cells[..])
      ensures ok ==> forall k :: 0 <= k < SIZE ==>
        cells[k] == (if addr <= k < addr + |data| then data[k - addr]
                     else if ErasedBy(SectorOf(addr), SectorOf(addr + |data|), wraps, k) then 0xFF else old(cells[k]))
    {
      if addr + |data| > SIZE {
        return false;
      }
      ok := EraseSectors(addr, |data|);
      WritePages(addr, data);
    }
  }
}

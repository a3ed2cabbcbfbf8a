/**
 The flash as a file: open, seek, read and write (drivers/renesas/io).
 */
module FlashFile {
  import opened SpiFlash
  import opened FlashContents
  import opened Words

  datatype IoResult = IO_SUCCESS | IO_FAIL | IO_RESOURCES_EXHAUSTED

  // The block size of the platform; the block buffer holds one block.
  const BLOCK: int := 0x1_0000

  class File {
    const dev: Device
    const blockBuffer: array<bv8>
    var inUse: bool
    var filePos: nat

    ghost predicate Valid()
      reads this, dev
    {
      dev.Valid() && blockBuffer.Length == BLOCK && blockBuffer != dev.cells && blockBuffer != dev.fraction
    }

    ghost function Contents(): (f: seq<bv8>)
      requires Valid()
      reads this, dev, dev.cells
      ensures |f| == SIZE
    {
      dev.cells[..]
    }

    constructor (device: Device)
      requires device.Valid()
      ensures Valid() && !inUse && dev == device && fresh(blockBuffer)
    {
      dev := device;
      blockBuffer := new bv8[BLOCK];
      inUse, filePos := false, 0;
    }

    // flash_open: one file at a time.
    method Open() returns (ret: IoResult)
      modifies this`inUse, this`filePos
      ensures ret == if old(inUse) then IO_RESOURCES_EXHAUSTED else IO_SUCCESS
      ensures inUse && filePos == if old(inUse) then old(filePos) else 0
    {
      if inUse {
        return IO_RESOURCES_EXHAUSTED;
      }
      inUse, filePos := true, 0;
      ret := IO_SUCCESS;
    }

    // flash_seek from the start of the file.
    method Seek(offset: int) returns (ret: IoResult)
      modifies this`filePos
      ensures ret == if 0 <= offset < SIZE then IO_SUCCESS else IO_FAIL
      ensures filePos == if ret == IO_SUCCESS then offset else old(filePos)
    {
      if 0 <= offset < SIZE {
        filePos := offset;
        return IO_SUCCESS;
      }
      ret := IO_FAIL;
    }

    // flash_read: copies from the memory map and advances the cursor.
    method Read(length: nat) returns (data: seq<bv8>)
      requires Valid()
      modifies this`filePos
      ensures |data| == length && filePos == old(filePos) + length
      ensures forall i :: 0 <= i < length ==> data[i] == dev.ReadByte(old(filePos) + i)
    {
      data := [];
      while |data| < length
        invariant |data| <= length && forall i :: 0 <= i < |data| ==> data[i] == dev.ReadByte(filePos + i)
      {
        data := data + [dev.ReadByte(filePos + |data|)];
      }
      filePos := filePos + length;
    }

    method WriteSector(addr: nat, data: seq<bv8>) returns (ok: bool)
      requires Valid() && addr % SECTOR == 0 && |data| == SECTOR && addr + SECTOR < TWO32
      modifies dev.cells, dev.fraction
      ensures ok <==> addr + SECTOR <= SIZE
      ensures Contents() == if ok then After(old(Contents()), addr, data, dev.wraps) else old(Contents())
    {
      ok := dev.WriteBuff(addr, data);
      if ok {
        SectorWritten(old(Contents()), Contents(), addr, data, dev.wraps);
      }
    }

    // flash_block_write of a block of any whole number of sectors.
    method BlockWrite(offset: nat, buffer: seq<bv8>) returns (ret: IoResult, written: int)
      requires Valid() && offset % SECTOR == 0 && 0 < |buffer| && |buffer| % SECTOR == 0
      requires offset + |buffer| + SECTOR < TWO32
      modifies dev.cells, dev.fraction
      ensures ret == if offset + |buffer| <= SIZE then IO_SUCCESS else IO_FAIL
      ensures ret == IO_SUCCESS ==> written == |buffer|
      ensures Contents() == After(old(Contents()), offset, buffer[..Room(offset, |buffer|)], dev.wraps)
    {
      hide After;
      ghost var f := Contents();
      var done := 0;
      NothingWritten(f, offset, buffer, dev.wraps);
      while done < |buffer|
        invariant 0 <= done <= |buffer| && done % SECTOR == 0
        invariant done == 0 || offset + done <= SIZE
        invariant Contents() == After(f, offset, buffer[..done], dev.wraps)
      {
        NextSector(offset, done, |buffer|);
        var ok := WriteSector(offset + done, buffer[done..][..SECTOR]);
        if !ok {
          RoomReached(offset, done, |buffer|);
          return IO_FAIL, 0;
        }
        ComposeNext(f, offset, buffer, done, SECTOR, dev.wraps);
        done := done + SECTOR;
      }
      return IO_SUCCESS, |buffer|;
    }

    // flash_partial_write: part of one block, by way of the block buffer.
    method PartialWrite(offset: nat, buffer: seq<bv8>) returns (ret: IoResult, written: int)
      requires Valid() && 0 < |buffer| && SectorOf(offset) == SectorOf(offset + |buffer| - 1) && offset <= SIZE
      modifies dev.cells, dev.fraction, blockBuffer
      ensures ret == if offset < SIZE then IO_SUCCESS else IO_FAIL
      ensures ret == IO_SUCCESS ==> written == |buffer| && offset + |buffer| <= SIZE
      ensures ret == IO_SUCCESS ==> Contents() == After(old(Contents()), offset, buffer, dev.wraps)
      ensures ret == IO_FAIL ==> Contents() == old(Contents())
    {
      hide Patched;
      var start := offset / BLOCK * BLOCK;
      FillBlockBuffer(start, offset % BLOCK, buffer);
      ghost var f := Contents();
      if offset < SIZE {
        InLastSector(offset, |buffer|);
        PatchWritten(f, offset, buffer, dev.wraps);
        assert blockBuffer[..] == Patched(f[start..start + BLOCK], offset % BLOCK, buffer);
      }
      ret, written := BlockWrite(start, blockBuffer[..]);
      if ret == IO_SUCCESS {
        written := |buffer|;
      }
    }

    method FillBlockBuffer(start: nat, at: nat, buffer: seq<bv8>)
      requires Valid() && at + |buffer| <= BLOCK
      modifies blockBuffer
      ensures forall k :: 0 <= k < BLOCK ==>
        blockBuffer[k] == if at <= k < at + |buffer| then buffer[k - at] else dev.ReadByte(start + k)
    {
      var k := 0;
      while k < BLOCK
        invariant 0 <= k <= BLOCK && forall j :: 0 <= j < k ==> blockBuffer[j] == dev.ReadByte(start + j)
      {
        blockBuffer[k] := dev.ReadByte(start + k);
        k := k + 1;
      }
      k := 0;
      while k < |buffer|
        invariant 0 <= k <= |buffer|
        invariant forall j :: 0 <= j < BLOCK ==> blockBuffer[j] == if at <= j < at + k then buffer[j - at]
          else dev.ReadByte(start + j)
      {
        blockBuffer[at + k] := buffer[k];
        k := k + 1;
      }
    }

    // One turn of the loop of flash_write.
    method WriteChunk(pos: nat, rest: seq<bv8>) returns (ret: IoResult, written: int)
      requires Valid() && 0 < |rest| && pos <= SIZE
      modifies dev.cells, dev.fraction, blockBuffer
      ensures ret == if pos < SIZE then IO_SUCCESS else IO_FAIL
      ensures ret == IO_SUCCESS ==> 0 < written <= |rest| && written <= SECTOR && pos + written <= SIZE
      ensures ret == IO_SUCCESS ==> written == |rest| || (pos + written) % SECTOR == 0
      ensures ret == IO_SUCCESS ==> Contents() == After(old(Contents()), pos, rest[..written], dev.wraps)
      ensures ret == IO_FAIL ==> Contents() == old(Contents())
    {
      ChunkFits(pos, |rest|);
      if pos % BLOCK == 0 {
        if |rest| / BLOCK > 0 {
          ret, written := BlockWrite(pos, rest[..BLOCK]);
          assert ret == IO_FAIL ==> rest[..BLOCK][..Room(pos, BLOCK)] == [];
        } else {
          assert rest == rest[..|rest|];
          ret, written := PartialWrite(pos, rest);
        }
      } else {
        var remaining := BLOCK - pos % BLOCK;
        if |rest| < remaining {
          assert rest == rest[..|rest|];
          ret, written := PartialWrite(pos, rest);
        } else {
          ret, written := PartialWrite(pos, rest[..remaining]);
        }
      }
    }

    // flash_write.  The cursor stays where it is; a range past the end of the
    // flash is written up to the end before the failure.
    method Write(buffer: seq<bv8>) returns (ret: IoResult, lengthWritten: int)
      requires Valid() && filePos <= SIZE
      modifies dev.cells, dev.fraction, blockBuffer
      ensures ret == if filePos + |buffer| <= SIZE then IO_SUCCESS else IO_FAIL
      ensures lengthWritten == Room(filePos, |buffer|)
      ensures Contents() == After(old(Contents()), filePos, buffer[..Room(filePos, |buffer|)], dev.wraps)
    {
      hide After;
      ghost var f := Contents();
      lengthWritten := 0;
      NothingWritten(f, filePos, buffer, dev.wraps);
      var pos, length := filePos, |buffer|;
      while length > 0
        invariant 0 <= length && 0 <= lengthWritten == |buffer| - length && pos == filePos + lengthWritten <= SIZE
        invariant lengthWritten == 0 || length == 0 || pos % SECTOR == 0
        invariant Contents() == After(f, filePos, buffer[..lengthWritten], dev.wraps)
        decreases length
      {
        var written;
        ret, written := WriteChunk(pos, buffer[lengthWritten..]);
        if ret != IO_SUCCESS {
          return;
        }
        ComposeNext(f, filePos, buffer, lengthWritten, written, dev.wraps);
        pos, lengthWritten, length := pos + written, lengthWritten + written, length - written;
      }
      ret := IO_SUCCESS;
    }

    // flash_close.
    method Close()
      modifies this`inUse, this`filePos
      ensures !inUse && filePos == 0
    {
      inUse, filePos := false, 0;
    }
  }

  // How much of a range lies in the flash.
  function Room(p: int, len: int): (n: int)
    requires 0 <= len
    ensures 0 <= n <= len && (0 < n ==> p + n <= SIZE) && (n < len ==> SIZE <= p + n)
  {
    if p + len <= SIZE then len else if p <= SIZE then SIZE - p else 0
  }

  lemma NothingWritten(f: seq<bv8>, p: int, buffer: seq<bv8>, wraps: bool)
    requires |f| == SIZE && 0 <= p
    ensures After(f, p, buffer[..0], wraps) == f
  {
  }

  lemma NextSector(offset: nat, done: nat, len: nat)
    requires offset % SECTOR == 0 && done % SECTOR == 0 && len % SECTOR == 0 && done < len
    ensures done + SECTOR <= len && (offset + done) % SECTOR == 0 && (done + SECTOR) % SECTOR == 0
  {
  }

  lemma RoomReached(offset: nat, done: nat, len: nat)
    requires offset % SECTOR == 0 && done % SECTOR == 0 && done < len && (done == 0 || offset + done <= SIZE)
    requires offset + done + SECTOR > SIZE
    ensures offset + len > SIZE && Room(offset, len) == done
  {
  }

  lemma InLastSector(p: nat, len: nat)
    requires p < SIZE && 0 < len && SectorOf(p) == SectorOf(p + len - 1)
    ensures p + len <= SIZE && SectorOf(p) * SECTOR + SECTOR <= SIZE
  {
  }

  lemma ChunkFits(p: nat, len: nat)
    requires p <= SIZE && 0 < len
    ensures p % BLOCK == 0 && p < SIZE ==> p + BLOCK <= SIZE
    ensures p % BLOCK == 0 && len < BLOCK ==> SectorOf(p) == SectorOf(p + len - 1)
    ensures p % BLOCK != 0 ==>
      SectorOf(p) == SectorOf(p + (BLOCK - p % BLOCK) - 1) && (p + (BLOCK - p % BLOCK)) % SECTOR == 0
    ensures p % BLOCK != 0 && len < BLOCK - p % BLOCK ==> SectorOf(p) == SectorOf(p + len - 1)
    ensures p % BLOCK != 0 ==> p < SIZE
  {
    var m := p / BLOCK;
    assert p == m * BLOCK + p % BLOCK;
  }

  lemma ComposeNext(f: seq<bv8>, p: int, buffer: seq<bv8>, n: int, w: int, wraps: bool)
    requires |f| == SIZE && 0 <= p && 0 <= n && 0 < w <= SECTOR && n + w <= |buffer| && p + n + w <= SIZE
    requires n == 0 || (p + n) % SECTOR == 0
    ensures After(After(f, p, buffer[..n], wraps), p + n, buffer[n..][..w], wraps) ==
      After(f, p, buffer[..n + w], wraps)
  {
    assert buffer[..n] + buffer[n..][..w] == buffer[..n + w];
    if n == 0 {
      assert buffer[..n] == [] && After(f, p, [], wraps) == f;
      assert [] + buffer[n..][..w] == buffer[n..][..w];
    } else {
      Compose(f, p, buffer[..n], buffer[n..][..w], wraps);
    }
  }
}

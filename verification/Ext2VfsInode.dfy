/** The open file of the virtual file system over an ext2 volume, with the loops that read and write it. */
module Ext2Vfs {
  import opened Common
  import opened ByteFields
  import opened Ext2Inodes
  import opened Ext2Files
  import opened Ext2Reads

  /** Walks the blocks of an inode. */
  class InodeBlockIterator {
    const direct: seq<nat>
    const blockSize: nat
    const count: nat
    var seen: nat
    var index: nat

    ghost function View(): (it: BlockIterator)
      reads this
    {
      BlockIterator(direct, blockSize, count, seen, index)
    }

    constructor (it: BlockIterator)
      ensures View() == it
    {
      direct, blockSize, count, seen, index := it.direct, it.blockSize, it.count, it.seen, it.index;
    }

    /** The next block that is not a hole. */
    method Next() returns (r: Fetch)
      requires index <= |direct|
      modifies this
      ensures r == NextBlock(old(View()))
      ensures r.Block? ==> View() == r.rest
      ensures index <= |direct|
    {
      ghost var goal := NextBlock(View());
      while seen < count
        invariant index <= |direct| && goal == NextBlock(View())
        decreases |direct| - index
      {
        if index == |direct| { return Unsupported; }
        var i := index;
        index := index + 1;
        if direct[i] != 0 {
          seen := seen + 1;
          return Block(i * blockSize, direct[i], BlockIterator(direct, blockSize, count, seen, index));
        }
      }
      r := End;
    }
  }

  /** Fills a block with what is left of the data, and zeros after it. */
  method FillBlock(buffer: array<Byte>, data: seq<Byte>, from: nat) returns (written: nat)
    requires from <= |data|
    modifies buffer
    ensures buffer[..] == Padded(data, from, buffer.Length)
    ensures written == Min(from + buffer.Length, |data|)
  {
    written := from;
    var i: nat := 0;
    while i < buffer.Length
      invariant i <= buffer.Length && written == Min(from + i, |data|)
      invariant forall k | 0 <= k < i :: buffer[k] == if from + k < |data| then data[from + k] else 0
    {
      if written < |data| {
        buffer[i] := data[written];
        written := written + 1;
      } else {
        buffer[i] := 0;
      }
      i := i + 1;
    }
    PaddedIs(buffer[..], data, from);
  }

  lemma PaddedIs(block: seq<Byte>, data: seq<Byte>, from: nat)
    requires from <= |data|
    requires forall k | 0 <= k < |block| :: block[k] == if from + k < |data| then data[from + k] else 0
    ensures block == Padded(data, from, |block|)
  {
    var p := Padded(data, from, |block|);
    forall k | 0 <= k < |block| ensures block[k] == p[k] { }
  }

  class VFSInode {
    const reader: FileSystem
    const number: nat
    var inode: Record

    constructor (fs: FileSystem, n: nat, i: Record)
      ensures reader == fs && number == n && inode == i
    {
      reader, number, inode := fs, n, i;
    }

    /** Fills one block on the disk. */
    method WriteBlock(address: nat, data: seq<Byte>, from: nat) returns (written: nat)
      requires Mounted(reader.View()) && address < |reader.disk| && from <= |data|
      modifies reader
      ensures reader.disk == old(reader.disk)[address := Padded(data, from, reader.sb.blockSize)]
      ensures Mounted(reader.View()) && written == Min(from + reader.sb.blockSize, |data|)
    {
      var buffer := reader.ReadBlock(address);
      written := FillBlock(buffer, data, from);
      SameLayout(reader.View(), address, buffer[..]);
      reader.Flush(address, buffer);
    }

    /** Writes the blocks of the file; `false` where the source panics. */
    method WriteBlocks(data: seq<Byte>) returns (ok: bool)
      requires Mounted(reader.View())
      modifies reader
      ensures var r := WriteFrom(old(reader.disk), FileBlocks(inode, reader.sb.blockSize), data, 0);
              && (ok <==> r.Wrote? && r.written == |data|)
              && (ok ==> reader.disk == r.disk && Mounted(reader.View()))
    {
      hide Mounted, Padded, NextBlock, Le32, DivCeil;
      HasBlocks(reader.View());
      var it := new InodeBlockIterator(FileBlocks(inode, reader.sb.blockSize));
      ghost var goal := WriteFrom(reader.disk, it.View(), data, 0);
      var written: nat := 0;
      var more := true;
      while more
        invariant it.index <= |it.direct| && written <= |data| && it.blockSize == reader.sb.blockSize
        invariant Mounted(reader.View())
        invariant goal == if more then WriteFrom(reader.disk, it.View(), data, written) else Wrote(reader.disk, written)
        decreases more, |it.direct| - it.index
      {
        var next := it.Next();
        match next
        case End => more := false;
        case Unsupported => return false;
        case Block(_, address, _) =>
          if address >= |reader.disk| { return false; }
          if written >= |data| {
            more := false;
          } else {
            written := WriteBlock(address, data, written);
          }
      }
      ok := written == |data|;
    }

    /** Replaces the file's contents; `false` where the source panics. */
    method Write(data: seq<Byte>) returns (ok: bool)
      requires Mounted(reader.View()) && number > 0
      modifies this, reader
      ensures ok <==> WriteFile(old(reader.View()), number, old(inode), data).Some?
      ensures ok ==> WriteFile(old(reader.View()), number, old(inode), data) == Some((reader.View(), inode))
    {
      if !IsFile(inode) { return false; }
      ok := WriteBlocks(data);
      if ok {
        inode := WithSizeLow(inode, |data| % 0x1_0000_0000);
        ok := reader.WriteInode(number, inode);
      }
    }

    /** Reads into the buffer: what was copied, and whether the end of the file was reached. */
    method Read(buffer: array<Byte>, offset: nat) returns (r: Reading)
      requires WholeReadable(reader.View(), inode)
      modifies buffer
      ensures r == ReadFile(reader.View(), inode, buffer.Length, offset)
      ensures !r.Broken? ==> |r.bytes| <= buffer.Length && buffer[..] == Splice(old(buffer[..]), 0, r.bytes)
    {
      if !IsFile(inode) { return Broken; }
      var direct, size, all := DirectBlocks(inode), reader.sb.blockSize, FileSize(reader.sb, inode);
      var end := Min(all, offset + buffer.Length);
      PartReadable(reader.disk, direct, size, all, end);
      var bytes := ReadLoop(buffer, direct, size, offset, end);
      if bytes.None? { return Broken; }
      r := if end == all then Done(bytes.value) else Success(bytes.value);
    }

    method ReadLoop(buffer: array<Byte>, direct: seq<nat>, size: nat, offset: nat, end: nat)
      returns (r: Option<seq<Byte>>)
      requires size > 0 && Readable(reader.disk, direct, size, DivCeil(end, size)) && end <= offset + buffer.Length
      modifies buffer
      ensures r == ReadBlocks(reader.disk, direct, size, offset, end, offset / size, DivCeil(end, size))
      ensures r.Some? ==> |r.value| <= buffer.Length && buffer[..] == Splice(old(buffer[..]), 0, r.value)
    {
      hide ReadBlocks, DivCeil, Splice;
      var block, stop := offset / size, DivCeil(end, size);
      ghost var goal := ReadBlocks(reader.disk, direct, size, offset, end, block, stop);
      var current := offset;
      var bytes: seq<Byte> := [];
      SpliceNothing(buffer[..]);
      BeforeNothing(bytes, goal);
      while block < stop
        invariant current == offset + |bytes| && |bytes| <= buffer.Length
        invariant buffer[..] == Splice(old(buffer[..]), 0, bytes)
        invariant goal == Before(bytes, ReadBlocks(reader.disk, direct, size, current, end, block, stop))
      {
        ReadStep(reader.disk, direct, size, current, end, block, stop);
        var from, to := current % size, if end < current then 0 else Min(size, end - current);
        if end < current || to < from { return None; }
        var slice := reader.disk[direct[block]][from..to];
        BeforeBefore(bytes, slice, ReadBlocks(reader.disk, direct, size, current + |slice|, end, block + 1, stop));
        SpliceOn(old(buffer[..]), bytes, slice);
        WriteBytes(buffer, |bytes|, slice);
        bytes := bytes + slice;
        current := current + |slice|;
        block := block + 1;
      }
      BeforeNothing(bytes, Some([]));
      r := Some(bytes);
    }

    /** Reads a chunk at an offset into a buffer of zeros. */
    method ReadChunkAt(offset: nat) returns (got: Reading, chunk: seq<Byte>)
      requires WholeReadable(reader.View(), inode)
      ensures got == ReadFile(reader.View(), inode, CHUNK, offset)
      ensures got.Success? ==> |got.bytes| <= CHUNK && chunk == got.bytes + Zeros(CHUNK - |got.bytes|)
    {
      hide ReadFile, WholeReadable;
      var buffer := new Byte[CHUNK](_ => 0);
      assert buffer[..] == Zeros(CHUNK);
      got := Read(buffer, offset);
      chunk := buffer[..];
      if got.Success? { ChunkIs(chunk, got.bytes); }
    }

    /** Reads the whole file in chunks; `None` where the source panics. */
    method ReadAll() returns (r: Option<seq<Byte>>)
      requires WholeReadable(reader.View(), inode)
      ensures r == ReadAllFrom(reader.View(), inode, 0)
    {
      hide ReadFile, WholeReadable, Zeros, FileSize;
      var buffer: seq<Byte> := [];
      var offset: nat := 0;
      BeforeNothing(buffer, ReadAllFrom(reader.View(), inode, 0));
      while true
        invariant ReadAllFrom(reader.View(), inode, 0) == Before(buffer, ReadAllFrom(reader.View(), inode, offset))
        decreases if offset < FileSize(reader.sb, inode) then FileSize(reader.sb, inode) - offset else 0
      {
        ReadAllStep(reader.View(), inode, offset);
        var got, chunk := ReadChunkAt(offset);
        match got
        case Broken => return None;
        case Done(bytes) => return Some(buffer + bytes);
        case Success(bytes) =>
          BeforeBefore(buffer, chunk, ReadAllFrom(reader.View(), inode, offset + CHUNK));
          buffer := buffer + chunk;
          offset := offset + CHUNK;
      }
    }
  }

  lemma HasBlocks(v: Volume)
    requires Mounted(v)
    ensures v.sb.blockSize > 0
  {
  }

  /** One turn of the reading loop. */
  lemma ReadStep(
    disk: seq<seq<Byte>>, direct: seq<nat>, size: nat, current: nat, end: nat, block: nat, stop: nat)
    requires Readable(disk, direct, size, stop) && block < stop
    ensures ReadBlocks(disk, direct, size, current, end, block, stop)
            == if end < current || Min(size, end - current) < current % size then None
               else
                 var slice := disk[direct[block]][current % size..Min(size, end - current)];
                 Before(slice, ReadBlocks(disk, direct, size, current + |slice|, end, block + 1, stop))
  {
  }

  /** One turn of the chunk loop: only a chunk that ends before the file does is followed by another. */
  lemma ReadAllStep(v: Volume, inode: Record, offset: nat)
    requires WholeReadable(v, inode)
    ensures var got := ReadFile(v, inode, CHUNK, offset);
            && (got.Success? ==> offset + CHUNK < FileSize(v.sb, inode))
            && (got.Success? && |got.bytes| <= CHUNK ==>
                  ReadAllFrom(v, inode, offset)
                  == Before(got.bytes + Zeros(CHUNK - |got.bytes|), ReadAllFrom(v, inode, offset + CHUNK)))
            && (!got.Success? ==>
                  ReadAllFrom(v, inode, offset) == if got.Broken? then None else Some(got.bytes))
  {
  }

  lemma SpliceNothing(b: seq<Byte>)
    ensures Splice(b, 0, []) == b
  {
  }

  function Before(bytes: seq<Byte>, r: Option<seq<Byte>>): (s: Option<seq<Byte>>) {
    if r.None? then None else Some(bytes + r.value)
  }

  lemma BeforeNothing(a: seq<Byte>, r: Option<seq<Byte>>)
    ensures Before([], r) == r && Before(a, Some([])) == Some(a)
  {
    if r.Some? { assert [] + r.value == r.value; }
    assert a + [] == a;
  }

  lemma BeforeBefore(a: seq<Byte>, b: seq<Byte>, r: Option<seq<Byte>>)
    ensures Before(a, Before(b, r)) == Before(a + b, r)
  {
    if r.Some? { assert a + (b + r.value) == a + b + r.value; }
  }

  lemma SpliceOn(b: seq<Byte>, x: seq<Byte>, y: seq<Byte>)
    requires |x| + |y| <= |b|
    ensures Splice(Splice(b, 0, x), |x|, y) == Splice(b, 0, x + y)
  {
  }

  lemma ChunkIs(chunk: seq<Byte>, bytes: seq<Byte>)
    requires |chunk| == CHUNK && |bytes| <= CHUNK && chunk == Splice(Zeros(CHUNK), 0, bytes)
    ensures chunk == bytes + Zeros(CHUNK - |bytes|)
  {
  }
}

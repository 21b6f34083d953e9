/** Reading the data of a regular file on an ext2 volume, and that it is what was written. */
module Ext2Reads {
  import opened Common
  import opened Arithmetic
  import opened ByteFields
  import opened Ext2Inodes
  import opened Ext2Files

  /** The first blocks of the file are on the disk. */
  predicate Readable(disk: seq<seq<Byte>>, direct: seq<nat>, size: nat, stop: nat) {
    size > 0 && stop <= |direct| && forall k | 0 <= k < stop :: direct[k] < |disk| && |disk[direct[k]]| == size
  }

  /** Copies from the file's blocks in turn, as the loop does: `None` where a slice or a subtraction is out of range. */
  function ReadBlocks(
    disk: seq<seq<Byte>>, direct: seq<nat>, size: nat, current: nat, end: nat, block: nat, stop: nat)
    : (r: Option<seq<Byte>>)
    requires Readable(disk, direct, size, stop)
    ensures r.Some? && block < stop ==> current + |r.value| <= end
    ensures block >= stop ==> r == Some([])
    decreases if block < stop then stop - block else 0
  {
    if block >= stop then Some([])
    else if end < current || Min(size, end - current) < current % size then None
    else
      var slice := disk[direct[block]][current % size..Min(size, end - current)];
      var rest := ReadBlocks(disk, direct, size, current + |slice|, end, block + 1, stop);
      if rest.None? then None else Some(slice + rest.value)
  }

  /** The byte of the file at an offset. */
  function ByteAt(disk: seq<seq<Byte>>, direct: seq<nat>, size: nat, p: nat): (b: Byte)
    requires size > 0
  {
    if p / size < |direct| && direct[p / size] < |disk| && p % size < |disk[direct[p / size]]|
    then disk[direct[p / size]][p % size]
    else 0
  }

  /** The bytes of the file from one offset up to another. */
  function FileBytes(disk: seq<seq<Byte>>, direct: seq<nat>, size: nat, from: nat, to: nat): (r: seq<Byte>)
    requires size > 0
    ensures |r| == if from < to then to - from else 0
    ensures forall j | 0 <= j < |r| :: r[j] == ByteAt(disk, direct, size, from + j)
  {
    if from >= to then [] else seq<Byte>(to - from, j requires 0 <= j => ByteAt(disk, direct, size, from + j))
  }

  lemma Joined(disk: seq<seq<Byte>>, direct: seq<nat>, size: nat, a: nat, b: nat, c: nat)
    requires size > 0 && a <= b <= c
    ensures FileBytes(disk, direct, size, a, b) + FileBytes(disk, direct, size, b, c)
            == FileBytes(disk, direct, size, a, c)
  {
    hide ByteAt;
    var x, y := FileBytes(disk, direct, size, a, b), FileBytes(disk, direct, size, b, c);
    var z := FileBytes(disk, direct, size, a, c);
    forall j | 0 <= j < c - a ensures (x + y)[j] == z[j] {
      if j >= b - a { assert y[j - (b - a)] == ByteAt(disk, direct, size, b + (j - (b - a))); }
    }
  }

  lemma SliceIs(disk: seq<seq<Byte>>, direct: seq<nat>, size: nat, stop: nat, k: nat, a: nat, b: nat)
    requires Readable(disk, direct, size, stop) && k < stop && a <= b <= size
    ensures disk[direct[k]][a..b] == FileBytes(disk, direct, size, Start(k, size) + a, Start(k, size) + b)
  {
    var x, y := disk[direct[k]][a..b], FileBytes(disk, direct, size, Start(k, size) + a, Start(k, size) + b);
    forall j | 0 <= j < b - a ensures x[j] == y[j] {
      DivModIs(Start(k, size) + a + j, size, k, a + j);
    }
  }

  /** A block below the last one begins before the end, and the last one reaches it. */
  lemma Reaches(end: nat, size: nat, block: nat)
    requires size > 0
    ensures block < DivCeil(end, size) <==> Start(block, size) < end
  {
    var stop := DivCeil(end, size);
    CeilBounds(end, size);
    if block < stop {
      if block < stop - 1 { MulGap(block, stop - 1, size); }
    } else {
      if stop < block { MulGap(stop, block, size); }
    }
  }

  lemma StartMod(k: nat, size: nat)
    requires size > 0
    ensures Start(k, size) % size == 0 && Start(k, size) / size == k && Start(k + 1, size) == Start(k, size) + size
  {
    DivModIs(Start(k, size), size, k, 0);
    StartsRise(k, k, size);
  }

  /** From the beginning of a block on, the loop reads the file's bytes up to the end. */
  lemma {:induction false} ReadAligned(
    disk: seq<seq<Byte>>, direct: seq<nat>, size: nat, end: nat, block: nat, stop: nat)
    requires Readable(disk, direct, size, stop) && stop == DivCeil(end, size)
    ensures ReadBlocks(disk, direct, size, Start(block, size), end, block, stop)
            == Some(FileBytes(disk, direct, size, Start(block, size), end))
    decreases if block < stop then stop - block else 0
  {
    hide ByteAt, Start, DivCeil, FileBytes;
    Reaches(end, size, block);
    if block < stop {
      var current := Start(block, size);
      var n := Min(size, end - current);
      StartMod(block, size);
      Reaches(end, size, block + 1);
      SliceIs(disk, direct, size, stop, block, 0, n);
      if n == size {
        ReadAligned(disk, direct, size, end, block + 1, stop);
        Joined(disk, direct, size, current, current + n, end);
      } else {
        var slice := disk[direct[block]][0..n];
        assert ReadBlocks(disk, direct, size, current + n, end, block + 1, stop) == Some([]);
        assert slice + [] == slice;
      }
    }
  }

  // ---------- when a read is right ----------

  /** The read begins at a block, or fills the rest of a block, or has nothing to read in the last one. */
  predicate ReadsRight(offset: nat, end: nat, size: nat)
    requires size > 0
  {
    offset % size == 0 || offset + size <= end || offset / size >= DivCeil(end, size)
  }

  lemma ReadsRest(disk: seq<seq<Byte>>, direct: seq<nat>, size: nat, offset: nat, end: nat, stop: nat)
    requires Readable(disk, direct, size, stop) && stop == DivCeil(end, size) && offset + size <= end
    ensures ReadBlocks(disk, direct, size, offset, end, offset / size, stop)
            == Some(FileBytes(disk, direct, size, offset, end))
  {
    hide ByteAt, Start, DivCeil, FileBytes;
    var k, r := offset / size, offset % size;
    OffsetIs(offset, size);
    StartMod(k, size);
    Reaches(end, size, k);
    SliceIs(disk, direct, size, stop, k, r, size);
    ReadAligned(disk, direct, size, end, k + 1, stop);
    Joined(disk, direct, size, offset, Start(k + 1, size), end);
  }

  lemma OffsetIs(offset: nat, size: nat)
    requires size > 0
    ensures offset == Start(offset / size, size) + offset % size
  {
  }

  /** Otherwise the first slice is too short, and a second block, if there is one, does not make up for it. */
  lemma ReadsShort(disk: seq<seq<Byte>>, direct: seq<nat>, size: nat, offset: nat, end: nat, stop: nat)
    requires Readable(disk, direct, size, stop) && stop == DivCeil(end, size) && !ReadsRight(offset, end, size)
    ensures ReadBlocks(disk, direct, size, offset, end, offset / size, stop)
            != Some(FileBytes(disk, direct, size, offset, end))
  {
    hide ByteAt, Start, DivCeil, FileBytes;
    var k, r := offset / size, offset % size;
    if offset <= end && end - offset >= r {
      var n := end - offset;
      OffsetIs(offset, size);
      StartMod(k, size);
      StartMod(k + 1, size);
      Reaches(end, size, k + 2);
      ModOfSum(k, n, size);
      assert end - r == Start(k, size) + n;
      var second := ReadBlocks(disk, direct, size, end - r, end, k + 1, stop);
      if k + 1 < stop && second.Some? { SecondIsShort(disk, direct, size, end, r, k + 1, stop); }
    }
  }

  lemma ModOfSum(k: nat, n: nat, size: nat)
    requires n < size
    ensures (Start(k, size) + n) % size == n
  {
    DivModIs(Start(k, size) + n, size, k, n);
  }

  lemma SecondIsShort(disk: seq<seq<Byte>>, direct: seq<nat>, size: nat, end: nat, r: nat, block: nat, stop: nat)
    requires Readable(disk, direct, size, stop) && block < stop <= block + 1
    requires r <= end && 0 < r < size && (end - r) % size > 0
    requires ReadBlocks(disk, direct, size, end - r, end, block, stop).Some?
    ensures |ReadBlocks(disk, direct, size, end - r, end, block, stop).value| < r
  {
  }

  /** The loop copies exactly the bytes of the file between the offset and the end if and only if `ReadsRight`. */
  lemma ReadRightWhen(disk: seq<seq<Byte>>, direct: seq<nat>, size: nat, offset: nat, end: nat, stop: nat)
    requires Readable(disk, direct, size, stop) && stop == DivCeil(end, size)
    ensures ReadBlocks(disk, direct, size, offset, end, offset / size, stop)
            == Some(FileBytes(disk, direct, size, offset, end))
            <==> ReadsRight(offset, end, size)
  {
    hide ReadBlocks, FileBytes, Start, DivCeil;
    if !ReadsRight(offset, end, size) {
      ReadsShort(disk, direct, size, offset, end, stop);
    } else if offset % size == 0 {
      OffsetIs(offset, size);
      ReadAligned(disk, direct, size, end, offset / size, stop);
    } else if offset + size <= end {
      ReadsRest(disk, direct, size, offset, end, stop);
    } else {
      OffsetIs(offset, size);
      Reaches(end, size, offset / size);
    }
  }

  /** On every volume, reading all but the first byte of a file of one block leaves out the last byte. */
  lemma UnalignedReadIsShort(disk: seq<seq<Byte>>, direct: seq<nat>, size: nat)
    requires Readable(disk, direct, size, 1) && size >= 1024
    ensures ReadBlocks(disk, direct, size, 1, size, 0, 1) == Some(disk[direct[0]][1..size - 1])
    ensures FileBytes(disk, direct, size, 1, size) == disk[direct[0]][1..size]
  {
    hide ByteAt, FileBytes;
    SmallMod(size);
    SliceIs(disk, direct, size, 1, 0, 1, size);
    var slice := disk[direct[0]][1..size - 1];
    assert ReadBlocks(disk, direct, size, size - 1, size, 1, 1) == Some([]);
    assert slice + [] == slice;
  }

  lemma SmallMod(size: nat)
    requires size > 1
    ensures 1 % size == 1 && Start(0, size) == 0
  {
    DivModIs(1, size, 0, 1);
  }

  // ---------- reading a file ----------

  const CHUNK: nat := 4096

  datatype Reading = Broken | Success(bytes: seq<Byte>) | Done(bytes: seq<Byte>)

  predicate WholeReadable(v: Volume, inode: Record) {
    v.sb.blockSize > 0
    && Readable(v.disk, DirectBlocks(inode), v.sb.blockSize, DivCeil(FileSize(v.sb, inode), v.sb.blockSize))
  }

  lemma PartReadable(disk: seq<seq<Byte>>, direct: seq<nat>, size: nat, all: nat, end: nat)
    requires size > 0 && Readable(disk, direct, size, DivCeil(all, size)) && end <= all
    ensures Readable(disk, direct, size, DivCeil(end, size))
  {
    hide DivCeil, Start;
    var stop := DivCeil(end, size);
    if stop > 0 {
      Reaches(end, size, stop - 1);
      Reaches(all, size, stop - 1);
    }
  }

  /** Reads from an offset of a file of `all` bytes into a buffer of the given length. */
  function ReadSome(disk: seq<seq<Byte>>, direct: seq<nat>, size: nat, all: nat, length: nat, offset: nat)
    : (r: Option<seq<Byte>>)
    requires size > 0 && Readable(disk, direct, size, DivCeil(all, size))
  {
    hide DivCeil;
    var end := Min(all, offset + length);
    PartReadable(disk, direct, size, all, end);
    ReadBlocks(disk, direct, size, offset, end, offset / size, DivCeil(end, size))
  }

  /** Reads into a buffer of the given length: the bytes copied, and whether the end of the file was reached. */
  function ReadFile(v: Volume, inode: Record, length: nat, offset: nat): (r: Reading)
    requires WholeReadable(v, inode)
  {
    var r := ReadSome(v.disk, DirectBlocks(inode), v.sb.blockSize, FileSize(v.sb, inode), length, offset);
    if !IsFile(inode) || r.None? then Broken
    else if FileSize(v.sb, inode) <= offset + length then Done(r.value)
    else Success(r.value)
  }

  /** Reads chunks until the end; a chunk that is not the last counts in full, with zeros where nothing was copied. */
  function ReadAllFrom(v: Volume, inode: Record, offset: nat): (r: Option<seq<Byte>>)
    requires WholeReadable(v, inode)
    decreases if offset < FileSize(v.sb, inode) then FileSize(v.sb, inode) - offset else 0
  {
    match ReadFile(v, inode, CHUNK, offset)
    case Broken => None
    case Done(bytes) => Some(bytes)
    case Success(bytes) =>
      var rest := ReadAllFrom(v, inode, offset + CHUNK);
      if rest.None? then None
      else Some(bytes + Zeros(if |bytes| <= CHUNK then CHUNK - |bytes| else 0) + rest.value)
  }

  lemma ReadChunk(v: Volume, inode: Record, k: nat)
    requires WholeReadable(v, inode) && IsFile(inode)
    ensures var size, all := v.sb.blockSize, FileSize(v.sb, inode);
            var offset := Start(k, size);
            var end := Min(all, offset + CHUNK);
            var bytes := FileBytes(v.disk, DirectBlocks(inode), size, offset, end);
            ReadFile(v, inode, CHUNK, offset) == if end == all then Done(bytes) else Success(bytes)
  {
    hide ReadBlocks, FileBytes, Start, Le32, DivCeil;
    var size := v.sb.blockSize;
    var end := Min(FileSize(v.sb, inode), Start(k, size) + CHUNK);
    PartReadable(v.disk, DirectBlocks(inode), size, FileSize(v.sb, inode), end);
    StartMod(k, size);
    ReadAligned(v.disk, DirectBlocks(inode), size, end, k, DivCeil(end, size));
  }

  /** With a block size that divides the chunk, reading in chunks gives all of the file. */
  lemma {:induction false} ReadAllIs(v: Volume, inode: Record, k: nat, step: nat)
    requires WholeReadable(v, inode) && IsFile(inode) && CHUNK == Start(step, v.sb.blockSize)
    ensures ReadAllFrom(v, inode, Start(k, v.sb.blockSize))
            == Some(FileBytes(v.disk, DirectBlocks(inode), v.sb.blockSize, Start(k, v.sb.blockSize),
                              FileSize(v.sb, inode)))
    decreases if Start(k, v.sb.blockSize) < FileSize(v.sb, inode)
              then FileSize(v.sb, inode) - Start(k, v.sb.blockSize) else 0
  {
    hide ReadFile, FileBytes, Start, Le32, DirectBlocks;
    var size, all := v.sb.blockSize, FileSize(v.sb, inode);
    var offset := Start(k, size);
    ReadChunk(v, inode, k);
    if offset + CHUNK < all {
      StartSum(k, step, size);
      ReadAllIs(v, inode, k + step, step);
      Joined(v.disk, DirectBlocks(inode), size, offset, offset + CHUNK, all);
      var bytes := FileBytes(v.disk, DirectBlocks(inode), size, offset, offset + CHUNK);
      assert bytes + Zeros(0) == bytes;
    }
  }

  lemma StartSum(j: nat, k: nat, size: nat)
    ensures Start(j + k, size) == Start(j, size) + Start(k, size)
  {
  }
}

/** Reading all of a file in chunks, when that gives the file, and that it is what was written. */
module Ext2ReadAll {
  import opened Common
  import opened Arithmetic
  import opened ByteFields
  import opened Ext2Inodes
  import opened Ext2Files
  import opened Ext2Reads

  function Shifted(n: nat, k: nat): (r: nat) {
    if k == 0 then n else 2 * Shifted(n, k - 1)
  }

  /** A block size that a superblock can give: 1024 shifted left by some number of bits. */
  ghost predicate IsBlockSize(size: nat) {
    exists k: nat :: size == Shifted(1024, k)
  }

  /** A block is a whole part of a chunk, or is made of whole chunks. */
  lemma BlockOrChunk(k: nat)
    ensures var size := Shifted(1024, k); size > 0 && if k <= 2 then CHUNK % size == 0 else size % CHUNK == 0 && size > CHUNK
  {
    if k <= 3 {
      assert Shifted(1024, 0) == 1024 && Shifted(1024, 1) == 2048 && Shifted(1024, 2) == 4096 && Shifted(1024, 3) == 8192;
    } else {
      BlockOrChunk(k - 1);
    }
  }

  /**
   Which data `read_all` gives back. Where a block is no longer than a chunk, all of it. Otherwise only what fits in one
   chunk, or, with blocks of two chunks, what has zeros in the second half of every block and ends in a first half.
   */
  predicate ReadsBack(size: nat, data: seq<Byte>)
    requires size > 0
  {
    || CHUNK % size == 0
    || |data| <= CHUNK
    || (size == 2 * CHUNK && (|data| - 1) % size < CHUNK && forall p | 0 <= p < |data| && p % size >= CHUNK :: data[p] == 0)
  }

  // ---------- chunks shorter than a block ----------

  /** A chunk that begins inside a block: the second of the block gives nothing, the later ones panic, and so does a
      second one that is not whole. */
  lemma InnerChunk(v: Volume, inode: Record, b: nat, j: nat)
    requires WholeReadable(v, inode) && IsFile(inode) && v.sb.blockSize % CHUNK == 0
    requires 1 <= j && j * CHUNK < v.sb.blockSize && Start(b, v.sb.blockSize) + j * CHUNK < FileSize(v.sb, inode)
    ensures var all, offset := FileSize(v.sb, inode), Start(b, v.sb.blockSize) + j * CHUNK;
            ReadFile(v, inode, CHUNK, offset) ==
              if j > 1 || all < offset + CHUNK then Broken else if all == offset + CHUNK then Done([]) else Success([])
  {
    hide Start, Le32, DivCeil, Readable;
    var size, all := v.sb.blockSize, FileSize(v.sb, inode);
    var offset := Start(b, size) + j * CHUNK;
    var end := Min(all, offset + CHUNK);
    OneBlock(b, size, j, end);
    PartReadable(v.disk, DirectBlocks(inode), size, all, end);
    InnerBlocks(v.disk, DirectBlocks(inode), size, b, j, end);
  }

  lemma OneBlock(b: nat, size: nat, j: nat, end: nat)
    requires size > 0 && size % CHUNK == 0 && j * CHUNK < size
    requires Start(b, size) + j * CHUNK < end <= Start(b, size) + j * CHUNK + CHUNK
    ensures (Start(b, size) + j * CHUNK) / size == b && (Start(b, size) + j * CHUNK) % size == j * CHUNK
    ensures DivCeil(end, size) == b + 1
  {
    DivModIs(Start(b, size) + j * CHUNK, size, b, j * CHUNK);
    hide DivCeil, Start;
    Reaches(end, size, b);
    Reaches(end, size, b + 1);
    StartMod(b, size);
  }

  lemma InnerBlocks(disk: seq<seq<Byte>>, direct: seq<nat>, size: nat, b: nat, j: nat, end: nat)
    requires size % CHUNK == 0 && Readable(disk, direct, size, b + 1) && 1 <= j && j * CHUNK < size
    requires Start(b, size) + j * CHUNK < end <= Start(b, size) + j * CHUNK + CHUNK
    ensures ReadBlocks(disk, direct, size, Start(b, size) + j * CHUNK, end, b, b + 1) ==
            if j > 1 || end < Start(b, size) + j * CHUNK + CHUNK then None else Some([])
  {
    OneBlock(b, size, j, end);
    hide DivCeil, Start;
    var current := Start(b, size) + j * CHUNK;
    assert Min(size, end - current) == end - current;
    if j == 1 && end == current + CHUNK {
      var slice := disk[direct[b]][CHUNK..CHUNK];
      assert slice == [] && ReadBlocks(disk, direct, size, current, end, b + 1, b + 1) == Some([]);
      assert slice + [] == [];
    }
  }

  /** A file that ends in the second chunk of a block is not read right from that block on. */
  lemma EndsInSecond(v: Volume, inode: Record, b: nat)
    requires WholeReadable(v, inode) && IsFile(inode) && v.sb.blockSize % CHUNK == 0 && v.sb.blockSize > CHUNK
    requires Start(b, v.sb.blockSize) + CHUNK < FileSize(v.sb, inode) <= Start(b, v.sb.blockSize) + 2 * CHUNK
    ensures var r := ReadAllFrom(v, inode, Start(b, v.sb.blockSize));
            r.None? || |r.value| == CHUNK
  {
    hide ReadFile, Start, Le32, FileBytes, DirectBlocks;
    ReadChunk(v, inode, b);
    InnerChunk(v, inode, b, 1);
  }

  /** With blocks of three chunks and more, a file of more than two chunks makes it panic. */
  lemma ThirdPanics(v: Volume, inode: Record)
    requires WholeReadable(v, inode) && IsFile(inode) && v.sb.blockSize % CHUNK == 0 && v.sb.blockSize > 2 * CHUNK
    requires FileSize(v.sb, inode) > 2 * CHUNK
    ensures ReadAllFrom(v, inode, 0).None?
  {
    hide ReadFile, Start, Le32, FileBytes, DirectBlocks;
    ZeroStart(v.sb.blockSize);
    ReadChunk(v, inode, 0);
    InnerChunk(v, inode, 0, 1);
    InnerChunk(v, inode, 0, 2);
    assert ReadAllFrom(v, inode, 2 * CHUNK).None?;
    assert ReadAllFrom(v, inode, CHUNK).None?;
  }

  lemma Cancels(x: seq<Byte>, y: seq<Byte>, z: seq<Byte>, y': seq<Byte>, z': seq<Byte>)
    requires |y| == |y'|
    ensures x + y + z == x + y' + z' <==> y == y' && z == z'
  {
    var l, r := x + y + z, x + y' + z';
    assert l[|x|..|x| + |y|] == y && r[|x|..|x| + |y|] == y';
    assert l[|x| + |y|..] == z && r[|x| + |y|..] == z';
  }

  /** With blocks of two chunks: whole blocks before the last come out with their second half zero. */
  lemma BlockThenRest(v: Volume, inode: Record, b: nat)
    requires WholeReadable(v, inode) && IsFile(inode) && v.sb.blockSize == 2 * CHUNK
    requires Start(b + 1, v.sb.blockSize) < FileSize(v.sb, inode)
    ensures var size, rest := v.sb.blockSize, ReadAllFrom(v, inode, Start(b + 1, v.sb.blockSize));
            var o := Start(b, size);
            ReadAllFrom(v, inode, o) ==
              if rest.None? then None
              else Some(FileBytes(v.disk, DirectBlocks(inode), size, o, o + CHUNK) + Zeros(CHUNK) + rest.value)
  {
    hide ReadFile, Start, Le32, FileBytes, DirectBlocks;
    var size := v.sb.blockSize;
    var o := Start(b, size);
    StartMod(b, size);
    ReadChunk(v, inode, b);
    InnerChunk(v, inode, b, 1);
    var rest := ReadAllFrom(v, inode, o + 2 * CHUNK);
    var bytes := FileBytes(v.disk, DirectBlocks(inode), size, o, o + CHUNK);
    if rest.Some? {
      var second := [] + Zeros(CHUNK) + rest.value;
      assert ReadAllFrom(v, inode, o + CHUNK) == Some(second);
      assert bytes + Zeros(0) + second == bytes + Zeros(CHUNK) + rest.value;
    }
  }

  /** The bytes between two offsets that lie in the second half of a block of two chunks are zero. */
  predicate SkippedAreZero(disk: seq<seq<Byte>>, direct: seq<nat>, lo: nat, hi: nat) {
    forall p | lo <= p < hi && p % (2 * CHUNK) >= CHUNK :: ByteAt(disk, direct, 2 * CHUNK, p) == 0
  }

  /** What `ReadsBack` asks of the file from block `b` on, when blocks have two chunks. */
  predicate HalvesFrom(v: Volume, inode: Record, b: nat) {
    && (FileSize(v.sb, inode) - 1) % (2 * CHUNK) < CHUNK
    && SkippedAreZero(v.disk, DirectBlocks(inode), Start(b, 2 * CHUNK), FileSize(v.sb, inode))
  }

  lemma {:induction false} HalvesRightWhen(v: Volume, inode: Record, b: nat)
    requires WholeReadable(v, inode) && IsFile(inode) && v.sb.blockSize == 2 * CHUNK
    requires Start(b, 2 * CHUNK) < FileSize(v.sb, inode)
    ensures ReadAllFrom(v, inode, Start(b, 2 * CHUNK)) ==
            Some(FileBytes(v.disk, DirectBlocks(inode), 2 * CHUNK, Start(b, 2 * CHUNK), FileSize(v.sb, inode)))
            <==> HalvesFrom(v, inode, b)
    decreases FileSize(v.sb, inode) - Start(b, 2 * CHUNK)
  {
    hide ReadFile, Le32, FileBytes, DirectBlocks, ByteAt, ReadAllFrom, HalvesFrom, FileSize, Start;
    var size, all, o := 2 * CHUNK, FileSize(v.sb, inode), Start(b, 2 * CHUNK);
    StartMod(b, size);
    HalvesEnd(v, inode, b);
    if all <= o + CHUNK {
      OneChunk(v, inode, b);
    } else if all <= o + size {
      EndsInSecond(v, inode, b);
    } else {
      var direct := DirectBlocks(inode);
      var first, second := FileBytes(v.disk, direct, size, o, o + CHUNK), FileBytes(v.disk, direct, size, o + CHUNK, o + size);
      var rest := ReadAllFrom(v, inode, o + size);
      HalvesRightWhen(v, inode, b + 1);
      BlockThenRest(v, inode, b);
      ThreeParts(v.disk, direct, o, all);
      HalvesStep(v, inode, b);
      if rest.Some? {
        Cancels(first, Zeros(CHUNK), rest.value, second, FileBytes(v.disk, direct, size, o + size, all));
      }
    }
  }

  lemma HalvesEnd(v: Volume, inode: Record, b: nat)
    requires v.sb.blockSize == 2 * CHUNK
    requires Start(b, 2 * CHUNK) < FileSize(v.sb, inode)
    ensures FileSize(v.sb, inode) <= Start(b, 2 * CHUNK) + 2 * CHUNK ==>
            (HalvesFrom(v, inode, b) <==> FileSize(v.sb, inode) <= Start(b, 2 * CHUNK) + CHUNK)
  {
    hide Le32, DirectBlocks, ByteAt, FileSize;
  }

  lemma OneChunk(v: Volume, inode: Record, b: nat)
    requires WholeReadable(v, inode) && IsFile(inode) && FileSize(v.sb, inode) <= Start(b, v.sb.blockSize) + CHUNK
    ensures var o := Start(b, v.sb.blockSize);
            ReadAllFrom(v, inode, o) == Some(FileBytes(v.disk, DirectBlocks(inode), v.sb.blockSize, o, FileSize(v.sb, inode)))
  {
    hide ReadFile, Start, Le32, FileBytes, DirectBlocks;
    ReadChunk(v, inode, b);
  }

  lemma SkippedInBlock(disk: seq<seq<Byte>>, direct: seq<nat>, b: nat)
    ensures var o := Start(b, 2 * CHUNK);
            SkippedAreZero(disk, direct, o, o + 2 * CHUNK) <==>
              FileBytes(disk, direct, 2 * CHUNK, o + CHUNK, o + 2 * CHUNK) == Zeros(CHUNK)
  {
    hide ByteAt, Start;
    var o := Start(b, 2 * CHUNK);
    var second := FileBytes(disk, direct, 2 * CHUNK, o + CHUNK, o + 2 * CHUNK);
    if SkippedAreZero(disk, direct, o, o + 2 * CHUNK) {
      forall j | 0 <= j < CHUNK ensures second[j] == Zeros(CHUNK)[j] {
        SecondHalf(b, o + CHUNK + j);
        assert ByteAt(disk, direct, 2 * CHUNK, o + CHUNK + j) == 0;
      }
    }
    if second == Zeros(CHUNK) {
      forall p | o <= p < o + 2 * CHUNK && p % (2 * CHUNK) >= CHUNK ensures ByteAt(disk, direct, 2 * CHUNK, p) == 0 {
        SecondHalf(b, p);
        assert second[p - o - CHUNK] == 0;
      }
    }
  }

  lemma SecondHalf(b: nat, p: nat)
    requires Start(b, 2 * CHUNK) <= p < Start(b, 2 * CHUNK) + 2 * CHUNK
    ensures p % (2 * CHUNK) >= CHUNK <==> Start(b, 2 * CHUNK) + CHUNK <= p
  {
    DivModIs(p, 2 * CHUNK, b, p - Start(b, 2 * CHUNK));
  }

  lemma SkippedSplit(disk: seq<seq<Byte>>, direct: seq<nat>, lo: nat, mid: nat, hi: nat)
    requires lo <= mid <= hi
    ensures SkippedAreZero(disk, direct, lo, hi) <==>
            SkippedAreZero(disk, direct, lo, mid) && SkippedAreZero(disk, direct, mid, hi)
  {
    hide ByteAt;
  }

  /** Whether the second half of block `b` is zero is what `HalvesFrom` says of it beyond the blocks after it. */
  lemma HalvesStep(v: Volume, inode: Record, b: nat)
    requires Start(b + 1, 2 * CHUNK) < FileSize(v.sb, inode)
    ensures var o, direct := Start(b, 2 * CHUNK), DirectBlocks(inode);
            HalvesFrom(v, inode, b) <==>
              HalvesFrom(v, inode, b + 1) && FileBytes(v.disk, direct, 2 * CHUNK, o + CHUNK, o + 2 * CHUNK) == Zeros(CHUNK)
  {
    hide Le32, DirectBlocks, ByteAt, FileSize, SkippedAreZero, FileBytes, Zeros;
    var o := Start(b, 2 * CHUNK);
    SkippedInBlock(v.disk, DirectBlocks(inode), b);
    SkippedSplit(v.disk, DirectBlocks(inode), o, o + 2 * CHUNK, FileSize(v.sb, inode));
  }

  /** The file's bytes from block `b` on are its first half, its second half and the rest. */
  lemma ThreeParts(disk: seq<seq<Byte>>, direct: seq<nat>, o: nat, all: nat)
    requires o + 2 * CHUNK <= all
    ensures FileBytes(disk, direct, 2 * CHUNK, o, all) ==
            FileBytes(disk, direct, 2 * CHUNK, o, o + CHUNK) + FileBytes(disk, direct, 2 * CHUNK, o + CHUNK, o + 2 * CHUNK)
            + FileBytes(disk, direct, 2 * CHUNK, o + 2 * CHUNK, all)
  {
    hide ByteAt, FileBytes;
    Joined(disk, direct, 2 * CHUNK, o, o + CHUNK, o + 2 * CHUNK);
    Joined(disk, direct, 2 * CHUNK, o, o + 2 * CHUNK, all);
  }

  // ---------- when read_all is right ----------

  /** `read_all` gives the file if and only if the file's bytes are of the kind that `ReadsBack` says. */
  lemma ReadAllRightWhen(v: Volume, inode: Record)
    requires WholeReadable(v, inode) && IsFile(inode) && IsBlockSize(v.sb.blockSize)
    ensures var all := FileBytes(v.disk, DirectBlocks(inode), v.sb.blockSize, 0, FileSize(v.sb, inode));
            ReadAllFrom(v, inode, 0) == Some(all) <==> ReadsBack(v.sb.blockSize, all)
  {
    hide ReadAllFrom, FileBytes, Start, Le32, DirectBlocks, ByteAt;
    var size := v.sb.blockSize;
    var k: nat :| size == Shifted(1024, k);
    BlockOrChunk(k);
    ZeroStart(size);
    if k <= 2 {
      OffsetIs(CHUNK, size);
      ReadAllIs(v, inode, 0, CHUNK / size);
    } else {
      LargeRightWhen(v, inode);
    }
  }

  lemma LargeRightWhen(v: Volume, inode: Record)
    requires WholeReadable(v, inode) && IsFile(inode) && v.sb.blockSize % CHUNK == 0 && v.sb.blockSize > CHUNK
    ensures var all := FileBytes(v.disk, DirectBlocks(inode), v.sb.blockSize, 0, FileSize(v.sb, inode));
            ReadAllFrom(v, inode, 0) == Some(all) <==> ReadsBack(v.sb.blockSize, all)
  {
    hide ReadAllFrom, FileBytes, Start, Le32, DirectBlocks, ByteAt;
    var size, n := v.sb.blockSize, FileSize(v.sb, inode);
    ZeroStart(size);
    if n <= CHUNK {
      OneChunk(v, inode, 0);
    } else if n <= 2 * CHUNK {
      EndsInSecond(v, inode, 0);
    } else if size > 2 * CHUNK {
      ThirdPanics(v, inode);
    } else {
      HalvesRightWhen(v, inode, 0);
      HalvesAre(v, inode);
    }
  }

  lemma HalvesAre(v: Volume, inode: Record)
    requires v.sb.blockSize == 2 * CHUNK && FileSize(v.sb, inode) > CHUNK
    ensures HalvesFrom(v, inode, 0) <==>
            ReadsBack(2 * CHUNK, FileBytes(v.disk, DirectBlocks(inode), 2 * CHUNK, 0, FileSize(v.sb, inode)))
  {
    hide Le32, DirectBlocks, ByteAt, FileSize;
    var all := FileBytes(v.disk, DirectBlocks(inode), 2 * CHUNK, 0, FileSize(v.sb, inode));
    assert forall p | 0 <= p < |all| :: all[p] == ByteAt(v.disk, DirectBlocks(inode), 2 * CHUNK, p);
  }

  /** On a volume with blocks of 8 KiB, of a file of one block the second half is lost without an error. */
  lemma HalfIsLost(v: Volume, inode: Record)
    requires WholeReadable(v, inode) && IsFile(inode) && v.sb.blockSize == 8192 == FileSize(v.sb, inode)
    ensures ReadAllFrom(v, inode, 0) == Some(FileBytes(v.disk, DirectBlocks(inode), 8192, 0, 4096))
  {
    hide ReadFile, Start, Le32, FileBytes, DirectBlocks;
    ZeroStart(8192);
    ReadChunk(v, inode, 0);
    InnerChunk(v, inode, 0, 1);
    var half := FileBytes(v.disk, DirectBlocks(inode), 8192, 0, 4096);
    assert ReadAllFrom(v, inode, CHUNK) == Some([]);
    assert half + Zeros(0) + [] == half;
  }

  /** With blocks longer than a chunk, for every length above a chunk there is data that is not given back. */
  lemma SomeDataIsLost(size: nat, n: nat)
    requires IsBlockSize(size) && size > CHUNK && n > CHUNK
    ensures exists data: seq<Byte> :: |data| == n && !ReadsBack(size, data)
  {
    var data: seq<Byte> := seq(n, _ => 1);
    DivModIs(CHUNK, size, 0, CHUNK);
    hide Shifted, IsBlockSize;
    assert data[CHUNK] == 1;
    assert |data| == n && !ReadsBack(size, data);
  }

  // ---------- what was written is read ----------

  lemma StoredBytes(disk: seq<seq<Byte>>, direct: seq<nat>, size: nat, count: nat, data: seq<Byte>)
    requires size > 0 && count <= |direct| && |data| <= Start(count, size)
    requires forall k | 0 <= k < count && Start(k, size) < |data| ::
               direct[k] < |disk| && disk[direct[k]] == Padded(data, Start(k, size), size)
    ensures FileBytes(disk, direct, size, 0, |data|) == data
  {
    hide Padded, Start;
    var r := FileBytes(disk, direct, size, 0, |data|);
    forall p | 0 <= p < |data| ensures r[p] == data[p] {
      var k := p / size;
      OffsetIs(p, size);
      BlockBelow(p, size, count);
    }
  }

  lemma BlockBelow(p: nat, size: nat, count: nat)
    requires size > 0
    ensures p < Start(count, size) ==> p / size < count
  {
    assert p == p / size * size + p % size;
    MulLess(p / size, count, size);
  }

  /** A volume whose file's size is known to be that of the data, with the data in its blocks. */
  lemma StoredIsReadable(w: Volume, inode: Record, count: nat, data: seq<Byte>)
    requires Mounted(w) && count <= DIRECT && |data| <= Start(count, w.sb.blockSize)
    requires FileSize(w.sb, inode) == |data|
    requires forall k | 0 <= k < count :: Direct(inode, k) < |w.disk|
    ensures WholeReadable(w, inode)
  {
    hide Le32, FileSize, TableBlocks, InTableOf;
    var size := w.sb.blockSize;
    var stop := DivCeil(|data|, size);
    hide DivCeil, Start;
    if stop > 0 {
      Reaches(|data|, size, stop - 1);
      StartLess(stop - 1, count, size);
    }
  }

  lemma StartLess(j: nat, k: nat, size: nat)
    ensures Start(j, size) < Start(k, size) ==> j < k
  {
    MulLess(j, k, size);
  }

  /**
   Writing data to a regular file and reading all of it back gives the data, from the inode in memory and from the
   one that is then on the disk alike, if and only if the data is of the kind that `ReadsBack` says.
   */
  lemma WriteThenReadAll(v: Volume, number: nat, inode: Record, data: seq<Byte>, count: nat)
    requires Mounted(v) && number > 0 && InodeAt(v, number).Some? && IsFile(inode) && IsBlockSize(v.sb.blockSize)
    requires Plain(v, inode, count) && |data| <= Start(count, v.sb.blockSize) && |data| < 0x1_0000_0000
    requires v.sb.revision == 0 || SizeHigh(inode) == 0
    ensures WriteFile(v, number, inode, data).Some?
    ensures var (w, updated) := WriteFile(v, number, inode, data).value;
            && Mounted(w) && InodeAt(w, number) == Some(updated) && WholeReadable(w, updated)
            && (ReadAllFrom(w, updated, 0) == Some(data) <==> ReadsBack(v.sb.blockSize, data))
  {
    hide WriteFile, Le32, Padded, Start, ReadAllFrom, Mounted, WithSizeLow, ReadsBack, IsBlockSize;
    WriteStores(v, number, inode, data, count);
    var (w, updated) := WriteFile(v, number, inode, data).value;
    FieldsKept(inode, |data|);
    PlainOnDisk(v, inode, count);
    StoredIsReadable(w, updated, count, data);
    StoredBytes(w.disk, DirectBlocks(updated), w.sb.blockSize, count, data);
    ReadAllRightWhen(w, updated);
  }

  lemma ZeroStart(size: nat)
    ensures Start(0, size) == 0
  {
  }

  lemma PlainOnDisk(v: Volume, inode: Record, count: nat)
    requires Mounted(v) && Plain(v, inode, count)
    ensures count <= DIRECT && forall k | 0 <= k < count :: Direct(inode, k) < |v.disk|
  {
    hide Le32, Mounted;
  }

  lemma FieldsKept(inode: Record, n: nat)
    requires n < 0x1_0000_0000
    ensures var r := WithSizeLow(inode, n);
            && SizeLow(r) == n && SizeHigh(r) == SizeHigh(inode) && IsFile(r) == IsFile(inode)
            && forall k | 0 <= k < DIRECT :: Direct(r, k) == Direct(inode, k)
  {
    hide Le32, WithSizeLow;
    SizeLowWritten(inode, n, 0);
    forall k | 0 <= k < DIRECT ensures Direct(WithSizeLow(inode, n), k) == Direct(inode, k) {
      SizeLowWritten(inode, n, k);
    }
  }
}

/**
 Reading and writing the data of a regular file on an ext2 volume, through the direct blocks of its inode. A panic is
 `None` or a constructor of its own.
 */
module Ext2Files {
  import opened Common
  import opened Arithmetic
  import opened ByteFields
  import opened Ext2Inodes

  const DIRECT: nat := 12

  // ---------- inode fields ----------

  type Record = r: seq<Byte> | |r| == INODE witness seq(INODE, _ => 0)

  predicate IsFile(inode: Record) { inode[1] >= 0x80 }

  function SizeLow(inode: Record): (n: nat) { Le32(inode, 4) }

  function SizeHigh(inode: Record): (n: nat) { Le32(inode, 108) }

  function Blocks512(inode: Record): (n: nat) { Le32(inode, 28) }

  function Direct(inode: Record, k: nat): (n: nat)
    requires k < DIRECT
  {
    Le32(inode, 40 + 4 * k)
  }

  function DirectBlocks(inode: Record): (r: seq<nat>)
    ensures |r| == DIRECT && forall k | 0 <= k < DIRECT :: r[k] == Direct(inode, k)
  {
    seq(DIRECT, k requires 0 <= k < DIRECT => Direct(inode, k))
  }

  function WithSizeLow(inode: Record, n: nat): (r: Record)
    requires n < 0x1_0000_0000
  {
    Splice(inode, 4, Put32(n))
  }

  /** The file's size: 32 bits in revision 0, 64 later. */
  function FileSize(sb: Superblock, inode: Record): (n: nat) {
    if sb.revision == 0 then SizeLow(inode) else SizeHigh(inode) * 0x1_0000_0000 + SizeLow(inode)
  }

  // ---------- where the fields are ----------

  type Word = n: nat | n < 0x1_0000_0000

  function Words(ws: seq<Word>): (r: seq<Byte>)
    ensures |r| == 4 * |ws|
  {
    if ws == [] then [] else Words(ws[..|ws| - 1]) + Put32(ws[|ws| - 1])
  }

  /** The fields of an inode in the order in which they are stored. */
  datatype Fields = Fields(
    mode: nat, uid: nat, sizeLow: Word, times: seq<Word>, gid: nat, links: nat, blocks: Word, flags: Word, osd1: Word,
    direct: seq<Word>, indirect: seq<Word>, generation: Word, acl: Word, sizeHigh: Word, faddr: Word, osd2: seq<Byte>)

  predicate FieldsOk(f: Fields) {
    && f.mode < 0x1_0000 && f.uid < 0x1_0000 && f.gid < 0x1_0000 && f.links < 0x1_0000
    && |f.times| == 4 && |f.direct| == 12 && |f.indirect| == 3 && |f.osd2| == 12
  }

  function Stored(f: Fields): (r: Record)
    requires FieldsOk(f)
  {
    Put16(f.mode) + Put16(f.uid) + Words([f.sizeLow] + f.times) + Put16(f.gid) + Put16(f.links) +
    Words([f.blocks, f.flags, f.osd1] + f.direct + f.indirect + [f.generation, f.acl, f.sizeHigh, f.faddr]) + f.osd2
  }

  lemma {:induction false} WordAt(pre: seq<Byte>, ws: seq<Word>, post: seq<Byte>, k: nat)
    requires k < |ws|
    ensures Le32(pre + Words(ws) + post, |pre| + 4 * k) == ws[k]
    decreases |ws|
  {
    var last := |ws| - 1;
    var b, put := pre + Words(ws) + post, Put32(ws[last]);
    if k == last {
      var at := |pre| + 4 * k;
      assert b[at] == put[0] && b[at + 1] == put[1] && b[at + 2] == put[2] && b[at + 3] == put[3];
    } else {
      WordAt(pre, ws[..last], put + post, k);
      assert b == pre + Words(ws[..last]) + (put + post);
    }
  }

  /** The fields that are read are where they are stored. */
  lemma FieldsRead(f: Fields, k: nat)
    requires FieldsOk(f) && k < DIRECT
    ensures var r := Stored(f);
            && SizeLow(r) == f.sizeLow && SizeHigh(r) == f.sizeHigh && Blocks512(r) == f.blocks
            && Direct(r, k) == f.direct[k] && (IsFile(r) <==> f.mode / 0x8000 % 2 == 1)
  {
    hide Le32, Put32, Words, Put16;
    var first, second := [f.sizeLow] + f.times,
      [f.blocks, f.flags, f.osd1] + f.direct + f.indirect + [f.generation, f.acl, f.sizeHigh, f.faddr];
    var a, b := Put16(f.mode) + Put16(f.uid), Put16(f.gid) + Put16(f.links);
    assert Stored(f) == a + Words(first) + (b + Words(second) + f.osd2) == a + Words(first) + b + Words(second) + f.osd2;
    WordAt(a, first, b + Words(second) + f.osd2, 0);
    WordAt(a + Words(first) + b, second, f.osd2, 0);
    WordAt(a + Words(first) + b, second, f.osd2, 20);
    WordAt(a + Words(first) + b, second, f.osd2, 3 + k);
    assert second[3 + k] == f.direct[k] && second[20] == f.sizeHigh;
    ModeByte(f);
  }

  lemma ModeByte(f: Fields)
    requires FieldsOk(f)
    ensures Stored(f)[1] == f.mode / 0x100
  {
    hide Put32, Words;
    assert Stored(f)[1] == Put16(f.mode)[1];
  }

  lemma SizeLowWritten(inode: Record, n: nat, k: nat)
    requires n < 0x1_0000_0000 && k < DIRECT
    ensures var r := WithSizeLow(inode, n);
            && SizeLow(r) == n && SizeHigh(r) == SizeHigh(inode) && Blocks512(r) == Blocks512(inode)
            && Direct(r, k) == Direct(inode, k) && IsFile(r) == IsFile(inode)
  {
    var p := Put32(n);
    var r := WithSizeLow(inode, n);
    assert r[4] == p[0] && r[5] == p[1] && r[6] == p[2] && r[7] == p[3];
  }

  // ---------- the blocks of a file ----------

  datatype BlockIterator = BlockIterator(direct: seq<nat>, blockSize: nat, count: nat, seen: nat, index: nat)

  datatype Fetch = End | Unsupported | Block(offset: nat, address: nat, rest: BlockIterator)

  /** The next allocated direct block, skipping holes; more blocks than direct ones are not supported. */
  function NextBlock(it: BlockIterator): (r: Fetch)
    requires it.index <= |it.direct|
    ensures r.Block? ==>
              && it.index < r.rest.index <= |it.direct| && r.address == it.direct[r.rest.index - 1] != 0
              && r.rest == it.(seen := it.seen + 1, index := r.rest.index)
              && r.offset == (r.rest.index - 1) * it.blockSize
              && forall k | it.index <= k < r.rest.index - 1 :: it.direct[k] == 0
    decreases |it.direct| - it.index
  {
    if it.seen >= it.count then End
    else if it.index == |it.direct| then Unsupported
    else if it.direct[it.index] == 0 then NextBlock(it.(index := it.index + 1))
    else
      Block(it.index * it.blockSize, it.direct[it.index], it.(seen := it.seen + 1, index := it.index + 1))
  }

  function FileBlocks(inode: Record, blockSize: nat): (it: BlockIterator)
    requires blockSize > 0
  {
    BlockIterator(DirectBlocks(inode), blockSize, DivCeil(Blocks512(inode) * 512, blockSize), 0, 0)
  }

  // ---------- writing ----------

  datatype Outcome = Failed | Wrote(disk: seq<seq<Byte>>, written: nat)

  function Zeros(n: nat): (r: seq<Byte>)
    ensures |r| == n && forall i | 0 <= i < n :: r[i] == 0
  {
    seq(n, _ => 0)
  }

  function Min(a: nat, b: nat): (r: nat) { if a <= b then a else b }

  /** One block of the data, filled up with zeros. */
  function Padded(data: seq<Byte>, from: nat, size: nat): (r: seq<Byte>)
    requires from <= |data|
    ensures |r| == size
    ensures forall i | 0 <= i < size :: r[i] == if from + i < |data| then data[from + i] else 0
  {
    if from + size <= |data| then data[from..from + size] else data[from..] + Zeros(size - (|data| - from))
  }

  /** Fills the file's blocks in turn while there is data left. */
  function WriteFrom(disk: seq<seq<Byte>>, it: BlockIterator, data: seq<Byte>, written: nat): (r: Outcome)
    requires it.index <= |it.direct| && written <= |data| && it.blockSize > 0
    ensures r.Wrote? ==> |r.disk| == |disk| && r.written <= |data|
    ensures r.Wrote? && (forall b | 0 <= b < |disk| :: |disk[b]| == it.blockSize) ==>
              forall b | 0 <= b < |disk| :: |r.disk[b]| == it.blockSize
    decreases |it.direct| - it.index
  {
    match NextBlock(it)
    case End => Wrote(disk, written)
    case Unsupported => Failed
    case Block(_, address, rest) =>
      if address >= |disk| then Failed
      else if written >= |data| then Wrote(disk, written)
      else
        WriteFrom(
          disk[address := Padded(data, written, it.blockSize)], rest, data, Min(written + it.blockSize, |data|))
  }

  /** The table of a file without holes, whose blocks are all different and on the disk. */
  predicate Solid(direct: seq<nat>, count: nat, blocks: nat) {
    && count <= |direct|
    && (forall k | 0 <= k < count :: 0 < direct[k] < blocks)
    && forall j, k | 0 <= j < k < count :: direct[j] != direct[k]
  }

  /** Where a block's part of the file begins. */
  function Start(k: nat, size: nat): (n: nat) { k * size }

  lemma WriteStep(disk: seq<seq<Byte>>, it: BlockIterator, data: seq<Byte>, written: nat)
    requires it.index == it.seen < it.count && it.blockSize > 0 && Solid(it.direct, it.count, |disk|)
    requires written < |data|
    ensures var i, size := it.index, it.blockSize;
            WriteFrom(disk, it, data, written)
            == WriteFrom(disk[it.direct[i] := Padded(data, written, size)],
                         it.(seen := i + 1, index := i + 1), data, Min(written + size, |data|))
  {
    hide Padded, Min;
  }

  lemma WriteStops(disk: seq<seq<Byte>>, it: BlockIterator, data: seq<Byte>, written: nat)
    requires it.index == it.seen <= it.count && it.blockSize > 0 && Solid(it.direct, it.count, |disk|)
    requires written <= |data| && (it.index == it.count || written == |data|)
    ensures WriteFrom(disk, it, data, written) == Wrote(disk, written)
  {
  }

  /** Each block that the data reaches holds its part, no other block of the disk has changed, and what is written is all
      of the data or as much as the file's blocks hold. */
  lemma {:induction false} WriteFills(disk: seq<seq<Byte>>, it: BlockIterator, data: seq<Byte>)
    requires it.index == it.seen <= it.count && it.blockSize > 0 && Solid(it.direct, it.count, |disk|)
    ensures var r := WriteFrom(disk, it, data, Min(Start(it.index, it.blockSize), |data|));
            && r.Wrote? && r.written == Min(Start(it.count, it.blockSize), |data|)
            && (forall k | it.index <= k < it.count && Start(k, it.blockSize) < |data| ::
                  r.disk[it.direct[k]] == Padded(data, Start(k, it.blockSize), it.blockSize))
            && (forall b | 0 <= b < |disk| && b !in it.direct[it.index..it.count] :: r.disk[b] == disk[b])
    decreases it.count - it.index
  {
    hide WriteFrom, NextBlock, Padded, Start;
    var size, i := it.blockSize, it.index;
    if i == it.count || Start(i, size) >= |data| {
      WriteStops(disk, it, data, Min(Start(i, size), |data|));
      StartsRise(i, it.count, size);
      forall k | i <= k < it.count ensures Start(i, size) <= Start(k, size) { StartsRise(i, k, size); }
    } else {
      var rest := it.(seen := i + 1, index := i + 1);
      var d := disk[it.direct[i] := Padded(data, Start(i, size), size)];
      WriteStep(disk, it, data, Start(i, size));
      StartsRise(i, i + 1, size);
      WriteFills(d, rest, data);
      assert it.direct[i] !in it.direct[i + 1..it.count];
    }
  }

  lemma StartsRise(i: nat, k: nat, size: nat)
    requires i <= k
    ensures Start(i, size) <= Start(k, size)
    ensures Start(i + 1, size) == Start(i, size) + size
  {
    assert (i + 1) * size == i * size + size;
    if i < k { MulGap(i, k, size); }
  }

  /** Writes the data and then the inode with its new size; `None` where the source panics. */
  function WriteFile(v: Volume, number: nat, inode: Record, data: seq<Byte>): (r: Option<(Volume, Record)>)
    requires Mounted(v) && number > 0
  {
    var r := WriteFrom(v.disk, FileBlocks(inode, v.sb.blockSize), data, 0);
    if !IsFile(inode) || r.Failed? || r.written != |data| then None
    else
      SameSizes(v, r.disk);
      var updated := WithSizeLow(inode, |data| % 0x1_0000_0000);
      var w := WithInode(v.(disk := r.disk), number, updated);
      if w.None? then None else Some((w.value, updated))
  }

  lemma SameSizes(v: Volume, disk: seq<seq<Byte>>)
    requires Mounted(v) && |disk| == |v.disk| && forall b | 0 <= b < |disk| :: |disk[b]| == v.sb.blockSize
    ensures Mounted(v.(disk := disk))
  {
    hide SizesOk, TableBlocks;
    var w := v.(disk := disk);
    assert forall g, c | 0 <= g < |v.groups| :: InTableOf(w, g, c) == InTableOf(v, g, c);
  }

  /** The file's blocks can be written without any of them being another's or a block of the volume's own. */
  ghost predicate Plain(v: Volume, inode: Record, count: nat)
    requires Mounted(v)
  {
    && count == DivCeil(Blocks512(inode) * 512, v.sb.blockSize) <= DIRECT
    && (forall k | 0 <= k < count :: OwnBlock(v, Direct(inode, k)))
    && forall j, k | 0 <= j < k < count :: Direct(inode, j) != Direct(inode, k)
  }

  ghost predicate OwnBlock(v: Volume, b: nat)
    requires Mounted(v)
  {
    && 0 < b < |v.disk|
    && forall g | 0 <= g < |v.groups| :: !InTableOf(v, g, b) && v.groups[g].inodeBitmap != b
  }

  lemma PlainIsSolid(v: Volume, inode: Record, count: nat)
    requires Mounted(v) && Plain(v, inode, count)
    ensures Solid(DirectBlocks(inode), count, |v.disk|)
  {
    hide Le32, Mounted;
  }

  /** The data lies in the file's blocks, and blocks that are not the file's are as they were. */
  lemma DataWritten(v: Volume, inode: Record, data: seq<Byte>, count: nat)
    requires Mounted(v) && Plain(v, inode, count)
    ensures var r := WriteFrom(v.disk, FileBlocks(inode, v.sb.blockSize), data, 0);
            && r.Wrote? && r.written == Min(Start(count, v.sb.blockSize), |data|) && Mounted(v.(disk := r.disk))
            && (forall k | 0 <= k < count && Start(k, v.sb.blockSize) < |data| ::
                  r.disk[Direct(inode, k)] == Padded(data, Start(k, v.sb.blockSize), v.sb.blockSize))
            && (forall b | 0 <= b < |v.disk| && !OwnBlock(v, b) :: r.disk[b] == v.disk[b])
  {
    hide WriteFrom, Padded, Le32, DivCeil, OwnBlock, Solid;
    PlainIsSolid(v, inode, count);
    var it := FileBlocks(inode, v.sb.blockSize);
    assert Start(0, v.sb.blockSize) == 0;
    WriteFills(v.disk, it, data);
    SameSizes(v, WriteFrom(v.disk, it, data, 0).disk);
  }

  lemma StillUsed(v: Volume, u: Volume, number: nat)
    requires Mounted(v) && Mounted(u) && u == v.(disk := u.disk) && |u.disk| == |v.disk| && number > 0
    requires forall b | 0 <= b < |v.disk| && !OwnBlock(v, b) :: u.disk[b] == v.disk[b]
    ensures InodeAt(v, number).Some? <==> InodeAt(u, number).Some?
  {
    var (g, l) := InodeLocation(v.sb, number);
    if g < |v.groups| { assert !OwnBlock(v, v.groups[g].inodeBitmap); }
  }

  lemma InodeWriteKeeps(v: Volume, number: nat, inode: Record, b: nat)
    requires Mounted(v) && number > 0 && WithInode(v, number, inode).Some? && OwnBlock(v, b)
    ensures var w := WithInode(v, number, inode).value; |w.disk| == |v.disk| && w.disk[b] == v.disk[b]
  {
    var (g, l) := InodeLocation(v.sb, number);
    SlotInTable(v.sb, v.groups[g].inodeTable, l);
    assert InTableOf(v, g, InodeBlockAndOffset(v.sb, v.groups[g].inodeTable, l).0);
  }

  lemma SameOwn(v: Volume, u: Volume, b: nat)
    requires Mounted(v) && Mounted(u) && u == v.(disk := u.disk) && |u.disk| == |v.disk|
    ensures OwnBlock(u, b) == OwnBlock(v, b)
  {
    assert forall g | 0 <= g < |v.groups| :: InTableOf(u, g, b) == InTableOf(v, g, b);
  }

  /** Filling the blocks and then writing the inode is all there is to a write. */
  lemma WriteFileIs(v: Volume, number: nat, inode: Record, data: seq<Byte>)
    requires Mounted(v) && number > 0 && IsFile(inode) && |data| < 0x1_0000_0000
    requires var r := WriteFrom(v.disk, FileBlocks(inode, v.sb.blockSize), data, 0);
             && r.Wrote? && r.written == |data| && Mounted(v.(disk := r.disk))
             && WithInode(v.(disk := r.disk), number, WithSizeLow(inode, |data|)).Some?
    ensures var u := v.(disk := WriteFrom(v.disk, FileBlocks(inode, v.sb.blockSize), data, 0).disk);
            var updated := WithSizeLow(inode, |data|);
            WriteFile(v, number, inode, data) == Some((WithInode(u, number, updated).value, updated))
  {
    hide WriteFrom, WithInode, WithSizeLow, Le32, DivCeil, Put32, Splice, DirectBlocks, FileBlocks;
    Small(|data|);
  }

  lemma Small(n: nat)
    ensures n < 0x1_0000_0000 ==> n % 0x1_0000_0000 == n
  {
  }

  /** For a file without holes in blocks of its own, a write panics exactly when it is not a regular file, the data is
      longer than its blocks, or its inode is not in use. */
  lemma WriteFailsWhen(v: Volume, number: nat, inode: Record, data: seq<Byte>, count: nat)
    requires Mounted(v) && number > 0 && Plain(v, inode, count)
    ensures WriteFile(v, number, inode, data).None? <==>
            !IsFile(inode) || |data| > Start(count, v.sb.blockSize) || InodeAt(v, number).None?
  {
    hide WriteFrom, WithInode, WithSizeLow, Le32, DivCeil, Put32, Splice, DirectBlocks, Start, Plain, InodeAt;
    DataWritten(v, inode, data, count);
    var u := v.(disk := WriteFrom(v.disk, FileBlocks(inode, v.sb.blockSize), data, 0).disk);
    StillUsed(v, u, number);
    WriteThenRead(u, number, WithSizeLow(inode, |data| % 0x1_0000_0000));
  }

  /** The data is in the file's blocks, and the inode on the disk is the one with the new size. */
  lemma WriteStores(v: Volume, number: nat, inode: Record, data: seq<Byte>, count: nat)
    requires Mounted(v) && number > 0 && InodeAt(v, number).Some? && IsFile(inode)
    requires Plain(v, inode, count) && |data| <= Start(count, v.sb.blockSize) && |data| < 0x1_0000_0000
    ensures WriteFile(v, number, inode, data).Some?
    ensures var (w, updated) := WriteFile(v, number, inode, data).value;
            && Mounted(w) && w.sb == v.sb && |w.disk| == |v.disk|
            && updated == WithSizeLow(inode, |data|) && InodeAt(w, number) == Some(updated)
            && forall k | 0 <= k < count && Start(k, v.sb.blockSize) < |data| ::
                 w.disk[Direct(inode, k)] == Padded(data, Start(k, v.sb.blockSize), v.sb.blockSize)
  {
    hide WriteFrom, WriteFile, Padded, Le32, InodeAt, Start, DivCeil, WithSizeLow;
    DataWritten(v, inode, data, count);
    var u := v.(disk := WriteFrom(v.disk, FileBlocks(inode, v.sb.blockSize), data, 0).disk);
    StillUsed(v, u, number);
    var updated := WithSizeLow(inode, |data|);
    WriteThenRead(u, number, updated);
    WriteFileIs(v, number, inode, data);
    StoredBlocks(v, u, number, inode, updated, count);
  }

  lemma StoredBlocks(v: Volume, u: Volume, number: nat, inode: Record, updated: Record, count: nat)
    requires Mounted(v) && Mounted(u) && u == v.(disk := u.disk) && |u.disk| == |v.disk| && number > 0
    requires Plain(v, inode, count) && WithInode(u, number, updated).Some?
    ensures var w := WithInode(u, number, updated).value;
            && w.sb == v.sb && |w.disk| == |u.disk|
            && forall k | 0 <= k < count :: w.disk[Direct(inode, k)] == u.disk[Direct(inode, k)]
  {
    hide Mounted, Le32, WithInode, DivCeil;
    var w := WithInode(u, number, updated).value;
    forall k | 0 <= k < count ensures w.disk[Direct(inode, k)] == u.disk[Direct(inode, k)] {
      SameOwn(v, u, Direct(inode, k));
      InodeWriteKeeps(u, number, updated, Direct(inode, k));
    }
  }
}

/**
 Inode numbers, the slots of the inode tables and the inode bitmaps of an ext2 volume. A block device is the sequence
 of its blocks; a panic is `None` where the source would otherwise return a value.
 */
module Ext2Inodes {
  import opened Common
  import opened Arithmetic
  import opened ByteFields
  import opened Ext2Bitmap

  /** Size in bytes of the inode record that is read and written. */
  const INODE: nat := 128

  datatype Superblock = Superblock(inodesPerGroup: nat, inodeSize: nat, blockSize: nat, revision: nat)
  datatype Group = Group(inodeBitmap: nat, inodeTable: nat)
  datatype Volume = Volume(sb: Superblock, groups: seq<Group>, disk: seq<seq<Byte>>)

  // ---------- inode numbers ----------

  /** The block group of an inode and its index there. */
  function InodeLocation(sb: Superblock, number: nat): (r: (nat, nat))
    requires number > 0 && sb.inodesPerGroup > 0
    ensures r.1 < sb.inodesPerGroup
  {
    ((number - 1) / sb.inodesPerGroup, (number - 1) % sb.inodesPerGroup)
  }

  function InodeNumber(sb: Superblock, group: nat, index: nat): (n: nat)
    ensures n > 0
  {
    group * sb.inodesPerGroup + index + 1
  }

  lemma NumberOfLocation(sb: Superblock, number: nat)
    requires number > 0 && sb.inodesPerGroup > 0
    ensures var (g, l) := InodeLocation(sb, number);
            InodeNumber(sb, g, l) == number == g * sb.inodesPerGroup + l + 1
  {
    var (g, l) := InodeLocation(sb, number);
    assert number - 1 == (number - 1) / sb.inodesPerGroup * sb.inodesPerGroup + (number - 1) % sb.inodesPerGroup;
  }

  /** An index found in a group's bitmap names an inode of that group exactly when it is not padding. */
  lemma LocationOfNumber(sb: Superblock, group: nat, index: nat)
    requires sb.inodesPerGroup > 0
    ensures InodeLocation(sb, InodeNumber(sb, group, index)) == (group, index) <==> index < sb.inodesPerGroup
  {
    if index < sb.inodesPerGroup {
      DivModIs(InodeNumber(sb, group, index) - 1, sb.inodesPerGroup, group, index);
    }
  }

  // ---------- slots ----------

  /** The block that holds an inode's record and the record's offset there. */
  function InodeBlockAndOffset(sb: Superblock, table: nat, index: nat): (r: (nat, nat))
    requires sb.blockSize > 0
  {
    (table + sb.inodeSize * index / sb.blockSize, sb.inodeSize * index % sb.blockSize)
  }

  /** Records are at least as long as what is written of them and tile a block. */
  predicate SizesOk(sb: Superblock) {
    && sb.inodesPerGroup > 0 && sb.inodeSize >= INODE && sb.blockSize > 0
    && sb.blockSize % sb.inodeSize == 0
  }

  function PerBlock(sb: Superblock): (n: nat)
    requires SizesOk(sb)
    ensures n > 0 && n * sb.inodeSize == sb.blockSize
  {
    assert sb.blockSize == sb.blockSize / sb.inodeSize * sb.inodeSize;
    sb.blockSize / sb.inodeSize
  }

  function TableBlocks(sb: Superblock): (n: nat)
    requires SizesOk(sb)
  {
    DivCeil(sb.inodesPerGroup, PerBlock(sb))
  }

  lemma SlotIs(sb: Superblock, index: nat)
    requires SizesOk(sb)
    ensures sb.inodeSize * index / sb.blockSize == index / PerBlock(sb)
    ensures sb.inodeSize * index % sb.blockSize == index % PerBlock(sb) * sb.inodeSize
    ensures index % PerBlock(sb) * sb.inodeSize + sb.inodeSize <= sb.blockSize
  {
    var per := PerBlock(sb);
    var q, r := index / per, index % per;
    MulGap(r, per, sb.inodeSize);
    calc {
      sb.inodeSize * index;
      { assert index == q * per + r; }
      sb.inodeSize * (q * per + r);
      { Distribute(sb.inodeSize, q, per, r); }
      q * (per * sb.inodeSize) + r * sb.inodeSize;
      q * sb.blockSize + r * sb.inodeSize;
    }
    DivModIs(sb.inodeSize * index, sb.blockSize, q, r * sb.inodeSize);
  }

  lemma Distribute(s: nat, q: nat, per: nat, r: nat)
    ensures s * (q * per + r) == q * (per * s) + r * s
  {
  }

  /** Slots follow one another from the beginning of the table, each of the size of a record. */
  lemma SlotAddress(sb: Superblock, table: nat, index: nat)
    requires sb.blockSize > 0
    ensures var (b, o) := InodeBlockAndOffset(sb, table, index);
            b >= table && o < sb.blockSize && (b - table) * sb.blockSize + o == sb.inodeSize * index
  {
    var n := sb.inodeSize * index;
    assert n == n / sb.blockSize * sb.blockSize + n % sb.blockSize;
  }

  /** Every slot lies in the table, within one block. */
  lemma SlotInTable(sb: Superblock, table: nat, i: nat)
    requires SizesOk(sb) && i < sb.inodesPerGroup
    ensures var (b, o) := InodeBlockAndOffset(sb, table, i);
            table <= b < table + TableBlocks(sb) && o + INODE <= sb.blockSize
  {
    SlotIs(sb, i);
    InTable(i, PerBlock(sb), sb.inodesPerGroup);
  }

  lemma InTable(i: nat, per: nat, count: nat)
    requires per > 0 && i < count
    ensures i / per < DivCeil(count, per)
  {
    var q, n := i / per, DivCeil(count, per);
    assert i == q * per + i % per;
    CeilBounds(count, per);
    MulLess(q, n, per);
  }

  /** Two slots of a table do not overlap. */
  lemma SlotsApart(sb: Superblock, table: nat, i: nat, j: nat)
    requires SizesOk(sb) && i != j
    ensures var (b, o) := InodeBlockAndOffset(sb, table, i);
            var (c, p) := InodeBlockAndOffset(sb, table, j);
            b != c || o + INODE <= p || p + INODE <= o
  {
    SlotIs(sb, i);
    SlotIs(sb, j);
    var per := PerBlock(sb);
    DivModSame(i, j, per);
    SlotsStep(i % per, j % per, sb.inodeSize);
  }

  lemma SlotsStep(a: nat, b: nat, s: nat)
    ensures a != b ==> a * s + s <= b * s || b * s + s <= a * s
  {
    if a < b { MulGap(a, b, s); }
    if b < a { MulGap(b, a, s); }
  }

  // ---------- reading and writing inodes ----------

  predicate InTableOf(v: Volume, g: nat, block: nat)
    requires g < |v.groups| && SizesOk(v.sb)
  {
    v.groups[g].inodeTable <= block < v.groups[g].inodeTable + TableBlocks(v.sb)
  }

  /** The tables and bitmaps of the groups lie on the disk, none in another's blocks. */
  ghost predicate Mounted(v: Volume) {
    && SizesOk(v.sb)
    && (forall b | 0 <= b < |v.disk| :: |v.disk[b]| == v.sb.blockSize)
    && v.sb.inodesPerGroup <= 8 * v.sb.blockSize
    && (forall g | 0 <= g < |v.groups| ::
          && v.groups[g].inodeTable + TableBlocks(v.sb) <= |v.disk|
          && v.groups[g].inodeBitmap < |v.disk|)
    && (forall g, h, b | 0 <= g < h < |v.groups| && InTableOf(v, g, b) :: !InTableOf(v, h, b))
    && (forall g, h | 0 <= g < |v.groups| && 0 <= h < |v.groups| :: !InTableOf(v, g, v.groups[h].inodeBitmap))
    && (forall g, h | 0 <= g < h < |v.groups| :: v.groups[g].inodeBitmap != v.groups[h].inodeBitmap)
  }

  function BitmapOf(v: Volume, g: nat): (b: seq<Byte>)
    requires g < |v.groups| && v.groups[g].inodeBitmap < |v.disk|
  {
    v.disk[v.groups[g].inodeBitmap]
  }

  /** The inode, `None` if there is no such group or the bitmap does not say it is used. */
  function InodeAt(v: Volume, number: nat): (r: Option<seq<Byte>>)
    requires Mounted(v) && number > 0
    ensures r.Some? ==> |r.value| == INODE
  {
    var (g, l) := InodeLocation(v.sb, number);
    if g >= |v.groups| || IsUsed(BitmapOf(v, g), l) != Some(true) then None
    else
      SlotInTable(v.sb, v.groups[g].inodeTable, l);
      var (b, o) := InodeBlockAndOffset(v.sb, v.groups[g].inodeTable, l);
      Some(v.disk[b][o..o + INODE])
  }

  /** The byte so far behind the beginning of a block. */
  function ByteFrom(v: Volume, block: nat, at: nat): (x: nat)
    requires v.sb.blockSize > 0
  {
    var b, o := block + at / v.sb.blockSize, at % v.sb.blockSize;
    if b < |v.disk| && o < |v.disk[b]| then v.disk[b][o] else 0
  }

  /** An inode's record is the bytes from so many records into its group's table on. */
  lemma InodeIsAt(v: Volume, number: nat, k: nat)
    requires Mounted(v) && number > 0 && InodeAt(v, number).Some? && k < INODE
    ensures var (g, l) := InodeLocation(v.sb, number);
            g < |v.groups| && InodeAt(v, number).value[k] == ByteFrom(v, v.groups[g].inodeTable, v.sb.inodeSize * l + k)
  {
    var (g, l) := InodeLocation(v.sb, number);
    var table := v.groups[g].inodeTable;
    SlotInTable(v.sb, table, l);
    SlotAddress(v.sb, table, l);
    var (b, o) := InodeBlockAndOffset(v.sb, table, l);
    hide InodeBlockAndOffset, SizesOk;
    DivModIs(v.sb.inodeSize * l + k, v.sb.blockSize, b - table, o + k);
  }

  /** The volume with the inode written, `None` where the source panics. */
  function WithInode(v: Volume, number: nat, inode: seq<Byte>): (r: Option<Volume>)
    requires Mounted(v) && number > 0 && |inode| == INODE
    ensures r.Some? ==> r.value == v.(disk := r.value.disk) && |r.value.disk| == |v.disk|
  {
    var (g, l) := InodeLocation(v.sb, number);
    if g >= |v.groups| || IsUsed(BitmapOf(v, g), l) != Some(true) then None
    else
      SlotInTable(v.sb, v.groups[g].inodeTable, l);
      var (b, o) := InodeBlockAndOffset(v.sb, v.groups[g].inodeTable, l);
      Some(v.(disk := v.disk[b := Splice(v.disk[b], o, inode)]))
  }

  /** Writing blocks of the same size anywhere keeps the layout. */
  lemma SameLayout(v: Volume, b: nat, block: seq<Byte>)
    requires Mounted(v) && b < |v.disk| && |block| == v.sb.blockSize
    ensures Mounted(v.(disk := v.disk[b := block]))
  {
    hide SizesOk, TableBlocks;
    var w := v.(disk := v.disk[b := block]);
    assert forall g, c | 0 <= g < |v.groups| :: InTableOf(w, g, c) == InTableOf(v, g, c);
  }

  /** An inode can be written exactly when it can be read, and what was written is what is then read. */
  lemma WriteThenRead(v: Volume, number: nat, inode: seq<Byte>)
    requires Mounted(v) && number > 0 && |inode| == INODE
    ensures WithInode(v, number, inode).Some? <==> InodeAt(v, number).Some?
    ensures WithInode(v, number, inode).Some? ==>
              var w := WithInode(v, number, inode).value; Mounted(w) && InodeAt(w, number) == Some(inode)
  {
    var (g, l) := InodeLocation(v.sb, number);
    if WithInode(v, number, inode).Some? {
      SlotInTable(v.sb, v.groups[g].inodeTable, l);
      var (b, o) := InodeBlockAndOffset(v.sb, v.groups[g].inodeTable, l);
      SameLayout(v, b, Splice(v.disk[b], o, inode));
      assert InTableOf(v, g, b);
    }
  }

  /** Every other inode reads as before. */
  lemma OthersReadSame(v: Volume, number: nat, inode: seq<Byte>, other: nat)
    requires Mounted(v) && number > 0 && other > 0 && other != number && |inode| == INODE
    requires WithInode(v, number, inode).Some?
    ensures var w := WithInode(v, number, inode).value; Mounted(w) && InodeAt(w, other) == InodeAt(v, other)
  {
    WriteThenRead(v, number, inode);
    NumberOfLocation(v.sb, number);
    NumberOfLocation(v.sb, other);
    var (g, l) := InodeLocation(v.sb, number);
    var (h, m) := InodeLocation(v.sb, other);
    var (b, o) := InodeBlockAndOffset(v.sb, v.groups[g].inodeTable, l);
    SlotInTable(v.sb, v.groups[g].inodeTable, l);
    assert InTableOf(v, g, b);
    if h < |v.groups| {
      SlotInTable(v.sb, v.groups[h].inodeTable, m);
      var (c, p) := InodeBlockAndOffset(v.sb, v.groups[h].inodeTable, m);
      assert InTableOf(v, h, c);
      if g == h { SlotsApart(v.sb, v.groups[g].inodeTable, l, m); }
      SpliceElsewhere(v.disk[b], o, inode, p, INODE);
    }
  }

  lemma SpliceElsewhere(block: seq<Byte>, at: nat, data: seq<Byte>, from: nat, len: nat)
    requires at + |data| <= |block|
    ensures from + len <= |block| && (at + |data| <= from || from + len <= at) ==>
              Splice(block, at, data)[from..from + len] == block[from..from + len]
  {
  }

  // ---------- reserving an inode ----------

  function NextFree(bytes: seq<Byte>, from: nat): (r: Option<nat>)
    requires from <= 8 * |bytes|
    ensures r.Some? ==> from <= r.value < 8 * |bytes| && !Used(bytes, r.value)
    ensures forall i | from <= i < (if r.Some? then r.value else 8 * |bytes|) :: Used(bytes, i)
    decreases 8 * |bytes| - from
  {
    if from == 8 * |bytes| then None
    else if !Used(bytes, from) then Some(from)
    else NextFree(bytes, from + 1)
  }

  datatype Creation = NoGroup | NoFreeInode | Panic | Created(volume: Volume, number: nat)

  /** Reserves an inode in the group of the parent and writes it. */
  function WithNewInode(v: Volume, parent: nat, inode: seq<Byte>): (r: Creation)
    requires Mounted(v) && parent > 0 && |inode| == INODE
  {
    var (g, _) := InodeLocation(v.sb, parent);
    if g >= |v.groups| then NoGroup
    else
      var free := NextFree(BitmapOf(v, g), 0);
      if free.None? then NoFreeInode
      else
        var b := v.groups[g].inodeBitmap;
        SameLayout(v, b, Reserve(BitmapOf(v, g), free.value));
        var w := v.(disk := v.disk[b := Reserve(BitmapOf(v, g), free.value)]);
        var number := InodeNumber(v.sb, g, free.value);
        var written := WithInode(w, number, inode);
        if written.None? then Panic else Created(written.value, number)
  }

  /** The bits of each bitmap beyond the group's inodes are set. */
  predicate PaddingSet(v: Volume)
    requires Mounted(v)
  {
    forall g, i | 0 <= g < |v.groups| && v.sb.inodesPerGroup <= i < 8 * v.sb.blockSize :: Used(BitmapOf(v, g), i)
  }

  /** Reserving changes which inodes are used only at the reserved one, and no inode's record. */
  lemma ReserveReads(v: Volume, g: nat, i: nat, other: nat)
    requires Mounted(v) && g < |v.groups| && i < v.sb.inodesPerGroup && other > 0
    ensures var w := v.(disk := v.disk[v.groups[g].inodeBitmap := Reserve(BitmapOf(v, g), i)]);
            && Mounted(w)
            && (other != InodeNumber(v.sb, g, i) ==> InodeAt(w, other) == InodeAt(v, other))
            && (other == InodeNumber(v.sb, g, i) ==> InodeAt(w, other).Some?)
            && (other == InodeNumber(v.sb, g, i) && !Used(BitmapOf(v, g), i) ==> InodeAt(v, other).None?)
  {
    var bitmap := v.groups[g].inodeBitmap;
    SameLayout(v, bitmap, Reserve(BitmapOf(v, g), i));
    LocationOfNumber(v.sb, g, i);
    NumberOfLocation(v.sb, other);
    var (h, m) := InodeLocation(v.sb, other);
    if h < |v.groups| {
      ReservesOnlyThat(BitmapOf(v, g), i, m);
      SlotInTable(v.sb, v.groups[h].inodeTable, m);
      var (c, p) := InodeBlockAndOffset(v.sb, v.groups[h].inodeTable, m);
      assert InTableOf(v, h, c);
    }
  }

  /**
   The number a new file gets was unused and passes the check on writing; its inode reads back and every other reads
   as before. It fails for want of an inode exactly when the group's inodes are all used.
   */
  lemma CreatedInode(v: Volume, parent: nat, inode: seq<Byte>, other: nat)
    requires Mounted(v) && PaddingSet(v) && parent > 0 && other > 0 && |inode| == INODE
    ensures var r := WithNewInode(v, parent, inode);
            && !r.Panic?
            && (r.Created? ==>
                  && r.number > 0 && InodeAt(v, r.number).None?
                  && Mounted(r.volume) && InodeAt(r.volume, r.number) == Some(inode)
                  && (other != r.number ==> InodeAt(r.volume, other) == InodeAt(v, other)))
  {
    var (g, _) := InodeLocation(v.sb, parent);
    if g < |v.groups| && NextFree(BitmapOf(v, g), 0).Some? {
      var i := NextFree(BitmapOf(v, g), 0).value;
      assert i < v.sb.inodesPerGroup;
      var number := InodeNumber(v.sb, g, i);
      var w := v.(disk := v.disk[v.groups[g].inodeBitmap := Reserve(BitmapOf(v, g), i)]);
      ReserveReads(v, g, i, number);
      ReserveReads(v, g, i, other);
      WriteThenRead(w, number, inode);
      if other != number { OthersReadSame(w, number, inode, other); }
    }
  }

  /** The parent's group is missing exactly when the parent's number is beyond the last group. */
  lemma NoGroupWhen(v: Volume, parent: nat, inode: seq<Byte>)
    requires Mounted(v) && parent > 0 && |inode| == INODE
    ensures WithNewInode(v, parent, inode).NoGroup? <==> parent > |v.groups| * v.sb.inodesPerGroup
  {
    hide WithInode, Reserve;
    GroupBelow(parent, v.sb.inodesPerGroup, |v.groups|);
  }

  lemma GroupBelow(number: nat, per: nat, groups: nat)
    requires number > 0 && per > 0
    ensures (number - 1) / per < groups <==> number <= groups * per
  {
    var q := (number - 1) / per;
    assert number - 1 == q * per + (number - 1) % per;
    if q < groups { MulGap(q, groups, per); } else if groups < q { MulGap(groups, q, per); }
  }

  /** The inode of a new file is made exactly when the parent's group is there and has an inode that is not used, and it
      is the first such. */
  lemma CreatesWhen(v: Volume, parent: nat, inode: seq<Byte>)
    requires Mounted(v) && PaddingSet(v) && parent > 0 && |inode| == INODE
    ensures var (g, _) := InodeLocation(v.sb, parent);
            var r := WithNewInode(v, parent, inode);
            && (r.Created? <==>
                  parent <= |v.groups| * v.sb.inodesPerGroup
                  && exists i | 0 <= i < v.sb.inodesPerGroup :: InodeAt(v, InodeNumber(v.sb, g, i)).None?)
            && (r.Created? ==> exists i | 0 <= i < v.sb.inodesPerGroup ::
                  && r.number == InodeNumber(v.sb, g, i)
                  && forall j | 0 <= j < i :: InodeAt(v, InodeNumber(v.sb, g, j)).Some?)
  {
    hide InodeAt;
    var (g, _) := InodeLocation(v.sb, parent);
    NoGroupWhen(v, parent, inode);
    NoFreeInodeWhen(v, parent, inode);
    CreatedInode(v, parent, inode, parent);
    if WithNewInode(v, parent, inode).Created? {
      var i := NextFree(BitmapOf(v, g), 0).value;
      assert i < v.sb.inodesPerGroup;
      forall j | 0 <= j < i ensures InodeAt(v, InodeNumber(v.sb, g, j)).Some? {
        UsedIsThere(v, g, j);
      }
    }
  }

  lemma UsedIsThere(v: Volume, g: nat, i: nat)
    requires Mounted(v) && g < |v.groups| && i < v.sb.inodesPerGroup
    ensures InodeAt(v, InodeNumber(v.sb, g, i)).Some? <==> Used(BitmapOf(v, g), i)
  {
    LocationOfNumber(v.sb, g, i);
  }

  lemma NoFreeInodeWhen(v: Volume, parent: nat, inode: seq<Byte>)
    requires Mounted(v) && PaddingSet(v) && parent > 0 && |inode| == INODE
    ensures var (g, _) := InodeLocation(v.sb, parent);
            WithNewInode(v, parent, inode).NoFreeInode?
            <==> g < |v.groups| && forall i | 0 <= i < v.sb.inodesPerGroup ::
                                     InodeAt(v, InodeNumber(v.sb, g, i)).Some?
  {
    var (g, _) := InodeLocation(v.sb, parent);
    if g < |v.groups| {
      forall i | 0 <= i < v.sb.inodesPerGroup
        ensures InodeAt(v, InodeNumber(v.sb, g, i)).Some? <==> Used(BitmapOf(v, g), i)
      {
        UsedIsThere(v, g, i);
      }
      var r := NextFree(BitmapOf(v, g), 0);
      if r.Some? {
        assert r.value < v.sb.inodesPerGroup;
        assert InodeAt(v, InodeNumber(v.sb, g, r.value)).None?;
      }
      CreatedInode(v, parent, inode, parent);
    }
  }

  // ---------- the inodes as a map ----------

  /** What reading gives for every number that can be read. */
  ghost function Inodes(v: Volume): (m: imap<nat, seq<Byte>>)
    requires Mounted(v)
  {
    imap n: nat | n > 0 && InodeAt(v, n).Some? :: InodeAt(v, n).value
  }

  /** Writing an inode is updating the map at a key that is there. */
  lemma WriteUpdates(v: Volume, number: nat, inode: seq<Byte>)
    requires Mounted(v) && PaddingSet(v) && number > 0 && |inode| == INODE
    ensures WithInode(v, number, inode).Some? <==> number in Inodes(v)
    ensures WithInode(v, number, inode).Some? ==>
              var w := WithInode(v, number, inode).value;
              Mounted(w) && PaddingSet(w) && Inodes(w) == Inodes(v)[number := inode]
  {
    hide InodeAt;
    WriteThenRead(v, number, inode);
    if WithInode(v, number, inode).Some? {
      var w := WithInode(v, number, inode).value;
      forall n: nat | n > 0 && n != number ensures InodeAt(w, n) == InodeAt(v, n) {
        OthersReadSame(v, number, inode, n);
      }
      BitmapsKept(v, number, inode);
    }
  }

  lemma BitmapsKept(v: Volume, number: nat, inode: seq<Byte>)
    requires Mounted(v) && number > 0 && |inode| == INODE && WithInode(v, number, inode).Some?
    ensures var w := WithInode(v, number, inode).value;
            Mounted(w) && forall g | 0 <= g < |v.groups| :: BitmapOf(w, g) == BitmapOf(v, g)
  {
    WriteThenRead(v, number, inode);
    var (g, l) := InodeLocation(v.sb, number);
    SlotInTable(v.sb, v.groups[g].inodeTable, l);
    assert InTableOf(v, g, InodeBlockAndOffset(v.sb, v.groups[g].inodeTable, l).0);
  }

  /** Creating a file's inode adds a key that was not there. */
  lemma CreateExtends(v: Volume, parent: nat, inode: seq<Byte>)
    requires Mounted(v) && PaddingSet(v) && parent > 0 && |inode| == INODE
    ensures var r := WithNewInode(v, parent, inode);
            r.Created? ==>
              && r.number !in Inodes(v) && Mounted(r.volume) && PaddingSet(r.volume)
              && Inodes(r.volume) == Inodes(v)[r.number := inode]
  {
    hide InodeAt, WithNewInode;
    var r := WithNewInode(v, parent, inode);
    CreatedInode(v, parent, inode, parent);
    if r.Created? {
      forall n: nat | n > 0 && n != r.number ensures InodeAt(r.volume, n) == InodeAt(v, n) {
        CreatedInode(v, parent, inode, n);
      }
      PaddingStays(v, parent, inode);
    }
  }

  lemma PaddingStays(v: Volume, parent: nat, inode: seq<Byte>)
    requires Mounted(v) && PaddingSet(v) && parent > 0 && |inode| == INODE
    requires WithNewInode(v, parent, inode).Created?
    ensures var w := WithNewInode(v, parent, inode).volume; Mounted(w) && PaddingSet(w)
  {
    var (g, _) := InodeLocation(v.sb, parent);
    var i := NextFree(BitmapOf(v, g), 0).value;
    var b := v.groups[g].inodeBitmap;
    SameLayout(v, b, Reserve(BitmapOf(v, g), i));
    var w := v.(disk := v.disk[b := Reserve(BitmapOf(v, g), i)]);
    BitmapsKept(w, InodeNumber(v.sb, g, i), inode);
    WriteThenRead(w, InodeNumber(v.sb, g, i), inode);
    var u := WithNewInode(v, parent, inode).volume;
    forall h, j | 0 <= h < |v.groups| && v.sb.inodesPerGroup <= j < 8 * v.sb.blockSize
      ensures Used(BitmapOf(u, h), j)
    {
      assert BitmapOf(u, h) == BitmapOf(w, h) && Used(BitmapOf(v, h), j);
      if h == g { ReservesOnlyThat(BitmapOf(v, g), i, j); }
    }
  }

  // ---------- the file system in memory ----------

  class FileSystem {
    const sb: Superblock
    const groups: seq<Group>
    var disk: seq<seq<Byte>>

    ghost function View(): (v: Volume)
      reads this
    {
      Volume(sb, groups, disk)
    }

    constructor (v: Volume)
      ensures View() == v
    {
      sb, groups, disk := v.sb, v.groups, v.disk;
    }

    /** A buffer holding a copy of a block. */
    method ReadBlock(b: nat) returns (buffer: array<Byte>)
      requires b < |disk|
      ensures fresh(buffer) && buffer[..] == disk[b]
    {
      var block := disk[b];
      buffer := new Byte[|block|](i requires 0 <= i < |block| => block[i]);
    }

    method Flush(b: nat, buffer: array<Byte>)
      requires b < |disk|
      modifies this
      ensures disk == old(disk)[b := buffer[..]]
    {
      disk := disk[b := buffer[..]];
    }

    method ReadInode(number: nat) returns (r: Option<seq<Byte>>)
      requires Mounted(View()) && number > 0
      ensures r == InodeAt(View(), number)
    {
      var (g, l) := InodeLocation(sb, number);
      if g >= |groups| { return None; }
      var bitmap := ReadBlock(groups[g].inodeBitmap);
      if IsUsed(bitmap[..], l) != Some(true) { return None; }
      SlotInTable(sb, groups[g].inodeTable, l);
      var (b, o) := InodeBlockAndOffset(sb, groups[g].inodeTable, l);
      var buffer := ReadBlock(b);
      r := Some(buffer[o..o + INODE]);
    }

    /** Writes the inode; `false` where the source panics. */
    method WriteInode(number: nat, inode: seq<Byte>) returns (ok: bool)
      requires Mounted(View()) && number > 0 && |inode| == INODE
      modifies this
      ensures ok <==> WithInode(old(View()), number, inode).Some?
      ensures View() == if ok then WithInode(old(View()), number, inode).value else old(View())
    {
      var (g, l) := InodeLocation(sb, number);
      if g >= |groups| { return false; }
      var bitmap := ReadBlock(groups[g].inodeBitmap);
      if IsUsed(bitmap[..], l) != Some(true) { return false; }
      SlotInTable(sb, groups[g].inodeTable, l);
      var (b, o) := InodeBlockAndOffset(sb, groups[g].inodeTable, l);
      var buffer := ReadBlock(b);
      WriteBytes(buffer, o, inode);
      Flush(b, buffer);
      ok := true;
    }

    /** Reserves an inode in the group of the parent and writes it there. */
    method CreateInode(parent: nat, inode: seq<Byte>) returns (number: Option<nat>)
      requires Mounted(View()) && PaddingSet(View()) && parent > 0 && |inode| == INODE
      modifies this
      ensures number.Some? <==> WithNewInode(old(View()), parent, inode).Created?
      ensures number.Some? ==> WithNewInode(old(View()), parent, inode) == Created(View(), number.value)
      ensures number.None? ==> View() == old(View())
    {
      CreatedInode(View(), parent, inode, parent);
      var (g, _) := InodeLocation(sb, parent);
      if g >= |groups| { return None; }
      var buffer := ReadBlock(groups[g].inodeBitmap);
      var bitmap := new Bitmap(buffer);
      var free := bitmap.ReserveNextFree();
      NextFreeIs(disk[groups[g].inodeBitmap], free);
      if free.None? { return None; }
      SameLayout(View(), groups[g].inodeBitmap, buffer[..]);
      Flush(groups[g].inodeBitmap, buffer);
      var n := InodeNumber(sb, g, free.value);
      var written := WriteInode(n, inode);
      number := Some(n);
    }
  }

  lemma NextFreeIs(bytes: seq<Byte>, r: Option<nat>)
    requires r.Some? ==> r.value < 8 * |bytes| && !Used(bytes, r.value)
    requires AllUsed(bytes, if r.Some? then r.value else 8 * |bytes|)
    ensures NextFree(bytes, 0) == r
  {
  }
}

/**
 The page-table code in place: the walks that read and write entries of physical memory, proved to compute the
 functions of `Mapping`.
 */
module Level4 {
  import opened Common
  import opened BitmapAlloc
  import opened PageTable
  import opened Mapping
  import opened VirtualAddress
  import AddressSpaces

  class PhysicalMemory {
    var frames: Memory

    constructor (frames: Memory)
      ensures this.frames == frames
    {
      this.frames := frames;
    }
  }

  class PhysicalMemoryAllocator {
    const allocator: BitmapAllocator

    constructor (allocator: BitmapAllocator)
      ensures this.allocator == allocator
    {
      this.allocator := allocator;
    }

    /** One frame; the source asserts that it is never frame zero. */
    method AllocatePage() returns (frame: Option<nat>)
      requires allocator.Valid() && Allocate(allocator.View(), 1).1 != Some(0)
      modifies allocator, allocator.bitmap
      ensures allocator.Valid() && (allocator.View(), frame) == Allocate(old(allocator.View()), 1)
    {
      frame := allocator.AllocateContiguous(1);
    }

    method FreePage(frame: nat, size: PageSize)
      requires allocator.Valid() && Mapping.FreePage(allocator.View(), frame, size).Some?
      modifies allocator, allocator.bitmap
      ensures allocator.Valid()
      ensures Some(allocator.View()) == Mapping.FreePage(old(allocator.View()), frame, size)
    {
      allocator.FreeContiguous(frame / size.Frames(), 1);
    }
  }

  class Level4PageTable {
    const ram: PhysicalMemory
    const root: nat

    constructor (ram: PhysicalMemory, root: nat)
      ensures this.ram == ram && this.root == root
    {
      this.ram, this.root := ram, root;
    }

    ghost function View(allocator: PhysicalMemoryAllocator): State
      reads ram, allocator.allocator, allocator.allocator.bitmap
    {
      State(ram.frames, allocator.allocator.View())
    }

    ghost predicate Valid(allocator: PhysicalMemoryAllocator)
      reads ram, allocator.allocator, allocator.allocator.bitmap
    {
      && root < |ram.frames|
      && |allocator.allocator.View().bits| == |ram.frames|
      && allocator.allocator.Valid()
    }

    method TranslateAddress(a: nat) returns (t: Translation)
      requires root < |ram.frames|
      ensures t == Translate(ram.frames, root, a)
    {
      var p := PathOf(a);
      var table: nat, level: nat := root, 4;
      while true
        invariant 1 <= level <= 4 && table < |ram.frames|
        invariant Find(ram.frames, root, 4, p) == Find(ram.frames, table, level, p)
        decreases level
      {
        match TargetOf(|ram.frames|, level, ram.frames[table][p[4 - level]])
        case Unmapped => return TranslatesToNothing;
        case Leaf(f, size, flags) => return TranslatesTo(f, size, flags, a % Bytes(size));
        case Next(t) => table, level := t, level - 1;
        case Broken => return Fault;
      }
    }

    /** Maps the page at an unused entry of a level 1 table. */
    method MapEntry(
      allocator: PhysicalMemoryAllocator, table: nat, p: Path, target: MapTarget, flags: set<Flag>)
      returns (res: MapResult)
      requires Valid(allocator) && table < |ram.frames| && TargetOf(|ram.frames|, 1, ram.frames[table][p[3]]).Unmapped?
      requires !MapFrom(View(allocator), table, 1, p, target, flags).1.MapPanic?
      modifies ram, allocator.allocator, allocator.allocator.bitmap
      ensures Valid(allocator)
      ensures (View(allocator), res) == MapFrom(old(View(allocator)), table, 1, p, target, flags)
    {
      hide Allocate;
      var frame;
      match target {
        case ExistingPage(f) => frame := f;
        case NewPage =>
          var f := allocator.AllocatePage();
          if f.None? { return NoFrame; }
          frame := f.value;
      }
      ram.frames := Write(ram.frames, table, p[3], SetTarget(ram.frames[table][p[3]], frame, flags));
      res := Mapped(frame);
    }

    /** Hangs a new, empty table at an unused entry, unless no frame is left. */
    method AddTable(
      allocator: PhysicalMemoryAllocator, table: nat, level: nat, p: Path, ghost target: MapTarget, flags: set<Flag>)
      returns (child: Option<nat>)
      requires Valid(allocator) && table < |ram.frames| && 1 < level <= 4
      requires TargetOf(|ram.frames|, level, ram.frames[table][p[4 - level]]).Unmapped?
      requires !MapFrom(View(allocator), table, level, p, target, flags).1.MapPanic?
      modifies ram, allocator.allocator, allocator.allocator.bitmap
      ensures Valid(allocator)
      ensures child.None? ==>
                (View(allocator), NoFrame) == MapFrom(old(View(allocator)), table, level, p, target, flags)
      ensures child.Some? ==>
                && child.value < |ram.frames|
                && MapFrom(View(allocator), child.value, level - 1, p, target, flags)
                   == MapFrom(old(View(allocator)), table, level, p, target, flags)
    {
      hide Allocate, WithChild;
      OneFrame(allocator.allocator.View());
      child := allocator.AllocatePage();
      if child.Some? {
        ram.frames := WithChild(ram.frames, table, p[4 - level], child.value, ParentFlags(flags));
      }
    }

    method MapTo(allocator: PhysicalMemoryAllocator, page: nat, target: MapTarget, flags: set<Flag>) returns (res: MapResult)
      requires Valid(allocator)
      requires !Mapping.MapTo(View(allocator), root, PathOf(page), target, flags).1.MapPanic?
      modifies ram, allocator.allocator, allocator.allocator.bitmap
      ensures Valid(allocator)
      ensures (View(allocator), res) == Mapping.MapTo(old(View(allocator)), root, PathOf(page), target, flags)
    {
      hide PathOf, Allocate, WithChild, Write, SetTarget;
      var p := PathOf(page);
      ghost var goal := Mapping.MapTo(View(allocator), root, p, target, flags);
      var table: nat, level: nat := root, 4;
      while true
        invariant Valid(allocator) && 1 <= level <= 4 && table < |ram.frames|
        invariant MapFrom(View(allocator), table, level, p, target, flags) == goal
        decreases level
      {
        match TargetOf(|ram.frames|, level, ram.frames[table][p[4 - level]])
        case Unmapped =>
          if level == 1 {
            res := MapEntry(allocator, table, p, target, flags);
            return;
          }
          var child := AddTable(allocator, table, level, p, target, flags);
          if child.None? { return NoFrame; }
          table, level := child.value, level - 1;
        case Leaf(f, size, fl) => return AlreadyMapped(f, size, fl);
        case Next(t) => table, level := t, level - 1;
        case Broken => assert false;
      }
    }

    method SetFlags(page: nat, flags: set<Flag>) returns (res: SetFlagsResult)
      requires root < |ram.frames| && !Find(ram.frames, root, 4, PathOf(page)).Broken?
      modifies ram
      ensures (ram.frames, res) == RewriteFlags(old(ram.frames), root, PathOf(page), flags)
    {
      hide PathOf, Write;
      var p := PathOf(page);
      var table: nat, level: nat := root, 4;
      FindAtStop(ram.frames, root, 4, p);
      while true
        invariant ram.frames == old(ram.frames) && 1 <= level <= 4 && table < |ram.frames|
        invariant Stop(ram.frames, root, 4, p) == Stop(ram.frames, table, level, p)
        decreases level
      {
        var i := p[4 - level];
        var entry := ram.frames[table][i];
        match TargetOf(|ram.frames|, level, entry)
        case Unmapped => return SetNotMapped;
        case Leaf(_, _, _) =>
          ram.frames := Write(ram.frames, table, i, PageTable.SetFlags(entry, flags));
          return FlagsSet;
        case Next(t) => table, level := t, level - 1;
        case Broken => assert false;
      }
    }

    method Unmap(allocator: PhysicalMemoryAllocator, page: nat, size: PageSize, free: bool) returns (res: UnmapResult)
      requires Valid(allocator)
      requires !Mapping.Unmap(View(allocator), root, PathOf(page), size, free).1.UnmapPanic?
      modifies ram, allocator.allocator, allocator.allocator.bitmap
      ensures Valid(allocator)
      ensures (View(allocator), res) == Mapping.Unmap(old(View(allocator)), root, PathOf(page), size, free)
    {
      hide PathOf, Write;
      var p := PathOf(page);
      var table: nat, level: nat := root, 4;
      ghost var before := View(allocator);
      while true
        invariant Valid(allocator) && View(allocator) == before && 1 <= level <= 4 && table < |ram.frames|
        invariant Stop(ram.frames, root, 4, p) == Stop(ram.frames, table, level, p)
        decreases level
      {
        var i := p[4 - level];
        match TargetOf(|ram.frames|, level, ram.frames[table][i])
        case Unmapped => return NotMapped;
        case Leaf(f, actual, _) =>
          if actual != size {
            return WrongSize(size, actual);
          }
          ram.frames := Write(ram.frames, table, i, EMPTY);
          if free {
            allocator.FreePage(f, size);
          }
          return Removed(f);
        case Next(t) => table, level := t, level - 1;
        case Broken => assert false;
      }
    }

    method UnmapLowerHalf()
      requires root < |ram.frames|
      modifies ram
      ensures ram.frames == AddressSpaces.UnmapLowerHalf(old(ram.frames), root)
    {
      ghost var before := ram.frames;
      for i := 0 to 256
        invariant |ram.frames| == |before|
        invariant forall f :: 0 <= f < |before| && f != root ==> ram.frames[f] == before[f]
        invariant forall j :: 0 <= j < NUM_ENTRIES ==> ram.frames[root][j] == if j < i then EMPTY else before[root][j]
      {
        ram.frames := Write(ram.frames, root, i, EMPTY);
      }
      assert ram.frames[root] == AddressSpaces.ClearedLower(before[root]);
    }

    /** Panics, so may not be called, when a level 3 table is missing and no frame is left for it. */
    method FillTopHalfEntries(allocator: PhysicalMemoryAllocator)
      requires Valid(allocator) && AddressSpaces.FillFrom(View(allocator), root, 256).1
      modifies ram, allocator.allocator, allocator.allocator.bitmap
      ensures Valid(allocator)
      ensures (View(allocator), true) == AddressSpaces.FillFrom(old(View(allocator)), root, 256)
    {
      hide SetTarget, BitOr, WithChild, Write, FirstFit;
      ghost var goal := AddressSpaces.FillFrom(View(allocator), root, 256);
      var i := 256;
      while i < NUM_ENTRIES
        invariant 256 <= i <= NUM_ENTRIES && Valid(allocator)
        invariant AddressSpaces.FillFrom(View(allocator), root, i) == goal
      {
        var entry := ram.frames[root][i];
        match TargetOf(|ram.frames|, 4, entry) {
          case Unmapped =>
            OneFrame(allocator.allocator.View());
            var f := allocator.AllocatePage();
            ram.frames := WithChild(ram.frames, root, i, f.value, AddressSpaces.TABLE_FLAGS);
          case Next(_) =>
            ram.frames := Write(ram.frames, root, i, PageTable.SetFlags(entry, AddressSpaces.TABLE_FLAGS));
          case _ => assert false;
        }
        i := i + 1;
      }
    }

    /** Panics, so may not be called, when no frame is left. */
    method AllocateClone(allocator: PhysicalMemoryAllocator) returns (clone: Level4PageTable)
      requires Valid(allocator) && AddressSpaces.CloneTable(View(allocator), root).1.Some?
      modifies ram, allocator.allocator, allocator.allocator.bitmap
      ensures Valid(allocator) && fresh(clone) && clone.ram == ram
      ensures (View(allocator), Some(clone.root)) == AddressSpaces.CloneTable(old(View(allocator)), root)
    {
      OneFrame(allocator.allocator.View());
      var f := allocator.AllocatePage();
      ram.frames := ram.frames[f.value := ram.frames[root]];
      clone := new Level4PageTable(ram, f.value);
    }
  }
}

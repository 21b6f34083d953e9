/** The kernel stack allocator in place, over the bitmap of slots and the kernel's page table. */
module StackAllocator {
  import opened Common
  import opened BitmapAlloc
  import opened PageTable
  import opened Mapping
  import opened VirtualAddress
  import opened AddressSpaceRuns
  import opened KernelStacks
  import opened Level4

  class KernelStackAllocator {
    const slots: BitmapAllocator
    const table: Level4PageTable
    const frames: PhysicalMemoryAllocator

    constructor (slots: BitmapAllocator, table: Level4PageTable, frames: PhysicalMemoryAllocator)
      ensures this.slots == slots && this.table == table && this.frames == frames
    {
      this.slots, this.table, this.frames := slots, table, frames;
    }

    ghost function Space(clones: set<nat>): Spaces
      reads table.ram, frames.allocator, frames.allocator.bitmap
    {
      Spaces(table.View(frames), table.root, clones)
    }

    ghost function View(clones: set<nat>, live: set<nat>): Stacks
      reads slots, slots.bitmap, table.ram, frames.allocator, frames.allocator.bitmap
    {
      Stacks(Space(clones), slots.View(), live)
    }

    ghost predicate Valid()
      reads slots, slots.bitmap, table.ram, frames.allocator, frames.allocator.bitmap
    {
      && slots.Valid() && |slots.View().bits| == MAX_STACKS
      && table.Valid(frames)
      && slots != frames.allocator && slots.bitmap != frames.allocator.bitmap
    }

    /** Returns the slot of the new stack, or `None` when all are taken; the source panics when it cannot map it. */
    method Allocate(ghost clones: set<nat>, ghost live: set<nat>) returns (slot: Option<nat>)
      requires Valid()
      requires var res := AllocateStack(View(clones, live)).1; res.Got? || res.OutOfStacks?
      modifies slots, slots.bitmap, table.ram, frames.allocator, frames.allocator.bitmap
      ensures Valid()
      ensures if slot.Some?
              then AllocateStack(old(View(clones, live))) == (View(clones, live + {slot.value}), Got(slot.value))
              else AllocateStack(old(View(clones, live))) == (View(clones, live), OutOfStacks)
    {
      hide Mapping.Unmap, MapPages, FirstFit, PathOf;
      slot := slots.AllocateContiguous(1);
      if slot.None? {
        return;
      }
      var guard := table.Unmap(frames, PageAddress(STACK_PAGES * slot.value), Size4KiB, false);
      MapAll(SlotPages(slot.value), clones);
    }

    method MapAll(pages: seq<nat>, ghost clones: set<nat>)
      requires Valid() && InRegion(pages) && MapPages(Space(clones), pages).1.None?
      modifies table.ram, frames.allocator, frames.allocator.bitmap
      ensures Valid() && MapPages(old(Space(clones)), pages) == (Space(clones), None)
    {
      ghost var goal := MapPages(Space(clones), pages);
      for i := 0 to |pages|
        invariant Valid() && MapPages(Space(clones), pages[i..]) == goal
      {
        assert pages[i..][1..] == pages[i + 1..];
        var res := table.MapTo(frames, PageAddress(pages[i]), NewPage, STACK_FLAGS);
      }
    }

    /** Panics, so may not be called, when a page of the stack turns out not to be mapped. */
    method Free(slot: nat, ghost clones: set<nat>, ghost live: set<nat>)
      requires Valid() && slot < MAX_STACKS && slots.View().bits[slot]
      requires FreeStack(View(clones, live), slot).1
      modifies slots, slots.bitmap, table.ram, frames.allocator, frames.allocator.bitmap
      ensures Valid()
      ensures FreeStack(old(View(clones, live)), slot) == (View(clones, live - {slot}), true)
    {
      var pages := SlotPages(slot);
      slots.FreeContiguous(slot, 1);
      ghost var goal := UnmapPages(Space(clones), pages);
      for i := 0 to |pages|
        invariant Valid() && slots.View() == BitmapAlloc.Free(old(slots.View()), slot, 1)
        invariant UnmapPages(Space(clones), pages[i..]) == goal
      {
        assert pages[i..][1..] == pages[i + 1..];
        var res := table.Unmap(frames, PageAddress(pages[i]), Size4KiB, true);
      }
    }
  }
}

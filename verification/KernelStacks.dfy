/**
 Kernel stacks: 256 slots of 16 pages each, the first page of a slot an unmapped guard, handed out by a bitmap
 and backed by frames of the kernel's page table.
 */
module KernelStacks {
  import opened Common
  import opened BitmapAlloc
  import opened PageTable
  import opened Mapping
  import opened VirtualAddress
  import opened AddressSpaceRuns
  import opened FrameCounts

  const STACK_PAGES: nat := 16
  const MAX_STACKS: nat := 256
  const REGION_PAGES: nat := 4096
  const REGION_START: nat := 0xffff_d000_0000_0000
  const STACK_BYTES: nat := 0x1_0000
  const STACK_FLAGS: set<Flag> := {Present, Writable}

  /** Address of page `n` of the stack region; the guard page of slot `i` is page `16 * i`. */
  function PageAddress(n: nat): (a: nat)
    requires n < REGION_PAGES
    ensures IsPage(a, Size4KiB) && TopHalf(a)
  {
    REGION_START + n * PAGE_BYTES
  }

  function PagePath(n: nat): Path
    requires n < REGION_PAGES
  {
    PathOf(PageAddress(n))
  }

  lemma PathsDiffer(n: nat, m: nat)
    requires n < REGION_PAGES && m < REGION_PAGES && n != m
    ensures PagePath(n) != PagePath(m)
  {
    var p, q := PagePath(n), PagePath(m);
    assert p[..4] == p && q[..4] == q;
    SamePage(PageAddress(n), PageAddress(m), Size4KiB);
  }

  predicate IsKernelGuardPage(a: nat) {
    && REGION_START <= a < REGION_START + STACK_BYTES * MAX_STACKS
    && (a - REGION_START) / PAGE_BYTES % STACK_PAGES == 0
  }

  /** The predicate used by the page-fault handler holds exactly for the addresses of the guard pages. */
  lemma GuardPages(a: nat)
    ensures IsKernelGuardPage(a) <==>
            exists slot :: 0 <= slot < MAX_STACKS && InPage(a, PageAddress(STACK_PAGES * slot), Size4KiB)
  {
    if IsKernelGuardPage(a) {
      var slot := (a - REGION_START) / STACK_BYTES;
      assert InPage(a, PageAddress(STACK_PAGES * slot), Size4KiB);
    }
  }

  /** Slot `slot`, its guard page and its usable ones, is the 64 KiB from that multiple of 64 KiB in the region on. */
  lemma SlotSpan(slot: nat, a: nat)
    requires slot < MAX_STACKS
    ensures (exists n: nat :: n < REGION_PAGES && n / STACK_PAGES == slot && InPage(a, PageAddress(n), Size4KiB)) <==>
            REGION_START + slot * STACK_BYTES <= a < REGION_START + (slot + 1) * STACK_BYTES
  {
    if REGION_START + slot * STACK_BYTES <= a < REGION_START + (slot + 1) * STACK_BYTES {
      var n := (a - REGION_START) / PAGE_BYTES;
      assert n < REGION_PAGES && n / STACK_PAGES == slot && InPage(a, PageAddress(n), Size4KiB);
    }
  }

  // ---------- the pages of the region ----------

  /** What the stacks can see of the system: what each page of the region translates to, which frames are in use, which
      of those are tables, and which are in use by others. */
  datatype Region = Region(found: seq<Target>, used: seq<bool>, tables: set<nat>, base: seq<bool>)

  /** The pages in `mapped`, and no others of the region, are mapped, each to a frame of its own that is no table; every
      frame in use is another's, or is a table, or belongs to one of them. */
  ghost predicate PagesOk(g: Region, mapped: set<nat>) {
    && |g.found| == REGION_PAGES && |g.used| == |g.base| > 0 && g.used[0]
    && (forall n :: n in mapped ==> n < REGION_PAGES)
    && (forall n: nat :: n < REGION_PAGES ==> if n in mapped then OwnPage(g, n) else g.found[n].Unmapped?)
    && (forall n, m :: n in mapped && m in mapped && n != m ==> g.found[n].frame != g.found[m].frame)
    && (forall x: nat :: x < |g.used| ==> (g.used[x] <==> g.base[x] || x in g.tables || Backs(g, mapped, x)))
  }

  /** Page `n` is mapped, as a stack page, to a frame taken for it. */
  ghost predicate OwnPage(g: Region, n: nat)
    requires n < |g.found| && |g.used| == |g.base|
  {
    && g.found[n].Leaf? && g.found[n].size == Size4KiB && g.found[n].flags == {Present, Writable}
    && 0 < g.found[n].frame < |g.used|
    && g.used[g.found[n].frame] && !g.base[g.found[n].frame] && g.found[n].frame !in g.tables
  }

  ghost predicate Backs(g: Region, mapped: set<nat>, x: nat)
    requires forall n :: n in mapped ==> n < |g.found| && g.found[n].Leaf?
  {
    exists n :: n in mapped && g.found[n].frame == x
  }

  /** The only frames taken between the two are new tables and the one given to page `n`, if any. */
  ghost predicate Grown(g: Region, g': Region, taken: Option<nat>) {
    && |g'.used| == |g.used| && g'.base == g.base && g.tables <= g'.tables
    && (forall x: nat :: x < |g.used| && x in g'.tables && g.used[x] ==> x in g.tables)
    && (forall x: nat :: x < |g.used| ==> (g'.used[x] <==> g.used[x] || taken == Some(x) || x in g'.tables))
    && (taken.Some? ==> taken.value < |g.used| && !g.used[taken.value] && taken.value !in g'.tables)
  }

  lemma GainPage(g: Region, g': Region, mapped: set<nat>, n: nat, frame: nat)
    requires PagesOk(g, mapped) && n < REGION_PAGES && n !in mapped
    requires Grown(g, g', Some(frame)) && g'.found == g.found[n := Leaf(frame, Size4KiB, STACK_FLAGS)]
    ensures PagesOk(g', mapped + {n})
  {
    var mapped' := mapped + {n};
    forall m: nat | m in mapped' ensures OwnPage(g', m) {
      if m != n { assert OwnPage(g, m); }
    }
    forall x: nat | x < |g.used| ensures g'.used[x] <==> g'.base[x] || x in g'.tables || Backs(g', mapped', x) {
      if Backs(g, mapped, x) {
        var m :| m in mapped && g.found[m].frame == x;
        assert m in mapped' && g'.found[m].frame == x;
      }
      if x == frame { assert n in mapped' && g'.found[n].frame == x; }
    }
  }

  lemma KeepPages(g: Region, g': Region, mapped: set<nat>)
    requires PagesOk(g, mapped) && Grown(g, g', None) && g'.found == g.found
    ensures PagesOk(g', mapped)
  {
    forall m: nat | m in mapped ensures OwnPage(g', m) {
      assert OwnPage(g, m);
    }
    forall x: nat | x < |g.used| ensures g'.used[x] <==> g'.base[x] || x in g'.tables || Backs(g', mapped, x) {
    }
  }

  lemma LosePage(g: Region, g': Region, mapped: set<nat>, n: nat)
    requires PagesOk(g, mapped) && n in mapped
    requires g' == g.(found := g.found[n := Unmapped], used := g.used[g.found[n].frame := false])
    ensures PagesOk(g', mapped - {n})
  {
    var mapped' := mapped - {n};
    assert OwnPage(g, n);
    forall m: nat | m in mapped' ensures OwnPage(g', m) {
      assert OwnPage(g, m);
    }
    forall x: nat | x < |g.used| ensures g'.used[x] <==> g'.base[x] || x in g'.tables || Backs(g', mapped', x) {
      if Backs(g, mapped, x) && x != g.found[n].frame {
        var m :| m in mapped && g.found[m].frame == x;
        assert m in mapped' && g'.found[m].frame == x;
      }
    }
  }

  // ---------- the region in the page table ----------

  ghost function RegionOf(sp: Spaces, base: seq<bool>): (g: Region)
    requires sp.kernel < |sp.s.mem|
  {
    Region(seq(REGION_PAGES, n requires 0 <= n < REGION_PAGES => Find(sp.s.mem, sp.kernel, 4, PagePath(n))),
           sp.s.alloc.bits,
           (set x: nat | x < |sp.s.mem| && IsTable(sp.s.mem, sp.Roots(), x)),
           base)
  }

  ghost predicate HomeOk(sp: Spaces, base: seq<bool>, mapped: set<nat>): (ok: bool)
    ensures ok ==> Usable(sp)
  {
    Sound(sp) && PagesOk(RegionOf(sp, base), mapped)
  }

  /** The kernel's table and the frame bitmap are inside memory. */
  ghost predicate Usable(sp: Spaces) {
    sp.kernel < |sp.s.mem| && |sp.s.alloc.bits| == |sp.s.mem|
  }

  ghost function MapOne(sp: Spaces, n: nat): (r: (Spaces, MapResult))
    requires Usable(sp) && n < REGION_PAGES
    ensures Usable(r.0)
  {
    var (s', res) := MapTo(sp.s, sp.kernel, PagePath(n), NewPage, STACK_FLAGS);
    (sp.(s := s'), res)
  }

  ghost function UnmapOne(sp: Spaces, n: nat, free: bool): (r: (Spaces, UnmapResult))
    requires Usable(sp) && n < REGION_PAGES
    ensures Usable(r.0)
  {
    var (s', res) := Unmap(sp.s, sp.kernel, PagePath(n), Size4KiB, free);
    (sp.(s := s'), res)
  }

  lemma MapOneCorrect(sp: Spaces, base: seq<bool>, mapped: set<nat>, n: nat)
    requires HomeOk(sp, base, mapped) && n < REGION_PAGES && n !in mapped
    ensures var (sp', res) := MapOne(sp, n);
            if res.Mapped? then HomeOk(sp', base, mapped + {n})
            else res.NoFrame? && HomeOk(sp', base, mapped) && AllUsed(sp'.s.alloc.bits)
  {
    MapSound(sp, MapPage(sp.kernel, PageAddress(n), NewPage, STACK_FLAGS));
    var (sp', res) := MapOne(sp, n);
    var g, g' := RegionOf(sp, base), RegionOf(sp', base);
    MapOneFound(sp, base, n);
    if res.Mapped? {
      GainPage(g, g', mapped, n, res.frame);
    } else {
      KeepPages(g, g', mapped);
    }
  }

  lemma MapOneFound(sp: Spaces, base: seq<bool>, n: nat)
    requires Sound(sp) && n < REGION_PAGES && Find(sp.s.mem, sp.kernel, 4, PagePath(n)).Unmapped?
    ensures var (sp', res) := MapOne(sp, n);
            var g, g' := RegionOf(sp, base), RegionOf(sp', base);
            && (res.Mapped? || res.NoFrame?)
            && (res.NoFrame? ==> AllUsed(sp'.s.alloc.bits))
            && Grown(g, g', if res.Mapped? then Some(res.frame) else None)
            && g'.found == if res.Mapped? then g.found[n := Leaf(res.frame, Size4KiB, STACK_FLAGS)] else g.found
  {
    hide Find, WellFormed, MapFrom, PathOf;
    var p := PagePath(n);
    assert p[..0] == [];
    MapFromCorrect(sp.s, sp.Roots(), sp.kernel, sp.kernel, 4, p, NewPage, STACK_FLAGS);
    var (sp', res) := MapOne(sp, n);
    assert STACK_FLAGS + {Present} == STACK_FLAGS;
    var g, g' := RegionOf(sp, base), RegionOf(sp', base);
    forall m: nat | m < REGION_PAGES && m != n ensures g'.found[m] == g.found[m] {
      PathsDiffer(m, n);
    }
  }

  lemma UnmapOneFound(sp: Spaces, base: seq<bool>, n: nat)
    requires Sound(sp) && n < REGION_PAGES
    requires var found := Find(sp.s.mem, sp.kernel, 4, PagePath(n));
             found.Leaf? && found.size == Size4KiB && MayFree(sp.s, sp.Roots(), found.frame)
    ensures var (sp', res) := UnmapOne(sp, n, true);
            var g := RegionOf(sp, base);
            && Sound(sp') && res == Removed(g.found[n].frame)
            && RegionOf(sp', base) == g.(found := g.found[n := Unmapped], used := g.used[g.found[n].frame := false])
  {
    hide Find, Walk, TablesSound, NoAlias, TopShared, Mapping.Unmap, PathOf;
    UnmapSound(sp, UnmapPage(sp.kernel, PageAddress(n), Size4KiB, true));
    UnmapCorrect(sp.s, sp.Roots(), sp.kernel, PagePath(n), Size4KiB, true);
    var (sp', res) := UnmapOne(sp, n, true);
    var g, g' := RegionOf(sp, base), RegionOf(sp', base);
    forall m: nat | m < REGION_PAGES && m != n ensures g'.found[m] == g.found[m] {
      PathsDiffer(m, n);
      var p, q := PagePath(n), PagePath(m);
      assert p[..4] == p && q[..4] == q;
    }
    assert g'.found == g.found[n := Unmapped];
    forall x: nat ensures x in g'.tables <==> x in g.tables {
      SameIsTable(sp.s.mem, sp'.s.mem, sp.Roots(), x);
    }
  }

  lemma UnmapOneCorrect(sp: Spaces, base: seq<bool>, mapped: set<nat>, n: nat)
    requires HomeOk(sp, base, mapped) && n in mapped
    ensures var (sp', res) := UnmapOne(sp, n, true);
            && res == Removed(RegionOf(sp, base).found[n].frame)
            && HomeOk(sp', base, mapped - {n})
            && sp'.s.alloc.bits == sp.s.alloc.bits[res.frame := false]
  {
    hide Find, Walk, WellFormed, UnmapOne, PathOf;
    var g := RegionOf(sp, base);
    assert OwnPage(g, n);
    assert !IsTable(sp.s.mem, sp.Roots(), g.found[n].frame) by { assert g.found[n].frame !in g.tables; }
    UnmapOneFound(sp, base, n);
    LosePage(g, RegionOf(UnmapOne(sp, n, true).0, base), mapped, n);
  }

  // ---------- allocating and freeing stacks ----------

  datatype Stacks = Stacks(sp: Spaces, slots: Alloc, live: set<nat>)

  ghost function StackPages(live: set<nat>): (pages: set<nat>)
    ensures forall n :: n in pages <==> 0 <= n < REGION_PAGES && n / STACK_PAGES in live && n % STACK_PAGES != 0
  {
    set n: nat | n < REGION_PAGES && n / STACK_PAGES in live && n % STACK_PAGES != 0
  }

  ghost predicate StacksOk(k: Stacks, base: seq<bool>) {
    HomeOk(k.sp, base, StackPages(k.live)) && SlotsOk(k.slots, k.live)
  }

  /** What `allocate` comes to; all but the first two are panics of the source. */
  datatype StackResult = Got(slot: nat) | OutOfStacks | MapFailed(error: MapResult) | GuardWasMapped

  /** The physically mapped pages of a slot, all but its first. */
  function SlotPages(slot: nat): (pages: seq<nat>)
    requires slot < MAX_STACKS
    ensures |pages| == STACK_PAGES - 1
    ensures forall k :: 0 <= k < |pages| ==> pages[k] == STACK_PAGES * slot + 1 + k
  {
    seq(STACK_PAGES - 1, k requires 0 <= k => STACK_PAGES * slot + 1 + k)
  }

  predicate InRegion(pages: seq<nat>) {
    forall k :: 0 <= k < |pages| ==> pages[k] < REGION_PAGES
  }

  /** `allocate_and_map_pages`: one page after another, up to the first error. */
  ghost function MapPages(sp: Spaces, pages: seq<nat>): (r: (Spaces, Option<MapResult>))
    requires Usable(sp) && InRegion(pages)
    ensures Usable(r.0)
    decreases |pages|
  {
    if pages == [] then (sp, None) else
    var (sp', res) := MapOne(sp, pages[0]);
    if res.Mapped? then MapPages(sp', pages[1..]) else (sp', Some(res))
  }

  ghost function UnmapPages(sp: Spaces, pages: seq<nat>): (r: (Spaces, bool))
    requires Usable(sp) && InRegion(pages)
    ensures Usable(r.0)
    decreases |pages|
  {
    if pages == [] then (sp, true) else
    var (sp', res) := UnmapOne(sp, pages[0], true);
    if res.Removed? then UnmapPages(sp', pages[1..]) else (sp', false)
  }

  ghost function AllocateStack(k: Stacks): (r: (Stacks, StackResult))
    requires Usable(k.sp) && |k.slots.bits| == MAX_STACKS
  {
    var (slots, slot) := Allocate(k.slots, 1);
    if slot.None? then (k.(slots := slots), OutOfStacks) else
    var (sp1, guard) := UnmapOne(k.sp, STACK_PAGES * slot.value, false);
    if !guard.NotMapped? then (k.(sp := sp1, slots := slots), GuardWasMapped) else
    var (sp2, error) := MapPages(sp1, SlotPages(slot.value));
    if error.Some? then (k.(sp := sp2, slots := slots), MapFailed(error.value))
    else (Stacks(sp2, slots, k.live + {slot.value}), Got(slot.value))
  }

  ghost function FreeStack(k: Stacks, slot: nat): (r: (Stacks, bool))
    requires Usable(k.sp) && slot < MAX_STACKS
  {
    var (sp, ok) := UnmapPages(k.sp, SlotPages(slot));
    (Stacks(sp, Free(k.slots, slot, 1), k.live - {slot}), ok)
  }

  ghost function Elements(s: seq<nat>): (e: set<nat>) {
    set n | n in s
  }

  lemma HeadAndRest(s: seq<nat>, mapped: set<nat>)
    requires s != [] && NoRepeats(s)
    ensures NoRepeats(s[1..]) && s[0] !in Elements(s[1..])
    ensures mapped + Elements(s) == mapped + {s[0]} + Elements(s[1..])
    ensures mapped - Elements(s) == mapped - {s[0]} - Elements(s[1..])
  {
    assert s == [s[0]] + s[1..];
  }

  /** A slot's pages in terms of the set of live slots. */
  lemma WholeSlot(live: set<nat>, slot: nat)
    requires slot < MAX_STACKS
    ensures InRegion(SlotPages(slot)) && NoRepeats(SlotPages(slot)) && STACK_PAGES * slot !in StackPages(live)
    ensures slot !in live ==> StackPages(live) !! Elements(SlotPages(slot))
    ensures slot !in live ==> StackPages(live + {slot}) == StackPages(live) + Elements(SlotPages(slot))
    ensures slot in live ==> Elements(SlotPages(slot)) <= StackPages(live)
    ensures slot in live ==> StackPages(live - {slot}) == StackPages(live) - Elements(SlotPages(slot))
  {
    forall n: nat ensures n in Elements(SlotPages(slot)) <==> n < REGION_PAGES && n / STACK_PAGES == slot && n % STACK_PAGES != 0 {
      if n / STACK_PAGES == slot && n % STACK_PAGES != 0 {
        assert SlotPages(slot)[n - STACK_PAGES * slot - 1] == n;
      }
    }
  }

  lemma {:induction false} MapPagesCorrect(sp: Spaces, base: seq<bool>, mapped: set<nat>, pages: seq<nat>)
    requires HomeOk(sp, base, mapped) && InRegion(pages) && NoRepeats(pages) && mapped !! Elements(pages)
    ensures var (sp', error) := MapPages(sp, pages);
            if error.None? then HomeOk(sp', base, mapped + Elements(pages))
            else error == Some(NoFrame) && AllUsed(sp'.s.alloc.bits)
    decreases |pages|
  {
    hide HomeOk, MapOne, AllUsed;
    if pages == [] {
      assert mapped + Elements(pages) == mapped;
    } else {
      HeadAndRest(pages, mapped);
      assert pages[0] in Elements(pages);
      MapOneCorrect(sp, base, mapped, pages[0]);
      var (sp', res) := MapOne(sp, pages[0]);
      if res.Mapped? {
        MapPagesCorrect(sp', base, mapped + {pages[0]}, pages[1..]);
      }
    }
  }

  lemma {:induction false} UnmapPagesCorrect(sp: Spaces, base: seq<bool>, mapped: set<nat>, pages: seq<nat>)
    requires HomeOk(sp, base, mapped) && InRegion(pages) && NoRepeats(pages) && Elements(pages) <= mapped
    ensures var (sp', ok) := UnmapPages(sp, pages);
            ok && HomeOk(sp', base, mapped - Elements(pages))
    decreases |pages|
  {
    hide HomeOk, UnmapOne;
    if pages == [] {
      assert mapped - Elements(pages) == mapped;
    } else {
      HeadAndRest(pages, mapped);
      assert pages[0] in Elements(pages);
      UnmapOneCorrect(sp, base, mapped, pages[0]);
      UnmapPagesCorrect(UnmapOne(sp, pages[0], true).0, base, mapped - {pages[0]}, pages[1..]);
    }
  }

  lemma GuardStaysUnmapped(sp: Spaces, base: seq<bool>, pages: set<nat>, slot: nat)
    requires HomeOk(sp, base, pages) && slot < MAX_STACKS && STACK_PAGES * slot !in pages
    ensures UnmapOne(sp, STACK_PAGES * slot, false) == (sp, NotMapped)
  {
    var n := STACK_PAGES * slot;
    assert RegionOf(sp, base).found[n].Unmapped?;
    UnmapCorrect(sp.s, sp.Roots(), sp.kernel, PagePath(n), Size4KiB, false);
  }

  /** The bitmap of slots and the set of live ones. */
  ghost predicate SlotsOk(slots: Alloc, live: set<nat>) {
    && |slots.bits| == MAX_STACKS && HintOk(slots)
    && forall i :: i in live <==> 0 <= i < MAX_STACKS && slots.bits[i]
  }

  lemma TakeSlot(slots: Alloc, live: set<nat>)
    requires SlotsOk(slots, live)
    ensures var (slots', slot) := Allocate(slots, 1);
            if slot.Some? then
              && slot.value < MAX_STACKS && slot.value !in live && SlotsOk(slots', live + {slot.value})
              && forall i :: 0 <= i < slot.value ==> i in live
            else SlotsOk(slots', live) && forall i :: 0 <= i < MAX_STACKS ==> i in live
  {
    OneFrame(slots);
    var (slots', slot) := Allocate(slots, 1);
    if slot.Some? {
      forall i | 0 <= i < slot.value ensures i in live {
        assert !RunFree(slots.bits, i, 1);
      }
    }
  }

  /** Allocating takes the lowest free slot and maps it; the panics on a mapped guard page and on a page already
      mapped cannot happen, so the only failures are having no slot and having no frame. */
  lemma AllocateStackCorrect(k: Stacks, base: seq<bool>)
    requires StacksOk(k, base)
    ensures var (k', res) := AllocateStack(k);
            match res
            case Got(slot) =>
              && StacksOk(k', base) && slot !in k.live && k'.live == k.live + {slot}
              && forall i :: 0 <= i < slot ==> i in k.live
            case OutOfStacks => StacksOk(k', base) && k'.live == k.live && forall i :: 0 <= i < MAX_STACKS ==> i in k.live
            case MapFailed(error) => error == NoFrame && AllUsed(k'.sp.s.alloc.bits)
            case GuardWasMapped => false
  {
    hide HomeOk, MapOne, UnmapOne;
    TakeSlot(k.slots, k.live);
    var slot := Allocate(k.slots, 1).1;
    if slot.Some? {
      var i, pages := slot.value, StackPages(k.live);
      WholeSlot(k.live, i);
      GuardStaysUnmapped(k.sp, base, pages, i);
      MapPagesCorrect(k.sp, base, pages, SlotPages(i));
    }
  }

  // ---------- when there are enough frames ----------

  predicate LowestFree(live: set<nat>, slot: nat) {
    slot < MAX_STACKS && slot !in live && forall i :: 0 <= i < slot ==> i in live
  }

  /** The frames a stack takes: one for each page but the guard, and one for each table missing on the way to them. */
  function StackFrames(sp: Spaces, slot: nat): (n: nat)
    requires slot < MAX_STACKS
  {
    STACK_PAGES - 1 + MissingTables(sp.s.mem, sp.kernel, PagePath(STACK_PAGES * slot))
  }

  /** The pages of a slot are reached through the same tables. */
  lemma SlotPrefix(slot: nat, n: nat)
    requires slot < MAX_STACKS && n / STACK_PAGES == slot
    ensures n < REGION_PAGES && PagePath(n)[..3] == PagePath(STACK_PAGES * slot)[..3]
  {
    hide PathOf;
    BlockOf(n);
    BlockOf(STACK_PAGES * slot);
    SamePage(PageAddress(n), PageAddress(STACK_PAGES * slot), Size2MiB);
  }

  lemma BlockOf(n: nat)
    requires n < REGION_PAGES
    ensures PageAddress(n) / Bytes(Size2MiB) == REGION_START / 0x20_0000 + n / STACK_PAGES / 32
  {
    var m, r := n / 512, n % 512;
    assert PageAddress(n) == 0x20_0000 * (REGION_START / 0x20_0000 + m) + r * 0x1000;
  }

  lemma MapOneWhen(sp: Spaces, base: seq<bool>, mapped: set<nat>, n: nat)
    requires HomeOk(sp, base, mapped) && n < REGION_PAGES && n !in mapped
    ensures var (sp', res) := MapOne(sp, n);
            var need := 1 + MissingTables(sp.s.mem, sp.kernel, PagePath(n));
            && sp'.kernel == sp.kernel
            && (res.Mapped? <==> FreeCount(sp.s.alloc.bits) >= need)
            && (res.Mapped? ==>
                  && FreeCount(sp'.s.alloc.bits) == FreeCount(sp.s.alloc.bits) - need
                  && Walk(sp'.s.mem, sp.kernel, PagePath(n)[..3]).Some?)
            && forall q | Walk(sp.s.mem, sp.kernel, q).Some? :: Walk(sp'.s.mem, sp.kernel, q).Some?
  {
    hide FreeCount, Find, MapFrom, PathOf, TablesSound, NoAlias, TopShared, Walk, MissingTables;
    var p := PagePath(n);
    assert p[..0] == [];
    assert RegionOf(sp, base).found[n].Unmapped?;
    WalkNowhere(sp.s.mem, sp.kernel);
    HalfIsIndex(PageAddress(n));
    MapsWhen(sp.s, sp.Roots(), sp.kernel, p, NewPage, STACK_FLAGS);
    MapFromCorrect(sp.s, sp.Roots(), sp.kernel, sp.kernel, 4, p, NewPage, STACK_FLAGS);
    var (sp', res) := MapOne(sp, n);
    if res.Mapped? {
      assert Find(sp'.s.mem, sp.kernel, 4, p).Leaf?;
      LeafStop(sp'.s, sp.Roots(), sp.kernel, p);
    }
  }

  lemma {:induction false} MapRestWhen(sp: Spaces, base: seq<bool>, mapped: set<nat>, pages: seq<nat>, q: seq<nat>)
    requires HomeOk(sp, base, mapped) && InRegion(pages) && NoRepeats(pages) && mapped !! Elements(pages)
    requires Walk(sp.s.mem, sp.kernel, q).Some? && forall i :: 0 <= i < |pages| ==> PagePath(pages[i])[..3] == q
    ensures var (sp', error) := MapPages(sp, pages);
            && (error.None? <==> FreeCount(sp.s.alloc.bits) >= |pages|)
            && (error.None? ==> FreeCount(sp'.s.alloc.bits) == FreeCount(sp.s.alloc.bits) - |pages|)
    decreases |pages|
  {
    hide HomeOk, MapOne, FreeCount, Walk, PagePath;
    if pages != [] {
      HeadAndRest(pages, mapped);
      assert pages[0] in Elements(pages);
      MapOneCorrect(sp, base, mapped, pages[0]);
      MapOneWhen(sp, base, mapped, pages[0]);
      AllAbove(sp.s.mem, sp.kernel, PagePath(pages[0]), 3);
      var (sp', res) := MapOne(sp, pages[0]);
      if res.Mapped? {
        MapRestWhen(sp', base, mapped + {pages[0]}, pages[1..], q);
      }
    }
  }

  lemma SlotMapsWhen(sp: Spaces, base: seq<bool>, mapped: set<nat>, slot: nat)
    requires HomeOk(sp, base, mapped) && slot < MAX_STACKS && mapped !! Elements(SlotPages(slot))
    ensures var (sp', error) := MapPages(sp, SlotPages(slot));
            && (error.None? <==> FreeCount(sp.s.alloc.bits) >= StackFrames(sp, slot))
            && (error.None? ==> FreeCount(sp'.s.alloc.bits) == FreeCount(sp.s.alloc.bits) - StackFrames(sp, slot))
  {
    hide HomeOk, MapOne, FreeCount, Walk, PagePath;
    var pages := SlotPages(slot);
    forall i | 0 <= i < |pages| ensures pages[i] < REGION_PAGES && PagePath(pages[i])[..3] == PagePath(STACK_PAGES * slot)[..3] {
      SlotPrefix(slot, pages[i]);
    }
    HeadAndRest(pages, mapped);
    assert pages[0] in Elements(pages);
    SameMissing(sp.s.mem, sp.kernel, PagePath(pages[0]), PagePath(STACK_PAGES * slot));
    MapOneCorrect(sp, base, mapped, pages[0]);
    MapOneWhen(sp, base, mapped, pages[0]);
    var (sp', res) := MapOne(sp, pages[0]);
    if res.Mapped? {
      MapRestWhen(sp', base, mapped + {pages[0]}, pages[1..], PagePath(STACK_PAGES * slot)[..3]);
    }
  }

  lemma SameMissing(mem: Memory, root: nat, p: Path, q: Path)
    requires p[..3] == q[..3]
    ensures MissingTables(mem, root, p) == MissingTables(mem, root, q)
  {
    hide Walk;
    assert p[..1] == p[..3][..1] == q[..3][..1] == q[..1];
    assert p[..2] == p[..3][..2] == q[..3][..2] == q[..2];
  }

  /** A stack is allocated exactly when a slot is free and there are as many free frames as a stack there takes, and it
      takes that many. */
  lemma AllocatesWhen(k: Stacks, base: seq<bool>)
    requires StacksOk(k, base)
    ensures var (k', res) := AllocateStack(k);
            && (res.Got? <==>
                  exists slot :: LowestFree(k.live, slot) && FreeCount(k.sp.s.alloc.bits) >= StackFrames(k.sp, slot))
            && (res.Got? ==>
                  && LowestFree(k.live, res.slot)
                  && FreeCount(k'.sp.s.alloc.bits) == FreeCount(k.sp.s.alloc.bits) - StackFrames(k.sp, res.slot))
  {
    hide HomeOk, MapOne, UnmapOne, StackFrames, FreeCount;
    TakeSlot(k.slots, k.live);
    var slot := Allocate(k.slots, 1).1;
    if slot.Some? {
      var i, pages := slot.value, StackPages(k.live);
      assert LowestFree(k.live, i);
      WholeSlot(k.live, i);
      GuardStaysUnmapped(k.sp, base, pages, i);
      MapPagesCorrect(k.sp, base, pages, SlotPages(i));
      SlotMapsWhen(k.sp, base, pages, i);
    }
  }

  /** Freeing a live stack never panics and leaves its slot wholly unmapped. */
  lemma FreeStackCorrect(k: Stacks, base: seq<bool>, slot: nat)
    requires StacksOk(k, base) && slot in k.live
    ensures var (k', ok) := FreeStack(k, slot);
            ok && StacksOk(k', base) && k'.live == k.live - {slot}
  {
    hide HomeOk, UnmapOne;
    FreeKeepsHint(k.slots, slot, 1);
    var pages := StackPages(k.live);
    WholeSlot(k.live, slot);
    UnmapPagesCorrect(k.sp, base, pages, SlotPages(slot));
  }

  /** A new allocator, over a region nothing is mapped in. */
  lemma NoStacksYet(sp: Spaces, slots: Alloc)
    requires Sound(sp) && |slots.bits| == MAX_STACKS && slots.hint.None?
    requires forall i :: 0 <= i < MAX_STACKS ==> !slots.bits[i]
    requires forall n: nat :: n < REGION_PAGES ==> Find(sp.s.mem, sp.kernel, 4, PagePath(n)).Unmapped?
    ensures StacksOk(Stacks(sp, slots, {}), sp.s.alloc.bits)
  {
    assert StackPages({}) == {};
    var g := RegionOf(sp, sp.s.alloc.bits);
    forall x | x in g.tables ensures g.used[x] {
      TableIsUsed(sp.s.mem, sp.s.alloc.bits, sp.Roots(), x);
    }
  }

  // ---------- what it means for stacks to be in order ----------

  /** Every address of a guard page, live or not, translates to nothing in any address space. */
  lemma GuardsTranslateToNothing(k: Stacks, base: seq<bool>, r: nat, a: nat)
    requires StacksOk(k, base) && r in k.sp.Roots() && IsKernelGuardPage(a)
    ensures r < |k.sp.s.mem| && Translate(k.sp.s.mem, r, a) == TranslatesToNothing
  {
    var n := GuardPageNumber(a);
    RegionTranslates(k.sp, base, n, r, a);
    GuardUnmapped(k.sp, base, StackPages(k.live), n);
  }

  lemma GuardPageNumber(a: nat) returns (n: nat)
    requires IsKernelGuardPage(a)
    ensures n < REGION_PAGES && n % STACK_PAGES == 0 && InPage(a, PageAddress(n), Size4KiB)
  {
    n := (a - REGION_START) / PAGE_BYTES;
  }

  lemma GuardUnmapped(sp: Spaces, base: seq<bool>, mapped: set<nat>, n: nat)
    requires HomeOk(sp, base, mapped) && n < REGION_PAGES && n !in mapped
    ensures RegionOf(sp, base).found[n].Unmapped?
  {
    hide Find, Walk, WellFormed, PathOf, Sound;
  }

  /** The translation of an address of the region, from any address space, is that of its page in the kernel's. */
  lemma RegionTranslates(sp: Spaces, base: seq<bool>, n: nat, r: nat, a: nat)
    requires Sound(sp) && n < REGION_PAGES && r in sp.Roots() && InPage(a, PageAddress(n), Size4KiB)
    ensures Canonical(a) && Translate(sp.s.mem, r, a) == Outcome(RegionOf(sp, base).found[n], a)
  {
    assert Canonical(a) && TopHalf(a);
    SoundAgrees(sp);
    InPageIsPrefix(a, PageAddress(n), Size4KiB);
    var p, q := PathOf(a), PagePath(n);
    assert p[..4] == p && q[..4] == q;
  }

  /** Two addresses in usable pages of live stacks translate to different frames unless they are in the same page. */
  lemma StacksAreApart(k: Stacks, base: seq<bool>, n: nat, m: nat, r: nat, a: nat, b: nat)
    requires StacksOk(k, base) && r in k.sp.Roots()
    requires n in StackPages(k.live) && m in StackPages(k.live) && n != m
    requires InPage(a, PageAddress(n), Size4KiB) && InPage(b, PageAddress(m), Size4KiB)
    ensures r < |k.sp.s.mem|
    ensures Translate(k.sp.s.mem, r, a).TranslatesTo? && Translate(k.sp.s.mem, r, b).TranslatesTo?
    ensures Translate(k.sp.s.mem, r, a).frame != Translate(k.sp.s.mem, r, b).frame
  {
    RegionTranslates(k.sp, base, n, r, a);
    RegionTranslates(k.sp, base, m, r, b);
    assert OwnPage(RegionOf(k.sp, base), n) && OwnPage(RegionOf(k.sp, base), m);
  }

  /** Once every stack is freed, the frames in use are those of others and the tables. */
  lemma AllFramesReturned(k: Stacks, base: seq<bool>, x: nat)
    requires StacksOk(k, base) && k.live == {} && x < |base|
    ensures x < |k.sp.s.alloc.bits|
    ensures k.sp.s.alloc.bits[x] <==> base[x] || IsTable(k.sp.s.mem, k.sp.Roots(), x)
  {
    assert StackPages({}) == {};
    var g := RegionOf(k.sp, base);
    assert g.used[x] <==> g.base[x] || x in g.tables || Backs(g, {}, x);
  }
}

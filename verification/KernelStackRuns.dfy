/**
 Runs in which kernel stacks come and go while the page tables, the kernel's and every clone's, are used for
 everything else.
 */
module KernelStackRuns {
  import opened Common
  import opened PageTable
  import opened Mapping
  import opened VirtualAddress
  import opened AddressSpaces
  import opened AddressSpaceRuns
  import opened FrameCounts
  import opened KernelStacks

  datatype StackOp = NewStack | DropStack(slot: nat)

  /** One operation on the stacks; `None` when the kernel panics, which for an allocation means no slot or no frame was
      left. */
  ghost function StackStep(k: Stacks, op: StackOp): (r: Option<Stacks>)
    requires Usable(k.sp) && |k.slots.bits| == MAX_STACKS
  {
    match op
    case NewStack =>
      var (k', res) := AllocateStack(k);
      if res.Got? then Some(k') else None
    case DropStack(slot) =>
      if slot !in k.live || slot >= MAX_STACKS then Some(k) else
      var (k', ok) := FreeStack(k, slot);
      if ok then Some(k') else None
  }

  lemma StackStepKeeps(k: Stacks, op: StackOp, base: seq<bool>)
    requires StacksOk(k, base)
    ensures StackStep(k, op).Some? ==> StacksOk(StackStep(k, op).value, base)
    ensures op.DropStack? ==> StackStep(k, op).Some?
  {
    hide HomeOk, AllocateStack, FreeStack;
    match op
    case NewStack => AllocateStackCorrect(k, base);
    case DropStack(slot) => if slot in k.live { FreeStackCorrect(k, base, slot); }
  }

  // ---------- the rest of the kernel ----------

  /** The stacks, and the frames in use that are neither tables nor theirs. */
  datatype Home = Home(k: Stacks, base: seq<bool>)

  /** The operation is on a page outside the stack region, and a bit it clears is that of a frame of the caller's own. */
  ghost predicate Beside(h: Home, op: Op)
    requires Sound(h.k.sp) && Legal(h.k.sp, op)
  {
    match op
    case NewClone => true
    case MapPage(_, page, _, _) => forall n: nat | n < REGION_PAGES :: page != PageAddress(n)
    case UnmapPage(root, page, size, free) =>
      && (forall n: nat | n < REGION_PAGES :: !InPage(PageAddress(n), page, size))
      && var found := Find(h.k.sp.s.mem, root, 4, PathOf(page));
         (free && found.Leaf? && found.size == size ==>
            FreedBit(found.frame, size) < |h.base| && h.base[FreedBit(found.frame, size)])
    case ChangeFlags(root, page, _) =>
      var was := Translate(h.k.sp.s.mem, root, page);
      was.TranslatesTo? ==>
        forall n: nat | n < REGION_PAGES :: PageAddress(n) / Bytes(was.size) != page / Bytes(was.size)
  }

  /** The caller's frames after the operation: one more when it maps a new page, one fewer when it gives one back. */
  ghost function BaseAfter(h: Home, op: Op): (base: seq<bool>)
    requires Sound(h.k.sp) && Legal(h.k.sp, op)
  {
    match op
    case MapPage(root, page, target, flags) =>
      var res := MapTo(h.k.sp.s, root, PathOf(page), target, flags).1;
      if res.Mapped? && target.NewPage? && res.frame < |h.base| then h.base[res.frame := true] else h.base
    case UnmapPage(root, page, size, free) =>
      var res := Unmap(h.k.sp.s, root, PathOf(page), size, free).1;
      if free && res.Removed? && FreedBit(res.frame, size) < |h.base| then h.base[FreedBit(res.frame, size) := false]
      else h.base
    case _ => h.base
  }

  ghost function After(h: Home, op: Op): (h': Home)
    requires Sound(h.k.sp) && Legal(h.k.sp, op)
  {
    Home(h.k.(sp := Step(h.k.sp, op)), BaseAfter(h, op))
  }

  // ---------- what the stacks see of it ----------

  lemma OthersTake(g: Region, g': Region, mapped: set<nat>, frame: nat)
    requires PagesOk(g, mapped) && g'.found == g.found && frame < |g.base|
    requires Grown(g, g'.(base := g.base), Some(frame)) && g'.base == g.base[frame := true]
    ensures PagesOk(g', mapped)
  {
    forall m: nat | m in mapped ensures OwnPage(g', m) {
      assert OwnPage(g, m);
    }
    forall x: nat | x < |g.used| ensures g'.used[x] <==> g'.base[x] || x in g'.tables || Backs(g', mapped, x) {
      assert Backs(g, mapped, x) == Backs(g', mapped, x);
    }
  }

  lemma OthersGiveBack(g: Region, g': Region, mapped: set<nat>, bit: nat)
    requires PagesOk(g, mapped) && 0 < bit < |g.used| && g.base[bit] && bit !in g.tables
    requires g' == g.(used := g.used[bit := false], base := g.base[bit := false])
    ensures PagesOk(g', mapped)
  {
    forall m: nat | m in mapped ensures OwnPage(g', m) {
      assert OwnPage(g, m);
    }
    forall x: nat | x < |g.used| ensures g'.used[x] <==> g'.base[x] || x in g'.tables || Backs(g', mapped, x) {
      assert Backs(g, mapped, x) == Backs(g', mapped, x);
    }
  }

  lemma OutsidePath(n: nat, page: nat)
    requires n < REGION_PAGES && IsPage(page, Size4KiB) && page != PageAddress(n)
    ensures PagePath(n) != PathOf(page)
  {
    var p, q := PagePath(n), PathOf(page);
    assert p[..4] == p && q[..4] == q;
    SamePage(PageAddress(n), page, Size4KiB);
  }

  lemma MapBeside(h: Home, op: Op)
    requires StacksOk(h.k, h.base) && Legal(h.k.sp, op) && op.MapPage? && Beside(h, op)
    ensures StacksOk(After(h, op).k, After(h, op).base)
  {
    hide Find, TablesSound, NoAlias, TopShared, MapFrom, PathOf, SlotsOk;
    var sp, sp' := h.k.sp, Step(h.k.sp, op);
    var p, mapped := PathOf(op.page), StackPages(h.k.live);
    MapSound(sp, op);
    HalfIsIndex(op.page);
    assert p[..0] == [];
    MapFromCorrect(sp.s, sp.Roots(), op.root, op.root, 4, p, op.target, op.flags);
    var res := MapTo(sp.s, op.root, p, op.target, op.flags).1;
    var g, g' := RegionOf(sp, h.base), RegionOf(sp', h.base);
    forall n: nat | n < REGION_PAGES ensures g'.found[n] == g.found[n] {
      OutsidePath(n, op.page);
    }
    assert g'.found == g.found;
    if res.Mapped? && op.target.NewPage? {
      OthersTake(g, RegionOf(sp', BaseAfter(h, op)), mapped, res.frame);
    } else {
      KeepPages(g, g', mapped);
    }
  }

  lemma UnmapBeside(h: Home, op: Op)
    requires StacksOk(h.k, h.base) && Legal(h.k.sp, op) && op.UnmapPage? && Beside(h, op)
    ensures StacksOk(After(h, op).k, After(h, op).base)
  {
    hide Find, Walk, TablesSound, NoAlias, TopShared, Mapping.Unmap, PathOf, SlotsOk;
    var sp, sp' := h.k.sp, Step(h.k.sp, op);
    var p, mapped := PathOf(op.page), StackPages(h.k.live);
    UnmapSound(sp, op);
    UnmapCorrect(sp.s, sp.Roots(), op.root, p, op.size, op.free);
    FoundIsSound(sp.s, sp.Roots(), op.root, p);
    var g, g' := RegionOf(sp, h.base), RegionOf(sp', h.base);
    forall n: nat | n < REGION_PAGES ensures g'.found[n] == g.found[n] {
      InPageIsPrefix(PageAddress(n), op.page, op.size);
    }
    assert g'.found == g.found;
    SameRegionTables(sp, sp', h.base);
    var (s', res) := Unmap(sp.s, op.root, p, op.size, op.free);
    if op.free && res.Removed? {
      OthersGiveBack(g, RegionOf(sp', BaseAfter(h, op)), mapped, FreedBit(res.frame, op.size));
    } else {
      assert g' == g;
    }
  }

  lemma SameRegionTables(sp: Spaces, sp': Spaces, base: seq<bool>)
    requires sp.kernel == sp'.kernel < |sp.s.mem| == |sp'.s.mem| && sp.Roots() == sp'.Roots()
    requires forall r, q :: r in sp.Roots() ==> Walk(sp'.s.mem, r, q) == Walk(sp.s.mem, r, q)
    ensures RegionOf(sp', base).tables == RegionOf(sp, base).tables
  {
    hide Walk;
    forall x: nat ensures IsTable(sp'.s.mem, sp.Roots(), x) <==> IsTable(sp.s.mem, sp.Roots(), x) {
      SameIsTable(sp.s.mem, sp'.s.mem, sp.Roots(), x);
    }
  }

  lemma FlagsBeside(h: Home, op: Op)
    requires StacksOk(h.k, h.base) && Legal(h.k.sp, op) && op.ChangeFlags? && Beside(h, op)
    ensures StacksOk(After(h, op).k, After(h, op).base)
  {
    hide Find, Walk, TablesSound, NoAlias, TopShared, SetPageFlags, PathOf, SlotsOk;
    var sp, sp' := h.k.sp, Step(h.k.sp, op);
    var p := PathOf(op.page);
    SetFlagsSound(sp, op);
    SetFlagsCorrect(sp.s, sp.Roots(), op.root, p, op.flags);
    FoundIsSound(sp.s, sp.Roots(), op.root, p);
    var g, g' := RegionOf(sp, h.base), RegionOf(sp', h.base);
    var found := Find(sp.s.mem, op.root, 4, p);
    forall n: nat | n < REGION_PAGES ensures g'.found[n] == g.found[n] {
      if found.Leaf? { SamePage(PageAddress(n), op.page, found.size); }
    }
    assert g'.found == g.found;
    SameRegionTables(sp, sp', h.base);
    assert g' == g;
  }

  /** The tables after a clone are those of before and the clone itself. */
  lemma CloneTables(s: State, roots: set<nat>, kernel: nat, x: nat)
    requires Ready(s, roots) && kernel in roots && LowerEmpty(s.mem, kernel)
    requires CloneTable(s, kernel).1.Some?
    ensures var (s', f) := CloneTable(s, kernel);
            IsTable(s'.mem, roots + {f.value}, x) <==> IsTable(s.mem, roots, x) || x == f.value
  {
    CloneCorrect(s, roots, kernel);
    var (s', f) := CloneTable(s, kernel);
    OneFrame(s.alloc);
    hide Walk, Find, TablesSound, NoAlias, TopShared;
    forall q ensures Walk(s'.mem, f.value, q) ==
        if q == [] then Some(f.value) else if Shared(q) then Walk(s.mem, kernel, q) else None {
      CloneWalk(s.mem, s.alloc.bits, roots, kernel, f.value, q);
    }
    assert Walk(s'.mem, f.value, []) == Some(f.value);
  }

  /** What a clone takes is one frame, for a table. */
  lemma CloneTakes(s: State, roots: set<nat>, kernel: nat)
    requires Ready(s, roots) && kernel in roots && LowerEmpty(s.mem, kernel)
    ensures var (s', f) := CloneTable(s, kernel);
            && |s'.mem| == |s.mem|
            && (if f.None? then s'.mem == s.mem && s'.alloc.bits == s.alloc.bits
                else f.value < |s.alloc.bits| && !s.alloc.bits[f.value] && s'.alloc.bits == s.alloc.bits[f.value := true])
  {
    OneFrame(s.alloc);
  }

  lemma CloneGrows(sp: Spaces, base: seq<bool>)
    requires Sound(sp)
    ensures var sp' := Step(sp, NewClone); Usable(sp') && Grown(RegionOf(sp, base), RegionOf(sp', base), None)
  {
    hide Find, Walk, TablesSound, NoAlias, TopShared, CloneTable, PathOf;
    CloneTakes(sp.s, sp.Roots(), sp.kernel);
    var (s', f) := CloneTable(sp.s, sp.kernel);
    var sp' := Step(sp, NewClone);
    forall x: nat | IsTable(sp.s.mem, sp.Roots(), x) ensures x < |sp.s.mem| && sp.s.alloc.bits[x] {
      TableIsUsed(sp.s.mem, sp.s.alloc.bits, sp.Roots(), x);
    }
    if f.Some? {
      assert sp'.Roots() == sp.Roots() + {f.value};
      forall x: nat ensures IsTable(sp'.s.mem, sp'.Roots(), x) <==> IsTable(sp.s.mem, sp.Roots(), x) || x == f.value {
        CloneTables(sp.s, sp.Roots(), sp.kernel, x);
      }
    }
    hide IsTable;
  }

  lemma CloneBeside(h: Home)
    requires StacksOk(h.k, h.base)
    ensures StacksOk(After(h, NewClone).k, After(h, NewClone).base)
  {
    hide Find, Walk, WellFormed, CloneTable, PathOf, SlotsOk, PagesOk, Grown, IsTable;
    var sp, sp' := h.k.sp, Step(h.k.sp, NewClone);
    CloneKeepsSound(sp);
    CloneCorrect(sp.s, sp.Roots(), sp.kernel);
    CloneGrows(sp, h.base);
    var g, g' := RegionOf(sp, h.base), RegionOf(sp', h.base);
    forall n: nat | n < REGION_PAGES ensures g'.found[n] == g.found[n] {
      assert sp.kernel in sp.Roots() && sp'.s == CloneTable(sp.s, sp.kernel).0;
      assert Find(sp'.s.mem, sp.kernel, 4, PagePath(n)) == Find(sp.s.mem, sp.kernel, 4, PagePath(n));
    }
    assert g'.found == g.found;
    KeepPages(g, g', StackPages(h.k.live));
  }

  lemma BesideKeeps(h: Home, op: Op)
    requires StacksOk(h.k, h.base) && Legal(h.k.sp, op) && Beside(h, op)
    ensures StacksOk(After(h, op).k, After(h, op).base)
  {
    hide StacksOk, After, Beside, Legal;
    match op
    case MapPage(_, _, _, _) => MapBeside(h, op);
    case UnmapPage(_, _, _, _) => UnmapBeside(h, op);
    case ChangeFlags(_, _, _) => FlagsBeside(h, op);
    case NewClone => CloneBeside(h);
  }

  // ---------- runs ----------

  datatype HomeOp = OnStacks(stackOp: StackOp) | OnSpaces(spaceOp: Op)

  ghost predicate InOrder(h: Home) {
    StacksOk(h.k, h.base)
  }

  ghost predicate MayDo(h: Home, op: HomeOp)
    requires InOrder(h)
  {
    op.OnStacks? || (Legal(h.k.sp, op.spaceOp) && Beside(h, op.spaceOp))
  }

  /** One operation of the kernel's; `None` when it panics. */
  ghost function HomeStep(h: Home, op: HomeOp): (r: Option<Home>)
    requires InOrder(h) && MayDo(h, op)
  {
    match op
    case OnStacks(o) =>
      var k := StackStep(h.k, o);
      if k.None? then None else Some(h.(k := k.value))
    case OnSpaces(o) => if Panics(h.k.sp, o) then None else Some(After(h, o))
  }

  /** A stack is asked for and every slot is taken, or there are fewer free frames than a stack in the lowest free slot
      takes, or a clone is asked for and every frame is in use. */
  ghost predicate HomePanics(h: Home, op: HomeOp)
    requires InOrder(h)
  {
    match op
    case OnStacks(NewStack) =>
      NoStack(h.k, 0)
    case OnSpaces(NewClone) => AllUsed(h.k.sp.s.alloc.bits)
    case _ => false
  }

  /** Every slot is taken, or the free frames are too few for a stack in the lowest free one and `more` besides. */
  ghost predicate NoStack(k: Stacks, more: nat) {
    || (forall i :: 0 <= i < MAX_STACKS ==> i in k.live)
    || exists slot :: LowestFree(k.live, slot) && FreeCount(k.sp.s.alloc.bits) < StackFrames(k.sp, slot) + more
  }

  lemma StackPanicsWhen(k: Stacks, base: seq<bool>)
    requires StacksOk(k, base)
    ensures StackStep(k, NewStack).None? <==> NoStack(k, 0)
    ensures StackStep(k, NewStack).Some? ==>
              var k' := StackStep(k, NewStack).value;
              FreeCount(k'.sp.s.alloc.bits) == 0 <==> NoStack(k, 1)
  {
    hide HomeOk, AllocateStack, StackFrames, FreeCount;
    AllocateStackCorrect(k, base);
    AllocatesWhen(k, base);
    OneLowest(k.live);
  }

  lemma OneLowest(live: set<nat>)
    ensures forall i, j :: LowestFree(live, i) && LowestFree(live, j) ==> i == j
    ensures (forall i :: 0 <= i < MAX_STACKS ==> i in live) <==> forall i :: !LowestFree(live, i)
  {
    if i: nat :| i < MAX_STACKS && i !in live { SomeLowest(live, i); }
  }

  lemma {:induction false} SomeLowest(live: set<nat>, i: nat)
    requires i < MAX_STACKS && i !in live
    ensures exists j :: LowestFree(live, j)
    decreases i
  {
    if j: nat :| j < i && j !in live {
      SomeLowest(live, j);
    } else {
      assert LowestFree(live, i);
    }
  }

  /** The states of a run that no panic has ended.  Steps are defined in states that are in order; that every state is
      one is proved, not asked. */
  ghost predicate IsHomeRun(states: seq<Home>, ops: seq<HomeOp>) {
    && |states| == |ops| + 1
    && InOrder(states[0])
    && forall i :: 0 <= i < |ops| && InOrder(states[i]) ==>
         MayDo(states[i], ops[i]) && HomeStep(states[i], ops[i]) == Some(states[i + 1])
  }

  lemma HomeStepKeeps(h: Home, op: HomeOp)
    requires InOrder(h) && MayDo(h, op)
    ensures HomeStep(h, op).Some? ==> InOrder(HomeStep(h, op).value)
    ensures HomeStep(h, op).None? <==> HomePanics(h, op)
  {
    hide PagesOk, Sound, RegionOf, SlotsOk, StackStep, After, Beside, Legal, Panics, AllUsed;
    match op
    case OnStacks(o) =>
      StackStepKeeps(h.k, o, h.base);
      if o.NewStack? { StackPanicsWhen(h.k, h.base); }
    case OnSpaces(o) =>
      BesideKeeps(h, o);
      PanicsWhen(h.k.sp, o);
  }

  /** What `Task::new` needs: a stack and then a clone of the kernel's table; `None` when it panics. */
  ghost function NewTask(h: Home): (r: Option<Home>)
    requires InOrder(h)
  {
    HomeStepKeeps(h, OnStacks(NewStack));
    var stacked := HomeStep(h, OnStacks(NewStack));
    if stacked.None? then None else HomeStep(stacked.value, OnSpaces(NewClone))
  }

  /** Creating a task panics exactly when there is no slot, or fewer free frames than the stack takes and one for its
      table. */
  lemma NewTaskPanicsWhen(h: Home)
    requires InOrder(h)
    ensures NewTask(h).None? <==> NoStack(h.k, 1)
    ensures NewTask(h).Some? ==> InOrder(NewTask(h).value)
  {
    hide InOrder, AllUsed, AllocateStack, Panics, FreeCount, StackFrames;
    HomeStepKeeps(h, OnStacks(NewStack));
    InOrderOk(h);
    StackPanicsWhen(h.k, h.base);
    var stacked := HomeStep(h, OnStacks(NewStack));
    if stacked.Some? {
      HomeStepKeeps(stacked.value, OnSpaces(NewClone));
      AllUsedIs(stacked.value.k.sp.s.alloc.bits);
    }
  }

  lemma InOrderOk(h: Home)
    requires InOrder(h)
    ensures StacksOk(h.k, h.base)
  {
  }

  lemma AllUsedIs(bits: seq<bool>)
    ensures AllUsed(bits) <==> FreeCount(bits) == 0
  {
    NoneFree(bits);
  }

  /** Over every run of allocations and frees of stacks and of mapping, unmapping, changing flags and cloning elsewhere,
      the stacks stay in order; the next operation panics exactly when it is to allocate a stack for which there is no
      slot or not enough frames, or to clone with no frame left. */
  lemma {:induction false} StackRuns(states: seq<Home>, ops: seq<HomeOp>)
    requires IsHomeRun(states, ops)
    ensures InOrder(states[|ops|])
    ensures forall op | MayDo(states[|ops|], op) :: HomeStep(states[|ops|], op).None? <==> HomePanics(states[|ops|], op)
    decreases |ops|
  {
    hide InOrder, HomeStep, MayDo, HomePanics;
    if ops != [] {
      HomeStepKeeps(states[0], ops[0]);
      StackRuns(states[1..], ops[1..]);
    } else {
      forall op | MayDo(states[0], op) ensures HomeStep(states[0], op).None? <==> HomePanics(states[0], op) {
        HomeStepKeeps(states[0], op);
      }
    }
  }
}

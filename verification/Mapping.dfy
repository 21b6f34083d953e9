/**
 Mapping, unmapping and changing the flags of pages, as functions of physical memory and the frame
 allocator, and what each of them does to every translation of every level 4 table.
 */
module Mapping {
  import opened Common
  import opened BitmapAlloc
  import opened PageTable

  /** Physical memory and the allocator of its frames. */
  datatype State = State(mem: Memory, alloc: Alloc)

  datatype MapTarget = ExistingPage(frame: nat) | NewPage

  datatype MapResult =
    | Mapped(frame: nat)
    | AlreadyMapped(frame: nat, size: PageSize, flags: set<Flag>)
    | NoFrame
    | MapPanic

  /** Frame zero is reserved, which `allocate_pages` asserts of what it returns. */
  ghost predicate Ready(s: State, roots: set<nat>) {
    && WellFormed(s.mem, s.alloc.bits, roots)
    && HintOk(s.alloc)
    && |s.mem| > 0 && s.alloc.bits[0]
  }

  function ParentFlags(flags: set<Flag>): set<Flag> {
    flags * {Present, Writable, UserAccessible}
  }

  /** `allocate_and_map_child_table`: zero the frame, then point the entry at it. */
  function WithChild(mem: Memory, table: nat, i: nat, f: nat, flags: set<Flag>): (mem': Memory)
    requires table < |mem| && i < NUM_ENTRIES && f < |mem|
    ensures |mem'| == |mem|
  {
    var zeroed := mem[f := ZeroTable()];
    Write(zeroed, table, i, SetTarget(zeroed[table][i], f, flags))
  }

  ghost function MapFrom(s: State, table: nat, level: nat, p: Path, target: MapTarget, flags: set<Flag>): (r: (State, MapResult))
    requires table < |s.mem| && 1 <= level <= 4 && |s.alloc.bits| == |s.mem|
    ensures |r.0.mem| == |s.mem| && |r.0.alloc.bits| == |s.mem|
    decreases level
  {
    var i := p[4 - level];
    var e := s.mem[table][i];
    match TargetOf(|s.mem|, level, e)
    case Leaf(f, size, fl) => (s, AlreadyMapped(f, size, fl))
    case Next(t) => MapFrom(s, t, level - 1, p, target, flags)
    case Broken => (s, MapPanic)
    case Unmapped =>
      if level == 1 && target.ExistingPage? then
        (s.(mem := Write(s.mem, table, i, SetTarget(e, target.frame, flags))), Mapped(target.frame))
      else
        var (a, f) := Allocate(s.alloc, 1);
        if f.None? then (s.(alloc := a), NoFrame)
        else if f.value == 0 then (s.(alloc := a), MapPanic)
        else if level == 1 then (State(Write(s.mem, table, i, SetTarget(e, f.value, flags)), a), Mapped(f.value))
        else MapFrom(State(WithChild(s.mem, table, i, f.value, ParentFlags(flags)), a), f.value, level - 1, p, target, flags)
  }

  ghost function MapTo(s: State, root: nat, p: Path, target: MapTarget, flags: set<Flag>): (r: (State, MapResult))
    requires root < |s.mem| && |s.alloc.bits| == |s.mem|
    ensures |r.0.mem| == |s.mem| && |r.0.alloc.bits| == |s.mem|
  {
    MapFrom(s, root, 4, p, target, flags)
  }

  // ---------- accounting of frames ----------

  ghost predicate IsTable(mem: Memory, roots: set<nat>, x: nat) {
    exists r, q :: r in roots && Walk(mem, r, q) == Some(x)
  }

  /** Between the two states the only frames taken are new tables, all reachable, and the one new leaf;
      every table is still a table. */
  ghost predicate Accounted(s: State, s': State, roots: set<nat>, leaf: Option<nat>) {
    && |s'.alloc.bits| == |s.alloc.bits|
    && (forall x: nat :: IsTable(s.mem, roots, x) ==> IsTable(s'.mem, roots, x))
    && (forall x: nat :: IsTable(s'.mem, roots, x) && x < |s.alloc.bits| && s.alloc.bits[x] ==> IsTable(s.mem, roots, x))
    && (forall x :: 0 <= x < |s.alloc.bits| ==>
          (s'.alloc.bits[x] <==> s.alloc.bits[x] || leaf == Some(x) || IsTable(s'.mem, roots, x)))
    && (leaf.Some? ==> leaf.value < |s.alloc.bits| && !s.alloc.bits[leaf.value] && !IsTable(s'.mem, roots, leaf.value))
  }

  lemma SameWalksAccounted(s: State, s': State, roots: set<nat>)
    requires WellFormed(s.mem, s.alloc.bits, roots) && s'.alloc.bits == s.alloc.bits
    requires forall r, q :: r in roots ==> Walk(s'.mem, r, q) == Walk(s.mem, r, q)
    ensures Accounted(s, s', roots, None)
  {
    forall x: nat ensures IsTable(s'.mem, roots, x) == IsTable(s.mem, roots, x) {
    }
    forall x: nat | IsTable(s.mem, roots, x) ensures x < |s.alloc.bits| && s.alloc.bits[x] {
      TableIsUsed(s.mem, s.alloc.bits, roots, x);
    }
  }

  lemma TableIsUsed(mem: Memory, used: seq<bool>, roots: set<nat>, x: nat)
    requires WellFormed(mem, used, roots) && IsTable(mem, roots, x)
    ensures x < |mem| && used[x]
  {
  }

  lemma MoreUsed(mem: Memory, used: seq<bool>, roots: set<nat>, f: nat)
    requires WellFormed(mem, used, roots) && f < |mem|
    ensures WellFormed(mem, used[f := true], roots)
  {
  }

  /** Allocating one frame takes the lowest free one. */
  lemma OneFrame(a: Alloc)
    requires HintOk(a)
    ensures var (a', f) := Allocate(a, 1);
            && HintOk(a')
            && (f.Some? ==> f.value < |a.bits| && !a.bits[f.value] && a'.bits == a.bits[f.value := true])
            && (f.None? ==> a'.bits == a.bits && forall x :: 0 <= x < |a.bits| ==> a.bits[x])
  {
    AllocateKeepsHint(a, 1);
    var (a', f) := Allocate(a, 1);
    if f.None? {
      forall x | 0 <= x < |a.bits| ensures a.bits[x] {
        assert !RunFree(a.bits, x, 1);
      }
    }
  }

  // ---------- map_to ----------

  /** A table may be added on the way to `p` in `root` without the other roots missing it. */
  ghost predicate MayMap(mem: Memory, roots: set<nat>, root: nat, p: Path) {
    root < |mem| && (p[0] < 256 || Alone(roots, root) || TargetOf(|mem|, 4, mem[root][p[0]]).Next?)
  }

  /** Every table stays where it was, and new ones appear only on the way to `p`. */
  ghost predicate TablesGrow(s: State, s': State, roots: set<nat>, root: nat, p: Path) {
    forall r, q :: r in roots ==>
      && (Walk(s.mem, r, q).Some? ==> Walk(s'.mem, r, q) == Walk(s.mem, r, q))
      && (Walk(s'.mem, r, q).Some? && Walk(s.mem, r, q).None? ==> q <= p && Sees(r, root, q))
  }

  /** Everything `map_to` promises of the new state, of its result, and of every translation. */
  ghost predicate MapEffect(
      s: State, s': State, res: MapResult, roots: set<nat>, root: nat, p: Path, target: MapTarget, flags: set<Flag>)
    requires root in roots && Ready(s, roots)
  {
    && Ready(s', roots) && |s'.mem| == |s.mem|
    && !res.MapPanic?
    && (forall r, q: Path :: r in roots ==>
          Find(s'.mem, r, 4, q) ==
            if res.Mapped? && Sees(r, root, p) && q == p then Leaf(res.frame, Size4KiB, flags + {Present})
            else Find(s.mem, r, 4, q))
    && (var found := Find(s.mem, root, 4, p);
        if found.Leaf? then res == AlreadyMapped(found.frame, found.size, found.flags)
        else found.Unmapped? && (res.Mapped? || res.NoFrame?))
    && TablesGrow(s, s', roots, root, p)
    && (res.Mapped? && target.ExistingPage? ==> res.frame == target.frame)
    && (res.NoFrame? ==> forall x :: 0 <= x < |s'.alloc.bits| ==> s'.alloc.bits[x])
    && Accounted(s, s', roots, if res.Mapped? && target.NewPage? then Some(res.frame) else None)
  }

  /** Writing a leaf into an unused level 1 entry maps that page for the roots that see it, and nothing else. */
  lemma LeafWritten(
      s: State, roots: set<nat>, root: nat, table: nat, p: Path, f: nat, flags: set<Flag>)
    requires Ready(s, roots) && root in roots && HugePage !in flags
    requires Walk(s.mem, root, p[..3]) == Some(table) && s.mem[table][p[3]] == EMPTY
    ensures var mem' := Write(s.mem, table, p[3], Entry(f, flags + {Present}));
            && WellFormed(mem', s.alloc.bits, roots)
            && (forall r, q :: r in roots ==> Walk(mem', r, q) == Walk(s.mem, r, q))
            && forall r, q: Path :: r in roots ==>
                 Find(mem', r, 4, q) ==
                 if Sees(r, root, p) && q == p then Leaf(f, Size4KiB, flags + {Present}) else Find(s.mem, r, 4, q)
  {
    hide Find, Walk;
    var e := Entry(f, flags + {Present});
    LeafWriteKeeps(s.mem, s.alloc.bits, roots, root, p[..3], p[3], e);
    assert p[..3] + [p[3]] == p;
    var mem' := Write(s.mem, table, p[3], e);
    forall r, q: Path | r in roots
      ensures Find(mem', r, 4, q) ==
        if Sees(r, root, p) && q == p then Leaf(f, Size4KiB, flags + {Present}) else Find(s.mem, r, 4, q)
    {
      LeafWriteFind(s.mem, s.alloc.bits, roots, root, p[..3], p[3], e, r, q);
      assert q[..4] == q;
    }
  }

  lemma MapLeaf(
      s: State, roots: set<nat>, root: nat, table: nat, p: Path, target: MapTarget, flags: set<Flag>)
    requires Ready(s, roots) && root in roots && HugePage !in flags
    requires Walk(s.mem, root, p[..3]) == Some(table) && TargetOf(|s.mem|, 1, s.mem[table][p[3]]).Unmapped?
    ensures var (s', res) := MapFrom(s, table, 1, p, target, flags);
            MapEffect(s, s', res, roots, root, p, target, flags)
  {
    var (s', res) := MapFrom(s, table, 1, p, target, flags);
    assert s.mem[table][p[3]] == EMPTY by { assert GoodTable(|s.mem|, 1, s.mem[table]); }
    FindFromWalk(s.mem, root, p, 3);
    OneFrame(s.alloc);
    if res.Mapped? {
      LeafWritten(s, roots, root, table, p, res.frame, flags);
      assert s'.mem == Write(s.mem, table, p[3], Entry(res.frame, flags + {Present}));
      SameWalksAccounted(s, s'.(alloc := s.alloc), roots);
      if target.NewPage? {
        MoreUsed(s'.mem, s.alloc.bits, roots, res.frame);
      }
    } else {
      SameWalksAccounted(s, s'.(alloc := s.alloc), roots);
    }
  }

  /** Adding a table on the way down changes no translation. */
  lemma MapChild(s: State, roots: set<nat>, root: nat, table: nat, level: nat, p: Path, f: nat, flags: set<Flag>)
    requires Ready(s, roots) && root in roots && 2 <= level <= 4 && HugePage !in flags
    requires Walk(s.mem, root, p[..4 - level]) == Some(table)
    requires TargetOf(|s.mem|, level, s.mem[table][p[4 - level]]).Unmapped?
    requires level == 4 ==> p[0] < 256 || Alone(roots, root)
    requires Allocate(s.alloc, 1).1 == Some(f)
    ensures f < |s.mem|
    ensures var s' := State(WithChild(s.mem, table, p[4 - level], f, flags), Allocate(s.alloc, 1).0);
            && Ready(s', roots)
            && Walk(s'.mem, root, p[..5 - level]) == Some(f)
            && s'.mem[f] == ZeroTable()
            && (forall r, q: Path :: r in roots ==> Find(s'.mem, r, 4, q) == Find(s.mem, r, 4, q))
            && TablesGrow(s, s', roots, root, p)
            && Accounted(s, s', roots, None)
  {
    OneFrame(s.alloc);
    var q0, i := p[..4 - level], p[4 - level];
    assert q0 + [i] == p[..5 - level];
    assert s.mem[table][i] == EMPTY by { assert GoodTable(|s.mem|, level, s.mem[table]); }
    var used := s.alloc.bits;
    var zeroed := s.mem[f := ZeroTable()];
    FreshKeeps(s.mem, used, roots, f, ZeroTable());
    var mem' := WithChild(s.mem, table, i, f, flags);
    var s' := State(mem', Allocate(s.alloc, 1).0);
    assert mem' == AddChild(zeroed, root, q0, i, f, flags);
    ChildKeeps(zeroed, used, roots, root, q0, i, f, flags);
    ChildWalk(zeroed, used, roots, root, q0, i, f, flags, root, q0 + [i]);
    forall r, q: Path | r in roots ensures Find(mem', r, 4, q) == Find(s.mem, r, 4, q) {
      ChildFind(zeroed, used, roots, root, q0, i, f, flags, r, q);
    }
    ChildGrows(zeroed, used, roots, root, q0, i, f, flags, p);
    forall x: nat ensures IsTable(mem', roots, x) <==> IsTable(s.mem, roots, x) || x == f {
      ChildIsTable(zeroed, used, roots, root, q0, i, f, flags, x);
      SameIsTable(s.mem, zeroed, roots, x);
    }
    forall x: nat | IsTable(s.mem, roots, x) ensures x < |used| && used[x] {
      TableIsUsed(s.mem, used, roots, x);
    }
  }

  lemma ChildGrows(
      mem: Memory, used: seq<bool>, roots: set<nat>, r0: nat, q0: seq<nat>, i: nat, f: nat, flags: set<Flag>, p: Path)
    requires ChildSlot(mem, used, roots, r0, q0, i, f, flags) && q0 + [i] <= p
    ensures var mem' := AddChild(mem, r0, q0, i, f, flags);
            forall r, q :: r in roots ==>
              && (Walk(mem, r, q).Some? ==> Walk(mem', r, q) == Walk(mem, r, q))
              && (Walk(mem', r, q).Some? && Walk(mem, r, q).None? ==> q <= p && Sees(r, r0, q))
  {
    var mem' := AddChild(mem, r0, q0, i, f, flags);
    forall r, q | r in roots
      ensures Walk(mem, r, q).Some? ==> Walk(mem', r, q) == Walk(mem, r, q)
      ensures Walk(mem', r, q).Some? && Walk(mem, r, q).None? ==> q <= p && Sees(r, r0, q)
    {
      ChildWalk(mem, used, roots, r0, q0, i, f, flags, r, q);
      if Sees(r, r0, q0) && q0 + [i] <= q {
        if r != r0 { SharedWalk(mem, used, roots, r, r0, q0); }
        DeadEnd(mem, r, q0, i, q);
      }
    }
  }

  lemma SameIsTable(mem: Memory, mem': Memory, roots: set<nat>, x: nat)
    requires forall r, q :: r in roots ==> Walk(mem', r, q) == Walk(mem, r, q)
    ensures IsTable(mem', roots, x) == IsTable(mem, roots, x)
  {
  }

  lemma ChildIsTable(
      mem: Memory, used: seq<bool>, roots: set<nat>, r0: nat, q0: seq<nat>, i: nat, f: nat, flags: set<Flag>, x: nat)
    requires ChildSlot(mem, used, roots, r0, q0, i, f, flags)
    ensures IsTable(AddChild(mem, r0, q0, i, f, flags), roots, x) <==> IsTable(mem, roots, x) || x == f
  {
    var mem' := AddChild(mem, r0, q0, i, f, flags);
    forall r, q | r in roots
      ensures Walk(mem, r, q) == Some(x) ==> Walk(mem', r, q) == Some(x)
      ensures Walk(mem', r, q) == Some(x) ==> Walk(mem, r, q) == Some(x) || x == f
    {
      ChildWalk(mem, used, roots, r0, q0, i, f, flags, r, q);
      if Sees(r, r0, q0) && q0 + [i] <= q {
        if r != r0 { SharedWalk(mem, used, roots, r, r0, q0); }
        DeadEnd(mem, r, q0, i, q);
      }
    }
    ChildWalk(mem, used, roots, r0, q0, i, f, flags, r0, q0 + [i]);
  }

  lemma AccountedTrans(s: State, m: State, s': State, roots: set<nat>, leaf: Option<nat>)
    requires WellFormed(s.mem, s.alloc.bits, roots)
    requires Accounted(s, m, roots, None) && Accounted(m, s', roots, leaf)
    ensures Accounted(s, s', roots, leaf)
  {
  }

  /** A step that changes no translation before a mapping leaves the mapping's effect as it was. */
  lemma MapEffectTrans(
      s: State, m: State, s': State, res: MapResult, roots: set<nat>, root: nat, p: Path, target: MapTarget, flags: set<Flag>)
    requires Ready(s, roots) && Ready(m, roots) && root in roots && |m.mem| == |s.mem|
    requires forall r, q: Path :: r in roots ==> Find(m.mem, r, 4, q) == Find(s.mem, r, 4, q)
    requires Accounted(s, m, roots, None) && TablesGrow(s, m, roots, root, p)
    requires MapEffect(m, s', res, roots, root, p, target, flags)
    ensures MapEffect(s, s', res, roots, root, p, target, flags)
  {
    AccountedTrans(s, m, s', roots, if res.Mapped? && target.NewPage? then Some(res.frame) else None);
  }

  /** Stopping without writing anything. */
  lemma MapNothing(
      s: State, s': State, res: MapResult, roots: set<nat>, root: nat, p: Path, target: MapTarget, flags: set<Flag>)
    requires Ready(s, roots) && root in roots
    requires s'.mem == s.mem && s'.alloc.bits == s.alloc.bits && HintOk(s'.alloc)
    requires var found := Find(s.mem, root, 4, p);
             if found.Leaf? then res == AlreadyMapped(found.frame, found.size, found.flags)
             else found.Unmapped? && res.NoFrame? && forall x :: 0 <= x < |s.mem| ==> s.alloc.bits[x]
    ensures MapEffect(s, s', res, roots, root, p, target, flags)
  {
    SameWalksAccounted(s, s', roots);
  }

  /** `map_to` refines a partial map: from any table on the way, over every root and every path. */
  lemma {:induction false} MapFromCorrect(
      s: State, roots: set<nat>, root: nat, table: nat, level: nat, p: Path, target: MapTarget, flags: set<Flag>)
    requires Ready(s, roots) && root in roots && 1 <= level <= 4 && HugePage !in flags
    requires Walk(s.mem, root, p[..4 - level]) == Some(table)
    requires level == 4 ==> MayMap(s.mem, roots, root, p)
    ensures var (s', res) := MapFrom(s, table, level, p, target, flags);
            MapEffect(s, s', res, roots, root, p, target, flags)
    decreases level, 1
  {
    hide MapEffect, NoAlias, TopShared, Allocate, WithChild, SetTarget;
    var e := s.mem[table][p[4 - level]];
    assert GoodEntry(|s.mem|, level, e) by { assert GoodTable(|s.mem|, level, s.mem[table]); }
    FindFromWalk(s.mem, root, p, 4 - level);
    match TargetOf(|s.mem|, level, e)
    case Leaf(_, _, _) =>
      var (s', res) := MapFrom(s, table, level, p, target, flags);
      MapNothing(s, s', res, roots, root, p, target, flags);
    case Next(t) =>
      assert p[..5 - level][..4 - level] == p[..4 - level];
      MapFromCorrect(s, roots, root, t, level - 1, p, target, flags);
    case Unmapped =>
      if level == 1 {
        assert p[..4 - level] == p[..3];
        MapLeaf(s, roots, root, table, p, target, flags);
      } else {
        MapThroughChild(s, roots, root, table, level, p, target, flags);
      }
  }

  lemma {:induction false} MapThroughChild(
      s: State, roots: set<nat>, root: nat, table: nat, level: nat, p: Path, target: MapTarget, flags: set<Flag>)
    requires Ready(s, roots) && root in roots && 2 <= level <= 4 && HugePage !in flags
    requires Walk(s.mem, root, p[..4 - level]) == Some(table)
    requires TargetOf(|s.mem|, level, s.mem[table][p[4 - level]]).Unmapped? && Find(s.mem, root, 4, p).Unmapped?
    requires level == 4 ==> MayMap(s.mem, roots, root, p)
    ensures var (s', res) := MapFrom(s, table, level, p, target, flags);
            MapEffect(s, s', res, roots, root, p, target, flags)
    decreases level, 0
  {
    OneFrame(s.alloc);
    var (s', res) := MapFrom(s, table, level, p, target, flags);
    var (a, f) := Allocate(s.alloc, 1);
    if f.None? {
      MapNothing(s, s', res, roots, root, p, target, flags);
    } else {
      assert level == 4 ==> table == root;
      MapChild(s, roots, root, table, level, p, f.value, ParentFlags(flags));
      var m := State(WithChild(s.mem, table, p[4 - level], f.value, ParentFlags(flags)), a);
      MapFromCorrect(m, roots, root, f.value, level - 1, p, target, flags);
      MapEffectTrans(s, m, s', res, roots, root, p, target, flags);
    }
  }

  // ---------- unmap and set_flags ----------

  datatype UnmapResult =
    | Removed(frame: nat)
    | NotMapped
    | WrongSize(expected: PageSize, actual: PageSize)
    | UnmapPanic

  /** How many indices of a path a page of this size is found by. */
  function PrefixLen(size: PageSize): (n: nat)
    ensures 2 <= n <= 4
  {
    match size
    case Size4KiB => 4
    case Size2MiB => 3
    case Size1GiB => 2
  }

  /** The bit `free_page` clears: the address of the page divided by the size of the page. */
  function FreedBit(frame: nat, size: PageSize): (bit: nat)
    ensures bit * size.Frames() <= frame < (bit + 1) * size.Frames()
  {
    frame / size.Frames()
  }

  ghost function FreePage(a: Alloc, frame: nat, size: PageSize): (r: Option<Alloc>) {
    var bit := FreedBit(frame, size);
    if bit < |a.bits| && a.bits[bit] then Some(Free(a, bit, 1)) else None
  }

  /** A page all of whose frames are in use has those frames given back if and only if it is a 4 KiB one.  Of a larger
      page not one is: the bit cleared, if it is set at all, is that of a frame below the page. */
  lemma FreesItsFramesWhen(a: Alloc, frame: nat, size: PageSize)
    requires frame > 0 && RunUsed(a.bits, frame, size.Frames())
    ensures var freed := FreePage(a, frame, size);
            && (freed.Some? && freed.value.bits == Marked(a.bits, frame, size.Frames(), false) <==> size == Size4KiB)
            && (freed.Some? && size != Size4KiB ==>
                  FreedBit(frame, size) < frame && RunUsed(freed.value.bits, frame, size.Frames()))
  {
    if size == Size4KiB {
      assert FreedBit(frame, size) == frame && a.bits[frame];
    } else {
      assert FreedBit(frame, size) < frame;
      assert !Marked(a.bits, frame, size.Frames(), false)[frame] && a.bits[frame];
    }
  }

  /** With every frame in use, giving back the 2 MiB page on frame 512 frees frame 1, the next one handed out. */
  lemma HugePageFreesAnother(a: Alloc)
    requires |a.bits| >= 1024 && RunUsed(a.bits, 0, |a.bits|)
    ensures var freed := FreePage(a, 512, Size2MiB);
            && freed.Some? && freed.value.bits == a.bits[1 := false]
            && RunUsed(freed.value.bits, 512, Size2MiB.Frames())
            && Allocate(freed.value, 1).1 == Some(1)
  {
    var bits := FreePage(a, 512, Size2MiB).value.bits;
    assert bits == a.bits[1 := false];
    assert a.bits[0] && bits[0] && !bits[1];
    assert RunFree(bits, 1, 1) && !RunFree(bits, 0, 1);
    assert FirstFit(bits, 1, 0) == Some(1);
  }

  ghost function Unmap(s: State, root: nat, p: Path, size: PageSize, free: bool): (r: (State, UnmapResult))
    requires root < |s.mem|
    ensures |r.0.mem| == |s.mem| && |r.0.alloc.bits| == |s.alloc.bits|
  {
    var (t, l) := Stop(s.mem, root, 4, p);
    match TargetOf(|s.mem|, l, s.mem[t][p[4 - l]])
    case Leaf(f, actual, _) =>
      if actual != size then (s, WrongSize(size, actual)) else
      var cleared := s.(mem := Write(s.mem, t, p[4 - l], EMPTY));
      if !free then (cleared, Removed(f)) else
      var a := FreePage(s.alloc, f, size);
      if a.None? then (cleared, UnmapPanic) else (cleared.(alloc := a.value), Removed(f))
    case Unmapped => (s, NotMapped)
    case _ => (s, UnmapPanic)
  }

  datatype SetFlagsResult = FlagsSet | SetNotMapped | SetPanic

  function RewriteFlags(mem: Memory, root: nat, p: Path, flags: set<Flag>): (r: (Memory, SetFlagsResult))
    requires root < |mem|
  {
    var (t, l) := Stop(mem, root, 4, p);
    var e := mem[t][p[4 - l]];
    match TargetOf(|mem|, l, e)
    case Leaf(_, _, _) => (Write(mem, t, p[4 - l], SetFlags(e, flags)), FlagsSet)
    case Unmapped => (mem, SetNotMapped)
    case _ => (mem, SetPanic)
  }

  function SetPageFlags(s: State, root: nat, p: Path, flags: set<Flag>): (r: (State, SetFlagsResult))
    requires root < |s.mem|
  {
    var (mem, res) := RewriteFlags(s.mem, root, p, flags);
    (s.(mem := mem), res)
  }

  /** The bit may be cleared: it stands for a frame in use, but not for frame zero or a table. */
  ghost predicate MayFree(s: State, roots: set<nat>, bit: nat) {
    0 < bit < |s.alloc.bits| && s.alloc.bits[bit] && !IsTable(s.mem, roots, bit)
  }

  /** Where a leaf of each size is found. */
  lemma LeafStop(s: State, roots: set<nat>, root: nat, p: Path)
    requires Ready(s, roots) && root in roots && Find(s.mem, root, 4, p).Leaf?
    ensures var (t, l) := Stop(s.mem, root, 4, p);
            var n := PrefixLen(Find(s.mem, root, 4, p).size);
            && l == 5 - n && p[4 - l] == p[n - 1]
            && Walk(s.mem, root, p[..n - 1]) == Some(t) && p[..n - 1] + [p[n - 1]] == p[..n]
            && TargetOf(|s.mem|, l, s.mem[t][p[n - 1]]) == Find(s.mem, root, 4, p)
  {
    assert p[..0] == [];
    StopIsWalked(s.mem, root, p, root, 4);
    FindAtStop(s.mem, root, 4, p);
  }

  lemma FoundIsSound(s: State, roots: set<nat>, root: nat, p: Path)
    requires Ready(s, roots) && root in roots
    ensures !Find(s.mem, root, 4, p).Broken?
  {
    assert p[..0] == [];
    StopIsWalked(s.mem, root, p, root, 4);
    FindAtStop(s.mem, root, 4, p);
    var (t, l) := Stop(s.mem, root, 4, p);
    assert GoodTable(|s.mem|, l, s.mem[t]);
  }

  /** Everything a rewrite of one leaf does: only the translations of its page change. */
  ghost predicate LeafEffect(s: State, s': State, roots: set<nat>, root: nat, p: Path, size: PageSize, now: Target)
    requires Ready(s, roots)
  {
    && Ready(s', roots) && |s'.mem| == |s.mem|
    && (forall r, q: Path :: r in roots ==>
          Find(s'.mem, r, 4, q) ==
            if Sees(r, root, p) && q[..PrefixLen(size)] == p[..PrefixLen(size)] then now else Find(s.mem, r, 4, q))
    && (forall r, q :: r in roots ==> Walk(s'.mem, r, q) == Walk(s.mem, r, q))
  }

  lemma RewriteLeaf(s: State, roots: set<nat>, root: nat, p: Path, e: Entry)
    requires Ready(s, roots) && root in roots && Find(s.mem, root, 4, p).Leaf?
    requires var l := 5 - PrefixLen(Find(s.mem, root, 4, p).size);
             GoodEntry(|s.mem|, l, e) && !TargetOf(|s.mem|, l, e).Next?
    ensures var (t, l) := Stop(s.mem, root, 4, p);
            LeafEffect(s, s.(mem := Write(s.mem, t, p[4 - l], e)), roots, root, p,
                       Find(s.mem, root, 4, p).size, TargetOf(|s.mem|, l, e))
  {
    LeafStop(s, roots, root, p);
    var (t, l) := Stop(s.mem, root, 4, p);
    var n := PrefixLen(Find(s.mem, root, 4, p).size);
    var q0, i := p[..n - 1], p[n - 1];
    LeafWriteKeeps(s.mem, s.alloc.bits, roots, root, q0, i, e);
    forall r, q: Path | r in roots
      ensures Find(Write(s.mem, t, i, e), r, 4, q) ==
        if Sees(r, root, p) && q[..n] == p[..n] then TargetOf(|s.mem|, l, e) else Find(s.mem, r, 4, q)
    {
      LeafWriteFind(s.mem, s.alloc.bits, roots, root, q0, i, e, r, q);
    }
  }

  /** `unmap` removes the translations of one page and of no other address.  Asked to give the page back it clears the
      bit `FreedBit` names, and panics exactly when that bit is not set; the tables stay sound exactly when the bit is
      not that of a table or of frame zero. */
  lemma UnmapCorrect(s: State, roots: set<nat>, root: nat, p: Path, size: PageSize, free: bool)
    requires Ready(s, roots) && root in roots
    ensures var (s', res) := Unmap(s, root, p, size, free);
            match Find(s.mem, root, 4, p)
            case Leaf(f, actual, _) =>
              if actual != size then s' == s && res == WrongSize(size, actual)
              else
                var bit := FreedBit(f, size);
                && LeafEffect(s, s.(mem := s'.mem), roots, root, p, size, Unmapped)
                && res == (if free && !(bit < |s.alloc.bits| && s.alloc.bits[bit]) then UnmapPanic else Removed(f))
                && s'.alloc.bits == (if free && res.Removed? then s.alloc.bits[bit := false] else s.alloc.bits)
                && (Ready(s', roots) <==> free && res.Removed? ==> MayFree(s, roots, bit))
            case _ => s' == s && res == NotMapped
  {
    FoundIsSound(s, roots, root, p);
    FindAtStop(s.mem, root, 4, p);
    if Find(s.mem, root, 4, p).Leaf? && Find(s.mem, root, 4, p).size == size {
      RewriteLeaf(s, roots, root, p, EMPTY);
      var (t, l) := Stop(s.mem, root, 4, p);
      FreeKeepsReady(s, Write(s.mem, t, p[4 - l], EMPTY), roots, Find(s.mem, root, 4, p).frame, size);
    }
  }

  lemma FreeKeepsReady(s: State, mem: Memory, roots: set<nat>, frame: nat, size: PageSize)
    requires Ready(s, roots) && Ready(s.(mem := mem), roots) && |mem| == |s.mem|
    requires forall r, q :: r in roots ==> Walk(mem, r, q) == Walk(s.mem, r, q)
    ensures var bit, freed := FreedBit(frame, size), FreePage(s.alloc, frame, size);
            && (freed.Some? <==> bit < |s.alloc.bits| && s.alloc.bits[bit])
            && (freed.Some? ==>
                  && freed.value.bits == s.alloc.bits[bit := false]
                  && (Ready(State(mem, freed.value), roots) <==> MayFree(s, roots, bit)))
  {
    hide WellFormed, IsTable, Walk;
    var bit, freed := FreedBit(frame, size), FreePage(s.alloc, frame, size);
    if freed.Some? {
      assert freed.value.bits == s.alloc.bits[bit := false];
      FreeKeepsHint(s.alloc, bit, 1);
      SameIsTable(s.mem, mem, roots, bit);
      WellFormedLengths(mem, s.alloc.bits, roots);
      FewerUsed(mem, s.alloc.bits, roots, bit);
    }
  }

  lemma WellFormedLengths(mem: Memory, used: seq<bool>, roots: set<nat>)
    requires WellFormed(mem, used, roots)
    ensures |used| == |mem|
  {
  }

  lemma FewerUsed(mem: Memory, used: seq<bool>, roots: set<nat>, f: nat)
    requires WellFormed(mem, used, roots) && f < |mem|
    ensures WellFormed(mem, used[f := false], roots) <==> !IsTable(mem, roots, f)
  {
  }

  /** The flags a leaf can be given: present, and huge exactly when the page is. */
  predicate FlagsFit(flags: set<Flag>, size: PageSize) {
    Present in flags && (HugePage in flags <==> size != Size4KiB)
  }

  /** What is found at `q`, in a page of the given size and frame, once its entry has these flags: without HUGE_PAGE the
      first frame of a large page is taken for a table. */
  function WithFlags(mem: Memory, frame: nat, size: PageSize, flags: set<Flag>, q: Path): (t: Target) {
    if Present !in flags then Unmapped
    else if size == Size4KiB then (if HugePage in flags then Broken else Leaf(frame, size, flags))
    else if HugePage in flags then Leaf(frame, size, flags)
    else if frame < |mem| then Find(mem, frame, 4 - PrefixLen(size), q)
    else Broken
  }

  /** Only what is found in the one page changes. */
  ghost predicate FlagsEffect(
      s: State, s': State, roots: set<nat>, root: nat, p: Path, frame: nat, size: PageSize, flags: set<Flag>)
    requires Ready(s, roots)
  {
    && |s'.mem| == |s.mem|
    && forall r, q: Path :: r in roots ==>
         Find(s'.mem, r, 4, q) ==
           if Sees(r, root, p) && q[..PrefixLen(size)] == p[..PrefixLen(size)] then WithFlags(s'.mem, frame, size, flags, q)
           else Find(s.mem, r, 4, q)
  }

  /** `set_flags`, with whatever flags, changes what is found in one page and nothing else; with flags that fit the page
      it changes the flags of the page and nothing else. */
  lemma SetFlagsCorrect(s: State, roots: set<nat>, root: nat, p: Path, flags: set<Flag>)
    requires Ready(s, roots) && root in roots
    ensures var (s', res) := SetPageFlags(s, root, p, flags);
            match Find(s.mem, root, 4, p)
            case Leaf(f, size, _) =>
              && res == FlagsSet && s'.alloc == s.alloc && FlagsEffect(s, s', roots, root, p, f, size, flags)
              && (FlagsFit(flags, size) ==> LeafEffect(s, s', roots, root, p, size, Leaf(f, size, flags)))
            case _ => s' == s && res == SetNotMapped
  {
    hide Find, Walk, TablesSound, NoAlias, TopShared, FlagsEffect, LeafEffect, Write;
    FoundIsSound(s, roots, root, p);
    FindAtStop(s.mem, root, 4, p);
    if Find(s.mem, root, 4, p).Leaf? {
      LeafStop(s, roots, root, p);
      FlagsFound(s, roots, root, p, flags);
      FittingFlags(s, roots, root, p, flags);
    }
  }

  lemma FittingFlags(s: State, roots: set<nat>, root: nat, p: Path, flags: set<Flag>)
    requires Ready(s, roots) && root in roots && Find(s.mem, root, 4, p).Leaf?
    ensures var (t, l) := Stop(s.mem, root, 4, p);
            var s' := s.(mem := Write(s.mem, t, p[4 - l], SetFlags(s.mem[t][p[4 - l]], flags)));
            var found := Find(s.mem, root, 4, p);
            FlagsFit(flags, found.size) ==>
              LeafEffect(s, s', roots, root, p, found.size, Leaf(found.frame, found.size, flags))
  {
    hide Find, Walk, Stop, TablesSound, NoAlias, TopShared, LeafEffect;
    LeafStop(s, roots, root, p);
    var (t, l) := Stop(s.mem, root, 4, p);
    if FlagsFit(flags, Find(s.mem, root, 4, p).size) {
      RewriteLeaf(s, roots, root, p, SetFlags(s.mem[t][p[4 - l]], flags));
    }
  }

  lemma FlagsFound(s: State, roots: set<nat>, root: nat, p: Path, flags: set<Flag>)
    requires Ready(s, roots) && root in roots && Find(s.mem, root, 4, p).Leaf?
    ensures var (t, l) := Stop(s.mem, root, 4, p);
            var s' := s.(mem := Write(s.mem, t, p[4 - l], SetFlags(s.mem[t][p[4 - l]], flags)));
            var found := Find(s.mem, root, 4, p);
            FlagsEffect(s, s', roots, root, p, found.frame, found.size, flags)
  {
    hide Find, Walk, Stop, TablesSound, NoAlias, TopShared, WithFlags;
    var (t, l) := Stop(s.mem, root, 4, p);
    var mem' := Write(s.mem, t, p[4 - l], SetFlags(s.mem[t][p[4 - l]], flags));
    var found := Find(s.mem, root, 4, p);
    forall r, q: Path | r in roots
      ensures Find(mem', r, 4, q) ==
        if Sees(r, root, p) && q[..PrefixLen(found.size)] == p[..PrefixLen(found.size)]
        then WithFlags(mem', found.frame, found.size, flags, q) else Find(s.mem, r, 4, q)
    {
      FlagsFind(s, roots, root, p, flags, r, q);
    }
  }

  lemma FlagsFind(s: State, roots: set<nat>, root: nat, p: Path, flags: set<Flag>, r: nat, q: Path)
    requires Ready(s, roots) && root in roots && r in roots && Find(s.mem, root, 4, p).Leaf?
    ensures var (t, l) := Stop(s.mem, root, 4, p);
            var mem' := Write(s.mem, t, p[4 - l], SetFlags(s.mem[t][p[4 - l]], flags));
            var found := Find(s.mem, root, 4, p);
            Find(mem', r, 4, q) ==
              if Sees(r, root, p) && q[..PrefixLen(found.size)] == p[..PrefixLen(found.size)]
              then WithFlags(mem', found.frame, found.size, flags, q) else Find(s.mem, r, 4, q)
  {
    hide Find, Walk, Stop, TablesSound, NoAlias, TopShared;
    LeafStop(s, roots, root, p);
    var (t, l) := Stop(s.mem, root, 4, p);
    var n := PrefixLen(Find(s.mem, root, 4, p).size);
    var e := SetFlags(s.mem[t][p[n - 1]], flags);
    EntryWriteFind(s.mem, s.alloc.bits, roots, root, p[..n - 1], p[n - 1], e, r, q);
  }

  lemma {:induction false} MapFromWalk(s: State, root: nat, p: Path, k: nat, target: MapTarget, flags: set<Flag>)
    requires root < |s.mem| && |s.alloc.bits| == |s.mem| && k <= 3 && Walk(s.mem, root, p[..k]).Some?
    ensures MapTo(s, root, p, target, flags) == MapFrom(s, Walk(s.mem, root, p[..k]).value, 4 - k, p, target, flags)
  {
    if k > 0 {
      assert p[..k][..k - 1] == p[..k - 1];
      MapFromWalk(s, root, p, k - 1, target, flags);
    }
  }

  /** Writing any entry into the level 1 slot of `p`, well-formed or not. */
  lemma RawLeafWrite(mem: Memory, roots: set<nat>, root: nat, p: Path, e: Entry)
    requires NoAlias(mem, roots) && root in roots && Walk(mem, root, p[..3]).Some?
    ensures var t := Walk(mem, root, p[..3]).value;
            var mem' := Write(mem, t, p[3], e);
            && root < |mem|
            && Walk(mem', root, p[..3]) == Some(t)
            && Find(mem', root, 4, p) == TargetOf(|mem|, 1, e)
  {
    var t := Walk(mem, root, p[..3]).value;
    RootInMemory(mem, root, p[..3]);
    WalkFrame(mem, roots, root, p[..3], p[3], e, root, p[..3]);
    FindFromWalk(Write(mem, t, p[3], e), root, p, 3);
  }

  /** Every bit of `a` is one of `b`. */
  predicate BitsWithin(a: nat, b: nat) {
    a == 0 || (a % 2 <= b % 2 && BitsWithin(a / 2, b / 2))
  }

  lemma {:induction false} OrWithin(a: nat, b: nat)
    ensures BitOr(a, b) == b <==> BitsWithin(a, b)
  {
    if a != 0 && b != 0 {
      OrWithin(a / 2, b / 2);
    } else if a != 0 {
      ZeroWithin(a);
    }
  }

  lemma {:induction false} ZeroWithin(a: nat)
    ensures BitsWithin(a, 0) <==> a == 0
  {
    if a != 0 {
      ZeroWithin(a / 2);
    }
  }

  /** A page hidden with `set_flags` and mapped again: the new address is ored into the old one, so the frame asked
      for is the one mapped exactly when it contains every bit of the stale one. */
  lemma RemapAfterHiding(
      s: State, roots: set<nat>, root: nat, p: Path, hidden: set<Flag>, frame: nat, flags: set<Flag>)
      returns (s1: State, s2: State)
    requires Ready(s, roots) && root in roots && Present !in hidden && HugePage !in flags
    requires Find(s.mem, root, 4, p).Leaf? && Find(s.mem, root, 4, p).size == Size4KiB
    ensures s1 == SetPageFlags(s, root, p, hidden).0 && |s1.mem| == |s.mem| == |s1.alloc.bits|
    ensures MapTo(s1, root, p, ExistingPage(frame), flags) == (s2, Mapped(frame)) && |s2.mem| == |s.mem|
    ensures Find(s1.mem, root, 4, p) == Unmapped
    ensures Find(s2.mem, root, 4, p) == Leaf(BitOr(Find(s.mem, root, 4, p).frame, frame), Size4KiB, flags + {Present})
    ensures Find(s2.mem, root, 4, p).frame == frame <==> BitsWithin(Find(s.mem, root, 4, p).frame, frame)
  {
    var t, e := HidePage(s, roots, root, p, hidden);
    s1 := s.(mem := Write(s.mem, t, p[3], e));
    MapHidden(s1, root, p, frame, flags);
    var e2 := SetTarget(e, frame, flags);
    s2 := s1.(mem := Write(s1.mem, t, p[3], e2));
    RawLeafWrite(s.mem, roots, root, p, e2);
    WriteTwice(s.mem, t, p[3], e, e2);
    OrWithin(Find(s.mem, root, 4, p).frame, frame);
  }

  /** So a page that was on frame 1 and is asked to be on frame 2 ends up on frame 3. */
  lemma StaleBitsShow(
      s: State, roots: set<nat>, root: nat, p: Path, hidden: set<Flag>, flags: set<Flag>)
    requires Ready(s, roots) && root in roots && Present !in hidden && HugePage !in flags
    requires Find(s.mem, root, 4, p).Leaf? && Find(s.mem, root, 4, p).size == Size4KiB
    requires Find(s.mem, root, 4, p).frame == 1
    ensures var s1 := SetPageFlags(s, root, p, hidden).0;
            && root < |s1.mem| == |s1.alloc.bits|
            && var (s2, res) := MapTo(s1, root, p, ExistingPage(2), flags);
            && res == Mapped(2) && Find(s2.mem, root, 4, p) == Leaf(3, Size4KiB, flags + {Present})
  {
    hide Find, SetPageFlags, MapTo;
    var s1, s2 := RemapAfterHiding(s, roots, root, p, hidden, 2, flags);
    assert BitOr(1, 2) == 3;
  }

  lemma WriteTwice(mem: Memory, t: nat, i: nat, e1: Entry, e2: Entry)
    requires t < |mem| && i < NUM_ENTRIES
    ensures Write(Write(mem, t, i, e1), t, i, e2) == Write(mem, t, i, e2)
  {
    assert mem[t][i := e1][i := e2] == mem[t][i := e2];
  }

  lemma HidePage(s: State, roots: set<nat>, root: nat, p: Path, hidden: set<Flag>) returns (t: nat, e: Entry)
    requires Ready(s, roots) && root in roots && Present !in hidden
    requires Find(s.mem, root, 4, p).Leaf? && Find(s.mem, root, 4, p).size == Size4KiB
    ensures Walk(s.mem, root, p[..3]) == Some(t) && e == Entry(Find(s.mem, root, 4, p).frame, hidden)
    ensures var s1 := s.(mem := Write(s.mem, t, p[3], e));
            && SetPageFlags(s, root, p, hidden).0 == s1
            && Walk(s1.mem, root, p[..3]) == Some(t) && Find(s1.mem, root, 4, p) == Unmapped
  {
    LeafStop(s, roots, root, p);
    t := Walk(s.mem, root, p[..3]).value;
    e := SetFlags(s.mem[t][p[3]], hidden);
    RawLeafWrite(s.mem, roots, root, p, e);
  }

  lemma MapHidden(s: State, root: nat, p: Path, frame: nat, flags: set<Flag>)
    requires root < |s.mem| && |s.alloc.bits| == |s.mem| && Walk(s.mem, root, p[..3]).Some?
    requires Present !in s.mem[Walk(s.mem, root, p[..3]).value][p[3]].flags
    ensures var t := Walk(s.mem, root, p[..3]).value;
            MapTo(s, root, p, ExistingPage(frame), flags) ==
            (s.(mem := Write(s.mem, t, p[3], SetTarget(s.mem[t][p[3]], frame, flags))), Mapped(frame))
  {
    MapFromWalk(s, root, p, 3, ExistingPage(frame), flags);
  }
}

/**
 Runs of the address spaces: once the kernel's lower half is cleared and its top half filled, any sequence of
 top-half operations on the kernel's table, lower-half operations on its clones, and new clones.
 */
module AddressSpaceRuns {
  import opened Common
  import opened PageTable
  import opened Mapping
  import opened VirtualAddress
  import opened AddressSpaces
  import opened FrameCounts

  /** The kernel's table, the clones of it, and the memory they live in. */
  datatype Spaces = Spaces(s: State, kernel: nat, clones: set<nat>) {
    ghost function Roots(): set<nat> { clones + {kernel} }
  }

  datatype Op =
    | MapPage(root: nat, page: nat, target: MapTarget, flags: set<Flag>)
    | UnmapPage(root: nat, page: nat, size: PageSize, free: bool)
    | ChangeFlags(root: nat, page: nat, flags: set<Flag>)
    | NewClone

  ghost predicate Sound(sp: Spaces) {
    && Ready(sp.s, sp.Roots())
    && LowerEmpty(sp.s.mem, sp.kernel) && TopFilled(sp.s.mem, sp.kernel)
  }

  /** The kernel's table is used for the top half and a clone for the lower half, with the flags and frames the
      operations themselves ask for. */
  ghost predicate Legal(sp: Spaces, op: Op)
    requires Sound(sp)
  {
    match op
    case NewClone => true
    case MapPage(root, page, _, flags) =>
      && root in sp.Roots() && (root == sp.kernel <==> TopHalf(page))
      && IsPage(page, Size4KiB) && HugePage !in flags
    case UnmapPage(root, page, size, free) =>
      && root in sp.Roots() && (root == sp.kernel <==> TopHalf(page))
      && IsPage(page, size)
      && var found := Find(sp.s.mem, root, 4, PathOf(page));
         (free && found.Leaf? && found.size == size ==> MayFree(sp.s, sp.Roots(), FreedBit(found.frame, size)))
    case ChangeFlags(root, page, flags) =>
      && root in sp.Roots() && (root == sp.kernel <==> TopHalf(page))
      && Canonical(page)
      && var was := Translate(sp.s.mem, root, page); (was.TranslatesTo? ==> FlagsFit(flags, was.size))
  }

  /** The operation panics: a walk meets a broken entry, a bit to be cleared is clear, or there is no frame for a clone.
      Running out of frames while mapping is an error that is returned. */
  ghost predicate Panics(sp: Spaces, op: Op)
    requires Sound(sp) && Legal(sp, op)
  {
    match op
    case MapPage(root, page, target, flags) => MapTo(sp.s, root, PathOf(page), target, flags).1.MapPanic?
    case UnmapPage(root, page, size, free) => Unmap(sp.s, root, PathOf(page), size, free).1.UnmapPanic?
    case ChangeFlags(root, page, flags) => SetPageFlags(sp.s, root, PathOf(page), flags).1.SetPanic?
    case NewClone => CloneTable(sp.s, sp.kernel).1.None?
  }

  ghost predicate AllUsed(bits: seq<bool>) {
    forall x :: 0 <= x < |bits| ==> bits[x]
  }

  /** The state after an operation that does not panic. */
  ghost function Step(sp: Spaces, op: Op): (sp': Spaces)
    requires Sound(sp) && Legal(sp, op)
  {
    match op
    case MapPage(root, page, target, flags) => sp.(s := MapTo(sp.s, root, PathOf(page), target, flags).0)
    case UnmapPage(root, page, size, free) => sp.(s := Unmap(sp.s, root, PathOf(page), size, free).0)
    case ChangeFlags(root, page, flags) => sp.(s := SetPageFlags(sp.s, root, PathOf(page), flags).0)
    case NewClone =>
      var (s', f) := CloneTable(sp.s, sp.kernel);
      if f.None? then sp.(s := s') else sp.(s := s', clones := sp.clones + {f.value})
  }

  /** Every table translates every top-half address as the kernel's does. */
  ghost predicate TopAgrees(sp: Spaces)
    requires Sound(sp)
  {
    forall r, a :: r in sp.Roots() && Canonical(a) && TopHalf(a) ==>
      Translate(sp.s.mem, r, a) == Translate(sp.s.mem, sp.kernel, a)
  }

  /** The tables of `sp` that `op` was not called on keep all their lower-half translations. */
  ghost predicate Isolated(sp: Spaces, sp': Spaces, touched: set<nat>)
    requires Sound(sp) && Sound(sp') && sp.Roots() <= sp'.Roots()
  {
    forall r, a :: r in sp.Roots() && r !in touched && Canonical(a) && !TopHalf(a) ==>
      Translate(sp'.s.mem, r, a) == Translate(sp.s.mem, r, a)
  }

  ghost function Touched(op: Op): set<nat> {
    if op.NewClone? then {} else {op.root}
  }

  lemma {:induction false} TopFindAgrees(mem: Memory, used: seq<bool>, roots: set<nat>, r: nat, k: nat, p: Path)
    requires WellFormed(mem, used, roots) && r in roots && k in roots && p[0] >= 256
    ensures Find(mem, r, 4, p) == Find(mem, k, 4, p)
  {
    assert mem[r][p[0]] == mem[k][p[0]];
  }

  /** In any sound state all tables agree on the top half. */
  lemma SoundAgrees(sp: Spaces)
    requires Sound(sp)
    ensures TopAgrees(sp)
  {
    forall r, a | r in sp.Roots() && Canonical(a) && TopHalf(a)
      ensures Translate(sp.s.mem, r, a) == Translate(sp.s.mem, sp.kernel, a)
    {
      HalfIsIndex(a);
      TopFindAgrees(sp.s.mem, sp.s.alloc.bits, sp.Roots(), r, sp.kernel, PathOf(a));
    }
  }

  /** The level 4 entries that matter to cloning, read off the walks. */
  lemma LevelFour(s: State, roots: set<nat>, kernel: nat)
    requires Ready(s, roots) && kernel in roots
    ensures LowerEmpty(s.mem, kernel) <==> forall i :: 0 <= i < 256 ==> Walk(s.mem, kernel, [i]).None?
    ensures TopFilled(s.mem, kernel) <==> forall i :: 256 <= i < NUM_ENTRIES ==> Walk(s.mem, kernel, [i]).Some?
  {
    assert Walk(s.mem, kernel, []) == Some(kernel);
    assert GoodTable(|s.mem|, 4, s.mem[kernel]);
    forall i: nat | i < NUM_ENTRIES
      ensures Walk(s.mem, kernel, [i]).Some? <==> TargetOf(|s.mem|, 4, s.mem[kernel][i]).Next?
      ensures Walk(s.mem, kernel, [i]).None? <==> s.mem[kernel][i] == EMPTY
    {
      assert [i][..0] == [];
      assert GoodEntry(|s.mem|, 4, s.mem[kernel][i]);
    }
  }

  lemma MapSound(sp: Spaces, op: Op)
    requires Sound(sp) && Legal(sp, op) && op.MapPage?
    ensures Sound(Step(sp, op)) && Isolated(sp, Step(sp, op), Touched(op))
  {
    var p := PathOf(op.page);
    var sp' := Step(sp, op);
    var res := MapTo(sp.s, op.root, p, op.target, op.flags).1;
    HalfIsIndex(op.page);
    assert p[..0] == [];
    MapFromCorrect(sp.s, sp.Roots(), op.root, op.root, 4, p, op.target, op.flags);
    LevelFour(sp.s, sp.Roots(), sp.kernel);
    forall i: nat | i < NUM_ENTRIES
      ensures i < 256 ==> Walk(sp'.s.mem, sp.kernel, [i]).None?
      ensures i >= 256 ==> Walk(sp'.s.mem, sp.kernel, [i]).Some?
    {
      if i < 256 && [i] <= p { assert p[0] == i; }
    }
    LevelFour(sp'.s, sp.Roots(), sp.kernel);
    forall r, a | r in sp.Roots() && r !in Touched(op) && Canonical(a) && !TopHalf(a)
      ensures Translate(sp'.s.mem, r, a) == Translate(sp.s.mem, r, a)
    {
      MapToTranslates(sp.s, sp.Roots(), op.root, op.page, op.target, op.flags, r, a);
    }
  }

  lemma LeafSound(sp: Spaces, s': State)
    requires Sound(sp) && Ready(s', sp.Roots())
    requires forall r, q :: r in sp.Roots() ==> Walk(s'.mem, r, q) == Walk(sp.s.mem, r, q)
    ensures Sound(sp.(s := s'))
  {
    LevelFour(sp.s, sp.Roots(), sp.kernel);
    LevelFour(s', sp.Roots(), sp.kernel);
  }

  lemma UnmapSound(sp: Spaces, op: Op)
    requires Sound(sp) && Legal(sp, op) && op.UnmapPage?
    ensures Sound(Step(sp, op)) && Isolated(sp, Step(sp, op), Touched(op))
  {
    var sp' := Step(sp, op);
    UnmapCorrect(sp.s, sp.Roots(), op.root, PathOf(op.page), op.size, op.free);
    LeafSound(sp, sp'.s);
    forall r, a | r in sp.Roots() && r !in Touched(op) && Canonical(a) && !TopHalf(a)
      ensures Translate(sp'.s.mem, r, a) == Translate(sp.s.mem, r, a)
    {
      UnmapTranslates(sp.s, sp.Roots(), op.root, op.page, op.size, op.free, r, a);
    }
  }

  lemma SetFlagsSound(sp: Spaces, op: Op)
    requires Sound(sp) && Legal(sp, op) && op.ChangeFlags?
    ensures Sound(Step(sp, op)) && Isolated(sp, Step(sp, op), Touched(op))
  {
    var sp' := Step(sp, op);
    SetFlagsCorrect(sp.s, sp.Roots(), op.root, PathOf(op.page), op.flags);
    LeafSound(sp, sp'.s);
    forall r, a | r in sp.Roots() && r !in Touched(op) && Canonical(a) && !TopHalf(a)
      ensures Translate(sp'.s.mem, r, a) == Translate(sp.s.mem, r, a)
    {
      SetFlagsTranslates(sp.s, sp.Roots(), op.root, op.page, op.flags, r, a);
    }
  }

  lemma CloneKeepsSound(sp: Spaces)
    requires Sound(sp)
    ensures Sound(Step(sp, NewClone)) && Isolated(sp, Step(sp, NewClone), {})
  {
    CloneCorrect(sp.s, sp.Roots(), sp.kernel);
    var (s', clone) := CloneTable(sp.s, sp.kernel);
    var sp' := Step(sp, NewClone);
    if clone.Some? {
      assert sp'.Roots() == sp.Roots() + {clone.value};
      LevelFour(sp.s, sp.Roots(), sp.kernel);
      LevelFour(s', sp'.Roots(), sp.kernel);
    }
  }

  lemma StepSound(sp: Spaces, op: Op)
    requires Sound(sp) && Legal(sp, op)
    ensures Sound(Step(sp, op)) && sp.Roots() <= Step(sp, op).Roots()
    ensures Isolated(sp, Step(sp, op), Touched(op))
  {
    match op
    case MapPage(_, _, _, _) => MapSound(sp, op);
    case UnmapPage(_, _, _, _) => UnmapSound(sp, op);
    case ChangeFlags(_, _, _) => SetFlagsSound(sp, op);
    case NewClone => CloneKeepsSound(sp);
  }

  /** No operation panics but cloning, and that exactly when every frame is in use. */
  lemma PanicsWhen(sp: Spaces, op: Op)
    requires Sound(sp) && Legal(sp, op)
    ensures Panics(sp, op) <==> op.NewClone? && AllUsed(sp.s.alloc.bits)
  {
    match op
    case MapPage(root, page, target, flags) =>
      HalfIsIndex(page);
      assert PathOf(page)[..0] == [];
      MapFromCorrect(sp.s, sp.Roots(), root, root, 4, PathOf(page), target, flags);
    case UnmapPage(root, page, size, free) => UnmapCorrect(sp.s, sp.Roots(), root, PathOf(page), size, free);
    case ChangeFlags(root, page, flags) => SetFlagsCorrect(sp.s, sp.Roots(), root, PathOf(page), flags);
    case NewClone =>
      OneFrame(sp.s.alloc);
      CloneCorrect(sp.s, sp.Roots(), sp.kernel);
  }

  /** The states of a run of legal operations, first to last, that no panic has ended.  Legality and steps are defined in
      sound states; that every state is one is proved, not asked. */
  ghost predicate IsRun(states: seq<Spaces>, ops: seq<Op>) {
    && |states| == |ops| + 1
    && Sound(states[0])
    && forall i :: 0 <= i < |ops| && Sound(states[i]) ==>
         Legal(states[i], ops[i]) && !Panics(states[i], ops[i]) && states[i + 1] == Step(states[i], ops[i])
  }

  ghost function TouchedBy(ops: seq<Op>): set<nat> {
    if ops == [] then {} else Touched(ops[0]) + TouchedBy(ops[1..])
  }

  /** Over every run: in the last state all tables agree on the top half, a table that no operation was called on still
      has the lower-half translations it began with, and the next operation panics exactly when it is to clone and no
      frame is left. */
  lemma {:induction false} RunsKeepSpacesApart(states: seq<Spaces>, ops: seq<Op>)
    requires IsRun(states, ops)
    ensures Sound(states[|ops|]) && TopAgrees(states[|ops|])
    ensures states[0].Roots() <= states[|ops|].Roots()
    ensures Isolated(states[0], states[|ops|], TouchedBy(ops))
    ensures forall op | Legal(states[|ops|], op) ::
              Panics(states[|ops|], op) <==> op.NewClone? && AllUsed(states[|ops|].s.alloc.bits)
    decreases |ops|
  {
    hide Panics, AllUsed, Legal;
    if ops == [] {
      SoundAgrees(states[0]);
      forall op | Legal(states[0], op) ensures Panics(states[0], op) <==> op.NewClone? && AllUsed(states[0].s.alloc.bits) {
        PanicsWhen(states[0], op);
      }
    } else {
      StepSound(states[0], ops[0]);
      RunsKeepSpacesApart(states[1..], ops[1..]);
    }
  }

  /** What `clean_up_kernel_page_table` does to a lone kernel table; `None` when it panics for want of a frame. */
  ghost function CleanUp(s: State, kernel: nat): (r: Option<State>)
    requires kernel < |s.mem| && |s.alloc.bits| == |s.mem|
  {
    var (s', ok) := FillFrom(s.(mem := UnmapLowerHalf(s.mem, kernel)), kernel, 256);
    if ok then Some(s') else None
  }

  /** Cleaning up makes the kernel's table sound on its own, with its top-half translations as they were. */
  lemma CleanUpIsSound(s: State, kernel: nat)
    requires Ready(s, {kernel})
    ensures kernel < |s.mem| && |s.alloc.bits| == |s.mem|
    ensures CleanUp(s, kernel).Some? ==>
              var s' := CleanUp(s, kernel).value;
              && Sound(Spaces(s', kernel, {}))
              && forall p: Path :: Find(s'.mem, kernel, 4, p) == if p[0] < 256 then Unmapped else Find(s.mem, kernel, 4, p)
  {
    UnmapLowerHalfCorrect(s, {kernel}, kernel);
    var m := s.(mem := UnmapLowerHalf(s.mem, kernel));
    FillFromCorrect(m, {kernel}, kernel, 256);
    if CleanUp(s, kernel).Some? {
      assert Spaces(CleanUp(s, kernel).value, kernel, {}).Roots() == {kernel};
    }
  }

  /** It panics exactly when there are fewer free frames than absent entries in the top half. */
  lemma CleanUpPanicsWhen(s: State, kernel: nat)
    requires Ready(s, {kernel})
    ensures kernel < |s.mem| && |s.alloc.bits| == |s.mem|
    ensures CleanUp(s, kernel).None? <==> FreeCount(s.alloc.bits) < AbsentFrom(s.mem[kernel], 256)
  {
    hide FreeCount, FillFrom;
    UnmapLowerHalfCorrect(s, {kernel}, kernel);
    var m := s.(mem := UnmapLowerHalf(s.mem, kernel));
    SameAbsent(s.mem[kernel], m.mem[kernel], 256);
    FillsWhen(m, {kernel}, kernel, 256);
  }
}

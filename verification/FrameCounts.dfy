/** How many frames the page tables need: when mapping, filling and cloning find enough of them. */
module FrameCounts {
  import opened Common
  import opened BitmapAlloc
  import opened PageTable
  import opened Mapping
  import opened AddressSpaces

  function FreeCount(bits: seq<bool>): (n: nat) {
    if bits == [] then 0 else FreeCount(bits[..|bits| - 1]) + if bits[|bits| - 1] then 0 else 1
  }

  lemma {:induction false} NoneFree(bits: seq<bool>)
    ensures FreeCount(bits) == 0 <==> forall x :: 0 <= x < |bits| ==> bits[x]
  {
    if bits != [] {
      var init := bits[..|bits| - 1];
      NoneFree(init);
      assert forall x :: 0 <= x < |init| ==> init[x] == bits[x];
    }
  }

  lemma {:induction false} TakenCount(bits: seq<bool>, f: nat)
    requires f < |bits| && !bits[f]
    ensures FreeCount(bits) == FreeCount(bits[f := true]) + 1
  {
    var last := |bits| - 1;
    if f < last {
      assert bits[f := true][..last] == bits[..last][f := true];
      TakenCount(bits[..last], f);
    } else {
      assert bits[f := true][..last] == bits[..last];
    }
  }

  /** A frame is found exactly when one is free, and then there is one fewer. */
  lemma OneFewer(a: Alloc)
    requires HintOk(a)
    ensures var (a', f) := Allocate(a, 1);
            && (f.Some? <==> FreeCount(a.bits) > 0)
            && FreeCount(a'.bits) == FreeCount(a.bits) - if f.Some? then 1 else 0
  {
    hide FreeCount, FirstFit;
    OneFrame(a);
    NoneFree(a.bits);
    var f := Allocate(a, 1).1;
    if f.Some? { TakenCount(a.bits, f.value); }
  }

  // ---------- mapping a page ----------

  /** The frames it takes to map a page that is not mapped: one for each table missing on the way and, unless it is to be
      an existing one, one for the page. */
  function FramesFor(mem: Memory, root: nat, p: Path, target: MapTarget): (n: nat) {
    MissingTables(mem, root, p) + if target.NewPage? then 1 else 0
  }

  function MissingTables(mem: Memory, root: nat, p: Path): (n: nat) {
    Missing(mem, root, p[..1]) + Missing(mem, root, p[..2]) + Missing(mem, root, p[..3])
  }

  function Missing(mem: Memory, root: nat, q: seq<nat>): (n: nat) {
    if Walk(mem, root, q).Some? then 0 else 1
  }

  /** Once one table is missing, so are those below it. */
  lemma MissingBelow(mem: Memory, root: nat, p: Path, k: nat)
    requires k <= 3 && Walk(mem, root, p[..k]).Some?
    requires !TargetOf(|mem|, 4 - k, mem[Walk(mem, root, p[..k]).value][p[k]]).Next?
    ensures MissingTables(mem, root, p) == 3 - k
  {
    AllAbove(mem, root, p, k);
    forall j | k < j <= 3 ensures Walk(mem, root, p[..j]).None? {
      assert p[..k] + [p[k]] == p[..k + 1] && p[..k + 1] <= p[..j];
      DeadEnd(mem, root, p[..k], p[k], p[..j]);
    }
  }

  lemma {:induction false} AllAbove(mem: Memory, root: nat, p: Path, k: nat)
    requires k <= 3 && Walk(mem, root, p[..k]).Some?
    ensures forall j :: 0 <= j <= k ==> Walk(mem, root, p[..j]).Some?
    decreases k
  {
    if k > 0 {
      assert p[..k][..k - 1] == p[..k - 1];
      AllAbove(mem, root, p, k - 1);
    }
  }

  /** The frames that mapping takes from a table on the way on, when the entry there is absent. */
  function FramesBelow(level: nat, target: MapTarget): (n: nat)
    requires level >= 1
  {
    level - if target.NewPage? then 0 else 1
  }

  lemma {:induction false} MapAbsent(
      s: State, roots: set<nat>, root: nat, table: nat, level: nat, p: Path, target: MapTarget, flags: set<Flag>)
    requires Ready(s, roots) && root in roots && 1 <= level <= 4 && HugePage !in flags
    requires Walk(s.mem, root, p[..4 - level]) == Some(table)
    requires TargetOf(|s.mem|, level, s.mem[table][p[4 - level]]).Unmapped?
    requires level == 4 ==> MayMap(s.mem, roots, root, p)
    ensures var (s', res) := MapFrom(s, table, level, p, target, flags);
            var need := FramesBelow(level, target);
            && (res.Mapped? <==> FreeCount(s.alloc.bits) >= need)
            && (res.Mapped? ==> FreeCount(s'.alloc.bits) == FreeCount(s.alloc.bits) - need)
    decreases level
  {
    hide FreeCount, FirstFit, TablesSound, NoAlias, TopShared, Walk, Find, WithChild, Write, SetTarget;
    if level > 1 || target.NewPage? {
      OneFrame(s.alloc);
      OneFewer(s.alloc);
      var (a, f) := Allocate(s.alloc, 1);
      if f.Some? && level > 1 {
        assert level == 4 ==> table == root by { assert p[..0] == []; WalkNowhere(s.mem, root); }
        MapChild(s, roots, root, table, level, p, f.value, ParentFlags(flags));
        var m := State(WithChild(s.mem, table, p[4 - level], f.value, ParentFlags(flags)), a);
        MapAbsent(m, roots, root, f.value, level - 1, p, target, flags);
      }
    }
  }

  lemma {:induction false} MapDown(
      s: State, roots: set<nat>, root: nat, table: nat, level: nat, p: Path, target: MapTarget, flags: set<Flag>)
    requires Ready(s, roots) && root in roots && 1 <= level <= 4 && HugePage !in flags
    requires Walk(s.mem, root, p[..4 - level]) == Some(table) && Find(s.mem, table, level, p).Unmapped?
    requires level == 4 ==> MayMap(s.mem, roots, root, p)
    ensures var (s', res) := MapFrom(s, table, level, p, target, flags);
            var need := FramesFor(s.mem, root, p, target);
            && (res.Mapped? <==> FreeCount(s.alloc.bits) >= need)
            && (res.Mapped? ==> FreeCount(s'.alloc.bits) == FreeCount(s.alloc.bits) - need)
    decreases level
  {
    hide FreeCount, FirstFit, TablesSound, NoAlias, TopShared, Walk, WithChild, Write, SetTarget, MissingTables;
    var target' := TargetOf(|s.mem|, level, s.mem[table][p[4 - level]]);
    if target'.Next? {
      WalkOn(s.mem, root, p, 4 - level);
      MapDown(s, roots, root, target'.table, level - 1, p, target, flags);
    } else {
      MissingBelow(s.mem, root, p, 4 - level);
      MapAbsent(s, roots, root, table, level, p, target, flags);
    }
  }

  /** A page that is not mapped is mapped exactly when there are as many free frames as it takes, and takes that many. */
  lemma MapsWhen(s: State, roots: set<nat>, root: nat, p: Path, target: MapTarget, flags: set<Flag>)
    requires Ready(s, roots) && root in roots && HugePage !in flags && MayMap(s.mem, roots, root, p)
    requires Find(s.mem, root, 4, p).Unmapped?
    ensures var (s', res) := MapTo(s, root, p, target, flags);
            var need := FramesFor(s.mem, root, p, target);
            && (res.Mapped? <==> FreeCount(s.alloc.bits) >= need)
            && (res.Mapped? ==> FreeCount(s'.alloc.bits) == FreeCount(s.alloc.bits) - need)
  {
    assert p[..0] == [];
    WalkNowhere(s.mem, root);
    MapDown(s, roots, root, root, 4, p, target, flags);
  }

  // ---------- filling the top half ----------

  /** The entries of a level 4 table from `i` on that are absent. */
  function AbsentFrom(t: Table, i: nat): (n: nat)
    decreases NUM_ENTRIES - i
  {
    if i >= NUM_ENTRIES then 0 else AbsentFrom(t, i + 1) + if Present in t[i].flags then 0 else 1
  }

  lemma {:induction false} SameAbsent(t: Table, u: Table, i: nat)
    requires forall j :: i <= j < NUM_ENTRIES ==> t[j] == u[j]
    ensures AbsentFrom(t, i) == AbsentFrom(u, i)
    decreases NUM_ENTRIES - i
  {
    if i < NUM_ENTRIES { SameAbsent(t, u, i + 1); }
  }

  /** Filling succeeds exactly when there is a free frame for every absent entry. */
  lemma {:induction false} FillsWhen(s: State, roots: set<nat>, root: nat, i: nat)
    requires Ready(s, roots) && root in roots && Alone(roots, root) && 256 <= i <= NUM_ENTRIES
    ensures FillFrom(s, root, i).1 <==> FreeCount(s.alloc.bits) >= AbsentFrom(s.mem[root], i)
    decreases NUM_ENTRIES - i
  {
    hide FreeCount, FirstFit, Find, TablesSound, NoAlias, TopShared, WithChild, Write, SetFlags, Walk;
    if i < NUM_ENTRIES {
      GoodTopEntry(s, roots, root, i);
      OneFrame(s.alloc);
      OneFewer(s.alloc);
      var (s1, ok) := FillEntry(s, root, i);
      if TargetOf(|s.mem|, 4, s.mem[root][i]).Next? {
        FillExisting(s, roots, root, i);
      } else if ok {
        FillMissing(s, roots, root, i, Allocate(s.alloc, 1).1.value);
      }
      if ok {
        SameAbsent(s.mem[root], s1.mem[root], i + 1);
        FillsWhen(s1, roots, root, i + 1);
      }
    }
  }

  lemma GoodTopEntry(s: State, roots: set<nat>, root: nat, i: nat)
    requires Ready(s, roots) && root in roots && i < NUM_ENTRIES
    ensures GoodEntry(|s.mem|, 4, s.mem[root][i])
    ensures TargetOf(|s.mem|, 4, s.mem[root][i]).Next? <==> Present in s.mem[root][i].flags
  {
    WalkNowhere(s.mem, root);
    assert GoodTable(|s.mem|, 4, s.mem[root]);
  }
}

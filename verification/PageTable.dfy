/**
 Four-level page tables in physical memory, as plain data.

 A 64-bit entry is an address field, kept here as a frame number, and 24 flag bits, kept as a set; the two
 never share a bit.  Physical memory is a sequence of frames of 512 entries.  Several level 4 tables
 (`roots`: the kernel's and its clones) may live in the same memory and share their top halves.
 */
module PageTable {
  import opened Common
  import opened Arithmetic

  const NUM_ENTRIES: nat := 512

  datatype Flag =
    | Present | Writable | UserAccessible | WriteThrough | CacheDisable | Accessed | Dirty
    | HugePage | Global | OsBit(bit: nat) | NoExecute

  datatype Entry = Entry(frame: nat, flags: set<Flag>)

  const EMPTY: Entry := Entry(0, {})

  type Table = t: seq<Entry> | |t| == NUM_ENTRIES witness seq(NUM_ENTRIES, _ => EMPTY)

  /** A freshly zeroed frame. */
  function ZeroTable(): (t: Table)
    ensures forall i :: 0 <= i < NUM_ENTRIES ==> t[i] == EMPTY
  {
    seq(NUM_ENTRIES, _ => EMPTY)
  }

  type Memory = seq<Table>

  datatype PageSize = Size4KiB | Size2MiB | Size1GiB {
    /** The size in frames of 4 KiB. */
    function Frames(): nat {
      match this
      case Size4KiB => 1
      case Size2MiB => 512
      case Size1GiB => 262144
    }
  }

  /** Where an entry leads; `Broken` stands for the panics of `target_inner` and for a table outside memory. */
  datatype Target = Unmapped | Leaf(frame: nat, size: PageSize, flags: set<Flag>) | Next(table: nat) | Broken

  // ---------- entries ----------

  /** Bitwise or of two frame numbers. */
  function BitOr(a: nat, b: nat): (r: nat) {
    if a == 0 then b
    else if b == 0 then a
    else 2 * BitOr(a / 2, b / 2) + if a % 2 == 1 || b % 2 == 1 then 1 else 0
  }

  lemma {:induction false} OrIs(a: nat, b: nat, bit: nat)
    ensures IsSet(BitOr(a, b), bit) <==> IsSet(a, bit) || IsSet(b, bit)
  {
    if a == 0 { NoBits(bit); } else if b == 0 { NoBits(bit); } else if bit > 0 { OrIs(a / 2, b / 2, bit - 1); }
  }

  lemma {:induction false} NoBits(bit: nat)
    ensures !IsSet(0, bit)
  {
    if bit > 0 { NoBits(bit - 1); }
  }

  function SetFlags(e: Entry, flags: set<Flag>): Entry {
    e.(flags := flags)
  }

  /** The source ors the new address into the old one. */
  function SetAddress(e: Entry, frame: nat): Entry {
    e.(frame := BitOr(e.frame, frame))
  }

  function SetTarget(e: Entry, frame: nat, flags: set<Flag>): Entry {
    SetFlags(SetAddress(e, frame), flags + {Present})
  }

  function TargetOf(frames: nat, level: nat, e: Entry): (t: Target)
    requires 1 <= level <= 4
  {
    if Present !in e.flags then Unmapped
    else if HugePage in e.flags then
      var size := if level == 3 then Size1GiB else Size2MiB;
      if (level == 2 || level == 3) && e.frame % size.Frames() == 0 then Leaf(e.frame, size, e.flags) else Broken
    else if level == 1 then Leaf(e.frame, Size4KiB, e.flags)
    else if e.frame < frames then Next(e.frame)
    else Broken
  }

  // ---------- walking ----------

  /** The four indices of a virtual address, level 4 first. */
  type Path = p: seq<nat> | |p| == 4 && forall k :: 0 <= k < 4 ==> p[k] < NUM_ENTRIES witness [0, 0, 0, 0]

  /** The table and level at which walking along `p` from `table` stops: its entry there leads to no other table. */
  function Stop(mem: Memory, table: nat, level: nat, p: Path): (s: (nat, nat))
    requires table < |mem| && 1 <= level <= 4
    ensures s.0 < |mem| && 1 <= s.1 <= level
    ensures !TargetOf(|mem|, s.1, mem[s.0][p[4 - s.1]]).Next?
    decreases level
  {
    var target := TargetOf(|mem|, level, mem[table][p[4 - level]]);
    if target.Next? then Stop(mem, target.table, level - 1, p) else (table, level)
  }

  /** What walking along `p` from `table` finds in the end. */
  function Find(mem: Memory, table: nat, level: nat, p: Path): (t: Target)
    requires table < |mem| && 1 <= level <= 4
    ensures !t.Next?
    decreases level
  {
    match TargetOf(|mem|, level, mem[table][p[4 - level]])
    case Next(table') => Find(mem, table', level - 1, p)
    case target => target
  }

  /** A page that is found is aligned to its size. */
  lemma {:induction false} FoundIsAligned(mem: Memory, table: nat, level: nat, p: Path)
    requires table < |mem| && 1 <= level <= 4
    ensures var t := Find(mem, table, level, p); t.Leaf? ==> t.frame % t.size.Frames() == 0 && Present in t.flags
    decreases level
  {
    var target := TargetOf(|mem|, level, mem[table][p[4 - level]]);
    if target.Next? { FoundIsAligned(mem, target.table, level - 1, p); }
  }

  lemma {:induction false} FindAtStop(mem: Memory, table: nat, level: nat, p: Path)
    requires table < |mem| && 1 <= level <= 4
    ensures var (t, l) := Stop(mem, table, level, p);
            Find(mem, table, level, p) == TargetOf(|mem|, l, mem[t][p[4 - l]])
    decreases level
  {
    var target := TargetOf(|mem|, level, mem[table][p[4 - level]]);
    if target.Next? {
      FindAtStop(mem, target.table, level - 1, p);
    }
  }

  /** The table reached from `root` by the indices `q` (at most three), if every entry on the way leads to a table. */
  function Walk(mem: Memory, root: nat, q: seq<nat>): (t: Option<nat>)
    ensures t.Some? ==> t.value < |mem| && |q| <= 3
    decreases |q|
  {
    if q == [] then (if root < |mem| then Some(root) else None)
    else if |q| > 3 then None
    else
      var last := |q| - 1;
      match Walk(mem, root, q[..last])
      case None => None
      case Some(t) =>
        if q[last] >= NUM_ENTRIES then None else
        match TargetOf(|mem|, 4 - last, mem[t][q[last]])
        case Next(t') => Some(t')
        case _ => None
  }

  // ---------- well-formed memory ----------

  predicate GoodEntry(frames: nat, level: nat, e: Entry)
    requires 1 <= level <= 4
  {
    !TargetOf(frames, level, e).Broken? && (Present !in e.flags ==> e == EMPTY)
  }

  ghost predicate GoodTable(frames: nat, level: nat, t: Table)
    requires 1 <= level <= 4
  {
    forall i :: 0 <= i < NUM_ENTRIES ==> GoodEntry(frames, level, t[i])
  }

  /** A table at path `q` that every root shares: below a top-half entry of the level 4 table. */
  predicate Shared(q: seq<nat>) {
    |q| > 0 && q[0] >= 256
  }

  ghost predicate TablesSound(mem: Memory, used: seq<bool>, roots: set<nat>)
    requires |used| == |mem|
  {
    forall r, q :: r in roots && Walk(mem, r, q).Some? ==>
      used[Walk(mem, r, q).value] && GoodTable(|mem|, 4 - |q|, mem[Walk(mem, r, q).value])
  }

  /** A frame is a table in one place only, apart from the shared top halves. */
  ghost predicate NoAlias(mem: Memory, roots: set<nat>) {
    forall r1, r2, q1, q2 ::
      r1 in roots && r2 in roots && Walk(mem, r1, q1).Some? && Walk(mem, r1, q1) == Walk(mem, r2, q2) ==>
        q1 == q2 && (r1 == r2 || Shared(q1))
  }

  ghost predicate TopShared(mem: Memory, roots: set<nat>)
    requires forall r :: r in roots ==> r < |mem|
  {
    forall r1, r2, i :: r1 in roots && r2 in roots && 256 <= i < NUM_ENTRIES ==> mem[r1][i] == mem[r2][i]
  }

  ghost predicate WellFormed(mem: Memory, used: seq<bool>, roots: set<nat>) {
    && |used| == |mem|
    && (forall r :: r in roots ==> r < |mem|)
    && TablesSound(mem, used, roots)
    && NoAlias(mem, roots)
    && TopShared(mem, roots)
  }

  // ---------- walks and finds ----------

  lemma {:induction false} FindFromWalk(mem: Memory, root: nat, p: Path, k: nat)
    requires root < |mem| && k <= 3 && Walk(mem, root, p[..k]).Some?
    ensures Find(mem, root, 4, p) == Find(mem, Walk(mem, root, p[..k]).value, 4 - k, p)
  {
    if k > 0 {
      assert p[..k][..k - 1] == p[..k - 1];
      FindFromWalk(mem, root, p, k - 1);
    }
  }

  lemma WalkOn(mem: Memory, r: nat, p: Path, k: nat)
    requires k <= 3 && Walk(mem, r, p[..k]).Some?
    ensures var target := TargetOf(|mem|, 4 - k, mem[Walk(mem, r, p[..k]).value][p[k]]);
            target.Next? ==> k <= 2 && Walk(mem, r, p[..k + 1]) == Some(target.table)
  {
    assert p[..k + 1][..k] == p[..k];
  }

  /** The table where a walk stops is the one its own indices lead to. */
  lemma {:induction false} StopIsWalked(mem: Memory, root: nat, p: Path, table: nat, level: nat)
    requires 1 <= level <= 4 && Walk(mem, root, p[..4 - level]) == Some(table)
    ensures var (t, l) := Stop(mem, table, level, p); Walk(mem, root, p[..4 - l]) == Some(t)
    decreases level
  {
    hide Walk;
    var target := TargetOf(|mem|, level, mem[table][p[4 - level]]);
    if target.Next? {
      WalkOn(mem, root, p, 4 - level);
      StopIsWalked(mem, root, p, target.table, level - 1);
    }
  }

  lemma {:induction false} SharedWalk(mem: Memory, used: seq<bool>, roots: set<nat>, r1: nat, r2: nat, q: seq<nat>)
    requires WellFormed(mem, used, roots) && r1 in roots && r2 in roots && Shared(q)
    ensures Walk(mem, r1, q) == Walk(mem, r2, q)
    decreases |q|
  {
    if 1 < |q| <= 3 {
      SharedWalk(mem, used, roots, r1, r2, q[..|q| - 1]);
    }
  }

  // ---------- writing one entry ----------

  function Write(mem: Memory, table: nat, i: nat, e: Entry): (mem': Memory)
    requires table < |mem| && i < NUM_ENTRIES
    ensures |mem'| == |mem|
  {
    mem[table := mem[table][i := e]]
  }

  /** Does root `r` see, along `q0`, the same table as `r0` does? */
  predicate Sees(r: nat, r0: nat, q0: seq<nat>) {
    r == r0 || Shared(q0)
  }

  /** Two roots find the same table in two places only where `NoAlias` lets them. */
  lemma SameTable(mem: Memory, roots: set<nat>, r0: nat, q0: seq<nat>, r: nat, q: seq<nat>)
    requires NoAlias(mem, roots) && r0 in roots && r in roots
    requires Walk(mem, r, q).Some? && Walk(mem, r, q) == Walk(mem, r0, q0)
    ensures q == q0 && Sees(r, r0, q0)
  {
  }

  /** Writing entry `i` of the table at `q0` leaves the entry at `q + [j]` alone, unless it is the same entry. */
  lemma EntryFrame(
      mem: Memory, roots: set<nat>, r0: nat, q0: seq<nat>, i: nat, e: Entry, r: nat, q: seq<nat>, j: nat)
    requires NoAlias(mem, roots) && r0 in roots && r in roots
    requires Walk(mem, r0, q0).Some? && Walk(mem, r, q).Some? && i < NUM_ENTRIES && j < NUM_ENTRIES
    requires !(Sees(r, r0, q0) && q0 + [i] == q + [j])
    ensures var t := Walk(mem, r, q).value;
            Write(mem, Walk(mem, r0, q0).value, i, e)[t][j] == mem[t][j]
  {
    if Walk(mem, r, q) == Walk(mem, r0, q0) {
      SameTable(mem, roots, r0, q0, r, q);
    }
  }

  /** Writing entry `i` of the table at `q0` changes no walk except those through that entry. */
  lemma {:induction false} WalkFrame(
      mem: Memory, roots: set<nat>, r0: nat, q0: seq<nat>, i: nat, e: Entry, r: nat, q: seq<nat>)
    requires NoAlias(mem, roots) && r0 in roots && r in roots
    requires Walk(mem, r0, q0).Some? && i < NUM_ENTRIES
    requires !(Sees(r, r0, q0) && q0 + [i] <= q)
    ensures Walk(Write(mem, Walk(mem, r0, q0).value, i, e), r, q) == Walk(mem, r, q)
    decreases |q|
  {
    if 0 < |q| <= 3 {
      var init, j := q[..|q| - 1], q[|q| - 1];
      assert q == init + [j];
      WalkFrame(mem, roots, r0, q0, i, e, r, init);
      if Walk(mem, r, init).Some? && j < NUM_ENTRIES {
        EntryFrame(mem, roots, r0, q0, i, e, r, init, j);
      }
    }
  }

  lemma {:induction false} FindFrame(
      mem: Memory, roots: set<nat>, r0: nat, q0: seq<nat>, i: nat, e: Entry, r: nat, p: Path, k: nat)
    requires NoAlias(mem, roots) && r0 in roots && r in roots
    requires Walk(mem, r0, q0).Some? && i < NUM_ENTRIES
    requires !(Sees(r, r0, q0) && q0 + [i] == p[..|q0| + 1])
    requires k <= 3 && Walk(mem, r, p[..k]).Some?
    ensures var t := Walk(mem, r, p[..k]).value;
            Find(Write(mem, Walk(mem, r0, q0).value, i, e), t, 4 - k, p) == Find(mem, t, 4 - k, p)
    decreases 3 - k
  {
    hide Walk, NoAlias;
    var t := Walk(mem, r, p[..k]).value;
    assert p[..k + 1] == p[..k] + [p[k]];
    if q0 + [i] == p[..k] + [p[k]] { assert |q0| == k; }
    EntryFrame(mem, roots, r0, q0, i, e, r, p[..k], p[k]);
    var target := TargetOf(|mem|, 4 - k, mem[t][p[k]]);
    if target.Next? {
      WalkOn(mem, r, p, k);
      FindFrame(mem, roots, r0, q0, i, e, r, p, k + 1);
    }
  }

  /** No walk goes through an entry that leads to no table. */
  lemma {:induction false} DeadEnd(mem: Memory, r: nat, q0: seq<nat>, i: nat, q: seq<nat>)
    requires q0 + [i] <= q
    requires |q0| <= 3 && (Walk(mem, r, q0).Some? && i < NUM_ENTRIES ==>
      !TargetOf(|mem|, 4 - |q0|, mem[Walk(mem, r, q0).value][i]).Next?)
    ensures Walk(mem, r, q).None?
    decreases |q|
  {
    var init := q[..|q| - 1];
    if |q| == |q0| + 1 {
      assert init == q0 && q[|q| - 1] == i;
    } else {
      DeadEnd(mem, r, q0, i, init);
    }
  }

  /** Finding along a path goes on from the entry at the end of a walk. */
  lemma FindThrough(mem: Memory, r: nat, q0: seq<nat>, i: nat, p: Path)
    requires |q0| <= 3 && q0 + [i] == p[..|q0| + 1]
    requires i < NUM_ENTRIES && Walk(mem, r, q0).Some?
    ensures var target := TargetOf(|mem|, 4 - |q0|, mem[Walk(mem, r, q0).value][i]);
            r < |mem| && Find(mem, r, 4, p) == if target.Next? then Find(mem, target.table, 3 - |q0|, p) else target
  {
    hide Walk;
    var n := |q0|;
    assert p[..n] == p[..n + 1][..n] == (q0 + [i])[..n] == q0;
    assert p[n] == p[..n + 1][n] == (q0 + [i])[n] == i;
    RootInMemory(mem, r, q0);
    FindFromWalk(mem, r, p, |q0|);
  }

  /** What a root sees of the written entry, once the walk to it is known to be unchanged. */
  lemma FindWritten(mem: Memory, r: nat, q0: seq<nat>, i: nat, p: Path)
    requires |q0| <= 3 && q0 + [i] == p[..|q0| + 1]
    requires i < NUM_ENTRIES && Walk(mem, r, q0).Some?
    requires !TargetOf(|mem|, 4 - |q0|, mem[Walk(mem, r, q0).value][i]).Next?
    ensures r < |mem| && Find(mem, r, 4, p) == TargetOf(|mem|, 4 - |q0|, mem[Walk(mem, r, q0).value][i])
  {
    FindThrough(mem, r, q0, i, p);
  }

  lemma {:induction false} RootInMemory(mem: Memory, r: nat, q: seq<nat>)
    requires Walk(mem, r, q).Some?
    ensures r < |mem|
    decreases |q|
  {
    if q != [] { RootInMemory(mem, r, q[..|q| - 1]); }
  }

  /** The write condition shared by mapping a page, changing its flags and unmapping it. */
  ghost predicate LeafSlot(mem: Memory, roots: set<nat>, r0: nat, q0: seq<nat>, i: nat, e: Entry) {
    && r0 in roots && Walk(mem, r0, q0).Some? && 1 <= |q0| && i < NUM_ENTRIES
    && !TargetOf(|mem|, 4 - |q0|, mem[Walk(mem, r0, q0).value][i]).Next?
    && !TargetOf(|mem|, 4 - |q0|, e).Next?
    && GoodEntry(|mem|, 4 - |q0|, e)
  }

  lemma LeafWriteWalk(
      mem: Memory, used: seq<bool>, roots: set<nat>, r0: nat, q0: seq<nat>, i: nat, e: Entry, r: nat, q: seq<nat>)
    requires WellFormed(mem, used, roots) && LeafSlot(mem, roots, r0, q0, i, e) && r in roots
    ensures Walk(Write(mem, Walk(mem, r0, q0).value, i, e), r, q) == Walk(mem, r, q)
  {
    var mem' := Write(mem, Walk(mem, r0, q0).value, i, e);
    if Sees(r, r0, q0) && q0 + [i] <= q {
      if r != r0 { SharedWalk(mem, used, roots, r, r0, q0); }
      DeadEnd(mem, r, q0, i, q);
      WalkFrame(mem, roots, r0, q0, i, e, r, q0);
      DeadEnd(mem', r, q0, i, q);
    } else {
      WalkFrame(mem, roots, r0, q0, i, e, r, q);
    }
  }

  /** What any entry, good or not, written at the end of a walk makes every root find. */
  lemma EntryWriteFind(
      mem: Memory, used: seq<bool>, roots: set<nat>, r0: nat, q0: seq<nat>, i: nat, e: Entry, r: nat, p: Path)
    requires WellFormed(mem, used, roots) && r0 in roots && r in roots
    requires Walk(mem, r0, q0).Some? && 1 <= |q0| && i < NUM_ENTRIES
    ensures var mem' := Write(mem, Walk(mem, r0, q0).value, i, e);
            var target := TargetOf(|mem|, 4 - |q0|, e);
            Find(mem', r, 4, p) ==
              if !(Sees(r, r0, q0) && q0 + [i] == p[..|q0| + 1]) then Find(mem, r, 4, p)
              else if target.Next? then Find(mem', target.table, 3 - |q0|, p)
              else target
  {
    hide TablesSound, NoAlias, TopShared, Find, Walk;
    var mem' := Write(mem, Walk(mem, r0, q0).value, i, e);
    if Sees(r, r0, q0) && q0 + [i] == p[..|q0| + 1] {
      if r != r0 { SharedWalk(mem, used, roots, r, r0, q0); }
      WalkFrame(mem, roots, r0, q0, i, e, r, q0);
      FindThrough(mem', r, q0, i, p);
    } else {
      assert p[..0] == [];
      WalkNowhere(mem, r);
      FindFrame(mem, roots, r0, q0, i, e, r, p, 0);
    }
  }

  lemma LeafWriteFind(
      mem: Memory, used: seq<bool>, roots: set<nat>, r0: nat, q0: seq<nat>, i: nat, e: Entry, r: nat, p: Path)
    requires WellFormed(mem, used, roots) && LeafSlot(mem, roots, r0, q0, i, e) && r in roots
    ensures Find(Write(mem, Walk(mem, r0, q0).value, i, e), r, 4, p) ==
            if Sees(r, r0, q0) && q0 + [i] == p[..|q0| + 1] then TargetOf(|mem|, 4 - |q0|, e) else Find(mem, r, 4, p)
  {
    hide Find, Walk, TablesSound, NoAlias, TopShared;
    EntryWriteFind(mem, used, roots, r0, q0, i, e, r, p);
  }

  lemma WalkNowhere(mem: Memory, r: nat)
    requires r < |mem|
    ensures Walk(mem, r, []) == Some(r)
  {
  }

  lemma SameWalksNoAlias(mem: Memory, mem': Memory, roots: set<nat>)
    requires NoAlias(mem, roots)
    requires forall r, q :: r in roots ==> Walk(mem', r, q) == Walk(mem, r, q)
    ensures NoAlias(mem', roots)
  {
  }

  /** A written table stays good, and no root but a written one changes. */
  lemma LeafWriteTables(
      mem: Memory, used: seq<bool>, roots: set<nat>, r0: nat, q0: seq<nat>, i: nat, e: Entry, r: nat, q: seq<nat>)
    requires WellFormed(mem, used, roots) && LeafSlot(mem, roots, r0, q0, i, e) && r in roots
    requires Walk(mem, r, q).Some?
    ensures GoodTable(|mem|, 4 - |q|, Write(mem, Walk(mem, r0, q0).value, i, e)[Walk(mem, r, q).value])
    ensures Write(mem, Walk(mem, r0, q0).value, i, e)[r] == mem[r]
  {
    var t := Walk(mem, r0, q0).value;
    assert GoodTable(|mem|, 4 - |q|, mem[Walk(mem, r, q).value]);
    if Walk(mem, r, q) == Some(t) { SameTable(mem, roots, r0, q0, r, q); }
    assert Walk(mem, r, []) == Some(r);
    if r == t { SameTable(mem, roots, r0, q0, r, []); }
  }

  lemma LeafWriteKeeps(mem: Memory, used: seq<bool>, roots: set<nat>, r0: nat, q0: seq<nat>, i: nat, e: Entry)
    requires WellFormed(mem, used, roots) && LeafSlot(mem, roots, r0, q0, i, e)
    ensures WellFormed(Write(mem, Walk(mem, r0, q0).value, i, e), used, roots)
    ensures forall r, q :: r in roots ==> Walk(Write(mem, Walk(mem, r0, q0).value, i, e), r, q) == Walk(mem, r, q)
  {
    var mem' := Write(mem, Walk(mem, r0, q0).value, i, e);
    forall r, q | r in roots ensures Walk(mem', r, q) == Walk(mem, r, q) {
      LeafWriteWalk(mem, used, roots, r0, q0, i, e, r, q);
    }
    SameWalksNoAlias(mem, mem', roots);
    forall r, q | r in roots && Walk(mem', r, q).Some?
      ensures used[Walk(mem', r, q).value] && GoodTable(|mem'|, 4 - |q|, mem'[Walk(mem', r, q).value])
    {
      LeafWriteTables(mem, used, roots, r0, q0, i, e, r, q);
    }
    forall r | r in roots ensures mem'[r] == mem[r] {
      assert Walk(mem, r, []).Some?;
      LeafWriteTables(mem, used, roots, r0, q0, i, e, r, []);
    }
  }

  // ---------- adding a table ----------

  /** Writing a free frame touches nothing that can be reached. */
  lemma {:induction false} FreshWalk(
      mem: Memory, used: seq<bool>, roots: set<nat>, f: nat, content: Table, r: nat, q: seq<nat>)
    requires WellFormed(mem, used, roots) && f < |mem| && !used[f] && r in roots
    ensures Walk(mem[f := content], r, q) == Walk(mem, r, q)
    decreases |q|
  {
    if 0 < |q| <= 3 {
      FreshWalk(mem, used, roots, f, content, r, q[..|q| - 1]);
    }
  }

  lemma {:induction false} FreshFind(
      mem: Memory, used: seq<bool>, roots: set<nat>, f: nat, content: Table, r: nat, p: Path, k: nat)
    requires WellFormed(mem, used, roots) && f < |mem| && !used[f] && r in roots
    requires k <= 3 && Walk(mem, r, p[..k]).Some?
    ensures var t := Walk(mem, r, p[..k]).value;
            Find(mem[f := content], t, 4 - k, p) == Find(mem, t, 4 - k, p)
    decreases 3 - k
  {
    var t := Walk(mem, r, p[..k]).value;
    var target := TargetOf(|mem|, 4 - k, mem[t][p[k]]);
    if target.Next? {
      assert p[..k + 1][..k] == p[..k];
      FreshFind(mem, used, roots, f, content, r, p, k + 1);
    }
  }

  lemma FreshKeeps(mem: Memory, used: seq<bool>, roots: set<nat>, f: nat, content: Table)
    requires WellFormed(mem, used, roots) && f < |mem| && !used[f]
    ensures WellFormed(mem[f := content], used, roots)
    ensures forall r, q :: r in roots ==> Walk(mem[f := content], r, q) == Walk(mem, r, q)
    ensures forall r, p: Path :: r in roots ==> Find(mem[f := content], r, 4, p) == Find(mem, r, 4, p)
  {
    var mem' := mem[f := content];
    forall r, q | r in roots ensures Walk(mem', r, q) == Walk(mem, r, q) {
      FreshWalk(mem, used, roots, f, content, r, q);
    }
    SameWalksNoAlias(mem, mem', roots);
    forall r | r in roots ensures mem'[r] == mem[r] {
      assert Walk(mem, r, []).Some?;
    }
    forall r, p: Path | r in roots ensures Find(mem', r, 4, p) == Find(mem, r, 4, p) {
      assert p[..0] == [];
      FreshFind(mem, used, roots, f, content, r, p, 0);
    }
  }

  ghost predicate Alone(roots: set<nat>, r0: nat) {
    forall r :: r in roots ==> r == r0
  }

  /** An absent entry that may receive a new table `f`: a top-half entry of a level 4 table only while it is alone. */
  ghost predicate ChildSlot(
      mem: Memory, used: seq<bool>, roots: set<nat>, r0: nat, q0: seq<nat>, i: nat, f: nat, flags: set<Flag>)
  {
    && WellFormed(mem, used, roots) && r0 in roots && |q0| <= 2 && i < NUM_ENTRIES
    && Walk(mem, r0, q0).Some? && mem[Walk(mem, r0, q0).value][i] == EMPTY
    && f < |mem| && !used[f] && mem[f] == ZeroTable() && HugePage !in flags
    && (q0 != [] || i < 256 || Alone(roots, r0))
  }

  ghost function AddChild(mem: Memory, r0: nat, q0: seq<nat>, i: nat, f: nat, flags: set<Flag>): (mem': Memory)
    requires Walk(mem, r0, q0).Some? && i < NUM_ENTRIES
    ensures |mem'| == |mem|
  {
    Write(mem, Walk(mem, r0, q0).value, i, Entry(f, flags + {Present}))
  }

  lemma ChildWalk(
      mem: Memory, used: seq<bool>, roots: set<nat>, r0: nat, q0: seq<nat>, i: nat, f: nat, flags: set<Flag>,
      r: nat, q: seq<nat>)
    requires ChildSlot(mem, used, roots, r0, q0, i, f, flags) && r in roots
    ensures Walk(AddChild(mem, r0, q0, i, f, flags), r, q) ==
            if Sees(r, r0, q0) && q0 + [i] <= q then (if q == q0 + [i] then Some(f) else None) else Walk(mem, r, q)
  {
    var e := Entry(f, flags + {Present});
    var mem' := AddChild(mem, r0, q0, i, f, flags);
    if Sees(r, r0, q0) && q0 + [i] <= q {
      if r != r0 { SharedWalk(mem, used, roots, r, r0, q0); }
      WalkFrame(mem, roots, r0, q0, i, e, r, q0);
      assert (q0 + [i])[..|q0|] == q0;
      assert Walk(mem', r, q0 + [i]) == Some(f);
      if q != q0 + [i] {
        var j := q[|q0| + 1];
        assert mem'[f] == ZeroTable();
        DeadEnd(mem', r, q0 + [i], j, q);
      }
    } else {
      WalkFrame(mem, roots, r0, q0, i, e, r, q);
    }
  }

  lemma ChildIsEmpty(
      mem: Memory, used: seq<bool>, roots: set<nat>, r0: nat, q0: seq<nat>, i: nat, f: nat, flags: set<Flag>)
    requires ChildSlot(mem, used, roots, r0, q0, i, f, flags)
    ensures AddChild(mem, r0, q0, i, f, flags)[f] == ZeroTable()
  {
  }

  lemma ChildFind(
      mem: Memory, used: seq<bool>, roots: set<nat>, r0: nat, q0: seq<nat>, i: nat, f: nat, flags: set<Flag>,
      r: nat, p: Path)
    requires ChildSlot(mem, used, roots, r0, q0, i, f, flags) && r in roots
    ensures Find(AddChild(mem, r0, q0, i, f, flags), r, 4, p) == Find(mem, r, 4, p)
  {
    hide Find, TablesSound, NoAlias, TopShared;
    var e := Entry(f, flags + {Present});
    var mem' := AddChild(mem, r0, q0, i, f, flags);
    if Sees(r, r0, q0) && q0 + [i] == p[..|q0| + 1] {
      if r != r0 { SharedWalk(mem, used, roots, r, r0, q0); }
      FindWritten(mem, r, q0, i, p);
      ChildWalk(mem, used, roots, r0, q0, i, f, flags, r, q0 + [i]);
      var j := p[|q0| + 1];
      assert q0 + [i] + [j] == p[..|q0| + 2];
      ChildIsEmpty(mem, used, roots, r0, q0, i, f, flags);
      FindWritten(mem', r, q0 + [i], j, p);
    } else {
      assert p[..0] == [];
      FindFrame(mem, roots, r0, q0, i, e, r, p, 0);
    }
  }

  lemma ChildNoAlias(
      mem: Memory, used: seq<bool>, roots: set<nat>, r0: nat, q0: seq<nat>, i: nat, f: nat, flags: set<Flag>)
    requires ChildSlot(mem, used, roots, r0, q0, i, f, flags)
    ensures NoAlias(AddChild(mem, r0, q0, i, f, flags), roots)
  {
    hide Walk, AddChild, TopShared;
    var mem' := AddChild(mem, r0, q0, i, f, flags);
    forall r1, r2, q1, q2 | r1 in roots && r2 in roots && Walk(mem', r1, q1).Some? && Walk(mem', r1, q1) == Walk(mem', r2, q2)
      ensures q1 == q2 && (r1 == r2 || Shared(q1))
    {
      ChildWalk(mem, used, roots, r0, q0, i, f, flags, r1, q1);
      ChildWalk(mem, used, roots, r0, q0, i, f, flags, r2, q2);
    }
  }

  lemma ChildTables(
      mem: Memory, used: seq<bool>, roots: set<nat>, r0: nat, q0: seq<nat>, i: nat, f: nat, flags: set<Flag>,
      r: nat, q: seq<nat>)
    requires ChildSlot(mem, used, roots, r0, q0, i, f, flags) && r in roots
    requires Walk(AddChild(mem, r0, q0, i, f, flags), r, q).Some?
    ensures var mem' := AddChild(mem, r0, q0, i, f, flags);
            var t := Walk(mem', r, q).value;
            used[f := true][t] && GoodTable(|mem|, 4 - |q|, mem'[t])
  {
    var mem' := AddChild(mem, r0, q0, i, f, flags);
    var t := Walk(mem', r, q).value;
    ChildWalk(mem, used, roots, r0, q0, i, f, flags, r, q);
    if t != f {
      assert GoodTable(|mem|, 4 - |q|, mem[t]);
      if Walk(mem, r, q) == Walk(mem, r0, q0) { SameTable(mem, roots, r0, q0, r, q); }
    }
  }

  lemma ChildKeeps(
      mem: Memory, used: seq<bool>, roots: set<nat>, r0: nat, q0: seq<nat>, i: nat, f: nat, flags: set<Flag>)
    requires ChildSlot(mem, used, roots, r0, q0, i, f, flags)
    ensures WellFormed(AddChild(mem, r0, q0, i, f, flags), used[f := true], roots)
  {
    var mem' := AddChild(mem, r0, q0, i, f, flags);
    ChildNoAlias(mem, used, roots, r0, q0, i, f, flags);
    forall r, q | r in roots && Walk(mem', r, q).Some?
      ensures used[f := true][Walk(mem', r, q).value] && GoodTable(|mem'|, 4 - |q|, mem'[Walk(mem', r, q).value])
    {
      ChildTables(mem, used, roots, r0, q0, i, f, flags, r, q);
    }
    forall r, j | r in roots && 256 <= j < NUM_ENTRIES && !Alone(roots, r0) ensures mem'[r][j] == mem[r][j] {
      assert Walk(mem, r, []) == Some(r);
      if r == Walk(mem, r0, q0).value { SameTable(mem, roots, r0, q0, r, []); }
    }
  }
}

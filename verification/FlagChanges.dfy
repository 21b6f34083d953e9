/** Which flags `set_flags` may be given: when the page stays a page, and when the tables stay sound. */
module FlagChanges {
  import opened Common
  import opened PageTable
  import opened Mapping

  // ---------- when the page stays a page ----------

  lemma {:induction false} SmallerBelow(mem: Memory, table: nat, level: nat, p: Path)
    requires table < |mem| && 1 <= level <= 2
    ensures var t := Find(mem, table, level, p); t.Leaf? ==> t.size != Size1GiB && (level == 1 ==> t.size == Size4KiB)
    decreases level
  {
    var target := TargetOf(|mem|, level, mem[table][p[4 - level]]);
    if target.Next? { SmallerBelow(mem, target.table, level - 1, p); }
  }

  /** The page is still there, of the same size and on the same frame, if and only if the flags fit it. */
  lemma SetFlagsKeepsPageWhen(s: State, roots: set<nat>, root: nat, p: Path, flags: set<Flag>)
    requires Ready(s, roots) && root in roots && Find(s.mem, root, 4, p).Leaf?
    ensures var s' := SetPageFlags(s, root, p, flags).0;
            var was := Find(s.mem, root, 4, p);
            |s'.mem| == |s.mem| && (Find(s'.mem, root, 4, p) == was.(flags := flags) <==> FlagsFit(flags, was.size))
  {
    hide Find, Walk, TablesSound, NoAlias, TopShared, SetPageFlags;
    SetFlagsCorrect(s, roots, root, p, flags);
    var was, mem' := Find(s.mem, root, 4, p), SetPageFlags(s, root, p, flags).0.mem;
    if was.size != Size4KiB && was.frame < |mem'| {
      SmallerBelow(mem', was.frame, 4 - PrefixLen(was.size), p);
    }
  }

  // ---------- a page taken for a table ----------

  /** The frame could be a table of the given level, the first or the second, that nothing leads to yet: it and every
      table its entries lead to are in use and good, none of them is a table already, and no two of them are the same. */
  ghost predicate ReadsAsTable(mem: Memory, used: seq<bool>, roots: set<nat>, f: nat, level: nat)
    requires 1 <= level <= 2 && |used| == |mem|
  {
    && f < |mem| && used[f] && !IsTable(mem, roots, f) && GoodTable(|mem|, level, mem[f])
    && (forall j :: 0 <= j < NUM_ENTRIES && Leads(mem, f, level, j) ==> var g := mem[f][j].frame;
          g != f && used[g] && !IsTable(mem, roots, g) && GoodTable(|mem|, 1, mem[g]))
    && forall j, k :: 0 <= j < k < NUM_ENTRIES && Leads(mem, f, level, j) && Leads(mem, f, level, k) ==>
         mem[f][j].frame != mem[f][k].frame
  }

  /** Entry `j` of the frame leads to a table. */
  predicate Leads(mem: Memory, f: nat, level: nat, j: nat): (b: bool)
    requires 1 <= level <= 2 && f < |mem| && j < NUM_ENTRIES
    ensures b ==> level == 2 && mem[f][j].frame < |mem|
  {
    TargetOf(|mem|, level, mem[f][j]).Next?
  }

  /** The entry of a large page that is about to lead to the page's first frame instead. */
  ghost predicate GraftSlot(mem: Memory, used: seq<bool>, roots: set<nat>, r0: nat, q0: seq<nat>, i: nat, e: Entry) {
    && WellFormed(mem, used, roots) && r0 in roots && 1 <= |q0| <= 2 && i < NUM_ENTRIES
    && Walk(mem, r0, q0).Some? && TargetOf(|mem|, 4 - |q0|, mem[Walk(mem, r0, q0).value][i]).Leaf?
    && Present in e.flags && HugePage !in e.flags
  }

  ghost function Grafted(mem: Memory, r0: nat, q0: seq<nat>, i: nat, e: Entry): (mem': Memory)
    requires Walk(mem, r0, q0).Some? && i < NUM_ENTRIES
    ensures |mem'| == |mem|
  {
    Write(mem, Walk(mem, r0, q0).value, i, e)
  }

  /** Walks that do not go through the entry are as they were; no walk went through it. */
  lemma GraftElsewhere(
      mem: Memory, used: seq<bool>, roots: set<nat>, r0: nat, q0: seq<nat>, i: nat, e: Entry, r: nat, q: seq<nat>)
    requires GraftSlot(mem, used, roots, r0, q0, i, e) && r in roots
    ensures if Sees(r, r0, q0) && q0 + [i] <= q then Walk(mem, r, q).None?
            else Walk(Grafted(mem, r0, q0, i, e), r, q) == Walk(mem, r, q)
  {
    hide TablesSound, NoAlias, TopShared;
    if Sees(r, r0, q0) && q0 + [i] <= q {
      if r != r0 { SharedWalk(mem, used, roots, r, r0, q0); }
      DeadEnd(mem, r, q0, i, q);
    } else {
      WalkFrame(mem, roots, r0, q0, i, e, r, q);
    }
  }

  /** Walks through the entry: to the frame, and from it to what its entries lead to. */
  lemma GraftBelow(
      mem: Memory, used: seq<bool>, roots: set<nat>, r0: nat, q0: seq<nat>, i: nat, e: Entry, r: nat, q: seq<nat>)
    requires GraftSlot(mem, used, roots, r0, q0, i, e) && r in roots && Sees(r, r0, q0) && e.frame < |mem|
    requires q0 + [i] <= q
    ensures var mem' := Grafted(mem, r0, q0, i, e);
            Walk(mem', r, q) ==
              if q == q0 + [i] then Some(e.frame)
              else if |q| == |q0| + 2 && q[|q0| + 1] < NUM_ENTRIES && Leads(mem', e.frame, 3 - |q0|, q[|q0| + 1])
              then Some(mem'[e.frame][q[|q0| + 1]].frame)
              else None
  {
    hide TablesSound, NoAlias, TopShared;
    var mem' := Grafted(mem, r0, q0, i, e);
    if r != r0 { SharedWalk(mem, used, roots, r, r0, q0); }
    WalkFrame(mem, roots, r0, q0, i, e, r, q0);
    assert (q0 + [i])[..|q0|] == q0;
    assert Walk(mem', r, q0 + [i]) == Some(e.frame);
    if |q| == |q0| + 2 {
      assert q[..|q0| + 1] == q0 + [i];
    } else if |q| == |q0| + 3 {
      assert |q| > 3 || |q0| == 1;
    }
  }

  // ---------- when the tables stay sound ----------

  /** What the new tables are: the frame, and what its entries lead to. */
  lemma GraftNew(
      mem: Memory, used: seq<bool>, roots: set<nat>, r0: nat, q0: seq<nat>, i: nat, e: Entry, r: nat, q: seq<nat>)
    requires GraftSlot(mem, used, roots, r0, q0, i, e) && r in roots
    requires ReadsAsTable(mem, used, roots, e.frame, 3 - |q0|)
    ensures var w := Walk(Grafted(mem, r0, q0, i, e), r, q);
            if !(Sees(r, r0, q0) && q0 + [i] <= q) then w == Walk(mem, r, q)
            else if q == q0 + [i] then w == Some(e.frame)
            else if w.Some? then
              && |q| == |q0| + 2 && |q0| == 1 && q[2] < NUM_ENTRIES && Leads(mem, e.frame, 2, q[2])
              && w.value == mem[e.frame][q[2]].frame
            else true
    ensures Grafted(mem, r0, q0, i, e)[e.frame] == mem[e.frame]
  {
    hide TablesSound, NoAlias, TopShared, Walk, GoodTable;
    var t := Walk(mem, r0, q0).value;
    assert t != e.frame by { assert !IsTable(mem, roots, e.frame); }
    if Sees(r, r0, q0) && q0 + [i] <= q {
      GraftBelow(mem, used, roots, r0, q0, i, e, r, q);
    } else {
      GraftElsewhere(mem, used, roots, r0, q0, i, e, r, q);
    }
  }

  lemma GraftNoAlias(mem: Memory, used: seq<bool>, roots: set<nat>, r0: nat, q0: seq<nat>, i: nat, e: Entry)
    requires GraftSlot(mem, used, roots, r0, q0, i, e) && ReadsAsTable(mem, used, roots, e.frame, 3 - |q0|)
    ensures NoAlias(Grafted(mem, r0, q0, i, e), roots)
  {
    hide Walk, Grafted, TablesSound, TopShared, GoodTable;
    var mem' := Grafted(mem, r0, q0, i, e);
    forall r1, r2, q1, q2 |
        r1 in roots && r2 in roots && Walk(mem', r1, q1).Some? && Walk(mem', r1, q1) == Walk(mem', r2, q2)
      ensures q1 == q2 && (r1 == r2 || Shared(q1))
    {
      GraftNew(mem, used, roots, r0, q0, i, e, r1, q1);
      GraftNew(mem, used, roots, r0, q0, i, e, r2, q2);
    }
  }

  lemma GraftTables(
      mem: Memory, used: seq<bool>, roots: set<nat>, r0: nat, q0: seq<nat>, i: nat, e: Entry, r: nat, q: seq<nat>)
    requires GraftSlot(mem, used, roots, r0, q0, i, e) && r in roots
    requires ReadsAsTable(mem, used, roots, e.frame, 3 - |q0|) && Walk(Grafted(mem, r0, q0, i, e), r, q).Some?
    ensures var mem' := Grafted(mem, r0, q0, i, e);
            var t := Walk(mem', r, q).value;
            |q| <= 3 && used[t] && GoodTable(|mem|, 4 - |q|, mem'[t])
  {
    hide Walk, NoAlias, TopShared;
    GraftNew(mem, used, roots, r0, q0, i, e, r, q);
    var mem', t0 := Grafted(mem, r0, q0, i, e), Walk(mem, r0, q0).value;
    var t := Walk(mem', r, q).value;
    if Sees(r, r0, q0) && q0 + [i] <= q {
      assert IsTable(mem, roots, t0);
      assert t != t0;
    } else {
      assert GoodTable(|mem|, 4 - |q|, mem[t]);
      if t == t0 { SameTable(mem, roots, r0, q0, r, q); }
    }
  }

  /** If the frame could be a table, the tables stay sound with it as one. */
  lemma GraftKeeps(mem: Memory, used: seq<bool>, roots: set<nat>, r0: nat, q0: seq<nat>, i: nat, e: Entry)
    requires GraftSlot(mem, used, roots, r0, q0, i, e) && ReadsAsTable(mem, used, roots, e.frame, 3 - |q0|)
    ensures WellFormed(Grafted(mem, r0, q0, i, e), used, roots)
  {
    hide ReadsAsTable, GoodTable, Find;
    var mem' := Grafted(mem, r0, q0, i, e);
    GraftNoAlias(mem, used, roots, r0, q0, i, e);
    forall r, q | r in roots && Walk(mem', r, q).Some?
      ensures used[Walk(mem', r, q).value] && GoodTable(|mem'|, 4 - |q|, mem'[Walk(mem', r, q).value])
    {
      GraftTables(mem, used, roots, r0, q0, i, e, r, q);
    }
    forall r | r in roots ensures mem'[r] == mem[r] {
      WalkNowhere(mem, r);
      if r == Walk(mem, r0, q0).value { SameTable(mem, roots, r0, q0, r, []); }
    }
  }

  /** A table reached through the entry was none before, if the tables are sound with it. */
  lemma GraftedWasNone(
      mem: Memory, used: seq<bool>, roots: set<nat>, r0: nat, q0: seq<nat>, i: nat, e: Entry, q: seq<nat>)
    requires GraftSlot(mem, used, roots, r0, q0, i, e) && NoAlias(Grafted(mem, r0, q0, i, e), roots)
    requires q0 + [i] <= q && Walk(Grafted(mem, r0, q0, i, e), r0, q).Some?
    ensures !IsTable(mem, roots, Walk(Grafted(mem, r0, q0, i, e), r0, q).value)
  {
    hide Walk, Grafted, TablesSound, TopShared;
    var mem' := Grafted(mem, r0, q0, i, e);
    var x := Walk(mem', r0, q).value;
    if r, q1 :| r in roots && Walk(mem, r, q1) == Some(x) {
      GraftElsewhere(mem, used, roots, r0, q0, i, e, r, q1);
      SameTable(mem', roots, r0, q, r, q1);
    }
  }

  /** Conversely, if the tables are sound with it, the frame could be one. */
  lemma GraftNeeds(mem: Memory, used: seq<bool>, roots: set<nat>, r0: nat, q0: seq<nat>, i: nat, e: Entry)
    requires GraftSlot(mem, used, roots, r0, q0, i, e) && WellFormed(Grafted(mem, r0, q0, i, e), used, roots)
    ensures ReadsAsTable(mem, used, roots, e.frame, 3 - |q0|)
  {
    hide Walk, TopShared, IsTable;
    var mem', t, f := Grafted(mem, r0, q0, i, e), Walk(mem, r0, q0).value, e.frame;
    GraftInMemory(mem, used, roots, r0, q0, i, e);
    var q := q0 + [i];
    GraftBelow(mem, used, roots, r0, q0, i, e, r0, q);
    GraftedWasNone(mem, used, roots, r0, q0, i, e, q);
    WasTable(mem, roots, r0, q0);
    assert mem'[f] == mem[f];
    assert GoodTable(|mem|, 3 - |q0|, mem'[f]);
    forall j | 0 <= j < NUM_ENTRIES && Leads(mem, f, 3 - |q0|, j)
      ensures Walk(mem', r0, q + [j]) == Some(mem[f][j].frame)
      ensures var g := mem[f][j].frame; g != f && used[g] && !IsTable(mem, roots, g) && GoodTable(|mem|, 1, mem[g])
    {
      var g := mem[f][j].frame;
      GraftBelow(mem, used, roots, r0, q0, i, e, r0, q + [j]);
      GraftedWasNone(mem, used, roots, r0, q0, i, e, q + [j]);
      if g == f { SameTable(mem', roots, r0, q, r0, q + [j]); }
      assert GoodTable(|mem|, 1, mem'[g]);
    }
    forall j, k | 0 <= j < k < NUM_ENTRIES && Leads(mem, f, 3 - |q0|, j) && Leads(mem, f, 3 - |q0|, k)
      ensures mem[f][j].frame != mem[f][k].frame
    {
      assert (q + [j])[|q|] != (q + [k])[|q|];
      if mem[f][j].frame == mem[f][k].frame {
        SameTable(mem', roots, r0, q + [j], r0, q + [k]);
      }
    }
  }

  lemma WasTable(mem: Memory, roots: set<nat>, r0: nat, q0: seq<nat>)
    requires r0 in roots && Walk(mem, r0, q0).Some?
    ensures IsTable(mem, roots, Walk(mem, r0, q0).value)
  {
  }

  lemma GraftInMemory(mem: Memory, used: seq<bool>, roots: set<nat>, r0: nat, q0: seq<nat>, i: nat, e: Entry)
    requires GraftSlot(mem, used, roots, r0, q0, i, e) && WellFormed(Grafted(mem, r0, q0, i, e), used, roots)
    ensures e.frame < |mem|
  {
    hide Walk, NoAlias, TopShared;
    var mem', t := Grafted(mem, r0, q0, i, e), Walk(mem, r0, q0).value;
    GraftElsewhere(mem, used, roots, r0, q0, i, e, r0, q0);
    assert GoodTable(|mem|, 4 - |q0|, mem'[t]);
    assert GoodEntry(|mem|, 4 - |q0|, mem'[t][i]);
  }

  /** The flags that leave the tables sound, of a page of the given size on the given frame: those that fit it, none at
      all on frame zero, and, on a large page, those that make a table of a frame that could be one. */
  ghost predicate FlagsKeepTables(s: State, roots: set<nat>, frame: nat, size: PageSize, flags: set<Flag>)
    requires |s.alloc.bits| == |s.mem|
  {
    || FlagsFit(flags, size)
    || (flags == {} && frame == 0)
    || (size != Size4KiB && Present in flags && HugePage !in flags
        && ReadsAsTable(s.mem, s.alloc.bits, roots, frame, 4 - PrefixLen(size)))
  }

  /** For a page of any size, `set_flags` leaves the tables sound if and only if the flags are such. */
  lemma SetFlagsKeepsTablesWhen(s: State, roots: set<nat>, root: nat, p: Path, flags: set<Flag>)
    requires Ready(s, roots) && root in roots && Find(s.mem, root, 4, p).Leaf?
    ensures var found := Find(s.mem, root, 4, p);
            Ready(SetPageFlags(s, root, p, flags).0, roots) <==>
            FlagsKeepTables(s, roots, found.frame, found.size, flags)
  {
    hide Find, Walk, TablesSound, NoAlias, TopShared, ReadsAsTable, LeafEffect;
    FindAtStop(s.mem, root, 4, p);
    LeafStop(s, roots, root, p);
    var found := Find(s.mem, root, 4, p);
    var (t, l) := Stop(s.mem, root, 4, p);
    var n := PrefixLen(found.size);
    var e := SetFlags(s.mem[t][p[n - 1]], flags);
    if FlagsFit(flags, found.size) || (flags == {} && e.frame == 0) {
      RewriteLeaf(s, roots, root, p, e);
      LeafEffectReady(s, s.(mem := Write(s.mem, t, p[n - 1], e)), roots, root, p, found.size, TargetOf(|s.mem|, l, e));
    } else if found.size != Size4KiB && Present in flags && HugePage !in flags {
      assert GraftSlot(s.mem, s.alloc.bits, roots, root, p[..n - 1], p[n - 1], e);
      if ReadsAsTable(s.mem, s.alloc.bits, roots, e.frame, 4 - n) {
        GraftKeeps(s.mem, s.alloc.bits, roots, root, p[..n - 1], p[n - 1], e);
      }
      if WellFormed(Write(s.mem, t, p[n - 1], e), s.alloc.bits, roots) {
        GraftNeeds(s.mem, s.alloc.bits, roots, root, p[..n - 1], p[n - 1], e);
      }
    } else {
      BadEntryShows(s, roots, root, p[..n - 1], p[n - 1], e);
    }
  }

  lemma LeafEffectReady(s: State, s': State, roots: set<nat>, root: nat, p: Path, size: PageSize, now: Target)
    requires Ready(s, roots) && LeafEffect(s, s', roots, root, p, size, now)
    ensures Ready(s', roots)
  {
  }

  lemma BadEntryShows(s: State, roots: set<nat>, root: nat, q0: seq<nat>, i: nat, e: Entry)
    requires Ready(s, roots) && root in roots && i < NUM_ENTRIES && Walk(s.mem, root, q0).Some?
    requires !GoodEntry(|s.mem|, 4 - |q0|, e)
    ensures !WellFormed(Write(s.mem, Walk(s.mem, root, q0).value, i, e), s.alloc.bits, roots)
  {
    hide Find, Walk, TopShared;
    var t := Walk(s.mem, root, q0).value;
    var mem' := Write(s.mem, t, i, e);
    assert !(q0 + [i] <= q0);
    WalkFrame(s.mem, roots, root, q0, i, e, root, q0);
    assert mem'[t][i] == e;
    assert !GoodTable(|s.mem|, 4 - |q0|, mem'[t]);
  }
}

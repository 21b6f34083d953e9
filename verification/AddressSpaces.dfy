/**
 The kernel's level 4 table and the clones made of it for tasks: clearing the lower half, filling the top half,
 cloning, and every run of mappings after that.
 */
module AddressSpaces {
  import opened Common
  import opened BitmapAlloc
  import opened PageTable
  import opened Mapping

  // ---------- clearing the lower half ----------

  function ClearedLower(t: Table): (t': Table)
    ensures forall i :: 0 <= i < NUM_ENTRIES ==> t'[i] == if i < 256 then EMPTY else t[i]
  {
    seq(NUM_ENTRIES, i requires 0 <= i < NUM_ENTRIES => if i < 256 then EMPTY else t[i])
  }

  function UnmapLowerHalf(mem: Memory, root: nat): (mem': Memory)
    requires root < |mem|
    ensures |mem'| == |mem|
  {
    mem[root := ClearedLower(mem[root])]
  }

  lemma {:induction false} ClearWalk(mem: Memory, used: seq<bool>, roots: set<nat>, root: nat, q: seq<nat>)
    requires WellFormed(mem, used, roots) && root in roots
    ensures Walk(UnmapLowerHalf(mem, root), root, q) ==
            if q == [] || Shared(q) then Walk(mem, root, q) else None
    decreases |q|
  {
    var mem' := UnmapLowerHalf(mem, root);
    assert Walk(mem, root, []) == Some(root);
    if 0 < |q| <= 3 {
      var init := q[..|q| - 1];
      ClearWalk(mem, used, roots, root, init);
      if Walk(mem, root, init) == Some(root) {
        SameTable(mem, roots, root, [], root, init);
      }
    }
  }

  lemma {:induction false} ClearFind(mem: Memory, used: seq<bool>, roots: set<nat>, root: nat, p: Path, k: nat)
    requires WellFormed(mem, used, roots) && root in roots && p[0] >= 256
    requires k <= 3 && Walk(mem, root, p[..k]).Some?
    ensures var t := Walk(mem, root, p[..k]).value;
            Find(UnmapLowerHalf(mem, root), t, 4 - k, p) == Find(mem, t, 4 - k, p)
    decreases 3 - k
  {
    var t := Walk(mem, root, p[..k]).value;
    assert Walk(mem, root, []) == Some(root);
    if t == root { SameTable(mem, roots, root, [], root, p[..k]); }
    if TargetOf(|mem|, 4 - k, mem[t][p[k]]).Next? {
      assert p[..k + 1][..k] == p[..k];
      ClearFind(mem, used, roots, root, p, k + 1);
    }
  }

  ghost predicate LowerEmpty(mem: Memory, root: nat) {
    root < |mem| && forall i :: 0 <= i < 256 ==> mem[root][i] == EMPTY
  }

  ghost predicate TopFilled(mem: Memory, root: nat) {
    root < |mem| && forall i :: 256 <= i < NUM_ENTRIES ==> TargetOf(|mem|, 4, mem[root][i]).Next?
  }

  /** Clearing the lower half of a lone table removes its lower translations and keeps its upper ones. */
  lemma UnmapLowerHalfCorrect(s: State, roots: set<nat>, root: nat)
    requires Ready(s, roots) && root in roots && Alone(roots, root)
    ensures var s' := s.(mem := UnmapLowerHalf(s.mem, root));
            && Ready(s', roots) && LowerEmpty(s'.mem, root)
            && forall p: Path :: Find(s'.mem, root, 4, p) == if p[0] < 256 then Unmapped else Find(s.mem, root, 4, p)
  {
    var mem' := UnmapLowerHalf(s.mem, root);
    forall q ensures Walk(mem', root, q) == if q == [] || Shared(q) then Walk(s.mem, root, q) else None {
      ClearWalk(s.mem, s.alloc.bits, roots, root, q);
    }
    forall q | Walk(mem', root, q).Some?
      ensures s.alloc.bits[Walk(mem', root, q).value] && GoodTable(|mem'|, 4 - |q|, mem'[Walk(mem', root, q).value])
    {
      assert GoodTable(|s.mem|, 4 - |q|, s.mem[Walk(s.mem, root, q).value]);
      assert Walk(s.mem, root, []) == Some(root);
      if Walk(s.mem, root, q) == Some(root) { SameTable(s.mem, roots, root, [], root, q); }
    }
    forall p: Path ensures Find(mem', root, 4, p) == if p[0] < 256 then Unmapped else Find(s.mem, root, 4, p) {
      assert p[..0] == [];
      if p[0] >= 256 {
        ClearFind(s.mem, s.alloc.bits, roots, root, p, 0);
      }
    }
  }

  // ---------- filling the top half ----------

  const TABLE_FLAGS: set<Flag> := {Present, Writable}

  /** One entry of `fill_top_half_entries`; `false` when the source panics. */
  ghost function FillEntry(s: State, root: nat, i: nat): (r: (State, bool))
    requires root < |s.mem| && |s.alloc.bits| == |s.mem| && i < NUM_ENTRIES
    ensures |r.0.mem| == |s.mem| && |r.0.alloc.bits| == |s.mem|
  {
    var e := s.mem[root][i];
    match TargetOf(|s.mem|, 4, e)
    case Unmapped =>
      var (a, f) := Allocate(s.alloc, 1);
      if f.None? || f.value == 0 then (s.(alloc := a), false)
      else (State(WithChild(s.mem, root, i, f.value, TABLE_FLAGS), a), true)
    case Next(_) => (s.(mem := Write(s.mem, root, i, SetFlags(e, TABLE_FLAGS))), true)
    case _ => (s, false)
  }

  ghost function FillFrom(s: State, root: nat, i: nat): (r: (State, bool))
    requires root < |s.mem| && |s.alloc.bits| == |s.mem|
    ensures |r.0.mem| == |s.mem| && |r.0.alloc.bits| == |s.mem|
    decreases NUM_ENTRIES - i
  {
    if i >= NUM_ENTRIES then (s, true) else
    var (s', ok) := FillEntry(s, root, i);
    if ok then FillFrom(s', root, i + 1) else (s', false)
  }

  /** Rewriting an entry without changing where it leads. */
  lemma {:induction false} SameTargetWalk(
      mem: Memory, roots: set<nat>, r0: nat, q0: seq<nat>, i: nat, e: Entry, r: nat, q: seq<nat>)
    requires NoAlias(mem, roots) && r0 in roots && r in roots
    requires Walk(mem, r0, q0).Some? && i < NUM_ENTRIES
    requires TargetOf(|mem|, 4 - |q0|, e) == TargetOf(|mem|, 4 - |q0|, mem[Walk(mem, r0, q0).value][i])
    ensures Walk(Write(mem, Walk(mem, r0, q0).value, i, e), r, q) == Walk(mem, r, q)
    decreases |q|
  {
    if 0 < |q| <= 3 {
      var init := q[..|q| - 1];
      SameTargetWalk(mem, roots, r0, q0, i, e, r, init);
      if Walk(mem, r, init).Some? && Walk(mem, r, init) == Walk(mem, r0, q0) {
        SameTable(mem, roots, r0, q0, r, init);
      }
    }
  }

  lemma {:induction false} SameTargetFind(
      mem: Memory, roots: set<nat>, r0: nat, q0: seq<nat>, i: nat, e: Entry, r: nat, p: Path, k: nat)
    requires NoAlias(mem, roots) && r0 in roots && r in roots
    requires Walk(mem, r0, q0).Some? && i < NUM_ENTRIES
    requires TargetOf(|mem|, 4 - |q0|, e) == TargetOf(|mem|, 4 - |q0|, mem[Walk(mem, r0, q0).value][i])
    requires k <= 3 && Walk(mem, r, p[..k]).Some?
    ensures var t := Walk(mem, r, p[..k]).value;
            Find(Write(mem, Walk(mem, r0, q0).value, i, e), t, 4 - k, p) == Find(mem, t, 4 - k, p)
    decreases 3 - k
  {
    var t := Walk(mem, r, p[..k]).value;
    var mem' := Write(mem, Walk(mem, r0, q0).value, i, e);
    assert TargetOf(|mem|, 4 - k, mem'[t][p[k]]) == TargetOf(|mem|, 4 - k, mem[t][p[k]]) by {
      if Walk(mem, r, p[..k]) == Walk(mem, r0, q0) {
        SameTable(mem, roots, r0, q0, r, p[..k]);
        assert |q0| == k;
      }
    }
    if TargetOf(|mem|, 4 - k, mem[t][p[k]]).Next? {
      assert p[..k + 1][..k] == p[..k];
      SameTargetFind(mem, roots, r0, q0, i, e, r, p, k + 1);
    }
  }

  /** What every step of the filling keeps. */
  ghost predicate FillStep(s: State, s': State, roots: set<nat>, root: nat, i: nat)
    requires Ready(s, roots) && root in roots && i < NUM_ENTRIES
  {
    && Ready(s', roots) && |s'.mem| == |s.mem|
    && (forall p: Path :: Find(s'.mem, root, 4, p) == Find(s.mem, root, 4, p))
    && (forall j :: 0 <= j < NUM_ENTRIES && j != i ==> s'.mem[root][j] == s.mem[root][j])
    && TargetOf(|s.mem|, 4, s'.mem[root][i]).Next? && s'.mem[root][i].flags == {Present, Writable}
  }

  lemma FillExisting(s: State, roots: set<nat>, root: nat, i: nat)
    requires Ready(s, roots) && root in roots && Alone(roots, root) && i < NUM_ENTRIES
    requires TargetOf(|s.mem|, 4, s.mem[root][i]).Next?
    ensures FillStep(s, s.(mem := Write(s.mem, root, i, SetFlags(s.mem[root][i], TABLE_FLAGS))), roots, root, i)
  {
    var e := SetFlags(s.mem[root][i], TABLE_FLAGS);
    var mem' := Write(s.mem, root, i, e);
    assert Walk(s.mem, root, []) == Some(root);
    forall r, q | r in roots ensures Walk(mem', r, q) == Walk(s.mem, r, q) {
      SameTargetWalk(s.mem, roots, root, [], i, e, r, q);
    }
    SameWalksNoAlias(s.mem, mem', roots);
    forall r, q | r in roots && Walk(mem', r, q).Some?
      ensures s.alloc.bits[Walk(mem', r, q).value] && GoodTable(|mem'|, 4 - |q|, mem'[Walk(mem', r, q).value])
    {
      assert GoodTable(|s.mem|, 4 - |q|, s.mem[Walk(s.mem, r, q).value]);
      if Walk(s.mem, r, q) == Some(root) { SameTable(s.mem, roots, root, [], r, q); }
    }
    forall p: Path ensures Find(mem', root, 4, p) == Find(s.mem, root, 4, p) {
      assert p[..0] == [];
      SameTargetFind(s.mem, roots, root, [], i, e, root, p, 0);
    }
  }

  lemma FillMissing(s: State, roots: set<nat>, root: nat, i: nat, f: nat)
    requires Ready(s, roots) && root in roots && Alone(roots, root) && i < NUM_ENTRIES
    requires TargetOf(|s.mem|, 4, s.mem[root][i]).Unmapped?
    requires Allocate(s.alloc, 1).1 == Some(f)
    ensures f < |s.mem|
    ensures FillStep(s, State(WithChild(s.mem, root, i, f, TABLE_FLAGS), Allocate(s.alloc, 1).0), roots, root, i)
  {
    var p: Path := [i, 0, 0, 0];
    assert p[..0] == [] && p[..1] == [i];
    MapChild(s, roots, root, root, 4, p, f, TABLE_FLAGS);
    var mem' := WithChild(s.mem, root, i, f, TABLE_FLAGS);
    assert [i][..0] == [];
    assert Walk(s.mem, root, []) == Some(root);
    OneFrame(s.alloc);
  }

  /** Filling the top half of a lone table gives every top-half entry a table, present and writable, and changes no
      translation; it fails only when no frame is left. */
  lemma {:induction false} FillFromCorrect(s: State, roots: set<nat>, root: nat, i: nat)
    requires Ready(s, roots) && root in roots && Alone(roots, root) && 256 <= i <= NUM_ENTRIES
    requires forall j :: 256 <= j < i ==> TargetOf(|s.mem|, 4, s.mem[root][j]).Next?
    ensures var (s', ok) := FillFrom(s, root, i);
            && (ok ==>
                  && Ready(s', roots) && TopFilled(s'.mem, root)
                  && (forall j :: 0 <= j < i ==> s'.mem[root][j] == s.mem[root][j])
                  && (forall j :: i <= j < NUM_ENTRIES ==> s'.mem[root][j].flags == {Present, Writable})
                  && (forall p: Path :: Find(s'.mem, root, 4, p) == Find(s.mem, root, 4, p)))
            && (!ok ==> forall x :: 0 <= x < |s'.alloc.bits| ==> s'.alloc.bits[x])
    decreases NUM_ENTRIES - i
  {
    if i < NUM_ENTRIES {
      var (s1, ok) := FillEntry(s, root, i);
      assert GoodEntry(|s.mem|, 4, s.mem[root][i]) by {
        assert Walk(s.mem, root, []) == Some(root);
        assert GoodTable(|s.mem|, 4, s.mem[root]);
      }
      OneFrame(s.alloc);
      if TargetOf(|s.mem|, 4, s.mem[root][i]).Next? {
        FillExisting(s, roots, root, i);
      } else if ok {
        FillMissing(s, roots, root, i, Allocate(s.alloc, 1).1.value);
      }
      if ok {
        FillFromCorrect(s1, roots, root, i + 1);
      }
    }
  }

  // ---------- cloning ----------

  /** `allocate_clone`: copy the level 4 table into a new frame; `None` when the source panics for want of one. */
  ghost function CloneTable(s: State, root: nat): (r: (State, Option<nat>))
    requires root < |s.mem| && |s.alloc.bits| == |s.mem|
  {
    var (a, f) := Allocate(s.alloc, 1);
    if f.None? || f.value == 0 then (s.(alloc := a), None)
    else (State(s.mem[f.value := s.mem[root]], a), f)
  }

  /** The clone reaches the shared tables and nothing else. */
  lemma {:induction false} CloneWalk(mem: Memory, used: seq<bool>, roots: set<nat>, kernel: nat, f: nat, q: seq<nat>)
    requires WellFormed(mem, used, roots) && kernel in roots && LowerEmpty(mem, kernel)
    requires f < |mem| && !used[f]
    ensures Walk(mem[f := mem[kernel]], f, q) ==
            if q == [] then Some(f) else if Shared(q) then Walk(mem, kernel, q) else None
    decreases |q|
  {
    assert Walk(mem, kernel, []) == Some(kernel);
    if 0 < |q| <= 3 {
      CloneWalk(mem, used, roots, kernel, f, q[..|q| - 1]);
    }
  }

  lemma CloneFind(mem: Memory, used: seq<bool>, roots: set<nat>, kernel: nat, f: nat, p: Path)
    requires WellFormed(mem, used, roots) && kernel in roots && LowerEmpty(mem, kernel)
    requires f < |mem| && !used[f]
    ensures Find(mem[f := mem[kernel]], f, 4, p) == Find(mem, kernel, 4, p)
  {
    var target := TargetOf(|mem|, 4, mem[kernel][p[0]]);
    if target.Next? {
      assert p[..1][..0] == [];
      assert Walk(mem, kernel, p[..1]) == Some(target.table);
      FreshFind(mem, used, roots, f, mem[kernel], kernel, p, 1);
    }
  }

  /** A clone of a table with an empty lower half translates every address as the original does, and joins the
      family of tables that share the top half. */
  lemma CloneCorrect(s: State, roots: set<nat>, kernel: nat)
    requires Ready(s, roots) && kernel in roots && LowerEmpty(s.mem, kernel)
    ensures var (s', clone) := CloneTable(s, kernel);
            && (clone.None? ==>
                  && s'.mem == s.mem && s'.alloc.bits == s.alloc.bits && HintOk(s'.alloc)
                  && forall x :: 0 <= x < |s.mem| ==> s.alloc.bits[x])
            && (clone.Some? ==>
                  && clone.value < |s.mem| && !s.alloc.bits[clone.value]
                  && Ready(s', roots + {clone.value})
                  && (forall p: Path :: Find(s'.mem, clone.value, 4, p) == Find(s.mem, kernel, 4, p))
                  && (forall r, p: Path :: r in roots ==> Find(s'.mem, r, 4, p) == Find(s.mem, r, 4, p))
                  && (forall r, q :: r in roots ==> Walk(s'.mem, r, q) == Walk(s.mem, r, q)))
  {
    OneFrame(s.alloc);
    var (s', clone) := CloneTable(s, kernel);
    if clone.Some? {
      var f, used := clone.value, s.alloc.bits;
      FreshKeeps(s.mem, used, roots, f, s.mem[kernel]);
      forall p: Path ensures Find(s'.mem, f, 4, p) == Find(s.mem, kernel, 4, p) {
        CloneFind(s.mem, used, roots, kernel, f, p);
      }
      CloneNoAlias(s.mem, used, roots, kernel, f);
      CloneSound(s.mem, used, roots, kernel, f);
      forall r | r in roots ensures r != f {
        assert Walk(s.mem, r, []) == Some(r);
      }
    }
  }

  lemma CloneNoAlias(mem: Memory, used: seq<bool>, roots: set<nat>, kernel: nat, f: nat)
    requires WellFormed(mem, used, roots) && kernel in roots && LowerEmpty(mem, kernel) && f < |mem| && !used[f]
    ensures NoAlias(mem[f := mem[kernel]], roots + {f})
  {
    var mem' := mem[f := mem[kernel]];
    FreshKeeps(mem, used, roots, f, mem[kernel]);
    forall q ensures Walk(mem', f, q) == if q == [] then Some(f) else if Shared(q) then Walk(mem, kernel, q) else None {
      CloneWalk(mem, used, roots, kernel, f, q);
    }
    forall r1, r2, q1, q2 |
        && r1 in roots + {f} && r2 in roots + {f}
        && Walk(mem', r1, q1).Some? && Walk(mem', r1, q1) == Walk(mem', r2, q2)
      ensures q1 == q2 && (r1 == r2 || Shared(q1))
    {
      var k1, k2 := if r1 == f then kernel else r1, if r2 == f then kernel else r2;
      assert r1 != f ==> Walk(mem', r1, q1) == Walk(mem, r1, q1);
      assert r2 != f ==> Walk(mem', r2, q2) == Walk(mem, r2, q2);
      assert Walk(mem, k1, q1) == Walk(mem', r1, q1) || (r1 == f && q1 == []);
      assert Walk(mem, k2, q2) == Walk(mem', r2, q2) || (r2 == f && q2 == []);
    }
  }

  lemma CloneSound(mem: Memory, used: seq<bool>, roots: set<nat>, kernel: nat, f: nat)
    requires WellFormed(mem, used, roots) && kernel in roots && LowerEmpty(mem, kernel) && f < |mem| && !used[f]
    ensures TablesSound(mem[f := mem[kernel]], used[f := true], roots + {f})
  {
    var mem' := mem[f := mem[kernel]];
    FreshKeeps(mem, used, roots, f, mem[kernel]);
    forall r, q | r in roots + {f} && Walk(mem', r, q).Some?
      ensures used[f := true][Walk(mem', r, q).value] && GoodTable(|mem'|, 4 - |q|, mem'[Walk(mem', r, q).value])
    {
      CloneWalk(mem, used, roots, kernel, f, q);
      assert Walk(mem, kernel, []) == Some(kernel);
      var k := if r == f then kernel else r;
      assert Walk(mem, k, q).Some?;
      assert GoodTable(|mem|, 4 - |q|, mem[Walk(mem, k, q).value]);
    }
  }
}

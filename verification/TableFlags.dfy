/** The flags of the entries that lead to tables: what the hardware grants on the way to a page. */
module TableFlags {
  import opened Common
  import opened BitmapAlloc
  import opened PageTable
  import opened Mapping
  import opened FrameCounts

  /** The entry on the way to `p` at depth `k`. */
  function EntryOn(mem: Memory, root: nat, p: Path, k: nat): (e: Entry)
    requires k <= 3 && Walk(mem, root, p[..k]).Some?
  {
    mem[Walk(mem, root, p[..k]).value][p[k]]
  }

  /** Present, writable and open to users exactly as the page is to be, and nothing else. */
  predicate GrantsLike(e: Entry, flags: set<Flag>) {
    && Present in e.flags && e.flags <= {Present, Writable, UserAccessible}
    && (Writable in e.flags <==> Writable in flags)
    && (UserAccessible in e.flags <==> UserAccessible in flags)
  }

  /** On the way to `p`, entries that led to a table are as they were, and new ones grant what the page does. */
  ghost predicate EntriesOk(s: State, s': State, root: nat, p: Path, flags: set<Flag>, k: nat)
    requires k <= 2
  {
    Walk(s'.mem, root, p[..k]).Some? && Walk(s'.mem, root, p[..k + 1]).Some? ==>
      if Walk(s.mem, root, p[..k]).Some? && Walk(s.mem, root, p[..k + 1]).Some?
      then EntryOn(s'.mem, root, p, k) == EntryOn(s.mem, root, p, k)
      else GrantsLike(EntryOn(s'.mem, root, p, k), flags)
  }

  /** An absent entry on the way down, for which there is a frame `f`. */
  ghost predicate ChildAt(s: State, roots: set<nat>, root: nat, table: nat, d: nat, p: Path, f: nat, flags: set<Flag>) {
    && Ready(s, roots) && root in roots && d <= 2 && HugePage !in flags
    && Walk(s.mem, root, p[..d]) == Some(table) && TargetOf(|s.mem|, 4 - d, s.mem[table][p[d]]).Unmapped?
    && (d == 0 ==> p[0] < 256 || Alone(roots, root))
    && Allocate(s.alloc, 1).1 == Some(f)
  }

  ghost function Child(s: State, table: nat, d: nat, p: Path, f: nat, flags: set<Flag>): (m: State)
    requires table < |s.mem| && d <= 2 && f < |s.mem|
  {
    State(WithChild(s.mem, table, p[d], f, ParentFlags(flags)), Allocate(s.alloc, 1).0)
  }

  lemma EntryAbove(s: State, roots: set<nat>, root: nat, table: nat, d: nat, p: Path, f: nat, flags: set<Flag>, k: nat)
    requires ChildAt(s, roots, root, table, d, p, f, flags) && k < d
    ensures f < |s.mem| && table < |s.mem|
    ensures var m := Child(s, table, d, p, f, flags);
            && Walk(s.mem, root, p[..k]).Some? && Walk(s.mem, root, p[..k + 1]).Some?
            && Walk(m.mem, root, p[..k]) == Walk(s.mem, root, p[..k])
            && Walk(m.mem, root, p[..k + 1]) == Walk(s.mem, root, p[..k + 1])
            && EntryOn(m.mem, root, p, k) == EntryOn(s.mem, root, p, k)
  {
    hide TablesSound, NoAlias, TopShared, Find, FirstFit, Allocate, Walk, SetTarget;
    OneFrame(s.alloc);
    MapChild(s, roots, root, table, 4 - d, p, f, ParentFlags(flags));
    AllAbove(s.mem, root, p, d);
    var t := Walk(s.mem, root, p[..k]).value;
    if t == table { SameTable(s.mem, roots, root, p[..k], root, p[..d]); }
    TableIsUsedAt(s, roots, root, p[..k]);
  }

  lemma EntryAt(s: State, roots: set<nat>, root: nat, table: nat, d: nat, p: Path, f: nat, flags: set<Flag>)
    requires ChildAt(s, roots, root, table, d, p, f, flags)
    ensures f < |s.mem| && table < |s.mem|
    ensures var m := Child(s, table, d, p, f, flags);
            && Walk(m.mem, root, p[..d]) == Some(table) && Walk(m.mem, root, p[..d + 1]) == Some(f)
            && GrantsLike(EntryOn(m.mem, root, p, d), flags)
  {
    hide TablesSound, NoAlias, TopShared, Find, FirstFit, Allocate, Walk;
    OneFrame(s.alloc);
    MapChild(s, roots, root, table, 4 - d, p, f, ParentFlags(flags));
    NewEntry(s, roots, root, table, 4 - d, p, f, flags);
  }

  lemma NoneBelow(s: State, roots: set<nat>, root: nat, table: nat, d: nat, p: Path, f: nat, flags: set<Flag>, k: nat)
    requires ChildAt(s, roots, root, table, d, p, f, flags) && d <= k <= 2
    ensures f < |s.mem| && table < |s.mem|
    ensures Walk(s.mem, root, p[..k + 1]).None?
    ensures k > d ==> Walk(Child(s, table, d, p, f, flags).mem, root, p[..k + 1]).None?
  {
    hide TablesSound, NoAlias, TopShared, Find, FirstFit, Allocate, Walk;
    OneFrame(s.alloc);
    MapChild(s, roots, root, table, 4 - d, p, f, ParentFlags(flags));
    assert p[..d] + [p[d]] == p[..d + 1] && p[..d + 1] <= p[..k + 1];
    DeadEnd(s.mem, root, p[..d], p[d], p[..k + 1]);
    if k > d {
      assert p[..d + 1] + [p[d + 1]] == p[..d + 2] && p[..d + 2] <= p[..k + 1];
      DeadEnd(Child(s, table, d, p, f, flags).mem, root, p[..d + 1], p[d + 1], p[..k + 1]);
    }
  }

  lemma NewEntry(s: State, roots: set<nat>, root: nat, table: nat, level: nat, p: Path, f: nat, flags: set<Flag>)
    requires Ready(s, roots) && root in roots && 2 <= level <= 4 && f < |s.mem| && !s.alloc.bits[f]
    requires Walk(s.mem, root, p[..4 - level]) == Some(table)
    ensures GrantsLike(WithChild(s.mem, table, p[4 - level], f, ParentFlags(flags))[table][p[4 - level]], flags)
  {
    TableIsUsedAt(s, roots, root, p[..4 - level]);
  }

  lemma TableIsUsedAt(s: State, roots: set<nat>, root: nat, q: seq<nat>)
    requires Ready(s, roots) && root in roots && Walk(s.mem, root, q).Some?
    ensures s.alloc.bits[Walk(s.mem, root, q).value]
  {
  }

  lemma {:induction false} MapEntries(
      s: State, roots: set<nat>, root: nat, table: nat, level: nat, p: Path, target: MapTarget, flags: set<Flag>, k: nat)
    requires Ready(s, roots) && root in roots && 1 <= level <= 4 && HugePage !in flags && k <= 2
    requires Walk(s.mem, root, p[..4 - level]) == Some(table)
    requires level == 4 ==> MayMap(s.mem, roots, root, p)
    ensures EntriesOk(s, MapFrom(s, table, level, p, target, flags).0, root, p, flags, k)
    decreases level
  {
    hide TablesSound, NoAlias, TopShared, Find, FirstFit, Walk, Write, WithChild, SetTarget, GrantsLike;
    var d := 4 - level;
    var there := TargetOf(|s.mem|, level, s.mem[table][p[d]]);
    OneFrame(s.alloc);
    if there.Next? {
      WalkOn(s.mem, root, p, d);
      MapEntries(s, roots, root, there.table, level - 1, p, target, flags, k);
    } else if there.Unmapped? && level == 1 {
      LeafEntries(s, roots, root, table, p, target, flags, k);
    } else if there.Unmapped? && Allocate(s.alloc, 1).1.Some? {
      var f := Allocate(s.alloc, 1).1.value;
      assert d == 0 ==> table == root by { assert p[..0] == []; WalkNowhere(s.mem, root); }
      assert ChildAt(s, roots, root, table, d, p, f, flags);
      EntryAt(s, roots, root, table, d, p, f, flags);
      MapChild(s, roots, root, table, level, p, f, ParentFlags(flags));
      var m := Child(s, table, d, p, f, flags);
      MapEntries(m, roots, root, f, level - 1, p, target, flags, k);
      if k < d {
        EntryAbove(s, roots, root, table, d, p, f, flags, k);
      } else {
        NoneBelow(s, roots, root, table, d, p, f, flags, k);
      }
    }
  }

  lemma LeafEntries(
      s: State, roots: set<nat>, root: nat, table: nat, p: Path, target: MapTarget, flags: set<Flag>, k: nat)
    requires Ready(s, roots) && root in roots && HugePage !in flags && k <= 2
    requires Walk(s.mem, root, p[..3]) == Some(table)
    ensures EntriesOk(s, MapFrom(s, table, 1, p, target, flags).0, root, p, flags, k)
  {
    hide TablesSound, NoAlias, TopShared, Find, FirstFit, Walk, SetTarget;
    OneFrame(s.alloc);
    AllAbove(s.mem, root, p, 3);
    var t := Walk(s.mem, root, p[..k]).value;
    if t == table { SameTable(s.mem, roots, root, p[..k], root, p[..3]); }
    forall e: Entry, j | 0 <= j <= 3
      ensures Walk(Write(s.mem, table, p[3], e), root, p[..j]) == Walk(s.mem, root, p[..j])
    {
      assert !(p[..3] + [p[3]] <= p[..j]);
      WalkFrame(s.mem, roots, root, p[..3], p[3], e, root, p[..j]);
    }
  }

  /** After `map_to`, whether it succeeded or not, each new table on the way is reached through an entry that grants what
      the page is to, and the entries that were there are as they were. */
  lemma MapGrants(s: State, roots: set<nat>, root: nat, p: Path, target: MapTarget, flags: set<Flag>, k: nat)
    requires Ready(s, roots) && root in roots && HugePage !in flags && MayMap(s.mem, roots, root, p) && k <= 2
    ensures EntriesOk(s, MapTo(s, root, p, target, flags).0, root, p, flags, k)
  {
    assert p[..0] == [];
    WalkNowhere(s.mem, root);
    MapEntries(s, roots, root, root, 4, p, target, flags, k);
  }
}

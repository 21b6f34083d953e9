/** Virtual addresses: their page-table indices, and translations stated on addresses. */
module VirtualAddress {
  import opened PageTable
  import opened Mapping

  const PAGE_BYTES: nat := 4096

  /** 48 bits, sign extended to 64. */
  predicate Canonical(a: nat) {
    a < 0x8000_0000_0000 || 0xffff_8000_0000_0000 <= a < 0x1_0000_0000_0000_0000
  }

  predicate TopHalf(a: nat) {
    0xffff_8000_0000_0000 <= a
  }

  function Bytes(size: PageSize): nat {
    match size
    case Size4KiB => 0x1000
    case Size2MiB => 0x20_0000
    case Size1GiB => 0x4000_0000
  }

  /** `(a >> (12 + 9 * (level - 1))) & 0x1ff` */
  function Index(level: nat, a: nat): (i: nat)
    requires 1 <= level <= 4
    ensures i < NUM_ENTRIES
  {
    match level
    case 1 => a / 0x1000 % 512
    case 2 => a / 0x20_0000 % 512
    case 3 => a / 0x4000_0000 % 512
    case _ => a / 0x80_0000_0000 % 512
  }

  function PathOf(a: nat): (p: Path) {
    [Index(4, a), Index(3, a), Index(2, a), Index(1, a)]
  }

  /** The indices are the digits of the address: with the offset in the page they make up its low 48 bits. */
  lemma IndicesAre(a: nat)
    ensures var p := PathOf(a);
            a % 0x1_0000_0000_0000 ==
              p[0] * 0x80_0000_0000 + p[1] * 0x4000_0000 + p[2] * 0x20_0000 + p[3] * 0x1000 + a % 0x1000
  {
    NestedPages(a);
    var p1, p2, p3 := a / 0x1000, a / 0x20_0000, a / 0x4000_0000;
    assert p1 == p2 * 512 + p1 % 512;
    assert p2 == p3 * 512 + p2 % 512;
    assert p3 == p3 / 512 * 512 + p3 % 512;
    Low48(a);
  }

  lemma Low48(a: nat)
    ensures a % 0x1_0000_0000_0000 == a / 0x80_0000_0000 % 512 * 0x80_0000_0000 + a % 0x80_0000_0000
  {
  }

  lemma HalfIsIndex(a: nat)
    requires Canonical(a)
    ensures TopHalf(a) <==> PathOf(a)[0] >= 256
  {
  }

  /** Two addresses agree on the first indices exactly when they lie in the same page of the size those indices find. */
  lemma SamePage(a: nat, b: nat, size: PageSize)
    requires Canonical(a) && Canonical(b)
    ensures PathOf(a)[..PrefixLen(size)] == PathOf(b)[..PrefixLen(size)] <==> a / Bytes(size) == b / Bytes(size)
  {
    var p, q := PathOf(a), PathOf(b);
    var n := PrefixLen(size);
    if p[..n] == q[..n] {
      assert p[0] == p[..n][0] == q[..n][0] == q[0];
      assert p[1] == p[..n][1] == q[..n][1] == q[1];
      assert n >= 3 ==> p[2] == p[..n][2] == q[..n][2] == q[2];
      assert n == 4 ==> p[3] == p[..n][3] == q[..n][3] == q[3];
      TopEqual(a, b);
      NestedPages(a);
      NestedPages(b);
    }
    if a / Bytes(size) == b / Bytes(size) {
      NestedPages(a);
      NestedPages(b);
      assert p[..n] == q[..n];
    }
  }

  /** The level 4 index of a canonical address fixes all the bits above it. */
  lemma TopEqual(a: nat, b: nat)
    requires Canonical(a) && Canonical(b) && Index(4, a) == Index(4, b)
    ensures a / 0x80_0000_0000 == b / 0x80_0000_0000
  {
  }

  lemma NestedPages(a: nat)
    ensures a / 0x80_0000_0000 == a / 0x4000_0000 / 512
    ensures a / 0x4000_0000 == a / 0x20_0000 / 512
    ensures a / 0x20_0000 == a / 0x1000 / 512
  {
  }

  // ---------- translations ----------

  datatype Translation =
    | TranslatesTo(frame: nat, size: PageSize, flags: set<Flag>, offset: nat)
    | TranslatesToNothing
    | Fault

  function Outcome(found: Target, a: nat): Translation {
    match found
    case Leaf(f, size, flags) => TranslatesTo(f, size, flags, a % Bytes(size))
    case Unmapped => TranslatesToNothing
    case _ => Fault
  }

  function Translate(mem: Memory, root: nat, a: nat): Translation
    requires root < |mem|
  {
    Outcome(Find(mem, root, 4, PathOf(a)), a)
  }

  /** The offset is that of the address in its page. */
  lemma TranslatedOffset(mem: Memory, root: nat, a: nat)
    requires root < |mem| && Translate(mem, root, a).TranslatesTo?
    ensures var t := Translate(mem, root, a);
            t.offset < Bytes(t.size) && exists k: nat :: a == k * Bytes(t.size) + t.offset
  {
    hide Find, PathOf;
    var n := Bytes(Translate(mem, root, a).size);
    assert a == a / n * n + a % n;
  }

  /** A page of virtual memory: a canonical address aligned to the size. */
  predicate IsPage(page: nat, size: PageSize) {
    Canonical(page) && page % Bytes(size) == 0
  }

  predicate InPage(a: nat, page: nat, size: PageSize) {
    page <= a < page + Bytes(size)
  }

  lemma InPageIsPrefix(a: nat, page: nat, size: PageSize)
    requires Canonical(a) && IsPage(page, size)
    ensures InPage(a, page, size) <==> PathOf(a)[..PrefixLen(size)] == PathOf(page)[..PrefixLen(size)]
    ensures InPage(a, page, size) ==> a % Bytes(size) == a - page
  {
    SamePage(a, page, size);
    match size {
      case Size4KiB =>
      case Size2MiB =>
      case Size1GiB =>
    }
  }

  /** Do both roots see this address through the same tables? */
  predicate SeesAddress(r: nat, root: nat, page: nat) {
    r == root || TopHalf(page)
  }

  /** A successful `map_to` changes the translation of the addresses of its page and of no other address, in the table
      it was called on and, for the shared top half, in all of them; a failed one changes none. */
  lemma MapToTranslates(s: State, roots: set<nat>, root: nat, page: nat, target: MapTarget, flags: set<Flag>, r: nat, a: nat)
    requires Ready(s, roots) && root in roots && HugePage !in flags
    requires IsPage(page, Size4KiB) && MayMap(s.mem, roots, root, PathOf(page))
    requires r in roots && Canonical(a)
    ensures var (s', res) := MapTo(s, root, PathOf(page), target, flags);
            && MapEffect(s, s', res, roots, root, PathOf(page), target, flags)
            && (Translate(s'.mem, r, a) ==
                  if res.Mapped? && SeesAddress(r, root, page) && InPage(a, page, Size4KiB)
                  then TranslatesTo(res.frame, Size4KiB, flags + {Present}, a - page)
                  else Translate(s.mem, r, a))
  {
    var p, q := PathOf(page), PathOf(a);
    assert p[..0] == [];
    MapFromCorrect(s, roots, root, root, 4, p, target, flags);
    InPageIsPrefix(a, page, Size4KiB);
    assert p[..4] == p && q[..4] == q;
    HalfIsIndex(page);
  }

  // ---------- pages of other sizes in map_to ----------

  /** A page to map to, which has a size of its own, or a new one. */
  datatype SizedTarget = ExistingOf(frame: nat, size: PageSize) | New

  /** `map_to` of a page of any size: at the last level the size of the page to map to is compared with that of the page,
      and a new page may only be of 4 KiB; the entry is written at the last level whatever the size is. */
  ghost function MapSized(
      s: State, root: nat, page: nat, size: PageSize, target: SizedTarget, flags: set<Flag>): (r: (State, MapResult))
    requires root < |s.mem| && |s.alloc.bits| == |s.mem|
    ensures |r.0.mem| == |s.mem|
  {
    match target
    case New =>
      if size == Size4KiB then MapTo(s, root, PathOf(page), NewPage, flags)
      else Refused(MapTo(s, root, PathOf(page), ExistingPage(0), flags))
    case ExistingOf(frame, actual) =>
      var r := MapTo(s, root, PathOf(page), ExistingPage(frame), flags);
      if actual == size then r else Refused(r)
  }

  /** A mapping that gets to the comparison of the sizes panics there. */
  function Refused(r: (State, MapResult)): (State, MapResult) {
    if r.1.Mapped? then (r.0, MapPanic) else r
  }

  /** When the sizes agree, exactly the first 4 KiB of the page are mapped, however large it is. */
  lemma MapSizedTranslates(
      s: State, roots: set<nat>, root: nat, page: nat, size: PageSize, frame: nat, flags: set<Flag>, r: nat, a: nat)
    requires Ready(s, roots) && root in roots && HugePage !in flags
    requires IsPage(page, size) && MayMap(s.mem, roots, root, PathOf(page)) && r in roots && Canonical(a)
    ensures var (s', res) := MapSized(s, root, page, size, ExistingOf(frame, size), flags);
            && (res.Mapped? ==> res.frame == frame)
            && (Translate(s'.mem, r, a) ==
                  if res.Mapped? && SeesAddress(r, root, page) && InPage(a, page, Size4KiB)
                  then TranslatesTo(frame, Size4KiB, flags + {Present}, a - page)
                  else Translate(s.mem, r, a))
  {
    hide Find, PathOf, MapFrom, MapEffect, TablesSound, NoAlias, TopShared;
    FirstOfPage(page, size);
    MapToTranslates(s, roots, root, page, ExistingPage(frame), flags, r, a);
  }

  lemma FirstOfPage(page: nat, size: PageSize)
    requires IsPage(page, size)
    ensures IsPage(page, Size4KiB)
  {
    hide Canonical;
    match size
    case Size4KiB =>
    case Size2MiB => MultipleOf(page, 512, page / 0x20_0000);
    case Size1GiB => MultipleOf(page, 262144, page / 0x4000_0000);
  }

  lemma MultipleOf(page: nat, n: nat, k: nat)
    requires page == 0x1000 * n * k
    ensures page % 0x1000 == 0
  {
    var m := n * k;
    assert page == 0x1000 * m;
  }

  /** Every address from one up to another translates. */
  ghost predicate Covered(mem: Memory, root: nat, from: nat, to: nat)
    requires root < |mem|
  {
    forall a: nat | from <= a < to :: Translate(mem, root, a).TranslatesTo?
  }

  /** So a page that was reported mapped is mapped throughout if and only if it is a 4 KiB one or all but its first 4 KiB
      were mapped before. */
  lemma MapsWholePageWhen(
      s: State, roots: set<nat>, root: nat, page: nat, size: PageSize, frame: nat, flags: set<Flag>)
    requires Ready(s, roots) && root in roots && HugePage !in flags
    requires IsPage(page, size) && MayMap(s.mem, roots, root, PathOf(page))
    requires MapSized(s, root, page, size, ExistingOf(frame, size), flags).1.Mapped?
    ensures var s' := MapSized(s, root, page, size, ExistingOf(frame, size), flags).0;
            Covered(s'.mem, root, page, page + Bytes(size)) <==>
            size == Size4KiB || Covered(s.mem, root, page + PAGE_BYTES, page + Bytes(size))
  {
    hide Find, PathOf, MapTo, TablesSound, NoAlias, TopShared, Translate;
    var s' := MapSized(s, root, page, size, ExistingOf(frame, size), flags).0;
    forall a: nat | InPage(a, page, size)
      ensures Translate(s'.mem, root, a) ==
        if InPage(a, page, Size4KiB) then TranslatesTo(frame, Size4KiB, flags + {Present}, a - page)
        else Translate(s.mem, root, a)
    {
      WholePageCanonical(page, size, a);
      MapSizedTranslates(s, roots, root, page, size, frame, flags, root, a);
    }
  }

  lemma WholePageCanonical(page: nat, size: PageSize, a: nat)
    requires IsPage(page, size) && InPage(a, page, size)
    ensures Canonical(a)
  {
    match size
    case Size4KiB =>
      var m := page / 0x1000;
      assert page == 0x1000 * m;
    case Size2MiB =>
      var m := page / 0x20_0000;
      assert page == 0x20_0000 * m;
    case Size1GiB =>
      var m := page / 0x4000_0000;
      assert page == 0x4000_0000 * m;
  }

  lemma LeafTranslates(
      s: State, s': State, roots: set<nat>, root: nat, page: nat, size: PageSize, now: Target, r: nat, a: nat)
    requires Ready(s, roots) && LeafEffect(s, s', roots, root, PathOf(page), size, now)
    requires Canonical(page) && r in roots && Canonical(a)
    ensures Translate(s'.mem, r, a) ==
            if SeesAddress(r, root, page) && a / Bytes(size) == page / Bytes(size) then Outcome(now, a)
            else Translate(s.mem, r, a)
  {
    SamePage(a, page, size);
    HalfIsIndex(page);
  }

  /** `unmap` of a page mapped with that size removes the translation of exactly the addresses of the page, whether or
      not giving it back panics; in every other case no translation changes. */
  lemma UnmapTranslates(s: State, roots: set<nat>, root: nat, page: nat, size: PageSize, free: bool, r: nat, a: nat)
    requires Ready(s, roots) && root in roots && IsPage(page, size) && r in roots && Canonical(a)
    ensures var (s', res) := Unmap(s, root, PathOf(page), size, free);
            var was := Translate(s.mem, root, page);
            var removed := was.TranslatesTo? && was.size == size;
            && (res.Removed? || res.UnmapPanic? <==> removed)
            && (res.UnmapPanic? ==> free)
            && (Ready(s', roots) <==> free && res.Removed? ==> MayFree(s, roots, FreedBit(res.frame, size)))
            && (Translate(s'.mem, r, a) ==
                  if removed && SeesAddress(r, root, page) && InPage(a, page, size) then TranslatesToNothing
                  else Translate(s.mem, r, a))
  {
    UnmapCorrect(s, roots, root, PathOf(page), size, free);
    FoundIsSound(s, roots, root, PathOf(page));
    var (s', res) := Unmap(s, root, PathOf(page), size, free);
    var found := Find(s.mem, root, 4, PathOf(page));
    if found.Leaf? && found.size == size {
      LeafTranslates(s, s.(mem := s'.mem), roots, root, page, size, Unmapped, r, a);
      InPageIsPrefix(a, page, size);
      SamePage(a, page, size);
    }
  }

  /** `set_flags` changes the flags of the page, of whatever size, that holds its address, and nothing else. */
  lemma SetFlagsTranslates(s: State, roots: set<nat>, root: nat, page: nat, flags: set<Flag>, r: nat, a: nat)
    requires Ready(s, roots) && root in roots && Canonical(page) && r in roots && Canonical(a)
    requires var was := Translate(s.mem, root, page); was.TranslatesTo? ==> FlagsFit(flags, was.size)
    ensures var (s', res) := SetPageFlags(s, root, PathOf(page), flags);
            var was := Translate(s.mem, root, page);
            && Ready(s', roots)
            && (res.FlagsSet? <==> was.TranslatesTo?)
            && (Translate(s'.mem, r, a) ==
                  if was.TranslatesTo? && SeesAddress(r, root, page) && a / Bytes(was.size) == page / Bytes(was.size)
                  then TranslatesTo(was.frame, was.size, flags, a % Bytes(was.size))
                  else Translate(s.mem, r, a))
  {
    var p := PathOf(page);
    SetFlagsCorrect(s, roots, root, p, flags);
    FoundIsSound(s, roots, root, p);
    var found := Find(s.mem, root, 4, p);
    if found.Leaf? {
      LeafTranslates(s, SetPageFlags(s, root, p, flags).0, roots, root, page, found.size, Leaf(found.frame, found.size, flags), r, a);
    }
  }
}

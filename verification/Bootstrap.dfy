/**
 Bootstrapping the page allocator from the memory map: place the bitmap in the first free region that
 holds it, mark everything used, free the whole pages of the free regions, then mark the bitmap's own pages.
 */
module Bootstrap {
  import opened Common
  import opened Arithmetic
  import opened BitmapAlloc

  datatype MemoryRegion = MemoryRegion(start: nat, len: nat, free: bool) {
    function End(): nat { start + len }
  }

  function ShiftUp(value: nat, pageSize: nat): (r: nat)
    requires pageSize > 0
  {
    value + if value % pageSize == 0 then 0 else pageSize - value % pageSize
  }

  function ShiftDown(value: nat, pageSize: nat): (r: nat)
    requires pageSize > 0
  {
    value - value % pageSize
  }

  /** Free regions shrink to whole pages, others grow; `None` when a free region holds no whole page. */
  function PageAligned(r: MemoryRegion, pageSize: nat): (se: Option<(nat, nat)>)
    requires pageSize > 0
  {
    if r.free then
      var s, e := ShiftUp(r.start, pageSize), ShiftDown(r.End(), pageSize);
      if e <= s then None else Some((s, e))
    else
      Some((ShiftDown(r.start, pageSize), ShiftUp(r.End(), pageSize)))
  }

  // ---------- what the pages of a region are ----------

  /** Page `p` lies wholly inside the region. */
  predicate Inside(r: MemoryRegion, pageSize: nat, p: nat) {
    r.start <= p * pageSize && (p + 1) * pageSize <= r.End()
  }

  /** Page `p` shares an address with the byte range `start .. end`. */
  predicate Touches(start: nat, end: nat, pageSize: nat, p: nat) {
    start < (p + 1) * pageSize && p * pageSize < end
  }

  lemma MulLe(a: int, b: int, c: int)
    requires a <= b && c >= 0
    ensures a * c <= b * c
  {
  }

  lemma ShiftUpIs(v: nat, pageSize: nat)
    requires pageSize > 0
    ensures ShiftUp(v, pageSize) == DivCeil(v, pageSize) * pageSize
    ensures ShiftUp(v, pageSize) / pageSize == DivCeil(v, pageSize)
    ensures forall p: nat {:trigger p * pageSize} :: DivCeil(v, pageSize) <= p <==> v <= p * pageSize
  {
    forall p: nat ensures DivCeil(v, pageSize) <= p <==> v <= p * pageSize { CeilLe(v, pageSize, p); }
    CeilIs(v, pageSize);
    DivModIs(ShiftUp(v, pageSize), pageSize, DivCeil(v, pageSize), 0);
  }

  lemma CeilLe(v: nat, pageSize: nat, p: nat)
    requires pageSize > 0
    ensures DivCeil(v, pageSize) <= p <==> v <= p * pageSize
  {
    var d := DivCeil(v, pageSize);
    CeilBounds(v, pageSize);
    if d <= p { MulLe(d, p, pageSize); } else { MulLe(p, d - 1, pageSize); }
  }

  lemma CeilIs(v: nat, pageSize: nat)
    requires pageSize > 0
    ensures ShiftUp(v, pageSize) == DivCeil(v, pageSize) * pageSize
  {
    var w, r := v / pageSize, v % pageSize;
    assert v == w * pageSize + r;
    assert (w + 1) * pageSize == w * pageSize + pageSize;
    CeilLe(v, pageSize, w);
    CeilLe(v, pageSize, w + 1);
    if r == 0 && w > 0 {
      assert (w - 1) * pageSize == w * pageSize - pageSize;
      CeilLe(v, pageSize, w - 1);
    }
  }

  lemma ShiftDownIs(v: nat, pageSize: nat)
    requires pageSize > 0
    ensures ShiftDown(v, pageSize) == v / pageSize * pageSize
    ensures ShiftDown(v, pageSize) / pageSize == v / pageSize
    ensures forall p: nat {:trigger p * pageSize} :: p <= v / pageSize <==> p * pageSize <= v
  {
    var d := v / pageSize;
    assert v == d * pageSize + v % pageSize;
    forall p: nat ensures p <= d <==> p * pageSize <= v {
      if p <= d { MulLe(p, d, pageSize); } else { MulLe(d + 1, p, pageSize); }
    }
    DivModIs(ShiftDown(v, pageSize), pageSize, d, 0);
  }

  /** The pages `mark_region` visits are exactly the ones wholly inside a free region. */
  lemma FreeRegionPages(r: MemoryRegion, pageSize: nat, p: nat)
    requires pageSize > 0 && r.free
    ensures var se := PageAligned(r, pageSize);
            Inside(r, pageSize, p) <==> se.Some? && se.value.0 / pageSize <= p < se.value.1 / pageSize
  {
    hide ShiftUp, ShiftDown, DivCeil;
    ShiftUpIs(r.start, pageSize);
    ShiftDownIs(r.End(), pageSize);
    assert r.start <= p * pageSize <==> DivCeil(r.start, pageSize) <= p;
    assert (p + 1) * pageSize <= r.End() <==> p + 1 <= r.End() / pageSize;
    var s, e := DivCeil(r.start, pageSize), r.End() / pageSize;
    if e <= s { MulLe(e, s, pageSize); } else { MulLe(s + 1, e, pageSize); }
  }

  /** Those it visits for a used region of at least one byte are the ones the region touches. */
  lemma UsedRegionPages(r: MemoryRegion, pageSize: nat, p: nat)
    requires pageSize > 0 && !r.free && r.len > 0
    ensures var se := PageAligned(r, pageSize).value;
            Touches(r.start, r.End(), pageSize, p) <==> se.0 / pageSize <= p < se.1 / pageSize
  {
    ShiftUpIs(r.End(), pageSize);
    ShiftDownIs(r.start, pageSize);
    assert (p + 1) * pageSize <= r.start <==> p + 1 <= r.start / pageSize;
    assert r.End() <= p * pageSize <==> DivCeil(r.End(), pageSize) <= p;
  }

  // ---------- where the bitmap goes ----------

  function TotalMemory(regions: seq<MemoryRegion>): (t: nat)
    ensures forall r :: r in regions ==> r.End() <= t
    ensures regions != [] ==> exists r :: r in regions && r.End() == t
  {
    if regions == [] then 0 else
    assert regions == [regions[0]] + regions[1..];
    var rest := TotalMemory(regions[1..]);
    if regions[0].End() > rest then regions[0].End() else rest
  }

  function BitmapBits(regions: seq<MemoryRegion>, pageSize: nat): (r: nat)
    requires pageSize > 0
  {
    DivCeil(TotalMemory(regions), pageSize)
  }

  /** What the source calls `bitmap_bytes`: the number of 64-bit words in the bitmap. */
  function BitmapWords(regions: seq<MemoryRegion>, pageSize: nat): (r: nat)
    requires pageSize > 0
  {
    DivCeil(BitmapBits(regions, pageSize), BITS_PER_CHUNK)
  }

  /** The bitmap has as few words as have a bit for every page below the end of every region. */
  lemma WordsAreLeast(regions: seq<MemoryRegion>, pageSize: nat, words: nat)
    requires pageSize > 0 && regions != []
    ensures BitmapWords(regions, pageSize) <= words <==>
            forall r :: r in regions ==> r.End() <= words * BITS_PER_CHUNK * pageSize
  {
    hide DivCeil;
    CeilLe(BitmapBits(regions, pageSize), BITS_PER_CHUNK, words);
    CeilLe(TotalMemory(regions), pageSize, words * BITS_PER_CHUNK);
  }

  predicate Fits(r: MemoryRegion, pageSize: nat, words: nat)
    requires pageSize > 0
  {
    r.free && var se := PageAligned(r, pageSize); se.Some? && words <= se.value.1 - se.value.0
  }

  /** It fits exactly when the region is free and has whole pages to begin and to end in. */
  lemma FitsWhen(r: MemoryRegion, pageSize: nat, words: nat)
    requires pageSize > 0
    ensures Fits(r, pageSize, words) <==>
            r.free && exists p: nat, q: nat :: p < q && r.start <= p * pageSize && p * pageSize + words <= q * pageSize <= r.End()
  {
    hide DivCeil, ShiftUp, ShiftDown;
    ShiftUpIs(r.start, pageSize);
    ShiftDownIs(r.End(), pageSize);
    var s, e := DivCeil(r.start, pageSize), r.End() / pageSize;
    if Fits(r, pageSize, words) {
      if e <= s { MulLe(e, s, pageSize); }
      assert s < e && r.start <= s * pageSize && s * pageSize + words <= e * pageSize <= r.End();
    }
    if p: nat, q: nat :| r.free && p < q && r.start <= p * pageSize && p * pageSize + words <= q * pageSize <= r.End() {
      MulLe(s, p, pageSize);
      assert q <= e;
      MulLe(q, e, pageSize);
      MulGap(p, q, pageSize);
    }
  }

  /** Index of the first region in which the bitmap fits, or `|regions|`. */
  function FirstFitting(regions: seq<MemoryRegion>, pageSize: nat, words: nat): (k: nat)
    requires pageSize > 0
    ensures k <= |regions|
    ensures k < |regions| ==> Fits(regions[k], pageSize, words)
    ensures forall j :: 0 <= j < k ==> !Fits(regions[j], pageSize, words)
  {
    if regions == [] || Fits(regions[0], pageSize, words) then 0
    else 1 + FirstFitting(regions[1..], pageSize, words)
  }

  predicate FindsPlace(regions: seq<MemoryRegion>, pageSize: nat)
    requires pageSize > 0
  {
    |regions| > 0 && FirstFitting(regions, pageSize, BitmapWords(regions, pageSize)) < |regions|
  }

  function BitmapStart(regions: seq<MemoryRegion>, pageSize: nat): (a: nat)
    requires pageSize > 0 && FindsPlace(regions, pageSize)
  {
    PageAligned(regions[FirstFitting(regions, pageSize, BitmapWords(regions, pageSize))], pageSize).value.0
  }

  /** The bitmap begins with the first whole page of the first region in which it fits. */
  lemma PlaceIs(regions: seq<MemoryRegion>, pageSize: nat)
    requires pageSize > 0 && FindsPlace(regions, pageSize)
    ensures var words, a := BitmapWords(regions, pageSize), BitmapStart(regions, pageSize);
            exists k :: 0 <= k < |regions| && Fits(regions[k], pageSize, words)
              && (forall j :: 0 <= j < k ==> !Fits(regions[j], pageSize, words))
              && a % pageSize == 0 && regions[k].start <= a < regions[k].start + pageSize
  {
    hide DivCeil, Fits;
    var words := BitmapWords(regions, pageSize);
    var k := FirstFitting(regions, pageSize, words);
    FittingIsFree(regions[k], pageSize, words);
    assert Fits(regions[k], pageSize, words);
  }

  lemma FittingIsFree(r: MemoryRegion, pageSize: nat, words: nat)
    requires pageSize > 0 && Fits(r, pageSize, words)
    ensures PageAligned(r, pageSize).Some?
    ensures var a := PageAligned(r, pageSize).value.0; a % pageSize == 0 && r.start <= a < r.start + pageSize
  {
    hide DivCeil;
    ShiftUpIs(r.start, pageSize);
    DivModIs(ShiftUp(r.start, pageSize), pageSize, DivCeil(r.start, pageSize), 0);
  }

  // ---------- what the finished bitmap says ----------

  ghost predicate FreeRegionsDisjoint(regions: seq<MemoryRegion>) {
    forall i, j :: 0 <= i < j < |regions| && regions[i].free && regions[j].free ==>
      regions[i].End() <= regions[j].start || regions[j].End() <= regions[i].start
  }

  ghost predicate InFreeRegion(regions: seq<MemoryRegion>, pageSize: nat, p: nat) {
    exists i :: 0 <= i < |regions| && regions[i].free && Inside(regions[i], pageSize, p)
  }

  /** The pages reserved for the bitmap: those touching `words` bytes from its start. */
  predicate Reserved(regions: seq<MemoryRegion>, pageSize: nat, p: nat)
    requires pageSize > 0 && FindsPlace(regions, pageSize)
  {
    var start := BitmapStart(regions, pageSize);
    Touches(start, start + BitmapWords(regions, pageSize), pageSize, p)
  }

  /** The bitmap bootstrapping ends with. */
  ghost predicate BootBits(regions: seq<MemoryRegion>, pageSize: nat, bits: seq<bool>)
    requires pageSize > 0 && FindsPlace(regions, pageSize)
  {
    && |bits| == BitmapWords(regions, pageSize) * BITS_PER_CHUNK
    && forall p: nat :: p < |bits| ==>
         (bits[p] <==> !InFreeRegion(regions, pageSize, p) || Reserved(regions, pageSize, p))
  }

  lemma InsideOneRegionOnly(regions: seq<MemoryRegion>, pageSize: nat, i: nat, j: nat, p: nat)
    requires pageSize > 0 && FreeRegionsDisjoint(regions)
    requires i < |regions| && j < |regions| && i != j && regions[i].free && regions[j].free
    requires Inside(regions[i], pageSize, p)
    ensures !Inside(regions[j], pageSize, p)
  {
  }

  lemma InsideBelowTotal(regions: seq<MemoryRegion>, pageSize: nat, p: nat)
    requires pageSize > 0 && InFreeRegion(regions, pageSize, p)
    ensures p < BitmapWords(regions, pageSize) * BITS_PER_CHUNK
  {
    var i :| 0 <= i < |regions| && regions[i].free && Inside(regions[i], pageSize, p);
    var r := regions[i];
    assert r in regions;
    hide DivCeil;
    var bits := BitmapBits(regions, pageSize);
    CeilBounds(TotalMemory(regions), pageSize);
    CeilBounds(bits, BITS_PER_CHUNK);
    if bits <= p { MulLe(bits, p, pageSize); }
  }

  /** Every reserved page lies in the region chosen for the bitmap. */
  lemma ReservedIsFree(regions: seq<MemoryRegion>, pageSize: nat, p: nat)
    requires pageSize > 0 && FindsPlace(regions, pageSize) && Reserved(regions, pageSize, p)
    ensures InFreeRegion(regions, pageSize, p)
  {
    var words := BitmapWords(regions, pageSize);
    var k := FirstFitting(regions, pageSize, words);
    var se := PageAligned(regions[k], pageSize).value;
    ShiftUpIs(regions[k].start, pageSize);
    ShiftDownIs(regions[k].End(), pageSize);
    var s, e := se.0 / pageSize, se.1 / pageSize;
    if p < s { MulLe(p + 1, s, pageSize); }
    if e <= p { MulLe(e, p, pageSize); }
    FreeRegionPages(regions[k], pageSize, p);
  }

  lemma SomeWords(regions: seq<MemoryRegion>, pageSize: nat)
    requires pageSize > 0 && FindsPlace(regions, pageSize)
    ensures BitmapWords(regions, pageSize) > 0
  {
    hide DivCeil, Fits, BitmapWords, TotalMemory;
    var words := BitmapWords(regions, pageSize);
    var k := FirstFitting(regions, pageSize, words);
    assert regions[k] in regions;
    WordsAreLeast(regions, pageSize, 0);
    FitsWhen(regions[k], pageSize, words);
    var p: nat, q: nat :| p < q && q * pageSize <= regions[k].End();
    MulGap(p, q, pageSize);
  }

  // ---------- the bootstrap itself ----------

  const FULL_CHUNK: Chunk := seq(BITS_PER_CHUNK, _ => true)

  /** The pages `mark_region` visits for a region. */
  ghost predicate Visits(region: MemoryRegion, pageSize: nat, p: nat) {
    if region.free then Inside(region, pageSize, p) else Touches(region.start, region.End(), pageSize, p)
  }

  method RegionPages(region: MemoryRegion, pageSize: nat) returns (start: nat, end: nat)
    requires pageSize > 0 && (region.free || region.len > 0)
    ensures forall p: nat :: Visits(region, pageSize, p) <==> start <= p < end
  {
    hide Inside, Touches, ShiftUp, ShiftDown;
    var se := PageAligned(region, pageSize);
    if se.None? {
      start, end := 0, 0;
    } else {
      start, end := se.value.0 / pageSize, se.value.1 / pageSize;
    }
    forall p: nat ensures Visits(region, pageSize, p) <==> start <= p < end {
      if region.free {
        FreeRegionPages(region, pageSize, p);
      } else {
        UsedRegionPages(region, pageSize, p);
      }
    }
  }

  method MarkRegion(used: bool, region: MemoryRegion, pageSize: nat, alloc: BitmapAllocator)
    requires pageSize > 0 && (region.free || region.len > 0)
    requires forall p: nat :: Visits(region, pageSize, p) ==> p < |alloc.View().bits| && alloc.View().bits[p] == !used
    modifies alloc.bitmap
    ensures alloc.View().hint == old(alloc.View().hint) && |alloc.View().bits| == |old(alloc.View().bits)|
    ensures forall p: nat :: p < |alloc.View().bits| ==>
              alloc.View().bits[p] == if Visits(region, pageSize, p) then used else old(alloc.View().bits)[p]
  {
    ghost var before := alloc.View();
    var start, end := RegionPages(region, pageSize);
    var page := start;
    while page < end
      invariant start <= page && (page <= end || page == start)
      invariant alloc.View() == before.(bits := Marked(before.bits, start, page - start, used))
    {
      assert Visits(region, pageSize, page);
      if used {
        alloc.MarkUsed(page);
      } else {
        alloc.MarkUnused(page);
      }
      page := page + 1;
    }
  }

  /** The bitmap once the first `i` regions have been freed in a bitmap that was all used. */
  ghost predicate FreedUpTo(regions: seq<MemoryRegion>, pageSize: nat, i: nat, bits: seq<bool>)
    requires i <= |regions|
  {
    forall p: nat :: p < |bits| ==> (bits[p] <==> !InFreeRegion(regions[..i], pageSize, p))
  }

  method FreeRegions(pageSize: nat, regions: seq<MemoryRegion>, alloc: BitmapAllocator)
    requires pageSize > 0 && FreeRegionsDisjoint(regions)
    requires forall p: nat :: InFreeRegion(regions, pageSize, p) ==> p < |alloc.View().bits|
    requires FreedUpTo(regions, pageSize, 0, alloc.View().bits)
    modifies alloc.bitmap
    ensures alloc.View().hint == old(alloc.View().hint) && |alloc.View().bits| == |old(alloc.View().bits)|
    ensures FreedUpTo(regions, pageSize, |regions|, alloc.View().bits)
  {
    var i := 0;
    while i < |regions|
      invariant i <= |regions|
      invariant alloc.View().hint == old(alloc.View().hint) && |alloc.View().bits| == |old(alloc.View().bits)|
      invariant FreedUpTo(regions, pageSize, i, alloc.View().bits)
    {
      FreeStep(regions, pageSize, i);
      if regions[i].free {
        MarkRegion(false, regions[i], pageSize, alloc);
      }
      i := i + 1;
    }
  }

  /** The second half of the bootstrap, once the size and place of the bitmap are known. */
  method FillBitmap(pageSize: nat, regions: seq<MemoryRegion>, words: nat, start: nat) returns (alloc: BitmapAllocator)
    requires pageSize > 0 && words > 0 && FreeRegionsDisjoint(regions)
    requires forall p: nat :: InFreeRegion(regions, pageSize, p) ==> p < words * BITS_PER_CHUNK
    requires forall p: nat :: Touches(start, start + words, pageSize, p) ==> InFreeRegion(regions, pageSize, p)
    ensures fresh(alloc) && fresh(alloc.bitmap)
    ensures alloc.View().hint.None? && |alloc.View().bits| == words * BITS_PER_CHUNK
    ensures forall p: nat :: p < words * BITS_PER_CHUNK ==>
              (alloc.View().bits[p] <==> !InFreeRegion(regions, pageSize, p) || Touches(start, start + words, pageSize, p))
  {
    var bitmap := new Chunk[words](_ => FULL_CHUNK);
    alloc := new BitmapAllocator(bitmap);
    assert forall p: nat :: p < words * BITS_PER_CHUNK ==> alloc.View().bits[p];
    FreeRegions(pageSize, regions, alloc);
    assert regions[..|regions|] == regions;
    var region := MemoryRegion(start, words, false);
    forall p: nat | Visits(region, pageSize, p) ensures p < words * BITS_PER_CHUNK && !alloc.View().bits[p] {
      assert Touches(start, start + words, pageSize, p);
      assert InFreeRegion(regions, pageSize, p);
    }
    MarkRegion(true, region, pageSize, alloc);
  }

  /** `null` when the source panics: no regions at all, or none that holds the bitmap. */
  method BootstrapAllocator(pageSize: nat, regions: seq<MemoryRegion>) returns (alloc: BitmapAllocator?)
    requires pageSize > 0 && FreeRegionsDisjoint(regions)
    ensures alloc != null <==> FindsPlace(regions, pageSize)
    ensures alloc != null ==> fresh(alloc) && fresh(alloc.bitmap)
    ensures alloc != null ==> alloc.Valid() && alloc.View().hint.None?
    ensures alloc != null ==> BootBits(regions, pageSize, alloc.View().bits)
  {
    if !FindsPlace(regions, pageSize) {
      return null;
    }
    forall p: nat | InFreeRegion(regions, pageSize, p) ensures p < BitmapWords(regions, pageSize) * BITS_PER_CHUNK {
      InsideBelowTotal(regions, pageSize, p);
    }
    forall p: nat | Reserved(regions, pageSize, p) ensures InFreeRegion(regions, pageSize, p) {
      ReservedIsFree(regions, pageSize, p);
    }
    SomeWords(regions, pageSize);
    alloc := FillBitmap(pageSize, regions, BitmapWords(regions, pageSize), BitmapStart(regions, pageSize));
  }

  lemma Extend(regions: seq<MemoryRegion>, pageSize: nat, i: nat, p: nat)
    requires i < |regions|
    ensures InFreeRegion(regions[..i + 1], pageSize, p) <==>
            InFreeRegion(regions[..i], pageSize, p) || (regions[i].free && Inside(regions[i], pageSize, p))
  {
    var shorter, longer := regions[..i], regions[..i + 1];
    if InFreeRegion(shorter, pageSize, p) {
      var j :| 0 <= j < |shorter| && shorter[j].free && Inside(shorter[j], pageSize, p);
      assert longer[j].free && Inside(longer[j], pageSize, p);
    }
    if regions[i].free && Inside(regions[i], pageSize, p) {
      assert longer[i].free && Inside(longer[i], pageSize, p);
    }
    if InFreeRegion(longer, pageSize, p) {
      var j :| 0 <= j < |longer| && longer[j].free && Inside(longer[j], pageSize, p);
      assert j < i ==> shorter[j].free && Inside(shorter[j], pageSize, p);
    }
  }

  /** What the step for region `i` needs to know: the pages it frees belong to no earlier region. */
  lemma FreeStep(regions: seq<MemoryRegion>, pageSize: nat, i: nat)
    requires pageSize > 0 && i < |regions| && FreeRegionsDisjoint(regions)
    ensures forall p: nat :: InFreeRegion(regions[..i + 1], pageSize, p) <==>
              InFreeRegion(regions[..i], pageSize, p) || (regions[i].free && Inside(regions[i], pageSize, p))
    ensures regions[i].free ==> forall p: nat :: Inside(regions[i], pageSize, p) ==>
              InFreeRegion(regions, pageSize, p) && !InFreeRegion(regions[..i], pageSize, p)
  {
    forall p: nat
      ensures InFreeRegion(regions[..i + 1], pageSize, p) <==>
                InFreeRegion(regions[..i], pageSize, p) || (regions[i].free && Inside(regions[i], pageSize, p))
      ensures regions[i].free && Inside(regions[i], pageSize, p) ==>
                InFreeRegion(regions, pageSize, p) && !InFreeRegion(regions[..i], pageSize, p)
    {
      Extend(regions, pageSize, i, p);
      if regions[i].free && Inside(regions[i], pageSize, p) {
        forall j | 0 <= j < i && regions[j].free ensures !Inside(regions[j], pageSize, p) {
          InsideOneRegionOnly(regions, pageSize, i, j, p);
        }
      }
    }
  }

  // ---------- is the bitmap itself protected? ----------

  /** Every page holding a byte of the bitmap (eight bytes a word) is marked used. */
  ghost predicate StorageProtected(regions: seq<MemoryRegion>, pageSize: nat, bits: seq<bool>)
    requires pageSize > 0 && FindsPlace(regions, pageSize)
  {
    var start := BitmapStart(regions, pageSize);
    forall p: nat :: p < |bits| && Touches(start, start + 8 * BitmapWords(regions, pageSize), pageSize, p) ==> bits[p]
  }

  /** The length reserved is in words, so the storage is protected exactly when no free region owns one of
      the pages after the reserved ones. */
  lemma StorageProtectedWhen(regions: seq<MemoryRegion>, pageSize: nat, bits: seq<bool>)
    requires pageSize > 0 && FindsPlace(regions, pageSize) && BootBits(regions, pageSize, bits)
    ensures StorageProtected(regions, pageSize, bits) <==>
            forall p: nat ::
              (var start, words := BitmapStart(regions, pageSize), BitmapWords(regions, pageSize);
               start + words <= p * pageSize < start + 8 * words) ==> !InFreeRegion(regions, pageSize, p)
  {
    var start, words := BitmapStart(regions, pageSize), BitmapWords(regions, pageSize);
    if StorageProtected(regions, pageSize, bits) {
      forall p: nat | start + words <= p * pageSize < start + 8 * words ensures !InFreeRegion(regions, pageSize, p) {
        assert Touches(start, start + 8 * words, pageSize, p);
        if InFreeRegion(regions, pageSize, p) {
          InsideBelowTotal(regions, pageSize, p);
        }
      }
    }
  }

  /** The page size the kernel passes. */
  const PAGE_SIZE: nat := 4096

  /** The first page taken and the next `free` pages free. */
  function OneRegion(free: nat): seq<MemoryRegion> {
    [MemoryRegion(0, PAGE_SIZE, false), MemoryRegion(PAGE_SIZE, free * PAGE_SIZE, true)]
  }

  lemma OneRegionPlaces(free: nat)
    requires 32768 <= free < 262143
    ensures var regions := OneRegion(free);
            && FindsPlace(regions, PAGE_SIZE) && BitmapStart(regions, PAGE_SIZE) == PAGE_SIZE
            && 512 < BitmapWords(regions, PAGE_SIZE) <= PAGE_SIZE
  {
    var regions := OneRegion(free);
    assert regions[1..][1..] == [] && regions[1..][0] == regions[1];
    assert TotalMemory(regions[1..]) == (free + 1) * PAGE_SIZE;
    assert TotalMemory(regions) == (free + 1) * PAGE_SIZE;
    assert BitmapBits(regions, PAGE_SIZE) == free + 1;
    var words := BitmapWords(regions, PAGE_SIZE);
    assert PageAligned(regions[1], PAGE_SIZE) == Some((PAGE_SIZE, (free + 1) * PAGE_SIZE));
    assert Fits(regions[1], PAGE_SIZE, words) && !Fits(regions[0], PAGE_SIZE, words);
    assert FirstFitting(regions[1..], PAGE_SIZE, words) == 0;
    assert FirstFitting(regions, PAGE_SIZE, words) == 1;
  }

  /**
   With 4 KiB pages, on every machine with one free region of 128 MiB to 1 GiB behind the first page: the bitmap takes
   more than a page and only its first page is reserved.
   */
  lemma StorageNotProtected(free: nat, bits: seq<bool>)
    requires 32768 <= free < 262143
    ensures FindsPlace(OneRegion(free), PAGE_SIZE)
    ensures BootBits(OneRegion(free), PAGE_SIZE, bits) ==> !StorageProtected(OneRegion(free), PAGE_SIZE, bits)
  {
    hide FindsPlace, BitmapWords, BitmapStart;
    var regions := OneRegion(free);
    OneRegionPlaces(free);
    assert regions[1].free && Inside(regions[1], PAGE_SIZE, 2);
    assert InFreeRegion(regions, PAGE_SIZE, 2);
    assert Touches(PAGE_SIZE, PAGE_SIZE + 8 * BitmapWords(regions, PAGE_SIZE), PAGE_SIZE, 2);
  }
}

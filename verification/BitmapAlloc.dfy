/**
 The page allocator of the `bitmap-alloc` crate: a bitmap of 64-bit chunks in which
 a set bit is a used page, and a hint that lets single-page searches start late.

 `Alloc` is the allocator as a value (its bits and its hint), with the search
 written as a plain first fit that never looks at the hint.  `BitmapAllocator` is the
 in-place implementation over chunks, proved to compute exactly that.
 */
module BitmapAlloc {
  import opened Common
  import opened Arithmetic

  const BITS_PER_CHUNK: nat := 64

  /** A `u64` of the bitmap, as its 64 bits with the least significant first. */
  type Chunk = c: seq<bool> | |c| == BITS_PER_CHUNK witness seq(BITS_PER_CHUNK, _ => false)

  /** The bitmap as one sequence of bits. */
  function BitsOf(chunks: seq<Chunk>): (bits: seq<bool>)
    ensures |bits| == |chunks| * BITS_PER_CHUNK
  {
    seq(|chunks| * BITS_PER_CHUNK,
        p requires 0 <= p < |chunks| * BITS_PER_CHUNK => chunks[p / BITS_PER_CHUNK][p % BITS_PER_CHUNK])
  }

  /** The number that a word of the bitmap is. */
  function Value(c: seq<bool>): (n: nat) {
    if c == [] then 0 else (if c[0] then 1 else 0) + 2 * Value(c[1..])
  }

  lemma {:induction false} ValueBits(c: seq<bool>, i: nat)
    requires i < |c|
    ensures c[i] <==> IsSet(Value(c), i)
  {
    hide IsSet;
    var rest := Value(c[1..]);
    assert Value(c) % 2 == (if c[0] then 1 else 0) && Value(c) / 2 == rest;
    IsSetStep(Value(c), i);
    if i > 0 { ValueBits(c[1..], i - 1); }
  }

  /** Page `p` is the bit of value two to the `p % 64` of word `p / 64`. */
  lemma PageIsBit(chunks: seq<Chunk>, p: nat)
    requires p < |chunks| * BITS_PER_CHUNK
    ensures BitsOf(chunks)[p] <==> Value(chunks[p / BITS_PER_CHUNK]) / Pow2(p % BITS_PER_CHUNK) % 2 == 1
  {
    hide Pow2, IsSet;
    var c := chunks[p / BITS_PER_CHUNK];
    ValueBits(c, p % BITS_PER_CHUNK);
    IsSetIs(Value(c), p % BITS_PER_CHUNK);
  }

  // ---------- the allocator as a value ----------

  datatype Alloc = Alloc(bits: seq<bool>, hint: Option<nat>)

  ghost predicate RunFree(bits: seq<bool>, start: nat, n: nat) {
    start + n <= |bits| && forall p :: start <= p < start + n ==> !bits[p]
  }

  ghost predicate RunUsed(bits: seq<bool>, start: nat, n: nat) {
    start + n <= |bits| && forall p :: start <= p < start + n ==> bits[p]
  }

  /** Lowest start, at or above `from`, of a free run of `n` pages. */
  ghost function FirstFit(bits: seq<bool>, n: nat, from: nat): (r: Option<nat>)
    ensures r.Some? ==> from <= r.value && RunFree(bits, r.value, n)
    ensures r.Some? ==> forall q :: from <= q < r.value ==> !RunFree(bits, q, n)
    ensures r.None? ==> forall q :: from <= q ==> !RunFree(bits, q, n)
    decreases |bits| - from
  {
    if RunFree(bits, from, n) then Some(from)
    else if from >= |bits| then None
    else FirstFit(bits, n, from + 1)
  }

  /** The bits with pages `start .. start + n` all set to `used`. */
  function Marked(bits: seq<bool>, start: nat, n: nat, used: bool): (r: seq<bool>)
    ensures |r| == |bits|
    ensures forall p :: 0 <= p < |bits| ==> r[p] == if start <= p < start + n then used else bits[p]
  {
    seq(|bits|, p requires 0 <= p < |bits| => if start <= p < start + n then used else bits[p])
  }

  ghost function Allocate(a: Alloc, n: nat): (r: (Alloc, Option<nat>)) {
    var fit := FirstFit(a.bits, n, 0);
    (Alloc(if fit.Some? then Marked(a.bits, fit.value, n, true) else a.bits,
           if n == 1 then fit else a.hint),
     fit)
  }

  ghost function Free(a: Alloc, start: nat, n: nat): (r: Alloc) {
    Alloc(Marked(a.bits, start, n, false),
          if a.hint.Some? && start < a.hint.value then Some(start) else a.hint)
  }

  /** The hint never skips a free page. */
  ghost predicate HintOk(a: Alloc) {
    a.hint.Some? ==> a.hint.value <= |a.bits| && forall p :: 0 <= p < a.hint.value ==> a.bits[p]
  }

  /** Allocating takes the lowest free run of the length asked for and marks it, and fails exactly when there is none. */
  lemma AllocateIs(a: Alloc, n: nat)
    ensures var (a', r) := Allocate(a, n);
            && (r.Some? <==> exists q: nat :: RunFree(a.bits, q, n))
            && (r.Some? ==> RunFree(a.bits, r.value, n) && forall q :: 0 <= q < r.value ==> !RunFree(a.bits, q, n))
            && |a'.bits| == |a.bits|
            && forall p :: 0 <= p < |a.bits| ==>
                 (a'.bits[p] <==> a.bits[p] || (r.Some? && r.value <= p < r.value + n))
  {
  }

  lemma AllocateKeepsHint(a: Alloc, n: nat)
    requires HintOk(a) && n > 0
    ensures HintOk(Allocate(a, n).0)
  {
    var fit := FirstFit(a.bits, n, 0);
    if n == 1 && fit.Some? {
      forall p | 0 <= p < fit.value ensures a.bits[p] {
        assert !RunFree(a.bits, p, n);
      }
    }
  }

  lemma FreeKeepsHint(a: Alloc, start: nat, n: nat)
    requires HintOk(a)
    ensures HintOk(Free(a, start, n))
  {
  }

  /** A run that starts lower than a used page it would cover is not free. */
  lemma NoRunAcross(bits: seq<bool>, q: nat, n: nat, p: nat)
    requires q <= p < |bits| && bits[p] && p < q + n
    ensures !RunFree(bits, q, n)
  {
  }

  /** First fit is the only answer with these two properties. */
  lemma FirstFitIs(bits: seq<bool>, n: nat, r: Option<nat>)
    requires r.Some? ==> RunFree(bits, r.value, n) && forall q :: 0 <= q < r.value ==> !RunFree(bits, q, n)
    requires r.None? ==> forall q: nat :: !RunFree(bits, q, n)
    ensures r == FirstFit(bits, n, 0)
  {
  }

  /**
   What the search knows when page `p` is the next one to look at.  Normally the `len` pages from
   `start` up to `p` are free; a search that begins inside a chunk, below its hint, is still to
   meet the used page `p`.
   */
  ghost predicate Scanned(bits: seq<bool>, n: nat, p: nat, start: nat, len: nat) {
    && p <= |bits| && len < n
    && (forall q :: 0 <= q < start ==> !RunFree(bits, q, n))
    && (start + len == p || (len == 0 && p < start && p < |bits| && bits[p]))
    && (forall q :: start <= q < start + len && q < |bits| ==> !bits[q])
  }

  // ---------- the allocator in place ----------

  class BitmapAllocator {
    const bitmap: array<Chunk>
    var lastSinglePageAllocation: Option<nat>

    ghost function View(): (a: Alloc)
      reads this, bitmap
    {
      Alloc(BitsOf(bitmap[..]), lastSinglePageAllocation)
    }

    ghost predicate Valid()
      reads this, bitmap
    {
      HintOk(View())
    }

    constructor (bitmap: array<Chunk>)
      ensures this.bitmap == bitmap
      ensures View() == Alloc(BitsOf(bitmap[..]), None)
      ensures Valid()
    {
      this.bitmap := bitmap;
      lastSinglePageAllocation := None;
    }

    method MarkUsed(page: nat)
      requires page < bitmap.Length * BITS_PER_CHUNK && !View().bits[page]
      modifies bitmap
      ensures View() == old(View()).(bits := old(View()).bits[page := true])
    {
      ghost var before := bitmap[..];
      var index, bit := page / BITS_PER_CHUNK, page % BITS_PER_CHUNK;
      bitmap[index] := bitmap[index][bit := true];
      UpdateBit(before, page, true);
      assert bitmap[..] == before[index := before[index][bit := true]];
    }

    method MarkUnused(page: nat)
      requires page < bitmap.Length * BITS_PER_CHUNK && View().bits[page]
      modifies bitmap
      ensures View() == old(View()).(bits := old(View()).bits[page := false])
    {
      ghost var before := bitmap[..];
      var index, bit := page / BITS_PER_CHUNK, page % BITS_PER_CHUNK;
      bitmap[index] := bitmap[index][bit := false];
      UpdateBit(before, page, false);
      assert bitmap[..] == before[index := before[index][bit := false]];
    }

    method FindNextContiguous(numPages: nat) returns (r: Option<nat>)
      requires numPages > 0 && Valid()
      ensures r == FirstFit(View().bits, numPages, 0)
    {
      ghost var bits := View().bits;
      var start: nat := if numPages == 1 && lastSinglePageAllocation.Some? then lastSinglePageAllocation.value else 0;
      var byteIdx := start / BITS_PER_CHUNK;
      var currentLen: nat := 0;
      forall q | 0 <= q < start ensures !RunFree(bits, q, numPages) {
        NoRunAcross(bits, q, 1, q);
      }
      var i := byteIdx;
      while i < bitmap.Length
        invariant i <= bitmap.Length
        invariant Scanned(bits, numPages, i * BITS_PER_CHUNK, start, currentLen)
      {
        var chunk := bitmap[i];
        var bit := 0;
        while bit < BITS_PER_CHUNK
          invariant bit <= BITS_PER_CHUNK
          invariant Scanned(bits, numPages, i * BITS_PER_CHUNK + bit, start, currentLen)
        {
          ghost var p := i * BITS_PER_CHUNK + bit;
          assert p / BITS_PER_CHUNK == i && p % BITS_PER_CHUNK == bit;
          assert bits[p] == chunk[bit];
          if !chunk[bit] {
            currentLen := currentLen + 1;
            if currentLen == numPages {
              FirstFitIs(bits, numPages, Some(start));
              return Some(start);
            }
          } else {
            forall q | 0 <= q <= p ensures !RunFree(bits, q, numPages) {
              if start <= q { NoRunAcross(bits, q, numPages, p); }
            }
            start := i * BITS_PER_CHUNK + bit + 1;
            currentLen := 0;
          }
          bit := bit + 1;
        }
        i := i + 1;
      }
      FirstFitIs(bits, numPages, None);
      return None;
    }

    method AllocateContiguous(numPages: nat) returns (r: Option<nat>)
      requires numPages > 0 && Valid()
      modifies this, bitmap
      ensures Valid()
      ensures (View(), r) == Allocate(old(View()), numPages)
    {
      ghost var before := View();
      AllocateKeepsHint(before, numPages);
      r := FindNextContiguous(numPages);
      if numPages == 1 {
        lastSinglePageAllocation := r;
      }
      if r.None? {
        return;
      }
      for page := r.value to r.value + numPages
        invariant View().hint == Allocate(before, numPages).0.hint
        invariant View().bits == Marked(before.bits, r.value, page - r.value, true)
      {
        MarkUsed(page);
      }
    }

    method FreeContiguous(startPage: nat, numPages: nat)
      requires numPages > 0 && Valid()
      requires RunUsed(View().bits, startPage, numPages)
      modifies this, bitmap
      ensures Valid()
      ensures View() == Free(old(View()), startPage, numPages)
    {
      ghost var before := View();
      FreeKeepsHint(before, startPage, numPages);
      for page := startPage to startPage + numPages
        invariant View().hint == before.hint
        invariant View().bits == Marked(before.bits, startPage, page - startPage, false)
      {
        MarkUnused(page);
      }
      if lastSinglePageAllocation.Some? && startPage < lastSinglePageAllocation.value {
        lastSinglePageAllocation := Some(startPage);
      }
    }
  }

  /** Setting one bit of one chunk sets that page's bit and no other. */
  lemma UpdateBit(chunks: seq<Chunk>, page: nat, used: bool)
    requires page < |chunks| * BITS_PER_CHUNK
    ensures var index := page / BITS_PER_CHUNK;
            BitsOf(chunks[index := chunks[index][page % BITS_PER_CHUNK := used]]) == BitsOf(chunks)[page := used]
  {
  }
}

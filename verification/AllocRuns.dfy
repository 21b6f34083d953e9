/**
 Whole runs of the bitmap allocator: any sequence of allocations, and of frees of blocks that
 are still outstanding, from any initial bitmap.
 */
module AllocRuns {
  import opened Common
  import opened BitmapAlloc

  datatype Block = Block(start: nat, len: nat)

  /** `FreeNth(k)` returns the `k`-th outstanding block, counting round the list; it does nothing when there is none. */
  datatype Request = Obtain(pages: nat) | FreeNth(k: nat)

  /** The allocator, the bitmap it began with, and the blocks handed out and not returned. */
  datatype Ledger = Ledger(initial: seq<bool>, alloc: Alloc, live: seq<Block>)

  function Fresh(initial: seq<bool>): (l: Ledger) {
    Ledger(initial, Alloc(initial, None), [])
  }

  /** `mark_used` on a run of pages, one page after another; `None` when an assertion or an index check fires. */
  function MarkEachUsed(bits: seq<bool>, start: nat, n: nat): (r: Option<seq<bool>>)
    decreases n
  {
    if n == 0 then Some(bits)
    else if start < |bits| && !bits[start] then MarkEachUsed(bits[start := true], start + 1, n - 1)
    else None
  }

  function MarkEachUnused(bits: seq<bool>, start: nat, n: nat): (r: Option<seq<bool>>)
    decreases n
  {
    if n == 0 then Some(bits)
    else if start < |bits| && bits[start] then MarkEachUnused(bits[start := false], start + 1, n - 1)
    else None
  }

  function Without<T>(s: seq<T>, k: nat): (r: seq<T>)
    requires k < |s|
  {
    s[..k] + s[k + 1..]
  }

  /** One request; `None` when the allocator panics. */
  ghost function Serve(l: Ledger, req: Request): (r: Option<Ledger>) {
    match req
    case Obtain(n) =>
      if n == 0 then None else
      var (a, got) := Allocate(l.alloc, n);
      if got.None? then Some(l.(alloc := a))
      else if MarkEachUsed(l.alloc.bits, got.value, n) != Some(a.bits) then None
      else Some(l.(alloc := a, live := l.live + [Block(got.value, n)]))
    case FreeNth(k) =>
      if |l.live| == 0 then Some(l) else
      var b := l.live[k % |l.live|];
      var a := Free(l.alloc, b.start, b.len);
      if b.len == 0 || MarkEachUnused(l.alloc.bits, b.start, b.len) != Some(a.bits) then None
      else Some(l.(alloc := a, live := Without(l.live, k % |l.live|)))
  }

  ghost function Run(l: Ledger, reqs: seq<Request>): (r: Option<Ledger>)
    decreases |reqs|
  {
    if reqs == [] then Some(l) else
    match Serve(l, reqs[0])
    case None => None
    case Some(l') => Run(l', reqs[1..])
  }

  predicate Covers(b: Block, p: int) { b.start <= p < b.start + b.len }

  ghost predicate Disjoint(live: seq<Block>) {
    forall i, j, p :: 0 <= i < j < |live| && Covers(live[i], p) ==> !Covers(live[j], p)
  }

  ghost predicate Owned(live: seq<Block>, p: int) {
    exists i :: 0 <= i < |live| && Covers(live[i], p)
  }

  /** Outstanding blocks are disjoint and lie on pages that were free at the start; the used pages are the
      initial ones and theirs, and no others. */
  ghost predicate Conserved(l: Ledger) {
    && HintOk(l.alloc)
    && |l.alloc.bits| == |l.initial|
    && Disjoint(l.live)
    && (forall b :: b in l.live ==> b.len > 0 && b.start + b.len <= |l.initial|)
    && (forall p :: 0 <= p < |l.initial| ==> (l.alloc.bits[p] <==> l.initial[p] || Owned(l.live, p)))
    && (forall b, p :: b in l.live && Covers(b, p) ==> 0 <= p < |l.initial| && !l.initial[p])
  }

  lemma {:induction false} MarkUsedRun(bits: seq<bool>, start: nat, n: nat)
    requires RunFree(bits, start, n)
    ensures MarkEachUsed(bits, start, n) == Some(Marked(bits, start, n, true))
    decreases n
  {
    if n == 0 {
      assert Marked(bits, start, n, true) == bits;
    } else {
      MarkUsedRun(bits[start := true], start + 1, n - 1);
      assert Marked(bits[start := true], start + 1, n - 1, true) == Marked(bits, start, n, true);
    }
  }

  lemma {:induction false} MarkUnusedRun(bits: seq<bool>, start: nat, n: nat)
    requires RunUsed(bits, start, n)
    ensures MarkEachUnused(bits, start, n) == Some(Marked(bits, start, n, false))
    decreases n
  {
    if n == 0 {
      assert Marked(bits, start, n, false) == bits;
    } else {
      MarkUnusedRun(bits[start := false], start + 1, n - 1);
      assert Marked(bits[start := false], start + 1, n - 1, false) == Marked(bits, start, n, false);
    }
  }

  lemma ObtainConserves(l: Ledger, n: nat)
    requires Conserved(l) && n > 0
    ensures Serve(l, Obtain(n)).Some? && Conserved(Serve(l, Obtain(n)).value)
  {
    AllocateKeepsHint(l.alloc, n);
    var (a, got) := Allocate(l.alloc, n);
    if got.Some? {
      MarkUsedRun(l.alloc.bits, got.value, n);
      var b := Block(got.value, n);
      var live := l.live + [b];
      forall i, j, p | 0 <= i < j < |live| && Covers(live[i], p) ensures !Covers(live[j], p) {
        assert Covers(l.live[i], p) && Owned(l.live, p);
      }
      forall p | 0 <= p < |l.initial| ensures a.bits[p] <==> l.initial[p] || Owned(live, p) {
        if Owned(l.live, p) {
          var i :| 0 <= i < |l.live| && Covers(l.live[i], p);
          assert Covers(live[i], p);
        }
        if Covers(b, p) {
          assert Covers(live[|l.live|], p);
        }
      }
    }
  }

  lemma FreeConserves(l: Ledger, k: nat)
    requires Conserved(l)
    ensures Serve(l, FreeNth(k)).Some? && Conserved(Serve(l, FreeNth(k)).value)
  {
    if |l.live| > 0 {
      var i := k % |l.live|;
      var b := l.live[i];
      var live := Without(l.live, i);
      forall p | Covers(b, p) ensures l.alloc.bits[p] {
        assert Owned(l.live, p);
      }
      FreeKeepsHint(l.alloc, b.start, b.len);
      MarkUnusedRun(l.alloc.bits, b.start, b.len);
      var bits := Free(l.alloc, b.start, b.len).bits;
      forall p | 0 <= p < |l.initial| ensures bits[p] <==> l.initial[p] || Owned(live, p) {
        OwnedWithout(l.live, i, p);
      }
      forall x | x in live ensures x in l.live {}
    }
  }

  lemma OwnedWithout(live: seq<Block>, i: nat, p: int)
    requires i < |live| && Disjoint(live)
    ensures Owned(Without(live, i), p) <==> Owned(live, p) && !Covers(live[i], p)
  {
    var rest := Without(live, i);
    if Owned(rest, p) {
      var j :| 0 <= j < |rest| && Covers(rest[j], p);
      assert Covers(live[if j < i then j else j + 1], p);
    }
    if Owned(live, p) && !Covers(live[i], p) {
      var j :| 0 <= j < |live| && Covers(live[j], p);
      assert Covers(rest[if j < i then j else j - 1], p);
    }
  }

  /** No run of requests panics, and every run conserves pages. */
  lemma {:induction false} RunConserves(l: Ledger, reqs: seq<Request>)
    requires Conserved(l)
    requires forall r :: r in reqs && r.Obtain? ==> r.pages > 0
    ensures Run(l, reqs).Some? && Conserved(Run(l, reqs).value)
    ensures Run(l, reqs).value.initial == l.initial
    decreases |reqs|
  {
    if reqs != [] {
      match reqs[0] {
        case Obtain(n) => ObtainConserves(l, n);
        case FreeNth(k) => FreeConserves(l, k);
      }
      RunConserves(Serve(l, reqs[0]).value, reqs[1..]);
    }
  }

  /** From a new allocator: whatever was done, freeing all that is outstanding restores the initial bitmap. */
  lemma FreeingEverythingRestores(initial: seq<bool>, reqs: seq<Request>)
    requires forall r :: r in reqs && r.Obtain? ==> r.pages > 0
    ensures var mid := Run(Fresh(initial), reqs);
            && mid.Some?
            && var end := Run(mid.value, seq(|mid.value.live|, _ => FreeNth(0)));
               end.Some? && end.value.live == [] && end.value.alloc.bits == initial
  {
    RunConserves(Fresh(initial), reqs);
    var mid := Run(Fresh(initial), reqs).value;
    DrainRestores(mid);
  }

  lemma {:induction false} DrainRestores(l: Ledger)
    requires Conserved(l)
    ensures var end := Run(l, seq(|l.live|, _ => FreeNth(0)));
            end.Some? && end.value.live == [] && end.value.alloc.bits == l.initial
    decreases |l.live|
  {
    var reqs := seq(|l.live|, _ => FreeNth(0));
    if |l.live| > 0 {
      FreeConserves(l, 0);
      var l' := Serve(l, FreeNth(0)).value;
      DrainRestores(l');
      assert reqs[1..] == seq(|l'.live|, _ => FreeNth(0));
    }
  }
}

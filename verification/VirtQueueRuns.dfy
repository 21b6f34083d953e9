/**
 A virtqueue driver and its device as a step system: the driver adds requests and collects completions one entry at a
 time, and the device, at any point in between, takes requests from the available ring and completes them in any
 order. Counts are unbounded here and only their wrapped 16-bit images are in the queue's memory.
 */
module VirtQueueRuns {
  import opened Common
  import opened VirtQueues

  datatype Request<D> = Request(start: nat, elems: seq<Elem>, data: D)

  /**
   The queue, the count of descriptors ever added, every request ever made, the heads the device has taken, the
   requests it has completed with the length it reported for each, how many of those completions the driver has
   processed, what it was told, and how far a pass over the used ring has got.
   */
  datatype World<D> = World(
    q: Queue<D>, next: nat, reqs: seq<Request<D>>, taken: seq<nat>, done: seq<nat>, lens: seq<nat>, seen: nat,
    reports: seq<Report<D>>, pass: Pass)

  /** A pass of `process_new_entries` is at entry `i` and goes up to the used index it read when it began. */
  datatype Pass = Outside | At(i: nat, to: nat)

  datatype Step<D> =
    | Add(elems: seq<Elem>, data: D)
    | Take
    | Complete(k: nat, len: nat)
    | Begin
    | Entry
    | End

  function Size<D>(w: World<D>): (n: nat) { |w.q.desc| }

  function Head<D>(w: World<D>, k: nat): (h: nat)
    requires k < |w.reqs| && Size(w) > 0
  {
    w.reqs[k].start % Size(w)
  }

  /** Request `k` was made and its completion has not been processed. */
  predicate Open<D>(w: World<D>, k: nat) {
    k < |w.reqs| && w.seen <= |w.done| && k !in w.done[..w.seen]
  }

  /**
   What is asked of each side. The driver, which has its queue to itself while it collects, adds a chain only if all
   descriptors from the oldest open request on still fit in the table, and begins to collect before the used index
   wraps past what it has processed. The device takes an entry only when there is one, and completes a request it has
   taken once.
   */
  ghost predicate Enabled<D>(w: World<D>, s: Step<D>) {
    match s
    case Add(elems, _) =>
      && w.pass.Outside? && Chainable(elems) && |elems| <= Size(w)
      && forall k: nat | Open(w, k) :: w.next + |elems| <= w.reqs[k].start + Size(w)
    case Take => w.q.availIdx != |w.taken| % U16
    case Complete(k, _) => k < |w.taken| && k !in w.done
    case Begin => w.pass.Outside? && w.q.last <= w.q.usedIdx
    case Entry => w.pass.At? && w.pass.i < w.pass.to
    case End => w.pass.At? && w.pass.i >= w.pass.to
  }

  /** The state after the driver has been told of the used ring's entry `i`. */
  function Told<D>(w: World<D>, i: nat): (v: World<D>)
    requires Shaped(w.q) && w.q.used[i % Size(w)].id < Size(w)
  {
    var elem := w.q.used[i % Size(w)];
    w.(
      q := w.q.(data := w.q.data[elem.id := None]),
      seen := w.seen + 1,
      reports := w.reports + [Report(elem, ChainIterator(w.q.desc, Some(elem.id)), w.q.data[elem.id])])
  }

  /** The state after a step, `None` where the driver panics. */
  function Effect<D>(w: World<D>, s: Step<D>): (r: Option<World<D>>)
    requires Shaped(w.q)
    requires (s.Complete? ==> s.k < |w.taken|) && (s.Entry? || s.End? ==> w.pass.At?)
    ensures r.Some? ==> Shaped(r.value.q)
  {
    match s
    case Add(elems, d) =>
      var r := Supplied(w.q, elems, d);
      if r.None? then None
      else Some(w.(q := r.value, next := w.next + |elems|, reqs := w.reqs + [Request(w.next, elems, d)]))
    case Take => Some(w.(taken := w.taken + [w.q.avail[|w.taken| % U16 % |w.q.avail|]]))
    case Complete(k, len) =>
      Some(w.(
        q := w.q.(
          used := w.q.used[w.q.usedIdx % |w.q.used| := UsedElem(w.taken[k], len)],
          usedIdx := (w.q.usedIdx + 1) % U16),
        done := w.done + [k],
        lens := w.lens + [len]))
    case Begin => Some(w.(pass := At(w.q.last, w.q.usedIdx)))
    case Entry =>
      if w.q.used[w.pass.i % |w.q.used|].id >= |w.q.data| then None
      else Some(Told(w, w.pass.i).(pass := At(w.pass.i + 1, w.pass.to)))
    case End => Some(w.(q := w.q.(last := Wrap(w.pass.to)), pass := Outside))
  }

  // ---------- the invariant ----------

  /** Requests lie one after another in the count of descriptors, each taking at least one. */
  ghost predicate StartsOk<D>(w: World<D>) {
    && w.q.rawNext == w.next % U16
    && (forall k | 0 <= k < |w.reqs| ::
          && Chainable(w.reqs[k].elems)
          && w.reqs[k].start + |w.reqs[k].elems| <= w.next
          && w.reqs[k].start + (|w.reqs| - k) <= w.next)
    && forall j, k | 0 <= j < k < |w.reqs| :: w.reqs[j].start + |w.reqs[j].elems| <= w.reqs[k].start
  }

  ghost predicate AvailOk<D>(w: World<D>)
    requires Shaped(w.q)
  {
    && w.q.availIdx == |w.reqs| % U16
    && |w.taken| <= |w.reqs|
    && (forall k | 0 <= k < |w.taken| :: w.taken[k] == Head(w, k))
    && forall k | |w.taken| <= k < |w.reqs| :: w.q.avail[k % Size(w)] == Head(w, k)
  }

  ghost predicate UsedOk<D>(w: World<D>)
    requires Shaped(w.q) && |w.taken| <= |w.reqs|
  {
    && w.q.usedIdx == |w.done| % U16
    && w.seen <= |w.done| == |w.lens|
    && (forall j | 0 <= j < |w.done| :: w.done[j] < |w.taken|)
    && (forall i, j | 0 <= i < j < |w.done| :: w.done[i] != w.done[j])
    && forall j | w.seen <= j < |w.done| :: w.q.used[j % Size(w)] == UsedElem(Head(w, w.done[j]), w.lens[j])
  }

  /** An open request fits in the last lap of the table, its chain is intact and its data is kept. */
  ghost predicate Kept<D>(w: World<D>, k: nat)
    requires Shaped(w.q) && k < |w.reqs|
  {
    && w.next <= w.reqs[k].start + Size(w)
    && ChainAt(w.q.desc, w.reqs[k].start, Chained(w.reqs[k].elems))
    && w.q.data[Head(w, k)] == Some(w.reqs[k].data)
  }

  ghost predicate OpenOk<D>(w: World<D>)
    requires Shaped(w.q)
  {
    && (forall k: nat | Open(w, k) :: Kept(w, k))
    && forall h | 0 <= h < Size(w) && w.q.data[h].Some? :: exists k: nat :: Open(w, k) && Head(w, k) == h
  }

  /** The report names the request's head and length and carries its data, and its iterator yields its chain. */
  ghost predicate ReportOk<D>(r: Report<D>, req: Request<D>, len: nat, size: nat)
    requires size > 0
  {
    && r.elem == UsedElem(req.start % size, len)
    && r.data == Some(req.data)
    && Yields(r.chain, Chained(req.elems))
  }

  ghost predicate ReportsOk<D>(w: World<D>)
    requires Size(w) > 0
  {
    && |w.reports| == w.seen <= |w.done| == |w.lens|
    && forall j | 0 <= j < w.seen ::
         && w.done[j] < |w.reqs|
         && ReportOk(w.reports[j], w.reqs[w.done[j]], w.lens[j], Size(w))
  }

  ghost predicate Core<D>(w: World<D>) {
    Shaped(w.q) && StartsOk(w) && AvailOk(w) && UsedOk(w) && OpenOk(w) && ReportsOk(w)
  }

  ghost predicate PassOk<D>(w: World<D>) {
    match w.pass
    case Outside => w.q.last == w.seen < U16
    case At(i, to) => i == w.seen <= to < U16 && to <= |w.done|
  }

  ghost predicate Inv<D>(w: World<D>) {
    Core(w) && PassOk(w)
  }

  // ---------- open requests ----------

  lemma OpenHeadsDiffer<D>(w: World<D>, j: nat, k: nat)
    requires Core(w) && Open(w, j) && Open(w, k) && j != k
    ensures Head(w, j) != Head(w, k)
  {
    assert Kept(w, j) && Kept(w, k);
    if j < k {
      SlotsDiffer(w.reqs[j].start, w.reqs[k].start, Size(w));
    } else {
      SlotsDiffer(w.reqs[k].start, w.reqs[j].start, Size(w));
    }
  }

  /** At most as many requests follow an open one as the table has slots. */
  lemma OpenIsRecent<D>(w: World<D>, k: nat)
    requires Core(w) && Open(w, k)
    ensures |w.reqs| <= k + Size(w)
  {
    assert Kept(w, k);
  }

  lemma PendingIsOpen<D>(w: World<D>, j: nat)
    requires Core(w) && w.seen <= j < |w.done|
    ensures Open(w, w.done[j])
  {
  }

  ghost function Range(lo: int, hi: int): (s: set<int>)
    ensures lo <= hi ==> |s| == hi - lo
    ensures forall x :: x in s <==> lo <= x < hi
    decreases hi - lo
  {
    if lo >= hi then {} else Range(lo, hi - 1) + {hi - 1}
  }

  ghost function Elems(s: seq<nat>): (r: set<int>)
    requires forall i, j | 0 <= i < j < |s| :: s[i] != s[j]
    ensures |r| == |s| && forall x: int :: x in r <==> x >= 0 && x in s
  {
    if s == [] then {}
    else
      assert s == s[..|s| - 1] + [s[|s| - 1]];
      Elems(s[..|s| - 1]) + {s[|s| - 1]}
  }

  lemma SubsetSize(a: set<int>, b: set<int>)
    requires a <= b
    ensures |a| <= |b|
  {
    assert b == a + (b - a) && a !! (b - a);
  }

  lemma Pigeonhole(s: seq<nat>, lo: int, hi: int)
    requires forall i, j | 0 <= i < j < |s| :: s[i] != s[j]
    requires forall i | 0 <= i < |s| :: lo <= s[i] < hi
    requires lo <= hi
    ensures |s| <= hi - lo
  {
    SubsetSize(Elems(s), Range(lo, hi));
  }

  /** The used ring has room: no more completions wait, with one more, than there are slots. */
  lemma UsedFits<D>(w: World<D>)
    requires Core(w)
    ensures |w.done| - w.seen <= Size(w)
    ensures forall k: nat | k < |w.taken| && k !in w.done :: |w.done| - w.seen < Size(w)
  {
    hide PowerOfTwo, ReportsOk;
    forall j | w.seen <= j < |w.done| ensures |w.reqs| <= w.done[j] + Size(w) {
      PendingIsOpen(w, j);
      OpenIsRecent(w, w.done[j]);
    }
    Pigeonhole(w.done[w.seen..], |w.reqs| - Size(w), |w.reqs|);
    forall k: nat | k < |w.taken| && k !in w.done ensures |w.done| - w.seen < Size(w) {
      OpenIsRecent(w, k);
      Pigeonhole(w.done[w.seen..] + [k], |w.reqs| - Size(w), |w.reqs|);
    }
  }

  // ---------- adding ----------

  /** The head a new chain gets holds no data. */
  lemma HeadIsFree<D>(w: World<D>, elems: seq<Elem>, d: D)
    requires Inv(w) && Enabled(w, Add(elems, d))
    ensures w.q.rawNext % Size(w) == w.next % Size(w)
    ensures w.q.data[w.next % Size(w)].None?
  {
    SlotOfWrapped(w.next, Size(w));
    var h := w.next % Size(w);
    forall k: nat | Open(w, k) ensures Head(w, k) != h {
      SlotsDiffer(w.reqs[k].start, w.next, Size(w));
    }
  }

  lemma AddSucceeds<D>(w: World<D>, elems: seq<Elem>, d: D)
    requires Inv(w) && Enabled(w, Add(elems, d))
    ensures Effect(w, Add(elems, d)).Some?
    ensures var v := Effect(w, Add(elems, d)).value;
            && Shaped(v.q) && Size(v) == Size(w) && v.q.last == w.q.last && v.pass == w.pass && v.q.used == w.q.used
            && v.q.usedIdx == w.q.usedIdx
            && v.q.data == w.q.data[w.next % Size(w) := Some(d)]
            && v.q.desc == AddFrom(w.q.desc, w.next % U16, elems, None)
            && v.q.avail == w.q.avail[|w.reqs| % Size(w) := w.next % Size(w)]
            && v.q.availIdx == |v.reqs| % U16
            && v.q.rawNext == v.next % U16
  {
    HeadIsFree(w, elems, d);
    SlotOfWrapped(|w.reqs|, Size(w));
    WrapStep(|w.reqs|);
    WrapAdd(w.next, |elems|);
  }

  lemma WrapAdd(n: nat, m: nat)
    ensures Wrap(Wrap(n) + m) == Wrap(n + m)
  {
  }

  lemma AddOpen<D>(w: World<D>, elems: seq<Elem>, d: D, k: nat)
    requires Inv(w) && Enabled(w, Add(elems, d)) && Effect(w, Add(elems, d)).Some?
    ensures var v := Effect(w, Add(elems, d)).value; Open(v, k) <==> Open(w, k) || k == |w.reqs|
  {
  }

  /** An open request's slots lie within one lap of the new ones, so its chain is untouched. */
  lemma AddKeepsOpen<D>(w: World<D>, elems: seq<Elem>, d: D, k: nat)
    requires Inv(w) && Enabled(w, Add(elems, d)) && Effect(w, Add(elems, d)).Some? && Open(w, k)
    ensures var v := Effect(w, Add(elems, d)).value; Shaped(v.q) && k < |v.reqs| && Kept(v, k)
  {
    hide PowerOfTwo, Supplied, AvailOk, UsedOk, ReportsOk, Chained;
    AddSucceeds(w, elems, d);
    AddedChain(w.q.desc, w.next, elems, None);
    var v := Effect(w, Add(elems, d)).value;
    var req := w.reqs[k];
    assert v.reqs[k] == req && Kept(w, k);
    SlotsDiffer(req.start, w.next, Size(w));
    LapSpares(w.q.desc, v.q.desc, req.start, |req.elems|, w.next, |elems|);
    ChainFrame(w.q.desc, v.q.desc, req.start, Chained(req.elems));
  }

  lemma AddKeepsOpenOk<D>(w: World<D>, elems: seq<Elem>, d: D)
    requires Inv(w) && Enabled(w, Add(elems, d)) && Effect(w, Add(elems, d)).Some?
    ensures var v := Effect(w, Add(elems, d)).value; Shaped(v.q) && OpenOk(v)
  {
    hide PowerOfTwo, Supplied, AvailOk, UsedOk, ReportsOk, Chained, ChainAt;
    AddSucceeds(w, elems, d);
    AddedChain(w.q.desc, w.next, elems, None);
    var v := Effect(w, Add(elems, d)).value;
    var n := |w.reqs|;
    assert v.reqs[n] == Request(w.next, elems, d);
    assert Kept(v, n);
    forall k: nat | Open(v, k) ensures Kept(v, k) {
      AddOpen(w, elems, d, k);
      if k != n { AddKeepsOpen(w, elems, d, k); }
    }
    forall h | 0 <= h < Size(v) && v.q.data[h].Some? ensures exists k: nat :: Open(v, k) && Head(v, k) == h {
      AddOpen(w, elems, d, n);
      if h != w.next % Size(w) {
        var k: nat :| Open(w, k) && Head(w, k) == h;
        AddOpen(w, elems, d, k);
        assert v.reqs[k] == w.reqs[k];
      }
    }
  }

  lemma AddKeepsStarts<D>(w: World<D>, elems: seq<Elem>, d: D)
    requires Inv(w) && Enabled(w, Add(elems, d)) && Effect(w, Add(elems, d)).Some?
    ensures StartsOk(Effect(w, Add(elems, d)).value)
  {
    hide PowerOfTwo, Supplied, AvailOk, UsedOk, OpenOk, ReportsOk;
    AddSucceeds(w, elems, d);
  }

  lemma AvailRoom<D>(w: World<D>, elems: seq<Elem>, d: D, k: nat)
    requires Inv(w) && Enabled(w, Add(elems, d)) && |w.taken| <= k < |w.reqs|
    ensures k % Size(w) != |w.reqs| % Size(w)
  {
    assert Open(w, k);
    SlotsDiffer(k, |w.reqs|, Size(w));
  }

  /** No entry of the available ring that the device has still to take is overwritten. */
  lemma AddKeepsAvail<D>(w: World<D>, elems: seq<Elem>, d: D)
    requires Inv(w) && Enabled(w, Add(elems, d)) && Effect(w, Add(elems, d)).Some?
    ensures var v := Effect(w, Add(elems, d)).value; Shaped(v.q) && AvailOk(v)
  {
    AddSucceeds(w, elems, d);
    var v := Effect(w, Add(elems, d)).value;
    forall k | |w.taken| <= k < |w.reqs| ensures k % Size(w) != |w.reqs| % Size(w) {
      AvailRoom(w, elems, d, k);
    }
    hide PowerOfTwo, Supplied, Enabled, StartsOk, UsedOk, OpenOk, ReportsOk;
  }

  lemma AddKeepsReports<D>(w: World<D>, elems: seq<Elem>, d: D)
    requires Inv(w) && Enabled(w, Add(elems, d)) && Effect(w, Add(elems, d)).Some?
    ensures var v := Effect(w, Add(elems, d)).value; Shaped(v.q) && |v.taken| <= |v.reqs| && UsedOk(v) && ReportsOk(v)
  {
    hide PowerOfTwo, Supplied, StartsOk, OpenOk, ReportOk;
    AddSucceeds(w, elems, d);
  }

  // ---------- the device ----------

  /** What is open, and how it is kept, depends only on these parts of the state. */
  lemma SameOpen<D>(w: World<D>, v: World<D>)
    requires Shaped(w.q) && Shaped(v.q) && OpenOk(w)
    requires v.q.desc == w.q.desc && v.q.data == w.q.data && v.next == w.next && v.reqs == w.reqs
    requires w.seen == v.seen <= |w.done| <= |v.done| && v.done[..v.seen] == w.done[..w.seen]
    ensures OpenOk(v)
  {
    hide PowerOfTwo, ChainAt, Chained;
    forall k: nat ensures Open(v, k) == Open(w, k) && (Open(v, k) ==> Kept(v, k)) { }
    forall h | 0 <= h < Size(v) && v.q.data[h].Some? ensures exists k: nat :: Open(v, k) && Head(v, k) == h {
      var k: nat :| Open(w, k) && Head(w, k) == h;
      assert Open(v, k) && Head(v, k) == h;
    }
  }

  lemma TakeKeeps<D>(w: World<D>)
    requires Inv(w) && Enabled(w, Take)
    ensures Effect(w, Take).Some? && Inv(Effect(w, Take).value)
  {
    hide PowerOfTwo, ReportOk, ChainAt, OpenOk, Supplied, ProcessFrom;
    SlotOfWrapped(|w.taken|, Size(w));
    var v := Effect(w, Take).value;
    assert v.taken[|w.taken|] == Head(w, |w.taken|);
    SameOpen(w, v);
  }

  lemma CompleteKeeps<D>(w: World<D>, k: nat, len: nat)
    requires Inv(w) && Enabled(w, Complete(k, len))
    ensures Effect(w, Complete(k, len)).Some? && Inv(Effect(w, Complete(k, len)).value)
  {
    hide PowerOfTwo, ReportOk, ChainAt, OpenOk, Supplied, ProcessFrom;
    UsedFits(w);
    SlotOfWrapped(|w.done|, Size(w));
    WrapStep(|w.done|);
    var v := Effect(w, Complete(k, len)).value;
    assert v.done[..v.seen] == w.done[..w.seen];
    SameOpen(w, v);
    forall j | v.seen <= j < |v.done|
      ensures v.q.used[j % Size(v)] == UsedElem(Head(v, v.done[j]), v.lens[j])
    {
      if j < |w.done| { SlotsDiffer(j, |w.done|, Size(w)); }
    }
  }

  // ---------- collecting ----------

  lemma ToldOpen<D>(w: World<D>, k: nat)
    requires Core(w) && w.seen < |w.done| && w.q.used[w.seen % Size(w)].id < Size(w)
    ensures Open(Told(w, w.seen), k) <==> Open(w, k) && k != w.done[w.seen]
  {
    assert w.done[..w.seen + 1] == w.done[..w.seen] + [w.done[w.seen]];
  }

  lemma NextEntry<D>(w: World<D>)
    requires Core(w) && w.seen < |w.done|
    ensures w.done[w.seen] < |w.reqs| && Kept(w, w.done[w.seen]) && Open(w, w.done[w.seen])
    ensures w.q.used[w.seen % Size(w)] == UsedElem(Head(w, w.done[w.seen]), w.lens[w.seen])
  {
    PendingIsOpen(w, w.seen);
  }

  lemma ToldOpenOk<D>(w: World<D>)
    requires Core(w) && w.seen < |w.done| && w.q.used[w.seen % Size(w)].id < Size(w)
    ensures OpenOk(Told(w, w.seen))
  {
    NextEntry(w);
    var k := w.done[w.seen];
    var v := Told(w, w.seen);
    forall i: nat | Open(v, i) ensures Kept(v, i) {
      ToldOpen(w, i);
      OpenHeadsDiffer(w, i, k);
      assert Kept(w, i);
    }
    hide ReportsOk, UsedOk, AvailOk, StartsOk, Kept;
    forall h | 0 <= h < Size(v) && v.q.data[h].Some? ensures exists i: nat :: Open(v, i) && Head(v, i) == h {
      var i: nat :| Open(w, i) && Head(w, i) == h;
      ToldOpen(w, i);
    }
  }

  lemma NextReportOk<D>(w: World<D>)
    requires Core(w) && w.seen < |w.done| && w.q.used[w.seen % Size(w)].id < Size(w)
    ensures w.done[w.seen] < |w.reqs| && |Told(w, w.seen).reports| == |w.reports| + 1
    ensures ReportOk(Told(w, w.seen).reports[|w.reports|], w.reqs[w.done[w.seen]], w.lens[w.seen], Size(w))
  {
    NextEntry(w);
    var req := w.reqs[w.done[w.seen]];
    ChainYields(w.q.desc, req.start, Chained(req.elems));
    hide Yields, ChainAt, Chained, PowerOfTwo, StartsOk, AvailOk, OpenOk, ReportsOk;
  }

  lemma ToldReportsOk<D>(w: World<D>)
    requires Core(w) && w.seen < |w.done| && w.q.used[w.seen % Size(w)].id < Size(w)
    ensures ReportsOk(Told(w, w.seen))
  {
    NextReportOk(w);
    hide ReportOk, PowerOfTwo, StartsOk, AvailOk, UsedOk, OpenOk;
  }

  /** The next completion in the used ring is reported with its own data and chain, and the others stay as they were. */
  lemma ToldKeeps<D>(w: World<D>)
    requires Core(w) && w.seen < |w.done|
    ensures w.q.used[w.seen % Size(w)].id < Size(w) && Core(Told(w, w.seen))
  {
    NextEntry(w);
    ToldOpenOk(w);
    ToldReportsOk(w);
    hide OpenOk, ReportsOk, PowerOfTwo;
  }

  lemma ProcessOne<D>(w: World<D>, i: nat, to: nat)
    requires Shaped(w.q) && i == w.seen % U16 < to && w.q.used[w.seen % Size(w)].id < Size(w)
    ensures var v := Told(w, w.seen);
            && |v.reports| == |w.reports| + 1
            && ProcessFrom(w.q, i, to) == After(v.reports[|w.reports|..], ProcessFrom(v.q, i + 1, to))
  {
    SlotOfWrapped(w.seen, Size(w));
  }

  function Collected<D>(w: World<D>, r: Outcome<D>): (v: World<D>)
    requires r.Done?
  {
    w.(q := r.q, seen := |w.done|, reports := w.reports + r.reports)
  }

  lemma NoWrapYet(n: nat)
    requires n % U16 + 1 < U16
    ensures (n + 1) % U16 == n % U16 + 1
  {
  }

  lemma {:induction false} CollectFrom<D>(w: World<D>, i: nat, to: nat)
    requires Core(w) && i == w.seen % U16 && i + (|w.done| - w.seen) == to < U16
    ensures var r := ProcessFrom(w.q, i, to);
            && r.Done? && Core(Collected(w, r))
            && r.q.usedIdx == w.q.usedIdx && r.q.last == w.q.last
            && |r.reports| == |w.done| - w.seen
    decreases |w.done| - w.seen
  {
    hide PowerOfTwo, StartsOk, AvailOk, OpenOk, ReportsOk;
    var r := ProcessFrom(w.q, i, to);
    if w.seen == |w.done| {
      assert Collected(w, r) == w;
    } else {
      ToldKeeps(w);
      ProcessOne(w, i, to);
      NoWrapYet(w.seen);
      CollectFrom(Told(w, w.seen), i + 1, to);
      CollectedTold(w, ProcessFrom(Told(w, w.seen).q, i + 1, to));
    }
  }

  lemma CollectedTold<D>(w: World<D>, r: Outcome<D>)
    requires Shaped(w.q) && w.q.used[w.seen % Size(w)].id < Size(w) && r.Done?
    ensures var v := Told(w, w.seen);
            Collected(v, r) == Collected(w, After(v.reports[|w.reports|..], r))
  {
    var v := Told(w, w.seen);
    assert v.reports + r.reports == w.reports + (v.reports[|w.reports|..] + r.reports);
  }

  /** The core of the invariant mentions neither the last processed index nor the pass. */
  lemma CoreFree<D>(w: World<D>, last: nat, pass: Pass)
    requires Core(w) && last < U16
    ensures Core(w.(q := w.q.(last := last), pass := pass))
  {
    assert Size(w) > 0;
    hide PowerOfTwo, ReportOk;
    var v := w.(q := w.q.(last := last), pass := pass);
    SameOpen(w, v);
    hide OpenOk;
  }

  lemma BeginKeeps<D>(w: World<D>)
    requires Inv(w) && Enabled(w, Begin)
    ensures Effect(w, Begin).Some? && Inv(Effect(w, Begin).value) && w.q.usedIdx == |w.done| < U16
  {
    hide StartsOk, AvailOk, OpenOk, ReportsOk, PowerOfTwo, Supplied, Told;
    UsedFits(w);
    SameLap(w.seen, |w.done|);
    CoreFree(w, w.q.last, At(w.q.last, w.q.usedIdx));
  }

  lemma EntryKeeps<D>(w: World<D>)
    requires Inv(w) && Enabled(w, Entry)
    ensures Effect(w, Entry).Some? && Inv(Effect(w, Entry).value)
    ensures Effect(w, Entry).value == Told(w, w.seen).(pass := At(w.seen + 1, w.pass.to))
  {
    hide StartsOk, AvailOk, UsedOk, OpenOk, ReportsOk, PowerOfTwo, Supplied;
    ToldKeeps(w);
    CoreFree(Told(w, w.seen), w.q.last, At(w.seen + 1, w.pass.to));
  }

  lemma EndKeeps<D>(w: World<D>)
    requires Inv(w) && Enabled(w, End)
    ensures Effect(w, End).Some? && Inv(Effect(w, End).value)
  {
    hide Core, Supplied, Told, PowerOfTwo;
    CoreShaped(w);
    CoreFree(w, w.pass.to, Outside);
  }

  /** With no device step in between, a pass goes over every completion there is. */
  lemma ProcessesAll<D>(w: World<D>)
    requires Inv(w) && Enabled(w, Begin)
    ensures Process(w.q).Done? && |Process(w.q).reports| == |w.done| - w.seen
  {
    BeginKeeps(w);
    CollectFrom(w, w.q.last, w.q.usedIdx);
    hide PowerOfTwo, ProcessFrom;
  }

  /** Within less than a full wrap, the wrapped counts are in order exactly when no wrap lies between them. */
  lemma SameLap(seen: nat, done: nat)
    requires seen < U16 && seen <= done < seen + U16
    ensures seen <= done % U16 <==> done < U16
    ensures done < U16 ==> done % U16 == done
  {
  }

  // ---------- when completions are lost ----------

  /**
   Collecting tells the driver of all new completions exactly when fewer than 65536 requests were completed since the
   queue was made, which is when the used index is not below the last one processed.
   */
  lemma CollectsAllWhen<D>(w: World<D>)
    requires Inv(w) && w.pass.Outside?
    ensures Process(w.q).Done?
    ensures |Process(w.q).reports| == |w.done| - w.seen <==> |w.done| < U16
    ensures w.q.last <= w.q.usedIdx <==> |w.done| < U16
  {
    UsedFits(w);
    SameLap(w.seen, |w.done|);
    if w.q.last <= w.q.usedIdx { ProcessesAll(w); }
  }

  /**
   Past the wrap the whole batch is lost: nothing is reported, the entries count as processed, and the data of each
   stays in place, so that adding a chain at one of those heads panics.
   */
  lemma CrossingLosesBatch<D>(w: World<D>)
    requires Inv(w) && w.pass.Outside? && |w.done| >= U16
    ensures Process(w.q) == Done(w.q.(last := w.q.usedIdx), []) && w.seen < |w.done|
    ensures forall j, elems, d: D | w.seen <= j < |w.done| && w.next % Size(w) == Head(w, w.done[j]) ::
              Supplied(Process(w.q).q, elems, d).None?
  {
    CollectsAllWhen(w);
    SlotOfWrapped(w.next, Size(w));
    forall j | w.seen <= j < |w.done| ensures w.q.data[Head(w, w.done[j])].Some? {
      PendingIsOpen(w, j);
      assert Kept(w, w.done[j]);
    }
  }

  // ---------- runs ----------

  /** A queue nothing has been added to. */
  ghost predicate Fresh<D>(w: World<D>) {
    && Shaped(w.q) && (forall h | 0 <= h < Size(w) :: w.q.data[h].None?)
    && w.q.rawNext == w.q.availIdx == w.q.usedIdx == w.q.last == 0
    && w.next == w.seen == 0 && w.reqs == [] && w.taken == w.done == w.lens == [] && w.reports == []
    && w.pass.Outside?
  }

  lemma FreshIsSound<D>(w: World<D>)
    requires Fresh(w)
    ensures Inv(w)
  {
  }

  lemma AddKeeps<D>(w: World<D>, elems: seq<Elem>, d: D)
    requires Inv(w) && Enabled(w, Add(elems, d))
    ensures Effect(w, Add(elems, d)).Some? && Inv(Effect(w, Add(elems, d)).value)
  {
    hide StartsOk, AvailOk, UsedOk, OpenOk, ReportsOk, PowerOfTwo;
    AddSucceeds(w, elems, d);
    AddKeepsOpenOk(w, elems, d);
    AddKeepsStarts(w, elems, d);
    AddKeepsAvail(w, elems, d);
    AddKeepsReports(w, elems, d);
  }

  /** No step that both sides are allowed makes the driver panic, and each keeps the invariant. */
  lemma StepKeeps<D>(w: World<D>, s: Step<D>)
    requires Inv(w) && Enabled(w, s)
    ensures Effect(w, s).Some? && Inv(Effect(w, s).value)
  {
    hide Core, Effect;
    match s
    case Add(elems, d) => AddKeeps(w, elems, d);
    case Take => TakeKeeps(w);
    case Complete(k, len) => CompleteKeeps(w, k, len);
    case Begin => BeginKeeps(w);
    case Entry => EntryKeeps(w);
    case End => EndKeeps(w);
  }

  /** Every step is allowed in the state it is made in, as far as the run gets. */
  ghost predicate Legal<D>(w: World<D>, steps: seq<Step<D>>)
    requires Shaped(w.q)
    decreases |steps|
  {
    steps == [] ||
    (&& Enabled(w, steps[0])
     && (Effect(w, steps[0]).Some? ==> Legal(Effect(w, steps[0]).value, steps[1..])))
  }

  ghost function Exec<D>(w: World<D>, steps: seq<Step<D>>): (r: Option<World<D>>)
    requires Shaped(w.q) && Legal(w, steps)
    ensures r.Some? ==> Shaped(r.value.q)
    decreases |steps|
  {
    if steps == [] then Some(w)
    else if Effect(w, steps[0]).None? then None
    else Exec(Effect(w, steps[0]).value, steps[1..])
  }

  lemma {:induction false} RunKeeps<D>(w: World<D>, steps: seq<Step<D>>)
    requires Inv(w) && Legal(w, steps)
    ensures Exec(w, steps).Some? && Inv(Exec(w, steps).value)
    decreases |steps|
  {
    if steps != [] {
      StepKeeps(w, steps[0]);
      RunKeeps(Effect(w, steps[0]).value, steps[1..]);
    }
  }

  /**
   Over every run from a fresh queue, the driver never panics, every report is of a different completed request, in
   the order of completion, with that request's own data, length and chain, and a head holds data exactly while a
   request at it is open.
   */
  lemma RunsDeliver<D>(w: World<D>, steps: seq<Step<D>>)
    requires Fresh(w) && Legal(w, steps)
    ensures Exec(w, steps).Some?
    ensures var v := Exec(w, steps).value;
            && Shaped(v.q) && |v.reports| == v.seen <= |v.done| == |v.lens|
            && (forall i, j | 0 <= i < j < |v.done| :: v.done[i] != v.done[j])
            && (forall j | 0 <= j < |v.reports| ::
                  v.done[j] < |v.reqs| && ReportOk(v.reports[j], v.reqs[v.done[j]], v.lens[j], Size(v)))
            && (forall h | 0 <= h < Size(v) ::
                  v.q.data[h].Some? <==> exists k: nat :: Open(v, k) && Head(v, k) == h)
            && (forall k: nat | Open(v, k) :: v.q.data[Head(v, k)] == Some(v.reqs[k].data))
  {
    FreshIsSound(w);
    RunKeeps(w, steps);
    hide ReportOk, PowerOfTwo, Exec, ChainAt;
    var v := Exec(w, steps).value;
    forall h | 0 <= h < Size(v)
      ensures v.q.data[h].Some? <==> exists k: nat :: Open(v, k) && Head(v, k) == h
    {
      if k: nat :| Open(v, k) && Head(v, k) == h { assert Kept(v, k); }
    }
    forall k: nat | Open(v, k) ensures v.q.data[Head(v, k)] == Some(v.reqs[k].data) {
      assert Kept(v, k);
    }
  }

  // ---------- the loss is reachable ----------

  ghost predicate Runs<D>(w: World<D>, steps: seq<Step<D>>, v: World<D>) {
    Shaped(w.q) && Legal(w, steps) && Exec(w, steps) == Some(v)
  }

  lemma {:induction false} OneMore<D>(w: World<D>, steps: seq<Step<D>>, v: World<D>, s: Step<D>)
    requires Runs(w, steps, v) && Shaped(v.q) && Enabled(v, s) && Effect(v, s).Some?
    ensures Runs(w, steps + [s], Effect(v, s).value)
    decreases |steps|
  {
    hide Shaped, Effect;
    if steps == [] {
      assert steps + [s] == [s] && [s][1..] == [];
      assert Legal(Effect(w, s).value, []) && Exec(Effect(w, s).value, []) == Some(Effect(w, s).value);
      assert Legal(w, [s]) && Exec(w, [s]) == Effect(w, s);
    } else {
      assert (steps + [s])[1..] == steps[1..] + [s];
      OneMore(Effect(w, steps[0]).value, steps[1..], v, s);
    }
  }

  lemma {:induction false} Append<D>(
      w: World<D>, steps: seq<Step<D>>, v: World<D>, more: seq<Step<D>>, u: World<D>)
    requires Runs(w, steps, v) && Runs(v, more, u)
    ensures Runs(w, steps + more, u)
    decreases |steps|
  {
    hide Shaped, Effect;
    if steps == [] {
      assert steps + more == more;
    } else {
      assert (steps + more)[1..] == steps[1..] + more;
      Append(Effect(w, steps[0]).value, steps[1..], v, more, u);
    }
  }

  function Entries<D>(n: nat): (steps: seq<Step<D>>) {
    seq(n, _ => Entry)
  }

  lemma {:induction false} EntriesRun<D>(w0: World<D>, steps: seq<Step<D>>, w: World<D>, to: nat)
    requires Runs(w0, steps, w) && Inv(w) && w.pass == At(w.seen, to) && to == |w.done|
    ensures var r := ProcessFrom(w.q, w.seen, to);
            && r.Done?
            && Runs(w0, steps + Entries(to - w.seen), Collected(w, r).(pass := At(to, to)))
    decreases |w.done| - w.seen
  {
    hide Runs, Core, Effect;
    CoreShaped(w);
    assert w.seen % U16 == w.seen;
    if w.seen == to {
      assert Collected(w, ProcessFrom(w.q, w.seen, to)) == w;
      assert steps + Entries(0) == steps;
    } else {
      EntryKeeps(w);
      var v := Effect(w, Entry).value;
      CoreShaped(v);
      OneMore(w0, steps, w, Entry);
      EntriesRun(w0, steps + [Entry], v, to);
      ToldFits(w);
      ProcessOne(w, w.seen, to);
      CollectedTold(w, ProcessFrom(v.q, w.seen + 1, to));
      assert steps + [Entry] + Entries(to - v.seen) == steps + Entries(to - w.seen);
    }
  }

  lemma CoreShaped<D>(w: World<D>)
    requires Core(w)
    ensures Shaped(w.q)
  {
  }

  lemma ToldFits<D>(w: World<D>)
    requires Core(w) && w.seen < |w.done|
    ensures Shaped(w.q) && w.q.used[w.seen % Size(w)].id < Size(w)
  {
    ToldKeeps(w);
  }

  /** A pass that the device does not interrupt is the processing of all new entries at once. */
  lemma PassIsProcess<D>(w: World<D>)
    requires Inv(w) && Enabled(w, Begin)
    ensures var r := Process(w.q);
            && r.Done?
            && Runs(w, [Begin] + Entries(w.q.usedIdx - w.q.last) + [End], Collected(w, r))
  {
    hide Core, Supplied, Told, PowerOfTwo, ProcessFrom;
    CoreShaped(w);
    BeginKeeps(w);
    var v := Effect(w, Begin).value;
    assert Legal(w, []) && Runs(w, [], w);
    OneMore(w, [], w, Begin);
    var first: seq<Step<D>> := [Begin];
    assert [] + first == first;
    EntriesRun(w, [Begin], v, w.q.usedIdx);
    var r := ProcessFrom(w.q, w.seen, w.q.usedIdx);
    OneMore(w, [Begin] + Entries(w.q.usedIdx - w.q.last), Collected(v, r).(pass := At(w.q.usedIdx, w.q.usedIdx)), End);
  }

  lemma {:induction false} PassGoesOn<D>(w: World<D>, steps: seq<Step<D>>, v: World<D>)
    requires Inv(w) && w.pass.At? && Runs(w, steps, v) && End !in steps
    ensures Inv(v) && v.pass.At? && v.pass.to == w.pass.to
    decreases |steps|
  {
    hide Core, Supplied, Shaped, Told;
    if steps != [] {
      StepKeeps(w, steps[0]);
      assert steps[0] in steps;
      PassGoesOn(Effect(w, steps[0]).value, steps[1..], v);
    }
  }

  /** Whatever the device does meanwhile, when a pass ends the driver has been told of exactly the completions that were
      there when it began. */
  lemma PassReportsAll<D>(w: World<D>, steps: seq<Step<D>>, v: World<D>)
    requires Inv(w) && Enabled(w, Begin) && End !in steps
    requires Runs(Effect(w, Begin).value, steps, v) && Enabled(v, End)
    ensures Shaped(v.q) && Effect(v, End).Some?
    ensures var u := Effect(v, End).value; Inv(u) && |u.reports| == u.seen == |w.done|
  {
    BeginKeeps(w);
    PassGoesOn(Effect(w, Begin).value, steps, v);
    EndKeeps(v);
    hide StartsOk, AvailOk, UsedOk, OpenOk, PowerOfTwo, Exec, Legal;
  }

  /** Every request ever made has been taken, completed and processed. */
  ghost predicate Idle<D>(w: World<D>) {
    && w.pass.Outside? && |w.reqs| == |w.taken| == |w.done| == w.seen
    && forall k | 0 <= k < |w.reqs| :: k in w.done
  }

  function Single(): (elems: seq<Elem>)
    ensures Chainable(elems) && |elems| == 1
  {
    var e := Elem(0, 0, Flags(false, false, false));
    assert [e][0] == e;
    [e]
  }

  /** From an idle queue a further request can be added, taken and completed. */
  lemma CanServe<D>(v: World<D>, d: D) returns (a: World<D>, b: World<D>, c: World<D>)
    requires Inv(v) && Idle(v)
    ensures Enabled(v, Add(Single(), d)) && Effect(v, Add(Single(), d)) == Some(a) && Inv(a)
    ensures Enabled(a, Take) && Effect(a, Take) == Some(b) && Inv(b)
    ensures Enabled(b, Complete(v.seen, 0)) && Effect(b, Complete(v.seen, 0)) == Some(c) && Inv(c)
    ensures |c.reqs| == |v.reqs| + 1 && |c.taken| == |v.taken| + 1 && c.done == v.done + [v.seen] && c.seen == v.seen
    ensures c.pass.Outside?
  {
    assert v.done[..v.seen] == v.done;
    StepKeeps(v, Add(Single(), d));
    a := Effect(v, Add(Single(), d)).value;
    StepDiffers(|v.reqs|);
    StepKeeps(a, Take);
    b := Effect(a, Take).value;
    StepKeeps(b, Complete(v.seen, 0));
    c := Effect(b, Complete(v.seen, 0)).value;
  }

  lemma ServeOne<D>(w: World<D>, steps: seq<Step<D>>, v: World<D>, d: D) returns (more: seq<Step<D>>, c: World<D>)
    requires Runs(w, steps, v) && Inv(v) && Idle(v)
    ensures Runs(w, more, c) && Inv(c) && |c.reqs| == |v.reqs| + 1 && |c.taken| == |v.taken| + 1
    ensures c.done == v.done + [v.seen] && c.seen == v.seen && c.pass.Outside?
  {
    var a, b;
    a, b, c := CanServe(v, d);
    hide Runs, Enabled, Effect, Single, StartsOk, AvailOk, UsedOk, OpenOk, ReportsOk, PowerOfTwo;
    OneMore(w, steps, v, Add(Single(), d));
    OneMore(w, steps + [Add(Single(), d)], a, Take);
    OneMore(w, steps + [Add(Single(), d)] + [Take], b, Complete(v.seen, 0));
    more := steps + [Add(Single(), d)] + [Take] + [Complete(v.seen, 0)];
  }

  lemma StepDiffers(n: nat)
    ensures (n + 1) % U16 != n % U16
  {
  }

  lemma {:induction false} ServeMany<D>(w: World<D>, d: D, n: nat) returns (steps: seq<Step<D>>, v: World<D>)
    requires Fresh(w) && n < U16
    ensures Runs(w, steps, v) && Inv(v) && Idle(v) && v.seen == n
    decreases n, 0
  {
    if n == 0 {
      FreshIsSound(w);
      steps, v := [], w;
    } else {
      steps, v := ServeNext(w, d, n - 1);
      CollectsAllWhen(v);
      PassIsProcess(v);
      var pass := [Begin] + Entries(v.q.usedIdx - v.q.last) + [End];
      RunKeeps(v, pass);
      Append(w, steps, v, pass, Collected(v, Process(v.q)));
      hide Inv, Enabled, Runs;
      steps, v := steps + pass, Collected(v, Process(v.q));
    }
  }

  lemma {:induction false} ServeNext<D>(w: World<D>, d: D, n: nat) returns (steps: seq<Step<D>>, v: World<D>)
    requires Fresh(w) && n < U16
    ensures Runs(w, steps, v) && Inv(v) && v.seen == n && v.pass.Outside?
    ensures |v.reqs| == |v.taken| == |v.done| == n + 1 && forall k | 0 <= k < |v.reqs| :: k in v.done
    decreases n, 1
  {
    steps, v := ServeMany(w, d, n);
    hide Inv, Runs;
    steps, v := ServeOne(w, steps, v, d);
  }

  /** A run of single requests, each completed and all but the last collected, ends with a completion that is lost. */
  lemma LossIsReachable<D>(w: World<D>, d: D)
    requires Fresh(w)
    ensures exists steps ::
              && Legal(w, steps) && Exec(w, steps).Some?
              && var v := Exec(w, steps).value;
              && Shaped(v.q) && v.seen < |v.done| && Process(v.q) == Done(v.q.(last := v.q.usedIdx), [])
  {
    var steps, v := ServeNext(w, d, U16 - 1);
    CrossingLosesBatch(v);
  }

  /**
   The lap condition on adding is needed, and the driver does not notice when it fails: in a table of two descriptors,
   a second request of two overwrites the first one's, which is still open.
   */
  lemma OverlapGoesUnnoticed<D>(w: World<D>, a: Elem, b: Elem, c: Elem, d: D, e: D)
    requires Fresh(w) && Size(w) == 2 && Chainable([a]) && Chainable([b, c]) && a.addr != c.addr
    ensures var q1 := Supplied(w.q, [a], d);
            && q1.Some? && Shaped(q1.value)
            && var q2 := Supplied(q1.value, [b, c], e);
            && q2.Some? && !Yields(ChainIterator(q2.value.desc, Some(0)), [a])
  {
    assert [a][0] == a && [a][1..] == [];
    assert a in [a] && b in [b, c] && c in [b, c];
    var q1 := Supplied(w.q, [a], d).value;
    assert [b, c][1..] == [c] && [c][1..] == [] && [b, c][0] == b && [c][0] == c;
    var t := Link(q1.desc, None, 1)[1 := Raw(b)];
    assert AddFrom(q1.desc, 1, [b, c], None) == AddFrom(t, 2, [c], Some(1));
    assert AddFrom(t, 2, [c], Some(1)) == Link(t, Some(1), 0)[0 := Raw(c)];
  }

  lemma {:induction false} ChainShows(desc: seq<Descriptor>, n: nat, elems: seq<Elem>, j: nat)
    requires |desc| > 0 && j < |elems| && ChainAt(desc, n, Chained(elems))
    ensures desc[(n + j) % |desc|].addr == elems[j].addr
    decreases j
  {
    if j > 0 {
      assert Chained(elems)[1..] == Chained(elems[1..]);
      ChainShows(desc, n + 1, elems[1..], j - 1);
    }
  }

  /**
   Beyond one lap the head of the open request is overwritten whatever the state of the queue: unless the new element
   happens to have the same address, the device's and the driver's walk from that head no longer give the request.
   */
  lemma LapIsNeeded<D>(w: World<D>, elems: seq<Elem>, d: D, k: nat)
    requires Inv(w) && Open(w, k) && Chainable(elems) && |elems| <= Size(w)
    requires w.next <= w.reqs[k].start + Size(w) < w.next + |elems|
    requires elems[w.reqs[k].start + Size(w) - w.next].addr != w.reqs[k].elems[0].addr
    requires Supplied(w.q, elems, d).Some?
    ensures !Yields(ChainIterator(Supplied(w.q, elems, d).value.desc, Some(Head(w, k))), Chained(w.reqs[k].elems))
  {
    hide PowerOfTwo, AvailOk, UsedOk, ReportsOk, AddFrom;
    var n := w.reqs[k].start + Size(w);
    var r := AddFrom(w.q.desc, Wrap(w.next), elems, None);
    AddedChain(w.q.desc, w.next, elems, None);
    ChainShows(r, w.next, elems, n - w.next);
    NextLap(w.reqs[k].start, Size(w));
    assert Chained(w.reqs[k].elems)[0].addr == w.reqs[k].elems[0].addr;
  }

  lemma NextLap(n: nat, size: nat)
    requires size > 0
    ensures (n + size) % size == n % size
  {
    ModOfMultiple(1, 1, size, n);
  }
}

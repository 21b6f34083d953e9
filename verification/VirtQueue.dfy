/**
 The split virtqueue of the VirtIO drivers: the descriptor table with its wrapping 16-bit counter, the chains in it,
 the available and used rings, and the per-request data, in place and as values.
 */
module VirtQueues {
  import opened Common
  import opened Arithmetic

  const U16: nat := 0x1_0000

  // ---------- wrapping indices ----------

  predicate PowerOfTwo(n: nat) {
    n == 1 || (n > 1 && n % 2 == 0 && PowerOfTwo(n / 2))
  }

  lemma {:induction false} PowersDivide(a: nat, b: nat)
    requires PowerOfTwo(a) && PowerOfTwo(b) && a <= b
    ensures a > 0 && exists k: nat :: b == k * a
  {
    if a == 1 {
      assert b == b * a;
    } else {
      PowersDivide(a / 2, b / 2);
      var k: nat :| b / 2 == k * (a / 2);
      calc {
        b;
        2 * (k * (a / 2));
        k * (2 * (a / 2));
        k * a;
      }
    }
  }

  lemma ModOfMultiple(q: nat, k: nat, size: nat, r: nat)
    requires size > 0
    ensures (q * (k * size) + r) % size == r % size
  {
    var m := q * k;
    assert q * (k * size) == m * size;
    var d := r / size;
    assert r == d * size + r % size;
    assert m * size + r == (m + d) * size + r % size;
    DivModIs(m * size + r, size, m + d, r % size);
  }

  /** Because the size is a power of two, taking the slot of the wrapped counter is taking the slot of the true count. */
  lemma SlotOfWrapped(n: nat, size: nat)
    requires PowerOfTwo(size) && size <= U16
    ensures size > 0 && n % U16 % size == n % size
  {
    assert PowerOfTwo(U16) by { U16IsPower(); }
    PowersDivide(size, U16);
    var k: nat :| U16 == k * size;
    ModOfMultiple(n / U16, k, size, n % U16);
    assert n == n / U16 * U16 + n % U16;
  }

  /** 16-bit wrap-around. */
  function Wrap(n: nat): (r: nat)
    ensures r < U16
  {
    n % U16
  }

  lemma WrapStep(n: nat)
    ensures Wrap(Wrap(n) + 1) == Wrap(n + 1)
  {
  }

  lemma U16IsPower()
    ensures PowerOfTwo(U16)
  {
    assert PowerOfTwo(0x1);
    assert PowerOfTwo(0x10);
    assert PowerOfTwo(0x100);
    assert PowerOfTwo(0x1000);
  }

  /** Any `size` consecutive counts have different slots. */
  lemma SlotsDiffer(n: nat, m: nat, size: nat)
    requires size > 0 && n < m < n + size
    ensures n % size != m % size
  {
    var d, e := n / size, m / size;
    assert n == d * size + n % size && m == e * size + m % size;
    MoreSlots(d, n % size, e, m % size, size);
  }

  lemma MoreSlots(d: nat, a: nat, e: nat, b: nat, size: nat)
    requires a < size && b < size
    ensures d * size + a < e * size + b < d * size + a + size ==> a != b
  {
    if d < e { MulGap(d, e, size); }
    if e < d { MulGap(e, d, size); }
  }

  // ---------- descriptors and chains ----------

  datatype Flags = Flags(next: bool, deviceWrite: bool, indirect: bool)
  datatype Elem = Elem(addr: nat, len: nat, flags: Flags)
  datatype Descriptor = Descriptor(addr: nat, len: nat, flags: Flags, next: nat)

  predicate SizeOk(size: nat) {
    PowerOfTwo(size) && size < U16
  }

  /** Points descriptor `prev`, if there is one, at descriptor `idx`. */
  function Link(desc: seq<Descriptor>, prev: Option<nat>, idx: nat): (r: seq<Descriptor>)
    requires prev.Some? ==> prev.value < |desc|
    ensures |r| == |desc|
  {
    if prev.None? then desc
    else
      var d := desc[prev.value];
      desc[prev.value := d.(flags := d.flags.(next := true), next := idx)]
  }

  function Raw(e: Elem): (r: Descriptor) {
    Descriptor(e.addr, e.len, e.flags, 0)
  }

  /** The descriptor table after the elements are added one by one from the wrapped counter `raw` on. */
  function AddFrom(desc: seq<Descriptor>, raw: nat, elems: seq<Elem>, prev: Option<nat>): (r: seq<Descriptor>)
    requires |desc| > 0 && (prev.Some? ==> prev.value < |desc|)
    ensures |r| == |desc|
    decreases |elems|
  {
    if elems == [] then desc
    else
      var idx := raw % |desc|;
      AddFrom(Link(desc, prev, idx)[idx := Raw(elems[0])], Wrap(raw + 1), elems[1..], Some(idx))
  }

  /** The slot of a counter, as the driver computes it. */
  function ElemIndex(raw: nat, size: nat): (i: nat)
    requires size > 0
    ensures i < size
  {
    raw % size
  }

  lemma AddStep(desc: seq<Descriptor>, n: nat, elems: seq<Elem>, k: nat, prev: Option<nat>)
    requires |desc| > 0 && (prev.Some? ==> prev.value < |desc|) && k < |elems|
    ensures var idx := ElemIndex(Wrap(n), |desc|);
            AddFrom(desc, Wrap(n), elems[k..], prev)
            == AddFrom(Link(desc, prev, idx)[idx := Raw(elems[k])], Wrap(n + 1), elems[k + 1..], Some(idx))
  {
    hide Wrap, Link;
    WrapStep(n);
    assert elems[k..][1..] == elems[k + 1..] && elems[k..][0] == elems[k];
  }

  lemma AddNothing(desc: seq<Descriptor>, raw: nat, elems: seq<Elem>, prev: Option<nat>)
    requires |desc| > 0 && (prev.Some? ==> prev.value < |desc|)
    ensures AddFrom(desc, raw, elems[|elems|..], prev) == desc && elems[0..] == elems
  {
  }

  datatype ChainIterator = ChainIterator(desc: seq<Descriptor>, current: Option<nat>)

  /** One step of the chain iterator: the element it yields, if any, and the iterator afterwards. */
  function Next(it: ChainIterator): (r: (Option<Elem>, ChainIterator))
    requires it.current.Some? ==> it.current.value < |it.desc|
  {
    if it.current.None? then (None, it)
    else
      var d := it.desc[it.current.value];
      (Some(Elem(d.addr, d.len, d.flags)), it.(current := if d.flags.next then Some(d.next) else None))
  }

  /** The iterator yields exactly these elements, in this order, and then ends. */
  predicate Yields(it: ChainIterator, elems: seq<Elem>)
    decreases |elems|
  {
    if elems == [] then it.current.None?
    else
      && it.current.Some? && it.current.value < |it.desc|
      && Next(it).0 == Some(elems[0])
      && Yields(Next(it).1, elems[1..])
  }

  /** The elements as the device sees them: all but the last are marked as continuing. */
  function Chained(elems: seq<Elem>): (r: seq<Elem>)
    ensures |r| == |elems|
  {
    if |elems| <= 1 then elems
    else [elems[0].(flags := elems[0].flags.(next := true))] + Chained(elems[1..])
  }

  predicate Chainable(elems: seq<Elem>) {
    elems != [] && !elems[|elems| - 1].flags.next && forall e | e in elems :: !e.flags.indirect
  }

  /** The chain lies in the slots of the counts `n`, `n + 1`, and so on, each pointing to the next. */
  predicate ChainAt(desc: seq<Descriptor>, n: nat, elems: seq<Elem>)
    requires |desc| > 0
    decreases |elems|
  {
    if elems == [] then true
    else
      var d := desc[n % |desc|];
      && Elem(d.addr, d.len, d.flags) == elems[0]
      && d.flags.next == (|elems| > 1)
      && (|elems| > 1 ==> d.next == (n + 1) % |desc|)
      && ChainAt(desc, n + 1, elems[1..])
  }

  lemma {:induction false} ChainYields(desc: seq<Descriptor>, n: nat, elems: seq<Elem>)
    requires |desc| > 0 && elems != [] && ChainAt(desc, n, elems)
    ensures Yields(ChainIterator(desc, Some(n % |desc|)), elems)
    decreases |elems|
  {
    if |elems| > 1 { ChainYields(desc, n + 1, elems[1..]); }
  }

  predicate SameSlots(a: seq<Descriptor>, b: seq<Descriptor>, n: nat, len: nat)
    requires |a| == |b| > 0
  {
    forall k | n <= k < n + len :: a[k % |a|] == b[k % |a|]
  }

  lemma {:induction false} ChainFrame(a: seq<Descriptor>, b: seq<Descriptor>, n: nat, elems: seq<Elem>)
    requires |a| == |b| > 0 && ChainAt(a, n, elems) && SameSlots(a, b, n, |elems|)
    ensures ChainAt(b, n, elems)
    decreases |elems|
  {
    if elems != [] {
      assert a[n % |a|] == b[n % |a|];
      ChainFrame(a, b, n + 1, elems[1..]);
    }
  }

  /** Slots that no added element takes keep their descriptor, except that the previous one is linked. */
  predicate Spares(a: seq<Descriptor>, b: seq<Descriptor>, n: nat, len: nat, prev: Option<nat>)
    requires |a| == |b| > 0
  {
    forall s | 0 <= s < |a| && (forall k | n <= k < n + len :: k % |a| != s) && prev != Some(s) :: a[s] == b[s]
  }

  lemma PrevSpared(a: seq<Descriptor>, b: seq<Descriptor>, n: nat, len: nat)
    requires |a| == |b| > len + 1 && n > 0 && Spares(a, b, n + 1, len, Some(n % |a|))
    ensures b[(n - 1) % |a|] == a[(n - 1) % |a|]
  {
    SlotsDiffer(n - 1, n, |a|);
    forall k | n + 1 <= k < n + 1 + len ensures k % |a| != (n - 1) % |a| {
      SlotsDiffer(n - 1, k, |a|);
    }
  }

  lemma SparesItself(a: seq<Descriptor>, n: nat, prev: Option<nat>)
    requires |a| > 0
    ensures Spares(a, a, n, 0, prev)
  {
  }

  lemma SparesBack(
    a: seq<Descriptor>, d: seq<Descriptor>, b: seq<Descriptor>, n: nat, len: nat, prev: Option<nat>)
    requires |a| == |d| == |b| > 0 && len > 0
    requires Spares(d, b, n + 1, len - 1, Some(n % |a|))
    requires forall s | 0 <= s < |a| && s != n % |a| && prev != Some(s) :: a[s] == d[s]
    ensures Spares(a, b, n, len, prev)
  {
    forall s | 0 <= s < |a| && (forall k | n <= k < n + len :: k % |a| != s) && prev != Some(s) ensures a[s] == b[s] {
      assert n % |a| != s;
      assert forall k | n + 1 <= k < n + 1 + (len - 1) :: k % |a| != s;
      assert d[s] == b[s];
    }
  }

  /**
   Adding a chain that fits in the table writes, from the slot of the count `n` on, a chain of the given elements,
   and changes no other descriptor.
   */
  lemma {:induction false} AddedChain(desc: seq<Descriptor>, n: nat, elems: seq<Elem>, prev: Option<nat>)
    requires SizeOk(|desc|) && Chainable(elems)
    requires if prev.None? then |elems| <= |desc| else n > 0 && prev.value == (n - 1) % |desc| && |elems| < |desc|
    ensures var r := AddFrom(desc, n % U16, elems, prev);
            && ChainAt(r, n, Chained(elems))
            && Spares(desc, r, n, |elems|, prev)
            && (prev.Some? ==> r[prev.value] == Link(desc, prev, n % |desc|)[prev.value])
    decreases |elems|
  {
    hide PowerOfTwo, Spares;
    SlotOfWrapped(n, |desc|);
    var idx := n % |desc|;
    var d := Link(desc, prev, idx)[idx := Raw(elems[0])];
    var rest := elems[1..];
    var r := AddFrom(d, (n + 1) % U16, rest, Some(idx));
    WrapStep(n);
    assert AddFrom(desc, n % U16, elems, prev) == r;
    if prev.Some? { SlotsDiffer(n - 1, n, |desc|); }
    if rest == [] {
      SparesItself(d, n + 1, Some(idx));
    } else {
      AddedChain(d, n + 1, rest, Some(idx));
      if prev.Some? { PrevSpared(d, r, n, |rest|); }
    }
    SparesBack(desc, d, r, n, |elems|, prev);
  }

  // ---------- how long a chain lasts ----------

  function Total(chains: seq<seq<Elem>>): (n: nat) {
    if chains == [] then 0 else |chains[0]| + Total(chains[1..])
  }

  /** The table after further chains are added, the first of them at the count `n`. */
  function AddMany(desc: seq<Descriptor>, n: nat, chains: seq<seq<Elem>>): (r: seq<Descriptor>)
    requires |desc| > 0
    ensures |r| == |desc|
    decreases |chains|
  {
    if chains == [] then desc else AddMany(AddFrom(desc, Wrap(n), chains[0], None), n + |chains[0]|, chains[1..])
  }

  /** A chain at the count `n` stays whole while everything added from there on fits in one lap of the table. */
  lemma {:induction false} ChainLasts(
    desc: seq<Descriptor>, n: nat, elems: seq<Elem>, next: nat, chains: seq<seq<Elem>>)
    requires SizeOk(|desc|) && ChainAt(desc, n, elems) && n + |elems| <= next
    requires (forall c | c in chains :: Chainable(c)) && next + Total(chains) <= n + |desc|
    ensures ChainAt(AddMany(desc, next, chains), n, elems)
    decreases |chains|
  {
    hide PowerOfTwo;
    if chains != [] {
      var d := AddFrom(desc, Wrap(next), chains[0], None);
      AddedChain(desc, next, chains[0], None);
      LapSpares(desc, d, n, |elems|, next, |chains[0]|);
      ChainFrame(desc, d, n, elems);
      ChainLasts(d, n, elems, next + |chains[0]|, chains[1..]);
    }
  }

  lemma LapSpares(a: seq<Descriptor>, b: seq<Descriptor>, n: nat, len: nat, next: nat, more: nat)
    requires |a| == |b| > 0 && Spares(a, b, next, more, None) && n + len <= next && next + more <= n + |a|
    ensures SameSlots(a, b, n, len)
  {
    forall j | n <= j < n + len ensures a[j % |a|] == b[j % |a|] {
      forall k | next <= k < next + more ensures k % |a| != j % |a| {
        SlotsDiffer(j, k, |a|);
      }
    }
  }

  // ---------- the queue ----------

  datatype UsedElem = UsedElem(id: nat, len: nat)

  /** The memory shared with the device, the driver's data for each chain head, and how far the used ring was read. */
  datatype Queue<D> = Queue(
    desc: seq<Descriptor>, rawNext: nat, data: seq<Option<D>>,
    avail: seq<nat>, availIdx: nat, used: seq<UsedElem>, usedIdx: nat, last: nat)

  predicate Shaped<D>(q: Queue<D>) {
    && SizeOk(|q.desc|) && |q.data| == |q.avail| == |q.used| == |q.desc|
    && q.rawNext < U16 && q.availIdx < U16 && q.usedIdx < U16 && q.last < U16
  }

  lemma ShapedIs<D>(q: Queue<D>)
    requires Shaped(q)
    ensures |q.desc| > 0 && q.rawNext == Wrap(q.rawNext)
  {
  }

  predicate AnyIndirect(elems: seq<Elem>) {
    exists e :: e in elems && e.flags.indirect
  }

  /** None where the driver panics: an empty or indirect chain, or a head that still holds data. */
  function Supplied<D>(q: Queue<D>, elems: seq<Elem>, d: D): (r: Option<Queue<D>>)
    requires Shaped(q)
    ensures r.Some? ==> Shaped(r.value)
  {
    var head := q.rawNext % |q.desc|;
    if elems == [] || AnyIndirect(elems) || q.data[head].Some? then None
    else
      Some(q.(
        desc := AddFrom(q.desc, q.rawNext, elems, None),
        rawNext := Wrap(q.rawNext + |elems|),
        data := q.data[head := Some(d)],
        avail := q.avail[q.availIdx % |q.avail| := head],
        availIdx := Wrap(q.availIdx + 1)))
  }

  /** What the callback of a completed request is given. */
  datatype Report<D> = Report(elem: UsedElem, chain: ChainIterator, data: Option<D>)

  datatype Outcome<D> = Panic | Done(q: Queue<D>, reports: seq<Report<D>>)

  function After<D>(reports: seq<Report<D>>, r: Outcome<D>): (s: Outcome<D>) {
    if r.Panic? then Panic else Done(r.q, reports + r.reports)
  }

  /** Reads used ring entries `i` up to but not including `to`, taking the data of each; panics on an id out of range. */
  function ProcessFrom<D>(q: Queue<D>, i: nat, to: nat): (r: Outcome<D>)
    requires Shaped(q)
    ensures r.Done? ==> Shaped(r.q)
    decreases if i < to then to - i else 0
  {
    if i >= to then Done(q, [])
    else
      var elem := q.used[i % |q.used|];
      if elem.id >= |q.data| then Panic
      else
        After(
          [Report(elem, ChainIterator(q.desc, Some(elem.id)), q.data[elem.id])],
          ProcessFrom(q.(data := q.data[elem.id := None]), i + 1, to))
  }

  function Process<D>(q: Queue<D>): (r: Outcome<D>)
    requires Shaped(q)
    ensures r.Done? ==> Shaped(r.q)
  {
    var r := ProcessFrom(q, q.last, q.usedIdx);
    if r.Panic? then Panic else Done(r.q.(last := q.usedIdx), r.reports)
  }

  lemma AfterAfter<D>(a: seq<Report<D>>, b: seq<Report<D>>, r: Outcome<D>)
    ensures After(a, After(b, r)) == After(a + b, r)
  {
    if r.Done? { assert a + (b + r.reports) == a + b + r.reports; }
  }

  /** The driver's side of a virtqueue, over the memory it shares with the device. */
  class VirtQueueData<D> {
    const descriptors: array<Descriptor>
    const data: array<Option<D>>
    const avail: array<nat>
    const used: array<UsedElem>
    var rawNextIndex: nat
    var availIdx: nat
    var usedIdx: nat
    var lastProcessedUsedIndex: nat

    ghost function View(): (q: Queue<D>)
      reads this, descriptors, data, avail, used
    {
      Queue(
        descriptors[..], rawNextIndex, data[..], avail[..], availIdx, used[..], usedIdx, lastProcessedUsedIndex)
    }

    ghost predicate Valid()
      reads this, descriptors, data, avail, used
    {
      Shaped(View())
    }

    /** A queue of the given size over zeroed memory. */
    constructor (size: nat)
      requires SizeOk(size)
      ensures Valid() && fresh(descriptors) && fresh(data) && fresh(avail) && fresh(used)
      ensures |View().desc| == size && View().rawNext == View().availIdx == View().usedIdx == View().last == 0
      ensures forall i | 0 <= i < size :: View().data[i] == None
    {
      descriptors := new Descriptor[size](_ => Descriptor(0, 0, Flags(false, false, false), 0));
      data := new Option<D>[size](_ => None);
      avail := new nat[size](_ => 0);
      used := new UsedElem[size](_ => UsedElem(0, 0));
      rawNextIndex, availIdx, usedIdx, lastProcessedUsedIndex := 0, 0, 0, 0;
    }

    method LinkPrevious(prev: Option<nat>, idx: nat)
      requires prev.Some? ==> prev.value < descriptors.Length
      modifies descriptors
      ensures descriptors[..] == Link(old(descriptors[..]), prev, idx)
    {
      if prev.Some? {
        var d := descriptors[prev.value];
        descriptors[prev.value] := d.(flags := d.flags.(next := true), next := idx);
      }
    }

    /** Writes the chain into the table; `None` where the source panics. */
    method AddDescriptor(elems: seq<Elem>) returns (head: Option<nat>)
      requires Valid()
      modifies this`rawNextIndex, descriptors
      ensures head.Some? <==> elems != [] && !AnyIndirect(elems)
      ensures head.Some? ==>
                && head.value == ElemIndex(old(rawNextIndex), descriptors.Length)
                && View() == old(View()).(
                   desc := AddFrom(old(descriptors[..]), old(rawNextIndex), elems, None),
                   rawNext := Wrap(old(rawNextIndex) + |elems|))
    {
      hide PowerOfTwo, Wrap, Link, Raw, AddFrom, ElemIndex;
      ShapedIs(View());
      ghost var goal := AddFrom(descriptors[..], rawNextIndex, elems, None);
      AddNothing(descriptors[..], rawNextIndex, elems, None);
      var prev: Option<nat> := None;
      head := None;
      var k: nat := 0;
      while k < |elems|
        invariant k <= |elems|
        invariant prev.Some? ==> prev.value < descriptors.Length
        invariant AddFrom(descriptors[..], rawNextIndex, elems[k..], prev) == goal
        invariant rawNextIndex == Wrap(old(rawNextIndex) + k)
        invariant head == if k == 0 then None else Some(ElemIndex(old(rawNextIndex), descriptors.Length))
        invariant forall j | 0 <= j < k :: !elems[j].flags.indirect
      {
        var idx := ElemIndex(rawNextIndex, descriptors.Length);
        WrapStep(old(rawNextIndex) + k);
        rawNextIndex := Wrap(rawNextIndex + 1);
        if head.None? { head := Some(idx); }
        ghost var was := descriptors[..];
        LinkPrevious(prev, idx);
        if elems[k].flags.indirect {
          assert elems[k] in elems;
          return None;
        }
        AddStep(was, old(rawNextIndex) + k, elems, k, prev);
        descriptors[idx] := Raw(elems[k]);
        assert descriptors[..] == Link(was, prev, idx)[idx := Raw(elems[k])];
        prev := Some(idx);
        k := k + 1;
      }
      AddNothing(descriptors[..], rawNextIndex, elems, prev);
    }

    /** Supplies a chain to the device; `false` where the source panics. */
    method AddBuffer(elems: seq<Elem>, d: D) returns (ok: bool)
      requires Valid()
      modifies this`rawNextIndex, this`availIdx, descriptors, data, avail
      ensures ok <==> Supplied(old(View()), elems, d).Some?
      ensures ok ==> Valid() && View() == Supplied(old(View()), elems, d).value
    {
      var head := AddDescriptor(elems);
      if head.None? { return false; }
      var previous := data[head.value];
      data[head.value] := Some(d);
      if previous.Some? { return false; }
      avail[availIdx % avail.Length] := head.value;
      availIdx := Wrap(availIdx + 1);
      ok := true;
    }

    /** Hands every entry between the last processed index and the used index to the caller. */
    method ProcessNewEntries() returns (ok: bool, reports: seq<Report<D>>)
      requires Valid()
      modifies this`lastProcessedUsedIndex, data
      ensures ok <==> Process(old(View())).Done?
      ensures ok ==> Valid() && Done(View(), reports) == Process(old(View()))
    {
      ghost var goal := ProcessFrom(View(), lastProcessedUsedIndex, usedIdx);
      reports := [];
      var i: nat := lastProcessedUsedIndex;
      while i < usedIdx
        invariant lastProcessedUsedIndex == old(lastProcessedUsedIndex) && Valid()
        invariant View() == old(View()).(data := data[..])
        invariant goal == After(reports, ProcessFrom(View(), i, usedIdx))
      {
        var elem := used[i % used.Length];
        if elem.id >= data.Length { return false, []; }
        ghost var was := View();
        var report := Report(elem, ChainIterator(descriptors[..], Some(elem.id)), data[elem.id]);
        data[elem.id] := None;
        assert View() == was.(data := was.data[elem.id := None]);
        AfterAfter(reports, [report], ProcessFrom(View(), i + 1, usedIdx));
        reports := reports + [report];
        i := i + 1;
      }
      lastProcessedUsedIndex := usedIdx;
      ok := true;
    }
  }
}

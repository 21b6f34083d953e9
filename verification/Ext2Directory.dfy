/**
 A block of an ext2 directory: records of a header and a name that tile the block, and the insertion of a new entry
 into the slack after an old one.
 */
module Ext2Directory {
  import opened Common
  import opened ByteFields

  const HEADER: nat := 8

  // ---------- records ----------

  function RecLen(b: seq<Byte>, at: nat): (n: nat)
    requires at + HEADER <= |b|
    ensures n < 0x1_0000
  {
    Le16(b, at + 4)
  }

  function NameLen(b: seq<Byte>, at: nat): (n: nat)
    requires at + HEADER <= |b|
    ensures n < 256
  {
    b[at + 6]
  }

  /** The header and the name, rounded up to a multiple of four. */
  function RequiredSpace(nameLen: nat): (n: nat)
    ensures HEADER + nameLen <= n < HEADER + nameLen + 4 && n % 4 == 0
  {
    DivCeil(HEADER + nameLen, 4) * 4
  }

  /** A record starts here: it holds its name and ends within the block. */
  predicate RecordAt(b: seq<Byte>, at: nat) {
    && at + HEADER <= |b|
    && RequiredSpace(NameLen(b, at)) <= RecLen(b, at)
    && at + RecLen(b, at) <= |b|
  }

  /** Records follow one another from here to the end of the block. */
  predicate Tiles(b: seq<Byte>, at: nat)
    decreases |b| - at
  {
    at == |b| || (RecordAt(b, at) && Tiles(b, at + RecLen(b, at)))
  }

  /** What a directory entry says: everything in its record but the record's length. */
  datatype Item = Item(inode: nat, fileType: nat, name: seq<Byte>)

  function ItemAt(b: seq<Byte>, at: nat): (e: Item)
    requires at + HEADER <= |b| && at + HEADER + NameLen(b, at) <= |b|
  {
    Item(Le32(b, at), b[at + 7], b[at + HEADER..at + HEADER + NameLen(b, at)])
  }

  function Locations(b: seq<Byte>, at: nat): (r: seq<nat>)
    requires Tiles(b, at)
    decreases |b| - at
  {
    if at == |b| then [] else [at] + Locations(b, at + RecLen(b, at))
  }

  function Items(b: seq<Byte>, at: nat): (r: seq<Item>)
    requires Tiles(b, at)
    ensures |r| == |Locations(b, at)|
    decreases |b| - at
  {
    if at == |b| then [] else [ItemAt(b, at)] + Items(b, at + RecLen(b, at))
  }

  function Slack(b: seq<Byte>, at: nat): (n: nat)
    requires RecordAt(b, at)
  {
    RecLen(b, at) - RequiredSpace(NameLen(b, at))
  }

  // ---------- insertion ----------

  /** A header whose name length is cut to a byte. */
  function Header(e: Item, recLen: nat): (r: seq<Byte>)
    requires e.inode < 0x1_0000_0000 && e.fileType < 256 && recLen < 0x1_0000
    ensures |r| == HEADER
  {
    Put32(e.inode) + Put16(recLen) + [|e.name| % 256, e.fileType]
  }

  /** The fields of a record's header byte by byte: inode number, record length, length of the name, type. */
  lemma HeaderLayout(e: Item, recLen: nat)
    requires e.inode < 0x1_0000_0000 && e.fileType < 256 && recLen < 0x1_0000
    ensures Header(e, recLen) ==
            [e.inode % 0x100, e.inode / 0x100 % 0x100, e.inode / 0x1_0000 % 0x100, e.inode / 0x100_0000,
             recLen % 0x100, recLen / 0x100, |e.name| % 0x100, e.fileType]
  {
    LittleEndian(e.inode);
    LittleEndian(recLen);
  }

  /** The block after the record at `at` is cut to what it needs and the new one is written behind it. */
  function Inserted(b: seq<Byte>, at: nat, e: Item): (r: seq<Byte>)
    requires RecordAt(b, at) && e.inode < 0x1_0000_0000 && e.fileType < 256
    requires at + RequiredSpace(NameLen(b, at)) + HEADER + |e.name| <= |b|
    ensures |r| == |b|
  {
    var need := RequiredSpace(NameLen(b, at));
    var cut := Splice(b, at + 4, Put16(need));
    Splice(cut, at + need, Header(e, RecLen(b, at) - need) + e.name)
  }

  predicate Agree(a: seq<Byte>, b: seq<Byte>, lo: nat, hi: nat) {
    |a| == |b| && hi <= |a| && forall i | lo <= i < hi :: a[i] == b[i]
  }

  lemma RecordFrame(a: seq<Byte>, b: seq<Byte>, at: nat)
    requires RecordAt(a, at) && Agree(a, b, at, at + RecLen(a, at))
    ensures RecordAt(b, at) && RecLen(b, at) == RecLen(a, at) && ItemAt(b, at) == ItemAt(a, at)
  {
  }

  lemma {:induction false} TailFrame(a: seq<Byte>, b: seq<Byte>, at: nat)
    requires Tiles(a, at) && at <= |a| && Agree(a, b, at, |a|)
    ensures Tiles(b, at) && Items(b, at) == Items(a, at) && Locations(b, at) == Locations(a, at)
    decreases |a| - at
  {
    if at < |a| {
      RecordFrame(a, b, at);
      TailFrame(a, b, at + RecLen(a, at));
    }
  }

  predicate Fits(b: seq<Byte>, at: nat, e: Item) {
    && e.inode < 0x1_0000_0000 && e.fileType < 256 && |e.name| < 256
    && RecordAt(b, at) && Slack(b, at) >= RequiredSpace(|e.name|)
  }

  lemma HeaderReads(b: seq<Byte>, at: nat, e: Item, recLen: nat)
    requires e.inode < 0x1_0000_0000 && e.fileType < 256 && recLen < 0x1_0000
    requires at + HEADER <= |b| && b[at..at + HEADER] == Header(e, recLen)
    ensures Le32(b, at) == e.inode && RecLen(b, at) == recLen && NameLen(b, at) == |e.name| % 256
    ensures b[at + 7] == e.fileType
  {
    var h := Header(e, recLen);
    var p, q := Put32(e.inode), Put16(recLen);
    assert forall i | at <= i < at + HEADER :: b[i] == b[at..at + HEADER][i - at];
    assert forall i | 0 <= i < 4 :: h[i] == p[i];
    assert h[4] == q[0] && h[5] == q[1];
  }

  /** The old record is cut to what it needs and otherwise reads as before. */
  lemma CutRecord(b: seq<Byte>, at: nat, e: Item)
    requires Fits(b, at, e)
    ensures var r := Inserted(b, at, e);
            RecordAt(r, at) && RecLen(r, at) == RequiredSpace(NameLen(b, at)) && ItemAt(r, at) == ItemAt(b, at)
  {
    var need := RequiredSpace(NameLen(b, at));
    var len := Put16(need);
    var r := Inserted(b, at, e);
    assert r[at + 4] == len[0] && r[at + 5] == len[1];
    assert forall i | at <= i < at + need && i != at + 4 && i != at + 5 :: r[i] == b[i];
  }

  /** Behind it lies a record of the new entry, up to where the old one ended. */
  lemma NewRecord(b: seq<Byte>, at: nat, e: Item)
    requires Fits(b, at, e)
    ensures var r := Inserted(b, at, e);
            var mid := at + RequiredSpace(NameLen(b, at));
            RecordAt(r, mid) && mid + RecLen(r, mid) == at + RecLen(b, at) && ItemAt(r, mid) == e
  {
    var need := RequiredSpace(NameLen(b, at));
    var len := RecLen(b, at) - need;
    var r := Inserted(b, at, e);
    hide DivCeil, Header, RequiredSpace;
    SliceOf(r, at + need, Header(e, len), e.name);
    hide Inserted, Fits;
    RecordOf(r, at + need, e, len);
  }

  lemma RecordOf(r: seq<Byte>, at: nat, e: Item, len: nat)
    requires e.inode < 0x1_0000_0000 && e.fileType < 256 && |e.name| < 256
    requires RequiredSpace(|e.name|) <= len < 0x1_0000 && at + len <= |r|
    requires r[at..at + HEADER] == Header(e, len)
    requires r[at + HEADER..at + HEADER + |e.name|] == e.name
    ensures RecordAt(r, at) && RecLen(r, at) == len && ItemAt(r, at) == e
  {
    HeaderReads(r, at, e, len);
    hide Header, Le16, Le32, RequiredSpace;
    assert |e.name| % 256 == |e.name|;
  }

  lemma SliceOf(r: seq<Byte>, at: nat, p: seq<Byte>, q: seq<Byte>)
    requires at + |p| + |q| <= |r| && r[at..at + |p + q|] == p + q
    ensures r[at..at + |p|] == p && r[at + |p|..at + |p| + |q|] == q
  {
    assert r[at..at + |p|] == r[at..at + |p + q|][..|p|];
    assert r[at + |p|..at + |p| + |q|] == r[at..at + |p + q|][|p|..];
  }

  lemma RestAgrees(b: seq<Byte>, at: nat, e: Item)
    requires Fits(b, at, e)
    ensures var r := Inserted(b, at, e); Agree(b, r, 0, at) && Agree(b, r, at + RecLen(b, at), |b|)
  {
  }

  // ---------- parsing what was inserted ----------

  /** Where a record is in the order of the block. */
  function IndexOf(b: seq<Byte>, from: nat, at: nat): (k: nat)
    requires Tiles(b, from) && at in Locations(b, from)
    ensures k < |Locations(b, from)| && Locations(b, from)[k] == at
    decreases |b| - from
  {
    if from == at then 0 else 1 + IndexOf(b, from + RecLen(b, from), at)
  }

  lemma {:induction false} LocationIsRecord(b: seq<Byte>, from: nat, at: nat)
    requires Tiles(b, from) && from <= |b| && at in Locations(b, from)
    ensures from <= at && RecordAt(b, at) && (from == at || from + RecLen(b, from) <= at)
    decreases |b| - from
  {
    if from != at { LocationIsRecord(b, from + RecLen(b, from), at); }
  }

  function Put<T>(s: seq<T>, k: nat, x: T): (r: seq<T>)
    requires k <= |s|
    ensures |r| == |s| + 1
  {
    s[..k] + [x] + s[k..]
  }

  lemma PutBehind<T>(x: T, s: seq<T>, k: nat, y: T)
    requires k <= |s|
    ensures [x] + Put(s, k, y) == Put([x] + s, k + 1, y)
  {
  }

  /** In `r`, two records lie where `b` has one, and what follows is the same. */
  ghost predicate Split(b: seq<Byte>, r: seq<Byte>, at: nat, e: Item, mid: nat) {
    && |b| == |r| && RecordAt(b, at) && RecordAt(r, at) && at + RecLen(r, at) == mid
    && RecordAt(r, mid) && mid + RecLen(r, mid) == at + RecLen(b, at)
    && ItemAt(r, at) == ItemAt(b, at) && ItemAt(r, mid) == e
    && var next := at + RecLen(b, at);
    && Tiles(b, next) && Tiles(r, next)
    && Items(r, next) == Items(b, next) && Locations(r, next) == Locations(b, next)
  }

  lemma SplitTiles(b: seq<Byte>, r: seq<Byte>, at: nat, e: Item, mid: nat)
    requires Split(b, r, at, e, mid)
    ensures Tiles(b, at) && Tiles(r, at) && Tiles(r, mid)
  {
  }

  lemma SplitItems(b: seq<Byte>, r: seq<Byte>, at: nat, e: Item, mid: nat)
    requires Split(b, r, at, e, mid) && Tiles(b, at) && Tiles(r, at) && Tiles(r, mid)
    ensures Items(r, at) == Put(Items(b, at), 1, e)
  {
    hide ItemAt, Le16, Le32, RequiredSpace, NameLen, Tiles;
    assert Items(r, mid) == [e] + Items(b, at + RecLen(b, at));
    assert Items(r, at) == [ItemAt(b, at)] + Items(r, mid);
  }

  lemma SplitLocations(b: seq<Byte>, r: seq<Byte>, at: nat, e: Item, mid: nat)
    requires Split(b, r, at, e, mid) && Tiles(b, at) && Tiles(r, at) && Tiles(r, mid)
    ensures Locations(r, at) == Put<nat>(Locations(b, at), 1, mid)
  {
    hide ItemAt, Le16, Le32, RequiredSpace, NameLen, Tiles;
    assert Locations(r, mid) == [mid] + Locations(b, at + RecLen(b, at));
    assert Locations(r, at) == [at] + Locations(r, mid);
  }

  lemma InsertedHere(b: seq<Byte>, at: nat, e: Item)
    requires Tiles(b, at) && at < |b| && Fits(b, at, e)
    ensures var r := Inserted(b, at, e);
            && Tiles(r, at)
            && Items(r, at) == Put(Items(b, at), 1, e)
            && Locations(r, at) == Put<nat>(Locations(b, at), 1, at + RequiredSpace(NameLen(b, at)))
  {
    hide Inserted, Le16, Le32, RequiredSpace, Put, ItemAt;
    var r := Inserted(b, at, e);
    RestAgrees(b, at, e);
    CutRecord(b, at, e);
    NewRecord(b, at, e);
    TailFrame(b, r, at + RecLen(b, at));
    var mid := at + RequiredSpace(NameLen(b, at));
    SplitTiles(b, r, at, e, mid);
    SplitItems(b, r, at, e, mid);
    SplitLocations(b, r, at, e, mid);
  }

  lemma PutFrom(b: seq<Byte>, r: seq<Byte>, from: nat, k: nat, e: Item, mid: nat)
    requires |b| == |r| && RecordAt(b, from) && RecordAt(r, from)
    requires RecLen(b, from) == RecLen(r, from) && ItemAt(b, from) == ItemAt(r, from)
    requires var next := from + RecLen(b, from);
             && Tiles(b, next) && Tiles(r, next) && k <= |Items(b, next)|
             && Items(r, next) == Put(Items(b, next), k, e)
             && Locations(r, next) == Put<nat>(Locations(b, next), k, mid)
    ensures Tiles(b, from) && Tiles(r, from) && k < |Items(b, from)|
    ensures Items(r, from) == Put(Items(b, from), k + 1, e)
    ensures Locations(r, from) == Put<nat>(Locations(b, from), k + 1, mid)
  {
    hide ItemAt, Le16, Le32, RequiredSpace;
    var next := from + RecLen(b, from);
    PutBehind(ItemAt(b, from), Items(b, next), k, e);
    PutBehind<nat>(from, Locations(b, next), k, mid);
    hide Put;
  }

  /** Parsing the block again gives the old entries in order, with the new one right behind the one that made room. */
  lemma {:induction false} InsertedFrom(b: seq<Byte>, from: nat, at: nat, e: Item)
    requires Tiles(b, from) && from <= |b| && at in Locations(b, from) && Fits(b, at, e)
    ensures var r := Inserted(b, at, e);
            var k := IndexOf(b, from, at) + 1;
            && Tiles(r, from)
            && Items(r, from) == Put(Items(b, from), k, e)
            && Locations(r, from) == Put<nat>(Locations(b, from), k, at + RequiredSpace(NameLen(b, at)))
    decreases |b| - from
  {
    hide Inserted, Le16, Le32, RequiredSpace, ItemAt, Locations, Items;
    var r := Inserted(b, at, e);
    if from == at {
      InsertedHere(b, at, e);
    } else {
      LocationIsRecord(b, from, at);
      RestAgrees(b, at, e);
      RecordFrame(b, r, from);
      LaterThere(b, from, at);
      InsertedFrom(b, from + RecLen(b, from), at, e);
      hide Fits, Agree, RecordAt, RecLen, NameLen, Put;
      PutFrom(b, r, from, IndexOf(b, from, at), e, at + RequiredSpace(NameLen(b, at)));
    }
  }

  lemma LaterThere(b: seq<Byte>, from: nat, at: nat)
    requires Tiles(b, from) && from != at && at in Locations(b, from)
    ensures RecordAt(b, from) && at in Locations(b, from + RecLen(b, from))
    ensures IndexOf(b, from, at) == IndexOf(b, from + RecLen(b, from), at) + 1
  {
  }

  // ---------- the directory block ----------

  /** The block and where its entries start, in the order in which the program looks at them. */
  datatype Directory = Directory(block: seq<Byte>, locations: seq<nat>)

  /** The block is tiled by aligned records, and the known locations are those of its records, each once. */
  ghost predicate Sound(d: Directory) {
    && Tiles(d.block, 0)
    && multiset(d.locations) == multiset(Locations(d.block, 0))
    && Aligned(d.locations)
  }

  predicate Aligned(locations: seq<nat>) {
    forall i | 0 <= i < |locations| :: locations[i] % 4 == 0
  }

  predicate Storable(e: Item) {
    e.inode < 0x1_0000_0000 && e.fileType < 256 && |e.name| < 256
  }

  predicate Room(b: seq<Byte>, at: nat, nameLen: nat) {
    RecordAt(b, at) && Slack(b, at) >= RequiredSpace(nameLen)
  }

  /** The first of the locations, in their order, whose record has room. */
  function FirstRoom(b: seq<Byte>, locations: seq<nat>, nameLen: nat): (k: nat)
    ensures k <= |locations|
    ensures forall i | 0 <= i < k :: !Room(b, locations[i], nameLen)
    ensures k < |locations| ==> Room(b, locations[k], nameLen)
  {
    if locations == [] || Room(b, locations[0], nameLen) then 0
    else 1 + FirstRoom(b, locations[1..], nameLen)
  }

  function InsertAt(d: Directory, k: nat, e: Item): (r: Directory)
    requires Storable(e) && k < |d.locations| && Room(d.block, d.locations[k], |e.name|)
    ensures |r.block| == |d.block|
  {
    var at := d.locations[k];
    Directory(Inserted(d.block, at, e), Put<nat>(d.locations, k, at + RequiredSpace(NameLen(d.block, at))))
  }

  /** The directory with the entry in it, or as it was when no record has room. */
  function Insert(d: Directory, e: Item): (r: Directory)
    requires Storable(e)
  {
    var k := FirstRoom(d.block, d.locations, |e.name|);
    if k == |d.locations| then d else InsertAt(d, k, e)
  }

  lemma SameMembers(d: Directory, at: nat)
    requires Sound(d)
    ensures at in d.locations <==> at in Locations(d.block, 0)
  {
    assert at in multiset(d.locations) <==> at in d.locations;
    assert at in multiset(Locations(d.block, 0)) <==> at in Locations(d.block, 0);
  }

  lemma PutCounts<T>(s: seq<T>, k: nat, x: T)
    requires k <= |s|
    ensures multiset(Put(s, k, x)) == multiset(s) + multiset{x}
  {
    assert s == s[..k] + s[k..];
  }

  lemma StaysAligned(at: nat, nameLen: nat)
    requires at % 4 == 0
    ensures (at + RequiredSpace(nameLen)) % 4 == 0
  {
  }

  lemma PutAligned(locations: seq<nat>, k: nat, at: nat)
    requires Aligned(locations) && k <= |locations| && at % 4 == 0
    ensures Aligned(Put<nat>(locations, k, at))
  {
  }

  lemma InsertAtAdds(d: Directory, k: nat, e: Item)
    requires Sound(d) && Storable(e) && k < |d.locations| && Room(d.block, d.locations[k], |e.name|)
    ensures Sound(InsertAt(d, k, e)) && d.locations[k] in Locations(d.block, 0)
    ensures Items(InsertAt(d, k, e).block, 0)
            == Put(Items(d.block, 0), IndexOf(d.block, 0, d.locations[k]) + 1, e)
  {
    hide Inserted, RequiredSpace, Le16, Put, Tiles, Locations, Items, Aligned;
    var at := d.locations[k];
    SameMembers(d, at);
    InsertedFrom(d.block, 0, at, e);
    AlignedAt(d.locations, k, NameLen(d.block, at));
    PutSound(d, InsertAt(d, k, e), k, IndexOf(d.block, 0, at) + 1, at + RequiredSpace(NameLen(d.block, at)));
  }

  lemma AlignedAt(locations: seq<nat>, k: nat, nameLen: nat)
    requires Aligned(locations) && k < |locations|
    ensures (locations[k] + RequiredSpace(nameLen)) % 4 == 0
  {
    StaysAligned(locations[k], nameLen);
  }

  /** When some record has room: the new entry is right behind it on disk, and the directory stays sound. */
  lemma InsertAdds(d: Directory, e: Item)
    requires Sound(d) && Storable(e)
    ensures Sound(Insert(d, e))
    ensures var k := FirstRoom(d.block, d.locations, |e.name|);
            if k == |d.locations| then Insert(d, e) == d
            else
              && d.locations[k] in Locations(d.block, 0)
              && Items(Insert(d, e).block, 0)
                 == Put(Items(d.block, 0), IndexOf(d.block, 0, d.locations[k]) + 1, e)
  {
    hide InsertAt, Sound, Put, Items, Locations, Tiles, Room;
    var k := FirstRoom(d.block, d.locations, |e.name|);
    if k < |d.locations| { InsertAtAdds(d, k, e); }
  }

  lemma PutSound(d: Directory, r: Directory, k: nat, p: nat, mid: nat)
    requires Sound(d) && Tiles(r.block, 0) && k <= |d.locations| && p <= |Locations(d.block, 0)| && mid % 4 == 0
    requires r.locations == Put<nat>(d.locations, k, mid) && Locations(r.block, 0) == Put<nat>(Locations(d.block, 0), p, mid)
    ensures Sound(r)
  {
    hide Tiles, Locations, Put, Aligned;
    PutCounts<nat>(d.locations, k, mid);
    PutCounts<nat>(Locations(d.block, 0), p, mid);
    PutAligned(d.locations, k, mid);
  }

  /** The insertion fails exactly when no record on the disk is long enough for what it needs and what the new one does. */
  lemma InsertFailsWhen(d: Directory, e: Item)
    requires Sound(d) && Storable(e)
    ensures FirstRoom(d.block, d.locations, |e.name|) == |d.locations|
            <==> forall at | at in Locations(d.block, 0) ::
                   at + HEADER <= |d.block|
                   && RecLen(d.block, at) < RequiredSpace(NameLen(d.block, at)) + RequiredSpace(|e.name|)
  {
    forall at | at in Locations(d.block, 0) ensures RecordAt(d.block, at) && at in d.locations {
      LocationIsRecord(d.block, 0, at);
      SameMembers(d, at);
    }
    forall i | 0 <= i < |d.locations| ensures d.locations[i] in Locations(d.block, 0) {
      SameMembers(d, d.locations[i]);
    }
  }

  lemma {:induction false} RecordsApart(b: seq<Byte>, from: nat, l: nat, m: nat)
    requires Tiles(b, from) && from <= |b| && l in Locations(b, from) && m in Locations(b, from) && l < m
    ensures RecordAt(b, l) && l + RecLen(b, l) <= m
    decreases |b| - from
  {
    LocationIsRecord(b, from, l);
    LocationIsRecord(b, from, m);
    if from != l { RecordsApart(b, from + RecLen(b, from), l, m); }
  }

  /** The entries as the known locations give them: the new one comes right before the one whose slack it took. */
  lemma KnownAfter(d: Directory, k: nat, e: Item, i: nat)
    requires Sound(d) && Storable(e) && k < |d.locations| && Room(d.block, d.locations[k], |e.name|) && i <= |d.locations|
    ensures var r := InsertAt(d, k, e);
            && |r.locations| == |d.locations| + 1 && RecordAt(r.block, r.locations[i])
            && (i == k ==> ItemAt(r.block, r.locations[i]) == e)
            && (i != k ==>
                  var l := d.locations[if i < k then i else i - 1];
                  RecordAt(d.block, l) && ItemAt(r.block, r.locations[i]) == ItemAt(d.block, l))
  {
    hide Inserted, RequiredSpace, Le16, Le32, Tiles, Locations, Items, Aligned, ItemAt;
    var at, r := d.locations[k], InsertAt(d, k, e);
    NewRecord(d.block, at, e);
    CutRecord(d.block, at, e);
    RestAgrees(d.block, at, e);
    if i != k {
      var l := d.locations[if i < k then i else i - 1];
      SameMembers(d, at);
      SameMembers(d, l);
      LocationIsRecord(d.block, 0, l);
      if l < at { RecordsApart(d.block, 0, l, at); } else if at < l { RecordsApart(d.block, 0, at, l); }
      if l != at { RecordFrame(d.block, r.block, l); }
    }
  }

  // ---------- looking entries up ----------

  lemma {:induction false} ItemsAtLocations(b: seq<Byte>, from: nat, k: nat)
    requires Tiles(b, from) && from <= |b| && k < |Locations(b, from)|
    ensures RecordAt(b, Locations(b, from)[k]) && Items(b, from)[k] == ItemAt(b, Locations(b, from)[k])
    decreases |b| - from
  {
    if k > 0 { ItemsAtLocations(b, from + RecLen(b, from), k - 1); }
  }

  /** Walking the known locations finds exactly the entries on disk. */
  lemma LookupIs(d: Directory, e: Item)
    requires Sound(d)
    ensures e in Items(d.block, 0)
            <==> exists at :: at in d.locations && RecordAt(d.block, at) && ItemAt(d.block, at) == e
  {
    var ls, es := Locations(d.block, 0), Items(d.block, 0);
    if e in es {
      var k :| 0 <= k < |es| && es[k] == e;
      ItemsAtLocations(d.block, 0, k);
      SameMembers(d, ls[k]);
    }
    if at :| at in d.locations && RecordAt(d.block, at) && ItemAt(d.block, at) == e {
      SameMembers(d, at);
      ItemsAtLocations(d.block, 0, IndexOf(d.block, 0, at));
    }
  }

  // ---------- any number of insertions ----------

  function InsertAll(d: Directory, es: seq<Item>): (r: Directory)
    requires forall e | e in es :: Storable(e)
    decreases |es|
  {
    if es == [] then d else InsertAll(Insert(d, es[0]), es[1..])
  }

  /** Those of the entries that find room when their turn comes. */
  function Accepted(d: Directory, es: seq<Item>): (r: seq<Item>)
    requires forall e | e in es :: Storable(e)
    decreases |es|
  {
    if es == [] then []
    else
      (if FirstRoom(d.block, d.locations, |es[0].name|) < |d.locations| then [es[0]] else [])
      + Accepted(Insert(d, es[0]), es[1..])
  }

  /** `a` is what is left of `b` when some elements are struck out. */
  predicate Within(a: seq<Item>, b: seq<Item>)
    decreases |b|
  {
    a == [] || (b != [] && ((a[0] == b[0] && Within(a[1..], b[1..])) || Within(a, b[1..])))
  }

  lemma {:induction false} WithinItself(a: seq<Item>)
    ensures Within(a, a)
  {
    if a != [] { WithinItself(a[1..]); }
  }

  lemma {:induction false} WithinPut(a: seq<Item>, b: seq<Item>, p: nat, x: Item)
    requires Within(a, b) && p <= |b|
    ensures Within(a, Put(b, p, x))
    decreases |b|
  {
    var c := Put(b, p, x);
    if p == 0 {
      assert c[1..] == b;
    } else {
      assert c[0] == b[0] && c[1..] == Put(b[1..], p - 1, x);
      if a != [] {
        if Within(a, b[1..]) {
          WithinPut(a, b[1..], p - 1, x);
        } else {
          WithinPut(a[1..], b[1..], p - 1, x);
        }
      }
    }
  }

  lemma {:induction false} InsertAllFrom(d: Directory, es: seq<Item>, first: seq<Item>)
    requires Sound(d) && (forall e | e in es :: Storable(e)) && Within(first, Items(d.block, 0))
    ensures var r := InsertAll(d, es);
            && Sound(r) && |r.block| == |d.block|
            && multiset(Items(r.block, 0)) == multiset(Items(d.block, 0)) + multiset(Accepted(d, es))
            && Within(first, Items(r.block, 0))
    decreases |es|
  {
    hide Sound, Within, Items, Insert, Storable, Tiles;
    if es != [] {
      var d1 := Insert(d, es[0]);
      InsertCounts(d, es[0], first);
      InsertAllFrom(d1, es[1..], first);
      var one := if FirstRoom(d.block, d.locations, |es[0].name|) < |d.locations| then [es[0]] else [];
      assert Accepted(d, es) == one + Accepted(d1, es[1..]);
    }
  }

  lemma InsertCounts(d: Directory, e: Item, first: seq<Item>)
    requires Sound(d) && Storable(e) && Within(first, Items(d.block, 0))
    ensures var r := Insert(d, e);
            var one := if FirstRoom(d.block, d.locations, |e.name|) < |d.locations| then [e] else [];
            && Sound(r) && |r.block| == |d.block|
            && multiset(Items(r.block, 0)) == multiset(Items(d.block, 0)) + multiset(one)
            && Within(first, Items(r.block, 0))
  {
    hide Within, Items, Inserted, Put, Tiles, Aligned, Locations;
    InsertAdds(d, e);
    var k := FirstRoom(d.block, d.locations, |e.name|);
    if k < |d.locations| {
      var p := IndexOf(d.block, 0, d.locations[k]) + 1;
      WithinPut(first, Items(d.block, 0), p, e);
      PutCounts(Items(d.block, 0), p, e);
    }
  }

  /**
   Over any sequence of insertions, the block stays tiled by aligned records, and parsing it gives the entries there
   were at first, still in their order, and those that were accepted, nothing lost and nothing repeated.
   */
  lemma InsertionsKeepEntries(d: Directory, es: seq<Item>)
    requires Sound(d) && forall e | e in es :: Storable(e)
    ensures var r := InsertAll(d, es);
            && Sound(r)
            && multiset(Items(r.block, 0)) == multiset(Items(d.block, 0)) + multiset(Accepted(d, es))
            && Within(Items(d.block, 0), Items(r.block, 0))
  {
    WithinItself(Items(d.block, 0));
    InsertAllFrom(d, es, Items(d.block, 0));
  }

  /** A name reads back from its record exactly when its length fits in the header's one byte. */
  lemma NameReadsBackWhen(b: seq<Byte>, at: nat, e: Item)
    requires RecordAt(b, at) && e.inode < 0x1_0000_0000 && e.fileType < 256
    requires at + RequiredSpace(NameLen(b, at)) + HEADER + |e.name| <= |b|
    ensures var r := Inserted(b, at, e);
            var mid := at + RequiredSpace(NameLen(b, at));
            ItemAt(r, mid).name == e.name <==> |e.name| < 256
  {
    var need := RequiredSpace(NameLen(b, at));
    var len := RecLen(b, at) - need;
    var r := Inserted(b, at, e);
    SliceOf(r, at + need, Header(e, len), e.name);
    HeaderReads(r, at + need, e, len);
    hide Header, Inserted, Le16, Le32, RequiredSpace;
  }

  // ---------- the block in memory ----------

  class DirectoryBlock {
    const block: array<Byte>
    var entryLocations: seq<nat>

    ghost function View(): (d: Directory)
      reads this, block
    {
      Directory(block[..], entryLocations)
    }

    /** Finds the entries of a block that is known to be tiled by records. */
    constructor (b: array<Byte>)
      requires Tiles(b[..], 0)
      ensures block == b && entryLocations == Locations(b[..], 0)
    {
      var locations: seq<nat> := [];
      var offset: nat := 0;
      while offset < b.Length
        invariant offset <= b.Length && Tiles(b[..], offset)
        invariant locations + Locations(b[..], offset) == Locations(b[..], 0)
        decreases b.Length - offset
      {
        assert RecordAt(b[..], offset);
        locations := locations + [offset];
        offset := offset + RecLen(b[..], offset);
      }
      block := b;
      entryLocations := locations;
    }

    /** The first entry, in the order of the known locations, with room behind it. */
    method FindRoom(nameLen: nat) returns (k: nat)
      requires forall i | 0 <= i < |entryLocations| :: RecordAt(block[..], entryLocations[i])
      ensures k == FirstRoom(block[..], entryLocations, nameLen)
    {
      k := 0;
      while k < |entryLocations|
        invariant k <= |entryLocations|
        invariant FirstRoom(block[..], entryLocations, nameLen) == k + FirstRoom(block[..], entryLocations[k..], nameLen)
      {
        var at := entryLocations[k];
        if RecLen(block[..], at) - RequiredSpace(NameLen(block[..], at)) >= RequiredSpace(nameLen) { return; }
        assert entryLocations[k..][1..] == entryLocations[k + 1..];
        k := k + 1;
      }
    }

    /** Adds an entry; `None` when there is no room for it. */
    method InsertEntry(e: Item) returns (r: Option<nat>)
      requires Sound(View()) && Storable(e)
      modifies this, block
      ensures Sound(View()) && View() == Insert(old(View()), e)
      ensures r.None? <==> FirstRoom(old(block[..]), old(entryLocations), |e.name|) == |old(entryLocations)|
      ensures r.Some? ==> RecordAt(block[..], r.value) && ItemAt(block[..], r.value) == e
    {
      hide Sound, Inserted, RequiredSpace, Le16, Le32, Tiles, Items, Locations, IndexOf, ItemAt, Header;
      ghost var d := View();
      RecordsKnown(d);
      InsertAdds(d, e);
      var k := FindRoom(|e.name|);
      if k == |entryLocations| { return None; }
      var at := entryLocations[k];
      NewRecord(block[..], at, e);
      var location := WriteEntry(at, e);
      entryLocations := entryLocations[..k] + [location] + entryLocations[k..];
      r := Some(location);
    }

    /** Cuts the record and writes the new one behind it, and returns where. */
    method WriteEntry(at: nat, e: Item) returns (location: nat)
      requires Fits(block[..], at, e)
      modifies block
      ensures block[..] == Inserted(old(block[..]), at, e)
      ensures location == at + RequiredSpace(NameLen(old(block[..]), at))
    {
      hide RequiredSpace, Header, Put16, Splice;
      var length := RecLen(block[..], at);
      var need := RequiredSpace(NameLen(block[..], at));
      WriteBytes(block, at + 4, Put16(need));
      location := at + need;
      WriteBytes(block, location, Header(e, length - need) + e.name);
    }
  }

  lemma RecordsKnown(d: Directory)
    requires Sound(d)
    ensures forall i | 0 <= i < |d.locations| :: RecordAt(d.block, d.locations[i])
  {
    forall i | 0 <= i < |d.locations| ensures RecordAt(d.block, d.locations[i]) {
      SameMembers(d, d.locations[i]);
      LocationIsRecord(d.block, 0, d.locations[i]);
    }
  }
}

/** Bytes, little-endian fields, and writing a stretch of bytes over another. */
module ByteFields {
  type Byte = x: nat | x < 256

  function Le16(b: seq<Byte>, at: nat): (v: nat)
    requires at + 2 <= |b|
    ensures v < 0x1_0000
  {
    var lo: nat, hi: nat := b[at], b[at + 1];
    lo + 0x100 * hi
  }

  function Le32(b: seq<Byte>, at: nat): (v: nat)
    requires at + 4 <= |b|
    ensures v < 0x1_0000_0000
  {
    Le16(b, at) + 0x1_0000 * Le16(b, at + 2)
  }

  function Put16(v: nat): (b: seq<Byte>)
    requires v < 0x1_0000
    ensures |b| == 2 && Le16(b, 0) == v
  {
    [v % 0x100, v / 0x100]
  }

  function Put32(v: nat): (b: seq<Byte>)
    requires v < 0x1_0000_0000
    ensures |b| == 4 && Le32(b, 0) == v
  {
    var lo, hi := Put16(v % 0x1_0000), Put16(v / 0x1_0000);
    assert (lo + hi)[0] == lo[0] && (lo + hi)[1] == lo[1] && (lo + hi)[2] == hi[0] && (lo + hi)[3] == hi[1];
    lo + hi
  }

  /** The least significant byte comes first. */
  lemma LittleEndian(v: nat)
    requires v < 0x1_0000_0000
    ensures Put32(v) == [v % 0x100, v / 0x100 % 0x100, v / 0x1_0000 % 0x100, v / 0x100_0000]
    ensures v < 0x1_0000 ==> Put16(v) == [v % 0x100, v / 0x100]
  {
    LowByte(v);
    HighBytes(v);
    hide Le16;
  }

  lemma LowByte(v: nat)
    ensures v % 0x1_0000 % 0x100 == v % 0x100
  {
    var q := v / 0x1_0000;
    assert v % 0x1_0000 == v - 0x100 * (0x100 * q);
  }

  lemma HighBytes(v: nat)
    ensures v % 0x1_0000 / 0x100 == v / 0x100 % 0x100
    ensures v / 0x1_0000 / 0x100 == v / 0x100_0000
  {
    var q := v / 0x1_0000;
    assert v / 0x100 == 0x100 * q + v % 0x1_0000 / 0x100;
  }

  function Splice<T>(b: seq<T>, at: nat, data: seq<T>): (r: seq<T>)
    requires at + |data| <= |b|
    ensures |r| == |b| && r[at..at + |data|] == data
    ensures forall i | 0 <= i < |b| :: r[i] == if at <= i < at + |data| then data[i - at] else b[i]
  {
    b[..at] + data + b[at + |data|..]
  }

  /** Copies the data into the array. */
  method WriteBytes<T>(a: array<T>, at: nat, data: seq<T>)
    requires at + |data| <= a.Length
    modifies a
    ensures a[..] == Splice(old(a[..]), at, data)
  {
    var i: nat := 0;
    while i < |data|
      invariant i <= |data|
      invariant forall k | 0 <= k < a.Length :: a[k] == if at <= k < at + i then data[k - at] else old(a[k])
    {
      a[at + i] := data[i];
      i := i + 1;
    }
  }
}

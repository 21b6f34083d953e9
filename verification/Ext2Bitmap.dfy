/** The bitmaps of an ext2 block group: bit `i % 8` of byte `i / 8` says whether entry `i` is used. */
module Ext2Bitmap {
  import opened Common
  import opened Arithmetic
  import opened ByteFields

  // ---------- bits of a byte ----------

  /** The number with a bit set, as an inclusive or with the bit's mask gives it. */
  function WithBit(b: nat, bit: nat): (r: nat)
    ensures b <= r
  {
    if bit == 0 then b / 2 * 2 + 1 else 2 * WithBit(b / 2, bit - 1) + b % 2
  }

  lemma {:induction false} SetsOnlyThat(b: nat, bit: nat, other: nat)
    ensures IsSet(WithBit(b, bit), other) <==> other == bit || IsSet(b, other)
  {
    if bit > 0 && other > 0 { SetsOnlyThat(b / 2, bit - 1, other - 1); }
  }

  lemma {:induction false} StaysBelow(b: nat, bit: nat, bits: nat)
    requires b < Pow2(bits) && bit < bits
    ensures WithBit(b, bit) < Pow2(bits)
  {
    if bit > 0 { StaysBelow(b / 2, bit - 1, bits - 1); }
  }

  lemma {:induction false} FullSets(b: nat, bits: nat, bit: nat)
    requires b == Pow2(bits) - 1 && bit < bits
    ensures IsSet(b, bit)
  {
    var half := Pow2(bits - 1);
    Halves(half);
    if bit > 0 { FullSets(half - 1, bits - 1, bit - 1); }
  }

  lemma Halves(n: nat)
    requires n > 0
    ensures (2 * n - 1) / 2 == n - 1 && (2 * n - 1) % 2 == 1
  {
  }

  lemma {:induction false} ElseClear(b: nat, bits: nat) returns (bit: nat)
    requires b < Pow2(bits) - 1
    ensures bit < bits && !IsSet(b, bit)
  {
    if b % 2 == 0 {
      bit := 0;
    } else {
      bit := ElseClear(b / 2, bits - 1);
      bit := bit + 1;
    }
  }

  lemma ByteLimit()
    ensures Pow2(8) == 256
  {
    assert Pow2(4) == 16;
  }

  // ---------- the bitmap ----------

  predicate Used(bytes: seq<Byte>, i: nat)
    requires i < 8 * |bytes|
  {
    IsSet(bytes[i / 8], i % 8)
  }

  /** Entry `i` is the bit of value two to the `i % 8` of byte `i / 8`. */
  lemma UsedIs(bytes: seq<Byte>, i: nat)
    requires i < 8 * |bytes|
    ensures Used(bytes, i) <==> bytes[i / 8] / Pow2(i % 8) % 2 == 1
  {
    IsSetIs(bytes[i / 8], i % 8);
  }

  /** Whether an entry is used, `None` beyond the bitmap. */
  function IsUsed(bytes: seq<Byte>, i: nat): (r: Option<bool>)
    ensures r.Some? <==> i < 8 * |bytes|
    ensures r.Some? ==> r.value == Used(bytes, i)
  {
    if i / 8 >= |bytes| then None else Some(IsSet(bytes[i / 8], i % 8))
  }

  function Reserve(bytes: seq<Byte>, i: nat): (r: seq<Byte>)
    requires i < 8 * |bytes|
    ensures |r| == |bytes|
  {
    ByteLimit();
    StaysBelow(bytes[i / 8], i % 8, 8);
    bytes[i / 8 := WithBit(bytes[i / 8], i % 8)]
  }

  /** Reserving an entry sets its bit and no other. */
  lemma ReservesOnlyThat(bytes: seq<Byte>, i: nat, j: nat)
    requires i < 8 * |bytes| && j < 8 * |bytes|
    ensures Used(Reserve(bytes, i), j) <==> j == i || Used(bytes, j)
  {
    SetsOnlyThat(bytes[i / 8], i % 8, j % 8);
  }

  predicate AllUsed(bytes: seq<Byte>, upTo: nat)
    requires upTo <= 8 * |bytes|
  {
    forall i | 0 <= i < upTo :: Used(bytes, i)
  }

  lemma ByteFull(bytes: seq<Byte>, k: nat)
    requires k < |bytes| && AllUsed(bytes, 8 * k)
    ensures bytes[k] == 0xFF <==> AllUsed(bytes, 8 * k + 8)
  {
    ByteLimit();
    if bytes[k] == 0xFF {
      forall i | 0 <= i < 8 * k + 8 ensures Used(bytes, i) {
        if i >= 8 * k { FullSets(bytes[k], 8, i % 8); }
      }
    } else {
      var bit := ElseClear(bytes[k], 8);
      DivModIs(8 * k + bit, 8, k, bit);
      assert !Used(bytes, 8 * k + bit);
    }
  }

  class Bitmap {
    const bytes: array<Byte>

    constructor (b: array<Byte>)
      ensures bytes == b
    {
      bytes := b;
    }

    /** Finds the lowest clear bit and sets it; `None` when every bit is set. */
    method ReserveNextFree() returns (r: Option<nat>)
      modifies bytes
      ensures r.None? ==> bytes[..] == old(bytes[..]) && AllUsed(bytes[..], 8 * bytes.Length)
      ensures r.Some? ==>
                && r.value < 8 * bytes.Length
                && AllUsed(old(bytes[..]), r.value) && !Used(old(bytes[..]), r.value)
                && bytes[..] == Reserve(old(bytes[..]), r.value)
    {
      ghost var was := bytes[..];
      var k: nat := 0;
      while k < bytes.Length
        invariant k <= bytes.Length && bytes[..] == was && AllUsed(was, 8 * k)
      {
        ByteFull(was, k);
        if bytes[k] != 0xFF {
          var bit: nat := 0;
          while bit < 8
            invariant bit <= 8 && bytes[..] == was && AllUsed(was, 8 * k + bit)
          {
            DivModIs(8 * k + bit, 8, k, bit);
            if !IsSet(bytes[k], bit) {
              ByteLimit();
              StaysBelow(bytes[k], bit, 8);
              bytes[k] := WithBit(bytes[k], bit);
              return Some(8 * k + bit);
            }
            bit := bit + 1;
          }
        }
        k := k + 1;
      }
      r := None;
    }
  }
}

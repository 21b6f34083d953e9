/** Products, quotients and bits of natural numbers. */
module Arithmetic {

  lemma MulGap(a: nat, b: nat, c: nat)
    requires a < b
    ensures a * c + c <= b * c
    decreases b - a
  {
    assert (a + 1) * c <= b * c by {
      if a + 1 < b { MulGap(a + 1, b, c); }
    }
  }

  lemma QuotientUnique(d: nat, a: nat, e: nat, b: nat, size: nat)
    requires a < size && b < size
    ensures d * size + a == e * size + b ==> d == e && a == b
  {
    if d < e { MulGap(d, e, size); }
    if e < d { MulGap(e, d, size); }
  }

  lemma DivModIs(v: nat, size: nat, q: nat, r: nat)
    requires v == q * size + r && r < size
    ensures v / size == q && v % size == r
  {
    QuotientUnique(v / size, v % size, q, r, size);
    assert v == v / size * size + v % size;
  }

  lemma MulLess(a: nat, b: nat, c: nat)
    ensures a * c < b * c ==> a < b
  {
    if b < a { MulGap(b, a, c); }
  }

  lemma DivModSame(i: nat, j: nat, c: nat)
    requires c > 0
    ensures i / c == j / c && i % c == j % c ==> i == j
  {
    assert i == i / c * c + i % c && j == j / c * c + j % c;
  }

  // ---------- bits ----------

  function Pow2(n: nat): (r: nat)
    ensures r > 0
  {
    if n == 0 then 1 else 2 * Pow2(n - 1)
  }

  predicate IsSet(n: nat, bit: nat) {
    if bit == 0 then n % 2 == 1 else IsSet(n / 2, bit - 1)
  }

  lemma IsSetStep(n: nat, bit: nat)
    ensures IsSet(n, bit) <==> if bit == 0 then n % 2 == 1 else IsSet(n / 2, bit - 1)
  {
  }

  lemma {:induction false} IsSetIs(n: nat, bit: nat)
    ensures IsSet(n, bit) <==> n / Pow2(bit) % 2 == 1
  {
    if bit > 0 {
      IsSetIs(n / 2, bit - 1);
      DivTwice(n, Pow2(bit - 1));
    }
  }

  lemma DivTwice(n: nat, m: nat)
    requires m > 0
    ensures n / (2 * m) == n / 2 / m
  {
    var k := n / 2;
    var q, r := k / m, 2 * (k % m) + n % 2;
    DivIs(k, m);
    DoubleMul(q, m);
    DivModIs(n, 2 * m, q, r);
  }

  lemma DivIs(n: nat, m: nat)
    requires m > 0
    ensures n == n / m * m + n % m
  {
  }

  lemma DoubleMul(q: nat, m: nat)
    ensures q * (2 * m) == 2 * (q * m)
  {
  }
}

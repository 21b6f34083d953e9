/** What every module of the model shares. */
module Common {

  datatype Option<+T> = None | Some(value: T)

  /** Smallest integer not below `a / b`, Rust's `div_ceil` on unsigned integers. */
  function DivCeil(a: nat, b: nat): (r: nat)
    requires b > 0
  {
    (a + b - 1) / b
  }

  lemma CeilBounds(a: nat, b: nat)
    requires b > 0
    ensures (DivCeil(a, b) - 1) * b < a <= DivCeil(a, b) * b
  {
    assert a + b - 1 == DivCeil(a, b) * b + (a + b - 1) % b;
  }

  predicate NoRepeats(s: seq<nat>) {
    forall i, j :: 0 <= i < j < |s| ==> s[i] != s[j]
  }
}

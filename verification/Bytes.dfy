/** Bytes as numbers, powers of two, and the one fact about products that both need. */
module Bytes {

  function Nat(b: bv8): (n: nat)
    ensures n < 256
  {
    b as nat
  }

  function Byte(n: nat): bv8
    requires n < 256
  {
    n as bv8
  }

  lemma NatOfByte(n: nat)
    requires n < 256
    ensures Nat(n as bv8) == n && Nat(Byte(n)) == n
  {}

  function Pow2(w: nat): nat { if w == 0 then 1 else 2 * Pow2(w - 1) }

  lemma {:induction false} Pow2Mono(v: nat, w: nat)
    requires v <= w
    ensures Pow2(v) <= Pow2(w)
    decreases w - v
  {
    if v < w { Pow2Mono(v + 1, w); }
  }

  lemma MulMonotone(a: nat, b: nat, k: nat)
    requires a <= b
    ensures a * k <= b * k
  {}
}

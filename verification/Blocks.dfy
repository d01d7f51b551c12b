/** Fixed-size byte blocks under XOR, and the XOR of a numbered selection of them. */
module Blocks {

  type Block = seq<bv8>

  /** The byte loop `a[i] ^= b[i]` over the length of `a`. */
  function Xor(a: Block, b: Block): (c: Block)
    ensures |c| == |a|
    ensures forall i :: 0 <= i < |a| && i < |b| ==> c[i] == a[i] ^ b[i]
  {
    seq(|a|, i requires 0 <= i < |a| => if i < |b| then a[i] ^ b[i] else a[i])
  }

  function Zero(n: nat): (z: Block)
    ensures |z| == n
    ensures forall i :: 0 <= i < n ==> z[i] == 0
  {
    seq(n, _ => 0)
  }

  lemma XorCancel(a: Block, b: Block)
    requires |a| == |b|
    ensures Xor(Xor(a, b), b) == a
  {
    forall i | 0 <= i < |a| ensures Xor(Xor(a, b), b)[i] == a[i] {
      ByteCancel(a[i], b[i]);
    }
  }

  lemma ByteCancel(x: bv8, y: bv8)
    ensures (x ^ y) ^ y == x
  {}

  lemma ByteSwap(x: bv8, y: bv8, z: bv8)
    ensures (x ^ y) ^ z == (x ^ z) ^ y
    ensures (x ^ y) ^ z == x ^ (y ^ z)
    ensures x ^ y == y ^ x
    ensures 0 ^ x == x
  {}

  lemma XorSymmetric(a: Block, b: Block)
    requires |a| == |b|
    ensures Xor(a, b) == Xor(b, a)
  {
    forall i | 0 <= i < |a| ensures Xor(a, b)[i] == Xor(b, a)[i] {
      ByteSwap(a[i], b[i], 0);
    }
  }

  lemma XorAssociative(a: Block, b: Block, c: Block)
    requires |a| == |b| == |c|
    ensures Xor(Xor(a, b), c) == Xor(a, Xor(b, c))
  {
    var l, r := Xor(Xor(a, b), c), Xor(a, Xor(b, c));
    forall i | 0 <= i < |a| ensures l[i] == r[i] {
      ByteSwap(a[i], b[i], c[i]);
    }
  }

  lemma XorSwap(a: Block, b: Block, c: Block)
    requires |a| == |b| == |c|
    ensures Xor(Xor(a, b), c) == Xor(Xor(a, c), b)
  {
    XorAssociative(a, b, c);
    XorAssociative(a, c, b);
    XorSymmetric(b, c);
  }

  lemma XorZero(a: Block)
    ensures Xor(Zero(|a|), a) == a == Xor(a, Zero(|a|))
  {
    forall i | 0 <= i < |a|
      ensures Xor(Zero(|a|), a)[i] == a[i] == Xor(a, Zero(|a|))[i]
    {
      ByteSwap(a[i], 0, 0);
    }
  }

  /** Every block of `m` is `n` bytes long. */
  ghost predicate Sized(m: map<nat, Block>, n: nat) {
    forall i :: i in m ==> |m[i]| == n
  }

  /** The XOR of the blocks of `m` numbered by `I`. */
  ghost function XorAll(m: map<nat, Block>, I: set<nat>, n: nat): (c: Block)
    requires Sized(m, n) && I <= m.Keys
    ensures |c| == n
  {
    if I == {} then Zero(n) else
      var x :| x in I;
      Xor(XorAll(m, I - {x}, n), m[x])
  }

  /** XorAll does not depend on the order in which blocks are picked. */
  lemma {:induction false} XorAllRemove(m: map<nat, Block>, I: set<nat>, x: nat, n: nat)
    requires Sized(m, n) && I <= m.Keys && x in I
    ensures XorAll(m, I, n) == Xor(XorAll(m, I - {x}, n), m[x])
    decreases I
  {
    var y :| y in I && XorAll(m, I, n) == Xor(XorAll(m, I - {y}, n), m[y]);
    if x != y {
      XorAllRemove(m, I - {y}, x, n);
      XorAllRemove(m, I - {x}, y, n);
      assert I - {x} - {y} == I - {y} - {x};
      XorSwap(XorAll(m, I - {x} - {y}, n), m[x], m[y]);
    }
  }

  lemma XorAllInsert(m: map<nat, Block>, I: set<nat>, x: nat, n: nat)
    requires Sized(m, n) && I <= m.Keys && x in m && x !in I
    ensures XorAll(m, I + {x}, n) == Xor(XorAll(m, I, n), m[x])
  {
    XorAllRemove(m, I + {x}, x, n);
    assert I + {x} - {x} == I;
  }

  lemma {:induction false} XorAllSplit(m: map<nat, Block>, I: set<nat>, J: set<nat>, n: nat)
    requires Sized(m, n) && I <= m.Keys && J <= I
    ensures XorAll(m, I, n) == Xor(XorAll(m, I - J, n), XorAll(m, J, n))
    decreases J
  {
    if J == {} {
      assert I - J == I;
      XorZero(XorAll(m, I, n));
    } else {
      var x :| x in J;
      var J' := J - {x};
      XorAllSplit(m, I, J', n);
      XorAllRemove(m, I - J', x, n);
      assert I - J' - {x} == I - J;
      XorAllRemove(m, J, x, n);
      XorSwap(XorAll(m, I - J, n), m[x], XorAll(m, J', n));
      XorAssociative(XorAll(m, I - J, n), XorAll(m, J', n), m[x]);
    }
  }

  /** Two numberings that agree on `I` give the same XOR. */
  lemma {:induction false} XorAllAgree(m: map<nat, Block>, m': map<nat, Block>, I: set<nat>, n: nat)
    requires Sized(m, n) && Sized(m', n) && I <= m.Keys && I <= m'.Keys
    requires forall i :: i in I ==> m[i] == m'[i]
    ensures XorAll(m, I, n) == XorAll(m', I, n)
    decreases I
  {
    if I != {} {
      var x :| x in I;
      XorAllRemove(m, I, x, n);
      XorAllRemove(m', I, x, n);
      XorAllAgree(m, m', I - {x}, n);
    }
  }
}

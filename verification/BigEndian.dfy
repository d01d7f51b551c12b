/** Big-endian encodings of natural numbers as bytes. */
module BigEndian {
  import opened Bytes

  function Pow256(i: nat): (p: nat)
    ensures p > 0
  {
    if i == 0 then 1 else 256 * Pow256(i - 1)
  }

  /** `(n >> (8 * i)) & 0xff` on a non-negative integer. */
  function ByteOf(n: nat, i: nat): bv8 {
    ((n / Pow256(i)) % 256) as bv8
  }

  /** The last `len` bytes of `n`, most significant first. */
  function Encode(n: nat, len: nat): (bytes: seq<bv8>)
    ensures |bytes| == len
  {
    if len == 0 then [] else Encode(n / 256, len - 1) + [(n % 256) as bv8]
  }

  lemma DivTwice(n: nat, p: nat)
    requires p > 0
    ensures (n / 256) / p == n / (256 * p)
  {
    var q := (n / 256) / p;
    var r := (n / 256) % p;
    assert n / 256 == q * p + r;
    assert n == 256 * (q * p + r) + n % 256;
    assert 256 * (q * p + r) == q * (256 * p) + 256 * r;
    QuotientIs(n, 256 * p, q, 256 * r + n % 256);
  }

  lemma QuotientIs(n: nat, d: nat, q: nat, r: nat)
    requires 0 <= r < d && n == q * d + r
    ensures n / d == q
  {
    var p := n / d;
    assert n == p * d + n % d;
    if p < q {
      MulMonotone(p + 1, q, d);
    } else if p > q {
      MulMonotone(q + 1, p, d);
    }
  }

  lemma LowByte(n: nat)
    ensures ByteOf(n, 0) == (n % 256) as bv8
  {}

  lemma NextByte(n: nat, i: nat)
    ensures ByteOf(n / 256, i) == ByteOf(n, i + 1)
  {
    DivTwice(n, Pow256(i));
  }

  /** Writing one more byte at the front is writing the next higher byte. */
  lemma {:induction false} EncodeFront(n: nat, len: nat)
    ensures Encode(n, len + 1) == [ByteOf(n, len)] + Encode(n, len)
  {
    hide ByteOf, Encode;
    EncodeMore(n, len);
    if len == 0 {
      LowByte(n);
      EncodeNone(n);
      EncodeNone(n / 256);
    } else {
      EncodeFront(n / 256, len - 1);
      NextByte(n, len - 1);
      EncodeMore(n, len - 1);
      Reassociate([ByteOf(n, len)], Encode(n / 256, len - 1), [(n % 256) as bv8]);
    }
  }

  lemma EncodeNone(n: nat)
    ensures Encode(n, 0) == []
  {}

  lemma EncodeMore(n: nat, len: nat)
    ensures Encode(n, len + 1) == Encode(n / 256, len) + [(n % 256) as bv8]
  {}

  lemma Reassociate(a: seq<bv8>, b: seq<bv8>, c: seq<bv8>)
    ensures (a + b) + c == a + (b + c)
  {}

  /** Leading bytes of a small number are zero. */
  lemma {:induction false} EncodeZeros(n: nat, len: nat, more: nat)
    requires n < Pow256(len)
    ensures Encode(n, more + len) == seq(more, _ => 0 as bv8) + Encode(n, len)
    decreases len
  {
    if len == 0 {
      EncodeOfZero(more);
    } else {
      EncodeZeros(n / 256, len - 1, more);
    }
  }

  lemma {:induction false} EncodeOfZero(len: nat)
    ensures Encode(0, len) == seq(len, _ => 0 as bv8)
  {
    if len > 0 { EncodeOfZero(len - 1); }
  }

  lemma ByteZero(x: nat)
    requires x < 256 && x as bv8 == 0
    ensures x == 0
  {
    assert (x as bv8) as nat == x;
  }

  lemma {:induction false} ZeroEncoding(n: nat, len: nat)
    requires n < Pow256(len) && Encode(n, len) == seq(len, _ => 0 as bv8)
    ensures n == 0
  {
    if len > 0 {
      var e := Encode(n, len);
      assert e[..len - 1] == Encode(n / 256, len - 1) && e[len - 1] == (n % 256) as bv8;
      ByteZero(n % 256);
      ZeroEncoding(n / 256, len - 1);
    }
  }

  /** Only a small number has zero leading bytes. */
  lemma {:induction false} ZeroFront(n: nat, more: nat, len: nat)
    requires n < Pow256(more + len) && Encode(n, more + len)[..more] == seq(more, _ => 0 as bv8)
    ensures n < Pow256(len)
    decreases len
  {
    if len == 0 {
      ZeroEncoding(n, more);
    } else {
      assert Encode(n, more + len)[..more] == Encode(n / 256, more + len - 1)[..more];
      ZeroFront(n / 256, more, len - 1);
    }
  }

  // ----- round trip --------------------------------------------------------------------------

  /** The number that the bytes stand for, most significant first. */
  function Decode(b: seq<bv8>): nat {
    if b == [] then 0 else 256 * Decode(b[..|b| - 1]) + Nat(b[|b| - 1])
  }

  lemma DecodeLast(front: seq<bv8>, b: bv8)
    ensures Decode([]) == 0 && Decode(front + [b]) == 256 * Decode(front) + Nat(b)
  {
    hide Nat;
    assert (front + [b])[..|front|] == front;
  }

  /** A number that fits is read back. */
  lemma {:induction false} NumberRoundTrip(n: nat, len: nat)
    requires n < Pow256(len)
    ensures Decode(Encode(n, len)) == n
  {
    hide Nat, Encode, Decode;
    if len == 0 {
      EncodeNone(n);
      DecodeLast([], 0);
    } else {
      EncodeMore(n, len - 1);
      NumberRoundTrip(n / 256, len - 1);
      DecodeLast(Encode(n / 256, len - 1), (n % 256) as bv8);
      NatOfByte(n % 256);
    }
  }
}

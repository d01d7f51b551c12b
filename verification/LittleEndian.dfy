/** Little-endian byte strings as numbers: the scalar codecs and the byte edits around them. */
module LittleEndian {
  import opened Bytes
  import BigEndian

  function Decode(b: seq<bv8>): nat {
    if b == [] then 0 else Nat(b[0]) + 256 * Decode(b[1..])
  }

  function Encode(n: nat, len: nat): (b: seq<bv8>)
    ensures |b| == len
  {
    if len == 0 then [] else [Byte(n % 256)] + Encode(n / 256, len - 1)
  }

  // ----- the app's loops -----------------------------------------------------------------------

  /** `res += bytes[i] << (i * 8)` for every byte. */
  method DecodeScalar(bytes: seq<bv8>) returns (res: nat)
    ensures res == Decode(bytes)
  {
    hide Nat;
    res := 0;
    for i := 0 to |bytes|
      invariant res == Decode(bytes[..i])
    {
      DecodeMore(bytes, i);
      res := res + Nat(bytes[i]) * BigEndian.Pow256(i);
    }
    assert bytes[..|bytes|] == bytes;
  }

  /** `bytes[i] = (s >> (i * 8)) & 0xff` for every position. */
  method EncodeScalar(s: nat, len: nat) returns (bytes: array<bv8>)
    ensures bytes[..] == Encode(s, len)
    ensures fresh(bytes)
  {
    hide Byte;
    bytes := new bv8[len](_ => 0);
    for i := 0 to len
      invariant forall j :: 0 <= j < i ==> bytes[j] == Encode(s, len)[j]
    {
      EncodeAt(s, len, i);
      bytes[i] := Byte(s / BigEndian.Pow256(i) % 256);
    }
  }

  lemma {:induction false} DecodeMore(b: seq<bv8>, i: nat)
    requires i < |b|
    ensures Decode(b[..i + 1]) == Decode(b[..i]) + Nat(b[i]) * BigEndian.Pow256(i)
  {
    hide Nat;
    if i == 0 {
      assert b[..1][1..] == [];
    } else {
      DecodeMore(b[1..], i - 1);
      assert b[..i + 1][1..] == b[1..][..i];
      assert b[..i][1..] == b[1..][..i - 1];
      Scale(Nat(b[i]), BigEndian.Pow256(i - 1));
    }
  }

  lemma Scale(x: nat, p: nat)
    ensures 256 * (x * p) == x * (256 * p)
  {}

  lemma {:induction false} EncodeAt(n: nat, len: nat, i: nat)
    requires i < len
    ensures Encode(n, len)[i] == Byte(n / BigEndian.Pow256(i) % 256)
  {
    hide Byte;
    if i > 0 {
      EncodeAt(n / 256, len - 1, i - 1);
      BigEndian.DivTwice(n, BigEndian.Pow256(i - 1));
    } else {
      assert BigEndian.Pow256(0) == 1;
    }
  }

  // ----- round trips -----------------------------------------------------------------------------

  lemma ByteOfNat(b: bv8)
    ensures Byte(Nat(b)) == b
  {}

  lemma HighBitClear(h: bv8)
    ensures Nat(h) < 128 <==> h < 128
  {
    var low := h & 0x7f;
    assert h >= 128 ==> h == 128 + low;
  }

  /** A number that fits is read back from its bytes. */
  lemma {:induction false} NumberRoundTrip(n: nat, len: nat)
    requires n < BigEndian.Pow256(len)
    ensures Decode(Encode(n, len)) == n
  {
    hide Nat, Byte;
    if len > 0 {
      NatOfByte(n % 256);
      NumberRoundTrip(n / 256, len - 1);
      assert Encode(n, len)[1..] == Encode(n / 256, len - 1);
    }
  }

  lemma LowAndRest(x: nat, r: nat)
    requires x < 256
    ensures (x + 256 * r) % 256 == x && (x + 256 * r) / 256 == r
  {}

  /** Bytes are read back from the number they denote. */
  lemma {:induction false} BytesRoundTrip(b: seq<bv8>)
    ensures Encode(Decode(b), |b|) == b
    ensures Decode(b) < BigEndian.Pow256(|b|)
  {
    hide Nat, Byte;
    if b != [] {
      BytesRoundTrip(b[1..]);
      LowAndRest(Nat(b[0]), Decode(b[1..]));
      ByteOfNat(b[0]);
      assert b == [b[0]] + b[1..];
    }
  }

  /** The most significant byte. */
  lemma {:induction false} TopByte(b: seq<bv8>)
    requires b != []
    ensures var k := |b| - 1; Decode(b) >= Nat(b[k]) * BigEndian.Pow256(k)
  {
    hide Nat;
    DecodeMore(b, |b| - 1);
    assert b[..|b| - 1 + 1] == b;
  }

  // ----- the sign bit ------------------------------------------------------------------------------

  function SetTop(x: bv8): bv8 { x | 0x80 }

  function ClearTop(x: bv8): bv8 { x & 0x7f }

  predicate HasTop(x: bv8) { x & 0x80 != 0 }

  lemma TopBit(x: bv8)
    ensures HasTop(SetTop(x)) && !HasTop(ClearTop(x))
    ensures !HasTop(x) ==> ClearTop(SetTop(x)) == x && ClearTop(x) == x
    ensures HasTop(x) ==> SetTop(ClearTop(x)) == x
    ensures HasTop(x) <==> x >= 128
  {}

  lemma TopBitNat(x: bv8)
    ensures HasTop(x) <==> Nat(x) >= 128
  {
    TopBit(x);
    HighBitClear(x);
  }
}

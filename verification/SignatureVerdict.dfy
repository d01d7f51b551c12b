/**
 What Ed25519 verification decides, in terms of points and numbers: exactly which signatures it accepts, that it
 accepts no second one with the same first half, and what signing and the public key are made of.
 */
module SignatureVerdict {
  import opened ModArith
  import opened Edwards
  import opened EdwardsClosed
  import opened PointCodec
  import opened Signing
  import opened Bytes
  import LE = LittleEndian
  import BigEndian
  import Sha512

  // ----- the secret scalar -----------------------------------------------------------------------------

  lemma {:induction false} DecodeParts(b: seq<bv8>)
    requires |b| >= 2
    ensures var k := |b| - 1;
            LE.Decode(b) == Nat(b[0]) + 256 * LE.Decode(b[1..k]) + Nat(b[k]) * BigEndian.Pow256(k)
  {
    hide Nat;
    var k := |b| - 1;
    LE.DecodeMore(b, k);
    assert b[..k + 1] == b && b[..k][0] == b[0] && b[..k][1..] == b[1..k];
  }

  lemma LowBits(x: bv8)
    ensures Nat(x & 248) == Nat(x) / 8 * 8
  {
    hide Nat;
    var q, r := x >> 3, x & 7;
    SplitThree(x);
    ShiftThree(q, r);
  }

  lemma SplitThree(x: bv8)
    ensures var q, r := x >> 3, x & 7; q < 32 && r < 8 && x & 248 == q << 3 && x == (q << 3) | r
  {}

  lemma ShiftThree(q: bv8, r: bv8)
    requires q < 32 && r < 8
    ensures Nat(q << 3) == 8 * Nat(q) && Nat((q << 3) | r) == 8 * Nat(q) + Nat(r) && Nat(r) < 8
  {}

  lemma HighBits(x: bv8)
    ensures Nat((x & 127) | 64) == 64 + Nat(x) % 64
  {}

  /** Two to the 254. */
  function TopBitOnly(): nat { 64 * BigEndian.Pow256(31) }

  lemma ClampNumbers(b0: nat, mid: nat, b31: nat, P: nat)
    requires b0 < 256 && 256 * mid + 256 <= P && P % 256 == 0
    ensures var n := b0 + 256 * mid + b31 * P;
            64 * P + n % (64 * P) / 8 * 8 == b0 / 8 * 8 + 256 * mid + (64 + b31 % 64) * P
  {
    var n, q, r := b0 + 256 * mid + b31 * P, b31 / 64, b31 % 64;
    var low := b0 + 256 * mid + r * P;
    assert b31 * P == q * (64 * P) + r * P by { Regroup(b31, q, r, P); }
    MulMonotone(r, 63, P);
    ModUnique(64 * P, n, q, low);
    var t := P / 256;
    assert P == 256 * t;
    assert low == b0 + 8 * (32 * mid + 32 * (r * t)) by { Move256(r, t, P); }
    DropThree(b0, 32 * mid + 32 * (r * t));
    assert (64 + r) * P == 64 * P + r * P;
    assert 8 * (32 * (r * t)) == r * P by { Move256(r, t, P); }
  }

  lemma Regroup(b: nat, q: nat, r: nat, P: nat)
    requires b == 64 * q + r
    ensures b * P == q * (64 * P) + r * P
  {}

  lemma Move256(r: nat, t: nat, P: nat)
    requires P == 256 * t
    ensures r * P == 256 * (r * t)
  {}

  lemma DropThree(b: nat, m: nat)
    ensures (b + 8 * m) / 8 * 8 == b / 8 * 8 + 8 * m
  {}

  lemma PowSplit()
    ensures BigEndian.Pow256(31) == 256 * BigEndian.Pow256(30)
  {}

  /**
   The secret scalar: of the first half of the hash as a little-endian number, the lowest three bits and all from
   the 254th are dropped, and the 254th is set.
   */
  lemma ClampIs(h: seq<bv8>)
    requires |h| == 64
    ensures Clamp(h) == TopBitOnly() + LE.Decode(h[..32]) % TopBitOnly() / 8 * 8
  {
    hide Nat, LE.Decode, BigEndian.Pow256;
    var b := h[..32];
    var c := b[0 := b[0] & 248][31 := (b[31] & 127) | 64];
    DecodeParts(b);
    DecodeParts(c);
    assert c[1..31] == b[1..31] && c[0] == b[0] & 248 && c[31] == (b[31] & 127) | 64;
    LowBits(b[0]);
    HighBits(b[31]);
    MiddleFits(b[1..31]);
    PowSplit();
    ClampNumbers(Nat(b[0]), LE.Decode(b[1..31]), Nat(b[31]), BigEndian.Pow256(31));
  }

  lemma MiddleFits(b: seq<bv8>)
    requires |b| == 30
    ensures 256 * LE.Decode(b) + 256 <= BigEndian.Pow256(31)
  {
    LE.BytesRoundTrip(b);
    hide LE.Decode;
    assert BigEndian.Pow256(31) == 256 * BigEndian.Pow256(30);
  }

  // ----- multiples of the base point ---------------------------------------------------------------------

  /** The base point has the order of the group, and no smaller one. */
  ghost predicate Exact(g: Group) {
    Proper(g) && forall n: nat :: 0 < n < g.order ==> Times(g.curve, g.base, n) != Zero()
  }

  /** Below the order, different numbers give different multiples of the base point. */
  lemma TimesInjective(g: Group, m: nat, n: nat)
    requires Exact(g) && Associative(g.curve) && m <= n < g.order
    requires Times(g.curve, g.base, m) == Times(g.curve, g.base, n)
    ensures m == n
  {
    hide PointAdd, Suitable, OnCurve, Associative, Fits, BigEndian.Pow256, Times;
    var c, b, l := g.curve, g.base, g.order;
    ProperFacts(g);
    TimesAdd(c, b, l - m, m);
    TimesAdd(c, b, l - m, n);
    TimesAdd(c, b, l, n - m);
    assert l - m + m == l && l - m + n == l + (n - m);
    TimesOnCurve(c, b, n - m);
    NonNegative(c, Times(c, b, n - m));
    AddZero(c, Times(c, b, n - m));
  }

  // ----- the verdict ---------------------------------------------------------------------------------------

  /** Section 5.1.7 of RFC 8032 over the app's hash, without cofactor: points so encoded, and s B = R + k A. */
  ghost predicate Accepts(g: Group, message: seq<bv8>, signature: seq<bv8>, publicKey: seq<bv8>, A: Point, R: Point)
    requires g.curve.p > 2 && g.order > 0
  {
    && |signature| == 64 && |publicKey| == 32
    && OnCurve(g.curve, A) && EncodePoint(A) == publicKey
    && OnCurve(g.curve, R) && EncodePoint(R) == signature[..32]
    && var s := LE.Decode(signature[32..]);
    && var k := LE.Decode(Sha512.AppDigest(signature[..32] + publicKey + message)) % g.order;
    && s < g.order && Times(g.curve, g.base, s) == PointAdd(g.curve, R, Times(g.curve, A, k))
  }

  lemma DecodesTo(c: Curve, bytes: seq<bv8>, a: Point)
    requires Fits(c) && c.p > 2
    ensures DecodePoint(c, bytes) == Decoded(a) <==> OnCurve(c, a) && EncodePoint(a) == bytes
  {
    hide Fits, OnCurve, DecodePoint, EncodePoint;
    if DecodePoint(c, bytes) == Decoded(a) { DecodeSound(c, bytes); }
    if OnCurve(c, a) { OnCurveNatural(c, a); }
    if OnCurve(c, a) && EncodePoint(a) == bytes { PointRoundTrip(c, a); }
  }

  lemma OnCurveNatural(c: Curve, a: Point)
    requires c.p > 0 && OnCurve(c, a)
    ensures a.y >= 0
  {}

  lemma OnlyPoints(c: Curve, bytes: seq<bv8>, a: Point)
    requires Fits(c) && c.p > 2 && OnCurve(c, a) && EncodePoint(a) == bytes
    ensures DecodePoint(c, bytes) == Decoded(a)
  {
    hide Fits, OnCurve, DecodePoint, EncodePoint;
    DecodesTo(c, bytes, a);
  }

  lemma DecodedPoint(c: Curve, bytes: seq<bv8>)
    requires Fits(c) && c.p > 2 && DecodePoint(c, bytes).Decoded?
    ensures var a := DecodePoint(c, bytes).point; OnCurve(c, a) && EncodePoint(a) == bytes
  {
    hide Fits, OnCurve, DecodePoint, EncodePoint;
    DecodeSound(c, bytes);
  }

  lemma BothMultiples(g: Group, A: Point, s: nat, k: nat)
    requires Proper(g) && Associative(g.curve) && OnCurve(g.curve, A)
    ensures g.curve.p > 2
    ensures ScalarMul(g.curve, g.base, s) == Times(g.curve, g.base, s)
    ensures ScalarMul(g.curve, A, k) == Times(g.curve, A, k)
  {
    hide PointAdd, Suitable, OnCurve, Associative, Fits, BigEndian.Pow256, ScalarMul, Times;
    ProperFacts(g);
    ScalarMulIs(g.curve, g.base, s);
    ScalarMulIs(g.curve, A, k);
  }

  /**
   Exactly which signatures are accepted: those of 64 bytes, under a key of 32, for which there are curve points with
   these encodings, a number below the order, and s B = R + k A.
   */
  lemma VerdictIs(g: Group, message: seq<bv8>, signature: seq<bv8>, publicKey: seq<bv8>)
    requires Proper(g) && Associative(g.curve)
    ensures g.curve.p > 2 && g.order > 0
    ensures Verify(g, message, signature, publicKey) <==>
            exists A, R :: Accepts(g, message, signature, publicKey, A, R)
  {
    hide PointAdd, Suitable, OnCurve, Associative, ScalarMul, DecodePoint, EncodePoint, Times, BigEndian.Pow256,
         Sha512.AppDigest, LE.Decode, Fits;
    ProperFacts(g);
    if Verify(g, message, signature, publicKey) {
      AcceptedHasPoints(g, message, signature, publicKey);
    }
    if exists A, R :: Accepts(g, message, signature, publicKey, A, R) {
      var A, R :| Accepts(g, message, signature, publicKey, A, R);
      PointsAreAccepted(g, message, signature, publicKey, A, R);
    }
  }

  lemma AcceptedHasPoints(g: Group, message: seq<bv8>, signature: seq<bv8>, publicKey: seq<bv8>)
    requires Proper(g) && Associative(g.curve) && g.curve.p > 2 && g.order > 0
    requires Verify(g, message, signature, publicKey)
    ensures var c := g.curve;
            && |signature| == 64 && DecodePoint(c, publicKey).Decoded? && DecodePoint(c, signature[..32]).Decoded?
            && Accepts(g, message, signature, publicKey, DecodePoint(c, publicKey).point,
                       DecodePoint(c, signature[..32]).point)
  {
    hide PointAdd, Suitable, OnCurve, Associative, ScalarMul, DecodePoint, EncodePoint, Times, BigEndian.Pow256,
         Sha512.AppDigest, LE.Decode, Fits;
    var c, rBytes := g.curve, signature[..32];
    DecodedPoint(c, publicKey);
    DecodedPoint(c, rBytes);
    BothMultiples(g, DecodePoint(c, publicKey).point, LE.Decode(signature[32..]),
                  Challenge(g, rBytes, publicKey, message));
  }

  lemma PointsAreAccepted(g: Group, message: seq<bv8>, signature: seq<bv8>, publicKey: seq<bv8>, A: Point, R: Point)
    requires Proper(g) && Associative(g.curve) && g.curve.p > 2 && g.order > 0
    requires Accepts(g, message, signature, publicKey, A, R)
    ensures Verify(g, message, signature, publicKey)
  {
    hide PointAdd, Suitable, OnCurve, Associative, ScalarMul, DecodePoint, EncodePoint, Times, BigEndian.Pow256,
         Sha512.AppDigest, LE.Decode, Fits;
    var c, rBytes := g.curve, signature[..32];
    OnlyPoints(c, publicKey, A);
    OnlyPoints(c, rBytes, R);
    BothMultiples(g, A, LE.Decode(signature[32..]), Challenge(g, rBytes, publicKey, message));
  }

  /** No second signature: of one message under one key, the first 32 bytes leave one choice for the others. */
  lemma OneSignature(g: Group, message: seq<bv8>, publicKey: seq<bv8>, x: seq<bv8>, y: seq<bv8>)
    requires Exact(g) && Associative(g.curve) && g.curve.p > 2
    requires Verify(g, message, x, publicKey) && Verify(g, message, y, publicKey)
    requires |x| == |y| == 64 && x[..32] == y[..32]
    ensures x == y
  {
    hide PointAdd, Suitable, OnCurve, Associative, ScalarMul, DecodePoint, EncodePoint, Times, BigEndian.Pow256,
         Sha512.AppDigest, LE.Decode, Fits, Verify;
    AcceptedHasPoints(g, message, x, publicKey);
    AcceptedHasPoints(g, message, y, publicKey);
    var s, t := LE.Decode(x[32..]), LE.Decode(y[32..]);
    if s <= t { TimesInjective(g, s, t); } else { TimesInjective(g, t, s); }
    LE.BytesRoundTrip(x[32..]);
    LE.BytesRoundTrip(y[32..]);
    assert x == x[..32] + x[32..] && y == y[..32] + y[32..];
  }

  // ----- what is signed, and with what ---------------------------------------------------------------------

  /** The public key is the encoded multiple of the base point by the clamped first half of the seed's hash. */
  lemma PublicKeyIs(g: Group, seed: seq<bv8>)
    requires Proper(g) && Associative(g.curve) && g.curve.p > 2
    ensures var a := TopBitOnly() + LE.Decode(Sha512.AppDigest(seed)[..32]) % TopBitOnly() / 8 * 8;
            var A := Times(g.curve, g.base, a);
            A.y >= 0 && PublicKeyFromSeed(g, seed) == EncodePoint(A)
  {
    hide PointAdd, Suitable, OnCurve, Associative, ScalarMul, EncodePoint, Times, BigEndian.Pow256, Sha512.AppDigest,
         LE.Decode, Fits, Clamp, TopBitOnly;
    var h := Sha512.AppDigest(seed);
    ClampIs(h);
    MultipleIs(g, Clamp(h));
  }

  lemma MultipleIs(g: Group, n: nat)
    requires Proper(g) && Associative(g.curve) && g.curve.p > 2
    ensures var A := Times(g.curve, g.base, n); A.y >= 0 && EncodedMultiple(g.curve, g.base, n) == EncodePoint(A)
  {
    hide PointAdd, Suitable, OnCurve, Associative, ScalarMul, EncodePoint, Times, BigEndian.Pow256, Fits;
    ProperFacts(g);
    ScalarMulIs(g.curve, g.base, n);
    TimesOnCurve(g.curve, g.base, n);
    OnCurveNatural(g.curve, Times(g.curve, g.base, n));
  }

  /**
   The signature of section 5.1.6 of RFC 8032, over the app's hash: R = r B for r from the second half of the seed's
   hash and the message, and the number r + k a modulo the order, k from R, the public key and the message.
   */
  lemma SignatureIs(g: Group, message: seq<bv8>, seed: seq<bv8>)
    requires Proper(g) && Associative(g.curve) && g.curve.p > 2
    ensures var h := Sha512.AppDigest(seed);
            var a := TopBitOnly() + LE.Decode(h[..32]) % TopBitOnly() / 8 * 8;
            var r := LE.Decode(Sha512.AppDigest(h[32..] + message)) % g.order;
            var R := Times(g.curve, g.base, r);
            && R.y >= 0
            && var k := LE.Decode(Sha512.AppDigest(EncodePoint(R) + PublicKeyFromSeed(g, seed) + message)) % g.order;
            Sign(g, message, seed) == EncodePoint(R) + LE.Encode((r + k * a) % g.order, 32)
  {
    hide PointAdd, Suitable, OnCurve, Associative, ScalarMul, EncodePoint, Times, BigEndian.Pow256, Sha512.AppDigest,
         LE.Decode, LE.Encode, Fits, Clamp, TopBitOnly, EncodedMultiple;
    var h := Sha512.AppDigest(seed);
    ClampIs(h);
    MultipleIs(g, LE.Decode(Sha512.AppDigest(h[32..] + message)) % g.order);
  }
}

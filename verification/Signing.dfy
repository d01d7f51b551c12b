/**
 Ed25519 signing and verification as the app writes them (sections 5.1.5 to 5.1.7 of RFC 8032), over the app's own
 SHA-512, which is not the defined one (see AppSha512.dfy).
 */
module Signing {
  import opened ModArith
  import opened Edwards
  import opened EdwardsClosed
  import opened PointCodec
  import LE = LittleEndian
  import BigEndian
  import Sha512

  /** A curve with its base point and the order of the base point. */
  datatype Group = Group(curve: Curve, base: Point, order: nat)

  // ----- multiples of a point --------------------------------------------------------------------

  /** The n-fold sum of a point. */
  function Times(c: Curve, a: Point, n: nat): Point
    requires c.p > 2
  {
    if n == 0 then Zero() else PointAdd(c, Times(c, a, n - 1), a)
  }

  /** The double-and-add loop from a given state on. */
  function Accumulate(c: Curve, result: Point, addend: Point, s: nat): Point
    requires c.p > 2
    decreases s
  {
    if s == 0 then result
    else Accumulate(c, if s % 2 == 1 then PointAdd(c, result, addend) else result, PointAdd(c, addend, addend), s / 2)
  }

  function ScalarMul(c: Curve, a: Point, scalar: nat): Point
    requires c.p > 2
  {
    Accumulate(c, Zero(), a, scalar)
  }

  /** The app's loop. */
  method ScalarMulLoop(c: Curve, p: Point, scalar: nat) returns (result: Point)
    requires c.p > 2
    ensures result == ScalarMul(c, p, scalar)
  {
    hide PointAdd;
    result := Zero();
    var addend, s := p, scalar;
    while s > 0
      invariant Accumulate(c, result, addend, s) == ScalarMul(c, p, scalar)
    {
      if s % 2 == 1 {
        result := PointAdd(c, result, addend);
      }
      addend := PointAdd(c, addend, addend);
      s := s / 2;
    }
  }

  // ----- keys, signatures, verification -------------------------------------------------------------

  function Clamp(hash: seq<bv8>): nat
    requires |hash| == 64
  {
    var clamped := hash[..32];
    LE.Decode(clamped[0 := clamped[0] & 248][31 := (clamped[31] & 127) | 64])
  }

  /** Coordinates produced by the addition formula are never negative. */
  predicate Natural(a: Point) { a.x >= 0 && a.y >= 0 }

  lemma {:induction false} AccumulateNatural(c: Curve, r: Point, a: Point, s: nat)
    requires c.p > 2 && Natural(r)
    ensures Natural(Accumulate(c, r, a, s))
    decreases s
  {
    if s > 0 {
      AccumulateNatural(c, if s % 2 == 1 then PointAdd(c, r, a) else r, PointAdd(c, a, a), s / 2);
    }
  }

  function EncodedMultiple(c: Curve, a: Point, n: nat): (b: seq<bv8>)
    requires c.p > 2
    ensures |b| == 32
  {
    AccumulateNatural(c, Zero(), a, n);
    EncodePoint(ScalarMul(c, a, n))
  }

  function PublicKeyFromSeed(g: Group, seed: seq<bv8>): (b: seq<bv8>)
    requires g.curve.p > 2
    ensures |b| == 32
  {
    EncodedMultiple(g.curve, g.base, Clamp(Sha512.AppDigest(seed)))
  }

  /** The challenge k of a signature. */
  function Challenge(g: Group, rBytes: seq<bv8>, publicKey: seq<bv8>, message: seq<bv8>): nat
    requires g.order > 0
  {
    LE.Decode(Sha512.AppDigest(rBytes + publicKey + message)) % g.order
  }

  function Sign(g: Group, message: seq<bv8>, seed: seq<bv8>): (sig: seq<bv8>)
    requires g.curve.p > 2 && g.order > 0
    ensures |sig| == 64
  {
    var h := Sha512.AppDigest(seed);
    var a := Clamp(h);
    var pubKeyBytes := EncodedMultiple(g.curve, g.base, a);
    var r := LE.Decode(Sha512.AppDigest(h[32..] + message)) % g.order;
    var rBytes := EncodedMultiple(g.curve, g.base, r);
    var k := Challenge(g, rBytes, pubKeyBytes, message);
    rBytes + LE.Encode((r + k * a) % g.order, 32)
  }

  function Verify(g: Group, message: seq<bv8>, signature: seq<bv8>, publicKey: seq<bv8>): bool
    requires g.curve.p > 2 && g.order > 0
  {
    |signature| == 64 && |publicKey| == 32 &&
    var c := g.curve;
    var rBytes := signature[..32];
    var s := LE.Decode(signature[32..]);
    match (DecodePoint(c, publicKey), DecodePoint(c, rBytes))
    case (Decoded(aPoint), Decoded(rPoint)) =>
      s < g.order &&
      var k := Challenge(g, rBytes, publicKey, message);
      ScalarMul(c, g.base, s) == PointAdd(c, rPoint, ScalarMul(c, aPoint, k))
    case _ => false
  }

  // ----- the group law ---------------------------------------------------------------------------------

  ghost predicate AssociateAt(c: Curve, x: Point, y: Point, z: Point)
    requires c.p > 2
  {
    PointAdd(c, PointAdd(c, x, y), z) == PointAdd(c, x, PointAdd(c, y, z))
  }

  /** The addition law is associative on the curve: the one fact about the formula taken as given. */
  ghost predicate Associative(c: Curve)
    requires c.p > 2
  {
    forall x, y, z {:trigger AssociateAt(c, x, y, z)} ::
      OnCurve(c, x) && OnCurve(c, y) && OnCurve(c, z) ==> AssociateAt(c, x, y, z)
  }

  lemma {:induction false} TimesOnCurve(c: Curve, a: Point, n: nat)
    requires Suitable(c) && OnCurve(c, a)
    ensures OnCurve(c, Times(c, a, n))
  {
    hide PointAdd, OnCurve, Suitable;
    SuitablePrime(c);
    OddPrime(c);
    if n == 0 {
      ZeroOnCurve(c);
    } else {
      TimesOnCurve(c, a, n - 1);
      AddOnCurve(c, Times(c, a, n - 1), a);
    }
  }

  lemma {:induction false} TimesAdd(c: Curve, a: Point, m: nat, n: nat)
    requires Suitable(c) && OnCurve(c, a) && Associative(c)
    ensures Times(c, a, m + n) == PointAdd(c, Times(c, a, m), Times(c, a, n))
    decreases n
  {
    hide PointAdd, Suitable;
    OddPrime(c);
    TimesOnCurve(c, a, m);
    if n == 0 {
      AddZero(c, Times(c, a, m));
    } else {
      TimesOnCurve(c, a, n - 1);
      TimesAdd(c, a, m, n - 1);
      assert AssociateAt(c, Times(c, a, m), Times(c, a, n - 1), a);
    }
  }

  lemma {:induction false} TimesMul(c: Curve, a: Point, m: nat, n: nat)
    requires Suitable(c) && OnCurve(c, a) && Associative(c)
    ensures Times(c, Times(c, a, m), n) == Times(c, a, m * n)
    decreases n
  {
    hide PointAdd, Suitable, OnCurve, Associative;
    OddPrime(c);
    TimesOnCurve(c, a, m);
    if n == 0 {
      assert m * n == 0;
    } else {
      TimesMul(c, a, m, n - 1);
      assert m * n == m * (n - 1) + m;
      TimesAdd(c, a, m * (n - 1), m);
    }
  }

  lemma TimesOne(c: Curve, a: Point)
    requires Suitable(c) && OnCurve(c, a)
    ensures Times(c, a, 1) == a && Times(c, a, 2) == PointAdd(c, a, a)
  {
    OddPrime(c);
    AddZero(c, a);
    assert Times(c, a, 0) == Zero();
    assert Times(c, a, 1) == PointAdd(c, Times(c, a, 0), a);
    assert Times(c, a, 2) == PointAdd(c, Times(c, a, 1), a);
  }

  /** The double-and-add loop adds the n-fold sum of the addend to its result. */
  lemma {:induction false} AccumulateIs(c: Curve, r: Point, a: Point, s: nat)
    requires Suitable(c) && OnCurve(c, r) && OnCurve(c, a) && Associative(c)
    ensures Accumulate(c, r, a, s) == PointAdd(c, r, Times(c, a, s))
    decreases s
  {
    hide PointAdd, Suitable, OnCurve, Associative;
    OddPrime(c);
    if s == 0 {
      NonNegative(c, r);
      AddZero(c, r);
    } else {
      var half, twice := s / 2, PointAdd(c, a, a);
      AddOnCurve(c, a, a);
      AddOnCurve(c, r, a);
      TimesOne(c, a);
      TimesMul(c, a, 2, half);
      if s % 2 == 1 {
        AccumulateIs(c, PointAdd(c, r, a), twice, half);
        TimesOnCurve(c, a, 2 * half);
        AssociativeAt(c, r, a, Times(c, a, 2 * half));
        TimesAdd(c, a, 1, 2 * half);
        assert 1 + 2 * half == s;
      } else {
        AccumulateIs(c, r, twice, half);
        assert 2 * half == s;
      }
    }
  }

  lemma NonNegative(c: Curve, a: Point)
    requires c.p > 2 && OnCurve(c, a)
    ensures 0 <= a.x < c.p && 0 <= a.y < c.p
  {}

  lemma AssociativeAt(c: Curve, x: Point, y: Point, z: Point)
    requires c.p > 2 && Associative(c) && OnCurve(c, x) && OnCurve(c, y) && OnCurve(c, z)
    ensures PointAdd(c, PointAdd(c, x, y), z) == PointAdd(c, x, PointAdd(c, y, z))
  {
    assert AssociateAt(c, x, y, z);
  }

  /** The double-and-add loop computes the n-fold sum, for every scalar and every point of the curve. */
  lemma ScalarMulIs(c: Curve, a: Point, n: nat)
    requires Suitable(c) && OnCurve(c, a) && Associative(c)
    ensures ScalarMul(c, a, n) == Times(c, a, n)
  {
    hide PointAdd, Suitable, OnCurve, Associative;
    OddPrime(c);
    ZeroOnCurve(c);
    AccumulateIs(c, Zero(), a, n);
    TimesOnCurve(c, a, n);
    NonNegative(c, Times(c, a, n));
    AddZero(c, Times(c, a, n));
  }

  /** Multiples of the base point depend only on the scalar modulo the order. */
  lemma TimesModOrder(g: Group, n: nat)
    requires Suitable(g.curve) && OnCurve(g.curve, g.base) && Associative(g.curve) && g.order > 0
    requires Times(g.curve, g.base, g.order) == Zero()
    ensures Times(g.curve, g.base, n % g.order) == Times(g.curve, g.base, n)
  {
    hide PointAdd, Suitable, OnCurve, Associative;
    var c, b, l := g.curve, g.base, g.order;
    OddPrime(c);
    var q, r := n / l, n % l;
    DivMod(l, n);
    assert l * q + r == n;
    TimesMul(c, b, l, q);
    TimesOfZero(c, q);
    TimesAdd(c, b, l * q, r);
    TimesOnCurve(c, b, r);
    NonNegative(c, Times(c, b, r));
    AddZero(c, Times(c, b, r));
  }

  lemma {:induction false} TimesOfZero(c: Curve, n: nat)
    requires Suitable(c)
    ensures Times(c, Zero(), n) == Zero()
  {
    OddPrime(c);
    if n > 0 {
      TimesOfZero(c, n - 1);
      AddZero(c, Zero());
    }
  }

  // ----- completeness -----------------------------------------------------------------------------------

  /** What the base point and its order must satisfy. */
  ghost predicate Proper(g: Group) {
    && Fits(g.curve) && OnCurve(g.curve, g.base)
    && 0 < g.order < BigEndian.Pow256(32)
    && Times(g.curve, g.base, g.order) == Zero()
  }

  lemma MultipleDecodes(g: Group, n: nat)
    requires Proper(g) && Associative(g.curve)
    ensures DecodePoint(g.curve, EncodedMultiple(g.curve, g.base, n)) == Decoded(Times(g.curve, g.base, n))
    ensures OnCurve(g.curve, Times(g.curve, g.base, n))
  {
    hide PointAdd, Suitable, OnCurve, Associative, EncodePoint, DecodePoint, ScalarMul, BigEndian.Pow256;
    OddPrime(g.curve);
    ScalarMulIs(g.curve, g.base, n);
    TimesOnCurve(g.curve, g.base, n);
    PointRoundTrip(g.curve, Times(g.curve, g.base, n));
  }

  /** s B = R + k A for R = r B, A = a B and s = r + k a modulo the order. */
  lemma VerificationEquation(g: Group, r: nat, a: nat, k: nat)
    requires Proper(g) && Associative(g.curve)
    ensures var c, b := g.curve, g.base;
            ScalarMul(c, b, (r + k * a) % g.order) == PointAdd(c, Times(c, b, r), ScalarMul(c, Times(c, b, a), k))
  {
    hide PointAdd, Suitable, OnCurve, Associative, ScalarMul, Times, Proper, Fits, BigEndian.Pow256;
    ProperFacts(g);
    var c, b, n := g.curve, g.base, r + k * a;
    OddPrime(c);
    TimesOnCurve(c, b, a);
    ScalarMulIs(c, b, n % g.order);
    ScalarMulIs(c, Times(c, b, a), k);
    TimesModOrder(g, n);
    TimesMul(c, b, a, k);
    assert a * k == k * a;
    TimesAdd(c, b, r, k * a);
  }

  lemma ProperFacts(g: Group)
    requires Proper(g)
    ensures Suitable(g.curve) && g.curve.p > 2 && OnCurve(g.curve, g.base) && g.order > 0
    ensures Times(g.curve, g.base, g.order) == Zero()
  {}

  /**
   Signing completeness: for every message and seed, the signature of the seed verifies under
   the public key of the seed.
   */
  lemma SigningCompleteness(g: Group, message: seq<bv8>, seed: seq<bv8>)
    requires Proper(g) && Associative(g.curve)
    ensures Verify(g, message, Sign(g, message, seed), PublicKeyFromSeed(g, seed))
  {
    hide PointAdd, Suitable, OnCurve, Associative, ScalarMul, EncodedMultiple, DecodePoint, Challenge, Clamp,
         Times, BigEndian.Pow256, Sha512.AppDigest, LE.Decode, LE.Encode;
    OddPrime(g.curve);
    var h := Sha512.AppDigest(seed);
    var a := Clamp(h);
    var pub := EncodedMultiple(g.curve, g.base, a);
    var r := LE.Decode(Sha512.AppDigest(h[32..] + message)) % g.order;
    var rBytes := EncodedMultiple(g.curve, g.base, r);
    var k := Challenge(g, rBytes, pub, message);
    var s := (r + k * a) % g.order;
    var sig := Sign(g, message, seed);
    assert sig[..32] == rBytes && sig[32..] == LE.Encode(s, 32);
    MultipleDecodes(g, a);
    MultipleDecodes(g, r);
    LE.NumberRoundTrip(s, 32);
    VerificationEquation(g, r, a, k);
  }

  // ----- the app's code path, with its loops ------------------------------------------------------------

  method EncodeMultiple(c: Curve, a: Point, n: nat) returns (b: seq<bv8>)
    requires c.p > 2
    ensures b == EncodedMultiple(c, a, n)
  {
    AccumulateNatural(c, Zero(), a, n);
    var p := ScalarMulLoop(c, a, n);
    b := EncodePoint(p);
  }

  method HashToScalar(g: Group, data: seq<bv8>) returns (k: nat)
    requires g.order > 0
    ensures k == LE.Decode(Sha512.AppDigest(data)) % g.order
  {
    hide Sha512.AppDigest, LE.Decode;
    var hash := Sha512.ComputeDigest(data);
    var n := LE.DecodeScalar(hash);
    k := n % g.order;
  }

  method ComputeChallenge(g: Group, rBytes: seq<bv8>, publicKey: seq<bv8>, message: seq<bv8>) returns (k: nat)
    requires g.order > 0
    ensures k == Challenge(g, rBytes, publicKey, message)
  {
    hide Sha512.AppDigest, LE.Decode;
    k := HashToScalar(g, rBytes + publicKey + message);
  }

  /** Signing by the hash, scalar and point loops gives the signature that the theorems are about. */
  method SignMessage(g: Group, message: seq<bv8>, seed: seq<bv8>) returns (signature: seq<bv8>)
    requires g.curve.p > 2 && g.order > 0
    ensures signature == Sign(g, message, seed)
  {
    hide Sha512.AppDigest, LE.Decode, LE.Encode, EncodedMultiple, Clamp, Challenge;
    var h := Sha512.ComputeDigest(seed);
    var a := Clamp(h);
    var pubKeyBytes := EncodeMultiple(g.curve, g.base, a);
    var r := HashToScalar(g, h[32..] + message);
    var rBytes := EncodeMultiple(g.curve, g.base, r);
    var k := ComputeChallenge(g, rBytes, pubKeyBytes, message);
    var sBytes := LE.EncodeScalar((r + k * a) % g.order, 32);
    signature := rBytes + sBytes[..];
  }

  /** Verification by the loops. */
  method VerifySignature(g: Group, message: seq<bv8>, signature: seq<bv8>, publicKey: seq<bv8>) returns (valid: bool)
    requires g.curve.p > 2 && g.order > 0
    ensures valid == Verify(g, message, signature, publicKey)
  {
    hide Sha512.AppDigest, LE.Decode, DecodePoint, ScalarMul, PointAdd, Challenge;
    if |signature| != 64 || |publicKey| != 32 { return false; }
    var c := g.curve;
    var aPoint := DecodePoint(c, publicKey);
    if aPoint.NoPoint? { return false; }
    var rBytes := signature[..32];
    var s := LE.DecodeScalar(signature[32..]);
    if s >= g.order { return false; }
    var rPoint := DecodePoint(c, rBytes);
    if rPoint.NoPoint? { return false; }
    var k := ComputeChallenge(g, rBytes, publicKey, message);
    var sb := ScalarMulLoop(c, g.base, s);
    var ka := ScalarMulLoop(c, aPoint.point, k);
    var rPlusKa := PointAdd(c, rPoint.point, ka);
    valid := sb.x == rPlusKa.x && sb.y == rPlusKa.y;
  }
}

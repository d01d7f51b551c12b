/** Compression of curve points to 32 bytes and back (sections 5.1.2 and 5.1.3 of RFC 8032). */
module PointCodec {
  import opened ModArith
  import opened Edwards
  import opened EdwardsClosed
  import opened Bytes
  import opened LittleEndian
  import BigEndian

  datatype Decoded = NoPoint | Decoded(point: Point)

  ghost predicate Fits(c: Curve) {
    Suitable(c) && c.p < BigEndian.Pow256(31) * 128
  }

  function EncodePoint(a: Point): (b: seq<bv8>)
    requires a.y >= 0
    ensures |b| == 32
  {
    var bytes := LittleEndian.Encode(a.y, 32);
    if a.x % 2 == 1 then bytes[31 := SetTop(bytes[31])] else bytes
  }

  /** (y^2 - 1) / (d y^2 + 1): what x^2 must be. */
  function XSquared(c: Curve, y: int): (r: nat)
    requires c.p > 2
    ensures r < c.p
  {
    Mod(c.p, (y * y - 1) * Inv(c.p, c.d * y * y + 1))
  }

  /** A square root when there is one: the power (p+3)/8, corrected by the root of -1. */
  function RootCandidate(c: Curve, xx: int): (r: nat)
    requires c.p > 2
    ensures r < c.p
  {
    var x := Mod(c.p, Pow(xx, (c.p + 3) / 8));
    if Mod(c.p, x * x - xx) != 0 then Mod(c.p, x * c.i) else x
  }

  function DecodePoint(c: Curve, bytes: seq<bv8>): Decoded
    requires c.p > 2
  {
    if |bytes| != 32 then NoPoint else
      var sign := HasTop(bytes[31]);
      var y := LittleEndian.Decode(bytes[31 := ClearTop(bytes[31])]);
      if y >= c.p then NoPoint else FromY(c, y, sign)
  }

  function FromY(c: Curve, y: nat, sign: bool): Decoded
    requires c.p > 2
  {
    var xx := XSquared(c, y);
    if xx == 0 then
      if sign then NoPoint else Decoded(Point(0, y))
    else
      var x := RootCandidate(c, xx);
      if Mod(c.p, x * x - xx) != 0 then NoPoint
      else if (x % 2 == 1) != sign then Decoded(Point(Mod(c.p, c.p - x), y))
      else Decoded(Point(x, y))
  }

  // ----- square roots -----------------------------------------------------------------------------

  lemma HalfPower(p: nat, s: int)
    requires IsPrime(p) && p % 2 == 1 && !Eq(p, s, 0)
    ensures var h := Pow(s, (p - 1) / 2); Eq(p, h, 1) || Eq(p, h, -1)
  {
    var h := Pow(s, (p - 1) / 2);
    Fermat(p, s);
    PowMul(s, (p - 1) / 2, 2);
    PowSmall(h);
    assert (p - 1) / 2 * 2 == p - 1;
    RootsUpToSign(p, h, 1);
  }

  /** For p = 5 mod 8, the power (p+3)/8 of a square is a root of it or of its negation. */
  lemma PowerRoot(p: nat, s: int, xx: int)
    requires IsPrime(p) && p % 8 == 5 && Eq(p, xx, s * s)
    ensures var x := Pow(xx, (p + 3) / 8); Eq(p, x * x, xx) || Eq(p, x * x, -xx)
  {
    var e, h := (p + 3) / 8, Pow(s, (p - 1) / 2);
    var x := Pow(xx, e);
    assert 8 * e == p + 3;
    PowEq(p, xx, s * s, e);
    PowProduct(s, s, e);
    var q := Pow(s, e);
    EqSquare(p, x, q * q);
    PowAdd(s, e, e);
    PowAdd(s, 2 * e, 2 * e);
    assert e + e == 2 * e && 2 * e + 2 * e == 4 * e;
    assert 4 * e == (p - 1) / 2 + 2;
    PowAdd(s, (p - 1) / 2, 2);
    PowSmall(s);
    assert (q * q) * (q * q) == h * (s * s);
    EqSym(p, xx, s * s);
    EqTrans(p, x * x, h * (s * s), h * (s * s));
    if Eq(p, s, 0) {
      EqSquare(p, s, 0);
      EqScale(p, h, s * s, 0);
      EqTrans(p, x * x, h * (s * s), 0);
      EqTrans(p, x * x, 0, s * s);
      EqTrans(p, x * x, s * s, xx);
    } else {
      HalfPower(p, s);
      if Eq(p, h, 1) {
        EqScale(p, s * s, h, 1);
        EqTrans(p, x * x, h * (s * s), s * s);
        EqTrans(p, x * x, s * s, xx);
      } else {
        EqScale(p, s * s, h, -1);
        EqTrans(p, x * x, h * (s * s), -1 * (s * s));
        EqScale(p, -1, s * s, xx);
        EqTrans(p, x * x, -1 * (s * s), -1 * xx);
      }
    }
  }

  lemma ModZero(p: nat, a: int)
    requires p > 0
    ensures Mod(p, a) == 0 <==> Eq(p, a, 0)
  {
    ModUnique(p, 0, 0, 0);
  }

  /** The candidate squares to `xx` whenever `xx` is a square. */
  lemma CandidateIsRoot(c: Curve, s: int, xx: int)
    requires Suitable(c) && Eq(c.p, xx, s * s)
    ensures Eq(c.p, RootCandidate(c, xx) * RootCandidate(c, xx), xx)
  {
    var p := c.p;
    var w := Pow(xx, (p + 3) / 8);
    var x: int := Mod(p, w);
    PowerRoot(p, s, xx);
    hide IsPrime, Suitable;
    EqMod(p, w);
    EqSquare(p, x, w);
    ModZero(p, x * x - xx);
    EqMove(p, x * x, xx);
    if !Eq(p, x * x, xx) {
      if Eq(p, w * w, xx) { EqTrans(p, x * x, w * w, xx); }
      EqTrans(p, x * x, w * w, -xx);
      CorrectRoot(p, c.i, x, xx);
    }
  }

  /** A root of -xx times a root of -1 is a root of xx. */
  lemma CorrectRoot(p: nat, i: int, x: int, xx: int)
    requires p > 0 && Eq(p, i * i, -1) && Eq(p, x * x, -xx)
    ensures var y := Mod(p, x * i); Eq(p, y * y, xx)
  {
    hide Eq;
    var y: int := Mod(p, x * i);
    ModEq(p, x * i);
    EqSquare(p, y, x * i);
    Shuffle(x, i, x, i);
    EqMul(p, x * x, -xx, i * i, -1);
    assert -xx * -1 == xx;
    EqTrans(p, y * y, (x * x) * (i * i), xx);
  }

  lemma ModEq(p: nat, a: int)
    requires p > 0
    ensures Eq(p, Mod(p, a), a) && Eq(p, a, Mod(p, a))
  {
    EqMod(p, a);
  }

  // ----- the curve equation and XSquared -----------------------------------------------------------

  lemma CurveByX(p: nat, d: int, x: int, y: int)
    requires p > 0
    ensures Eq(p, y * y - x * x, 1 + d * ((x * x) * (y * y))) <==> Eq(p, (x * x) * (d * y * y + 1), y * y - 1)
  {
    var q, r := x * x, y * y;
    Associate(d, y, y);
    assert q * (d * r + 1) == d * (q * r) + q by { Associate(q, d, r); Associate(d, q, r); }
    EqMove(p, r - q, 1 + d * (q * r));
    EqMove(p, q * (d * r + 1), r - 1);
    var z := (r - q) - (1 + d * (q * r));
    assert q * (d * r + 1) - (r - 1) == -1 * z;
    if Eq(p, z, 0) { EqScale(p, -1, z, 0); }
    if Eq(p, -1 * z, 0) { EqScale(p, -1, -1 * z, 0); }
  }

  /** d y^2 + 1 is never zero, since d is not a square and -1 is. */
  lemma DenominatorNonzero(c: Curve, y: int)
    requires Suitable(c)
    ensures !Eq(c.p, c.d * y * y + 1, 0)
  {
    var p, d, i := c.p, c.d, c.i;
    if Eq(p, d * y * y + 1, 0) {
      NegativeInverse(p, d, i, y);
    }
  }

  lemma NegativeInverse(p: nat, d: int, i: int, y: int)
    requires IsPrime(p) && p > 2 && Eq(p, i * i, -1) && Eq(p, d * y * y + 1, 0)
    ensures exists w: int :: Eq(p, w * w, d)
  {
    hide IsPrime;
    Associate(d, y, y);
    SmallNonzero(p, 1);
    if Eq(p, y, 0) {
      EqSquare(p, y, 0);
      EqScale(p, d, y * y, 0);
      EqSelf(p, 1);
      EqAdd(p, d * (y * y), 0, 1, 1);
    } else {
      InvCorrect(p, y);
      var v := Inv(p, y);
      Shuffle(i, v, i, v);
      Shuffle(y, v, y, v);
      EqSquare(p, y * v, 1);
      // d = d (y v)^2 = (d y^2) v^2 = -v^2 = (i v)^2
      EqMove(p, d * (y * y), -1);
      EqScale(p, v * v, d * (y * y), -1);
      EqScale(p, v * v, i * i, -1);
      EqTrans(p, (i * v) * (i * v), -1 * (v * v), (d * (y * y)) * (v * v));
      Associate(d, y * y, v * v);
      EqScale(p, d, (y * v) * (y * v), 1);
      EqTrans(p, (i * v) * (i * v), d * ((y * v) * (y * v)), d);
    }
  }

  /** On the curve, x^2 is XSquared(y); and any x whose square is XSquared(y) gives a curve point. */
  lemma XSquaredIs(c: Curve, x: int, y: int)
    requires Suitable(c)
    ensures CurveEquation(c, x, y) <==> Eq(c.p, x * x, XSquared(c, y))
  {
    var p := c.p;
    var D := c.d * y * y + 1;
    CurveByX(p, c.d, x, y);
    DenominatorNonzero(c, y);
    InvCorrect(p, D);
    var v := Inv(p, D);
    hide Suitable, IsPrime, Inv;
    ModEq(p, (y * y - 1) * v);
    QuotientIff(p, x * x, D, y * y - 1, v, XSquared(c, y));
  }

  lemma QuotientIff(p: nat, q: int, D: int, n: int, v: int, r: int)
    requires p > 0 && Eq(p, D * v, 1) && Eq(p, r, n * v)
    ensures Eq(p, q * D, n) <==> Eq(p, q, r)
  {
    hide Eq;
    Associate(q, D, v);
    EqScale(p, q, D * v, 1);
    EqScale(p, n, D * v, 1);
    EqSym(p, q * (D * v), q * 1);
    if Eq(p, q * D, n) {
      EqScale(p, v, q * D, n);
      EqTrans(p, q, (q * D) * v, n * v);
      EqSym(p, r, n * v);
      EqTrans(p, q, n * v, r);
    }
    if Eq(p, q, r) {
      EqTrans(p, q, r, n * v);
      EqScale(p, D, q, n * v);
      assert (n * v) * D == n * (D * v) by { Associate(n, v, D); }
      EqTrans(p, q * D, (n * v) * D, n * 1);
    }
  }

  // ----- decoding is sound ---------------------------------------------------------------------------

  lemma NegateRoot(p: nat, x: nat, xx: int)
    requires 0 < x < p && p % 2 == 1
    ensures Mod(p, p - x) == p - x && (p - x) % 2 != x % 2
    ensures Eq(p, (p - x) * (p - x), x * x)
  {
    hide Eq, Mod;
    SmallMod(p, p - x);
    OtherParity(p, x);
    SquareOfDifference(p, x);
    EqFromMultiple(p, (p - x) * (p - x), x * x, p - 2 * x);
  }

  lemma SmallMod(p: nat, y: nat)
    requires y < p
    ensures Mod(p, y) == y
  {}

  lemma OtherParity(p: nat, x: nat)
    requires x < p && p % 2 == 1
    ensures (p - x) % 2 != x % 2
  {}

  lemma SquareOfDifference(p: int, x: int)
    ensures (p - x) * (p - x) - x * x == (p - 2 * x) * p
  {
    Distribute(p, x, p - x);
    Distribute(p, 2 * x, p);
    assert p * (p - x) == p * p - p * x && x * (p - x) == x * p - x * x;
  }

  lemma CandidateNonzero(c: Curve, xx: nat)
    requires Suitable(c) && 0 < xx < c.p
    requires Eq(c.p, RootCandidate(c, xx) * RootCandidate(c, xx), xx)
    ensures RootCandidate(c, xx) > 0
  {
    SmallNonzero(c.p, xx);
    if RootCandidate(c, xx) == 0 { EqTrans(c.p, xx, 0, 0); }
  }

  /** Whatever FromY returns is on the curve, has the given y, and x of the requested parity. */
  lemma FromYSound(c: Curve, y: nat, sign: bool)
    requires Suitable(c) && y < c.p && FromY(c, y, sign).Decoded?
    ensures var a := FromY(c, y, sign).point;
            OnCurve(c, a) && a.y == y && (a.x % 2 == 1) == sign
  {
    hide Eq, Mod, RootCandidate, XSquared, IsPrime, CurveEquation, Suitable;
    OddPrime(c);
    var p, xx := c.p, XSquared(c, y);
    var a := FromY(c, y, sign).point;
    XSquaredIs(c, a.x, y);
    if xx == 0 {
      EqSelf(p, 0);
    } else {
      var x := RootCandidate(c, xx);
      RootTest(p, x, xx);
      CandidateNonzero(c, xx);
      NegateRoot(p, x, xx);
      EqTrans(p, (p - x) * (p - x), x * x, xx);
    }
  }

  lemma OddPrime(c: Curve)
    requires Suitable(c)
    ensures c.p > 2 && c.p % 2 == 1
  {}

  lemma RootTest(p: nat, x: int, xx: int)
    requires p > 0
    ensures Mod(p, x * x - xx) == 0 <==> Eq(p, x * x, xx)
  {
    ModZero(p, x * x - xx);
    EqMove(p, x * x, xx);
  }

  /** Every curve point is found again from its y and the parity of its x. */
  lemma FromYComplete(c: Curve, a: Point)
    requires Suitable(c) && OnCurve(c, a)
    ensures FromY(c, a.y, a.x % 2 == 1) == Decoded(a)
  {
    hide Eq, Mod, RootCandidate, XSquared, IsPrime, CurveEquation, Suitable;
    OddPrime(c);
    var p, xx := c.p, XSquared(c, a.y);
    XSquaredIs(c, a.x, a.y);
    EqSym(p, a.x * a.x, xx);
    if xx == 0 {
      ZeroRoot(c, a.x);
    } else {
      CandidateIsRoot(c, a.x, xx);
      var x := RootCandidate(c, xx);
      RootTest(p, x, xx);
      CandidateNonzero(c, xx);
      EqTrans(p, x * x, xx, a.x * a.x);
      SuitablePrime(c);
      RootsUpToSign(p, x, a.x);
      ChooseRoot(p, x, a.x);
    }
  }

  lemma SuitablePrime(c: Curve)
    requires Suitable(c)
    ensures IsPrime(c.p)
  {}

  lemma ZeroRoot(c: Curve, x: int)
    requires Suitable(c) && 0 <= x < c.p && Eq(c.p, x * x, 0)
    ensures x == 0
  {
    Euclid(c.p, x, x);
    ModUnique(c.p, x, 0, x);
    ModUnique(c.p, 0, 0, 0);
  }

  /** Of two roots that differ in sign, parity picks the right one. */
  lemma ChooseRoot(p: nat, x: nat, y: int)
    requires p % 2 == 1 && 0 < x < p && 0 <= y < p && (Eq(p, x, y) || Eq(p, x, -y))
    ensures if x % 2 == y % 2 then y == x else Mod(p, p - x) == y
  {
    NegateRoot(p, x, 0);
    if Eq(p, x, y) {
      EqReduced(p, x, y);
    } else {
      EqSelf(p, p);
      EqAdd(p, p, p, x, -y);
      EqFromMultiple(p, p + y, y, 1);
      EqTrans(p, p - x, p - -y, y);
      EqReduced(p, p - x, y);
    }
  }

  // ----- bytes -----------------------------------------------------------------------------------------

  lemma SmallTop(n: nat)
    requires n < BigEndian.Pow256(31) * 128
    ensures n < BigEndian.Pow256(32) && !HasTop(LittleEndian.Encode(n, 32)[31])
  {
    var b := LittleEndian.Encode(n, 32);
    assert BigEndian.Pow256(32) == 256 * BigEndian.Pow256(31);
    NumberRoundTrip(n, 32);
    TopByte(b);
    TopBitNat(b[31]);
    if Nat(b[31]) >= 128 { MulMonotone(128, Nat(b[31]), BigEndian.Pow256(31)); }
  }

  /** Decompressing a compressed curve point gives it back. */
  lemma PointRoundTrip(c: Curve, a: Point)
    requires Fits(c) && OnCurve(c, a)
    ensures DecodePoint(c, EncodePoint(a)) == Decoded(a)
  {
    hide HasTop, SetTop, ClearTop, FromY, BigEndian.Pow256;
    var bytes := LittleEndian.Encode(a.y, 32);
    SmallTop(a.y);
    TopBit(bytes[31]);
    NumberRoundTrip(a.y, 32);
    FromYComplete(c, a);
    var e := EncodePoint(a);
    assert e[31 := ClearTop(e[31])] == bytes;
  }

  /** Whatever 32 bytes decompress to is a curve point, and compresses to the same bytes. */
  lemma DecodeSound(c: Curve, bytes: seq<bv8>)
    requires Fits(c) && DecodePoint(c, bytes).Decoded?
    ensures var a := DecodePoint(c, bytes).point;
            OnCurve(c, a) && EncodePoint(a) == bytes
  {
    hide HasTop, SetTop, ClearTop, FromY, BigEndian.Pow256;
    var sign := HasTop(bytes[31]);
    var clean := bytes[31 := ClearTop(bytes[31])];
    var y := LittleEndian.Decode(clean);
    FromYSound(c, y, sign);
    BytesRoundTrip(clean);
    TopBit(bytes[31]);
    assert LittleEndian.Encode(y, 32) == clean;
    assert clean[31 := bytes[31]] == bytes;
  }
}

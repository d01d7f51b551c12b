/**
 Points of the twisted Edwards curve -x^2 + y^2 = 1 + d x^2 y^2 over a prime field: the app's
 addition formula, and the proof that it is complete and stays on the curve.
 */
module Edwards {
  import opened ModArith

  /** The field prime, the curve constant, and a square root of -1. */
  datatype Curve = Curve(p: nat, d: int, i: int)

  datatype Point = Point(x: int, y: int)

  /** What the curve constants must satisfy; Ed25519.dfy shows that the app's do. */
  ghost predicate Suitable(c: Curve) {
    && IsPrime(c.p) && c.p % 8 == 5
    && Eq(c.p, c.i * c.i, -1)
    && forall w: int :: !Eq(c.p, w * w, c.d)
  }

  ghost predicate CurveEquation(c: Curve, x: int, y: int)
    requires c.p > 0
  {
    Eq(c.p, y * y - x * x, 1 + c.d * ((x * x) * (y * y)))
  }

  ghost predicate OnCurve(c: Curve, a: Point)
    requires c.p > 0
  {
    0 <= a.x < c.p && 0 <= a.y < c.p && CurveEquation(c, a.x, a.y)
  }

  /** `x^(p-2) mod p` */
  function Inv(p: nat, x: int): int
    requires p > 2
  {
    Pow(x, p - 2) % p
  }

  function Mod(p: nat, x: int): (r: nat)
    requires p > 0
    ensures r < p
  {
    x % p
  }

  /** The term d x1 x2 y1 y2 of the addition law, reduced along the way. */
  function Cross(c: Curve, a: Point, b: Point): nat
    requires c.p > 0
  {
    Mod(c.p, Mod(c.p, Mod(c.p, c.d * a.x * b.x) * a.y) * b.y)
  }

  /** A coordinate of the sum: numerator times inverse, reduced and made non-negative. */
  function Coordinate(p: nat, numerator: int, inverse: int): (r: nat)
    requires p > 0
    ensures r < p
  {
    var z := Mod(p, Mod(p, numerator) * inverse);
    Mod(p, Mod(p, z) + p)
  }

  function PointAdd(c: Curve, a: Point, b: Point): Point
    requires c.p > 2
  {
    var e: int := Cross(c, a, b);
    Point(Coordinate(c.p, a.x * b.y + a.y * b.x, Inv(c.p, Mod(c.p, 1 + e))),
          Coordinate(c.p, a.y * b.y + a.x * b.x, Inv(c.p, Mod(c.p, 1 - e))))
  }

  // ----- small congruence tools ----------------------------------------------------------------

  lemma EqMove(p: nat, a: int, b: int)
    requires p > 0
    ensures Eq(p, a, b) <==> Eq(p, a - b, 0)
  {
    if Eq(p, a, b) { EqAdd(p, a, b, b, b); }
    if Eq(p, a - b, 0) { EqAdd(p, a - b, 0, b, b); }
  }

  lemma SmallNonzero(p: nat, a: int)
    requires 0 < a < p
    ensures !Eq(p, a, 0)
  {
    ModUnique(p, a, 0, a);
    ModUnique(p, 0, 0, 0);
  }

  lemma ProductNonzero(p: nat, a: int, b: int)
    requires IsPrime(p) && !Eq(p, a, 0) && !Eq(p, b, 0)
    ensures !Eq(p, a * b, 0)
  {
    if Eq(p, a * b, 0) { Euclid(p, a, b); }
  }

  /** The power p-2 is the inverse. */
  lemma InvCorrect(p: nat, a: int)
    requires IsPrime(p) && p > 2 && !Eq(p, a, 0)
    ensures Eq(p, a * Inv(p, a), 1)
  {
    Fermat(p, a);
    assert Pow(a, p - 1) == a * Pow(a, p - 2);
    EqMod(p, Pow(a, p - 2));
    EqScale(p, a, Inv(p, a), Pow(a, p - 2));
    EqTrans(p, a * Inv(p, a), Pow(a, p - 1), 1);
  }

  /** A quotient by the inverse of a reduced value is a quotient by the value. */
  lemma InvReduced(p: nat, a: int)
    requires IsPrime(p) && p > 2 && !Eq(p, a, 0)
    ensures Eq(p, a * Inv(p, Mod(p, a)), 1)
  {
    EqMod(p, a);
    EqTrans(p, Mod(p, a), a, a);
    if Eq(p, Mod(p, a), 0) { EqTrans(p, a, Mod(p, a), 0); }
    InvCorrect(p, Mod(p, a));
    EqScale(p, Inv(p, Mod(p, a)), a, Mod(p, a));
    EqTrans(p, a * Inv(p, Mod(p, a)), Mod(p, a) * Inv(p, Mod(p, a)), 1);
  }

  /** Square roots of the same value differ only in sign. */
  lemma RootsUpToSign(p: nat, a: int, b: int)
    requires IsPrime(p) && Eq(p, a * a, b * b)
    ensures Eq(p, a, b) || Eq(p, a, -b)
  {
    EqMove(p, a * a, b * b);
    assert a * a - b * b == (a - b) * (a + b) by { DifferenceOfSquares(a, b); }
    Euclid(p, a - b, a + b);
    EqMove(p, a, b);
    EqMove(p, a, -b);
    assert a - (-b) == a + b;
  }

  lemma DifferenceOfSquares(a: int, b: int)
    ensures (a - b) * (a + b) == a * a - b * b
  {
    assert (a - b) * (a + b) == a * (a + b) - b * (a + b);
  }

  // ----- the cross term ------------------------------------------------------------------------

  lemma CrossIs(c: Curve, a: Point, b: Point)
    requires c.p > 0
    ensures Eq(c.p, Cross(c, a, b), c.d * ((a.x * a.y) * (b.x * b.y)))
  {
    var p := c.p;
    var u := c.d * a.x * b.x;
    var v := Mod(p, u) * a.y;
    var w := Mod(p, v) * b.y;
    EqMod(p, u);
    EqScale(p, a.y, Mod(p, u), u);
    EqMod(p, v);
    EqTrans(p, Mod(p, v), v, u * a.y);
    EqScale(p, b.y, Mod(p, v), u * a.y);
    EqMod(p, w);
    EqTrans(p, Mod(p, w), w, (u * a.y) * b.y);
    CrossRegroup(c.d, a.x, b.x, a.y, b.y);
  }

  lemma CrossRegroup(d: int, x1: int, x2: int, y1: int, y2: int)
    ensures ((d * x1 * x2) * y1) * y2 == d * ((x1 * y1) * (x2 * y2))
  {
    Associate(d, x1, x2);
    Associate(d, x1 * x2, y1);
    Associate(d, (x1 * x2) * y1, y2);
    Associate(x1 * x2, y1, y2);
    Shuffle(x1, x2, y1, y2);
  }

  // ----- completeness: the denominators are never zero -------------------------------------------

  /**
   With e = d s1 s2 and e^2 = 1, (i x1 + k e y1)^2 = d s1^2 (i x2 + k y2)^2 for k = 1 and k = -1.
   Everything is expressed through A = y1^2 - x1^2, B = y2^2 - x2^2, m = s1^2.
   */
  lemma SquareIdentity(p: nat, d: int, i: int, k: int, x1: int, y1: int, x2: int, y2: int, e: int)
    requires p > 0 && Eq(p, i * i, -1) && (k == 1 || k == -1)
    requires Eq(p, y1 * y1 - x1 * x1, 1 + d * ((x1 * x1) * (y1 * y1)))
    requires Eq(p, y2 * y2 - x2 * x2, 1 + d * ((x2 * x2) * (y2 * y2)))
    requires Eq(p, e, d * ((x1 * y1) * (x2 * y2))) && Eq(p, e * e, 1)
    ensures var z, w := i * x1 + k * (e * y1), i * x2 + k * y2;
            Eq(p, z * z, d * ((x1 * y1) * (x1 * y1)) * (w * w))
  {
    hide Eq;
    var A, B, s1, s2 := y1 * y1 - x1 * x1, y2 * y2 - x2 * x2, x1 * y1, x2 * y2;
    var m, n := s1 * s1, s2 * s2;
    var z, w := i * x1 + k * (e * y1), i * x2 + k * y2;
    SquareOfProduct(x1, y1);
    SquareOfProduct(x2, y2);
    // left side: i^2 x1^2 + e^2 y1^2 + 2 k i e s1  =  A + 2 k i e s1
    LeftSquare(p, i, k, e, x1, y1);
    // e s1 = d m s2
    ESOne(p, d, e, s1, s2);
    // A = 1 + d m = e^2 + d m = d m (1 + d n) = d m B
    AIsDMB(p, d, e, s1, s2, A, B);
    // right side: w^2 = B + 2 k i s2
    RightSquare(p, i, k, x2, y2);
    Combine(p, d * m, k * i, z * z, w * w, A, B, e * s1, s2);
  }

  lemma SquareOfProduct(x: int, y: int)
    ensures (x * y) * (x * y) == (x * x) * (y * y)
  {
    Shuffle(x, y, x, y);
  }

  lemma ExpandSquare(a: int, b: int)
    ensures (a + b) * (a + b) == a * a + b * b + 2 * (a * b)
  {
    assert (a + b) * (a + b) == a * (a + b) + b * (a + b);
  }

  lemma LeftSquare(p: nat, i: int, k: int, e: int, x: int, y: int)
    requires p > 0 && Eq(p, i * i, -1) && Eq(p, e * e, 1) && (k == 1 || k == -1)
    ensures var z := i * x + k * (e * y);
            Eq(p, z * z, (y * y - x * x) + 2 * ((k * i) * (e * (x * y))))
  {
    hide Eq;
    var z := i * x + k * (e * y);
    ExpandSquare(i * x, k * (e * y));
    Shuffle(i, x, i, x);
    Shuffle(e, y, e, y);
    Shuffle(k, e * y, k, e * y);
    var cross := (i * x) * (k * (e * y));
    CrossTerm(i, k, x, e, y);
    EqScale(p, x * x, i * i, -1);
    EqScale(p, y * y, e * e, 1);
    EqAdd(p, (i * i) * (x * x), -1 * (x * x), (e * e) * (y * y), 1 * (y * y));
    EqSelf(p, 2 * cross);
    EqAdd(p, (i * i) * (x * x) + (e * e) * (y * y), -1 * (x * x) + 1 * (y * y), 2 * cross, 2 * cross);
  }

  lemma CrossTerm(i: int, k: int, x: int, e: int, y: int)
    ensures (i * x) * (k * (e * y)) == (k * i) * (e * (x * y))
  {
    Shuffle(i, x, k, e * y);
    Associate(x, e, y);
    Associate(e, x, y);
  }

  lemma RightSquare(p: nat, i: int, k: int, x: int, y: int)
    requires p > 0 && Eq(p, i * i, -1) && (k == 1 || k == -1)
    ensures var w := i * x + k * y;
            Eq(p, w * w, (y * y - x * x) + 2 * ((k * i) * (x * y)))
  {
    EqSelf(p, 1);
    LeftSquare(p, i, k, 1, x, y);
    assert 1 * y == y && 1 * (x * y) == x * y;
  }

  lemma ESOne(p: nat, d: int, e: int, s1: int, s2: int)
    requires p > 0 && Eq(p, e, d * (s1 * s2))
    ensures Eq(p, e * s1, (d * (s1 * s1)) * s2)
  {
    EqScale(p, s1, e, d * (s1 * s2));
    Associate(d, s1 * s2, s1);
    Associate(s1, s2, s1);
    Associate(s1, s1, s2);
    Associate(d, s1 * s1, s2);
  }

  lemma AIsDMB(p: nat, d: int, e: int, s1: int, s2: int, A: int, B: int)
    requires p > 0 && Eq(p, e, d * (s1 * s2)) && Eq(p, e * e, 1)
    requires Eq(p, A, 1 + d * (s1 * s1)) && Eq(p, B, 1 + d * (s2 * s2))
    ensures Eq(p, A, (d * (s1 * s1)) * B)
  {
    hide Eq;
    var m, n := s1 * s1, s2 * s2;
    EqSquare(p, e, d * (s1 * s2));
    Shuffle(d, s1 * s2, d, s1 * s2);
    Shuffle(s1, s2, s1, s2);
    Shuffle(d, m, d, n);
    assert (d * (s1 * s2)) * (d * (s1 * s2)) == (d * m) * (d * n);
    EqSym(p, e * e, 1);
    EqTrans(p, 1, e * e, (d * m) * (d * n));
    EqSelf(p, d * m);
    EqAdd(p, 1, (d * m) * (d * n), d * m, d * m);
    assert (d * m) * (1 + d * n) == d * m + (d * m) * (d * n);
    EqScale(p, d * m, B, 1 + d * n);
    EqSym(p, (d * m) * B, (d * m) * (1 + d * n));
    EqTrans(p, A, 1 + d * m, (d * m) * (1 + d * n));
    EqTrans(p, A, (d * m) * (1 + d * n), (d * m) * B);
  }

  lemma Combine(p: nat, g: int, h: int, zz: int, ww: int, A: int, B: int, es: int, s2: int)
    requires p > 0 && Eq(p, zz, A + 2 * (h * es)) && Eq(p, ww, B + 2 * (h * s2))
    requires Eq(p, A, g * B) && Eq(p, es, g * s2)
    ensures Eq(p, zz, g * ww)
  {
    hide Eq;
    EqScale(p, h, es, g * s2);
    EqScale(p, 2, h * es, h * (g * s2));
    EqAdd(p, A, g * B, 2 * (h * es), 2 * (h * (g * s2)));
    EqScale(p, g, ww, B + 2 * (h * s2));
    Associate(h, g, s2);
    Associate(g, h, s2);
    assert g * (B + 2 * (h * s2)) == g * B + 2 * (g * (h * s2));
    EqSym(p, g * ww, g * B + 2 * (h * (g * s2)));
    EqTrans(p, zz, A + 2 * (h * es), g * B + 2 * (h * (g * s2)));
    EqTrans(p, zz, g * B + 2 * (h * (g * s2)), g * ww);
  }

  /** If z^2 = d (s w)^2 with s w invertible, then d is a square. */
  lemma WouldBeSquare(p: nat, d: int, z: int, s: int, w: int)
    requires IsPrime(p) && p > 2 && !Eq(p, s, 0) && !Eq(p, w, 0)
    requires Eq(p, z * z, d * (s * s) * (w * w))
    ensures exists r: int :: Eq(p, r * r, d)
  {
    hide Eq, IsPrime;
    ProductNonzero(p, s, w);
    InvCorrect(p, s * w);
    var v := Inv(p, s * w);
    var one := (s * w) * v;
    EqScale(p, v * v, z * z, d * (s * s) * (w * w));
    Shuffle(z, v, z, v);
    Associate(d, s * s, w * w);
    Shuffle(s, w, s, w);
    Associate(d, (s * w) * (s * w), v * v);
    Shuffle(s * w, v, s * w, v);
    EqSquare(p, one, 1);
    EqScale(p, d, one * one, 1);
    EqTrans(p, (z * v) * (z * v), d * (one * one), d);
  }

  /** The cross term is never 1 or -1 on the curve. */
  lemma Complete(c: Curve, a: Point, b: Point, e: int)
    requires Suitable(c) && OnCurve(c, a) && OnCurve(c, b)
    requires Eq(c.p, e, c.d * ((a.x * a.y) * (b.x * b.y)))
    ensures !Eq(c.p, 1 + e, 0) && !Eq(c.p, 1 - e, 0)
  {
    var p := c.p;
    if Eq(p, 1 + e, 0) || Eq(p, 1 - e, 0) {
      UnitSquare(p, e);
      NeverUnit(c, a.x, a.y, b.x, b.y, e);
    }
  }

  lemma UnitSquare(p: nat, e: int)
    requires p > 0 && (Eq(p, 1 + e, 0) || Eq(p, 1 - e, 0))
    ensures Eq(p, e * e, 1)
  {
    if Eq(p, 1 + e, 0) {
      EqScale(p, e - 1, 1 + e, 0);
    } else {
      EqScale(p, -1 - e, 1 - e, 0);
    }
    DifferenceOfSquares(e, 1);
    assert (e - 1) * (1 + e) == e * e - 1;
    assert (-1 - e) * (1 - e) == (e - 1) * (1 + e);
    EqMove(p, e * e, 1);
  }

  lemma NeverUnit(c: Curve, x1: int, y1: int, x2: int, y2: int, e: int)
    requires Suitable(c) && CurveEquation(c, x1, y1) && CurveEquation(c, x2, y2)
    requires Eq(c.p, e, c.d * ((x1 * y1) * (x2 * y2)))
    ensures !Eq(c.p, e * e, 1)
  {
    if Eq(c.p, e * e, 1) { UnitImpossible(c, x1, y1, x2, y2, e); }
  }

  /** If e^2 were 1, one of the two squares would make d a square. */
  lemma UnitImpossible(c: Curve, x1: int, y1: int, x2: int, y2: int, e: int)
    requires Suitable(c) && CurveEquation(c, x1, y1) && CurveEquation(c, x2, y2)
    requires Eq(c.p, e, c.d * ((x1 * y1) * (x2 * y2))) && Eq(c.p, e * e, 1)
    ensures exists w: int :: Eq(c.p, w * w, c.d)
  {
    var p, d, i := c.p, c.d, c.i;
    assert p > 2;
    hide IsPrime;
    SmallNonzero(p, 1);
    EFactors(p, d, x1 * y1, x2, y2, e);
    SquareIdentity(p, d, i, 1, x1, y1, x2, y2, e);
    SquareIdentity(p, d, i, -1, x1, y1, x2, y2, e);
    var w1, w2 := i * x2 + 1 * y2, i * x2 + -1 * y2;
    if !Eq(p, w1, 0) {
      WouldBeSquare(p, d, i * x1 + 1 * (e * y1), x1 * y1, w1);
    } else if !Eq(p, w2, 0) {
      WouldBeSquare(p, d, i * x1 + -1 * (e * y1), x1 * y1, w2);
    } else {
      EqAdd(p, w1, 0, w2, 0);
      assert w1 + w2 == 2 * (i * x2);
      SmallNonzero(p, 2);
      Euclid(p, 2, i * x2);
      RootNonzero(p, i);
      Euclid(p, i, x2);
    }
  }

  lemma RootNonzero(p: nat, i: int)
    requires p > 1 && Eq(p, i * i, -1)
    ensures !Eq(p, i, 0)
  {
    if Eq(p, i, 0) {
      EqSquare(p, i, 0);
      EqTrans(p, -1, i * i, 0);
      EqAdd(p, 0, -1, 0, 0);
      EqSelf(p, 0);
      EqAdd(p, 0, 0, -1, 0);
      SmallNonzero(p, 1);
    }
  }

  /** e is not zero, so neither are the factors of the cross term. */
  lemma EFactors(p: nat, d: int, s1: int, x2: int, y2: int, e: int)
    requires p > 2 && IsPrime(p) && Eq(p, e, d * (s1 * (x2 * y2))) && Eq(p, e * e, 1)
    ensures !Eq(p, s1, 0) && !Eq(p, x2, 0)
  {
    SmallNonzero(p, 1);
    hide IsPrime;
    if Eq(p, s1, 0) || Eq(p, x2, 0) {
      if Eq(p, s1, 0) {
        EqScale(p, x2 * y2, s1, 0);
      } else {
        EqScale(p, y2, x2, 0);
        EqScale(p, s1, x2 * y2, 0);
      }
      EqScale(p, d, s1 * (x2 * y2), 0);
      EqTrans(p, e, d * (s1 * (x2 * y2)), 0);
      EqSquare(p, e, 0);
      EqTrans(p, 1, e * e, 0);
    }
  }
}

/** The addition formula stays on the curve, is commutative, and has (0, 1) as its identity. */
module EdwardsClosed {
  import opened ModArith
  import opened Edwards

  // ----- integer identities ----------------------------------------------------------------------

  lemma SumIdentities(x1: int, y1: int, x2: int, y2: int)
    ensures var X, Y := x1 * y2 + y1 * x2, y1 * y2 + x1 * x2;
            && Y * Y - X * X == (y1 * y1 - x1 * x1) * (y2 * y2 - x2 * x2)
            && Y * Y + X * X == (x1 * x1 + y1 * y1) * (x2 * x2 + y2 * y2) + 4 * ((x1 * y1) * (x2 * y2))
            && X * Y == (x1 * y1) * (x2 * x2 + y2 * y2) + (x2 * y2) * (x1 * x1 + y1 * y1)
  {
    var a, b, f, g := x1 * y2, y1 * x2, y1 * y2, x1 * x2;
    ExpandSquare(a, b);
    ExpandSquare(f, g);
    Shuffle(x1, y2, x1, y2);
    Shuffle(y1, x2, y1, x2);
    Shuffle(y1, y2, y1, y2);
    Shuffle(x1, x2, x1, x2);
    Shuffle(x1, y2, y1, x2);
    Shuffle(y1, y2, x1, x2);
    ProductOfDifferences(y1 * y1, x1 * x1, y2 * y2, x2 * x2);
    ProductOfSums(x1 * x1, y1 * y1, x2 * x2, y2 * y2);
    ProductOfSums(a, b, f, g);
    Shuffle(x1, y2, y1, y2);
    Shuffle(x1, y2, x1, x2);
    Shuffle(y1, x2, y1, y2);
    Shuffle(y1, x2, x1, x2);
    assert a * f == (x1 * y1) * (y2 * y2);
    assert a * g == (x1 * x1) * (x2 * y2);
    assert b * f == (y1 * y1) * (x2 * y2);
    assert b * g == (x1 * y1) * (x2 * x2);
    ProductOfSums(x1 * y1, 0, x2 * x2, y2 * y2);
    ProductOfSums(x2 * y2, 0, x1 * x1, y1 * y1);
  }

  lemma ProductOfSums(a: int, b: int, c: int, d: int)
    ensures (a + b) * (c + d) == a * c + a * d + b * c + b * d
  {
    assert (a + b) * (c + d) == a * (c + d) + b * (c + d);
  }

  lemma ProductOfDifferences(a: int, b: int, c: int, d: int)
    ensures (a - b) * (c - d) == a * c - a * d - b * c + b * d
  {
    assert (a - b) * (c - d) == a * (c - d) - b * (c - d);
  }

  /** (r + q)^2 = (r - q)^2 + 4 r q */
  lemma SumFromDifference(r: int, q: int)
    ensures (q + r) * (q + r) == (r - q) * (r - q) + 4 * (q * r)
  {
    ExpandSquare(q, r);
    ExpandSquare(r, -q);
  }

  lemma LeftSide(X2: int, Y2: int, e: int)
    ensures Y2 * ((1 + e) * (1 + e)) - X2 * ((1 - e) * (1 - e)) == (1 + e * e) * (Y2 - X2) + 2 * (e * (Y2 + X2))
  {
    ExpandSquare(1, e);
    ExpandSquare(1, -e);
    var q := 1 + e * e;
    assert (1 + e) * (1 + e) == q + 2 * e && (1 - e) * (1 - e) == q - 2 * e;
    assert Y2 * (q + 2 * e) == Y2 * q + 2 * (e * Y2);
    assert X2 * (q - 2 * e) == X2 * q - 2 * (e * X2);
  }

  lemma RightSide(s1: int, s2: int, P1: int, P2: int)
    ensures var W := s1 * P2 + s2 * P1;
            W * W == (s1 * s1) * (P2 * P2) + (s2 * s2) * (P1 * P1) + 2 * ((s1 * s2) * (P1 * P2))
  {
    ExpandSquare(s1 * P2, s2 * P1);
    Shuffle(s1, P2, s1, P2);
    Shuffle(s2, P1, s2, P1);
    Shuffle(s1, P2, s2, P1);
  }

  /** The identity that remains when A = 1 + a, B = 1 + b and e = D are substituted. */
  lemma CoreIdentity(a: int, b: int)
    ensures (1 + a * b) * ((1 + a) * (1 + b))
         == (1 - a * b) * (1 - a * b) + a * ((1 + b) * (1 + b)) + b * ((1 + a) * (1 + a))
  {
    var c := a * b;
    ProductOfSums(1, a, 1, b);
    ExpandSquare(1, b);
    ExpandSquare(1, a);
    ExpandSquare(1, -c);
    assert (1 + a) * (1 + b) == 1 + a + b + c;
    assert (1 + c) * (1 + a + b + c) == 1 + a + b + c + c + c * a + c * b + c * c;
    assert a * (1 + b * b + 2 * b) == a + c * b + 2 * c by { Associate(a, b, b); }
    assert b * (1 + a * a + 2 * a) == b + c * a + 2 * c by { Associate(b, a, a); }
  }

  // ----- the curve equation for the unreduced quotient --------------------------------------------

  /** Y^2 (1+e)^2 - X^2 (1-e)^2 = (1-e^2)^2 + d X^2 Y^2 modulo p. */
  lemma ClearedEquation(p: nat, d: int, x1: int, y1: int, x2: int, y2: int, e: int)
    requires p > 0
    requires Eq(p, y1 * y1 - x1 * x1, 1 + d * ((x1 * x1) * (y1 * y1)))
    requires Eq(p, y2 * y2 - x2 * x2, 1 + d * ((x2 * x2) * (y2 * y2)))
    requires Eq(p, e, d * ((x1 * y1) * (x2 * y2)))
    ensures var X, Y := x1 * y2 + y1 * x2, y1 * y2 + x1 * x2;
            Eq(p, (Y * Y) * ((1 + e) * (1 + e)) - (X * X) * ((1 - e) * (1 - e)),
                  (1 - e * e) * (1 - e * e) + d * ((X * Y) * (X * Y)))
  {
    hide Eq;
    var X, Y := x1 * y2 + y1 * x2, y1 * y2 + x1 * x2;
    var s1, s2, P1, P2 := x1 * y1, x2 * y2, x1 * x1 + y1 * y1, x2 * x2 + y2 * y2;
    var A, B := y1 * y1 - x1 * x1, y2 * y2 - x2 * x2;
    SumIdentities(x1, y1, x2, y2);
    LeftSide(X * X, Y * Y, e);
    RightSide(s1, s2, P1, P2);
    SumFromDifference(y1 * y1, x1 * x1);
    SumFromDifference(y2 * y2, x2 * x2);
    SquareOfProduct(x1, y1);
    SquareOfProduct(x2, y2);
    Substitute(p, d, s1, s2, A, B, P1 * P2, e);
  }

  /** Both sides after the identities, with m = s1^2, n = s2^2, t = s1 s2, Q = P1 P2. */
  lemma Substitute(p: nat, d: int, s1: int, s2: int, A: int, B: int, Q: int, e: int)
    requires p > 0 && Eq(p, A, 1 + d * (s1 * s1)) && Eq(p, B, 1 + d * (s2 * s2)) && Eq(p, e, d * (s1 * s2))
    ensures var m, n, t := s1 * s1, s2 * s2, s1 * s2;
            Eq(p, (1 + e * e) * (A * B) + 2 * (e * (Q + 4 * t)),
                  (1 - e * e) * (1 - e * e) + d * (m * (B * B + 4 * n) + n * (A * A + 4 * m) + 2 * (t * Q)))
  {
    hide Eq;
    var m, n, t := s1 * s1, s2 * s2, s1 * s2;
    var a, b, D := d * m, d * n, d * t;
    DSquare(d, s1, s2);
    EqSquare(p, e, D);
    EqSelf(p, 1);
    EqAdd(p, 1, 1, e * e, a * b);
    EqMul(p, A, 1 + a, B, 1 + b);
    EqMul(p, 1 + e * e, 1 + a * b, A * B, (1 + a) * (1 + b));
    EqScale(p, Q + 4 * t, e, D);
    EqScale(p, 2, e * (Q + 4 * t), D * (Q + 4 * t));
    EqAdd(p, (1 + e * e) * (A * B), (1 + a * b) * ((1 + a) * (1 + b)), 2 * (e * (Q + 4 * t)), 2 * (D * (Q + 4 * t)));
    EqSquare(p, 1 - e * e, 1 - a * b);
    EqSquare(p, B, 1 + b);
    EqSquare(p, A, 1 + a);
    SubstituteRight(p, d, m, n, t, Q, A * A, (1 + a) * (1 + a), B * B, (1 + b) * (1 + b));
    var R := d * (m * (B * B + 4 * n) + n * (A * A + 4 * m) + 2 * (t * Q));
    var R' := d * (m * ((1 + b) * (1 + b) + 4 * n) + n * ((1 + a) * (1 + a) + 4 * m) + 2 * (t * Q));
    EqAdd(p, (1 - e * e) * (1 - e * e), (1 - a * b) * (1 - a * b), R, R');
    CoreIdentity(a, b);
    LastTerms(d, m, n, t, Q, (1 + a) * (1 + a), (1 + b) * (1 + b));
    SquareOfProduct(s1, s2);
    EqSym(p, (1 - e * e) * (1 - e * e) + R, (1 - a * b) * (1 - a * b) + R');
    EqTrans(p, (1 + e * e) * (A * B) + 2 * (e * (Q + 4 * t)), (1 - a * b) * (1 - a * b) + R',
            (1 - e * e) * (1 - e * e) + R);
  }

  lemma DSquare(d: int, s1: int, s2: int)
    ensures (d * (s1 * s2)) * (d * (s1 * s2)) == (d * (s1 * s1)) * (d * (s2 * s2))
  {
    Shuffle(d, s1 * s2, d, s1 * s2);
    Shuffle(s1, s2, s1, s2);
    Shuffle(d, s1 * s1, d, s2 * s2);
  }

  lemma SubstituteRight(p: nat, d: int, m: int, n: int, t: int, Q: int, AA: int, AA': int, BB: int, BB': int)
    requires p > 0 && Eq(p, AA, AA') && Eq(p, BB, BB')
    ensures Eq(p, d * (m * (BB + 4 * n) + n * (AA + 4 * m) + 2 * (t * Q)),
                  d * (m * (BB' + 4 * n) + n * (AA' + 4 * m) + 2 * (t * Q)))
  {
    hide Eq;
    EqSelf(p, 4 * n);
    EqSelf(p, 4 * m);
    EqSelf(p, 2 * (t * Q));
    EqAdd(p, BB, BB', 4 * n, 4 * n);
    EqAdd(p, AA, AA', 4 * m, 4 * m);
    EqScale(p, m, BB + 4 * n, BB' + 4 * n);
    EqScale(p, n, AA + 4 * m, AA' + 4 * m);
    EqAdd(p, m * (BB + 4 * n), m * (BB' + 4 * n), n * (AA + 4 * m), n * (AA' + 4 * m));
    EqAdd(p, m * (BB + 4 * n) + n * (AA + 4 * m), m * (BB' + 4 * n) + n * (AA' + 4 * m), 2 * (t * Q), 2 * (t * Q));
    EqScale(p, d, m * (BB + 4 * n) + n * (AA + 4 * m) + 2 * (t * Q),
            m * (BB' + 4 * n) + n * (AA' + 4 * m) + 2 * (t * Q));
  }

  lemma LastTerms(d: int, m: int, n: int, t: int, Q: int, AA: int, BB: int)
    requires t * t == m * n
    ensures d * (m * (BB + 4 * n) + n * (AA + 4 * m) + 2 * (t * Q))
         == (d * m) * BB + (d * n) * AA + 2 * ((d * t) * (Q + 4 * t))
  {
    var g := m * n;
    assert m * (BB + 4 * n) == m * BB + 4 * g;
    assert n * (AA + 4 * m) == n * AA + 4 * g;
    var inner := m * BB + n * AA + 8 * g + 2 * (t * Q);
    assert d * inner == d * (m * BB) + d * (n * AA) + 8 * (d * g) + 2 * (d * (t * Q));
    Associate(d, m, BB);
    Associate(d, n, AA);
    Associate(d, t, Q);
    Associate(d, t, t);
    assert (d * t) * (Q + 4 * t) == (d * t) * Q + 4 * ((d * t) * t);
  }

  // ----- dividing ----------------------------------------------------------------------------------

  /** If u inverts 1 + e and v inverts 1 - e, the quotients X u and Y v satisfy the curve equation. */
  lemma Divide(p: nat, d: int, X: int, Y: int, e: int, u: int, v: int)
    requires p > 0 && Eq(p, (1 + e) * u, 1) && Eq(p, (1 - e) * v, 1)
    requires Eq(p, (Y * Y) * ((1 + e) * (1 + e)) - (X * X) * ((1 - e) * (1 - e)),
                   (1 - e * e) * (1 - e * e) + d * ((X * Y) * (X * Y)))
    ensures var x, y := X * u, Y * v; Eq(p, y * y - x * x, 1 + d * ((x * x) * (y * y)))
  {
    hide Eq;
    var f, g, x, y := 1 + e, 1 - e, X * u, Y * v;
    var uv := (u * u) * (v * v);
    DifferenceOfSquares(1, e);
    assert g * f == 1 - e * e;
    var L := (Y * Y) * (f * f) - (X * X) * (g * g);
    var R := (g * f) * (g * f) + d * ((X * Y) * (X * Y));
    DivideLeft(p, X, Y, f, g, u, v);
    DivideRight(p, d, X, Y, f, g, u, v);
    EqScale(p, uv, L, R);
    EqSym(p, L * uv, y * y - x * x);
    EqTrans(p, y * y - x * x, L * uv, R * uv);
    EqTrans(p, y * y - x * x, R * uv, 1 + d * ((x * x) * (y * y)));
  }

  lemma Distribute(a: int, b: int, c: int)
    ensures (a - b) * c == a * c - b * c && (a + b) * c == a * c + b * c
  {}

  lemma DivideLeft(p: nat, X: int, Y: int, f: int, g: int, u: int, v: int)
    requires p > 0 && Eq(p, f * u, 1) && Eq(p, g * v, 1)
    ensures Eq(p, ((Y * Y) * (f * f) - (X * X) * (g * g)) * ((u * u) * (v * v)), (Y * v) * (Y * v) - (X * u) * (X * u))
  {
    hide Eq;
    var x, y := X * u, Y * v;
    Factor(Y, f, u, v);
    Factor(X, g, v, u);
    EqSquare(p, f * u, 1);
    EqSquare(p, g * v, 1);
    EqScale(p, y * y, (f * u) * (f * u), 1);
    EqScale(p, x * x, (g * v) * (g * v), 1);
    EqAdd(p, (y * y) * ((f * u) * (f * u)), (y * y) * 1, (x * x) * ((g * v) * (g * v)), (x * x) * 1);
    Distribute((Y * Y) * (f * f), (X * X) * (g * g), (u * u) * (v * v));
  }

  lemma DivideRight(p: nat, d: int, X: int, Y: int, f: int, g: int, u: int, v: int)
    requires p > 0 && Eq(p, f * u, 1) && Eq(p, g * v, 1)
    ensures var x, y := X * u, Y * v;
            Eq(p, ((g * f) * (g * f) + d * ((X * Y) * (X * Y))) * ((u * u) * (v * v)), 1 + d * ((x * x) * (y * y)))
  {
    hide Eq;
    var x, y, uv := X * u, Y * v, (u * u) * (v * v);
    EqSquare(p, f * u, 1);
    EqSquare(p, g * v, 1);
    EqMul(p, (f * u) * (f * u), 1, (g * v) * (g * v), 1);
    OneFactor(f, g, u, v);
    TermFactor(d, X, Y, u, v);
    Distribute((g * f) * (g * f), d * ((X * Y) * (X * Y)), uv);
    EqSelf(p, d * ((x * x) * (y * y)));
    EqAdd(p, ((g * f) * (g * f)) * uv, 1, d * ((x * x) * (y * y)), d * ((x * x) * (y * y)));
  }

  lemma TermFactor(d: int, X: int, Y: int, u: int, v: int)
    ensures (d * ((X * Y) * (X * Y))) * ((u * u) * (v * v)) == d * (((X * u) * (X * u)) * ((Y * v) * (Y * v)))
  {
    Associate(d, (X * Y) * (X * Y), (u * u) * (v * v));
    Shuffle(X, Y, X, Y);
    Shuffle(X * X, Y * Y, u * u, v * v);
    Shuffle(X, u, X, u);
    Shuffle(Y, v, Y, v);
  }

  lemma Factor(Y: int, f: int, u: int, v: int)
    ensures ((Y * Y) * (f * f)) * ((u * u) * (v * v)) == ((Y * v) * (Y * v)) * ((f * u) * (f * u))
    ensures ((Y * Y) * (f * f)) * ((v * v) * (u * u)) == ((Y * v) * (Y * v)) * ((f * u) * (f * u))
  {
    Shuffle(Y * Y, f * f, v * v, u * u);
    Shuffle(Y, v, Y, v);
    Shuffle(f, u, f, u);
  }

  lemma OneFactor(f: int, g: int, u: int, v: int)
    ensures ((g * f) * (g * f)) * ((u * u) * (v * v)) == ((f * u) * (f * u)) * ((g * v) * (g * v))
  {
    Shuffle(g, f, g, f);
    Shuffle(f * f, g * g, u * u, v * v);
    Shuffle(f, u, f, u);
    Shuffle(g, v, g, v);
  }

  /** The reduced sums of the formula are congruent to the plain quotients. */
  lemma AddCoordinates(c: Curve, a: Point, b: Point)
    requires c.p > 2
    ensures var e: int := Cross(c, a, b);
            var u, v := Inv(c.p, Mod(c.p, 1 + e)), Inv(c.p, Mod(c.p, 1 - e));
            var r := PointAdd(c, a, b);
            && 0 <= r.x < c.p && 0 <= r.y < c.p
            && Eq(c.p, r.x, (a.x * b.y + a.y * b.x) * u)
            && Eq(c.p, r.y, (a.y * b.y + a.x * b.x) * v)
  {
    hide Eq, Inv, Mod, Cross, Coordinate;
    var p := c.p;
    var e: int := Cross(c, a, b);
    CoordinateIs(p, a.x * b.y + a.y * b.x, Inv(p, Mod(p, 1 + e)));
    CoordinateIs(p, a.y * b.y + a.x * b.x, Inv(p, Mod(p, 1 - e)));
  }

  lemma CoordinateIs(p: nat, X: int, u: int)
    requires p > 0
    ensures Eq(p, Coordinate(p, X, u), X * u)
  {
    var z := Mod(p, Mod(p, X) * u);
    EqMod(p, X);
    EqScale(p, u, Mod(p, X), X);
    EqMod(p, Mod(p, X) * u);
    EqTrans(p, z, Mod(p, X) * u, X * u);
    EqMod(p, z);
    EqFromMultiple(p, Mod(p, z) + p, Mod(p, z), 1);
    EqMod(p, Mod(p, z) + p);
  }

  /** The sum of two points of the curve is a point of the curve. */
  lemma AddOnCurve(c: Curve, a: Point, b: Point)
    requires Suitable(c) && OnCurve(c, a) && OnCurve(c, b)
    ensures OnCurve(c, PointAdd(c, a, b))
  {
    hide Eq, Inv, Mod, Cross, PointAdd, IsPrime;
    var p, r := c.p, PointAdd(c, a, b);
    var e: int := Cross(c, a, b);
    CrossIs(c, a, b);
    Complete(c, a, b, e);
    hide Suitable;
    AddCoordinates(c, a, b);
    InvReduced(p, 1 + e);
    InvReduced(p, 1 - e);
    var X, Y := a.x * b.y + a.y * b.x, a.y * b.y + a.x * b.x;
    var u, v := Inv(p, Mod(p, 1 + e)), Inv(p, Mod(p, 1 - e));
    ClearedEquation(p, c.d, a.x, a.y, b.x, b.y, e);
    Divide(p, c.d, X, Y, e, u, v);
    EquationTransfers(c, X * u, Y * v, r.x, r.y);
  }

  /** On the curve, the sum is the one of section 5.1.4 of RFC 8032, quotients that are always defined. */
  lemma AddIs(c: Curve, a: Point, b: Point)
    requires Suitable(c) && OnCurve(c, a) && OnCurve(c, b)
    ensures c.p > 2
    ensures var r, e := PointAdd(c, a, b), c.d * ((a.x * a.y) * (b.x * b.y));
            && 0 <= r.x < c.p && 0 <= r.y < c.p && !Eq(c.p, 1 + e, 0) && !Eq(c.p, 1 - e, 0)
            && Eq(c.p, (1 + e) * r.x, a.x * b.y + a.y * b.x)
            && Eq(c.p, (1 - e) * r.y, a.y * b.y + a.x * b.x)
  {
    hide Inv, Mod, Cross, PointAdd, IsPrime, CurveEquation;
    var p, r := c.p, PointAdd(c, a, b);
    var k: int, e := Cross(c, a, b), c.d * ((a.x * a.y) * (b.x * b.y));
    CrossIs(c, a, b);
    EqSelf(p, e);
    Complete(c, a, b, e);
    Complete(c, a, b, k);
    hide Suitable, Eq;
    AddCoordinates(c, a, b);
    InvReduced(p, 1 + k);
    InvReduced(p, 1 - k);
    EqSelf(p, 1);
    EqAdd(p, 1, 1, k, e);
    QuotientIs(p, 1 + k, 1 + e, r.x, a.x * b.y + a.y * b.x, Inv(p, Mod(p, 1 + k)));
    QuotientIs(p, 1 - k, 1 - e, r.y, a.y * b.y + a.x * b.x, Inv(p, Mod(p, 1 - k)));
  }

  lemma QuotientIs(p: nat, f: int, g: int, r: int, X: int, u: int)
    requires p > 0 && Eq(p, f, g) && Eq(p, f * u, 1) && Eq(p, r, X * u)
    ensures Eq(p, g * r, X)
  {
    hide Eq;
    EqScale(p, f, r, X * u);
    assert f * (X * u) == X * (f * u) by { Swap(f, X, u); }
    EqScale(p, X, f * u, 1);
    EqTrans(p, f * r, X * (f * u), X);
    EqScale(p, r, f, g);
    EqTrans(p, f * r, g * r, g * r);
    EqTrans(p, g * r, f * r, X);
  }

  lemma Swap(f: int, X: int, u: int)
    ensures f * (X * u) == X * (f * u)
  {}

  lemma EquationTransfers(c: Curve, x: int, y: int, x': int, y': int)
    requires c.p > 0 && CurveEquation(c, x, y) && Eq(c.p, x', x) && Eq(c.p, y', y)
    ensures CurveEquation(c, x', y')
  {
    hide Eq;
    var p := c.p;
    EqSquare(p, x', x);
    EqSquare(p, y', y);
    EqAdd(p, y' * y', y * y, x' * x', x * x);
    EqMul(p, x' * x', x * x, y' * y', y * y);
    EqScale(p, c.d, (x' * x') * (y' * y'), (x * x) * (y * y));
    EqSelf(p, 1);
    EqAdd(p, 1, 1, c.d * ((x' * x') * (y' * y')), c.d * ((x * x) * (y * y)));
    EqSym(p, 1 + c.d * ((x' * x') * (y' * y')), 1 + c.d * ((x * x) * (y * y)));
    EqTrans(p, y' * y' - x' * x', y * y - x * x, 1 + c.d * ((x * x) * (y * y)));
    EqTrans(p, y' * y' - x' * x', 1 + c.d * ((x * x) * (y * y)), 1 + c.d * ((x' * x') * (y' * y')));
  }

  // ----- commutativity and identity ------------------------------------------------------------------

  lemma AddCommutes(c: Curve, a: Point, b: Point)
    requires c.p > 2
    ensures PointAdd(c, a, b) == PointAdd(c, b, a)
  {
    CrossIs(c, a, b);
    CrossIs(c, b, a);
    assert (a.x * a.y) * (b.x * b.y) == (b.x * b.y) * (a.x * a.y);
    EqTrans(c.p, Cross(c, a, b), c.d * ((a.x * a.y) * (b.x * b.y)), Cross(c, b, a));
    EqReduced(c.p, Cross(c, a, b), Cross(c, b, a));
    assert a.x * b.y + a.y * b.x == b.x * a.y + b.y * a.x;
    assert a.y * b.y + a.x * b.x == b.y * a.y + b.x * a.x;
  }

  function Zero(): Point { Point(0, 1) }

  lemma ZeroOnCurve(c: Curve)
    requires c.p > 1
    ensures OnCurve(c, Zero())
  {
    assert c.d * ((0 * 0) * (1 * 1)) == 0;
  }

  lemma AddZero(c: Curve, a: Point)
    requires Suitable(c) && 0 <= a.x < c.p && 0 <= a.y < c.p
    ensures PointAdd(c, a, Zero()) == a == PointAdd(c, Zero(), a)
  {
    AddCommutes(c, a, Zero());
    AddCoordinates(c, a, Zero());
    var p, r := c.p, PointAdd(c, a, Zero());
    var e: int := Cross(c, a, Zero());
    CrossIs(c, a, Zero());
    assert c.d * ((a.x * a.y) * (0 * 1)) == 0;
    ModUnique(p, 0, 0, 0);
    EqReduced(p, e, 0);
    InvOne(p);
    assert (a.x * 1 + a.y * 0) * 1 == a.x && (a.y * 1 + a.x * 0) * 1 == a.y;
    EqReduced(p, r.x, a.x);
    EqReduced(p, r.y, a.y);
  }

  lemma InvOne(p: nat)
    requires p > 2
    ensures Inv(p, Mod(p, 1 + 0)) == 1 && Inv(p, Mod(p, 1 - 0)) == 1
  {
    ModUnique(p, 1, 0, 1);
    PowOne(p - 2);
  }
}

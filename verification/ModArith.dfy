/** Congruence modulo p, powers, and what primality gives: Euclid's lemma and Fermat's theorem. */
module ModArith {

  /** `a` and `b` differ by a multiple of `p`. */
  ghost predicate Eq(p: nat, a: int, b: int)
    requires p > 0
  {
    a % p == b % p
  }

  lemma DivMod(p: nat, a: int)
    requires p > 0
    ensures a == (a / p) * p + a % p && 0 <= a % p < p
  {}

  lemma ModUnique(p: nat, a: int, q: int, r: int)
    requires p > 0 && a == q * p + r && 0 <= r < p
    ensures a % p == r
  {
    DivMod(p, a);
    var e := q - a / p;
    assert e * p == q * p - (a / p) * p;
    assert e * p == a % p - r;
    SmallMultiple(p, e, a % p - r);
  }

  lemma SmallMultiple(p: nat, e: int, x: int)
    requires p > 0 && e * p == x && x < p && 0 - p < x
    ensures e == 0 && x == 0
  {
    if e >= 1 {
      MulAtLeast(e, p);
    } else if e <= -1 {
      MulAtLeast(-e, p);
    }
  }

  lemma MulAtLeast(e: int, p: nat)
    requires e >= 1
    ensures e * p >= p
  {}

  lemma EqFromMultiple(p: nat, a: int, b: int, k: int)
    requires p > 0 && a - b == k * p
    ensures Eq(p, a, b)
  {
    DivMod(p, b);
    assert (b / p + k) * p == (b / p) * p + k * p;
    ModUnique(p, a, b / p + k, b % p);
  }

  lemma MultipleFromEq(p: nat, a: int, b: int) returns (k: int)
    requires p > 0 && Eq(p, a, b)
    ensures a - b == k * p
  {
    DivMod(p, a);
    DivMod(p, b);
    k := a / p - b / p;
    assert k * p == (a / p) * p - (b / p) * p;
  }

  lemma EqMod(p: nat, a: int)
    requires p > 0
    ensures Eq(p, a % p, a) && Eq(p, a, a % p)
  {
    DivMod(p, a);
    EqFromMultiple(p, a, a % p, a / p);
  }

  lemma EqReduced(p: nat, a: int, b: int)
    requires p > 0 && Eq(p, a, b) && 0 <= a < p && 0 <= b < p
    ensures a == b
  {
    ModUnique(p, a, 0, a);
    ModUnique(p, b, 0, b);
  }

  lemma EqAdd(p: nat, a: int, b: int, c: int, d: int)
    requires p > 0 && Eq(p, a, b) && Eq(p, c, d)
    ensures Eq(p, a + c, b + d) && Eq(p, a - c, b - d)
  {
    var k := MultipleFromEq(p, a, b);
    var m := MultipleFromEq(p, c, d);
    assert (k + m) * p == k * p + m * p;
    assert (k - m) * p == k * p - m * p;
    EqFromMultiple(p, a + c, b + d, k + m);
    EqFromMultiple(p, a - c, b - d, k - m);
  }

  lemma EqMul(p: nat, a: int, b: int, c: int, d: int)
    requires p > 0 && Eq(p, a, b) && Eq(p, c, d)
    ensures Eq(p, a * c, b * d)
  {
    var k := MultipleFromEq(p, a, b);
    var m := MultipleFromEq(p, c, d);
    Product(a, b, c, d, k, m, p);
    EqFromMultiple(p, a * c, b * d, k * c + b * m);
  }

  lemma Product(a: int, b: int, c: int, d: int, k: int, m: int, p: int)
    requires a - b == k * p && c - d == m * p
    ensures a * c - b * d == (k * c + b * m) * p
  {
    assert a * c - b * d == (a - b) * c + b * (c - d);
    assert (k * p) * c == (k * c) * p;
    assert b * (m * p) == (b * m) * p;
    assert (k * c + b * m) * p == (k * c) * p + (b * m) * p;
  }

  lemma EqTrans(p: nat, a: int, b: int, c: int)
    requires p > 0 && Eq(p, a, b) && Eq(p, b, c)
    ensures Eq(p, a, c) && Eq(p, c, a) && Eq(p, b, a)
  {}

  lemma EqSelf(p: nat, a: int)
    requires p > 0
    ensures Eq(p, a, a)
  {}

  lemma EqSym(p: nat, a: int, b: int)
    requires p > 0 && Eq(p, a, b)
    ensures Eq(p, b, a)
  {}

  lemma EqScale(p: nat, k: int, a: int, b: int)
    requires p > 0 && Eq(p, a, b)
    ensures Eq(p, k * a, k * b) && Eq(p, a * k, b * k)
  {
    EqMul(p, k, k, a, b);
    EqMul(p, a, b, k, k);
  }

  lemma EqSquare(p: nat, a: int, b: int)
    requires p > 0 && Eq(p, a, b)
    ensures Eq(p, a * a, b * b)
  {
    EqMul(p, a, b, a, b);
  }

  // ----- powers ------------------------------------------------------------------------------

  function Pow(a: int, n: nat): int {
    if n == 0 then 1 else a * Pow(a, n - 1)
  }

  lemma {:induction false} PowAdd(a: int, m: nat, n: nat)
    ensures Pow(a, m + n) == Pow(a, m) * Pow(a, n)
  {
    if m > 0 {
      PowAdd(a, m - 1, n);
      Associate(a, Pow(a, m - 1), Pow(a, n));
    }
  }

  lemma Associate(a: int, b: int, c: int)
    ensures a * (b * c) == (a * b) * c
  {}

  lemma {:induction false} PowMul(a: int, m: nat, n: nat)
    ensures Pow(Pow(a, m), n) == Pow(a, m * n)
    decreases n
  {
    if n == 0 {
      assert m * n == 0;
    } else {
      PowMul(a, m, n - 1);
      assert m * n == m + m * (n - 1);
      PowAdd(a, m, m * (n - 1));
    }
  }

  lemma {:induction false} PowProduct(a: int, b: int, n: nat)
    ensures Pow(a * b, n) == Pow(a, n) * Pow(b, n)
  {
    if n > 0 {
      PowProduct(a, b, n - 1);
      Shuffle(a, b, Pow(a, n - 1), Pow(b, n - 1));
    }
  }

  lemma Shuffle(a: int, b: int, c: int, d: int)
    ensures (a * b) * (c * d) == (a * c) * (b * d)
  {
    calc {
      (a * b) * (c * d);
      { Associate(a, b, c * d); }
      a * (b * (c * d));
      { Associate(b, c, d); Associate(c, b, d); }
      a * (c * (b * d));
      { Associate(a, c, b * d); }
      (a * c) * (b * d);
    }
  }

  lemma {:induction false} PowEq(p: nat, a: int, b: int, n: nat)
    requires p > 0 && Eq(p, a, b)
    ensures Eq(p, Pow(a, n), Pow(b, n))
  {
    if n > 0 {
      PowEq(p, a, b, n - 1);
      EqMul(p, a, b, Pow(a, n - 1), Pow(b, n - 1));
    }
  }

  lemma {:induction false} PowOne(n: nat)
    ensures Pow(1, n) == 1
  {
    if n > 0 { PowOne(n - 1); }
  }

  lemma PowSmall(a: int)
    ensures Pow(a, 1) == a && Pow(a, 2) == a * a
  {
    assert Pow(a, 0) == 1;
    assert Pow(a, 1) == a * Pow(a, 0);
    assert Pow(a, 2) == a * Pow(a, 1);
  }

  // ----- primes ------------------------------------------------------------------------------

  ghost predicate IsPrime(p: nat) {
    p > 1 && forall d :: 1 < d < p ==> p % d != 0
  }

  /** `m` is positive and `m * b` is a multiple of `p`. */
  ghost predicate Kills(p: nat, b: int, m: nat)
    requires p > 0
  {
    m > 0 && Eq(p, m * b, 0)
  }

  ghost function LeastKiller(p: nat, b: int, m: nat, top: nat): (k: nat)
    requires p > 0 && Kills(p, b, top) && m <= top
    requires forall j :: 0 < j < m ==> !Kills(p, b, j)
    ensures Kills(p, b, k) && k <= top && forall j :: 0 < j < k ==> !Kills(p, b, j)
    decreases top - m
  {
    if Kills(p, b, m) then m else LeastKiller(p, b, m + 1, top)
  }

  /** The least positive killer divides every killer. */
  lemma LeastDivides(p: nat, b: int, k: nat, n: nat)
    requires p > 0 && Kills(p, b, k) && Kills(p, b, n)
    requires forall j :: 0 < j < k ==> !Kills(p, b, j)
    ensures n % k == 0
  {
    DivMod(k, n);
    var q, r := n / k, n % k;
    assert r * b == n * b - q * (k * b) by {
      assert n * b == (q * k + r) * b;
      assert (q * k + r) * b == q * (k * b) + r * b by { Associate(q, k, b); }
    }
    EqMul(p, q, q, k * b, 0);
    EqAdd(p, n * b, 0, q * (k * b), q * 0);
    if r > 0 { assert Kills(p, b, r); }
  }

  /** Euclid's lemma. */
  lemma Euclid(p: nat, a: int, b: int)
    requires IsPrime(p) && Eq(p, a * b, 0)
    ensures Eq(p, a, 0) || Eq(p, b, 0)
  {
    if !Eq(p, a, 0) {
      var r := a % p;
      DivMod(p, a);
      ModUnique(p, 0, 0, 0);
      EqMod(p, a);
      EqMul(p, r, a, b, b);
      assert Kills(p, b, r);
      EqFromMultiple(p, p * b, 0, b);
      assert Kills(p, b, p);
      var k := LeastKiller(p, b, 0, r);
      LeastDivides(p, b, k, p);
      assert k < p;
      assert k == 1;
    }
  }

  ghost function Range(n: nat): (S: set<nat>)
    ensures forall i: nat :: i in S <==> 0 < i <= n
    ensures |S| == n
  {
    if n == 0 then {} else Range(n - 1) + {n}
  }

  ghost function Prod(S: set<nat>): int {
    if S == {} then 1 else
      var x: nat :| x in S;
      x * Prod(S - {x})
  }

  lemma {:induction false} ProdRemove(S: set<nat>, x: nat)
    requires x in S
    ensures Prod(S) == x * Prod(S - {x})
    decreases S
  {
    var y: nat :| y in S && Prod(S) == y * Prod(S - {y});
    if x != y {
      ProdRemove(S - {y}, x);
      ProdRemove(S - {x}, y);
      assert S - {x} - {y} == S - {y} - {x};
      Associate(y, x, Prod(S - {x} - {y}));
      Associate(x, y, Prod(S - {x} - {y}));
    }
  }

  ghost function Scaled(p: nat, a: int, S: set<nat>): set<nat>
    requires p > 0
  {
    set x | x in S :: Scale(p, a, x)
  }

  ghost function Scale(p: nat, a: int, x: nat): nat
    requires p > 0
  {
    (a * x) % p
  }

  /** Multiplying by `a` permutes the nonzero residues. */
  lemma ScaledInjective(p: nat, a: int, x: nat, y: nat)
    requires IsPrime(p) && !Eq(p, a, 0) && 0 < x < p && 0 < y < p && Scale(p, a, x) == Scale(p, a, y)
    ensures x == y
  {
    assert Eq(p, a * x, a * y);
    EqAdd(p, a * x, a * y, a * y, a * y);
    assert a * x - a * y == a * (x - y);
    assert Eq(p, a * (x - y), 0);
    Euclid(p, a, x - y);
    assert Eq(p, x - y, 0);
    EqAdd(p, x - y, 0, y, y);
    EqReduced(p, x, y);
  }

  lemma ScaledInRange(p: nat, a: int, x: nat)
    requires IsPrime(p) && !Eq(p, a, 0) && 0 < x < p
    ensures 0 < Scale(p, a, x) < p
  {
    DivMod(p, a * x);
    if (a * x) % p == 0 {
      ModUnique(p, 0, 0, 0);
      Euclid(p, a, x);
      ModUnique(p, x, 0, x);
    }
  }

  /** The product of the scaled residues is a power of `a` times the product. */
  lemma {:induction false} ScaledProduct(p: nat, a: int, S: set<nat>)
    requires IsPrime(p) && !Eq(p, a, 0) && forall x :: x in S ==> 0 < x < p
    ensures Eq(p, Prod(Scaled(p, a, S)), Pow(a, |S|) * Prod(S))
    ensures |Scaled(p, a, S)| == |S|
    decreases S
  {
    if S == {} {
      assert Scaled(p, a, S) == {};
    } else {
      var x: nat :| x in S;
      ScaledProduct(p, a, S - {x});
      ScaledMore(p, a, S, x);
    }
  }

  lemma ScaledMore(p: nat, a: int, S: set<nat>, x: nat)
    requires IsPrime(p) && !Eq(p, a, 0) && x in S && forall z :: z in S ==> 0 < z < p
    requires Eq(p, Prod(Scaled(p, a, S - {x})), Pow(a, |S - {x}|) * Prod(S - {x}))
    requires |Scaled(p, a, S - {x})| == |S - {x}|
    ensures Eq(p, Prod(Scaled(p, a, S)), Pow(a, |S|) * Prod(S))
    ensures |Scaled(p, a, S)| == |S|
  {
    var T := S - {x};
    var y := Scale(p, a, x);
    ScaledSplit(p, a, S, x);
    hide Scaled, Eq, IsPrime;
    ProdRemove(Scaled(p, a, S), y);
    ProdRemove(S, x);
    EqMod(p, a * x);
    EqMul(p, y, a * x, Prod(Scaled(p, a, T)), Pow(a, |T|) * Prod(T));
    Shuffle(a, x, Pow(a, |T|), Prod(T));
    assert |S| == |T| + 1;
  }

  lemma ScaledSplit(p: nat, a: int, S: set<nat>, x: nat)
    requires IsPrime(p) && !Eq(p, a, 0) && x in S && forall z :: z in S ==> 0 < z < p
    ensures var y := Scale(p, a, x);
            && y in Scaled(p, a, S) && Scaled(p, a, S) - {y} == Scaled(p, a, S - {x})
            && |Scaled(p, a, S)| == |Scaled(p, a, S - {x})| + 1
  {
    hide Scale, Eq, IsPrime;
    var T := S - {x};
    var y := Scale(p, a, x);
    assert Scaled(p, a, S) == Scaled(p, a, T) + {y};
    if y in Scaled(p, a, T) {
      var z :| z in T && Scale(p, a, z) == y;
      ScaledInjective(p, a, x, z);
    }
    assert Scaled(p, a, S) - {y} == Scaled(p, a, T);
  }

  lemma {:induction false} ProdNonzero(p: nat, S: set<nat>)
    requires IsPrime(p) && forall x :: x in S ==> 0 < x < p
    ensures !Eq(p, Prod(S), 0)
    decreases S
  {
    ModUnique(p, 0, 0, 0);
    if S == {} {
      ModUnique(p, 1, 0, 1);
    } else {
      var x: nat :| x in S;
      ProdRemove(S, x);
      ProdNonzero(p, S - {x});
      ModUnique(p, x, 0, x);
      if Eq(p, x * Prod(S - {x}), 0) { Euclid(p, x, Prod(S - {x})); }
    }
  }

  /** Fermat's little theorem. */
  lemma Fermat(p: nat, a: int)
    requires IsPrime(p) && !Eq(p, a, 0)
    ensures Eq(p, Pow(a, p - 1), 1)
  {
    var S := Range(p - 1);
    ScaledProduct(p, a, S);
    forall y | y in Scaled(p, a, S) ensures y in S {
      var x :| x in S && Scale(p, a, x) == y;
      ScaledInRange(p, a, x);
    }
    SameSize(Scaled(p, a, S), S);
    ProdNonzero(p, S);
    assert 1 * Prod(S) == Prod(S);
    Cancel(p, Prod(S), Pow(a, p - 1), 1);
  }

  lemma SameSize(A: set<nat>, B: set<nat>)
    requires A <= B && |A| == |B|
    ensures A == B
  {
    assert B == A + (B - A) && |B| == |A| + |B - A|;
  }

  /** A factor that is not zero modulo a prime cancels. */
  lemma Cancel(p: nat, c: int, a: int, b: int)
    requires IsPrime(p) && !Eq(p, c, 0) && Eq(p, a * c, b * c)
    ensures Eq(p, a, b)
  {
    hide Eq, IsPrime;
    PrimePositive(p);
    EqSelf(p, b * c);
    EqSelf(p, b);
    EqAdd(p, a * c, b * c, b * c, b * c);
    DifferenceTimes(a, b, c);
    Euclid(p, a - b, c);
    EqAdd(p, a - b, 0, b, b);
  }

  lemma DifferenceTimes(a: int, b: int, c: int)
    ensures a * c - b * c == (a - b) * c
  {}

  lemma PrimePositive(p: nat)
    requires IsPrime(p)
    ensures p > 1
  {}
}

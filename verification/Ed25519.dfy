/**
 The app's Ed25519 group: its constants as the app derives them, and the proof that they meet
 what Edwards.dfy and Signing.dfy ask of a curve. The literals are those of section 5.1 of RFC 8032.
 */
module Ed25519 {
  import opened ModArith
  import opened Edwards
  import opened EdwardsClosed
  import opened PointCodec
  import opened Signing
  import opened SignatureVerdict
  import LE = LittleEndian
  import BigEndian
  import Bytes

  /** 2^255 - 19 */
  const P: nat := 0x7fffffffffffffffffffffffffffffffffffffffffffffffffffffffffffffed
  /** 2^252 + 27742317777372353535851937790883648493 */
  const ORDER: nat := 0x1000000000000000000000000000000014def9dea2f79cd65812631a5cf5d3ed
  const BASE_X: nat := 0x216936d3cd6e53fec0a4e231fdd6dc5c692cc7609525a7b2c9562d608f25d51a
  const BASE_Y: nat := 0x6666666666666666666666666666666666666666666666666666666666666658
  const D: nat := 0x52036cee2b6ffe738cc740797779e89800700a4d4141d8ab75eb4dca135978a3
  /** Witnesses: a root of -1, and a root of 2 * 121665 * 121666. */
  const ROOT_OF_MINUS_ONE: nat := 0x2b8324804fc1df0b2b4d00993dfbd7a72f431806ad2fe478c4ee1b274a0ea0b0
  const ROOT_OF_TWICE_N: nat := 0x26c7b1d1d8aef777e97c7e017bcc13360167701cdf7e14506a5ce799d5416d6a

  // ----- the constants as the app computes them, from the prime ------------------------------------

  function CurveConstant(p: nat): nat
    requires p > 2
  {
    Mod(p, -121665 * Inv(p, 121666))
  }

  function RootConstant(p: nat): nat
    requires p > 2
  {
    Mod(p, Pow(2, (p - 1) / 4))
  }

  function CurveOf(p: nat): Curve
    requires p > 2
  {
    Curve(p, CurveConstant(p), RootConstant(p))
  }

  function BaseY(p: nat): nat
    requires p > 2
  {
    Mod(p, 4 * Inv(p, 5))
  }

  /** The even root. */
  function RecoverX(c: Curve, y: nat): nat
    requires c.p > 2
  {
    var x := RootCandidate(c, XSquared(c, y));
    if x % 2 == 1 then Mod(c.p, c.p - x) else x
  }

  function AppGroup(p: nat): Group
    requires p > 2
  {
    Group(CurveOf(p), Point(RecoverX(CurveOf(p), BaseY(p)), BaseY(p)), ORDER)
  }

  // ----- arithmetic on the literals ------------------------------------------------------------------

  lemma Literals()
    ensures P % 8 == 5 && 121666 < P && BASE_X < P && BASE_Y < P && D < P && BASE_X % 2 == 0
    ensures Eq(P, ROOT_OF_MINUS_ONE * ROOT_OF_MINUS_ONE, -1)
    ensures Eq(P, ROOT_OF_TWICE_N * ROOT_OF_TWICE_N, 2 * (121665 * 121666))
    ensures Eq(P, 5 * BASE_Y, 4)
    ensures Eq(P, 121666 * D, -121665)
    ensures Eq(P, 121666 * (BASE_Y * BASE_Y - BASE_X * BASE_X),
                  121666 + -121665 * ((BASE_X * BASE_X) * (BASE_Y * BASE_Y)))
  {}

  ghost predicate PowerIs(a: int, n: nat, v: int) { Pow(a, n) == v }

  lemma Doubled(a: int, n: nat, v: int, m: nat, w: int)
    requires PowerIs(a, n, v)
    requires (m == 2 * n && w == v * v) || (m == 2 * n + 1 && w == a * (v * v))
    ensures PowerIs(a, m, w)
  {
    PowAdd(a, n, n);
    assert n + n == 2 * n;
    assert Pow(a, 2 * n + 1) == a * Pow(a, 2 * n);
  }

  /** The written-out constants are the powers of two the app starts from. */
  lemma Powers()
    ensures PowerIs(2, 255, P + 19)
    ensures PowerIs(2, 252, ORDER - 27742317777372353535851937790883648493)
  {
    SmallPowers();
    hide PowerIs;
    Doubled(2, 3, 8, 7, 128);
    Doubled(2, 7, 128, 15, 0x8000);
    Doubled(2, 15, 0x8000, 31, 0x80000000);
    Doubled(2, 31, 0x80000000, 63, 0x8000000000000000);
    Doubled(2, 63, 0x8000000000000000, 127, 0x80000000000000000000000000000000);
    Doubled(2, 127, 0x80000000000000000000000000000000, 255, P + 19);
    Doubled(2, 63, 0x8000000000000000, 126, 0x40000000000000000000000000000000);
    Doubled(2, 126, 0x40000000000000000000000000000000, 252, ORDER - 27742317777372353535851937790883648493);
  }

  lemma SmallPowers()
    ensures PowerIs(2, 3, 8) && PowerIs(256, 3, 0x1000000) && PowerIs(256, 4, 0x100000000)
  {}

  // ----- quadratic residues ----------------------------------------------------------------------------

  lemma {:induction false} OddPowerOfMinusOne(n: nat)
    requires n % 2 == 1
    ensures Pow(-1, n) == -1
  {
    if n > 1 {
      OddPowerOfMinusOne(n - 2);
      assert Pow(-1, n) == -1 * (-1 * Pow(-1, n - 2));
    }
  }

  /** For p = 5 mod 8, two is not a square: its (p-1)/2-th power is -1. */
  lemma TwoIsNonresidue(p: nat, j: int)
    requires IsPrime(p) && p % 8 == 5 && Eq(p, j * j, -1)
    ensures Eq(p, Pow(2, (p - 1) / 2), -1)
  {
    hide Eq, IsPrime, Pow;
    var e, q := (p - 1) / 2, (p - 1) / 4;
    FiveModEight(p);
    NotMinusOne(p, j);
    Fermat(p, 1 + j);
    var t, w := Pow(2, e), Pow(j, e);
    // (1 + j)^2 = 2 j, so (2 j)^e = (1 + j)^(p-1) = 1
    PowMul(1 + j, 2, e);
    PowSmall(1 + j);
    EqSelf(p, 1 + 2 * j);
    EqAdd(p, 1 + 2 * j, 1 + 2 * j, j * j, -1);
    assert (1 + j) * (1 + j) == 1 + 2 * j + j * j;
    PowEq(p, (1 + j) * (1 + j), 2 * j, e);
    PowProduct(2, j, e);
    EqSym(p, Pow(1 + j, p - 1), t * w);
    EqTrans(p, t * w, Pow(1 + j, p - 1), 1);
    // j^e = (-1)^q = -1
    PowMul(j, 2, q);
    PowSmall(j);
    PowEq(p, j * j, -1, q);
    OddPowerOfMinusOne(q);
    EqScale(p, t, w, -1);
    EqTrans(p, t * -1, t * w, 1);
    EqScale(p, -1, t * -1, 1);
    assert -1 * (t * -1) == t;
  }

  lemma FiveModEight(p: nat)
    requires p % 8 == 5
    ensures var e, q := (p - 1) / 2, (p - 1) / 4; e == 2 * q && q % 2 == 1 && 2 * e == p - 1
  {}

  lemma NotMinusOne(p: nat, j: int)
    requires p > 2 && Eq(p, j * j, -1)
    ensures !Eq(p, 1 + j, 0)
  {
    if Eq(p, 1 + j, 0) {
      hide Eq;
      EqSelf(p, 1);
      EqAdd(p, 1 + j, 0, 1, 1);
      EqSquare(p, j, -1);
      EqTrans(p, 1, j * j, -1);
      OneIsNotMinusOne(p);
    }
  }

  lemma OneIsNotMinusOne(p: nat)
    requires p > 2
    ensures !Eq(p, 1, -1)
  {
    ModUnique(p, 1, 0, 1);
    ModUnique(p, -1, -1, p - 1);
  }

  /** An even power p-1 of a nonzero number, through its square. */
  lemma SquareToHalf(p: nat, s: int)
    requires IsPrime(p) && p % 2 == 1 && !Eq(p, s, 0)
    ensures Eq(p, Pow(s * s, (p - 1) / 2), 1)
  {
    Fermat(p, s);
    PowMul(s, 2, (p - 1) / 2);
    PowSmall(s);
    assert 2 * ((p - 1) / 2) == p - 1;
  }

  /** Twice a nonzero square is not a square. */
  lemma TwiceSquareIsNot(p: nat, j: int, s: int, t: int)
    requires IsPrime(p) && p % 8 == 5 && Eq(p, j * j, -1)
    requires !Eq(p, s, 0) && !Eq(p, t, 0)
    ensures !Eq(p, s * s, 2 * (t * t))
  {
    var e := (p - 1) / 2;
    TwoIsNonresidue(p, j);
    SquareToHalf(p, s);
    SquareToHalf(p, t);
    hide Eq, IsPrime;
    if Eq(p, s * s, 2 * (t * t)) {
      PowEq(p, s * s, 2 * (t * t), e);
      PowProduct(2, t * t, e);
      EqMul(p, Pow(2, e), -1, Pow(t * t, e), 1);
      EqTrans(p, Pow(s * s, e), Pow(2 * (t * t), e), -1);
      EqTrans(p, 1, Pow(s * s, e), -1);
      OneIsNotMinusOne(p);
    }
  }

  /** If n d = -m and 2 m n is a nonzero square, then d is not a square. */
  lemma NotSquare(p: nat, j: int, s: int, m: int, n: int, d: int, w: int)
    requires IsPrime(p) && p % 8 == 5 && Eq(p, j * j, -1)
    requires Eq(p, n * d, -m) && Eq(p, s * s, 2 * (m * n)) && !Eq(p, s, 0) && !Eq(p, m * n, 0)
    ensures !Eq(p, w * w, d)
  {
    hide Eq, IsPrime;
    if Eq(p, w * w, d) {
      // m n = -n n d = (j n w)^2
      var t := j * (n * w);
      Shuffle(j, n * w, j, n * w);
      Shuffle(n, w, n, w);
      EqScale(p, n * n, w * w, d);
      EqMul(p, j * j, -1, (n * w) * (n * w), (n * n) * d);
      Associate(n, n, d);
      EqScale(p, n, n * d, -m);
      EqScale(p, -1, n * (n * d), n * -m);
      assert -1 * (n * -m) == m * n;
      EqTrans(p, t * t, -1 * ((n * n) * d), m * n);
      EqScale(p, 2, t * t, m * n);
      EqTrans(p, s * s, 2 * (m * n), 2 * (t * t));
      if Eq(p, t, 0) {
        EqScale(p, t, t, 0);
        EqTrans(p, m * n, t * t, 0);
      }
      TwiceSquareIsNot(p, j, s, t);
    }
  }

  // ----- the app's curve -----------------------------------------------------------------------------

  lemma CurveConstantIs(p: nat)
    requires IsPrime(p) && p > 121666
    ensures Eq(p, 121666 * CurveConstant(p), -121665)
  {
    SmallNonzero(p, 121666);
    InvCorrect(p, 121666);
    ScaledInverse(p, 121666, Inv(p, 121666), -121665);
  }

  lemma ScaledInverse(p: nat, n: int, v: int, k: int)
    requires p > 0 && Eq(p, n * v, 1)
    ensures Eq(p, n * Mod(p, k * v), k)
  {
    ModEq(p, k * v);
    hide Eq;
    EqScale(p, n, Mod(p, k * v), k * v);
    EqScale(p, k, n * v, 1);
    assert n * (k * v) == k * (n * v) by { Associate(n, k, v); Associate(k, n, v); }
    EqTrans(p, n * Mod(p, k * v), n * (k * v), k);
  }

  lemma RootConstantIs(p: nat, j: int)
    requires IsPrime(p) && p % 8 == 5 && Eq(p, j * j, -1)
    ensures Eq(p, RootConstant(p) * RootConstant(p), -1)
  {
    TwoIsNonresidue(p, j);
    hide Eq, IsPrime;
    var q := (p - 1) / 4;
    var w, r := Pow(2, q), RootConstant(p);
    PowAdd(2, q, q);
    assert q + q == (p - 1) / 2;
    ModEq(p, w);
    EqSquare(p, r, w);
    EqTrans(p, r * r, w * w, -1);
  }

  lemma AppCurve(p: nat)
    requires p == P && IsPrime(p)
    ensures Fits(CurveOf(p))
  {
    var c := CurveOf(p);
    FromLiterals(p);
    hide Eq, IsPrime, CurveConstant, RootConstant;
    RootConstantIs(p, ROOT_OF_MINUS_ONE);
    CurveConstantIs(p);
    forall w: int ensures !Eq(p, w * w, c.d) {
      NotSquare(p, ROOT_OF_MINUS_ONE, ROOT_OF_TWICE_N, 121665, 121666, c.d, w);
    }
    PrimeFits();
  }

  lemma {:induction false} Pow256Is(n: nat)
    ensures BigEndian.Pow256(n) == Pow(256, n)
  {
    if n > 0 { Pow256Is(n - 1); }
  }

  lemma PowerOf(n: nat, v: int)
    requires PowerIs(256, n, v)
    ensures BigEndian.Pow256(n) == v
  {
    Pow256Is(n);
  }

  lemma PrimeFits()
    ensures P < BigEndian.Pow256(31) * 128
    ensures 0 < ORDER < BigEndian.Pow256(32)
  {
    hide PowerIs, BigEndian.Pow256;
    SmallPowers();
    Doubled(256, 3, 0x1000000, 7, 0x100000000000000);
    Doubled(256, 7, 0x100000000000000, 15, 0x1000000000000000000000000000000);
    Doubled(256, 15, 0x1000000000000000000000000000000, 31,
            0x100000000000000000000000000000000000000000000000000000000000000);
    Doubled(256, 4, 0x100000000, 8, 0x10000000000000000);
    Doubled(256, 8, 0x10000000000000000, 16, 0x100000000000000000000000000000000);
    Doubled(256, 16, 0x100000000000000000000000000000000, 32,
            0x10000000000000000000000000000000000000000000000000000000000000000);
    PowerOf(31, 0x100000000000000000000000000000000000000000000000000000000000000);
    PowerOf(32, 0x10000000000000000000000000000000000000000000000000000000000000000);
  }

  /** The literal facts, for a prime that is a variable. */
  lemma FromLiterals(p: nat)
    requires p == P
    ensures p % 8 == 5 && p > 121666
    ensures Eq(p, ROOT_OF_MINUS_ONE * ROOT_OF_MINUS_ONE, -1)
    ensures Eq(p, ROOT_OF_TWICE_N * ROOT_OF_TWICE_N, 2 * (121665 * 121666))
    ensures !Eq(p, ROOT_OF_TWICE_N, 0) && !Eq(p, 121665 * 121666, 0)
  {
    Literals();
    SmallNonzero(P, ROOT_OF_TWICE_N);
    SmallNonzero(P, 121665 * 121666);
  }

  // ----- the base point ---------------------------------------------------------------------------------

  /** The derived curve constant and base point are the ones RFC 8032 writes out. */
  lemma AppBase(p: nat)
    requires p == P && IsPrime(p)
    ensures var g := AppGroup(p);
            g.curve.d == D && g.base == Point(BASE_X, BASE_Y) && OnCurve(g.curve, g.base)
  {
    var c := CurveOf(p);
    AppCurve(p);
    CurveConstantLiteral(p);
    BaseYLiteral(p);
    BaseEquation(p);
    Literals();
    RecoverXIs(c, BASE_X, BASE_Y);
  }

  lemma CurveConstantLiteral(p: nat)
    requires p == P && IsPrime(p)
    ensures CurveConstant(p) == D
  {
    Literals();
    SmallNonzero(p, 121666);
    hide Eq, IsPrime, CurveConstant;
    CurveConstantIs(p);
    CancelReduced(p, 121666, CurveConstant(p), D, -121665);
  }

  lemma BaseYLiteral(p: nat)
    requires p == P && IsPrime(p)
    ensures BaseY(p) == BASE_Y
  {
    Literals();
    SmallNonzero(p, 5);
    InvCorrect(p, 5);
    hide Eq, IsPrime, Inv;
    ScaledInverse(p, 5, Inv(p, 5), 4);
    CancelReduced(p, 5, BaseY(p), BASE_Y, 4);
  }

  lemma CancelReduced(p: nat, n: int, a: nat, b: nat, k: int)
    requires IsPrime(p) && !Eq(p, n, 0) && a < p && b < p
    requires Eq(p, n * a, k) && Eq(p, n * b, k)
    ensures a == b
  {
    hide Eq, IsPrime;
    EqSym(p, n * b, k);
    EqTrans(p, n * a, k, n * b);
    assert n * a == a * n && n * b == b * n;
    Cancel(p, n, a, b);
    EqReduced(p, a, b);
  }

  lemma BaseEquation(p: nat)
    requires p == P && IsPrime(p)
    ensures CurveEquation(CurveOf(p), BASE_X, BASE_Y)
  {
    Literals();
    SmallNonzero(p, 121666);
    CurveConstantIs(p);
    hide Eq, IsPrime, CurveConstant;
    ScaledEquation(p, CurveConstant(p), 121666, -121665, BASE_Y * BASE_Y - BASE_X * BASE_X,
                   (BASE_X * BASE_X) * (BASE_Y * BASE_Y));
  }

  lemma ScaledEquation(p: nat, d: int, n: int, k: int, l: int, m: int)
    requires IsPrime(p) && !Eq(p, n, 0) && Eq(p, n * d, k) && Eq(p, n * l, n + k * m)
    ensures Eq(p, l, 1 + d * m)
  {
    assert p > 0;
    hide Eq, IsPrime;
    EqScale(p, m, n * d, k);
    EqSym(p, (n * d) * m, k * m);
    EqSelf(p, n);
    EqAdd(p, n, n, k * m, (n * d) * m);
    Associate(n, d, m);
    assert n + n * (d * m) == (1 + d * m) * n;
    EqTrans(p, n * l, n + k * m, (1 + d * m) * n);
    assert n * l == l * n;
    Cancel(p, n, l, 1 + d * m);
  }

  /** Recovering x from y finds the even x of the point. */
  lemma RecoverXIs(c: Curve, x: nat, y: nat)
    requires Suitable(c) && x < c.p && x % 2 == 0 && CurveEquation(c, x, y)
    ensures RecoverX(c, y) == x
  {
    hide Eq, Mod, RootCandidate, XSquared, IsPrime, CurveEquation, Suitable;
    OddPrime(c);
    SuitablePrime(c);
    var p, xx := c.p, XSquared(c, y);
    XSquaredIs(c, x, y);
    EqSym(p, x * x, xx);
    CandidateIsRoot(c, x, xx);
    var r := RootCandidate(c, xx);
    EqTrans(p, r * r, xx, x * x);
    RootsUpToSign(p, r, x);
    if r == 0 {
      EqSym(p, r * r, x * x);
      ZeroRoot(c, x);
    } else {
      ChooseRoot(p, r, x);
    }
  }

  // ----- completeness for the app's group ----------------------------------------------------------------

  /**
   For the app's own constants: given that 2^255 - 19 is prime, that the addition law is associative
   on the curve, and that the base point has order dividing ORDER, every signature verifies under the
   public key of its seed.
   */
  lemma AppSigningCompleteness(p: nat, message: seq<bv8>, seed: seq<bv8>)
    requires p == P && IsPrime(p) && Associative(CurveOf(p))
    requires Times(CurveOf(p), Point(BASE_X, BASE_Y), ORDER) == Zero()
    ensures Verify(AppGroup(p), message, Sign(AppGroup(p), message, seed), PublicKeyFromSeed(AppGroup(p), seed))
  {
    hide Eq, IsPrime, Associative, Times, Sign, Verify, PublicKeyFromSeed, RecoverX, BaseY, CurveOf, BigEndian.Pow256;
    AppCurve(p);
    AppBase(p);
    PrimeFits();
    SigningCompleteness(AppGroup(p), message, seed);
  }

  /** Under the same hypotheses: what is accepted is section 5.1.7 of RFC 8032 over the app's hash. */
  lemma AppVerdict(p: nat, message: seq<bv8>, signature: seq<bv8>, publicKey: seq<bv8>)
    requires p == P && IsPrime(p) && Associative(CurveOf(p))
    requires Times(CurveOf(p), Point(BASE_X, BASE_Y), ORDER) == Zero()
    ensures Verify(AppGroup(p), message, signature, publicKey) <==>
            exists A, R :: Accepts(AppGroup(p), message, signature, publicKey, A, R)
  {
    hide Eq, IsPrime, Associative, Times, Verify, RecoverX, BaseY, CurveOf, BigEndian.Pow256, Accepts;
    AppCurve(p);
    AppBase(p);
    PrimeFits();
    VerdictIs(AppGroup(p), message, signature, publicKey);
  }

  /** If the base point has no smaller order, no two are accepted of one message and key with one first half. */
  lemma AppOneSignature(p: nat, message: seq<bv8>, publicKey: seq<bv8>, x: seq<bv8>, y: seq<bv8>)
    requires p == P && IsPrime(p) && Associative(CurveOf(p))
    requires Times(CurveOf(p), Point(BASE_X, BASE_Y), ORDER) == Zero()
    requires forall n: nat :: 0 < n < ORDER ==> Times(CurveOf(p), Point(BASE_X, BASE_Y), n) != Zero()
    requires Verify(AppGroup(p), message, x, publicKey) && Verify(AppGroup(p), message, y, publicKey)
    requires |x| == |y| == 64 && x[..32] == y[..32]
    ensures x == y
  {
    hide Eq, IsPrime, Associative, Times, Verify, RecoverX, BaseY, CurveOf, BigEndian.Pow256;
    AppCurve(p);
    AppBase(p);
    PrimeFits();
    OneSignature(AppGroup(p), message, publicKey, x, y);
  }

  // ----- bytes of the base point --------------------------------------------------------------------------

  /** A number of so many bytes 0x66. */
  function Sixes(len: nat): nat { if len == 0 then 0 else 0x66 + 256 * Sixes(len - 1) }

  lemma {:induction false} SixesEncoded(len: nat)
    ensures LE.Encode(Sixes(len), len) == seq(len, _ => 0x66)
  {
    if len > 0 {
      SixesEncoded(len - 1);
      assert Sixes(len) % 256 == 0x66 && Sixes(len) / 256 == Sixes(len - 1);
    }
  }

  lemma SixesAre()
    ensures BASE_Y == 0x58 + 256 * Sixes(31)
  {
    assert Sixes(8) == 0x6666666666666666;
    assert Sixes(16) == 0x66666666666666666666666666666666;
    assert Sixes(24) == 0x666666666666666666666666666666666666666666666666;
  }

  lemma SixtySix()
    ensures LE.SetTop(0x66) == 0xe6 && (0x58 as bv8) == Bytes.Byte(0x58)
  {}

  /** The base point is written as in section 5.1 of RFC 8032, and its opposite with the sign bit set. */
  lemma EncodedBase()
    ensures EncodePoint(Point(BASE_X, BASE_Y)) == [0x58] + seq(31, _ => 0x66)
    ensures EncodePoint(Point(P - BASE_X, BASE_Y)) == [0x58] + seq(30, _ => 0x66) + [0xe6]
  {
    hide LE.Encode, LE.SetTop;
    EncodedY();
    SixtySix();
    assert BASE_X % 2 == 0 && (P - BASE_X) % 2 == 1;
    var bytes: seq<bv8> := [0x58] + seq(31, _ => 0x66);
    assert bytes[31 := 0xe6] == [0x58] + seq(30, _ => 0x66) + [0xe6];
  }

  lemma EncodedY()
    ensures LE.Encode(BASE_Y, 32) == [0x58] + seq(31, _ => 0x66)
  {
    SixesAre();
    SixesEncoded(31);
    SixtySix();
    hide Sixes;
    assert BASE_Y % 256 == 0x58 && BASE_Y / 256 == Sixes(31);
  }
}

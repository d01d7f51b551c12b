/** Degree and index sampling of the fountain code: the app's sampler and the script's twin. */
module Sampling {
  import opened Prng

  type Generator = int -> nat

  function Min(a: int, b: int): int { if a < b then a else b }

  function Max(a: int, b: int): int { if a < b then b else a }

  /** `(prng & 0xFFFF) / 65536.0`; the quotient of two such numbers is exact. */
  function RawProb(prng: int): real {
    (prng % 0x1_0000) as real / 65536.0
  }

  function Degree(rawProb: real, k: int): int {
    var degree :=
      if rawProb < 0.40 then 1
      else if rawProb < 0.70 then 2
      else if rawProb < 0.85 then 3
      else if rawProb < 0.93 then Min(k, 4)
      else if rawProb < 0.97 then Min(k, Max(5, k / 2))
      else k;
    Max(1, Min(k, degree))
  }

  /** The script's table has no entry for probabilities in [0.93, 0.97). */
  function DegreeTs(rawProb: real, k: int): int {
    var degree :=
      if rawProb < 0.40 then 1
      else if rawProb < 0.70 then 2
      else if rawProb < 0.85 then 3
      else if rawProb < 0.93 then Min(k, 4)
      else k;
    Max(1, Min(k, degree))
  }

  /** The six rows of the app's table, for any number of blocks. */
  lemma DegreeRows(rawProb: real, k: int)
    requires k >= 1
    ensures rawProb < 0.40 ==> Degree(rawProb, k) == 1
    ensures 0.40 <= rawProb < 0.70 ==> Degree(rawProb, k) == if k == 1 then 1 else 2
    ensures 0.70 <= rawProb < 0.85 ==> Degree(rawProb, k) == if k < 3 then k else 3
    ensures 0.85 <= rawProb < 0.93 ==> Degree(rawProb, k) == if k < 4 then k else 4
    ensures 0.93 <= rawProb < 0.97 ==> Degree(rawProb, k) == if k <= 5 then k else if k <= 11 then 5 else k / 2
    ensures rawProb >= 0.97 ==> Degree(rawProb, k) == k
  {}

  /** The script's table differs in the fifth row only, where it takes all blocks. */
  lemma DegreeTsRows(rawProb: real, k: int)
    requires k >= 1
    ensures DegreeTs(rawProb, k) == if 0.93 <= rawProb < 0.97 then k else Degree(rawProb, k)
  {}

  function Numbers(k: nat): (s: seq<nat>)
    ensures |s| == k && forall i :: 0 <= i < k ==> s[i] == i
  {
    seq(k, i requires 0 <= i < k => i)
  }

  function Without(s: seq<nat>, i: nat): seq<nat>
    requires i < |s|
  {
    s[..i] + s[i + 1..]
  }

  /** `(prng % length).abs()` */
  function Pick(prng: nat, length: nat): (i: nat)
    requires length > 0
    ensures i < length
  {
    prng % length
  }

  /** `n` draws without replacement; each advances the generator first. */
  function Draw(gen: Generator, available: seq<nat>, prng: int, n: nat): seq<nat>
    requires n <= |available|
  {
    if n == 0 then [] else
      var p := gen(prng);
      var idx := Pick(p, |available|);
      [available[idx]] + Draw(gen, Without(available, idx), p, n - 1)
  }

  function Insert(x: nat, s: seq<nat>): seq<nat> {
    if s == [] || x <= s[0] then [x] + s else [s[0]] + Insert(x, s[1..])
  }

  /** The library sort on a list of integers. */
  function Sorted(s: seq<nat>): seq<nat> {
    if s == [] then [] else Insert(s[0], Sorted(s[1..]))
  }

  function Sample(seed: int, k: int): (int, seq<nat>) {
    if k <= 1 then (1, [0])
    else if seed < k then (1, [seed % k])
    else
      var p := Xorshift32(seed);
      var degree := Degree(RawProb(p), k);
      (degree, Sorted(Draw(Xorshift32, Numbers(k), p, degree)))
  }

  /** JavaScript's `%` for a positive divisor: the result has the sign of the dividend. */
  function JsRemainder(a: int, b: int): int
    requires b > 0
  {
    if a >= 0 then a % b else -((-a) % b)
  }

  function SampleTs(seed: int, k: int): (int, seq<int>) {
    if k <= 1 then (1, [0])
    else if seed < k then (1, [JsRemainder(seed, k)])
    else
      var p := JsXorshift32(seed);
      var degree := DegreeTs(RawProb(p), k);
      (degree, Sorted(Draw(JsXorshift32, Numbers(k), p, degree)))
  }

  /** The app's sampler: draws by removing from a shrinking list, then sorts. */
  method SampleDegreeAndIndices(seed: int, k: int) returns (degree: int, indices: seq<nat>)
    ensures (degree, indices) == Sample(seed, k)
  {
    if k <= 1 {
      return 1, [0];
    }
    if seed < k {
      return 1, [seed % k];
    }
    var prng := Xorshift32(seed);
    degree := Degree(RawProb(prng), k);
    var selected := DrawIndices(prng, k, degree);
    indices := Sorted(selected);
  }

  method DrawIndices(seed: nat, k: nat, degree: nat) returns (selected: seq<nat>)
    requires degree <= k
    ensures selected == Draw(Xorshift32, Numbers(k), seed, degree)
  {
    var prng := seed;
    var available := Numbers(k);
    selected := [];
    ghost var all := Draw(Xorshift32, available, prng, degree);
    hide *;
    EmptyPrefix(all);
    for i := 0 to degree
      invariant |available| == k - i
      invariant all == selected + Draw(Xorshift32, available, prng, degree - i)
    {
      DrawStep(Xorshift32, selected, available, prng, degree - i);
      prng := Xorshift32(prng);
      var idx := Pick(prng, |available|);
      selected := selected + [available[idx]];
      available := Without(available, idx);
    }
    DrawNone(Xorshift32, selected, available, prng);
  }

  lemma DrawStep(gen: Generator, selected: seq<nat>, available: seq<nat>, prng: int, n: nat)
    requires 0 < n <= |available|
    ensures var idx := Pick(gen(prng), |available|);
            && |Without(available, idx)| == |available| - 1
            && selected + Draw(gen, available, prng, n)
                 == (selected + [available[idx]]) + Draw(gen, Without(available, idx), gen(prng), n - 1)
  {
    hide Pick;
  }

  lemma EmptyPrefix(s: seq<nat>)
    ensures [] + s == s
  {}

  lemma DrawNone(gen: Generator, selected: seq<nat>, available: seq<nat>, prng: int)
    ensures selected + Draw(gen, available, prng, 0) == selected
  {}

  // ----- shape of a sample -----------------------------------------------------------------

  ghost predicate Distinct(s: seq<nat>) {
    forall i, j :: 0 <= i < j < |s| ==> s[i] != s[j]
  }

  ghost predicate Increasing(s: seq<nat>) {
    forall i, j :: 0 <= i < j < |s| ==> s[i] < s[j]
  }

  ghost predicate Ordered(s: seq<nat>) {
    forall i, j :: 0 <= i < j < |s| ==> s[i] <= s[j]
  }

  lemma {:induction false} DrawShape(gen: Generator, available: seq<nat>, prng: int, n: nat)
    requires n <= |available| && Distinct(available)
    ensures var d := Draw(gen, available, prng, n);
            && |d| == n && Distinct(d) && forall x :: x in d ==> x in available
  {
    if n > 0 {
      var p := gen(prng);
      var idx := Pick(p, |available|);
      var rest := Without(available, idx);
      assert forall i :: 0 <= i < |rest| ==> rest[i] == available[if i < idx then i else i + 1];
      DrawShape(gen, rest, p, n - 1);
      assert available[idx] !in rest;
    }
  }

  lemma {:induction false} InsertCounts(x: nat, s: seq<nat>)
    ensures multiset(Insert(x, s)) == multiset(s) + multiset{x}
  {
    if s != [] && x > s[0] {
      InsertCounts(x, s[1..]);
      assert s == [s[0]] + s[1..];
    }
  }

  lemma {:induction false} InsertOrdered(x: nat, s: seq<nat>)
    requires Ordered(s)
    ensures Ordered(Insert(x, s))
  {
    if s != [] && x > s[0] {
      InsertOrdered(x, s[1..]);
      InsertCounts(x, s[1..]);
      var t := Insert(x, s[1..]);
      forall j | 0 <= j < |t| ensures s[0] <= t[j] {
        assert t[j] in multiset(t);
        assert t[j] == x || t[j] in s[1..];
      }
    } else {
      assert forall j :: 0 <= j < |s| ==> s[0] <= s[j];
    }
  }

  lemma {:induction false} SortedShape(s: seq<nat>)
    ensures Ordered(Sorted(s)) && multiset(Sorted(s)) == multiset(s)
  {
    if s != [] {
      SortedShape(s[1..]);
      InsertOrdered(s[0], Sorted(s[1..]));
      InsertCounts(s[0], Sorted(s[1..]));
      assert s == [s[0]] + s[1..];
    }
  }

  lemma {:induction false} DistinctCount(s: seq<nat>, x: nat)
    ensures Distinct(s) ==> multiset(s)[x] <= 1
  {
    if s != [] {
      DistinctCount(s[1..], x);
      assert s == [s[0]] + s[1..];
      if Distinct(s) && s[0] == x { assert x !in s[1..]; assert x !in multiset(s[1..]); }
    }
  }

  lemma TwiceCounts(s: seq<nat>, i: nat, j: nat)
    requires i < j < |s|
    ensures s[i] == s[j] ==> multiset(s)[s[i]] >= 2
  {
    assert s == s[..j] + s[j..];
    assert s[i] in s[..j] && s[j] in s[j..];
  }

  lemma SortedDistinct(s: seq<nat>)
    requires Distinct(s)
    ensures Increasing(Sorted(s)) && |Sorted(s)| == |s| && forall x :: x in Sorted(s) <==> x in s
  {
    SortedShape(s);
    var t := Sorted(s);
    assert |multiset(t)| == |t| && |multiset(s)| == |s|;
    forall x ensures x in t <==> x in s { assert x in multiset(t) <==> x in multiset(s); }
    forall i, j | 0 <= i < j < |t| ensures t[i] < t[j] {
      DistinctCount(s, t[i]);
      TwiceCounts(t, i, j);
    }
  }

  /** For every seed and every k, a sample is exactly `degree` increasing block numbers below k. */
  lemma SampleShape(seed: int, k: int)
    requires k >= 1
    ensures var (degree, indices) := Sample(seed, k);
            && 1 <= degree <= k && |indices| == degree
            && Increasing(indices) && forall x :: x in indices ==> x < k
  {
    if k > 1 && seed >= k {
      var p := Xorshift32(seed);
      var degree := Degree(RawProb(p), k);
      DrawShape(Xorshift32, Numbers(k), p, degree);
      SortedDistinct(Draw(Xorshift32, Numbers(k), p, degree));
    }
  }

  // ----- the two samplers ------------------------------------------------------------------

  lemma {:induction false} DrawSame(available: seq<nat>, prng: int, n: nat)
    requires n <= |available|
    ensures Draw(Xorshift32, available, prng, n) == Draw(JsXorshift32, available, prng, n)
    decreases n
  {
    hide Xorshift32, JsXorshift32, Pick;
    if n > 0 {
      DartEqualsJs(prng);
      var p := Xorshift32(prng);
      DrawSame(Without(available, Pick(p, |available|)), p, n - 1);
    }
  }

  lemma DegreesDiffer(r: real, k: int)
    requires k > 1
    ensures Degree(r, k) == DegreeTs(r, k) <==> k <= 5 || !(0.93 <= r < 0.97)
    ensures 1 <= Degree(r, k) <= k && 1 <= DegreeTs(r, k) <= k
  {}

  /**
   Where the twins agree. Below k the Dart remainder is never negative and the JavaScript one takes the
   sign of the seed; from k on, the tables differ in one row.
   */
  predicate SameSample(seed: int, k: int) {
    || k <= 1
    || 0 <= seed < k
    || (seed < 0 && seed % k == 0)
    || (seed >= k && (k <= 5 || !(0.93 <= RawProb(Xorshift32(seed)) < 0.97)))
  }

  lemma RemaindersAgree(seed: int, k: int)
    requires k > 0
    ensures JsRemainder(seed, k) == seed % k <==> seed >= 0 || seed % k == 0
  {
    if seed < 0 {
      NegativeRemainder(seed, k);
    }
  }

  lemma NegativeRemainder(seed: int, k: int)
    requires seed < 0 < k
    ensures JsRemainder(seed, k) <= 0
    ensures JsRemainder(seed, k) == 0 <==> seed % k == 0
  {
    var q, r := seed / k, seed % k;
    assert -seed == k * -q - r;
    if r == 0 {
      Quotient(-seed, k, -q, 0);
    } else {
      assert k * -q - r == k * (-q - 1) + (k - r);
      Quotient(-seed, k, -q - 1, k - r);
    }
  }

  lemma Quotient(n: int, k: int, q: int, r: int)
    requires n == k * q + r && 0 <= r < k
    ensures n % k == r
  {
    var d := n / k - q;
    assert n == k * (n / k) + n % k;
    assert k * d == r - n % k;
    Multiple(k, d);
  }

  lemma Multiple(k: int, d: int)
    requires k > 0
    ensures d >= 1 ==> k * d >= k
    ensures d <= -1 ==> k * d <= -k
  {}

  /** The twins agree exactly there. */
  lemma TwinSamplers(seed: int, k: int)
    ensures Sample(seed, k) == SampleTs(seed, k) <==> SameSample(seed, k)
  {
    if k > 1 && seed < k {
      RemaindersAgree(seed, k);
      assert Sample(seed, k).1[0] == seed % k && SampleTs(seed, k).1[0] == JsRemainder(seed, k);
    }
    if k > 1 && seed >= k {
      hide Xorshift32, JsXorshift32, RawProb, Degree, DegreeTs;
      DartEqualsJs(seed);
      var p := Xorshift32(seed);
      DegreesDiffer(RawProb(p), k);
      DrawSame(Numbers(k), p, Degree(RawProb(p), k));
    }
  }

  /** A negative seed on which they differ: the script samples the block number -1. */
  lemma TwinsDifferBelowZero()
    ensures Sample(-1, 3) == (1, [2]) && SampleTs(-1, 3) == (1, [-1])
  {}

  /**
   For every seed from 0, the script's sample is `degree` block numbers below k; where it differs from the
   app's, it is all of them.
   */
  lemma SampleTsShape(seed: nat, k: nat)
    requires k >= 1
    ensures var (degree, indices) := SampleTs(seed, k);
            && 1 <= degree <= k && |indices| == degree
            && forall x :: x in indices ==> 0 <= x < k
    ensures seed < k ==> SampleTs(seed, k).1 == [seed]
    ensures !SameSample(seed, k) ==> forall x: int :: 0 <= x < k ==> x in SampleTs(seed, k).1
  {
    hide Xorshift32, JsXorshift32, RawProb, Degree, DegreeTs, Draw, Sorted, Increasing;
    if k > 1 && seed >= k {
      DartEqualsJs(seed);
      var p := JsXorshift32(seed);
      DegreesDiffer(RawProb(p), k);
      if RawProb(p) >= 0.93 { FullDegree(RawProb(p), k); }
      DrawnShape(p, k, DegreeTs(RawProb(p), k));
    } else if k > 1 {
      SmallSeed(seed, k);
    }
  }

  lemma FullDegree(r: real, k: int)
    requires k > 1 && r >= 0.93
    ensures DegreeTs(r, k) == k
  {}

  lemma DrawnShape(p: int, k: nat, degree: nat)
    requires degree <= k
    ensures var indices := Sorted(Draw(JsXorshift32, Numbers(k), p, degree));
            && |indices| == degree && (forall x :: x in indices ==> x < k)
            && (degree == k ==> forall x: int :: 0 <= x < k ==> x in indices)
  {
    hide Draw, Sorted, JsXorshift32;
    DrawShape(JsXorshift32, Numbers(k), p, degree);
    var drawn := Draw(JsXorshift32, Numbers(k), p, degree);
    SortedDistinct(drawn);
    if degree == k { AllDrawn(Sorted(drawn), k); }
  }

  lemma SmallSeed(seed: nat, k: nat)
    requires seed < k
    ensures seed % k == seed
  {}

  /** k increasing numbers below k are all of them. */
  lemma AllDrawn(s: seq<nat>, k: nat)
    requires |s| == k && Increasing(s) && forall x :: x in s ==> x < k
    ensures forall x: int :: 0 <= x < k ==> x in s
  {
    forall x: int | 0 <= x < k ensures x in s {
      AtOwnPlace(s, k, x);
      assert s[x] == x;
    }
  }

  lemma AtOwnPlace(s: seq<nat>, k: nat, i: nat)
    requires |s| == k && i < k && Increasing(s) && forall x :: x in s ==> x < k
    ensures s[i] == i
  {
    AtLeast(s, i);
    AtMost(s, k, i);
  }

  lemma {:induction false} AtLeast(s: seq<nat>, i: nat)
    requires i < |s| && Increasing(s)
    ensures s[i] >= i
  {
    if i > 0 { AtLeast(s, i - 1); }
  }

  lemma {:induction false} AtMost(s: seq<nat>, k: nat, i: nat)
    requires |s| == k && i < k && Increasing(s) && forall x :: x in s ==> x < k
    ensures s[i] <= i
    decreases k - i
  {
    if i + 1 < k {
      AtMost(s, k, i + 1);
    } else {
      assert s[i] in s;
    }
  }

  // ----- three samples, evaluated ------------------------------------------------------------

  lemma StartAt(s: int)
    requires Low32(s) != 0
    ensures Start(s) == Low32(s)
  {}

  /** One step of the generator, read off its bits. */
  lemma NextState(s: nat, a: bv32, b: bv32, t: nat)
    requires a != 0 && Low32(s) == a && Mix(a) == b && Int(b) == t
    ensures Xorshift32(s) == t && Low32(t) == b
  {
    hide Low32, Mix, Int, Xorshift32;
    DartEqualsJs(s);
    Low32RoundTrip(b);
    StartAt(s);
  }

  /** A sample of two blocks out of four, from three successive states of the generator. */
  lemma TwoOfFour(seed: nat, p: nat, q: nat, r: nat, i: nat, j: nat)
    requires seed >= 4 && Xorshift32(seed) == p && Xorshift32(p) == q && Xorshift32(q) == r
    requires 0.40 <= RawProb(p) < 0.70
    requires q % 4 == i && r % 3 == j
    ensures Sample(seed, 4) == (2, Sorted([i, Without(Numbers(4), i)[j]]))
  {
    hide Xorshift32, Sorted;
    var four := Numbers(4);
    var rest := Without(four, i);
    assert Degree(RawProb(p), 4) == 2;
    assert Draw(Xorshift32, Without(rest, j), r, 0) == [];
    assert Draw(Xorshift32, rest, q, 1) == [rest[j]] + Draw(Xorshift32, Without(rest, j), r, 0);
    assert Draw(Xorshift32, four, p, 2) == [four[i]] + Draw(Xorshift32, rest, q, 1);
    assert Draw(Xorshift32, four, p, 2) == [i, rest[j]];
  }

  /** Of four blocks, seed 4 names 0 and 2, seed 29 names 1 and 2, and seed 5 names 1 and 3. */
  lemma SamplesOfFour()
    ensures Sample(4, 4) == (2, [0, 2])
    ensures Sample(29, 4) == (2, [1, 2])
    ensures Sample(5, 4) == (2, [1, 3])
  {
    hide Xorshift32, Low32, Mix, Int;
    Literals();
    NextState(4, 0x4, 0x10_8084, 0x10_8084);
    NextState(0x10_8084, 0x10_8084, 0x1001_1804, 0x1001_1804);
    NextState(0x1001_1804, 0x1001_1804, 0x5331_b104, 0x5331_b104);
    TwoOfFour(4, 0x10_8084, 0x1001_1804, 0x5331_b104, 0, 1);
    NextState(29, 0x1d, 0x77_a39c, 0x77_a39c);
    NextState(0x77_a39c, 0x77_a39c, 0x748f_6a5e, 0x748f_6a5e);
    NextState(0x748f_6a5e, 0x748f_6a5e, 0xa158_313c, 0xa158_313c);
    TwoOfFour(29, 0x77_a39c, 0x748f_6a5e, 0xa158_313c, 2, 1);
    NextState(5, 0x5, 0x14_a0a5, 0x14_a0a5);
    NextState(0x14_a0a5, 0x14_a0a5, 0x1409_1e05, 0x1409_1e05);
    NextState(0x1409_1e05, 0x1409_1e05, 0xcefd_19c1, 0xcefd_19c1);
    TwoOfFour(5, 0x14_a0a5, 0x1409_1e05, 0xcefd_19c1, 1, 2);
    SortedPairs();
  }

  lemma SortedPairs()
    ensures Sorted([0, Without(Numbers(4), 0)[1]]) == [0, 2]
    ensures Sorted([2, Without(Numbers(4), 2)[1]]) == [1, 2]
    ensures Sorted([1, Without(Numbers(4), 1)[2]]) == [1, 3]
  {
    hide Sorted;
    SortTwo(0, 2);
    SortTwo(2, 1);
    SortTwo(1, 3);
  }

  lemma SortTwo(a: nat, b: nat)
    ensures Sorted([a, b]) == if a <= b then [a, b] else [b, a]
  {
    assert [a, b][1..] == [b] && [b][1..] == [];
    assert Sorted([b]) == [b];
    assert Insert(a, [b]) == if a <= b then [a] + [b] else [b] + Insert(a, [b][1..]);
    assert Insert(a, []) == [a];
  }

  lemma Literals()
    ensures Low32(4) == 0x4 && Low32(29) == 0x1d && Low32(5) == 0x5
    ensures Mix(0x4) == 0x10_8084 && Mix(0x10_8084) == 0x1001_1804 && Mix(0x1001_1804) == 0x5331_b104
    ensures Mix(0x1d) == 0x77_a39c && Mix(0x77_a39c) == 0x748f_6a5e && Mix(0x748f_6a5e) == 0xa158_313c
    ensures Mix(0x5) == 0x14_a0a5 && Mix(0x14_a0a5) == 0x1409_1e05 && Mix(0x1409_1e05) == 0xcefd_19c1
    ensures Int(0x10_8084) == 0x10_8084 && Int(0x1001_1804) == 0x1001_1804 && Int(0x5331_b104) == 0x5331_b104
    ensures Int(0x77_a39c) == 0x77_a39c && Int(0x748f_6a5e) == 0x748f_6a5e && Int(0xa158_313c) == 0xa158_313c
    ensures Int(0x14_a0a5) == 0x14_a0a5 && Int(0x1409_1e05) == 0x1409_1e05 && Int(0xcefd_19c1) == 0xcefd_19c1
  {}
}

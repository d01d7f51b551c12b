/**
 The peeling elimination at the heart of the fountain decoder, on values: XOR equations
 over numbered blocks, one sweep of a solved block over the pending equations, and the
 cascade of sweeps. The class in FountainDecoder.dfy is proved to compute these functions.
 */
module Peeling {
  import opened Blocks

  /** "The XOR of the blocks numbered by `indices` is `data`." */
  datatype Equation = Equation(indices: set<nat>, data: Block)

  /** A block that a sweep isolated. */
  datatype Found = Found(index: nat, data: Block)

  datatype Last = Nothing | Carried(found: Found)

  // ----- meaning ---------------------------------------------------------------------

  ghost predicate Holds(s: map<nat, Block>, e: Equation, n: nat) {
    && Sized(s, n) && e.indices <= s.Keys && |e.data| == n
    && e.data == XorAll(s, e.indices, n)
  }

  ghost predicate Agrees(s: map<nat, Block>, solved: map<nat, Block>) {
    forall i :: i in solved ==> i in s && s[i] == solved[i]
  }

  /** `s` is a possible assignment of source blocks, as far as the decoder knows. */
  ghost predicate Satisfies(s: map<nat, Block>, solved: map<nat, Block>, pending: seq<Equation>, n: nat) {
    && Sized(s, n)
    && Agrees(s, solved)
    && forall e :: e in pending ==> Holds(s, e, n)
  }

  /** Every pending equation still mixes at least two blocks of length `n`. */
  ghost predicate Wide(pending: seq<Equation>, n: nat) {
    forall e :: e in pending ==> |e.indices| >= 2 && |e.data| == n
  }

  // ----- one sweep -------------------------------------------------------------------

  ghost function The(I: set<nat>): (i: nat)
    requires |I| == 1
    ensures I == {i}
  {
    var i :| i in I;
    assert |I - {i}| == 0;
    assert I == {i};
    i
  }

  ghost function PeelOne(e: Equation, x: nat, d: Block): Equation {
    if x in e.indices then Equation(e.indices - {x}, Xor(e.data, d)) else e
  }

  /** The equations that stay pending after `x` is peeled from all of them, in order. */
  ghost function Kept(ps: seq<Equation>, x: nat, d: Block): seq<Equation> {
    if ps == [] then [] else
      var e := PeelOne(ps[0], x, d);
      (if |e.indices| >= 2 then [e] else []) + Kept(ps[1..], x, d)
  }

  /** The blocks the sweep isolates; the sweep runs from the last equation to the first. */
  ghost function Singles(ps: seq<Equation>, x: nat, d: Block): seq<Found> {
    if ps == [] then [] else
      var e := PeelOne(ps[0], x, d);
      Singles(ps[1..], x, d) + (if |e.indices| == 1 then [Found(The(e.indices), e.data)] else [])
  }

  /** Records the isolated blocks that are new; the last new one is carried on. */
  ghost function Absorb(solved: map<nat, Block>, fs: seq<Found>): (r: (map<nat, Block>, Last)) {
    if fs == [] then (solved, Nothing) else
      var (known, last) := Absorb(solved, fs[..|fs| - 1]);
      var f := fs[|fs| - 1];
      if f.index in known then (known, last) else (known[f.index := f.data], Carried(f))
  }

  lemma {:induction false} KeptShrinks(ps: seq<Equation>, x: nat, d: Block)
    ensures |Kept(ps, x, d)| + |Singles(ps, x, d)| <= |ps|
  {
    if ps != [] { KeptShrinks(ps[1..], x, d); }
  }

  lemma {:induction false} AbsorbFacts(solved: map<nat, Block>, fs: seq<Found>)
    ensures var (known, last) := Absorb(solved, fs);
            && (forall i :: i in solved ==> i in known && known[i] == solved[i])
            && (last.Nothing? ==> known == solved)
            && (last.Carried? ==> last.found in fs && last.found.index in known
                                  && known[last.found.index] == last.found.data)
            && (forall f :: f in fs ==> f.index in known)
            && (forall i :: i in known ==> i in solved || exists f :: f in fs && f.index == i && f.data == known[i])
  {
    if fs != [] {
      AbsorbFacts(solved, fs[..|fs| - 1]);
      assert fs == fs[..|fs| - 1] + [fs[|fs| - 1]];
    }
  }

  // ----- the cascade -----------------------------------------------------------------

  /** Sweeps until a pass isolates nothing new. Only the last new block of a pass is swept next. */
  ghost function Cascade(solved: map<nat, Block>, ps: seq<Equation>, x: nat, d: Block)
    : (r: (map<nat, Block>, seq<Equation>))
    decreases |ps|
  {
    var (known, last) := Absorb(solved, Singles(ps, x, d));
    KeptShrinks(ps, x, d);
    AbsorbFacts(solved, Singles(ps, x, d));
    match last
    case Nothing => (known, Kept(ps, x, d))
    case Carried(f) => Cascade(known, Kept(ps, x, d), f.index, f.data)
  }

  lemma CascadeUnfold(solved: map<nat, Block>, ps: seq<Equation>, x: nat, d: Block)
    ensures var (known, last) := Absorb(solved, Singles(ps, x, d));
            Cascade(solved, ps, x, d) ==
              if last.Nothing? then (known, Kept(ps, x, d))
              else Cascade(known, Kept(ps, x, d), last.found.index, last.found.data)
  {}

  lemma CascadeStops(solved: map<nat, Block>, ps: seq<Equation>, x: nat, d: Block)
    requires Singles(ps, x, d) == []
    ensures Cascade(solved, ps, x, d) == (solved, Kept(ps, x, d))
  {}

  ghost function SolveBlock(solved: map<nat, Block>, ps: seq<Equation>, x: nat, d: Block)
    : (r: (map<nat, Block>, seq<Equation>))
  {
    if x in solved then (solved, ps) else Cascade(solved[x := d], ps, x, d)
  }

  // ----- a sweep keeps the meaning -----------------------------------------------------

  lemma PeelOneMeaning(s: map<nat, Block>, e: Equation, x: nat, n: nat)
    requires Sized(s, n) && x in s && |e.data| == n
    ensures Holds(s, e, n) <==> Holds(s, PeelOne(e, x, s[x]), n)
  {
    if x in e.indices && e.indices <= s.Keys {
      XorAllRemove(s, e.indices, x, n);
      XorCancel(XorAll(s, e.indices - {x}, n), s[x]);
      XorCancel(e.data, s[x]);
    }
  }

  lemma SingleMeaning(s: map<nat, Block>, e: Equation, n: nat)
    requires Sized(s, n) && |e.indices| == 1 && |e.data| == n
    ensures Holds(s, e, n) <==> The(e.indices) in s && s[The(e.indices)] == e.data
  {
    var i := The(e.indices);
    if i in s {
      XorAllRemove(s, e.indices, i, n);
      assert e.indices - {i} == {};
      XorZero(s[i]);
    }
  }

  ghost predicate AgreesFound(s: map<nat, Block>, fs: seq<Found>) {
    forall f :: f in fs ==> f.index in s && s[f.index] == f.data
  }

  ghost predicate AllHold(s: map<nat, Block>, ps: seq<Equation>, n: nat) {
    forall e :: e in ps ==> Holds(s, e, n)
  }

  lemma AllHoldSplit(s: map<nat, Block>, a: seq<Equation>, b: seq<Equation>, n: nat)
    ensures AllHold(s, a + b, n) <==> AllHold(s, a, n) && AllHold(s, b, n)
  {
    if AllHold(s, a + b, n) {
      assert forall e :: e in a ==> e in a + b;
      assert forall e :: e in b ==> e in a + b;
    }
  }

  lemma AgreesFoundSplit(s: map<nat, Block>, a: seq<Found>, b: seq<Found>)
    ensures AgreesFound(s, a + b) <==> AgreesFound(s, a) && AgreesFound(s, b)
  {
    if AgreesFound(s, a + b) {
      assert forall f :: f in a ==> f in a + b;
      assert forall f :: f in b ==> f in a + b;
    }
  }

  lemma HeadMeaning(s: map<nat, Block>, p: Equation, x: nat, d: Block, n: nat)
    requires Sized(s, n) && x in s && s[x] == d && |p.indices| >= 2 && |p.data| == n
    ensures var e := PeelOne(p, x, d);
            && |e.indices| >= 1 && |e.data| == n
            && (|e.indices| >= 2 ==> (Holds(s, p, n) <==> Holds(s, e, n)))
            && (|e.indices| == 1 ==> (Holds(s, p, n) <==> AgreesFound(s, [Found(The(e.indices), e.data)])))
  {
    var e := PeelOne(p, x, d);
    PeelOneMeaning(s, p, x, n);
    if x in p.indices { assert |p.indices - {x}| == |p.indices| - 1; }
    if |e.indices| == 1 {
      SingleMeaning(s, e, n);
      assert Found(The(e.indices), e.data) in [Found(The(e.indices), e.data)];
    }
  }

  lemma AllHoldCons(s: map<nat, Block>, e: Equation, ps: seq<Equation>, n: nat)
    ensures AllHold(s, [e] + ps, n) <==> Holds(s, e, n) && AllHold(s, ps, n)
  {
    AllHoldSplit(s, [e], ps, n);
    assert e in [e];
  }

  lemma {:induction false} SweepMeaning(s: map<nat, Block>, ps: seq<Equation>, x: nat, d: Block, n: nat)
    requires Sized(s, n) && x in s && s[x] == d && Wide(ps, n)
    ensures AllHold(s, ps, n) <==> AllHold(s, Kept(ps, x, d), n) && AgreesFound(s, Singles(ps, x, d))
    ensures Wide(Kept(ps, x, d), n)
  {
    hide PeelOne, Holds, Sized, AllHold, AgreesFound, The;
    if ps == [] {
      NothingToHold(s, n);
    } else {
      var p, e := ps[0], PeelOne(ps[0], x, d);
      assert p in ps;
      WideRest(ps, n);
      SweepMeaning(s, ps[1..], x, d, n);
      HeadMeaning(s, p, x, d, n);
      AllHoldCons(s, p, ps[1..], n);
      assert ps == [p] + ps[1..];
      AllHoldCons(s, e, Kept(ps[1..], x, d), n);
      AgreesFoundSplit(s, Singles(ps[1..], x, d), [Found(if |e.indices| == 1 then The(e.indices) else 0, e.data)]);
      assert [] + Kept(ps[1..], x, d) == Kept(ps[1..], x, d);
      assert Singles(ps[1..], x, d) + [] == Singles(ps[1..], x, d);
    }
  }

  lemma NothingToHold(s: map<nat, Block>, n: nat)
    ensures AllHold(s, [], n) && AgreesFound(s, [])
  {}

  lemma WideRest(ps: seq<Equation>, n: nat)
    requires Wide(ps, n) && ps != []
    ensures Wide(ps[1..], n)
  {}

  /** Recording isolated blocks loses nothing: repeated ones repeat what `t` says. */
  lemma AbsorbMeaning(t: map<nat, Block>, s: map<nat, Block>, solved: map<nat, Block>, fs: seq<Found>)
    requires Agrees(t, solved) && AgreesFound(t, fs)
    ensures Agrees(t, Absorb(solved, fs).0)
    ensures Agrees(s, solved) && AgreesFound(s, fs) <==> Agrees(s, Absorb(solved, fs).0)
  {
    AbsorbFacts(solved, fs);
    var known := Absorb(solved, fs).0;
    if Agrees(s, known) {
      forall f | f in fs ensures f.index in s && s[f.index] == f.data {
        assert known[f.index] == t[f.index] == f.data;
      }
    }
  }

  /**
   The cascade keeps the meaning exactly: an assignment fits the decoder's knowledge before
   it if and only if it fits after, whenever the knowledge is consistent (some `t` fits).
   */
  lemma {:induction false} CascadeMeaning(t: map<nat, Block>, s: map<nat, Block>, solved: map<nat, Block>,
                                          ps: seq<Equation>, x: nat, d: Block, n: nat)
    requires Satisfies(t, solved, ps, n) && Sized(s, n) && Wide(ps, n)
    requires x in solved && solved[x] == d
    ensures var (solved', ps') := Cascade(solved, ps, x, d);
            && Satisfies(t, solved', ps', n)
            && (Satisfies(s, solved, ps, n) <==> Satisfies(s, solved', ps', n))
            && Wide(ps', n)
    decreases |ps|
  {
    var fs, kept := Singles(ps, x, d), Kept(ps, x, d);
    var (known, last) := Absorb(solved, fs);
    AbsorbFacts(solved, fs);
    KeptShrinks(ps, x, d);
    assert AllHold(t, ps, n);
    SweepMeaning(t, ps, x, d, n);
    AbsorbMeaning(t, s, solved, fs);
    if x in s && s[x] == d { SweepMeaning(s, ps, x, d, n); }
    assert Satisfies(s, solved, ps, n) <==> Agrees(s, solved) && AllHold(s, ps, n);
    assert Satisfies(s, known, kept, n) <==> Agrees(s, known) && AllHold(s, kept, n);
    assert Satisfies(t, known, kept, n);
    if last.Carried? {
      CascadeMeaning(t, s, known, kept, last.found.index, last.found.data, n);
    }
  }

  // ----- what the cascade never undoes -------------------------------------------------

  lemma {:induction false} CascadeKeepsSolved(solved: map<nat, Block>, ps: seq<Equation>, x: nat, d: Block)
    ensures forall i :: i in solved ==> i in Cascade(solved, ps, x, d).0 && Cascade(solved, ps, x, d).0[i] == solved[i]
    decreases |ps|
  {
    var fs := Singles(ps, x, d);
    var (known, last) := Absorb(solved, fs);
    AbsorbFacts(solved, fs);
    KeptShrinks(ps, x, d);
    if last.Carried? {
      CascadeKeepsSolved(known, Kept(ps, x, d), last.found.index, last.found.data);
    }
  }
}

/**
 Ripple closure of the script's cascade. A pass goes on with each block as soon as it solves it, so an equation may
 miss the block that the pass began with, and later ones.
 */
module TwinRipple {
  import opened Blocks
  import opened Peeling
  import opened TwinDecoding
  import Ripple

  // ----- what each equation meets ----------------------------------------------------------------------

  /** Where a pass stands after it has come to an equation. */
  ghost function After(solved: map<nat, Block>, e: Equation, x: nat, d: Block): (map<nat, Block>, nat, Block) {
    var p := PeelOne(e, x, d);
    if |p.indices| == 1 && The(p.indices) !in solved then (solved[The(p.indices) := p.data], The(p.indices), p.data)
    else (solved, x, d)
  }

  /** The block that each equation is peeled of in a pass, which goes from the last to the first. */
  ghost function MetInPass(solved: map<nat, Block>, ps: seq<Equation>, x: nat, d: Block): (m: seq<nat>)
    ensures |m| == |ps|
    decreases |ps|
  {
    if ps == [] then []
    else
      var n := |ps| - 1;
      var (s, y, b) := After(solved, ps[n], x, d);
      MetInPass(s, ps[..n], y, b) + [x]
  }

  /** What the equations name. */
  ghost function NamesOf(ps: seq<Equation>): (I: seq<set<nat>>)
    ensures |I| == |ps|
  {
    seq(|ps|, k requires 0 <= k < |ps| => ps[k].indices)
  }

  /** What is left of the names of each equation, where that is two or more. */
  ghost function Wider(I: seq<set<nat>>, M: seq<set<nat>>): seq<set<nat>>
    requires |I| == |M|
  {
    if I == [] then []
    else
      var n := |I| - 1;
      var w := Wider(I[..n], M[..n]);
      if |I[n] - M[n]| >= 2 then w + [I[n] - M[n]] else w
  }

  ghost function Alone(m: seq<nat>): (M: seq<set<nat>>)
    ensures |M| == |m|
  {
    seq(|m|, k requires 0 <= k < |m| => {m[k]})
  }

  ghost function Nothings(n: nat): (M: seq<set<nat>>)
    ensures |M| == n
  {
    seq(n, _ => {})
  }

  /** What the equations meet in a pass, and those that it keeps meet later. */
  ghost function Together(I: seq<set<nat>>, M: seq<set<nat>>, later: seq<set<nat>>): (all: seq<set<nat>>)
    requires |I| == |M| && |later| == |Wider(I, M)|
    ensures |all| == |I|
  {
    if I == [] then []
    else
      var n := |I| - 1;
      if |I[n] - M[n]| >= 2 then Together(I[..n], M[..n], later[..|later| - 1]) + [M[n] + later[|later| - 1]]
      else Together(I[..n], M[..n], later) + [M[n]]
  }

  // ----- one pass ----------------------------------------------------------------------------------------

  lemma NamesLast(ps: seq<Equation>, e: Equation)
    ensures NamesOf(ps + [e]) == NamesOf(ps) + [e.indices]
  {}

  lemma AloneLast(m: seq<nat>, x: nat)
    ensures Alone(m + [x]) == Alone(m) + [{x}]
  {}

  lemma WiderLast(I: seq<set<nat>>, M: seq<set<nat>>, J: set<nat>, L: set<nat>)
    requires |I| == |M|
    ensures Wider(I + [J], M + [L]) == if |J - L| >= 2 then Wider(I, M) + [J - L] else Wider(I, M)
  {
    assert (I + [J])[..|I|] == I && (M + [L])[..|M|] == M;
  }

  lemma PeelOneNames(e: Equation, x: nat, d: Block)
    ensures PeelOne(e, x, d).indices == e.indices - {x}
  {}

  /** What a pass keeps is what the equations name without the block that each met, where that is two or more. */
  lemma {:induction false} PassNames(solved: map<nat, Block>, ps: seq<Equation>, x: nat, d: Block)
    ensures NamesOf(Sweep(solved, ps, x, d).pending) == Wider(NamesOf(ps), Alone(MetInPass(solved, ps, x, d)))
    decreases |ps|
  {
    hide Wider, Alone, NamesOf, PeelOne;
    if ps == [] {
      NoNames();
    } else {
      var n := |ps| - 1;
      var front, e := ps[..n], PeelOne(ps[n], x, d);
      var (s, y, b) := After(solved, ps[n], x, d);
      PassNames(s, front, y, b);
      PeelOneNames(ps[n], x, d);
      assert ps == front + [ps[n]];
      NamesLast(front, ps[n]);
      var m := MetInPass(s, front, y, b);
      AloneLast(m, x);
      WiderLast(NamesOf(front), Alone(m), ps[n].indices, {x});
      NamesLast(Sweep(s, front, y, b).pending, e);
    }
  }

  lemma NoNames()
    ensures NamesOf([]) == [] && Alone([]) == [] && Wider([], []) == []
  {}

  // ----- the cascade -------------------------------------------------------------------------------------

  /** The blocks that each equation is peeled of while it lasts. */
  ghost function Met(solved: map<nat, Block>, ps: seq<Equation>, x: nat, d: Block): (M: seq<set<nat>>)
    ensures |M| == |ps|
    decreases |ps|
  {
    var r, m := Sweep(solved, ps, x, d), Alone(MetInPass(solved, ps, x, d));
    SweepShrinks(solved, ps, x, d);
    PassNames(solved, ps, x, d);
    var later := if r.progress then Met(r.solved, r.pending, r.x, r.d) else Nothings(|r.pending|);
    Together(NamesOf(ps), m, later)
  }

  /** The blocks that passes solve. */
  ghost function Newly(solved: map<nat, Block>, ps: seq<Equation>, x: nat, d: Block): set<nat>
    decreases |ps|
  {
    var r := Sweep(solved, ps, x, d);
    SweepShrinks(solved, ps, x, d);
    r.solved.Keys - solved.Keys + if r.progress then Newly(r.solved, r.pending, r.x, r.d) else {}
  }

  lemma TogetherLast(I: seq<set<nat>>, M: seq<set<nat>>, later: seq<set<nat>>, J: set<nat>, L: set<nat>, x: set<nat>)
    requires |I| == |M| && |later| == |Wider(I, M)|
    ensures |J - L| >= 2 ==>
              |later + [x]| == |Wider(I + [J], M + [L])|
              && Together(I + [J], M + [L], later + [x]) == Together(I, M, later) + [L + x]
    ensures |J - L| < 2 ==>
              |later| == |Wider(I + [J], M + [L])|
              && Together(I + [J], M + [L], later) == Together(I, M, later) + [L]
  {
    WiderLast(I, M, J, L);
    hide Wider;
    assert (I + [J])[..|I|] == I && (M + [L])[..|M|] == M && (later + [x])[..|later|] == later;
  }

  /** Sifting once for what was met in a pass and then later is sifting for both together. */
  lemma {:induction false} WiderTwice(I: seq<set<nat>>, M: seq<set<nat>>, later: seq<set<nat>>)
    requires |I| == |M| && |later| == |Wider(I, M)|
    ensures Wider(I, Together(I, M, later)) == Wider(Wider(I, M), later)
  {
    if I == [] {
      assert M == [] && later == [];
    } else {
      hide Wider, Together;
      var n := |I| - 1;
      var i, m, J, L := I[..n], M[..n], I[n], M[n];
      assert I == i + [J] && M == m + [L];
      WiderLast(i, m, J, L);
      if |J - L| >= 2 {
        var k := |later| - 1;
        var early, x := later[..k], later[k];
        assert later == early + [x];
        WiderTwice(i, m, early);
        TogetherLast(i, m, early, J, L, x);
        assert J - (L + x) == J - L - x;
        WiderLast(Wider(i, m), early, J - L, x);
        WiderLast(i, Together(i, m, early), J, L + x);
      } else {
        WiderTwice(i, m, later);
        TogetherLast(i, m, later, J, L, {});
        WiderLast(i, Together(i, m, later), J, L);
      }
    }
  }

  lemma {:induction false} WiderWide(I: seq<set<nat>>, M: seq<set<nat>>, J: set<nat>)
    requires |I| == |M| && J in Wider(I, M)
    ensures |J| >= 2
  {
    var n := |I| - 1;
    if J in Wider(I[..n], M[..n]) { WiderWide(I[..n], M[..n], J); }
  }

  lemma MoreNothings(n: nat)
    ensures Nothings(n + 1) == Nothings(n) + [{}]
  {}

  lemma {:induction false} WiderNothing(I: seq<set<nat>>)
    requires forall J :: J in I ==> |J| >= 2
    ensures Wider(I, Nothings(|I|)) == I
  {
    if I == [] {
      NoNames();
      assert Nothings(0) == [];
    } else {
      hide Wider, Nothings;
      var n := |I| - 1;
      var i, J := I[..n], I[n];
      WiderNothing(i);
      MoreNothings(n);
      assert I == i + [J] && J in I && J - {} == J;
      WiderLast(i, Nothings(n), J, {});
    }
  }

  /** What the cascade leaves is what the equations name without the blocks that each met, where that is two or more. */
  lemma {:induction false} CascadeNames(solved: map<nat, Block>, ps: seq<Equation>, x: nat, d: Block)
    ensures NamesOf(TwinDecoding.Cascade(solved, ps, x, d).1) == Wider(NamesOf(ps), Met(solved, ps, x, d))
    decreases |ps|
  {
    hide Sweep, MetInPass, Alone, Wider, Together, NamesOf;
    var r, m := Sweep(solved, ps, x, d), Alone(MetInPass(solved, ps, x, d));
    SweepShrinks(solved, ps, x, d);
    PassNames(solved, ps, x, d);
    if r.progress {
      CascadeNames(r.solved, r.pending, r.x, r.d);
      WiderTwice(NamesOf(ps), m, Met(r.solved, r.pending, r.x, r.d));
    } else {
      forall J | J in NamesOf(r.pending) ensures |J| >= 2 { WiderWide(NamesOf(ps), m, J); }
      WiderNothing(NamesOf(r.pending));
      WiderTwice(NamesOf(ps), m, Nothings(|r.pending|));
    }
  }

  lemma {:induction false} CascadeKeys(solved: map<nat, Block>, ps: seq<Equation>, x: nat, d: Block)
    ensures TwinDecoding.Cascade(solved, ps, x, d).0.Keys == solved.Keys + Newly(solved, ps, x, d)
    decreases |ps|
  {
    hide Sweep;
    var r := Sweep(solved, ps, x, d);
    SweepShrinks(solved, ps, x, d);
    SweepKeepsSolved(solved, ps, x, d);
    if r.progress { CascadeKeys(r.solved, r.pending, r.x, r.d); }
  }

  lemma {:induction false} WiderMembers(I: seq<set<nat>>, M: seq<set<nat>>, J: set<nat>)
    requires |I| == |M|
    ensures J in Wider(I, M) <==> exists k :: 0 <= k < |I| && |I[k] - M[k]| >= 2 && J == I[k] - M[k]
  {
    if I != [] {
      var n := |I| - 1;
      WiderMembers(I[..n], M[..n], J);
      if exists k :: 0 <= k < |I| && |I[k] - M[k]| >= 2 && J == I[k] - M[k] {
        var k :| 0 <= k < |I| && |I[k] - M[k]| >= 2 && J == I[k] - M[k];
        if k < n { assert I[..n][k] == I[k] && M[..n][k] == M[k]; }
      }
      if J in Wider(I[..n], M[..n]) {
        var k :| 0 <= k < n && |I[..n][k] - M[..n][k]| >= 2 && J == I[..n][k] - M[..n][k];
        assert I[k] == I[..n][k] && M[k] == M[..n][k];
      }
    }
  }

  /**
   Solving a block in a closed state leaves the script's decoder closed exactly when every equation that names two
   blocks it did not meet met all the blocks it names that the cascade solved.
   */
  lemma TwinClosure(solved: map<nat, Block>, ps: seq<Equation>, x: nat, d: Block)
    requires Ripple.Closed(solved, ps) && x !in solved
    ensures var (solved', ps') := TwinDecoding.SolveBlock(solved, ps, x, d);
            var M, new' := Met(solved[x := d], ps, x, d), {x} + Newly(solved[x := d], ps, x, d);
            Ripple.Closed(solved', ps') <==>
            forall k :: 0 <= k < |ps| && |ps[k].indices - M[k]| >= 2 ==> ps[k].indices * new' <= M[k]
  {
    hide TwinDecoding.Cascade, Met, Newly;
    var s := solved[x := d];
    var (solved', ps') := TwinDecoding.SolveBlock(solved, ps, x, d);
    var M, new' := Met(s, ps, x, d), {x} + Newly(s, ps, x, d);
    CascadeNames(s, ps, x, d);
    CascadeKeys(s, ps, x, d);
    assert solved'.Keys == solved.Keys + new';
    if Ripple.Closed(solved', ps') {
      forall k | 0 <= k < |ps| && |ps[k].indices - M[k]| >= 2 ensures ps[k].indices * new' <= M[k] {
        var J := ps[k].indices - M[k];
        assert NamesOf(ps)[k] == ps[k].indices;
        WiderMembers(NamesOf(ps), M, J);
        var i :| 0 <= i < |ps'| && NamesOf(ps')[i] == J;
        assert ps'[i] in ps';
      }
    }
    if forall k :: 0 <= k < |ps| && |ps[k].indices - M[k]| >= 2 ==> ps[k].indices * new' <= M[k] {
      forall e | e in ps' ensures e.indices !! solved'.Keys {
        var i :| 0 <= i < |ps'| && ps'[i] == e;
        assert NamesOf(ps')[i] == e.indices;
        WiderMembers(NamesOf(ps), M, e.indices);
        var k :| 0 <= k < |ps| && |NamesOf(ps)[k] - M[k]| >= 2 && e.indices == NamesOf(ps)[k] - M[k];
        assert NamesOf(ps)[k] == ps[k].indices && ps[k] in ps;
      }
    }
  }
}

/**
 The second implementation of the decoder (the TypeScript simulation): its cascade. A sweep switches to each
 newly solved block at once, in the middle of a pass, where the app's finishes the pass first.
 */
module TwinDecoding {
  import opened Blocks
  import opened Peeling
  import D = Decoding

  /** The outcome of one pass: the block it ends with, and whether it solved any. */
  datatype Pass = Pass(solved: map<nat, Block>, pending: seq<Equation>, x: nat, d: Block, progress: bool)

  /** One pass over the pending equations, from the last to the first. */
  ghost function Sweep(solved: map<nat, Block>, ps: seq<Equation>, x: nat, d: Block): Pass
    decreases |ps|
  {
    if ps == [] then Pass(solved, [], x, d, false)
    else
      var front, e := ps[..|ps| - 1], PeelOne(ps[|ps| - 1], x, d);
      if e.indices == {} then Sweep(solved, front, x, d)
      else if |e.indices| == 1 then
        var i := The(e.indices);
        if i in solved then Sweep(solved, front, x, d)
        else Sweep(solved[i := e.data], front, i, e.data).(progress := true)
      else
        var r := Sweep(solved, front, x, d);
        r.(pending := r.pending + [e])
  }

  lemma {:induction false} SweepShrinks(solved: map<nat, Block>, ps: seq<Equation>, x: nat, d: Block)
    ensures var r := Sweep(solved, ps, x, d);
            |r.pending| <= |ps| && (r.progress ==> |r.pending| < |ps|)
    decreases |ps|
  {
    if ps != [] {
      var front, e := ps[..|ps| - 1], PeelOne(ps[|ps| - 1], x, d);
      if |e.indices| == 1 && The(e.indices) !in solved {
        SweepShrinks(solved[The(e.indices) := e.data], front, The(e.indices), e.data);
      } else {
        SweepShrinks(solved, front, x, d);
      }
    }
  }

  /** Passes until one solves nothing. */
  ghost function Cascade(solved: map<nat, Block>, ps: seq<Equation>, x: nat, d: Block): (map<nat, Block>, seq<Equation>)
    decreases |ps|
  {
    var r := Sweep(solved, ps, x, d);
    SweepShrinks(solved, ps, x, d);
    if r.progress then Cascade(r.solved, r.pending, r.x, r.d) else (r.solved, r.pending)
  }

  ghost function SolveBlock(solved: map<nat, Block>, ps: seq<Equation>, x: nat, d: Block)
    : (map<nat, Block>, seq<Equation>)
  {
    if x in solved then (solved, ps) else Cascade(solved[x := d], ps, x, d)
  }

  ghost function Learn(solved: map<nat, Block>, pending: seq<Equation>, e: Equation): (map<nat, Block>, seq<Equation>) {
    if e.indices == {} then (solved, pending)
    else if |e.indices| == 1 then SolveBlock(solved, pending, The(e.indices), e.data)
    else (solved, pending + [e])
  }

  /** The simulation's loop, splicing the list of equations while going through it backwards. */
  method SolveBlockLoop(solved: map<nat, Block>, pending: seq<Equation>, blockIndex: nat, blockData: Block)
      returns (solvedBlocks: map<nat, Block>, pendingEquations: seq<Equation>)
    ensures (solvedBlocks, pendingEquations) == SolveBlock(solved, pending, blockIndex, blockData)
  {
    hide Sweep, PeelOne;
    solvedBlocks, pendingEquations := solved, pending;
    if blockIndex in solvedBlocks { return; }
    solvedBlocks := solvedBlocks[blockIndex := blockData];
    var idx, data, progress := blockIndex, blockData, true;
    while progress
      invariant SolveBlock(solved, pending, blockIndex, blockData)
             == (if progress then Cascade(solvedBlocks, pendingEquations, idx, data)
                 else (solvedBlocks, pendingEquations))
      decreases |pendingEquations|, progress
    {
      SweepShrinks(solvedBlocks, pendingEquations, idx, data);
      solvedBlocks, pendingEquations, idx, data, progress := OnePass(solvedBlocks, pendingEquations, idx, data);
    }
  }

  method OnePass(solved: map<nat, Block>, pending: seq<Equation>, x: nat, d: Block)
      returns (solvedBlocks: map<nat, Block>, pendingEquations: seq<Equation>, idx: nat, data: Block, progress: bool)
    ensures Pass(solvedBlocks, pendingEquations, idx, data, progress) == Sweep(solved, pending, x, d)
  {
    hide Sweep, PeelOne;
    solvedBlocks, pendingEquations, idx, data, progress := solved, pending, x, d, false;
    var i := |pending|;
    ghost var tail: seq<Equation> := [];
    assert pending[..i] == pending;
    ghost var whole := Sweep(solved, pending, x, d);
    while i > 0
      invariant 0 <= i <= |pending| && pendingEquations == pending[..i] + tail
      invariant Extended(Sweep(solvedBlocks, pending[..i], idx, data), tail, progress) == whole
    {
      i := i - 1;
      ghost var eq0 := pending[i];
      SpliceAt(pending, i, tail);
      SweepStep(solvedBlocks, pending[..i], eq0, idx, data);
      var eq := Peel(pendingEquations[i], idx, data);
      if eq.indices == {} {
        pendingEquations := pendingEquations[..i] + pendingEquations[i + 1..];
      } else if |eq.indices| == 1 {
        var newIdx :| newIdx in eq.indices;
        assert newIdx == The(eq.indices);
        pendingEquations := pendingEquations[..i] + pendingEquations[i + 1..];
        if newIdx !in solvedBlocks {
          solvedBlocks := solvedBlocks[newIdx := eq.data];
          idx, data, progress := newIdx, eq.data, true;
        }
      } else {
        SpliceIn(pending, i, tail, eq);
        pendingEquations := pendingEquations[i := eq];
        KeptInFront(Sweep(solvedBlocks, pending[..i], idx, data), eq, tail, progress);
        tail := [eq] + tail;
      }
    }
    SweepNothing(solvedBlocks, idx, data);
    assert pending[..0] == [];
  }

  method Peel(e: Equation, x: nat, d: Block) returns (p: Equation)
    ensures p == PeelOne(e, x, d)
  {
    p := if x in e.indices then Equation(e.indices - {x}, Xor(e.data, d)) else e;
  }

  lemma SpliceAt(pending: seq<Equation>, i: nat, tail: seq<Equation>)
    requires i < |pending|
    ensures var ps := pending[..i + 1] + tail;
            ps[i] == pending[i] && ps[..i] + ps[i + 1..] == pending[..i] + tail
    ensures pending[..i + 1] == pending[..i] + [pending[i]]
  {}

  lemma SpliceIn(pending: seq<Equation>, i: nat, tail: seq<Equation>, e: Equation)
    requires i < |pending|
    ensures (pending[..i + 1] + tail)[i := e] == pending[..i] + ([e] + tail)
  {}

  lemma KeptInFront(r: Pass, e: Equation, tail: seq<Equation>, progress: bool)
    ensures Extended(r.(pending := r.pending + [e]), tail, progress) == Extended(r, [e] + tail, progress)
  {
    assert (r.pending + [e]) + tail == r.pending + ([e] + tail);
  }

  /** A pass over a prefix, put in front of what the pass has already left. */
  ghost function Extended(r: Pass, tail: seq<Equation>, progress: bool): Pass {
    r.(pending := r.pending + tail, progress := r.progress || progress)
  }

  lemma SweepNothing(solved: map<nat, Block>, x: nat, d: Block)
    ensures Sweep(solved, [], x, d) == Pass(solved, [], x, d, false)
  {}

  lemma SweepStep(solved: map<nat, Block>, front: seq<Equation>, p: Equation, x: nat, d: Block)
    ensures var e := PeelOne(p, x, d);
            && (e.indices == {} ==> Sweep(solved, front + [p], x, d) == Sweep(solved, front, x, d))
            && (|e.indices| == 1 ==>
                  Sweep(solved, front + [p], x, d) ==
                    if The(e.indices) in solved then Sweep(solved, front, x, d)
                    else Sweep(solved[The(e.indices) := e.data], front, The(e.indices), e.data).(progress := true))
            && (|e.indices| >= 2 ==>
                  Sweep(solved, front + [p], x, d) ==
                    Sweep(solved, front, x, d).(pending := Sweep(solved, front, x, d).pending + [e]))
  {
    var ps := front + [p];
    assert ps[..|ps| - 1] == front && ps[|ps| - 1] == p;
  }

  // ----- meaning -------------------------------------------------------------------------------------------

  lemma LastMeaning(s: map<nat, Block>, solved: map<nat, Block>, ps: seq<Equation>, n: nat)
    requires ps != []
    ensures Satisfies(s, solved, ps, n) <==> Satisfies(s, solved, ps[..|ps| - 1], n) && Holds(s, ps[|ps| - 1], n)
  {
    D.SatisfiesAppend(s, solved, ps[..|ps| - 1], ps[|ps| - 1], n);
    assert ps[..|ps| - 1] + [ps[|ps| - 1]] == ps;
  }

  /** A peeled equation says what the equation said, to whoever has the block; a single one gives its block. */
  lemma PeeledMeaning(s: map<nat, Block>, p: Equation, x: nat, d: Block, n: nat)
    requires Sized(s, n) && x in s && s[x] == d && |p.indices| >= 2 && |p.data| == n
    ensures var e := PeelOne(p, x, d);
            && |e.indices| >= 1 && |e.data| == n
            && (|e.indices| >= 2 ==> (Holds(s, p, n) <==> Holds(s, e, n)))
            && (|e.indices| == 1 ==> (Holds(s, p, n) <==> The(e.indices) in s && s[The(e.indices)] == e.data))
  {
    HeadMeaning(s, p, x, d, n);
    var e := PeelOne(p, x, d);
    if |e.indices| == 1 { OneFound(s, Found(The(e.indices), e.data)); }
  }

  lemma OneFound(s: map<nat, Block>, f: Found)
    ensures AgreesFound(s, [f]) <==> f.index in s && s[f.index] == f.data
  {
    assert f in [f];
  }

  lemma HasBlock(s: map<nat, Block>, solved: map<nat, Block>, ps: seq<Equation>, x: nat, n: nat)
    requires Satisfies(s, solved, ps, n) && x in solved
    ensures x in s && s[x] == solved[x]
  {}

  lemma WideLast(ps: seq<Equation>, n: nat)
    requires Wide(ps, n) && ps != []
    ensures Wide(ps[..|ps| - 1], n) && |ps[|ps| - 1].indices| >= 2 && |ps[|ps| - 1].data| == n
  {
    assert ps[|ps| - 1] in ps;
  }

  lemma WideAppend(ps: seq<Equation>, e: Equation, n: nat)
    requires Wide(ps, n) && |e.indices| >= 2 && |e.data| == n
    ensures Wide(ps + [e], n)
  {}

  /** What a pass leaves, for an assignment `s`, and for one `t` that fits what is known. */
  ghost predicate Same(t: map<nat, Block>, s: map<nat, Block>, solved: map<nat, Block>, ps: seq<Equation>,
                       solved': map<nat, Block>, ps': seq<Equation>, n: nat)
  {
    && Satisfies(t, solved', ps', n) && Wide(ps', n)
    && (Satisfies(s, solved, ps, n) <==> Satisfies(s, solved', ps', n))
    && forall i :: i in solved ==> i in solved' && solved'[i] == solved[i]
  }

  lemma {:induction false} SweepMeaning(t: map<nat, Block>, s: map<nat, Block>, solved: map<nat, Block>,
                                        ps: seq<Equation>, x: nat, d: Block, n: nat)
    requires Satisfies(t, solved, ps, n) && Sized(s, n) && Wide(ps, n) && x in solved && solved[x] == d
    ensures var r := Sweep(solved, ps, x, d);
            Same(t, s, solved, ps, r.solved, r.pending, n) && r.x in r.solved && r.solved[r.x] == r.d
    decreases |ps|
  {
    hide Satisfies, Holds, Wide, PeelOne;
    if ps == [] {
      SweepNothing(solved, x, d);
    } else {
      var p, front := ps[|ps| - 1], ps[..|ps| - 1];
      var e := PeelOne(p, x, d);
      LastMeaning(t, solved, ps, n);
      LastMeaning(s, solved, ps, n);
      WideLast(ps, n);
      HasBlock(t, solved, ps, x, n);
      SatisfiesSized(t, solved, ps, n);
      PeeledMeaning(t, p, x, d, n);
      if Satisfies(s, solved, front, n) {
        HasBlock(s, solved, front, x, n);
        PeeledMeaning(s, p, x, d, n);
      }
      SweepStep(solved, front, p, x, d);
      assert front + [p] == ps;
      if |e.indices| >= 2 {
        SweepMeaning(t, s, solved, front, x, d, n);
        var r := Sweep(solved, front, x, d);
        if Satisfies(s, r.solved, r.pending, n) { HasBlock(s, r.solved, r.pending, x, n); }
        D.SatisfiesAppend(t, r.solved, r.pending, e, n);
        D.SatisfiesAppend(s, r.solved, r.pending, e, n);
        WideAppend(r.pending, e, n);
      } else if The(e.indices) in solved {
        HasBlock(t, solved, ps, The(e.indices), n);
        if Satisfies(s, solved, front, n) { HasBlock(s, solved, front, The(e.indices), n); }
        SweepMeaning(t, s, solved, front, x, d, n);
      } else {
        var i := The(e.indices);
        D.SatisfiesInsert(t, solved, front, i, e.data, n);
        D.SatisfiesInsert(s, solved, front, i, e.data, n);
        SweepMeaning(t, s, solved[i := e.data], front, i, e.data, n);
      }
    }
  }

  lemma SatisfiesSized(s: map<nat, Block>, solved: map<nat, Block>, ps: seq<Equation>, n: nat)
    requires Satisfies(s, solved, ps, n)
    ensures Sized(s, n)
  {}

  /** The twin's cascade keeps the meaning exactly, as the app's does. */
  lemma {:induction false} CascadeMeaning(t: map<nat, Block>, s: map<nat, Block>, solved: map<nat, Block>,
                                          ps: seq<Equation>, x: nat, d: Block, n: nat)
    requires Satisfies(t, solved, ps, n) && Sized(s, n) && Wide(ps, n) && x in solved && solved[x] == d
    ensures var (solved', ps') := Cascade(solved, ps, x, d); Same(t, s, solved, ps, solved', ps', n)
    decreases |ps|
  {
    hide Satisfies, Wide, Sweep;
    var r := Sweep(solved, ps, x, d);
    SweepShrinks(solved, ps, x, d);
    SweepMeaning(t, s, solved, ps, x, d, n);
    if r.progress { CascadeMeaning(t, s, r.solved, r.pending, r.x, r.d, n); }
  }

  lemma LearnMeaning(t: map<nat, Block>, s: map<nat, Block>, solved: map<nat, Block>, ps: seq<Equation>, e: Equation,
                     n: nat)
    requires Satisfies(t, solved, ps, n) && Sized(s, n) && Wide(ps, n) && |e.data| == n
    requires e.indices !! solved.Keys && Holds(t, e, n)
    ensures var (solved', ps') := Learn(solved, ps, e);
            && Satisfies(t, solved', ps', n) && Wide(ps', n)
            && (Satisfies(s, solved', ps', n) <==> Satisfies(s, solved, ps, n) && Holds(s, e, n))
            && (forall i :: i in solved ==> i in solved')
            && (|e.indices| == 1 ==> The(e.indices) in solved')
  {
    hide Satisfies, Holds, Wide, Cascade;
    if e.indices == {} {
      D.EmptyHolds(s, t, e, n);
    } else if |e.indices| == 1 {
      var x := The(e.indices);
      assert x in e.indices;
      SatisfiesSized(t, solved, ps, n);
      SingleMeaning(t, e, n);
      SingleMeaning(s, e, n);
      D.SatisfiesInsert(t, solved, ps, x, e.data, n);
      D.SatisfiesInsert(s, solved, ps, x, e.data, n);
      CascadeMeaning(t, s, solved[x := e.data], ps, x, e.data, n);
    } else {
      assert |e.indices| >= 2;
      D.SatisfiesAppend(s, solved, ps, e, n);
      D.SatisfiesAppend(t, solved, ps, e, n);
      WideAppend(ps, e, n);
    }
  }

  // ----- what the cascade never undoes ---------------------------------------------------------------------

  lemma {:induction false} SweepKeepsSolved(solved: map<nat, Block>, ps: seq<Equation>, x: nat, d: Block)
    ensures forall i :: i in solved
              ==> i in Sweep(solved, ps, x, d).solved && Sweep(solved, ps, x, d).solved[i] == solved[i]
    decreases |ps|
  {
    if ps != [] {
      var front, e := ps[..|ps| - 1], PeelOne(ps[|ps| - 1], x, d);
      if |e.indices| == 1 && The(e.indices) !in solved {
        SweepKeepsSolved(solved[The(e.indices) := e.data], front, The(e.indices), e.data);
      } else {
        SweepKeepsSolved(solved, front, x, d);
      }
    }
  }

  /** Whatever the equations say, a solved block stays as it is. */
  lemma {:induction false} CascadeKeepsSolved(solved: map<nat, Block>, ps: seq<Equation>, x: nat, d: Block)
    ensures var solved' := Cascade(solved, ps, x, d).0;
            forall i :: i in solved ==> i in solved' && solved'[i] == solved[i]
    decreases |ps|
  {
    hide Sweep;
    var r := Sweep(solved, ps, x, d);
    SweepShrinks(solved, ps, x, d);
    SweepKeepsSolved(solved, ps, x, d);
    if r.progress { CascadeKeepsSolved(r.solved, r.pending, r.x, r.d); }
  }
}

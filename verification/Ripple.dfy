/**
 Ripple closure: whether the pending equations still name blocks that are solved. A pass of the app's
 cascade may solve several blocks and carries on only the last, so they sometimes do.
 */
module Ripple {
  import opened Blocks
  import opened Peeling
  import opened Stream
  import Checksums
  import Sampling
  import D = Decoding

  /** No pending equation names a solved block. */
  ghost predicate Closed(solved: map<nat, Block>, ps: seq<Equation>) {
    forall e :: e in ps ==> e.indices !! solved.Keys
  }

  /** The blocks that passes sweep: the one solved first, then the last new one of each pass. */
  ghost function Swept(solved: map<nat, Block>, ps: seq<Equation>, x: nat, d: Block): set<nat>
    decreases |ps|
  {
    var (known, last) := Absorb(solved, Singles(ps, x, d));
    KeptShrinks(ps, x, d);
    AbsorbFacts(solved, Singles(ps, x, d));
    match last
    case Nothing => {x}
    case Carried(f) => {x} + Swept(known, Kept(ps, x, d), f.index, f.data)
  }

  /** The blocks that passes solve but never sweep. */
  ghost function Dropped(solved: map<nat, Block>, ps: seq<Equation>, x: nat, d: Block): set<nat>
    decreases |ps|
  {
    var (known, last) := Absorb(solved, Singles(ps, x, d));
    KeptShrinks(ps, x, d);
    AbsorbFacts(solved, Singles(ps, x, d));
    match last
    case Nothing => {}
    case Carried(f) =>
      known.Keys - solved.Keys - {f.index} + Dropped(known, Kept(ps, x, d), f.index, f.data)
  }

  // ----- what a cascade leaves, by block numbers alone -----------------------------------------

  /** Some equation has exactly these block numbers. */
  ghost predicate Names(ps: seq<Equation>, I: set<nat>) {
    exists e :: e in ps && e.indices == I
  }

  lemma NamesHere(ps: seq<Equation>, e: Equation)
    requires e in ps
    ensures Names(ps, e.indices)
  {}

  lemma {:induction false} KeptComesFrom(ps: seq<Equation>, x: nat, d: Block, e: Equation)
    requires e in Kept(ps, x, d)
    ensures |e.indices| >= 2 && exists p :: p in ps && e.indices == p.indices - {x}
  {
    var p := PeelOne(ps[0], x, d);
    if |p.indices| >= 2 && e == p {
      assert ps[0] in ps && e.indices == ps[0].indices - {x};
    } else {
      KeptComesFrom(ps[1..], x, d, e);
    }
  }

  lemma {:induction false} WideIsKept(ps: seq<Equation>, x: nat, d: Block, p: Equation)
    requires p in ps && |p.indices - {x}| >= 2
    ensures Names(Kept(ps, x, d), p.indices - {x})
  {
    var e := PeelOne(ps[0], x, d);
    if p == ps[0] {
      assert e.indices == p.indices - {x};
      NamesHere(Kept(ps, x, d), e);
    } else {
      assert p in ps[1..];
      WideIsKept(ps[1..], x, d, p);
      var q :| q in Kept(ps[1..], x, d) && q.indices == p.indices - {x};
      assert q in Kept(ps, x, d);
    }
  }

  /** What stays pending: the equations that name at least two blocks that were not swept, without the swept ones. */
  lemma {:induction false} CascadeComesFrom(solved: map<nat, Block>, ps: seq<Equation>, x: nat, d: Block, e: Equation)
    requires e in Cascade(solved, ps, x, d).1
    ensures |e.indices| >= 2 && exists p :: p in ps && e.indices == p.indices - Swept(solved, ps, x, d)
    decreases |ps|
  {
    var kept := Kept(ps, x, d);
    var (known, last) := Absorb(solved, Singles(ps, x, d));
    KeptShrinks(ps, x, d);
    if last.Nothing? {
      KeptComesFrom(ps, x, d, e);
    } else {
      var rest := Swept(known, kept, last.found.index, last.found.data);
      CascadeComesFrom(known, kept, last.found.index, last.found.data, e);
      var q :| q in kept && e.indices == q.indices - rest;
      KeptComesFrom(ps, x, d, q);
      var p :| p in ps && q.indices == p.indices - {x};
      assert e.indices == p.indices - ({x} + rest);
    }
  }

  lemma {:induction false} WideSurvives(solved: map<nat, Block>, ps: seq<Equation>, x: nat, d: Block, p: Equation)
    requires p in ps && |p.indices - Swept(solved, ps, x, d)| >= 2
    ensures Names(Cascade(solved, ps, x, d).1, p.indices - Swept(solved, ps, x, d))
    decreases |ps|
  {
    var kept := Kept(ps, x, d);
    var (known, last) := Absorb(solved, Singles(ps, x, d));
    KeptShrinks(ps, x, d);
    if last.Nothing? {
      WideIsKept(ps, x, d, p);
    } else {
      var rest := Swept(known, kept, last.found.index, last.found.data);
      assert p.indices - ({x} + rest) == (p.indices - {x}) - rest;
      MoreIsMore(p.indices - {x}, rest);
      WideIsKept(ps, x, d, p);
      var q :| q in kept && q.indices == p.indices - {x};
      WideSurvives(known, kept, last.found.index, last.found.data, q);
    }
  }

  lemma MoreIsMore(A: set<nat>, B: set<nat>)
    ensures |A - B| <= |A|
  {
    assert A == (A - B) + (A * B);
  }

  /** A cascade solves what it sweeps and what it drops, and nothing else; no block is both. */
  lemma {:induction false} CascadeSolves(solved: map<nat, Block>, ps: seq<Equation>, x: nat, d: Block)
    requires x in solved
    ensures var swept, dropped := Swept(solved, ps, x, d), Dropped(solved, ps, x, d);
            && Cascade(solved, ps, x, d).0.Keys == solved.Keys + swept + dropped
            && x in swept && swept - {x} !! solved.Keys && dropped !! solved.Keys && dropped !! swept
    decreases |ps|
  {
    var kept := Kept(ps, x, d);
    var (known, last) := Absorb(solved, Singles(ps, x, d));
    KeptShrinks(ps, x, d);
    AbsorbFacts(solved, Singles(ps, x, d));
    if last.Carried? {
      var f := last.found;
      CarriedIsNew(solved, Singles(ps, x, d));
      CascadeSolves(known, kept, f.index, f.data);
      var rest, lost := Swept(known, kept, f.index, f.data), Dropped(known, kept, f.index, f.data);
      assert solved.Keys <= known.Keys;
      hide Absorb, Singles, Kept, Cascade;
      JoinSets(solved.Keys, known.Keys, x, f.index, rest, lost);
    }
  }

  lemma JoinSets(S: set<nat>, T: set<nat>, x: nat, y: nat, rest: set<nat>, lost: set<nat>)
    requires S <= T && x in S && y in T && y !in S
    requires y in rest && rest - {y} !! T && lost !! T && lost !! rest
    ensures var swept, dropped := {x} + rest, T - S - {y} + lost;
            && T + rest + lost == S + swept + dropped
            && swept - {x} !! S && dropped !! S && dropped !! swept
  {}

  lemma {:induction false} CarriedIsNew(solved: map<nat, Block>, fs: seq<Found>)
    ensures var (known, last) := Absorb(solved, fs); last.Carried? ==> last.found.index !in solved
  {
    if fs != [] {
      AbsorbFacts(solved, fs[..|fs| - 1]);
      CarriedIsNew(solved, fs[..|fs| - 1]);
    }
  }

  /**
   Solving a block in a closed state leaves it closed exactly when no equation that names at least two
   unswept blocks names a dropped one; in particular whenever no pass solves two blocks.
   */
  lemma RippleClosure(solved: map<nat, Block>, ps: seq<Equation>, x: nat, d: Block)
    requires Closed(solved, ps) && x !in solved
    ensures var (solved', ps') := SolveBlock(solved, ps, x, d);
            var swept, dropped := Swept(solved[x := d], ps, x, d), Dropped(solved[x := d], ps, x, d);
            && (Closed(solved', ps') <==> forall p :: p in ps && |p.indices - swept| >= 2 ==> p.indices !! dropped)
            && (dropped == {} ==> Closed(solved', ps'))
  {
    var solved1 := solved[x := d];
    var (solved', ps') := SolveBlock(solved, ps, x, d);
    var swept, dropped := Swept(solved1, ps, x, d), Dropped(solved1, ps, x, d);
    hide Cascade, Swept, Dropped;
    CascadeSolves(solved1, ps, x, d);
    forall e | e in ps'
      ensures exists p :: p in ps && |p.indices - swept| >= 2 && e.indices == p.indices - swept
    {
      CascadeComesFrom(solved1, ps, x, d, e);
    }
    if Closed(solved', ps') {
      forall p | p in ps && |p.indices - swept| >= 2 ensures p.indices !! dropped {
        WideSurvives(solved1, ps, x, d, p);
        var e :| e in ps' && e.indices == p.indices - swept;
        assert e.indices !! solved'.Keys;
      }
    }
    if forall p :: p in ps && |p.indices - swept| >= 2 ==> p.indices !! dropped {
      forall e | e in ps' ensures e.indices !! solved'.Keys {
        var p :| p in ps && |p.indices - swept| >= 2 && e.indices == p.indices - swept;
        assert p.indices !! solved.Keys;
      }
    }
  }

  // ----- whole runs ------------------------------------------------------------------------------

  /** Pending equations name no solved blocks other than those in `X`. */
  ghost predicate NamesOnly(solved: map<nat, Block>, ps: seq<Equation>, X: set<nat>) {
    forall e :: e in ps ==> e.indices * solved.Keys <= X
  }

  /** The blocks that one packet makes the decoder drop. */
  ghost function StepDropped(d: D.Decoder, p: FountainPacket): set<nat>
    requires D.Fits(d, p)
  {
    if !D.Accepts(d, p) then {}
    else
      var e := D.Reduce(D.EquationOf(p), d.solved);
      if |e.indices| == 1 then Dropped(d.solved[The(e.indices) := e.data], d.pending, The(e.indices), e.data) else {}
  }

  /** The blocks dropped in a run. */
  ghost function RunDropped(d: D.Decoder, ps: seq<FountainPacket>): set<nat>
    requires D.AllFit(d, ps)
    decreases |ps|
  {
    if ps == [] then {} else StepDropped(d, ps[0]) + RunDropped(D.AddPacket(d, ps[0]).0, ps[1..])
  }

  lemma SolveNamesOnly(solved: map<nat, Block>, ps: seq<Equation>, x: nat, d: Block, X: set<nat>)
    requires NamesOnly(solved, ps, X) && x !in solved
    ensures var (solved', ps') := SolveBlock(solved, ps, x, d);
            NamesOnly(solved', ps', X + Dropped(solved[x := d], ps, x, d))
  {
    var solved1 := solved[x := d];
    var (solved', ps') := SolveBlock(solved, ps, x, d);
    var swept, dropped := Swept(solved1, ps, x, d), Dropped(solved1, ps, x, d);
    hide Cascade, Swept, Dropped;
    CascadeSolves(solved1, ps, x, d);
    forall e | e in ps' ensures e.indices * solved'.Keys <= X + dropped {
      CascadeComesFrom(solved1, ps, x, d, e);
      var p :| p in ps && e.indices == p.indices - swept;
      assert p.indices * solved.Keys <= X;
      forall i | i in e.indices * solved'.Keys ensures i in X + dropped {
        if i in solved { assert i in p.indices * solved.Keys; }
      }
    }
  }

  lemma ReducedNamesNone(e: Equation, solved: map<nat, Block>)
    requires Sized(solved, |e.data|)
    ensures D.Reduce(e, solved).indices !! solved.Keys
  {}

  lemma LearnNamesOnly(solved: map<nat, Block>, ps: seq<Equation>, e: Equation, X: set<nat>)
    requires NamesOnly(solved, ps, X) && e.indices !! solved.Keys
    ensures var (solved', ps') := D.Learn(solved, ps, e);
            var dropped :=
              if |e.indices| == 1 then Dropped(solved[The(e.indices) := e.data], ps, The(e.indices), e.data) else {};
            NamesOnly(solved', ps', X + dropped)
  {
    hide SolveBlock, Dropped;
    if |e.indices| == 1 {
      assert The(e.indices) in e.indices;
      SolveNamesOnly(solved, ps, The(e.indices), e.data, X);
    }
  }

  /** What an accepted packet does to the solved blocks and the pending equations. */
  lemma StepLearns(d: D.Decoder, p: FountainPacket)
    requires D.Accepts(d, p) && D.Fits(d, p)
    ensures var d' := D.AddPacket(d, p).0;
            (d'.solved, d'.pending) == D.Learn(d.solved, d.pending, D.Reduce(D.EquationOf(p), d.solved))
  {
    hide D.AddPacket, D.Reduce, D.EquationOf, D.Learn, D.CheckCompletion;
    PacketData(p);
    AcceptedFits(d, p);
    var e := D.Reduce(D.EquationOf(p), d.solved);
    D.TakenIn(d, p);
    D.LearnNothing(d.solved, d.pending, e);
    var (solved, pending) := D.Learn(d.solved, d.pending, e);
    CheckKeeps(D.Noted(d, p).(solved := solved, pending := pending));
  }

  lemma CheckKeeps(d: D.Decoder)
    requires d.lock.Locked?
    ensures var d' := D.CheckCompletion(d).0; d'.solved == d.solved && d'.pending == d.pending
  {
    hide Concat, D.AllSolved, Checksums.Lower, Checksums.OfPayload;
  }

  lemma TurnedAwayKeeps(d: D.Decoder, p: FountainPacket)
    requires !D.Accepts(d, p)
    ensures var d' := D.AddPacket(d, p).0; d'.solved == d.solved && d'.pending == d.pending
  {
    hide D.AddPacket;
    D.TurnedAway(d, p);
  }

  lemma StepNamesOnly(d: D.Decoder, p: FountainPacket, X: set<nat>)
    requires D.Fits(d, p) && NamesOnly(d.solved, d.pending, X)
    ensures var d' := D.AddPacket(d, p).0; NamesOnly(d'.solved, d'.pending, X + StepDropped(d, p))
  {
    hide D.AddPacket, D.Reduce, D.EquationOf, D.Learn, Dropped, The, NamesOnly, D.Accepts;
    if D.Accepts(d, p) {
      PacketData(p);
      AcceptedFits(d, p);
      var e := D.Reduce(D.EquationOf(p), d.solved);
      ReducedNamesNone(D.EquationOf(p), d.solved);
      LearnNamesOnly(d.solved, d.pending, e, X);
      StepLearns(d, p);
    } else {
      TurnedAwayKeeps(d, p);
      assert X + {} == X;
    }
  }

  lemma AcceptedFits(d: D.Decoder, p: FountainPacket)
    requires D.Accepts(d, p) && D.Fits(d, p)
    ensures Sized(d.solved, |p.data|)
  {}

  lemma PacketData(p: FountainPacket)
    ensures D.EquationOf(p).data == p.data
  {}

  /** Over a run, pending equations name no solved blocks other than dropped ones. */
  lemma {:induction false} RunNamesOnly(d: D.Decoder, ps: seq<FountainPacket>, X: set<nat>)
    requires D.AllFit(d, ps) && NamesOnly(d.solved, d.pending, X)
    ensures var d' := D.Feed(d, ps).decoder; NamesOnly(d'.solved, d'.pending, X + RunDropped(d, ps))
    decreases |ps|
  {
    hide D.AddPacket, StepDropped, NamesOnly, D.Fits;
    if ps == [] {
      assert X + {} == X;
    } else {
      StepNamesOnly(d, ps[0], X);
      var d' := D.AddPacket(d, ps[0]).0;
      var first, rest := StepDropped(d, ps[0]), RunDropped(d', ps[1..]);
      RunNamesOnly(d', ps[1..], X + first);
      assert (X + first) + rest == X + (first + rest);
    }
  }

  lemma {:induction false} PrefixDropped(d: D.Decoder, ps: seq<FountainPacket>, n: nat)
    requires D.AllFit(d, ps) && n <= |ps|
    ensures D.AllFit(d, ps[..n]) && RunDropped(d, ps[..n]) <= RunDropped(d, ps)
    decreases |ps|
  {
    hide D.AddPacket, StepDropped, D.Fits;
    if n > 0 {
      PrefixDropped(D.AddPacket(d, ps[0]).0, ps[1..], n - 1);
      assert ps[..n][1..] == ps[1..][..n - 1];
    }
  }

  /** A run in which no step drops a block is closed after every packet. */
  lemma RunClosed(ps: seq<FountainPacket>, n: nat)
    requires D.AllFit(D.Fresh(), ps) && n <= |ps| && RunDropped(D.Fresh(), ps) == {}
    ensures D.AllFit(D.Fresh(), ps[..n])
    ensures var d := D.Feed(D.Fresh(), ps[..n]).decoder; Closed(d.solved, d.pending)
  {
    hide D.Feed, RunDropped, D.AllFit;
    PrefixDropped(D.Fresh(), ps, n);
    RunNamesOnly(D.Fresh(), ps[..n], {});
    assert {} + RunDropped(D.Fresh(), ps[..n]) == {};
    var d := D.Feed(D.Fresh(), ps[..n]).decoder;
    NamesNothing(d.solved, d.pending);
  }

  lemma NamesNothing(solved: map<nat, Block>, ps: seq<Equation>)
    requires NamesOnly(solved, ps, {})
    ensures Closed(solved, ps)
  {
    forall e | e in ps ensures e.indices !! solved.Keys {
      assert e.indices * solved.Keys == {};
      assert forall i :: i in e.indices && i in solved.Keys ==> i in e.indices * solved.Keys;
    }
  }

  // ----- closure does fail ---------------------------------------------------------------------------

  lemma SweepCons(e: Equation, ps: seq<Equation>, x: nat, d: Block)
    ensures var p := PeelOne(e, x, d);
            && Kept([e] + ps, x, d) == (if |p.indices| >= 2 then [p] else []) + Kept(ps, x, d)
            && Singles([e] + ps, x, d)
               == Singles(ps, x, d) + (if |p.indices| == 1 then [Found(The(p.indices), p.data)] else [])
  {
    assert ([e] + ps)[1..] == ps;
  }

  lemma AbsorbTwo(solved: map<nat, Block>, f: Found, g: Found)
    requires f.index !in solved && g.index !in solved && f.index != g.index
    ensures Absorb(solved, [f, g]) == (solved[f.index := f.data][g.index := g.data], Carried(g))
  {
    assert [f, g][..1] == [f] && [f][..0] == [];
    assert Absorb(solved, []) == (solved, Nothing);
    assert Absorb(solved, [f]) == (solved[f.index := f.data], Carried(f));
  }

  /** Three equations over four blocks, as the frames 4, 29 and 5 of a four-block payload give them. */
  ghost function Three(a: Block, b: Block, c: Block): seq<Equation> {
    [Equation({0, 2}, a), Equation({1, 2}, b), Equation({1, 3}, c)]
  }

  /** One pass for block 2 isolates blocks 1 and 0, in this order. */
  lemma FirstPass(a: Block, b: Block, c: Block, d: Block)
    ensures Kept(Three(a, b, c), 2, d) == [Equation({1, 3}, c)]
    ensures Singles(Three(a, b, c), 2, d) == [Found(1, Xor(b, d)), Found(0, Xor(a, d))]
  {
    var e, f, g := Equation({0, 2}, a), Equation({1, 2}, b), Equation({1, 3}, c);
    assert {0, 2} - {2} == {0} && {1, 2} - {2} == {1};
    assert |{0}| == 1 && |{1}| == 1 && |{1, 3}| == 2;
    hide Kept, Singles;
    EmptySweep(2, d);
    SweepCons(g, [], 2, d);
    SweepCons(f, [g], 2, d);
    SweepCons(e, [f, g], 2, d);
    assert [g] + [] == [g] && [f] + [g] == [f, g] && [e] + [f, g] == Three(a, b, c);
  }

  lemma EmptySweep(x: nat, d: Block)
    ensures Kept([], x, d) == [] && Singles([], x, d) == []
  {}

  lemma SecondPass(c: Block, d: Block)
    ensures Kept([Equation({1, 3}, c)], 0, d) == [Equation({1, 3}, c)] && Singles([Equation({1, 3}, c)], 0, d) == []
  {
    var g := Equation({1, 3}, c);
    assert |{1, 3}| == 2;
    hide Kept, Singles;
    EmptySweep(0, d);
    SweepCons(g, [], 0, d);
    assert [g] + [] == [g];
  }

  /** Solving block 2 then solves 1 and 0, carries only 0 on, and leaves the equation that names 1. */
  lemma StrandedCascade(a: Block, b: Block, c: Block, d: Block)
    ensures SolveBlock(map[], Three(a, b, c), 2, d)
         == (map[2 := d, 1 := Xor(b, d), 0 := Xor(a, d)], [Equation({1, 3}, c)])
  {
    hide Kept, Singles, Absorb, Cascade;
    var first := map[2 := d];
    var known := map[2 := d, 1 := Xor(b, d), 0 := Xor(a, d)];
    assert map[][2 := d] == first;
    FirstPass(a, b, c, d);
    SecondPass(c, Xor(a, d));
    AbsorbTwo(first, Found(1, Xor(b, d)), Found(0, Xor(a, d)));
    assert first[1 := Xor(b, d)][0 := Xor(a, d)] == known;
    CascadeUnfold(first, Three(a, b, c), 2, d);
    CascadeStops(known, [Equation({1, 3}, c)], 0, Xor(a, d));
  }

  /** A packet whose equation still names two blocks joins the pending ones. */
  lemma StepJoins(d: D.Decoder, p: FountainPacket)
    requires D.Accepts(d, p) && D.Fits(d, p) && |D.Reduce(D.EquationOf(p), d.solved).indices| >= 2
    requires |d.solved| < (if d.lock.Locked? then d.lock.session.k else p.k)
    ensures D.AddPacket(d, p).0
         == D.Noted(d, p).(pending := d.pending + [D.Reduce(D.EquationOf(p), d.solved)])
  {
    hide D.AddPacket, D.Reduce, D.EquationOf;
    D.TakenIn(d, p);
  }

  /** A packet whose equation names one unsolved block solves it; without completion nothing else changes. */
  lemma StepSolves(d: D.Decoder, p: FountainPacket, x: nat, data: Block)
    requires D.Accepts(d, p) && D.Fits(d, p) && d.lock.Locked?
    requires D.Reduce(D.EquationOf(p), d.solved) == Equation({x}, data)
    requires |SolveBlock(d.solved, d.pending, x, data).0| < d.lock.session.k
    ensures var (solved, pending) := SolveBlock(d.solved, d.pending, x, data);
            D.AddPacket(d, p).0 == D.Noted(d, p).(solved := solved, pending := pending)
  {
    hide D.AddPacket, D.Reduce, D.EquationOf, SolveBlock;
    D.TakenIn(d, p);
    assert |{x}| == 1;
    assert The({x}) == x by { assert The({x}) in {x}; }
  }

  /** Nothing is subtracted while nothing is solved. */
  lemma ReduceByNothing(e: Equation)
    ensures D.Reduce(e, map[]) == e
  {
    var none: map<nat, Block> := map[];
    assert e.indices - none.Keys == e.indices && e.indices * none.Keys == {};
    XorZero(e.data);
  }

  /** The four frames of the run. */
  ghost function StrandingFrames(src: Source): seq<FountainPacket>
    requires src.Valid()
  {
    [PacketAt(src, 4), PacketAt(src, 29), PacketAt(src, 5), PacketAt(src, 2)]
  }

  lemma FourBlockFrames(src: Source)
    requires src.Valid() && D.K(src) == 4
    ensures D.EquationOf(PacketAt(src, 4)).indices == {0, 2} && D.EquationOf(PacketAt(src, 29)).indices == {1, 2}
    ensures D.EquationOf(PacketAt(src, 5)).indices == {1, 3} && D.EquationOf(PacketAt(src, 2)).indices == {2}
  {
    hide BlocksOf, Sampling.Sample;
    Sampling.SamplesOfFour();
    D.SystematicSample(2, 4);
    assert IndexSet([0, 2]) == {0, 2} && IndexSet([1, 2]) == {1, 2} && IndexSet([1, 3]) == {1, 3}
           && IndexSet([2]) == {2};
  }

  lemma FeedStep(d: D.Decoder, ps: seq<FountainPacket>)
    requires D.AllFit(d, ps) && ps != []
    ensures D.Fits(d, ps[0]) && D.AllFit(D.AddPacket(d, ps[0]).0, ps[1..])
    ensures D.Feed(d, ps).decoder == D.Feed(D.AddPacket(d, ps[0]).0, ps[1..]).decoder
    ensures RunDropped(d, ps) == StepDropped(d, ps[0]) + RunDropped(D.AddPacket(d, ps[0]).0, ps[1..])
  {
    hide D.AddPacket, D.Fits, StepDropped;
  }

  /** The decoder before the last of the four frames, and after it. */
  ghost function BeforeLast(src: Source): D.Decoder
    requires src.Valid()
  {
    D.Decoder(D.Locked(D.SessionOf(PacketAt(src, 4))), map[],
              Three(PacketAt(src, 4).data, PacketAt(src, 29).data, PacketAt(src, 5).data), {4, 29, 5}, 3, false,
              D.Missing)
  }

  ghost function AfterLast(src: Source): D.Decoder
    requires src.Valid()
  {
    var a, b, c, d := PacketAt(src, 4).data, PacketAt(src, 29).data, PacketAt(src, 5).data, PacketAt(src, 2).data;
    BeforeLast(src).(solved := map[2 := d, 1 := Xor(b, d), 0 := Xor(a, d)], pending := [Equation({1, 3}, c)],
                     seeds := {4, 29, 5, 2}, frames := 4)
  }

  lemma FrameIds(src: Source, seed: int)
    requires src.Valid()
    ensures var p := PacketAt(src, seed);
            p.seed == seed && p.sessionId == src.sessionId && p.k == D.K(src) && D.EquationOf(p).data == p.data
  {}

  /** A frame of two blocks joins the pending ones while nothing is solved. */
  lemma PairJoins(src: Source, d: D.Decoder, seed: int)
    requires src.Valid() && D.K(src) == 4 && |D.EquationOf(PacketAt(src, seed)).indices| == 2
    requires d.solved == map[] && !d.complete && seed !in d.seeds
    requires d.lock.Locked? ==> d.lock.session.id == src.sessionId && d.lock.session.k == 4
    ensures D.Fits(d, PacketAt(src, seed))
    ensures D.AddPacket(d, PacketAt(src, seed)).0
         == D.Noted(d, PacketAt(src, seed)).(pending := d.pending + [D.EquationOf(PacketAt(src, seed))])
  {
    hide D.AddPacket, D.EquationOf, D.Reduce, PacketAt, D.K, D.Noted;
    FrameIds(src, seed);
    ReduceByNothing(D.EquationOf(PacketAt(src, seed)));
    StepJoins(d, PacketAt(src, seed));
  }

  lemma FirstThree(src: Source)
    requires src.Valid() && D.K(src) == 4 && D.AllFit(D.Fresh(), StrandingFrames(src))
    ensures D.AllFit(BeforeLast(src), [PacketAt(src, 2)])
    ensures D.Feed(D.Fresh(), StrandingFrames(src)).decoder == D.Feed(BeforeLast(src), [PacketAt(src, 2)]).decoder
  {
    hide D.AddPacket, D.EquationOf, PacketAt, D.Feed, D.AllFit, D.K, StepDropped, RunDropped;
    FourBlockFrames(src);
    FrameIds(src, 4);
    FrameIds(src, 29);
    FrameIds(src, 5);
    TwoEach();
    var p, q, r, last := PacketAt(src, 4), PacketAt(src, 29), PacketAt(src, 5), PacketAt(src, 2);
    var d0 := D.Fresh();
    PairJoins(src, d0, 4);
    FeedStep(d0, [p, q, r, last]);
    assert [p, q, r, last][1..] == [q, r, last];
    var d1 := D.AddPacket(d0, p).0;
    PairJoins(src, d1, 29);
    FeedStep(d1, [q, r, last]);
    assert [q, r, last][1..] == [r, last];
    var d2 := D.AddPacket(d1, q).0;
    PairJoins(src, d2, 5);
    FeedStep(d2, [r, last]);
    assert [r, last][1..] == [last];
    assert D.AddPacket(d2, r).0 == BeforeLast(src);
  }

  lemma TwoEach()
    ensures |{0, 2}| == 2 && |{1, 2}| == 2 && |{1, 3}| == 2
  {}

  lemma LastOfFour(src: Source)
    requires src.Valid() && D.K(src) == 4 && D.AllFit(BeforeLast(src), [PacketAt(src, 2)])
    ensures D.Feed(BeforeLast(src), [PacketAt(src, 2)]).decoder == AfterLast(src)
  {
    hide D.AddPacket, D.EquationOf, PacketAt, D.K, D.Reduce, StepDropped, RunDropped, SolveBlock, Three;
    FourBlockFrames(src);
    FrameIds(src, 2);
    FrameIds(src, 4);
    var d, p := BeforeLast(src), PacketAt(src, 2);
    ReduceByNothing(D.EquationOf(p));
    StrandedCascade(PacketAt(src, 4).data, PacketAt(src, 29).data, PacketAt(src, 5).data, p.data);
    assert |SolveBlock(d.solved, d.pending, 2, p.data).0| == 3;
    FeedStep(d, [p]);
    StepSolves(d, p, 2, p.data);
    assert [p][1..] == [];
    assert D.AddPacket(d, p).0 == AfterLast(src);
  }

  /** Two assignments that satisfy an equation of two blocks and agree on one agree on the other. */
  lemma OtherBlock(s: map<nat, Block>, t: map<nat, Block>, e: Equation, i: nat, j: nat, n: nat)
    requires Sized(s, n) && Sized(t, n) && Holds(s, e, n) && Holds(t, e, n)
    requires e.indices == {i, j} && i != j && i in s && i in t && s[i] == t[i]
    ensures j in s && j in t && s[j] == t[j]
  {
    PeelOneMeaning(s, e, i, n);
    PeelOneMeaning(t, e, i, n);
    assert e.indices - {i} == {j} && |{j}| == 1;
    SingleMeaning(s, PeelOne(e, i, s[i]), n);
    SingleMeaning(t, PeelOne(e, i, t[i]), n);
  }

  lemma StreamOfFour(src: Source)
    requires src.Valid()
    ensures D.GenuineStream(src, StrandingFrames(src)) && StrandingFrames(src)[0].sessionId == src.sessionId
  {
    hide PacketAt;
    FrameIds(src, 4);
    FrameIds(src, 29);
    FrameIds(src, 5);
    FrameIds(src, 2);
  }

  /**
   Closure does fail, on every payload of four blocks: after the encoder's frames 4, 29, 5 and 2, in this
   order, the only pending equation names block 1, which is solved, and block 3. Block 3 stays unsolved
   although every assignment that fits what the decoder knows gives it its true value.
   */
  lemma StrandedRun(src: Source, s: map<nat, Block>)
    requires src.Valid() && D.K(src) == 4
    ensures D.AllFit(D.Fresh(), StrandingFrames(src))
    ensures var d := D.Feed(D.Fresh(), StrandingFrames(src)).decoder;
            && !d.complete && d.solved.Keys == {0, 1, 2}
            && |d.pending| == 1 && d.pending[0].indices == {1, 3} && !Closed(d.solved, d.pending)
            && (Satisfies(s, d.solved, d.pending, src.blockSize) ==> 3 in s && s[3] == BlocksOf(src)[3])
  {
    hide D.Feed, D.AllFit, PacketAt, BlocksOf, D.GenuineStream, D.K, Holds, Xor;
    StreamOfFour(src);
    D.DecoderSoundness(src, StrandingFrames(src));
    FirstThree(src);
    LastOfFour(src);
    var d := AfterLast(src);
    assert d.solved.Keys == {0, 1, 2};
    assert 1 in d.pending[0].indices && 1 in d.solved.Keys;
    if Satisfies(s, d.solved, d.pending, src.blockSize) {
      assert d.pending[0] in d.pending;
      OtherBlock(s, BlocksOf(src), d.pending[0], 1, 3, src.blockSize);
    }
  }
}

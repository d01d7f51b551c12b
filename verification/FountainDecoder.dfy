/** The app's decoder object, with its equations peeled in place, proved against Decoding. */
module FountainDecoding {
  import opened Blocks
  import opened Peeling
  import opened Sampling
  import opened Stream
  import opened Fountain
  import Checksums
  import D = Decoding
  import Wire

  /** A pending equation: a mutable set of block numbers and a mutable byte buffer. */
  class PendingEquation {
    var indices: set<nat>
    const data: array<bv8>

    constructor (indices: set<nat>, data: array<bv8>)
      ensures this.indices == indices && this.data == data
    {
      this.indices := indices;
      this.data := data;
    }

    ghost function Value(): Equation
      reads this, data
    {
      Equation(indices, data[..])
    }

    /** Peels one solved block off this equation, in place. */
    method Peel(blockIndex: nat, blockData: array<bv8>)
      requires blockData.Length == data.Length && blockData != data
      modifies this`indices, data
      ensures Value() == PeelOne(old(Value()), blockIndex, old(blockData[..]))
    {
      if blockIndex in indices {
        indices := indices - {blockIndex};
        XorInto(data, blockData[..]);
      }
    }
  }

  ghost function Buffers(ps: seq<PendingEquation>): set<object> {
    set e | e in ps :: e.data
  }

  ghost function Footprint(ps: seq<PendingEquation>): set<object> {
    (set e | e in ps) + Buffers(ps)
  }

  /** No equation and no buffer occurs twice. */
  ghost predicate Apart(ps: seq<PendingEquation>) {
    forall i, j :: 0 <= i < j < |ps| ==> ps[i] != ps[j] && ps[i].data != ps[j].data
  }

  ghost predicate Long(ps: seq<PendingEquation>, n: nat) {
    forall e :: e in ps ==> e.data.Length == n
  }

  ghost function Values(ps: seq<PendingEquation>): (vs: seq<Equation>)
    reads Footprint(ps)
    ensures |vs| == |ps| && forall i :: 0 <= i < |ps| ==> vs[i] == ps[i].Value()
  {
    if ps == [] then [] else [ps[0].Value()] + Values(ps[1..])
  }

  /** A block isolated by a sweep: its number and the buffer of the equation it came from. */
  type Isolated = (nat, array<bv8>)

  ghost function FoundBuffers(fs: seq<Isolated>): set<object> {
    set f | f in fs :: f.1
  }

  ghost function Founds(fs: seq<Isolated>): (vs: seq<Found>)
    reads FoundBuffers(fs)
    ensures |vs| == |fs| && forall i :: 0 <= i < |fs| ==> vs[i] == Found(fs[i].0, fs[i].1[..])
  {
    if fs == [] then [] else Founds(fs[..|fs| - 1]) + [Found(fs[|fs| - 1].0, fs[|fs| - 1].1[..])]
  }

  datatype FrameOutcome = Fed(outcome: D.Outcome) | BadBase64

  class FountainDecoder {
    var lock: D.Lock
    var solvedBlocks: map<nat, Block>
    var pendingEquations: seq<PendingEquation>
    var receivedSeeds: set<int>
    var receivedFrameCount: nat
    var complete: bool
    var reconstructedPayload: D.Payload

    /** Blocks and buffers are `n` bytes long and nothing is shared. */
    ghost predicate Valid(n: nat)
      reads this
    {
      Sized(solvedBlocks, n) && Long(pendingEquations, n) && Apart(pendingEquations)
    }

    ghost function Repr(): set<object>
      reads this
    {
      {this} + Footprint(pendingEquations)
    }

    ghost function State(): D.Decoder
      reads this, Footprint(pendingEquations)
    {
      D.Decoder(lock, solvedBlocks, Values(pendingEquations), receivedSeeds, receivedFrameCount, complete,
                reconstructedPayload)
    }

    constructor ()
      ensures Valid(0) && State() == D.Fresh() && pendingEquations == []
    {
      lock := D.Unlocked;
      solvedBlocks := map[];
      pendingEquations := [];
      receivedSeeds := {};
      receivedFrameCount := 0;
      complete := false;
      reconstructedPayload := D.Missing;
    }

    /** One pass over the pending equations, from the last to the first, removing those it settles. */
    method Sweep(blockIndex: nat, blockData: array<bv8>, ghost n: nat) returns (newlySolved: seq<Isolated>)
      requires Valid(n) && blockData.Length == n && blockData !in Buffers(pendingEquations)
      modifies this`pendingEquations, Footprint(pendingEquations)
      ensures Values(pendingEquations) == Kept(old(Values(pendingEquations)), blockIndex, old(blockData[..]))
      ensures Founds(newlySolved) == Singles(old(Values(pendingEquations)), blockIndex, old(blockData[..]))
      ensures TailOf(old(pendingEquations), 0, pendingEquations)
      ensures FoundIn(old(pendingEquations), 0, pendingEquations, newlySolved, n)
      ensures blockData[..] == old(blockData[..])
    {
      hide PeelOne, Kept, Singles, Sized, Values, Founds, TailOf, FoundIn;
      newlySolved := [];
      ghost var P, V, d := pendingEquations, Values(pendingEquations), blockData[..];
      ghost var tail: seq<PendingEquation> := [];
      var i := |pendingEquations|;
      SweepStart(P, V, blockIndex, d, n);
      while i > 0
        invariant 0 <= i <= |P| && pendingEquations == P[..i] + tail
        invariant forall j :: 0 <= j < i ==> P[j].Value() == V[j]
        invariant Values(tail) == Kept(V[i..], blockIndex, d)
        invariant Founds(newlySolved) == Singles(V[i..], blockIndex, d)
        invariant TailOf(P, i, tail) && FoundIn(P, i, tail, newlySolved, n)
        invariant blockData[..] == d
      {
        i := i - 1;
        newlySolved, tail := SweepOne(P, V, i, tail, newlySolved, blockIndex, blockData, n);
      }
      assert P[..0] + tail == tail && V[0..] == V;
    }

    /** The body of the pass: peels equation `i`, and removes it when it is settled. */
    method SweepOne(ghost P: seq<PendingEquation>, ghost V: seq<Equation>, i: nat, ghost tail: seq<PendingEquation>,
                    found: seq<Isolated>, blockIndex: nat, blockData: array<bv8>, ghost n: nat)
      returns (found': seq<Isolated>, ghost tail': seq<PendingEquation>)
      requires i < |P| == |V| && pendingEquations == P[..i + 1] + tail
      requires Apart(P) && Long(P, n) && blockData.Length == n && blockData !in Buffers(P)
      requires forall j :: 0 <= j < i + 1 ==> P[j].Value() == V[j]
      requires Values(tail) == Kept(V[i + 1..], blockIndex, blockData[..])
      requires Founds(found) == Singles(V[i + 1..], blockIndex, blockData[..])
      requires TailOf(P, i + 1, tail) && FoundIn(P, i + 1, tail, found, n)
      modifies this`pendingEquations, P[i], P[i].data
      ensures pendingEquations == P[..i] + tail'
      ensures forall j :: 0 <= j < i ==> P[j].Value() == V[j]
      ensures Values(tail') == Kept(V[i..], blockIndex, blockData[..])
      ensures Founds(found') == Singles(V[i..], blockIndex, blockData[..])
      ensures TailOf(P, i, tail') && FoundIn(P, i, tail', found', n)
      ensures blockData[..] == old(blockData[..])
    {
      hide PeelOne, Kept, Singles, Values, Founds, TailOf, FoundIn;
      var eq := pendingEquations[i];
      TailApart(P, i, tail);
      FoundApart(P, i, tail, found, n);
      SweepStep(V, i, blockIndex, blockData[..]);
      assert P[i] == eq;
      eq.Peel(blockIndex, blockData);
      ghost var e := eq.Value();
      assert e == PeelOne(V[i], blockIndex, blockData[..]);
      assert Values(tail) == old(Values(tail)) && Founds(found) == old(Founds(found));
      if |eq.indices| >= 2 {
        found', tail' := found, [eq] + tail;
        KeepAt(P, i, tail);
        ValuesCons(eq, tail);
      } else {
        RemoveAt(P, i, tail);
        pendingEquations := pendingEquations[..i] + pendingEquations[i + 1..];
        found', tail' := found, tail;
        if |eq.indices| == 1 {
          var only :| only in eq.indices;
          found' := found + [(only, eq.data)];
          assert only == The(e.indices);
          FoundsSnoc(found, (only, eq.data));
          FoundMore(P, i, tail, found, (only, eq.data), n);
        }
      }
    }

    /** Records the isolated blocks that are new; the last new one is the next to sweep. */
    method AbsorbNew(newlySolved: seq<Isolated>) returns (progress: bool, next: Isolated)
      requires newlySolved != []
      modifies this`solvedBlocks
      ensures var (known, last) := Absorb(old(solvedBlocks), Founds(newlySolved));
              && solvedBlocks == known
              && last == (if progress then Carried(Found(next.0, next.1[..])) else Nothing)
              && (progress ==> next in newlySolved)
    {
      hide Absorb, Founds;
      progress := false;
      next := newlySolved[0];
      ghost var vs := Founds(newlySolved);
      AbsorbNone(solvedBlocks);
      for j := 0 to |newlySolved|
        invariant solvedBlocks == Absorb(old(solvedBlocks), vs[..j]).0
        invariant Absorb(old(solvedBlocks), vs[..j]).1
               == if progress then Carried(Found(next.0, next.1[..])) else Nothing
        invariant progress ==> next in newlySolved
      {
        var f := newlySolved[j];
        AbsorbNext(old(solvedBlocks), vs, j);
        assert vs[j] == Found(f.0, f.1[..]);
        if f.0 !in solvedBlocks {
          solvedBlocks := solvedBlocks[f.0 := f.1[..]];
          next := f;
          progress := true;
        }
      }
      assert vs[..|newlySolved|] == vs;
      assert Founds(newlySolved) == vs;
    }

    /** Records a block and peels it, and what that isolates, from the pending equations. */
    method SolveBlock(blockIndex: nat, blockData: array<bv8>, ghost n: nat)
      requires Valid(n) && blockData.Length == n && blockData !in Buffers(pendingEquations)
      modifies this`solvedBlocks, this`pendingEquations, Footprint(pendingEquations)
      ensures Valid(n) && Footprint(pendingEquations) <= old(Footprint(pendingEquations))
      ensures (solvedBlocks, Values(pendingEquations))
           == Peeling.SolveBlock(old(solvedBlocks), old(Values(pendingEquations)), blockIndex, old(blockData[..]))
    {
      hide Absorb, Kept, Singles, Values, Founds, Cascade, TailOf, FoundIn;
      if blockIndex in solvedBlocks {
        return;
      }
      solvedBlocks := solvedBlocks[blockIndex := blockData[..]];
      ghost var goal := Cascade(solvedBlocks, Values(pendingEquations), blockIndex, blockData[..]);
      ghost var start := pendingEquations;
      StartsWithin(start);
      var index, data := blockIndex, blockData;
      var progress := true;
      while progress
        invariant Valid(n) && TailOf(start, 0, pendingEquations)
        invariant progress ==> data.Length == n && data !in Buffers(pendingEquations)
        invariant progress ==> Cascade(solvedBlocks, Values(pendingEquations), index, data[..]) == goal
        invariant !progress ==> (solvedBlocks, Values(pendingEquations)) == goal
        decreases |pendingEquations|, progress
      {
        TailFootprint(start, pendingEquations);
        progress, index, data := Pass(start, index, data, n, goal);
      }
      TailFootprint(start, pendingEquations);
    }

    /** The body of the cascade's loop. */
    method Pass(ghost start: seq<PendingEquation>, blockIndex: nat, blockData: array<bv8>, ghost n: nat,
                ghost goal: (map<nat, Block>, seq<Equation>))
      returns (progress: bool, index: nat, data: array<bv8>)
      requires Valid(n) && TailOf(start, 0, pendingEquations)
      requires blockData.Length == n && blockData !in Buffers(pendingEquations)
      requires Cascade(solvedBlocks, Values(pendingEquations), blockIndex, blockData[..]) == goal
      modifies this`solvedBlocks, this`pendingEquations, Footprint(pendingEquations)
      ensures Valid(n) && TailOf(start, 0, pendingEquations)
      ensures progress ==> data.Length == n && data !in Buffers(pendingEquations)
      ensures progress ==> Cascade(solvedBlocks, Values(pendingEquations), index, data[..]) == goal
      ensures !progress ==> (solvedBlocks, Values(pendingEquations)) == goal
      ensures |pendingEquations| <= old(|pendingEquations|) - if progress then 1 else 0
    {
      hide Absorb, Kept, Singles, Values, Founds, Cascade;
      ghost var P, V, solved, d := pendingEquations, Values(pendingEquations), solvedBlocks, blockData[..];
      var newlySolved := Sweep(blockIndex, blockData, n);
      TailTransitive(start, P, pendingEquations, n);
      KeptShrinks(V, blockIndex, d);
      AbsorbFacts(solved, Singles(V, blockIndex, d));
      progress, index, data := false, blockIndex, blockData;
      if newlySolved == [] {
        CascadeStops(solved, V, blockIndex, d);
      } else {
        var next;
        ghost var kept, isolated := Values(pendingEquations), Founds(newlySolved);
        progress, next := AbsorbNew(newlySolved);
        assert Values(pendingEquations) == kept && Founds(newlySolved) == isolated;
        index, data := next.0, next.1;
        CascadeUnfold(solved, V, blockIndex, d);
        FoundSized(solved, Founds(newlySolved), n);
      }
    }

    /** Subtracts every solved block from a new equation. */
    method ReduceEquationWithSolved(indices: set<nat>, data: array<bv8>, ghost n: nat) returns (left: set<nat>)
      requires Sized(solvedBlocks, n) && data.Length == n
      modifies data
      ensures Equation(left, data[..]) == D.Reduce(old(Equation(indices, data[..])), solvedBlocks)
    {
      hide Xor, XorAll, Sized;
      ghost var whole := data[..];
      var todo, toRemove: set<nat> := indices, {};
      XorNothing(solvedBlocks, whole, n);
      while todo != {}
        invariant todo <= indices && toRemove == (indices - todo) * solvedBlocks.Keys
        invariant data[..] == Xor(whole, XorAll(solvedBlocks, toRemove, n))
        decreases |todo|
      {
        var idx :| idx in todo;
        todo := todo - {idx};
        if idx in solvedBlocks {
          XorOneMore(solvedBlocks, whole, toRemove, idx, n);
          assert |solvedBlocks[idx]| == n by { BlockLength(solvedBlocks, idx, n); }
          XorInto(data, solvedBlocks[idx]);
          toRemove := toRemove + {idx};
        }
      }
      left := indices - toRemove;
      assert toRemove == indices * solvedBlocks.Keys;
    }

    method CheckCompletion() returns (o: D.Outcome)
      requires lock.Locked?
      modifies this`complete, this`reconstructedPayload
      ensures (State(), o) == D.CheckCompletion(old(State()))
    {
      hide Values, Checksums.OfPayload, Checksums.Lower;
      var s := lock.session;
      ghost var before := State();
      if |solvedBlocks| >= s.k {
        var fullBytes: seq<bv8> := [];
        var i: nat := 0;
        while i < s.k
          invariant i <= Max(0, s.k)
          invariant forall j: nat :: j < i ==> j in solvedBlocks
          invariant fullBytes == Concat(solvedBlocks, i)
        {
          if i !in solvedBlocks {
            return D.Returned(false);
          }
          fullBytes := fullBytes + solvedBlocks[i];
          i := i + 1;
        }
        if !(0 <= s.totalLength <= |fullBytes|) {
          return D.LengthOutOfRange;
        }
        var rawPayload := fullBytes[..s.totalLength];
        if Checksums.Lower(Checksums.OfPayload(rawPayload)) != Checksums.Lower(s.checksum) {
          return D.ChecksumFailed;
        }
        reconstructedPayload := D.Present(rawPayload);
        complete := true;
        assert Values(pendingEquations) == before.pending;
        return D.Returned(true);
      }
      return D.Returned(false);
    }

    /** Processes one packet, exactly as `Decoding.AddPacket` says. */
    method AddPacket(packet: FountainPacket, ghost n: nat) returns (o: D.Outcome)
      requires Valid(n) && (D.Accepts(State(), packet) ==> |packet.data| == n)
      modifies Repr()
      ensures Valid(n) && fresh(Repr() - old(Repr()))
      ensures D.Fits(old(State()), packet)
      ensures (State(), o) == D.AddPacket(old(State()), packet)
    {
      hide Values, D.CheckCompletion, D.Reduce, D.Learn, D.AddPacket, D.Noted;
      ghost var before := State();
      var turnedAway;
      turnedAway, o := Note(packet);
      if !turnedAway {
        D.TakenIn(before, packet);
        o := TakeEquation(packet, n);
      }
    }

    /** Processes one scanned frame; text that is no frame changes nothing. */
    method AddFrame(raw: string, ghost n: nat) returns (o: FrameOutcome)
      requires Valid(n)
      requires Wire.Parse(raw).Frame? && D.Accepts(State(), Wire.Parse(raw).packet)
           ==> |Wire.Parse(raw).packet.data| == n
      modifies Repr()
      ensures Valid(n) && fresh(Repr() - old(Repr()))
      ensures match Wire.Parse(raw)
              case NotAFrame => o == Fed(D.Returned(false)) && State() == old(State())
              case FormatError => o == BadBase64 && State() == old(State())
              case Frame(p) => D.Fits(old(State()), p) && o.Fed? && (State(), o.outcome) == D.AddPacket(old(State()), p)
    {
      hide Wire.Parse, D.AddPacket, D.Fits, D.Accepts, Values;
      match Wire.Parse(raw)
      case NotAFrame =>
        o := Fed(D.Returned(false));
      case FormatError =>
        o := BadBase64;
      case Frame(p) =>
        var r := AddPacket(p, n);
        o := Fed(r);
    }

    /** The checks before an equation is looked at: completion, session, counting, repetition. */
    method Note(packet: FountainPacket) returns (turnedAway: bool, o: D.Outcome)
      modifies this`lock, this`receivedFrameCount, this`receivedSeeds
      ensures turnedAway <==> !D.Accepts(old(State()), packet)
      ensures turnedAway ==> (State(), o) == D.AddPacket(old(State()), packet)
      ensures !turnedAway ==> State() == D.Noted(old(State()), packet) && lock.Locked?
    {
      hide Values, D.AddPacket;
      ghost var before := State();
      if !D.Accepts(before, packet) { D.TurnedAway(before, packet); }
      turnedAway, o := true, D.Returned(false);
      if complete {
        o := D.Returned(true);
        return;
      }
      if lock.Unlocked? {
        lock := D.Locked(D.SessionOf(packet));
      } else if packet.sessionId != lock.session.id {
        return;
      }
      receivedFrameCount := receivedFrameCount + 1;
      if packet.seed !in receivedSeeds {
        receivedSeeds := receivedSeeds + {packet.seed};
        turnedAway := false;
      }
      assert Values(pendingEquations) == before.pending;
    }

    /** Keeps an equation that could not be solved yet. */
    method AppendEquation(indices: set<nat>, data: array<bv8>, ghost n: nat)
      requires Valid(n) && data.Length == n && data !in Buffers(pendingEquations)
      modifies this`pendingEquations
      ensures Valid(n) && fresh(Repr() - old(Repr()) - {data})
      ensures Values(pendingEquations) == old(Values(pendingEquations)) + [Equation(indices, data[..])]
    {
      hide Values, Sized;
      ghost var V := Values(pendingEquations);
      var equation := new PendingEquation(indices, data);
      AppendApart(pendingEquations, equation, n);
      ValuesSnoc(pendingEquations, equation);
      pendingEquations := pendingEquations + [equation];
    }

    /** The part of `AddPacket` after the checks: learns the packet's equation. */
    method TakeEquation(packet: FountainPacket, ghost n: nat) returns (o: D.Outcome)
      requires Valid(n) && |packet.data| == n && lock.Locked?
      modifies Repr()
      ensures Valid(n) && fresh(Repr() - old(Repr()))
      ensures var e := D.Reduce(D.EquationOf(packet), old(solvedBlocks));
              if e.indices == {} then State() == old(State()) && o == D.Returned(false)
              else
                var (solved, pending) := D.Learn(old(solvedBlocks), old(State()).pending, e);
                (State(), o) == D.CheckCompletion(old(State()).(solved := solved, pending := pending))
    {
      hide Values, D.CheckCompletion, D.Reduce, Peeling.SolveBlock;
      ghost var e := D.Reduce(D.EquationOf(packet), solvedBlocks);
      ghost var V := Values(pendingEquations);
      var equationIndices := set i | i in packet.blockIndices;
      var equationData := new bv8[|packet.data|](i requires 0 <= i < |packet.data| => packet.data[i]);
      assert equationData[..] == packet.data;
      var left := ReduceEquationWithSolved(equationIndices, equationData, n);
      assert e == Equation(left, equationData[..]);
      assert Values(pendingEquations) == V;
      if left == {} {
        return D.Returned(false);
      }
      if |left| == 1 {
        var only :| only in left;
        assert only == The(left);
        SolveBlock(only, equationData, n);
      } else {
        AppendEquation(left, equationData, n);
      }
      o := CheckCompletion();
    }

    /** Forgets the transmission. */
    method Reset()
      modifies this
      ensures State() == D.Fresh() && pendingEquations == []
    {
      lock := D.Unlocked;
      solvedBlocks := map[];
      pendingEquations := [];
      receivedSeeds := {};
      receivedFrameCount := 0;
      complete := false;
      reconstructedPayload := D.Missing;
    }
  }

  lemma AppendApart(ps: seq<PendingEquation>, e: PendingEquation, n: nat)
    requires Apart(ps) && Long(ps, n) && e.data.Length == n && e !in ps && e.data !in Buffers(ps)
    ensures Apart(ps + [e]) && Long(ps + [e], n) && Footprint(ps + [e]) == Footprint(ps) + {e, e.data}
  {
    forall i | 0 <= i < |ps| ensures ps[i].data != e.data { assert ps[i] in ps; }
  }

  lemma {:induction false} ValuesSnoc(ps: seq<PendingEquation>, e: PendingEquation)
    ensures Values(ps + [e]) == Values(ps) + [e.Value()]
  {
    if ps != [] {
      ValuesSnoc(ps[1..], e);
      assert (ps + [e])[1..] == ps[1..] + [e];
    }
  }

  lemma BlockLength(m: map<nat, Block>, x: nat, n: nat)
    requires Sized(m, n) && x in m
    ensures |m[x]| == n
  {}

  lemma XorNothing(m: map<nat, Block>, data: Block, n: nat)
    requires Sized(m, n) && |data| == n
    ensures data == Xor(data, XorAll(m, {}, n))
  {
    XorZero(data);
  }

  lemma XorOneMore(m: map<nat, Block>, data: Block, I: set<nat>, x: nat, n: nat)
    requires Sized(m, n) && |data| == n && I <= m.Keys && x in m && x !in I
    ensures Xor(Xor(data, XorAll(m, I, n)), m[x]) == Xor(data, XorAll(m, I + {x}, n))
  {
    XorAllInsert(m, I, x, n);
    XorAssociative(data, XorAll(m, I, n), m[x]);
  }

  lemma FoundSized(solved: map<nat, Block>, fs: seq<Found>, n: nat)
    requires Sized(solved, n) && forall f :: f in fs ==> |f.data| == n
    ensures Sized(Absorb(solved, fs).0, n)
  {
    AbsorbFacts(solved, fs);
  }

  lemma AbsorbNone(solved: map<nat, Block>)
    ensures forall fs: seq<Found> :: Absorb(solved, fs[..0]) == (solved, Nothing)
  {}

  lemma AbsorbNext(solved: map<nat, Block>, fs: seq<Found>, j: nat)
    requires j < |fs|
    ensures var (known, last) := Absorb(solved, fs[..j]);
            Absorb(solved, fs[..j + 1]) ==
              if fs[j].index in known then (known, last) else (known[fs[j].index := fs[j].data], Carried(fs[j]))
  {
    assert fs[..j + 1][..j] == fs[..j];
  }

  lemma StartsWithin(P: seq<PendingEquation>)
    requires Apart(P)
    ensures TailOf(P, 0, P)
  {}

  lemma TailTransitive(P: seq<PendingEquation>, Q: seq<PendingEquation>, R: seq<PendingEquation>, n: nat)
    requires TailOf(P, 0, Q) && TailOf(Q, 0, R) && Long(Q, n)
    ensures TailOf(P, 0, R) && Long(R, n) && Apart(R)
  {
    assert Apart(R);
    forall e | e in R ensures e in Q && exists j :: 0 <= j < |P| && P[j] == e {
      var j :| 0 <= j < |Q| && Q[j] == e;
      assert Q[j] in Q;
    }
  }

  lemma TailFootprint(P: seq<PendingEquation>, Q: seq<PendingEquation>)
    requires TailOf(P, 0, Q)
    ensures Footprint(Q) <= Footprint(P)
  {}

  lemma KeepAt(P: seq<PendingEquation>, i: nat, tail: seq<PendingEquation>)
    requires i < |P|
    ensures P[..i + 1] + tail == P[..i] + ([P[i]] + tail)
  {}

  lemma RemoveAt(P: seq<PendingEquation>, i: nat, tail: seq<PendingEquation>)
    requires i < |P|
    ensures (P[..i + 1] + tail)[..i] + (P[..i + 1] + tail)[i + 1..] == P[..i] + tail
  {}

  lemma ValuesCons(eq: PendingEquation, tail: seq<PendingEquation>)
    ensures Values([eq] + tail) == [eq.Value()] + Values(tail)
  {
    assert ([eq] + tail)[1..] == tail;
  }

  lemma FoundsSnoc(fs: seq<Isolated>, f: Isolated)
    ensures Founds(fs + [f]) == Founds(fs) + [Found(f.0, f.1[..])]
  {
    assert (fs + [f])[..|fs|] == fs;
  }

  lemma FoundMore(P: seq<PendingEquation>, i: nat, tail: seq<PendingEquation>, fs: seq<Isolated>, f: Isolated, n: nat)
    requires i < |P| && Long(P, n) && FoundIn(P, i, tail, fs, n) && f.1 == P[i].data && P[i].data !in Buffers(tail)
    ensures FoundIn(P, i, tail, fs + [f], n)
  {
    assert P[i] in P;
  }

  lemma SweepStart(P: seq<PendingEquation>, V: seq<Equation>, x: nat, d: Block, n: nat)
    requires |V| == |P|
    ensures P == P[..|P|] + []
    ensures Values([]) == Kept(V[|P|..], x, d) && Founds([]) == Singles(V[|P|..], x, d)
    ensures TailOf(P, |P|, []) && FoundIn(P, |P|, [], [], n)
  {}

  lemma SweepStep(V: seq<Equation>, i: nat, x: nat, d: Block)
    requires i < |V|
    ensures var e := PeelOne(V[i], x, d);
            && Kept(V[i..], x, d) == (if |e.indices| >= 2 then [e] else []) + Kept(V[i + 1..], x, d)
            && Singles(V[i..], x, d) == Singles(V[i + 1..], x, d)
              + (if |e.indices| == 1 then [Found(The(e.indices), e.data)] else [])
  {
    assert V[i..][1..] == V[i + 1..];
  }

  /** `tail` holds equations from position `i` of `P` on, none twice. */
  ghost predicate TailOf(P: seq<PendingEquation>, i: nat, tail: seq<PendingEquation>)
    requires i <= |P|
  {
    Apart(tail) && forall e :: e in tail ==> exists j :: i <= j < |P| && P[j] == e
  }

  /** The isolated buffers belong to equations from position `i` of `P` on that are not in `tail`. */
  ghost predicate FoundIn(P: seq<PendingEquation>, i: nat, tail: seq<PendingEquation>, fs: seq<Isolated>, n: nat)
    requires i <= |P|
  {
    forall f :: f in fs ==> f.1.Length == n && f.1 !in Buffers(tail) && exists j :: i <= j < |P| && P[j].data == f.1
  }

  lemma TailApart(P: seq<PendingEquation>, i: nat, tail: seq<PendingEquation>)
    requires i < |P| && Apart(P) && TailOf(P, i + 1, tail)
    ensures P[i] !in tail && P[i].data !in Buffers(tail) && TailOf(P, i, tail) && TailOf(P, i, [P[i]] + tail)
  {}

  lemma FoundApart(P: seq<PendingEquation>, i: nat, tail: seq<PendingEquation>, fs: seq<Isolated>, n: nat)
    requires i < |P| && Apart(P) && TailOf(P, i + 1, tail) && FoundIn(P, i + 1, tail, fs, n)
    ensures P[i].data !in FoundBuffers(fs) && FoundIn(P, i, tail, fs, n) && FoundIn(P, i, [P[i]] + tail, fs, n)
  {}
}

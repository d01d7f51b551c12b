/**
 The fountain decoder as a function of its state and the next packet, and what whole runs of
 it guarantee. The class in FountainDecoder.dfy is proved to compute these functions.
 */
module Decoding {
  import opened Blocks
  import opened Peeling
  import opened Sampling
  import opened Stream
  import Checksums

  datatype Session = Session(id: string, k: int, totalLength: int, checksum: string)

  datatype Lock = Unlocked | Locked(session: Session)

  datatype Outcome = Returned(done: bool) | ChecksumFailed | LengthOutOfRange

  datatype Payload = Missing | Present(bytes: seq<bv8>)

  datatype Decoder = Decoder(
    lock: Lock, solved: map<nat, Block>, pending: seq<Equation>,
    seeds: set<int>, frames: nat, complete: bool, payload: Payload)

  function Fresh(): Decoder {
    Decoder(Unlocked, map[], [], {}, 0, false, Missing)
  }

  function SessionOf(p: FountainPacket): Session {
    Session(p.sessionId, p.k, p.totalLength, p.checksum)
  }

  ghost function EquationOf(p: FountainPacket): Equation {
    Equation(IndexSet(p.blockIndices), p.data)
  }

  // ----- one packet ------------------------------------------------------------------------

  /** The packet is not turned away before it is looked at. */
  predicate Accepts(d: Decoder, p: FountainPacket) {
    && !d.complete
    && (d.lock.Locked? ==> d.lock.session.id == p.sessionId)
    && p.seed !in d.seeds
  }

  /** A packet the decoder looks at has blocks of the session's size. */
  ghost predicate Fits(d: Decoder, p: FountainPacket) {
    Accepts(d, p) ==> Sized(d.solved, |p.data|)
  }

  /** Every solved block is subtracted from the equation. */
  ghost function Reduce(e: Equation, solved: map<nat, Block>): Equation
    requires Sized(solved, |e.data|)
  {
    Equation(e.indices - solved.Keys, Xor(e.data, XorAll(solved, e.indices * solved.Keys, |e.data|)))
  }

  ghost function Learn(solved: map<nat, Block>, pending: seq<Equation>, e: Equation): (map<nat, Block>, seq<Equation>) {
    if e.indices == {} then (solved, pending)
    else if |e.indices| == 1 then SolveBlock(solved, pending, The(e.indices), e.data)
    else (solved, pending + [e])
  }

  ghost predicate AllSolved(solved: map<nat, Block>, k: int) {
    forall i: nat :: i < k ==> i in solved
  }

  ghost function CheckCompletion(d: Decoder): (Decoder, Outcome)
    requires d.lock.Locked?
  {
    var s := d.lock.session;
    if |d.solved| < s.k || !AllSolved(d.solved, s.k) then (d, Returned(false)) else
      var raw := Concat(d.solved, Max(0, s.k));
      if !(0 <= s.totalLength <= |raw|) then (d, LengthOutOfRange)
      else if Checksums.Lower(Checksums.OfPayload(raw[..s.totalLength])) != Checksums.Lower(s.checksum)
        then (d, ChecksumFailed)
      else (d.(complete := true, payload := Present(raw[..s.totalLength])), Returned(true))
  }

  ghost function AddPacket(d: Decoder, p: FountainPacket): (Decoder, Outcome)
    requires Fits(d, p)
  {
    if d.complete then (d, Returned(true))
    else if d.lock.Locked? && d.lock.session.id != p.sessionId then (d, Returned(false))
    else
      var d1 := d.(lock := if d.lock.Locked? then d.lock else Locked(SessionOf(p)), frames := d.frames + 1);
      if p.seed in d.seeds then (d1, Returned(false)) else
        var d2 := d1.(seeds := d.seeds + {p.seed});
        var e := Reduce(EquationOf(p), d.solved);
        if e.indices == {} then (d2, Returned(false)) else
          var (solved, pending) := Learn(d.solved, d.pending, e);
          CheckCompletion(d2.(solved := solved, pending := pending))
  }

  /** A packet that is turned away. */
  lemma TurnedAway(d: Decoder, p: FountainPacket)
    requires !Accepts(d, p)
    ensures d.complete ==> AddPacket(d, p) == (d, Returned(true))
    ensures !d.complete && d.lock.Locked? && d.lock.session.id != p.sessionId
         ==> AddPacket(d, p) == (d, Returned(false))
    ensures !d.complete && d.lock.Locked? && d.lock.session.id == p.sessionId
         ==> AddPacket(d, p) == (d.(frames := d.frames + 1), Returned(false))
    ensures !d.complete && d.lock.Unlocked?
         ==> AddPacket(d, p) == (d.(lock := Locked(SessionOf(p)), frames := d.frames + 1), Returned(false))
  {
    hide Reduce, Learn, CheckCompletion;
  }

  /** The state in which an accepted packet's equation is taken. */
  function Noted(d: Decoder, p: FountainPacket): Decoder {
    d.(lock := if d.lock.Locked? then d.lock else Locked(SessionOf(p)),
       frames := d.frames + 1, seeds := d.seeds + {p.seed})
  }

  lemma TakenIn(d: Decoder, p: FountainPacket)
    requires Accepts(d, p) && Fits(d, p)
    ensures var e := Reduce(EquationOf(p), d.solved);
            AddPacket(d, p) ==
              if e.indices == {} then (Noted(d, p), Returned(false))
              else
                var (solved, pending) := Learn(d.solved, d.pending, e);
                CheckCompletion(Noted(d, p).(solved := solved, pending := pending))
  {
    hide Reduce, Learn, CheckCompletion;
  }

  // ----- learning one equation keeps the meaning ---------------------------------------------

  lemma ReduceMeaning(s: map<nat, Block>, e: Equation, solved: map<nat, Block>, n: nat)
    requires Sized(s, n) && Agrees(s, solved) && |e.data| == n && Sized(solved, n)
    ensures Holds(s, e, n) <==> Holds(s, Reduce(e, solved), n)
  {
    var J := e.indices * solved.Keys;
    if e.indices <= s.Keys {
      XorAllSplit(s, e.indices, J, n);
      XorAllAgree(s, solved, J, n);
      assert e.indices - J == e.indices - solved.Keys;
      XorCancel(XorAll(s, e.indices - J, n), XorAll(solved, J, n));
      XorCancel(e.data, XorAll(solved, J, n));
    } else {
      assert forall i :: i in J ==> i in s;
    }
  }

  lemma EmptyHolds(s: map<nat, Block>, t: map<nat, Block>, e: Equation, n: nat)
    requires Sized(s, n) && e.indices == {} && Holds(t, e, n)
    ensures Holds(s, e, n)
  {}

  lemma SatisfiesInsert(s: map<nat, Block>, solved: map<nat, Block>, ps: seq<Equation>, x: nat, d: Block, n: nat)
    requires x !in solved
    ensures Satisfies(s, solved[x := d], ps, n) <==> Satisfies(s, solved, ps, n) && x in s && s[x] == d
  {
    if Satisfies(s, solved[x := d], ps, n) {
      forall i | i in solved ensures i in s && s[i] == solved[i] {
        assert i in solved[x := d];
      }
    }
  }

  /** What the decoder knows after an equation is what it knew before, together with the equation. */
  lemma LearnMeaning(t: map<nat, Block>, s: map<nat, Block>, solved: map<nat, Block>, ps: seq<Equation>, e: Equation,
                     n: nat)
    requires Satisfies(t, solved, ps, n) && Sized(s, n) && Wide(ps, n) && |e.data| == n
    requires e.indices !! solved.Keys && Holds(t, e, n)
    ensures var (solved', ps') := Learn(solved, ps, e);
            && Satisfies(t, solved', ps', n) && Wide(ps', n)
            && (Satisfies(s, solved', ps', n) <==> Satisfies(s, solved, ps, n) && Holds(s, e, n))
  {
    if e.indices == {} {
      EmptyHolds(s, t, e, n);
    } else if |e.indices| == 1 {
      LearnSingle(t, s, solved, ps, e, n);
    } else {
      assert |e.indices| >= 2;
      SatisfiesAppend(s, solved, ps, e, n);
      SatisfiesAppend(t, solved, ps, e, n);
    }
  }

  lemma SatisfiesAppend(s: map<nat, Block>, solved: map<nat, Block>, ps: seq<Equation>, e: Equation, n: nat)
    ensures Satisfies(s, solved, ps + [e], n) <==> Satisfies(s, solved, ps, n) && Holds(s, e, n)
  {
    AllHoldSplit(s, ps, [e], n);
    assert e in [e];
  }

  lemma LearnSingle(t: map<nat, Block>, s: map<nat, Block>, solved: map<nat, Block>, ps: seq<Equation>, e: Equation,
                    n: nat)
    requires Satisfies(t, solved, ps, n) && Sized(s, n) && Wide(ps, n) && |e.data| == n
    requires e.indices !! solved.Keys && Holds(t, e, n) && |e.indices| == 1
    ensures var (solved', ps') := SolveBlock(solved, ps, The(e.indices), e.data);
            && Satisfies(t, solved', ps', n) && Wide(ps', n)
            && (Satisfies(s, solved', ps', n) <==> Satisfies(s, solved, ps, n) && Holds(s, e, n))
  {
    var x := The(e.indices);
    assert x in e.indices;
    SingleMeaning(t, e, n);
    SingleMeaning(s, e, n);
    SatisfiesInsert(t, solved, ps, x, e.data, n);
    SatisfiesInsert(s, solved, ps, x, e.data, n);
    CascadeMeaning(t, s, solved[x := e.data], ps, x, e.data, n);
  }

  lemma LearnKeepsSolved(solved: map<nat, Block>, ps: seq<Equation>, e: Equation)
    ensures var solved' := Learn(solved, ps, e).0;
            && (forall i :: i in solved && i !in e.indices ==> i in solved' && solved'[i] == solved[i])
            && (|e.indices| == 1 ==> The(e.indices) in solved')
  {
    if |e.indices| == 1 && The(e.indices) !in solved {
      CascadeKeepsSolved(solved[The(e.indices) := e.data], ps, The(e.indices), e.data);
    }
  }

  // ----- the invariant of a run ---------------------------------------------------------------

  ghost predicate Explains(s: map<nat, Block>, src: Source, seeds: set<int>)
    requires src.Valid()
  {
    && Sized(s, src.blockSize)
    && forall seed :: seed in seeds ==> Holds(s, EquationOf(PacketAt(src, seed)), src.blockSize)
  }

  /** The decoder knows exactly what the packets it has looked at say. */
  ghost predicate KnowsExactly(src: Source, d: Decoder)
    requires src.Valid()
  {
    forall s: map<nat, Block> :: Satisfies(s, d.solved, d.pending, src.blockSize) <==> Explains(s, src, d.seeds)
  }

  /** Block `i < k` is solved as soon as the packet that carries it alone was looked at. */
  ghost predicate Systematic(src: Source, d: Decoder)
    requires src.Valid()
  {
    forall i: nat :: i < K(src) && i in d.seeds ==> i in d.solved
  }

  ghost function K(src: Source): nat
    requires src.Valid()
  {
    BlockCount(|src.payload|, src.blockSize)
  }

  ghost predicate Sound(src: Source, d: Decoder)
    requires src.Valid()
  {
    && (d.lock.Unlocked? ==> d == Fresh())
    && (d.lock.Locked? ==> d.lock.session == SessionOf(PacketAt(src, 0)))
    && Satisfies(BlocksOf(src), d.solved, d.pending, src.blockSize)
    && Wide(d.pending, src.blockSize)
  }

  ghost predicate Invariant(src: Source, d: Decoder)
    requires src.Valid()
  {
    && Sound(src, d) && KnowsExactly(src, d)
    && (if d.complete then d.payload == Present(src.payload) && d.solved == BlocksOf(src)
        else d.payload == Missing && |d.solved| < K(src) && Systematic(src, d))
  }

  /** `p` is a packet of `src`, or of another session. */
  ghost predicate Genuine(src: Source, p: FountainPacket)
    requires src.Valid()
  {
    p.sessionId == src.sessionId ==> p == PacketAt(src, p.seed)
  }

  ghost function Below(k: nat): (S: set<nat>)
    ensures forall i: nat :: i in S <==> i < k
    ensures |S| == k
  {
    if k == 0 then {} else Below(k - 1) + {k - 1}
  }

  lemma SubsetSize<T>(A: set<T>, B: set<T>)
    requires A <= B
    ensures |A| <= |B|
    ensures |A| == |B| ==> A == B
  {
    var C := B - A;
    assert B == A + C;
    assert |B| == |A| + |C|;
  }

  lemma SolvedSize(src: Source, solved: map<nat, Block>)
    requires src.Valid() && Agrees(BlocksOf(src), solved)
    ensures |solved| <= K(src)
    ensures |solved| == K(src) ==> solved == BlocksOf(src)
    ensures AllSolved(solved, K(src)) ==> |solved| == K(src)
  {
    hide BlocksOf;
    var S := Below(K(src));
    BlocksKeys(src);
    assert solved.Keys <= S;
    SubsetSize(solved.Keys, S);
    if AllSolved(solved, K(src)) {
      assert S <= solved.Keys;
      SubsetSize(S, solved.Keys);
    }
  }

  lemma BlocksKeys(src: Source)
    requires src.Valid()
    ensures BlocksOf(src).Keys == Below(K(src))
  {}

  lemma PacketFacts(src: Source, seed: int)
    requires src.Valid()
    ensures var e := EquationOf(PacketAt(src, seed));
            && |e.data| == src.blockSize && Holds(BlocksOf(src), e, src.blockSize)
            && (0 <= seed < K(src) ==> e.indices == {seed})
            && SessionOf(PacketAt(src, seed)) == SessionOf(PacketAt(src, 0))
  {
    IndicesInRange(src, seed);
    IndicesInRange(src, 0);
    if 0 <= seed < K(src) {
      SystematicSample(seed, K(src));
      assert IndexSet([seed]) == {seed};
    }
  }

  lemma SystematicSample(seed: nat, k: nat)
    requires seed < k
    ensures Sample(seed, k).1 == [seed]
  {
    if k > 1 { assert seed % k == seed; }
  }

  /** Completion of a sound decoder gives the payload back and never raises. */
  lemma CompletionIsPayload(src: Source, d: Decoder)
    requires src.Valid() && Sound(src, d) && d.lock.Locked? && !d.complete && d.payload == Missing
    ensures var (d', o) := CheckCompletion(d);
            if |d.solved| == K(src)
            then d' == d.(complete := true, payload := Present(src.payload)) && o == Returned(true)
              && d.solved == BlocksOf(src)
            else d' == d && o == Returned(false) && |d.solved| < K(src)
  {
    hide PacketAt, BlocksOf, Checksums.OfPayload, Checksums.Lower, Wide;
    SolvedSize(src, d.solved);
    SessionFacts(src);
    if |d.solved| == K(src) {
      BlocksKeys(src);
      BlocksRoundTrip(src);
    }
  }

  lemma SessionFacts(src: Source)
    requires src.Valid()
    ensures SessionOf(PacketAt(src, 0))
         == Session(src.sessionId, K(src), |src.payload|, Checksums.OfPayload(src.payload))
  {}

  // ----- nothing unchecked is delivered, whatever arrives ----------------------------------------

  /** The first `k` blocks are there, so there is something to check. */
  ghost predicate Whole(d: Decoder)
    requires d.lock.Locked?
  {
    |d.solved| >= d.lock.session.k && AllSolved(d.solved, d.lock.session.k)
  }

  /** The bytes have the session's length and its checksum, in any letter case. */
  predicate Matches(bytes: seq<bv8>, s: Session) {
    |bytes| == s.totalLength && Checksums.Lower(Checksums.OfPayload(bytes)) == Checksums.Lower(s.checksum)
  }

  /** The four answers of the completion test, on any state; only the first changes anything. */
  lemma CompletionIff(d: Decoder)
    requires d.lock.Locked?
    ensures var (d', o) := CheckCompletion(d);
            var s := d.lock.session;
            if !Whole(d) then d' == d && o == Returned(false)
            else
              var raw := Concat(d.solved, Max(0, s.k));
              if s.totalLength < 0 || |raw| < s.totalLength then d' == d && o == LengthOutOfRange
              else if !Matches(raw[..s.totalLength], s) then d' == d && o == ChecksumFailed
              else o == Returned(true) && d' == d.(complete := true, payload := Present(raw[..s.totalLength]))
  {
    hide Concat, Checksums.OfPayload, Checksums.Lower;
  }

  /** Complete means that a payload is present, and it matches what the session announced. */
  ghost predicate Guarded(d: Decoder) {
    && (d.complete <==> d.payload.Present?)
    && (d.complete ==> d.lock.Locked? && Matches(d.payload.bytes, d.lock.session))
  }

  lemma StepKeepsGuarded(d: Decoder, p: FountainPacket)
    requires Guarded(d) && Fits(d, p)
    ensures var (d', o) := AddPacket(d, p);
            && Guarded(d') && d'.lock == (if d.lock.Locked? || d.complete then d.lock else Locked(SessionOf(p)))
            && (o == Returned(true) ==> d'.complete)
  {
    hide Matches, Reduce, Learn, CheckCompletion, Whole;
    if Accepts(d, p) {
      TakenIn(d, p);
      var e := Reduce(EquationOf(p), d.solved);
      if e.indices != {} {
        var (solved, pending) := Learn(d.solved, d.pending, e);
        CompletionIff(Noted(d, p).(solved := solved, pending := pending));
      }
    } else {
      TurnedAway(d, p);
    }
  }

  lemma {:induction false} FeedKeepsGuarded(d: Decoder, ps: seq<FountainPacket>)
    requires Guarded(d) && AllFit(d, ps)
    ensures var d' := Feed(d, ps).decoder;
            && Guarded(d')
            && (ps != [] ==> d'.lock == if d.lock.Locked? || d.complete then d.lock else Locked(SessionOf(ps[0])))
    decreases |ps|
  {
    hide Guarded, AddPacket, Fits;
    if ps != [] {
      StepKeepsGuarded(d, ps[0]);
      FeedKeepsGuarded(AddPacket(d, ps[0]).0, ps[1..]);
      CompleteIsLocked(d);
      CompleteIsLocked(AddPacket(d, ps[0]).0);
    }
  }

  lemma CompleteIsLocked(d: Decoder)
    requires Guarded(d)
    ensures d.complete ==> d.lock.Locked?
  {}

  /**
   Over every run of packets, genuine or not: a decoder that is complete holds bytes of the length and with the
   checksum that the first packet announced.
   */
  lemma DeliveredIsChecked(ps: seq<FountainPacket>)
    requires AllFit(Fresh(), ps)
    ensures var d := Feed(Fresh(), ps).decoder;
            && (d.complete <==> d.payload.Present?)
            && (d.complete ==> ps != [] && d.lock == Locked(SessionOf(ps[0]))
                               && Matches(d.payload.bytes, SessionOf(ps[0])))
  {
    hide Matches, AddPacket, Fits;
    FeedKeepsGuarded(Fresh(), ps);
  }

  // ----- one step keeps the invariant ---------------------------------------------------------

  lemma LearnStep(src: Source, d: Decoder, seed: int, e: Equation, solved': map<nat, Block>, ps': seq<Equation>)
    requires src.Valid() && Invariant(src, d) && !d.complete
    requires Sized(d.solved, src.blockSize)
    requires e == Reduce(EquationOf(PacketAt(src, seed)), d.solved)
    requires (solved', ps') == Learn(d.solved, d.pending, e)
    ensures Satisfies(BlocksOf(src), solved', ps', src.blockSize) && Wide(ps', src.blockSize)
    ensures forall s: map<nat, Block> :: Satisfies(s, solved', ps', src.blockSize)
              <==> Explains(s, src, d.seeds + {seed})
    ensures forall i: nat :: i < K(src) && i in d.seeds + {seed} ==> i in solved'
  {
    hide PacketAt, BlocksOf, EquationOf, Holds, Learn, Reduce;
    var t, n, p := BlocksOf(src), src.blockSize, EquationOf(PacketAt(src, seed));
    PacketFacts(src, seed);
    ReduceMeaning(t, p, d.solved, n);
    ReduceShape(p, d.solved);
    forall s: map<nat, Block>
      ensures Satisfies(s, solved', ps', n) <==> Explains(s, src, d.seeds + {seed})
    {
      if Sized(s, n) {
        LearnMeaning(t, s, d.solved, d.pending, e, n);
        if Satisfies(s, d.solved, d.pending, n) { ReduceMeaning(s, p, d.solved, n); }
      }
    }
    LearnMeaning(t, t, d.solved, d.pending, e, n);
    LearnKeepsSolved(d.solved, d.pending, e);
    forall i: nat | i < K(src) && i in d.seeds + {seed} ensures i in solved' {
      if i == seed && i !in d.solved { assert e.indices == {i}; }
    }
  }

  lemma ReduceShape(e: Equation, solved: map<nat, Block>)
    requires Sized(solved, |e.data|)
    ensures Reduce(e, solved).indices == e.indices - solved.Keys && |Reduce(e, solved).data| == |e.data|
  {}

  lemma FitsAlways(src: Source, d: Decoder, p: FountainPacket)
    requires src.Valid() && Sound(src, d) && Genuine(src, p)
    requires d.lock.Unlocked? ==> p.sessionId == src.sessionId
    ensures Fits(d, p)
    ensures Accepts(d, p) ==> p == PacketAt(src, p.seed) && |p.data| == src.blockSize
  {
    PacketFacts(src, p.seed);
    assert Sized(d.solved, src.blockSize);
  }

  /**
   One packet: the invariant is kept, no exception is raised, the answer says whether the
   payload is complete, and an accepted packet's seed is remembered until then.
   */
  lemma StepKeepsInvariant(src: Source, d: Decoder, p: FountainPacket)
    requires src.Valid() && Invariant(src, d) && Genuine(src, p)
    requires d.lock.Unlocked? ==> p.sessionId == src.sessionId
    ensures Fits(d, p)
    ensures var (d', o) := AddPacket(d, p);
            && Invariant(src, d') && d'.lock.Locked?
            && o == Returned(d'.complete)
            && (d.complete ==> d'.complete)
            && d.seeds <= d'.seeds
            && (p.sessionId == src.sessionId && !d'.complete ==> p.seed in d'.seeds)
  {
    FitsAlways(src, d, p);
    if Accepts(d, p) {
      StepAccepted(src, d, p);
    } else {
      StepRejected(src, d, p);
    }
    hide *;
  }

  lemma StepRejected(src: Source, d: Decoder, p: FountainPacket)
    requires src.Valid() && Invariant(src, d) && Genuine(src, p) && Fits(d, p) && !Accepts(d, p)
    requires d.lock.Unlocked? ==> p.sessionId == src.sessionId
    ensures var (d', o) := AddPacket(d, p);
            && Invariant(src, d') && d'.lock.Locked?
            && o == Returned(d.complete) && d'.complete == d.complete && d'.seeds == d.seeds
            && (p.sessionId == src.sessionId && !d.complete ==> p.seed in d.seeds)
  {
    hide PacketAt, BlocksOf, Learn, Reduce, Explains, Satisfies, Wide;
    SessionFacts(src);
    var d' := AddPacket(d, p).0;
    if !d.complete {
      assert d'.solved == d.solved && d'.pending == d.pending && d'.seeds == d.seeds;
      assert KnowsExactly(src, d');
    }
  }

  lemma StepAccepted(src: Source, d: Decoder, p: FountainPacket)
    requires src.Valid() && Invariant(src, d) && Accepts(d, p) && p == PacketAt(src, p.seed) && Fits(d, p)
    requires |p.data| == src.blockSize
    ensures var (d', o) := AddPacket(d, p);
            Invariant(src, d') && d'.lock.Locked? && o == Returned(d'.complete) && d'.seeds == d.seeds + {p.seed}
  {
    hide PacketAt, BlocksOf, EquationOf, Holds, Learn, Reduce, CheckCompletion, Explains, Satisfies, Wide;
    PacketFacts(src, p.seed);
    var e := Reduce(EquationOf(p), d.solved);
    var (solved', ps') := Learn(d.solved, d.pending, e);
    LearnStep(src, d, p.seed, e, solved', ps');
    LearnNothing(d.solved, d.pending, e);
    var lock := if d.lock.Locked? then d.lock else Locked(SessionOf(p));
    var d3 := Decoder(lock, solved', ps', d.seeds + {p.seed}, d.frames + 1, false, Missing);
    assert Sound(src, d3);
    CompletionIsPayload(src, d3);
  }

  lemma LearnNothing(solved: map<nat, Block>, ps: seq<Equation>, e: Equation)
    ensures e.indices == {} ==> Learn(solved, ps, e) == (solved, ps)
  {}

  // ----- whole runs ---------------------------------------------------------------------------

  /** A run of the decoder over packets; `raised` records whether any of them raised. */
  datatype Run = Run(decoder: Decoder, raised: bool)

  ghost predicate AllFit(d: Decoder, ps: seq<FountainPacket>)
    decreases |ps|
  {
    ps != [] ==> Fits(d, ps[0]) && AllFit(AddPacket(d, ps[0]).0, ps[1..])
  }

  ghost function Feed(d: Decoder, ps: seq<FountainPacket>): Run
    requires AllFit(d, ps)
    decreases |ps|
  {
    if ps == [] then Run(d, false) else
      var (d', o) := AddPacket(d, ps[0]);
      var r := Feed(d', ps[1..]);
      Run(r.decoder, r.raised || !o.Returned?)
  }

  /** Packets of one encoder, in any order and number, mixed with other sessions' packets. */
  ghost predicate GenuineStream(src: Source, ps: seq<FountainPacket>)
    requires src.Valid()
  {
    forall i :: 0 <= i < |ps| ==> Genuine(src, ps[i])
  }

  ghost predicate Received(src: Source, ps: seq<FountainPacket>, seed: int) {
    exists i :: 0 <= i < |ps| && ps[i].sessionId == src.sessionId && ps[i].seed == seed
  }

  lemma FeedUnfold(d: Decoder, ps: seq<FountainPacket>)
    requires ps != [] && Fits(d, ps[0]) && AllFit(AddPacket(d, ps[0]).0, ps[1..])
    ensures AllFit(d, ps)
    ensures var (d', o) := AddPacket(d, ps[0]);
            var r := Feed(d', ps[1..]);
            Feed(d, ps) == Run(r.decoder, r.raised || !o.Returned?)
  {
    hide Fits, AddPacket;
  }

  lemma ReceivedSplit(src: Source, ps: seq<FountainPacket>, seed: int)
    requires ps != []
    ensures Received(src, ps, seed) <==>
            (ps[0].sessionId == src.sessionId && ps[0].seed == seed) || Received(src, ps[1..], seed)
  {
    if Received(src, ps, seed) {
      var i :| 0 <= i < |ps| && ps[i].sessionId == src.sessionId && ps[i].seed == seed;
      if i > 0 { assert ps[1..][i - 1] == ps[i]; }
    }
    if Received(src, ps[1..], seed) {
      var i :| 0 <= i < |ps[1..]| && ps[1..][i].sessionId == src.sessionId && ps[1..][i].seed == seed;
      assert ps[i + 1] == ps[1..][i];
    }
  }

  lemma GenuineSplit(src: Source, ps: seq<FountainPacket>)
    requires src.Valid() && GenuineStream(src, ps) && ps != []
    ensures Genuine(src, ps[0]) && GenuineStream(src, ps[1..])
  {
    hide Genuine;
  }

  lemma {:induction false} FeedKeepsInvariant(src: Source, d: Decoder, ps: seq<FountainPacket>)
    requires src.Valid() && Invariant(src, d) && GenuineStream(src, ps)
    requires d.lock.Unlocked? && ps != [] ==> ps[0].sessionId == src.sessionId
    ensures AllFit(d, ps)
    ensures var r := Feed(d, ps);
            && Invariant(src, r.decoder) && !r.raised
            && (d.complete ==> r.decoder.complete)
            && d.seeds <= r.decoder.seeds
            && (!r.decoder.complete ==> forall seed :: Received(src, ps, seed) ==> seed in r.decoder.seeds)
    decreases |ps|
  {
    hide Invariant, AddPacket, Fits, Genuine, GenuineStream, Received;
    if ps == [] {
      NoneReceived(src);
    } else {
      GenuineSplit(src, ps);
      StepKeepsInvariant(src, d, ps[0]);
      var d' := AddPacket(d, ps[0]).0;
      FeedKeepsInvariant(src, d', ps[1..]);
      FeedUnfold(d, ps);
      hide Feed, AllFit;
      forall seed | Received(src, ps, seed) && !Feed(d, ps).decoder.complete
        ensures seed in Feed(d, ps).decoder.seeds
      {
        ReceivedSplit(src, ps, seed);
      }
    }
  }

  lemma NoneReceived(src: Source)
    ensures forall seed :: !Received(src, [], seed)
  {}

  lemma FreshInvariant(src: Source)
    requires src.Valid()
    ensures Invariant(src, Fresh())
  {
    hide PacketAt, BlocksOf, BlockCount;
    CountPositive(src);
    assert |Fresh().solved| == 0;
    BlocksSized(src);
  }

  lemma BlocksSized(src: Source)
    requires src.Valid()
    ensures Sized(BlocksOf(src), src.blockSize)
  {}

  /**
   Soundness, over every run: whatever packets of one encoder arrive, in any order, with loss,
   repetition and frames of other sessions mixed in after the first, every solved block and
   every pending equation is true of the payload's blocks, a complete decoder holds exactly the
   payload, and neither the checksum nor the length check ever raises.
   */
  lemma DecoderSoundness(src: Source, ps: seq<FountainPacket>)
    requires src.Valid() && GenuineStream(src, ps)
    requires ps != [] ==> ps[0].sessionId == src.sessionId
    ensures AllFit(Fresh(), ps)
    ensures var r := Feed(Fresh(), ps);
            && !r.raised
            && Satisfies(BlocksOf(src), r.decoder.solved, r.decoder.pending, src.blockSize)
            && Wide(r.decoder.pending, src.blockSize)
            && (r.decoder.complete ==> r.decoder.payload == Present(src.payload))
  {
    FreshInvariant(src);
    FeedKeepsInvariant(src, Fresh(), ps);
    hide BlocksOf, PacketAt, AddPacket;
  }

  /** Nothing is lost: the decoder knows exactly what all received packets say together, finished or not. */
  lemma DecoderLosesNothing(src: Source, ps: seq<FountainPacket>, s: map<nat, Block>)
    requires src.Valid() && GenuineStream(src, ps) && Sized(s, src.blockSize)
    requires ps != [] ==> ps[0].sessionId == src.sessionId
    ensures AllFit(Fresh(), ps)
    ensures var d := Feed(Fresh(), ps).decoder;
            Satisfies(s, d.solved, d.pending, src.blockSize) <==>
            forall seed :: Received(src, ps, seed) ==> Holds(s, EquationOf(PacketAt(src, seed)), src.blockSize)
  {
    hide BlocksOf, PacketAt, EquationOf, AddPacket, Holds, Satisfies, Explains, Sound;
    FreshInvariant(src);
    FeedKeepsInvariant(src, Fresh(), ps);
    FeedSeeds(src, Fresh(), ps);
    var d := Feed(Fresh(), ps).decoder;
    assert Satisfies(s, d.solved, d.pending, src.blockSize) <==> Explains(s, src, d.seeds);
    ExplainsEach(s, src, d.seeds);
    if d.complete && Satisfies(s, d.solved, d.pending, src.blockSize) {
      forall seed ensures Holds(s, EquationOf(PacketAt(src, seed)), src.blockSize) {
        WholeHolds(s, src, d, seed);
      }
    }
  }

  lemma ExplainsEach(s: map<nat, Block>, src: Source, seeds: set<int>)
    requires src.Valid() && Sized(s, src.blockSize)
    ensures Explains(s, src, seeds) <==>
            forall seed :: seed in seeds ==> Holds(s, EquationOf(PacketAt(src, seed)), src.blockSize)
  {}

  /** Whoever has all blocks of the payload satisfies every packet. */
  lemma WholeHolds(s: map<nat, Block>, src: Source, d: Decoder, seed: int)
    requires src.Valid() && Satisfies(s, d.solved, d.pending, src.blockSize) && d.solved == BlocksOf(src)
    ensures Holds(s, EquationOf(PacketAt(src, seed)), src.blockSize)
  {
    hide PacketAt, BlocksOf, EquationOf;
    PacketFacts(src, seed);
    XorAllAgree(s, BlocksOf(src), EquationOf(PacketAt(src, seed)).indices, src.blockSize);
  }

  /** Only received packets' seeds are remembered. */
  lemma {:induction false} FeedSeeds(src: Source, d: Decoder, ps: seq<FountainPacket>)
    requires src.Valid() && Invariant(src, d) && GenuineStream(src, ps) && AllFit(d, ps)
    requires d.lock.Unlocked? && ps != [] ==> ps[0].sessionId == src.sessionId
    ensures forall seed :: seed in Feed(d, ps).decoder.seeds ==> seed in d.seeds || Received(src, ps, seed)
    decreases |ps|
  {
    hide Invariant, AddPacket, Fits, Genuine, GenuineStream, Received;
    if ps != [] {
      GenuineSplit(src, ps);
      StepKeepsInvariant(src, d, ps[0]);
      StepSeeds(src, d, ps[0]);
      var d' := AddPacket(d, ps[0]).0;
      FeedSeeds(src, d', ps[1..]);
      FeedUnfold(d, ps);
      hide Feed, AllFit;
      forall seed | seed in Feed(d, ps).decoder.seeds ensures seed in d.seeds || Received(src, ps, seed) {
        ReceivedSplit(src, ps, seed);
      }
    }
  }

  lemma StepSeeds(src: Source, d: Decoder, p: FountainPacket)
    requires src.Valid() && Invariant(src, d) && Genuine(src, p) && Fits(d, p)
    requires d.lock.Unlocked? ==> p.sessionId == src.sessionId
    ensures AddPacket(d, p).0.seeds <= d.seeds + {p.seed}
    ensures p.sessionId != src.sessionId ==> AddPacket(d, p).0.seeds == d.seeds
  {
    FitsAlways(src, d, p);
    SessionFacts(src);
    if Accepts(d, p) { StepAccepted(src, d, p); } else { StepRejected(src, d, p); }
    hide AddPacket, PacketAt, BlocksOf, Satisfies, KnowsExactly;
  }

  /**
   Guaranteed delivery: once the k systematic packets of an encoder are among those received,
   in any order and mixed with any others, the decoder is complete and holds the payload.
   */
  lemma GuaranteedDelivery(src: Source, ps: seq<FountainPacket>)
    requires src.Valid() && GenuineStream(src, ps)
    requires ps != [] && ps[0].sessionId == src.sessionId
    requires forall i: nat :: i < K(src) ==> Received(src, ps, i)
    ensures AllFit(Fresh(), ps)
    ensures var d := Feed(Fresh(), ps).decoder; d.complete && d.payload == Present(src.payload)
  {
    FreshInvariant(src);
    FeedKeepsInvariant(src, Fresh(), ps);
    hide PacketAt, BlocksOf, AddPacket, Wide;
    var d := Feed(Fresh(), ps).decoder;
    if !d.complete {
      assert AllSolved(d.solved, K(src));
      SolvedSize(src, d.solved);
    }
  }
}

/**
 The TypeScript decoder on whole streams: of its own encoder, and of the app's. The frames carry no block
 numbers, so the decoder names the blocks of a frame by its own sampler.
 */
module TwinStreams {
  import opened Blocks
  import opened Peeling
  import opened Sampling
  import opened Stream
  import opened TwinDecoding
  import Checksums
  import D = Decoding
  import Prng
  import Ripple

  /** Whose sampler chose the blocks of a frame. */
  datatype Sampler = App | Script

  /** The blocks that a sampler names for a seed. */
  ghost function Named(enc: Sampler, src: Source, seed: nat): (I: set<nat>)
    requires src.Valid()
    ensures I <= BlocksOf(src).Keys
  {
    InRange(src, seed);
    match enc
    case App => IndexSet(Sample(seed, D.K(src)).1)
    case Script => ScriptSet(seed, D.K(src))
  }

  ghost function ScriptSet(seed: nat, k: nat): set<nat> {
    set i: nat | i in SampleTs(seed, k).1
  }

  lemma InRange(src: Source, seed: nat)
    requires src.Valid()
    ensures IndexSet(Sample(seed, D.K(src)).1) <= BlocksOf(src).Keys
    ensures ScriptSet(seed, D.K(src)) <= BlocksOf(src).Keys
  {
    hide BlocksOf, Sample, SampleTs, SameSample;
    CountPositive(src);
    D.BlocksKeys(src);
    SampleShape(seed, D.K(src));
    SampleTsShape(seed, D.K(src));
  }

  /** The XOR of some of the payload's blocks. */
  ghost function Mixed(src: Source, I: set<nat>): Block
    requires src.Valid() && I <= BlocksOf(src).Keys
  {
    XorAll(BlocksOf(src), I, src.blockSize)
  }

  /** What a frame says truthfully: the XOR of the blocks that its encoder chose. */
  ghost function Sent(enc: Sampler, src: Source, seed: nat): Equation
    requires src.Valid()
  {
    var I := Named(enc, src, seed);
    Equation(I, Mixed(src, I))
  }

  /** What the script's decoder takes it to say. */
  ghost function Taken(enc: Sampler, src: Source, seed: nat): Equation
    requires src.Valid()
  {
    Equation(Named(Script, src, seed), Sent(enc, src, seed).data)
  }

  datatype Verdict = Waiting | BlockMissing | ChecksumFailed | Delivered(bytes: seq<bv8>)

  /** Solved blocks, pending equations, seeds seen, and the payload once it is complete. */
  datatype Twin = Twin(solved: map<nat, Block>, pending: seq<Equation>, seeds: set<nat>, payload: D.Payload)

  ghost function Start(): Twin { Twin(map[], [], {}, D.Missing) }

  /** The completion test; a missing block and a wrong checksum throw. */
  ghost function CheckCompletion(k: nat, totalLength: nat, checksum: string, solved: map<nat, Block>): Verdict {
    if |solved| < k then Waiting
    else if !D.AllSolved(solved, k) then BlockMissing
    else
      var all := Concat(solved, k);
      var raw := all[..Min(totalLength, |all|)];
      if Checksums.OfPayload(raw) != checksum then ChecksumFailed else Delivered(raw)
  }

  ghost function Check(src: Source, solved: map<nat, Block>): Verdict
    requires src.Valid()
  {
    CheckCompletion(D.K(src), |src.payload|, Checksums.OfPayload(src.payload), solved)
  }

  /**
   One frame of a session: after completion and for a seed that was seen nothing changes. Blocks of one
   source all have its size, so the last guard always passes.
   */
  ghost function Take(enc: Sampler, src: Source, w: Twin, seed: nat): (Twin, Verdict)
    requires src.Valid()
  {
    if w.payload.Present? then (w, Delivered(w.payload.bytes))
    else if seed in w.seeds then (w, Waiting)
    else if !Sized(w.solved, |Taken(enc, src, seed).data|) then (w, Waiting)
    else
      var e := D.Reduce(Taken(enc, src, seed), w.solved);
      if e.indices == {} then (w.(seeds := w.seeds + {seed}), Waiting)
      else
        var (solved, pending) := Learn(w.solved, w.pending, e);
        var verdict := Check(src, solved);
        var payload := if verdict.Delivered? then D.Present(verdict.bytes) else D.Missing;
        (Twin(solved, pending, w.seeds + {seed}, payload), verdict)
  }

  datatype Run = Run(twin: Twin, thrown: bool)

  ghost function TakeAll(enc: Sampler, src: Source, seeds: seq<nat>): Run
    requires src.Valid()
  {
    if seeds == [] then Run(Start(), false)
    else
      var before := TakeAll(enc, src, seeds[..|seeds| - 1]);
      var (w, verdict) := Take(enc, src, before.twin, seeds[|seeds| - 1]);
      Run(w, before.thrown || verdict.BlockMissing? || verdict.ChecksumFailed?)
  }

  // ----- nothing unchecked is delivered ------------------------------------------------------------------

  /** The four verdicts, on any blocks; the comparison of checksums minds the letter case here. */
  lemma VerdictIs(k: nat, totalLength: nat, checksum: string, solved: map<nat, Block>)
    ensures var v := CheckCompletion(k, totalLength, checksum, solved);
            if |solved| < k then v == Waiting
            else if exists i: nat :: i < k && i !in solved then v == BlockMissing
            else
              var all := Concat(solved, k);
              var bytes := if totalLength < |all| then all[..totalLength] else all;
              v == if Checksums.OfPayload(bytes) == checksum then Delivered(bytes) else ChecksumFailed
  {
    hide Concat, Checksums.OfPayload;
    if |solved| >= k && D.AllSolved(solved, k) {
      var all := Concat(solved, k);
      assert all[..|all|] == all;
    }
  }

  /** Over every run, with either sampler: what the script holds as the payload has the announced checksum. */
  lemma {:induction false} DeliveredIsChecked(enc: Sampler, src: Source, seeds: seq<nat>)
    requires src.Valid()
    ensures var w := TakeAll(enc, src, seeds).twin;
            w.payload.Present? ==> Checksums.OfPayload(w.payload.bytes) == Checksums.OfPayload(src.payload)
  {
    hide Taken, D.Reduce, Learn, Concat, Checksums.OfPayload, D.AllSolved;
    if seeds != [] {
      DeliveredIsChecked(enc, src, seeds[..|seeds| - 1]);
    }
  }

  // ----- frames ------------------------------------------------------------------------------------------

  lemma SystematicFrame(enc: Sampler, src: Source, seed: nat)
    requires src.Valid() && seed < D.K(src)
    ensures Named(enc, src, seed) == {seed}
  {
    hide BlocksOf, Sample, SampleTs, SameSample;
    SampleTsShape(seed, D.K(src));
    D.SystematicSample(seed, D.K(src));
    assert IndexSet([seed]) == {seed};
  }

  /** A frame says the truth; it is taken for what it says when both samplers name the same blocks. */
  lemma FrameFacts(enc: Sampler, src: Source, seed: nat)
    requires src.Valid()
    ensures |Sent(enc, src, seed).data| == src.blockSize && Holds(BlocksOf(src), Sent(enc, src, seed), src.blockSize)
    ensures Taken(enc, src, seed).data == Sent(enc, src, seed).data
    ensures Named(enc, src, seed) == Named(Script, src, seed) ==> Taken(enc, src, seed) == Sent(enc, src, seed)
  {
    hide BlocksOf, Named;
    BlocksAreSized(src);
  }

  lemma BlocksAreSized(src: Source)
    requires src.Valid()
    ensures Sized(BlocksOf(src), src.blockSize)
  {}

  /** The app's frame, as the app's own decoder reads it. */
  lemma SentByApp(src: Source, seed: nat)
    requires src.Valid()
    ensures Sent(App, src, seed) == D.EquationOf(PacketAt(src, seed))
  {
    hide BlocksOf, Sample;
  }

  /** The decoder takes the app's frames for what they say exactly where the samplers agree. */
  lemma TakenAsSent(src: Source, seed: nat)
    requires src.Valid()
    ensures SameSample(seed, D.K(src)) <==> Named(App, src, seed) == Named(Script, src, seed)
    ensures !SameSample(seed, D.K(src)) ==> Named(Script, src, seed) == BlocksOf(src).Keys
  {
    hide BlocksOf, Sample, SampleTs, SameSample;
    CountPositive(src);
    D.BlocksKeys(src);
    var k := D.K(src);
    TwinSamplers(seed, k);
    SampleTsShape(seed, k);
    SampleShape(seed, k);
    if SameSample(seed, k) {
      assert forall i: nat :: i in Sample(seed, k).1 <==> i in SampleTs(seed, k).1;
    } else {
      ShortSample(seed, k);
    }
  }

  /** Where the samplers differ, the app's leaves some block out. */
  lemma ShortSample(seed: nat, k: nat)
    requires k >= 1 && !SameSample(seed, k)
    ensures IndexSet(Sample(seed, k).1) != D.Below(k)
  {
    var indices := Sample(seed, k).1;
    SampleShape(seed, k);
    AppDegree(seed, k);
    hide Sample;
    SetOfSeq(indices);
  }

  lemma AppDegree(seed: nat, k: nat)
    requires k >= 1 && !SameSample(seed, k)
    ensures Sample(seed, k).0 < k
  {
    hide Prng.Xorshift32, RawProb;
  }

  lemma {:induction false} SetOfSeq(s: seq<nat>)
    ensures |IndexSet(s)| <= |s|
  {
    if s == [] {
      assert IndexSet(s) == {};
    } else {
      SetOfSeq(s[1..]);
      assert IndexSet(s) == {s[0]} + IndexSet(s[1..]);
    }
  }

  // ----- one frame -----------------------------------------------------------------------------------------

  ghost predicate Explains(s: map<nat, Block>, enc: Sampler, src: Source, seeds: set<nat>)
    requires src.Valid()
  {
    Sized(s, src.blockSize) && forall seed :: seed in seeds ==> Holds(s, Sent(enc, src, seed), src.blockSize)
  }

  /** The decoder takes the frame for what it says; so it does with every frame of its own encoder. */
  ghost predicate Faithful(enc: Sampler, src: Source, seed: nat)
    requires src.Valid()
  {
    Named(enc, src, seed) == Named(Script, src, seed)
  }

  ghost predicate Knows(enc: Sampler, src: Source, w: Twin)
    requires src.Valid()
  {
    && Satisfies(BlocksOf(src), w.solved, w.pending, src.blockSize) && Wide(w.pending, src.blockSize)
    && forall s: map<nat, Block> :: Satisfies(s, w.solved, w.pending, src.blockSize) <==> Explains(s, enc, src, w.seeds)
  }

  ghost predicate Invariant(enc: Sampler, src: Source, w: Twin)
    requires src.Valid()
  {
    && Knows(enc, src, w)
    && (if w.payload.Present? then w.payload.bytes == src.payload && w.solved == BlocksOf(src)
        else |w.solved| < D.K(src) && forall i: nat :: i < D.K(src) && i in w.seeds ==> i in w.solved)
  }

  lemma SolvedFacts(enc: Sampler, src: Source, w: Twin)
    requires src.Valid() && Knows(enc, src, w)
    ensures Sized(w.solved, src.blockSize) && Agrees(BlocksOf(src), w.solved)
  {}

  /** The completion test on true blocks: it waits, or delivers the payload. */
  lemma CheckGenuine(src: Source, solved: map<nat, Block>)
    requires src.Valid() && Agrees(BlocksOf(src), solved)
    ensures if |solved| < D.K(src) then Check(src, solved) == Waiting
            else Check(src, solved) == Delivered(src.payload) && solved == BlocksOf(src)
    ensures D.AllSolved(solved, D.K(src)) ==> |solved| == D.K(src)
  {
    hide BlocksOf, Checksums.OfPayload, Concat;
    D.SolvedSize(src, solved);
    if |solved| >= D.K(src) {
      BlocksRoundTrip(src);
      D.BlocksKeys(src);
    }
  }

  lemma NotSized(s: map<nat, Block>, enc: Sampler, src: Source, solved: map<nat, Block>, ps: seq<Equation>,
                 seeds: set<nat>)
    requires src.Valid() && !Sized(s, src.blockSize)
    ensures !Satisfies(s, solved, ps, src.blockSize) && !Explains(s, enc, src, seeds)
  {}

  lemma MoreExplained(s: map<nat, Block>, enc: Sampler, src: Source, seeds: set<nat>, seed: nat)
    requires src.Valid()
    ensures Explains(s, enc, src, seeds + {seed})
       <==> Explains(s, enc, src, seeds) && Holds(s, Sent(enc, src, seed), src.blockSize)
  {
    hide Sent, Holds;
  }

  lemma LearnExplains(s: map<nat, Block>, enc: Sampler, src: Source, w: Twin, seed: nat)
    requires src.Valid() && Knows(enc, src, w) && Sized(w.solved, |Sent(enc, src, seed).data|)
    ensures var (solved', ps') := Learn(w.solved, w.pending, D.Reduce(Sent(enc, src, seed), w.solved));
            Satisfies(s, solved', ps', src.blockSize) <==> Explains(s, enc, src, w.seeds + {seed})
  {
    hide Sent, Named, BlocksOf, Holds, Learn, D.Reduce, Satisfies, Wide, Explains, Sized;
    FrameFacts(enc, src, seed);
    BlocksAreSized(src);
    var t, n, p := BlocksOf(src), src.blockSize, Sent(enc, src, seed);
    var e := D.Reduce(p, w.solved);
    var (solved', ps') := Learn(w.solved, w.pending, e);
    D.ReduceShape(p, w.solved);
    Reduced(t, w, p, n);
    MoreExplained(s, enc, src, w.seeds, seed);
    if Sized(s, n) {
      LearnMeaning(t, s, w.solved, w.pending, e, n);
      if Satisfies(s, w.solved, w.pending, n) { Reduced(s, w, p, n); }
    } else {
      NotSized(s, enc, src, solved', ps', w.seeds + {seed});
    }
  }

  lemma Reduced(s: map<nat, Block>, w: Twin, p: Equation, n: nat)
    requires Satisfies(s, w.solved, w.pending, n) && |p.data| == n && Sized(w.solved, n)
    ensures Holds(s, p, n) <==> Holds(s, D.Reduce(p, w.solved), n)
  {
    D.ReduceMeaning(s, p, w.solved, n);
  }

  lemma LearnKeepsKnowledge(enc: Sampler, src: Source, w: Twin, seed: nat)
    requires src.Valid() && Knows(enc, src, w) && Sized(w.solved, |Sent(enc, src, seed).data|)
    ensures var e := D.Reduce(Sent(enc, src, seed), w.solved);
            var (solved', ps') := Learn(w.solved, w.pending, e);
            && Knows(enc, src, Twin(solved', ps', w.seeds + {seed}, w.payload))
            && (forall i :: i in w.solved ==> i in solved') && (|e.indices| == 1 ==> The(e.indices) in solved')
  {
    hide Sent, Named, BlocksOf, Holds, Learn, D.Reduce, Satisfies, Wide, Explains;
    FrameFacts(enc, src, seed);
    SolvedFacts(enc, src, w);
    BlocksAreSized(src);
    var t, n, p := BlocksOf(src), src.blockSize, Sent(enc, src, seed);
    var e := D.Reduce(p, w.solved);
    var (solved', ps') := Learn(w.solved, w.pending, e);
    D.ReduceShape(p, w.solved);
    Reduced(t, w, p, n);
    LearnMeaning(t, t, w.solved, w.pending, e, n);
    forall s: map<nat, Block>
      ensures Satisfies(s, solved', ps', n) <==> Explains(s, enc, src, w.seeds + {seed})
    {
      LearnExplains(s, enc, src, w, seed);
    }
  }

  /** What a frame that is taken does, spelled out. */
  lemma TakeShape(enc: Sampler, src: Source, w: Twin, seed: nat)
    requires src.Valid() && w.payload.Missing? && seed !in w.seeds && Sized(w.solved, |Taken(enc, src, seed).data|)
    ensures var (solved, pending) := Learn(w.solved, w.pending, D.Reduce(Taken(enc, src, seed), w.solved));
            var (w', verdict) := Take(enc, src, w, seed);
            && w'.solved == solved && w'.pending == pending && w'.seeds == w.seeds + {seed}
            && (D.Reduce(Taken(enc, src, seed), w.solved).indices != {} ==> verdict == Check(src, solved))
            && (D.Reduce(Taken(enc, src, seed), w.solved).indices == {} ==> solved == w.solved && verdict == Waiting)
            && w'.payload == if verdict.Delivered? then D.Present(verdict.bytes) else D.Missing
  {
    hide Taken, D.Reduce, Check, TwinDecoding.SolveBlock;
  }

  /** A faithful frame keeps what the decoder knows, throws nothing, and delivers only the payload. */
  lemma TakeKeepsInvariant(enc: Sampler, src: Source, w: Twin, seed: nat)
    requires src.Valid() && Invariant(enc, src, w) && Faithful(enc, src, seed)
    ensures var (w', verdict) := Take(enc, src, w, seed);
            && Invariant(enc, src, w') && (verdict == Waiting || verdict == Delivered(src.payload))
            && (w.payload.Present? ==> w'.payload.Present?) && w.seeds <= w'.seeds <= w.seeds + {seed}
            && (w'.payload.Missing? ==> seed in w'.seeds)
  {
    hide Sent, Taken, Named, BlocksOf, Learn, D.Reduce, Knows, Check;
    if w.payload.Missing? && seed !in w.seeds {
      FrameFacts(enc, src, seed);
      SolvedFacts(enc, src, w);
      LearnKeepsKnowledge(enc, src, w, seed);
      TakeShape(enc, src, w, seed);
      var e := D.Reduce(Sent(enc, src, seed), w.solved);
      var (solved', ps') := Learn(w.solved, w.pending, e);
      SolvedFacts(enc, src, Twin(solved', ps', w.seeds + {seed}, w.payload));
      KnowsWithout(enc, src, Twin(solved', ps', w.seeds + {seed}, w.payload), Take(enc, src, w, seed).0);
      CheckGenuine(src, solved');
      if seed < D.K(src) {
        SystematicIsSolved(enc, src, w, seed);
      }
    }
  }

  /** What is known does not depend on the payload field. */
  lemma KnowsWithout(enc: Sampler, src: Source, w: Twin, w': Twin)
    requires src.Valid() && Knows(enc, src, w)
    requires w'.solved == w.solved && w'.pending == w.pending && w'.seeds == w.seeds
    ensures Knows(enc, src, w')
  {
    hide Satisfies, Explains, BlocksOf, Wide;
  }

  lemma SystematicIsSolved(enc: Sampler, src: Source, w: Twin, seed: nat)
    requires src.Valid() && Knows(enc, src, w) && seed < D.K(src) && Sized(w.solved, |Sent(enc, src, seed).data|)
    ensures seed in Learn(w.solved, w.pending, D.Reduce(Sent(enc, src, seed), w.solved)).0
  {
    hide Named, BlocksOf, Learn, D.Reduce, Knows, Mixed;
    SystematicFrame(enc, src, seed);
    LearnKeepsKnowledge(enc, src, w, seed);
    var p := Sent(enc, src, seed);
    D.ReduceShape(p, w.solved);
    if seed !in w.solved {
      var e := D.Reduce(p, w.solved);
      assert e.indices == {seed} && |{seed}| == 1;
      assert The(e.indices) in e.indices;
    }
  }

  // ----- whole streams ---------------------------------------------------------------------------------------

  ghost predicate AllFaithful(enc: Sampler, src: Source, seeds: seq<nat>)
    requires src.Valid()
  {
    forall seed :: seed in seeds ==> Faithful(enc, src, seed)
  }

  lemma StartInvariant(enc: Sampler, src: Source)
    requires src.Valid()
    ensures Invariant(enc, src, Start())
  {
    hide BlocksOf;
    BlocksAreSized(src);
    CountPositive(src);
  }

  lemma {:induction false} TakeAllInvariant(enc: Sampler, src: Source, seeds: seq<nat>)
    requires src.Valid() && AllFaithful(enc, src, seeds)
    ensures var r := TakeAll(enc, src, seeds);
            && Invariant(enc, src, r.twin) && !r.thrown
            && (forall seed :: seed in r.twin.seeds ==> seed in seeds)
            && (r.twin.payload.Missing? ==> forall seed :: seed in seeds ==> seed in r.twin.seeds)
  {
    hide Invariant, Take, Faithful;
    if seeds == [] {
      StartInvariant(enc, src);
    } else {
      var front, last := seeds[..|seeds| - 1], seeds[|seeds| - 1];
      assert seeds == front + [last];
      TakeAllInvariant(enc, src, front);
      TakeKeepsInvariant(enc, src, TakeAll(enc, src, front).twin, last);
    }
  }

  /**
   Soundness and delivery for faithful frames, in any order and number: nothing is thrown, every solved
   block and pending equation is true of the payload, a delivered payload is the payload, and it is
   delivered once the first k seeds are among those taken.
   */
  lemma StreamSound(enc: Sampler, src: Source, seeds: seq<nat>)
    requires src.Valid() && AllFaithful(enc, src, seeds)
    ensures var r := TakeAll(enc, src, seeds);
            && !r.thrown && Satisfies(BlocksOf(src), r.twin.solved, r.twin.pending, src.blockSize)
            && (r.twin.payload.Present? ==> r.twin.payload.bytes == src.payload)
            && ((forall i: nat :: i < D.K(src) ==> i in seeds) ==> r.twin.payload == D.Present(src.payload))
  {
    hide BlocksOf, Satisfies, Wide, Explains, Take, AllFaithful;
    var w := TakeAll(enc, src, seeds).twin;
    TakeAllInvariant(enc, src, seeds);
    SolvedFacts(enc, src, w);
    CheckGenuine(src, w.solved);
  }

  /** The script decodes its own encoder's frames, whatever they are. */
  lemma ScriptDelivers(src: Source, seeds: seq<nat>)
    requires src.Valid()
    ensures var r := TakeAll(Script, src, seeds);
            && !r.thrown && Satisfies(BlocksOf(src), r.twin.solved, r.twin.pending, src.blockSize)
            && (r.twin.payload.Present? ==> r.twin.payload.bytes == src.payload)
            && ((forall i: nat :: i < D.K(src) ==> i in seeds) ==> r.twin.payload == D.Present(src.payload))
  {
    hide TakeAll, BlocksOf, Satisfies, Named;
    StreamSound(Script, src, seeds);
  }

  /** It decodes the app's frames where the samplers agree. */
  lemma AppFrames(src: Source, seeds: seq<nat>)
    requires src.Valid() && forall seed :: seed in seeds ==> SameSample(seed, D.K(src))
    ensures AllFaithful(App, src, seeds)
  {
    hide Named, SameSample;
    forall seed | seed in seeds ensures Faithful(App, src, seed) { TakenAsSent(src, seed); }
  }

  lemma TwinDelivers(src: Source, seeds: seq<nat>)
    requires src.Valid() && forall seed :: seed in seeds ==> SameSample(seed, D.K(src))
    ensures var r := TakeAll(App, src, seeds);
            && !r.thrown && Satisfies(BlocksOf(src), r.twin.solved, r.twin.pending, src.blockSize)
            && (r.twin.payload.Present? ==> r.twin.payload.bytes == src.payload)
            && ((forall i: nat :: i < D.K(src) ==> i in seeds) ==> r.twin.payload == D.Present(src.payload))
  {
    hide TakeAll, BlocksOf, Satisfies, SameSample, AllFaithful;
    AppFrames(src, seeds);
    StreamSound(App, src, seeds);
  }

  // ----- the two decoders side by side -----------------------------------------------------------------------

  lemma ExplainsEach(s: map<nat, Block>, src: Source, seeds: set<nat>)
    requires src.Valid() && Sized(s, src.blockSize)
    ensures Explains(s, App, src, seeds)
       <==> forall seed: nat :: seed in seeds ==> Holds(s, D.EquationOf(PacketAt(src, seed)), src.blockSize)
  {
    hide Sent, Holds, D.EquationOf, PacketAt;
    forall seed: nat ensures Sent(App, src, seed) == D.EquationOf(PacketAt(src, seed)) { SentByApp(src, seed); }
  }

  /** What the script's decoder knows after the app's frames: what all of them say, finished or not. */
  lemma TwinLosesNothing(src: Source, seeds: seq<nat>, s: map<nat, Block>)
    requires src.Valid() && Sized(s, src.blockSize) && AllFaithful(App, src, seeds)
    ensures var w := TakeAll(App, src, seeds).twin;
            Satisfies(s, w.solved, w.pending, src.blockSize)
            <==> forall seed: nat :: seed in seeds ==> Holds(s, D.EquationOf(PacketAt(src, seed)), src.blockSize)
  {
    hide TakeAll, BlocksOf, PacketAt, D.EquationOf, Satisfies, Holds, Explains, Wide;
    var w := TakeAll(App, src, seeds).twin;
    TakeAllInvariant(App, src, seeds);
    assert Satisfies(s, w.solved, w.pending, src.blockSize) <==> Explains(s, App, src, w.seeds);
    ExplainsEach(s, src, w.seeds);
    if w.payload.Present? && Satisfies(s, w.solved, w.pending, src.blockSize) {
      forall seed: nat ensures Holds(s, D.EquationOf(PacketAt(src, seed)), src.blockSize) {
        D.WholeHolds(s, src, D.Fresh().(solved := w.solved, pending := w.pending), seed);
      }
    }
  }

  /**
   The two decoders know the same after the same frames of one app encoder, on which the samplers agree:
   whatever else the app's decoder saw, in whatever orders and with whatever repeats, finished or not, an
   assignment of blocks fits the one exactly when it fits the other.
   */
  lemma TwinsKnowTheSame(src: Source, ps: seq<FountainPacket>, seeds: seq<nat>, s: map<nat, Block>)
    requires src.Valid() && D.GenuineStream(src, ps) && (ps != [] ==> ps[0].sessionId == src.sessionId)
    requires forall seed :: D.Received(src, ps, seed) <==> seed in seeds
    requires forall seed :: seed in seeds ==> SameSample(seed, D.K(src))
    ensures D.AllFit(D.Fresh(), ps)
    ensures var d, w := D.Feed(D.Fresh(), ps).decoder, TakeAll(App, src, seeds).twin;
            Satisfies(s, d.solved, d.pending, src.blockSize) <==> Satisfies(s, w.solved, w.pending, src.blockSize)
  {
    hide TakeAll, BlocksOf, PacketAt, D.EquationOf, D.Feed, D.AllFit, Holds, SameSample, AllFaithful, D.GenuineStream,
         D.Received;
    AppFrames(src, seeds);
    D.DecoderSoundness(src, ps);
    if Sized(s, src.blockSize) {
      D.DecoderLosesNothing(src, ps, s);
      TwinLosesNothing(src, seeds, s);
    }
  }

  /**
   Yet they may hold different equations: after the frames 4, 29, 5 and 2 of any four-block payload the app
   has solved 0, 1 and 2 and keeps an equation of 1 and 3, the script has solved 1, 2 and 3 and keeps one of
   0 and 2.
   */
  lemma TwinsDiffer(src: Source)
    requires src.Valid() && D.K(src) == 4
    ensures D.AllFit(D.Fresh(), Ripple.StrandingFrames(src))
    ensures var d, w := D.Feed(D.Fresh(), Ripple.StrandingFrames(src)).decoder, TakeAll(App, src, [4, 29, 5, 2]).twin;
            && d.solved.Keys == {0, 1, 2} && |d.pending| == 1 && d.pending[0].indices == {1, 3}
            && w.solved.Keys == {1, 2, 3} && |w.pending| == 1 && w.pending[0].indices == {0, 2}
  {
    hide D.Feed, D.AllFit, BlocksOf, TakeAll, Ripple.StrandingFrames;
    Ripple.StrandedRun(src, map[]);
    TwinFourFrames(src);
  }

  lemma SweepEnd(solved: map<nat, Block>, x: nat, d: Block)
    ensures Sweep(solved, [], x, d) == Pass(solved, [], x, d, false)
  {}

  /** First pass: block 2 gives block 1, and the equation before it is peeled of 1 instead of 2. */
  lemma TwinFirstPass(a: Block, b: Block, c: Block, d: Block)
    ensures Sweep(map[2 := d], Ripple.Three(a, b, c), 2, d)
         == Pass(map[2 := d, 1 := Xor(b, d)], [Equation({0, 2}, a), Equation({1, 3}, c)], 1, Xor(b, d), true)
  {
    var e, f, g := Equation({0, 2}, a), Equation({1, 2}, b), Equation({1, 3}, c);
    var one, two := map[2 := d], map[2 := d, 1 := Xor(b, d)];
    assert {1, 2} - {2} == {1} && |{1}| == 1 && |{0, 2}| == 2 && |{1, 3}| == 2;
    assert The({1}) == 1 by { assert The({1}) in {1}; }
    hide Sweep;
    SweepStep(one, [e, f], g, 2, d);
    SweepStep(one, [e], f, 2, d);
    SweepStep(two, [], e, 1, Xor(b, d));
    SweepEnd(two, 1, Xor(b, d));
    assert [e] + [f] == [e, f] && [e, f] + [g] == Ripple.Three(a, b, c) && [] + [e] == [e];
    assert one[1 := Xor(b, d)] == two;
  }

  /** Second pass: block 1 gives block 3, and the first equation stays. */
  lemma TwinSecondPass(solved: map<nat, Block>, a: Block, c: Block, d: Block)
    requires 3 !in solved
    ensures Sweep(solved, [Equation({0, 2}, a), Equation({1, 3}, c)], 1, d)
         == Pass(solved[3 := Xor(c, d)], [Equation({0, 2}, a)], 3, Xor(c, d), true)
  {
    var e, g := Equation({0, 2}, a), Equation({1, 3}, c);
    assert {1, 3} - {1} == {3} && |{3}| == 1 && |{0, 2}| == 2;
    assert The({3}) == 3 by { assert The({3}) in {3}; }
    hide Sweep;
    SweepStep(solved, [e], g, 1, d);
    SweepStep(solved[3 := Xor(c, d)], [], e, 3, Xor(c, d));
    SweepEnd(solved[3 := Xor(c, d)], 3, Xor(c, d));
    assert [e] + [g] == [e, g] && [] + [e] == [e];
  }

  lemma TwinThirdPass(solved: map<nat, Block>, a: Block, d: Block)
    ensures Sweep(solved, [Equation({0, 2}, a)], 3, d) == Pass(solved, [Equation({0, 2}, a)], 3, d, false)
  {
    var e := Equation({0, 2}, a);
    assert |{0, 2}| == 2;
    hide Sweep;
    SweepStep(solved, [], e, 3, d);
    SweepEnd(solved, 3, d);
    assert [] + [e] == [e];
  }

  lemma CascadeGoesOn(solved: map<nat, Block>, ps: seq<Equation>, x: nat, d: Block, r: Pass)
    requires Sweep(solved, ps, x, d) == r && r.progress
    ensures TwinDecoding.Cascade(solved, ps, x, d) == TwinDecoding.Cascade(r.solved, r.pending, r.x, r.d)
  {}

  lemma CascadeStops(solved: map<nat, Block>, ps: seq<Equation>, x: nat, d: Block, r: Pass)
    requires Sweep(solved, ps, x, d) == r && !r.progress
    ensures TwinDecoding.Cascade(solved, ps, x, d) == (r.solved, r.pending)
  {}

  lemma TwinCascade(a: Block, b: Block, c: Block, d: Block)
    ensures var (solved, pending) := TwinDecoding.SolveBlock(map[], Ripple.Three(a, b, c), 2, d);
            solved.Keys == {1, 2, 3} && pending == [Equation({0, 2}, a)]
  {
    hide Sweep, TwinDecoding.Cascade, Ripple.Three;
    var one, two := map[2 := d], map[2 := d, 1 := Xor(b, d)];
    var e, g := Equation({0, 2}, a), Equation({1, 3}, c);
    var x := Xor(c, Xor(b, d));
    assert map[][2 := d] == one;
    TwinFirstPass(a, b, c, d);
    CascadeGoesOn(one, Ripple.Three(a, b, c), 2, d, Pass(two, [e, g], 1, Xor(b, d), true));
    TwinSecondPass(two, a, c, Xor(b, d));
    CascadeGoesOn(two, [e, g], 1, Xor(b, d), Pass(two[3 := x], [e], 3, x, true));
    TwinThirdPass(two[3 := x], a, x);
    CascadeStops(two[3 := x], [e], 3, x, Pass(two[3 := x], [e], 3, x, false));
    assert two[3 := x].Keys == {1, 2, 3};
  }

  lemma FourBlockFrame(src: Source, seed: nat)
    requires src.Valid() && D.K(src) == 4
    ensures Taken(App, src, seed) == D.EquationOf(PacketAt(src, seed))
  {
    hide Named, BlocksOf, Mixed, PacketAt;
    TakenAsSent(src, seed);
    FrameFacts(App, src, seed);
    SentByApp(src, seed);
  }

  /** A frame of two blocks joins the pending equations while nothing is solved. */
  lemma TwinPairJoins(src: Source, w: Twin, seed: nat)
    requires src.Valid() && D.K(src) == 4 && |D.EquationOf(PacketAt(src, seed)).indices| == 2
    requires w.solved == map[] && w.payload.Missing? && seed !in w.seeds
    ensures Take(App, src, w, seed).0
         == w.(pending := w.pending + [D.EquationOf(PacketAt(src, seed))], seeds := w.seeds + {seed})
  {
    hide Taken, D.Reduce, D.EquationOf, PacketAt, D.K, Concat;
    FourBlockFrame(src, seed);
    Ripple.ReduceByNothing(D.EquationOf(PacketAt(src, seed)));
    TakeShape(App, src, w, seed);
    WaitsBelow(src, w.solved);
  }

  lemma WaitsBelow(src: Source, solved: map<nat, Block>)
    requires src.Valid() && |solved| < D.K(src)
    ensures Check(src, solved) == Waiting
  {
    hide Concat;
  }

  lemma TakeLast(src: Source, front: seq<nat>, seed: nat)
    requires src.Valid()
    ensures TakeAll(App, src, front + [seed]).twin == Take(App, src, TakeAll(App, src, front).twin, seed).0
  {
    hide Take;
    var seeds := front + [seed];
    assert seeds[..|seeds| - 1] == front;
  }

  /** One more frame of two blocks, while nothing is solved. */
  lemma TwinPairTaken(src: Source, front: seq<nat>, seed: nat, e: Equation)
    requires src.Valid() && D.K(src) == 4
    requires D.EquationOf(PacketAt(src, seed)) == e && |e.indices| == 2
    requires var w := TakeAll(App, src, front).twin; w.solved == map[] && w.payload.Missing? && seed !in w.seeds
    ensures var w := TakeAll(App, src, front).twin;
            TakeAll(App, src, front + [seed]).twin == Twin(map[], w.pending + [e], w.seeds + {seed}, D.Missing)
  {
    hide PacketAt, Take, TakeAll, D.EquationOf, D.K;
    TakeLast(src, front, seed);
    TwinPairJoins(src, TakeAll(App, src, front).twin, seed);
  }

  lemma TwinTwoFrames(src: Source)
    requires src.Valid() && D.K(src) == 4
    ensures TakeAll(App, src, [4, 29]).twin
         == Twin(map[], [D.EquationOf(PacketAt(src, 4)), D.EquationOf(PacketAt(src, 29))], {4, 29}, D.Missing)
    ensures |D.EquationOf(PacketAt(src, 5)).indices| == 2
  {
    hide PacketAt, Take, TakeAll, D.EquationOf, D.K;
    Ripple.FourBlockFrames(src);
    Ripple.TwoEach();
    NoFrames(src);
    var p, q := D.EquationOf(PacketAt(src, 4)), D.EquationOf(PacketAt(src, 29));
    assert [] + [4] == [4] && [4] + [29] == [4, 29];
    TwinPairTaken(src, [], 4, p);
    assert [] + [p] == [p] && {} + {4} == {4};
    TwinPairTaken(src, [4], 29, q);
    assert [p] + [q] == [p, q] && {4} + {29} == {4, 29};
  }

  lemma TwinThreeFrames(src: Source)
    requires src.Valid() && D.K(src) == 4
    ensures TakeAll(App, src, [4, 29, 5]).twin == Twin(map[], ThreeSent(src), {4, 29, 5}, D.Missing)
  {
    hide PacketAt, Take, TakeAll, D.EquationOf, D.K;
    TwinTwoFrames(src);
    var p, q, r := D.EquationOf(PacketAt(src, 4)), D.EquationOf(PacketAt(src, 29)), D.EquationOf(PacketAt(src, 5));
    assert [4, 29] + [5] == [4, 29, 5];
    TwinPairTaken(src, [4, 29], 5, r);
    assert [p, q] + [r] == [p, q, r] && {4, 29} + {5} == {4, 29, 5};
  }

  ghost function ThreeSent(src: Source): seq<Equation>
    requires src.Valid()
  {
    [D.EquationOf(PacketAt(src, 4)), D.EquationOf(PacketAt(src, 29)), D.EquationOf(PacketAt(src, 5))]
  }

  lemma ThreeSentIs(src: Source)
    requires src.Valid() && D.K(src) == 4
    ensures ThreeSent(src) == Ripple.Three(PacketAt(src, 4).data, PacketAt(src, 29).data, PacketAt(src, 5).data)
  {
    hide PacketAt, D.EquationOf, D.K;
    Ripple.FourBlockFrames(src);
    Ripple.FrameIds(src, 4);
    Ripple.FrameIds(src, 29);
    Ripple.FrameIds(src, 5);
  }

  lemma NoFrames(src: Source)
    requires src.Valid()
    ensures TakeAll(App, src, []).twin == Start()
  {}

  lemma TwinFourFrames(src: Source)
    requires src.Valid() && D.K(src) == 4
    ensures var w := TakeAll(App, src, [4, 29, 5, 2]).twin;
            w.solved.Keys == {1, 2, 3} && |w.pending| == 1 && w.pending[0].indices == {0, 2}
  {
    hide PacketAt, Take, TakeAll, D.EquationOf, D.K, Taken, D.Reduce, TwinDecoding.SolveBlock, Ripple.Three;
    TwinThreeFrames(src);
    ThreeSentIs(src);
    TakeLast(src, [4, 29, 5], 2);
    assert [4, 29, 5] + [2] == [4, 29, 5, 2];
    var w, p := TakeAll(App, src, [4, 29, 5]).twin, PacketAt(src, 2);
    Ripple.FourBlockFrames(src);
    Ripple.FrameIds(src, 2);
    FourBlockFrame(src, 2);
    Ripple.ReduceByNothing(D.EquationOf(p));
    TakeShape(App, src, w, 2);
    assert |{2}| == 1;
    assert The({2}) == 2 by { assert The({2}) in {2}; }
    TwinCascade(PacketAt(src, 4).data, PacketAt(src, 29).data, PacketAt(src, 5).data, p.data);
  }

  // ----- a frame on which the samplers differ ----------------------------------------------------------------

  /** There are such frames: seed 119 of every payload of more than five blocks, up to 119. */
  lemma SamplersDiffer(k: int)
    requires 5 < k <= 119
    ensures !SameSample(119, k)
  {
    hide Prng.Low32, Prng.Mix, Prng.Int, Prng.Xorshift32;
    Seed119();
    NextState(119, 0x77, 0x1d2_ee70, 0x1d2_ee70);
  }

  lemma Seed119()
    ensures Prng.Low32(119) == 0x77 && Prng.Mix(0x77) == 0x1d2_ee70 && Prng.Int(0x1d2_ee70) == 0x1d2_ee70
  {}

  /** The blocks that the app's sampler leaves out of a frame. */
  ghost function Omitted(src: Source, seed: nat): set<nat>
    requires src.Valid()
  {
    BlocksOf(src).Keys - Named(App, src, seed)
  }

  lemma XorIsZero(a: Block, b: Block)
    requires |a| == |b|
    ensures b == Xor(a, b) <==> a == Zero(|a|)
  {
    XorCancel(a, b);
    XorSymmetric(a, b);
    XorZero(b);
    if b == Xor(a, b) {
      XorCancel(Zero(|b|), b);
    }
  }

  /** Taken for the XOR of all blocks, it is true of the payload exactly when the omitted blocks cancel out. */
  lemma TakenIsTrue(src: Source, seed: nat)
    requires src.Valid() && !SameSample(seed, D.K(src))
    ensures Taken(App, src, seed).indices == BlocksOf(src).Keys && |Taken(App, src, seed).data| == src.blockSize
    ensures Holds(BlocksOf(src), Taken(App, src, seed), src.blockSize)
       <==> Mixed(src, Omitted(src, seed)) == Zero(src.blockSize)
  {
    hide BlocksOf, Named, SameSample;
    TakenAsSent(src, seed);
    BlocksAreSized(src);
    var m, I := BlocksOf(src), Named(App, src, seed);
    XorAllSplit(m, m.Keys, I, src.blockSize);
    XorIsZero(XorAll(m, m.Keys - I, src.blockSize), XorAll(m, I, src.blockSize));
  }

  /**
   One frame on which the samplers differ, taken by an unfinished decoder that was right so far: the decoder
   stays right about the payload exactly when the blocks that the app's sampler left out XOR to zero.
   */
  lemma MismatchedFrame(src: Source, w: Twin, seed: nat)
    requires src.Valid() && Invariant(App, src, w) && w.payload.Missing? && seed !in w.seeds
    requires !SameSample(seed, D.K(src))
    ensures var w' := Take(App, src, w, seed).0;
            Satisfies(BlocksOf(src), w'.solved, w'.pending, src.blockSize)
            <==> Mixed(src, Omitted(src, seed)) == Zero(src.blockSize)
  {
    hide Taken, Named, BlocksOf, Mixed, SameSample, Take, Learn, D.Reduce, Satisfies, Wide, Holds, Explains;
    SolvedFacts(App, src, w);
    TakenIsTrue(src, seed);
    TakeShape(App, src, w, seed);
    var p, n := Taken(App, src, seed), src.blockSize;
    var e := D.Reduce(p, w.solved);
    D.ReduceShape(p, w.solved);
    Reduced(BlocksOf(src), w, p, n);
    SomeUnsolved(src, w.solved);
    LearnTrue(BlocksOf(src), w.solved, w.pending, e, n);
  }

  lemma SomeUnsolved(src: Source, solved: map<nat, Block>)
    requires src.Valid() && |solved| < D.K(src)
    ensures BlocksOf(src).Keys - solved.Keys != {}
  {
    hide BlocksOf;
    D.BlocksKeys(src);
    if BlocksOf(src).Keys <= solved.Keys { D.SubsetSize(BlocksOf(src).Keys, solved.Keys); }
    var i :| i in BlocksOf(src).Keys && i !in solved.Keys;
    assert i in BlocksOf(src).Keys - solved.Keys;
  }

  /**
   Learning an equation that names something unsolved keeps a fitting assignment exactly when it fits
   the equation.
   */
  lemma LearnTrue(t: map<nat, Block>, solved: map<nat, Block>, ps: seq<Equation>, e: Equation, n: nat)
    requires Satisfies(t, solved, ps, n) && Wide(ps, n) && |e.data| == n
    requires e.indices !! solved.Keys && e.indices != {}
    ensures var (solved', ps') := Learn(solved, ps, e); Satisfies(t, solved', ps', n) <==> Holds(t, e, n)
  {
    hide Satisfies, Holds, Wide, TwinDecoding.Cascade;
    SatisfiesSized(t, solved, ps, n);
    if Holds(t, e, n) {
      LearnMeaning(t, t, solved, ps, e, n);
    } else if |e.indices| == 1 {
      var x := The(e.indices);
      assert x in e.indices;
      SingleMeaning(t, e, n);
      assert x !in solved;
      var one := solved[x := e.data];
      TwinDecoding.CascadeKeepsSolved(one, ps, x, e.data);
      var (solved', ps') := Learn(solved, ps, e);
      assert (solved', ps') == TwinDecoding.Cascade(one, ps, x, e.data);
      assert x in one && x in solved';
      if Satisfies(t, solved', ps', n) { HasBlock(t, solved', ps', x, n); }
    } else {
      D.SatisfiesAppend(t, solved, ps, e, n);
    }
  }
}

/** The packet stream of one encoder, as a function of the payload and the sequence number. */
module Stream {
  import opened Blocks
  import opened Sampling
  import Checksums

  datatype FountainPacket = FountainPacket(
    sessionId: string, seqNo: int, k: int, totalLength: int, checksum: string,
    seed: int, degree: int, blockIndices: seq<nat>, data: Block)

  /** What an encoder is made from; `payload` is never empty and `blockSize` is positive. */
  datatype Source = Source(sessionId: string, payload: seq<bv8>, blockSize: nat) {
    ghost predicate Valid() { payload != [] && blockSize > 0 }
  }

  function BlockCount(length: nat, blockSize: nat): (k: nat)
    requires blockSize > 0
  {
    (length + blockSize - 1) / blockSize
  }

  /** Where block `i` starts. */
  function Offset(i: nat, blockSize: nat): nat { i * blockSize }

  /** Block `i` of the payload, padded with zeros. */
  function SourceBlock(payload: seq<bv8>, blockSize: nat, i: nat): (b: Block)
    requires Offset(i, blockSize) <= |payload|
    ensures |b| == blockSize
  {
    BlockAt(payload, Offset(i, blockSize), blockSize)
  }

  function BlockAt(payload: seq<bv8>, start: nat, blockSize: nat): (b: Block)
    requires start <= |payload|
    ensures |b| == blockSize
  {
    var end := Min(start + blockSize, |payload|);
    payload[start..end] + Zero(blockSize - (end - start))
  }

  lemma BlockStarts(length: nat, blockSize: nat, i: nat)
    requires blockSize > 0 && i < BlockCount(length, blockSize)
    ensures Offset(i, blockSize) < length <= Offset(BlockCount(length, blockSize), blockSize)
    ensures i + 1 < BlockCount(length, blockSize) ==> Offset(i + 1, blockSize) < length
  {
    var k := BlockCount(length, blockSize);
    var r := (length + blockSize - 1) % blockSize;
    assert length + blockSize - 1 == k * blockSize + r;
    Scale(i + 1, k, blockSize);
    assert (i + 1) * blockSize == i * blockSize + blockSize;
    if i + 1 < k {
      Scale(i + 2, k, blockSize);
      assert (i + 2) * blockSize == (i + 1) * blockSize + blockSize;
    }
  }

  lemma Scale(a: nat, b: nat, m: nat)
    requires a <= b
    ensures a * m <= b * m
  {}

  /** The numbered source blocks of a payload. */
  ghost function BlocksOf(src: Source): (m: map<nat, Block>)
    requires src.Valid()
    ensures Sized(m, src.blockSize)
    ensures forall i: nat :: i in m <==> i < BlockCount(|src.payload|, src.blockSize)
  {
    var k := BlockCount(|src.payload|, src.blockSize);
    map i: nat | 0 <= i < k :: BlockStarts(|src.payload|, src.blockSize, i); SourceBlock(src.payload, src.blockSize, i)
  }

  ghost function IndexSet(indices: seq<nat>): set<nat> {
    set i | i in indices
  }

  lemma CountPositive(src: Source)
    requires src.Valid()
    ensures BlockCount(|src.payload|, src.blockSize) >= 1
  {
    if |src.payload| + src.blockSize - 1 >= src.blockSize {
      Quotient(|src.payload| + src.blockSize - 1, src.blockSize);
    }
  }

  lemma Quotient(n: nat, d: nat)
    requires d > 0 && n >= d
    ensures n / d >= 1
  {}

  lemma IndicesInRange(src: Source, seed: int)
    requires src.Valid()
    ensures var k := BlockCount(|src.payload|, src.blockSize);
            var (degree, indices) := Sample(seed, k);
            Increasing(indices) && IndexSet(indices) <= BlocksOf(src).Keys && indices != []
  {
    hide Sample, BlockCount;
    CountPositive(src);
    SampleShape(seed, BlockCount(|src.payload|, src.blockSize));
  }

  /** The packet an encoder of `src` emits for sequence number `seed`. */
  ghost function PacketAt(src: Source, seed: int): FountainPacket
    requires src.Valid()
  {
    var k := BlockCount(|src.payload|, src.blockSize);
    var (degree, indices) := Sample(seed, k);
    IndicesInRange(src, seed);
    FountainPacket(src.sessionId, seed, k, |src.payload|, Checksums.OfPayload(src.payload), seed, degree, indices,
                   XorAll(BlocksOf(src), IndexSet(indices), src.blockSize))
  }

  /** What a packet says of its stream: its number, and as many blocks as the payload needs and no more. */
  lemma PacketIs(src: Source, seed: int)
    requires src.Valid()
    ensures var p, n := PacketAt(src, seed), src.blockSize;
            && p.seqNo == seed && p.seed == seed && p.sessionId == src.sessionId && p.totalLength == |src.payload|
            && p.checksum == Checksums.OfPayload(src.payload) && (p.degree, p.blockIndices) == Sample(seed, p.k)
            && (p.k - 1) * n < p.totalLength <= p.k * n && |p.data| == n
  {
    hide Sample, XorAll, Checksums.OfPayload, BlockCount, BlocksOf;
    CountPositive(src);
    BlockStarts(|src.payload|, src.blockSize, BlockCount(|src.payload|, src.blockSize) - 1);
  }

  // ----- joining the blocks gives the payload back -----------------------------------------

  /** The first `k` numbered blocks, one after the other. */
  ghost function Concat(m: map<nat, Block>, k: nat): seq<bv8>
    requires forall i: nat :: i < k ==> i in m
  {
    if k == 0 then [] else Concat(m, k - 1) + m[k - 1]
  }

  /** The first `k` entries of `m` are the blocks of `p`. */
  ghost predicate AreBlocks(m: map<nat, Block>, k: nat, p: seq<bv8>, size: nat) {
    forall i: nat :: i < k ==> i in m && Offset(i, size) <= |p| && m[i] == BlockAt(p, Offset(i, size), size)
  }

  lemma {:induction false} ConcatPrefix(m: map<nat, Block>, k: nat, p: seq<bv8>, size: nat)
    requires AreBlocks(m, k, p, size)
    ensures IsPaddedPrefix(Concat(m, k), p, Offset(k, size))
  {
    if k > 0 {
      hide IsPaddedPrefix, BlockAt, Offset;
      ConcatPrefix(m, k - 1, p, size);
      NextOffset(k - 1, size);
      JoinBlock(p, Concat(m, k - 1), Offset(k - 1, size), size);
    }
  }

  lemma BlocksOfAreBlocks(src: Source)
    requires src.Valid()
    ensures AreBlocks(BlocksOf(src), BlockCount(|src.payload|, src.blockSize), src.payload, src.blockSize)
  {
    hide BlockCount, Offset;
    var k := BlockCount(|src.payload|, src.blockSize);
    forall i: nat | i < k ensures Offset(i, src.blockSize) <= |src.payload| {
      BlockStarts(|src.payload|, src.blockSize, i);
    }
  }

  /** `c` is `n` bytes long and agrees with `p` as far as both go. */
  ghost predicate IsPaddedPrefix(c: seq<bv8>, p: seq<bv8>, n: nat) {
    |c| == n && c[..Min(n, |p|)] == p[..Min(n, |p|)]
  }

  lemma NextOffset(k: nat, size: nat)
    ensures Offset(k + 1, size) == Offset(k, size) + size
  {}

  lemma JoinBlock(p: seq<bv8>, c: seq<bv8>, start: nat, size: nat)
    requires start <= |p| && IsPaddedPrefix(c, p, start)
    ensures IsPaddedPrefix(c + BlockAt(p, start, size), p, start + size)
  {
    var end := Min(start + size, |p|);
    assert c == p[..start];
    assert p[..start] + p[start..end] == p[..end];
    assert (c + BlockAt(p, start, size))[..end] == p[..start] + p[start..end];
  }

  /** For every payload and block size: the padded blocks, joined and cut to length, are the payload. */
  lemma BlocksRoundTrip(src: Source)
    requires src.Valid()
    ensures var k := BlockCount(|src.payload|, src.blockSize);
            var c := Concat(BlocksOf(src), k);
            |c| == Offset(k, src.blockSize) && |src.payload| <= |c| && c[..|src.payload|] == src.payload
  {
    hide BlockCount, Concat, BlocksOf, AreBlocks, Offset;
    var p, k := src.payload, BlockCount(|src.payload|, src.blockSize);
    CountPositive(src);
    BlocksOfAreBlocks(src);
    ConcatPrefix(BlocksOf(src), k, p, src.blockSize);
    BlockStarts(|p|, src.blockSize, k - 1);
    assert p[..|p|] == p;
  }
}

/** The app's encoder and decoder objects, updated in place, proved against Stream and Decoding. */
module Fountain {
  import opened Blocks
  import opened Peeling
  import opened Sampling
  import opened Stream
  import Checksums

  /** The byte loop `data[i] ^= other[i]`. */
  method XorInto(data: array<bv8>, other: seq<bv8>)
    requires data.Length <= |other|
    modifies data
    ensures data[..] == Xor(old(data[..]), other)
  {
    var i := 0;
    while i < data.Length
      invariant 0 <= i <= data.Length
      invariant forall j :: 0 <= j < i ==> data[j] == old(data[j]) ^ other[j]
      invariant forall j :: i <= j < data.Length ==> data[j] == old(data[j])
    {
      data[i] := data[i] ^ other[i];
      i := i + 1;
    }
  }

  // ----- encoder -----------------------------------------------------------------------------

  datatype Made = Made(encoder: FountainEncoder) | EmptyPayload

  class FountainEncoder {
    const payload: seq<bv8>
    const sessionId: string
    const blockSize: nat
    const k: nat
    const checksum: string
    const sourceBlocks: seq<Block>
    var seqNo: nat

    ghost function Src(): Source {
      Source.Source(sessionId, payload, blockSize)
    }

    ghost predicate Valid() {
      && Src().Valid()
      && k == BlockCount(|payload|, blockSize) == |sourceBlocks|
      && checksum == Checksums.OfPayload(payload)
      && forall i: nat :: i < k ==> sourceBlocks[i] == BlocksOf(Src())[i]
    }

    constructor Create(payload: seq<bv8>, sessionId: string, blockSize: nat, k: nat, checksum: string,
                       sourceBlocks: seq<Block>)
      ensures this.payload == payload && this.sessionId == sessionId && this.blockSize == blockSize
      ensures this.k == k && this.checksum == checksum && this.sourceBlocks == sourceBlocks
      ensures seqNo == 0
    {
      this.payload := payload;
      this.sessionId := sessionId;
      this.blockSize := blockSize;
      this.k := k;
      this.checksum := checksum;
      this.sourceBlocks := sourceBlocks;
      seqNo := 0;
    }

    /** Splits the payload into zero-padded blocks; an empty payload is refused. */
    static method FromBytes(payload: seq<bv8>, sessionId: string, blockSize: nat) returns (made: Made)
      requires blockSize > 0
      ensures made.EmptyPayload? <==> payload == []
      ensures made.Made? ==> fresh(made.encoder) && made.encoder.Valid() && made.encoder.seqNo == 0
      ensures made.Made? ==> made.encoder.Src() == Source.Source(sessionId, payload, blockSize)
    {
      if payload == [] {
        return EmptyPayload;
      }
      var k := BlockCount(|payload|, blockSize);
      var blocks: seq<Block> := [];
      for i := 0 to k
        invariant |blocks| == i
        invariant forall j: nat :: j < i
                    ==> Offset(j, blockSize) <= |payload| && blocks[j] == SourceBlock(payload, blockSize, j)
      {
        BlockStarts(|payload|, blockSize, i);
        blocks := blocks + [SourceBlock(payload, blockSize, i)];
      }
      var encoder := new FountainEncoder.Create(payload, sessionId, blockSize, k, Checksums.OfPayload(payload), blocks);
      made := Made(encoder);
    }

    /** Emits the next packet of the stream and advances the sequence number. */
    method NextPacket() returns (packet: FountainPacket)
      requires Valid()
      modifies this
      ensures packet == PacketAt(Src(), old(seqNo)) && seqNo == old(seqNo) + 1
    {
      var number := seqNo;
      seqNo := seqNo + 1;
      var degree, indices := SampleDegreeAndIndices(number, k);
      IndicesInRange(Src(), number);
      var combined := CombineBlocks(indices);
      packet := FountainPacket(sessionId, number, k, |payload|, checksum, number, degree, indices, combined[..]);
    }

    method CombineBlocks(indices: seq<nat>) returns (combined: array<bv8>)
      requires Valid() && Increasing(indices) && IndexSet(indices) <= BlocksOf(Src()).Keys
      ensures fresh(combined) && combined[..] == XorAll(BlocksOf(Src()), IndexSet(indices), blockSize)
    {
      combined := new bv8[blockSize](_ => 0);
      ghost var blocks := BlocksOf(Src());
      assert combined[..] == XorAll(blocks, IndexSet(indices[..0]), blockSize);
      for j := 0 to |indices|
        invariant combined[..] == XorAll(blocks, IndexSet(indices[..j]), blockSize)
      {
        var idx := indices[j];
        NextIndex(indices, j);
        XorAllInsert(blocks, IndexSet(indices[..j]), idx, blockSize);
        XorInto(combined, sourceBlocks[idx]);
      }
      assert indices[..|indices|] == indices;
    }

    /** Starts the stream again. */
    method Reset()
      modifies this
      ensures seqNo == 0
    {
      seqNo := 0;
    }
  }

  lemma NextIndex(indices: seq<nat>, j: nat)
    requires j < |indices| && Increasing(indices)
    ensures IndexSet(indices[..j + 1]) == IndexSet(indices[..j]) + {indices[j]}
    ensures indices[j] !in IndexSet(indices[..j])
    ensures IndexSet(indices[..j]) <= IndexSet(indices) && indices[j] in IndexSet(indices)
  {
    assert indices[..j + 1] == indices[..j] + [indices[j]];
  }
}

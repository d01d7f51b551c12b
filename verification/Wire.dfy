/** Frames: the text form of fountain packets, and decoding from frames instead of packets. */
module Wire {
  import opened Stream
  import opened Sampling
  import opened Text
  import Base64
  import Hex
  import Checksums
  import Sha256

  const PREFIX := "PF_FTN:1"

  datatype Parsed = NotAFrame | FormatError | Frame(packet: FountainPacket)

  /** The nine colon-separated fields of a frame; the prefix is the first two. */
  function Fields(p: FountainPacket): seq<string> {
    ["PF_FTN", "1", p.sessionId, Print(p.seqNo), Print(p.k), Print(p.totalLength), p.checksum, Print(p.seed),
     Base64.Encode(p.data)]
  }

  function Serialize(p: FountainPacket): string {
    Join(Fields(p), ':')
  }

  /** Degree and block numbers are not in the frame: they are sampled again from the seed. */
  function Parse(raw: string): Parsed {
    if !(PREFIX <= raw) then NotAFrame
    else
      var parts := Split(raw, ':');
      if |parts| < 9 then NotAFrame
      else
        var seqNo, k := TryParse(parts[3]), TryParse(parts[4]);
        var totalLength, seed := TryParse(parts[5]), TryParse(parts[7]);
        if seqNo.None? || k.None? || totalLength.None? || seed.None? then NotAFrame
        else
          match Base64.Decode(parts[8])
          case None => FormatError
          case Some(data) =>
            var (degree, indices) := Sample(seed.value, k.value);
            Frame(FountainPacket(parts[2], seqNo.value, k.value, totalLength.value, parts[6], seed.value, degree,
                                 indices, data))
  }

  lemma PrefixOfFields(rest: seq<string>)
    requires rest != []
    ensures PREFIX <= Join(["PF_FTN", "1"] + rest, ':')
  {
    var all := ["PF_FTN", "1"] + rest;
    assert all[1..] == ["1"] + rest && all[1..][1..] == rest;
    assert Join(all, ':') == "PF_FTN" + [':'] + ("1" + [':'] + Join(rest, ':'));
  }

  /** Parsing a serialized packet gives it back, when its sampled part comes from its seed. */
  lemma FrameRoundTrip(p: FountainPacket)
    requires ':' !in p.sessionId && ':' !in p.checksum
    requires Sample(p.seed, p.k) == (p.degree, p.blockIndices)
    ensures Parse(Serialize(p)) == Frame(p)
  {
    hide Sample, Base64.Encode, Base64.Decode, Print, TryParse, Join, Split;
    var f := Fields(p);
    PrintRoundTrip(p.seqNo);
    PrintRoundTrip(p.k);
    PrintRoundTrip(p.totalLength);
    PrintRoundTrip(p.seed);
    Base64.EncodeShape(p.data);
    Base64.RoundTrip(p.data);
    SplitJoin(f, ':');
    PrefixOfFields(f[2..]);
    assert f == ["PF_FTN", "1"] + f[2..];
  }

  lemma ChecksumHasNoColon(payload: seq<bv8>)
    ensures ':' !in Checksums.OfPayload(payload)
  {
    hide Checksums.Sha256Hex, Hex.Of;
    ChecksumDigits(Hex.Of(payload));
  }

  lemma ChecksumDigits(text: string)
    ensures ':' !in Checksums.Sha256Hex(text)[..8]
  {
    hide Hex.Of, Sha256.Digest, Checksums.Utf8;
    Hex.DigitsOnly(Sha256.Digest(Checksums.Utf8(text)));
  }

  /** Every frame of an encoder whose session id has no colon is read back as the packet it carries. */
  lemma EncoderFrames(src: Source, seed: int)
    requires src.Valid() && ':' !in src.sessionId
    ensures Parse(Serialize(PacketAt(src, seed))) == Frame(PacketAt(src, seed))
  {
    hide Parse, Serialize, Sample, BlocksOf, Checksums.OfPayload;
    ChecksumHasNoColon(src.payload);
    FrameRoundTrip(PacketAt(src, seed));
  }

  // ----- what is taken for a frame --------------------------------------------------------------------

  /** A number in field `i`. */
  predicate HasNumber(parts: seq<string>, i: nat, n: int) {
    i < |parts| && TryParse(parts[i]) == Some(n)
  }

  /**
   A text is a frame exactly when it starts as one, has nine fields or more, the numbers are numbers and the data
   decodes; fields behind the ninth are passed over. Broken data is an error only where all else is well.
   */
  lemma ParsedIff(raw: string, p: FountainPacket)
    ensures Parse(raw) == Frame(p) <==>
            var parts := Split(raw, ':');
            && "PF_FTN:1" <= raw && |parts| >= 9
            && parts[2] == p.sessionId && HasNumber(parts, 3, p.seqNo) && HasNumber(parts, 4, p.k)
            && HasNumber(parts, 5, p.totalLength) && parts[6] == p.checksum && HasNumber(parts, 7, p.seed)
            && Base64.Decode(parts[8]) == Some(p.data) && Sample(p.seed, p.k) == (p.degree, p.blockIndices)
    ensures Parse(raw) == FormatError <==>
            var parts := Split(raw, ':');
            && "PF_FTN:1" <= raw && |parts| >= 9 && TryParse(parts[3]).Some? && TryParse(parts[4]).Some?
            && TryParse(parts[5]).Some? && TryParse(parts[7]).Some? && Base64.Decode(parts[8]).None?
  {
    hide Split, TryParse, Base64.Decode, Sample;
  }
}

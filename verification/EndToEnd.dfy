/**
 One offline payment from end to end: a request and the confirmation of its payment each travel as JSON
 text through fountain frames, and what arrives is accepted.
 */
module EndToEnd {
  import opened Text
  import opened Payment
  import opened Authorizations
  import opened Stream
  import D = Decoding
  import R = Reserve
  import Wire

  /** The bytes of a record's JSON text, and the record read back from bytes. */
  datatype Codec<!T> = Codec(write: T -> seq<bv8>, read: seq<bv8> -> Option<T>)

  /** Reading back what was written, with the currency in upper case. */
  ghost predicate ReadsRequests(j: Codec<PaymentRequest>) {
    forall r {:trigger j.write(r)} :: j.write(r) != [] && j.read(j.write(r)) == Some(r.(currency := Upper(r.currency)))
  }

  ghost predicate ReadsConfirmations(j: Codec<PaymentConfirmation>) {
    forall c {:trigger j.write(c)} :: j.write(c) != [] && j.read(j.write(c)) == Some(c.(currency := Upper(c.currency)))
  }

  ghost predicate ReadsAuthorizations(j: Codec<Authorization>) {
    forall a {:trigger j.write(a)} :: j.write(a) != [] && j.read(j.write(a)) == Some(a.(currency := Upper(a.currency)))
  }

  // ----- frames ------------------------------------------------------------------------------------------

  /** A frame of the encoder, text that is no frame, a frame with broken base64, or a frame of another session. */
  ghost predicate Usual(src: Source, frame: string)
    requires src.Valid()
  {
    (exists seed :: frame == Wire.Serialize(PacketAt(src, seed)))
    || match Wire.Parse(frame)
       case Frame(p) => p.sessionId != src.sessionId
       case _ => true
  }

  /** Frames seen by a camera: the first is the encoder's, and each of its first k frames is seen at some point. */
  ghost predicate Seen(src: Source, frames: seq<string>)
    requires src.Valid()
  {
    && ':' !in src.sessionId
    && (forall i :: 0 <= i < |frames| ==> Usual(src, frames[i]))
    && frames != [] && (exists seed :: frames[0] == Wire.Serialize(PacketAt(src, seed)))
    && forall j: nat :: j < D.K(src) ==> Wire.Serialize(PacketAt(src, j)) in frames
  }

  /** The packets in a run of frames; anything else is passed over. */
  ghost function Packets(frames: seq<string>): seq<FountainPacket> {
    if frames == [] then []
    else match Wire.Parse(frames[0])
      case Frame(p) => [p] + Packets(frames[1..])
      case _ => Packets(frames[1..])
  }

  /** What a fresh decoder holds after the frames. */
  ghost function Received(frames: seq<string>): D.Payload {
    var ps := Packets(frames);
    if D.AllFit(D.Fresh(), ps) then D.Feed(D.Fresh(), ps).decoder.payload else D.Missing
  }

  lemma {:induction false} PacketsAre(frames: seq<string>, p: FountainPacket)
    ensures p in Packets(frames) <==> exists i :: 0 <= i < |frames| && Wire.Parse(frames[i]) == Wire.Frame(p)
  {
    hide Wire.Parse;
    if frames != [] {
      PacketsAre(frames[1..], p);
      if i :| 0 <= i < |frames| && Wire.Parse(frames[i]) == Wire.Frame(p) {
        if i > 0 { assert frames[1..][i - 1] == frames[i]; }
      }
      if i :| 0 <= i < |frames[1..]| && Wire.Parse(frames[1..][i]) == Wire.Frame(p) {
        assert frames[i + 1] == frames[1..][i];
      }
    }
  }

  lemma PacketSeed(src: Source, seed: int)
    requires src.Valid()
    ensures PacketAt(src, seed).seed == seed && PacketAt(src, seed).sessionId == src.sessionId
  {}

  lemma FramesAreGenuine(src: Source, frames: seq<string>)
    requires src.Valid() && Seen(src, frames)
    ensures D.GenuineStream(src, Packets(frames))
  {
    hide Wire.Parse, Wire.Serialize, PacketAt, D.K;
    var ps := Packets(frames);
    forall i | 0 <= i < |ps| ensures D.Genuine(src, ps[i]) {
      PacketsAre(frames, ps[i]);
      var m :| 0 <= m < |frames| && Wire.Parse(frames[m]) == Wire.Frame(ps[i]);
      assert Usual(src, frames[m]);
      if seed :| frames[m] == Wire.Serialize(PacketAt(src, seed)) {
        Wire.EncoderFrames(src, seed);
        PacketSeed(src, seed);
      }
    }
  }

  lemma FramesReceive(src: Source, frames: seq<string>, j: nat)
    requires src.Valid() && Seen(src, frames) && j < D.K(src)
    ensures D.Received(src, Packets(frames), j)
  {
    hide Wire.Parse, Wire.Serialize, PacketAt, D.K, Packets;
    var m :| 0 <= m < |frames| && frames[m] == Wire.Serialize(PacketAt(src, j));
    Wire.EncoderFrames(src, j);
    PacketSeed(src, j);
    PacketsAre(frames, PacketAt(src, j));
    var i :| 0 <= i < |Packets(frames)| && Packets(frames)[i] == PacketAt(src, j);
  }

  /** Frames that a camera sees in any order, with repeats and strays, deliver the payload. */
  lemma FramesDeliver(src: Source, frames: seq<string>)
    requires src.Valid() && Seen(src, frames)
    ensures Received(frames) == D.Present(src.payload)
  {
    hide Wire.Parse, Wire.Serialize, PacketAt, D.K, D.Feed, D.AllFit, D.GenuineStream;
    FramesAreGenuine(src, frames);
    forall j: nat | j < D.K(src) ensures D.Received(src, Packets(frames), j) { FramesReceive(src, frames, j); }
    FirstFrame(src, frames);
    D.GuaranteedDelivery(src, Packets(frames));
  }

  lemma FirstFrame(src: Source, frames: seq<string>)
    requires src.Valid() && Seen(src, frames)
    ensures Packets(frames) != [] && Packets(frames)[0].sessionId == src.sessionId
  {
    hide Wire.Parse, Wire.Serialize, PacketAt, D.K;
    var seed :| frames[0] == Wire.Serialize(PacketAt(src, seed));
    Wire.EncoderFrames(src, seed);
    PacketSeed(src, seed);
  }

  // ----- records through frames ----------------------------------------------------------------------------

  /** What the receiver reads from the frames. */
  ghost function Read<T>(j: Codec<T>, frames: seq<string>): Option<T> {
    match Received(frames) case Missing => None case Present(bytes) => j.read(bytes)
  }

  /** The payment of a delivered request, and the delivery of its confirmation and authorization. */
  lemma PaymentAccepted(s: Setting, actions: seq<R.Action>, r: PaymentRequest, requests: Codec<PaymentRequest>,
                        toPayer: Source, shown: seq<string>, seed: seq<bv8>, clock: R.Clock, authId: string,
                        confId: string, confirmations: Codec<PaymentConfirmation>, toMerchant: Source,
                        scanned: seq<string>, authorizations: Codec<Authorization>, toVerifier: Source,
                        relayed: seq<string>)
    requires Complete(s) && R.AllFresh(s, actions)
    requires ReadsRequests(requests) && ReadsConfirmations(confirmations) && ReadsAuthorizations(authorizations)
    requires toPayer.payload == requests.write(r) && toPayer.Valid() && Seen(toPayer, shown)
    requires var got := Read(requests, shown);
             got.Some? &&
             var outcome := R.Spend(s, R.Run(s, actions).st, got.value, seed, clock, authId, confId).1;
             && outcome.Issued?
             && toMerchant.payload == confirmations.write(outcome.confirmation)
             && toVerifier.payload == authorizations.write(outcome.authorization)
    requires toMerchant.Valid() && Seen(toMerchant, scanned) && toVerifier.Valid() && Seen(toVerifier, relayed)
    ensures var w := R.Run(s, actions);
            var conf, auth := Read(confirmations, scanned), Read(authorizations, relayed);
            && conf.Some? && VerifyAgainstRequest(s, conf.value, r) == Accepted
            && auth.Some? && auth.value.allowanceId in w.certificates && auth.value.allowanceId in w.owners
            && (VerifyOfflineAuthorization(s, auth.value, Some(r), Some(w.certificates[auth.value.allowanceId]))
                == Accepted
                <==> PublicKeyText(s, seed) == PublicKeyText(s, w.owners[auth.value.allowanceId]))
  {
    hide Complete, R.AllFresh, R.Run, Seen, Received, VerifyAgainstRequest, VerifyOfflineAuthorization, PublicKeyText,
         Upper, R.Spend;
    FramesDeliver(toPayer, shown);
    FramesDeliver(toMerchant, scanned);
    FramesDeliver(toVerifier, relayed);
    var got := r.(currency := Upper(r.currency));
    assert Read(requests, shown) == Some(got);
    R.IssuedIsAccepted(s, actions, got, seed, clock, authId, confId);
    var outcome := R.Spend(s, R.Run(s, actions).st, got, seed, clock, authId, confId).1;
    IssuedInUpperCase(s, actions, got, seed, clock, authId, confId);
    UpperTwice(r.currency);
    SameBinding(s, outcome.confirmation, outcome.authorization, r,
                R.Run(s, actions).certificates[outcome.authorization.allowanceId]);
  }

  /** What a spend issues names its currency in upper case already. */
  lemma IssuedInUpperCase(s: Setting, actions: seq<R.Action>, r: PaymentRequest, seed: seq<bv8>, clock: R.Clock,
                          authId: string, confId: string)
    requires R.AllFresh(s, actions) && R.Spend(s, R.Run(s, actions).st, r, seed, clock, authId, confId).1.Issued?
    ensures var outcome := R.Spend(s, R.Run(s, actions).st, r, seed, clock, authId, confId).1;
            && outcome.confirmation.(currency := Upper(outcome.confirmation.currency)) == outcome.confirmation
            && outcome.authorization.(currency := Upper(outcome.authorization.currency)) == outcome.authorization
  {
    hide R.Run, R.AllFresh, R.Spend, Upper, PublicKeyText, SignText, ChecksumOf;
    R.SpendingChain(s, actions);
    R.ChainMirrored(s, R.Run(s, actions));
    R.SpendShape(s, R.Run(s, actions).st, r, seed, clock, authId, confId);
    UpperTwice(r.currency);
    UpperTwice(Upper(r.currency));
  }

  /** Checks compare currencies in upper case, so a request and its normal form bind alike. */
  lemma SameBinding(s: Setting, c: PaymentConfirmation, a: Authorization, r: PaymentRequest, certificate: Certificate)
    ensures var r' := r.(currency := Upper(r.currency));
            && VerifyAgainstRequest(s, c, r) == VerifyAgainstRequest(s, c, r')
            && VerifyOfflineAuthorization(s, a, Some(r), Some(certificate))
               == VerifyOfflineAuthorization(s, a, Some(r'), Some(certificate))
  {
    UpperTwice(r.currency);
    hide Upper, ChecksumMatches, CheckSignature, VerifyCertificate;
  }
}

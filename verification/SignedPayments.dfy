/** The payment protocol over the app's own Ed25519. */
module SignedPayments {
  import opened Signing
  import opened SignatureVerdict
  import opened Payment
  import Checksums
  import Hex

  function Ed25519Setting(g: Group, iso: int -> string): Setting
    requires g.curve.p > 2 && g.order > 0
  {
    Setting(seed => PublicKeyFromSeed(g, seed), (m, seed) => Sign(g, m, seed),
            (m, sig, key) => Verify(g, m, sig, key), iso)
  }

  /** What the protocol needs of signatures holds of Ed25519 over any proper group. */
  lemma Ed25519Complete(g: Group, iso: int -> string)
    requires Proper(g) && Associative(g.curve)
    ensures g.curve.p > 2 && g.order > 0 && Complete(Ed25519Setting(g, iso))
  {
    hide Associative, Sign, Verify, PublicKeyFromSeed;
    var s := Ed25519Setting(g, iso);
    forall m, seed {:trigger s.sign(m, seed)} | |seed| == 32 ensures s.verify(m, s.sign(m, seed), s.publicKey(seed)) {
      SigningCompleteness(g, m, seed);
    }
  }

  /** Some points make the signature stand for the verification equation. */
  ghost predicate Stands(g: Group, message: seq<bv8>, signature: seq<bv8>, publicKey: seq<bv8>)
    requires g.curve.p > 2 && g.order > 0
  {
    exists A, R :: Accepts(g, message, signature, publicKey, A, R)
  }

  lemma VerifiedStands(g: Group, iso: int -> string, message: seq<bv8>, signature: seq<bv8>, publicKey: seq<bv8>)
    requires Proper(g) && Associative(g.curve)
    ensures g.curve.p > 2 && g.order > 0
    ensures Ed25519Setting(g, iso).verify(message, signature, publicKey) <==> Stands(g, message, signature, publicKey)
  {
    hide Associative, Verify, Accepts, Proper;
    VerdictIs(g, message, signature, publicKey);
  }

  /** What the protocol takes as a signature: hex of one that some points stand for, under the key. */
  lemma SignatureHoldsIff(g: Group, iso: int -> string, text: string, signature: string, publicKey: string)
    requires Proper(g) && Associative(g.curve)
    ensures g.curve.p > 2 && g.order > 0
    ensures SignatureHolds(Ed25519Setting(g, iso), text, signature, publicKey)
            <==> Hex.Parse(signature).Bytes? && Hex.Parse(publicKey).Bytes?
                 && Stands(g, Checksums.Utf8(text), Hex.Parse(signature).bytes, Hex.Parse(publicKey).bytes)
  {
    hide Associative, Proper, Stands, Hex.Parse, Checksums.Utf8, Ed25519Setting;
    VerifiedStands(g, iso, [], [], []);
    if Hex.Parse(signature).Bytes? && Hex.Parse(publicKey).Bytes? {
      VerifiedStands(g, iso, Checksums.Utf8(text), Hex.Parse(signature).bytes, Hex.Parse(publicKey).bytes);
    }
  }
}

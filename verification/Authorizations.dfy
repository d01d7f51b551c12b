/** Allowance certificates and the chained authorizations issued against them. */
module Authorizations {
  import opened Text
  import opened Payment
  import C = Canonical
  import Checksums

  /** The part of an allowance that is signed and never changes. */
  datatype Certificate = Certificate(
    allowanceId: string, appUserId: string, stellarPublicKey: string, initialAmountMinorUnits: int, currency: string,
    createdAt: int, expiresAt: int, devicePublicKey: string, signature: string)

  datatype Authorization = Authorization(
    authorizationId: string, allowanceId: string, requestId: string, merchantId: string, amountMinorUnits: int,
    currency: string, sequenceNumber: int, previousAuthHash: string, stateHash: string, timestamp: int,
    devicePublicKey: string, signature: string)

  function AllowanceBody(c: Certificate): C.Body {
    C.Allowance(c.allowanceId, c.appUserId, c.stellarPublicKey, c.initialAmountMinorUnits, Upper(c.currency),
                c.createdAt, c.expiresAt, c.devicePublicKey)
  }

  function CertificateChecksum(s: Setting, c: Certificate): string {
    ChecksumOf(s, AllowanceBody(c))
  }

  function VerifyCertificate(s: Setting, c: Certificate): Check {
    CheckSignature(s, CertificateChecksum(s, c), c.signature, c.devicePublicKey)
  }

  function CreateCertificate(s: Setting, allowanceId: string, appUserId: string, stellarPublicKey: string,
                             amount: int, currency: string, createdAt: int, expiresAt: int, seed: seq<bv8>): Certificate
    requires |seed| == 32
  {
    var body := C.Allowance(allowanceId, appUserId, stellarPublicKey, amount, Upper(currency), createdAt, expiresAt,
                            PublicKeyText(s, seed));
    Certificate(allowanceId, appUserId, stellarPublicKey, amount, Upper(currency), createdAt, expiresAt,
                PublicKeyText(s, seed), SignText(s, ChecksumOf(s, body), seed))
  }

  function StateBody(a: Authorization): C.Body {
    C.Authorization(a.authorizationId, a.allowanceId, a.requestId, a.merchantId, a.amountMinorUnits, Upper(a.currency),
                    a.sequenceNumber, a.previousAuthHash, a.timestamp, a.devicePublicKey)
  }

  /** The authorization that commits an allowance to a request. */
  function CreateAuthorization(s: Setting, authorizationId: string, allowanceId: string, r: PaymentRequest,
                               number: int, previous: string, now: int, seed: seq<bv8>): Authorization
    requires |seed| == 32
  {
    var body := C.Authorization(authorizationId, allowanceId, r.requestId, r.merchantId, r.amountMinorUnits,
                                Upper(r.currency), number, previous, now, PublicKeyText(s, seed));
    var stateHash := ChecksumOf(s, body);
    Authorization(authorizationId, allowanceId, r.requestId, r.merchantId, r.amountMinorUnits, Upper(r.currency),
                  number, previous, stateHash, now, PublicKeyText(s, seed), SignText(s, stateHash, seed))
  }

  function CheckBinding(a: Authorization, bound: Option<PaymentRequest>): Check {
    match bound
    case None => Accepted
    case Some(r) =>
      if a.requestId != r.requestId then OtherRequest
      else if a.amountMinorUnits != r.amountMinorUnits then OtherAmount
      else if Upper(a.currency) != Upper(r.currency) then OtherCurrency
      else Accepted
  }

  function VerifyIntegrity(s: Setting, a: Authorization, bound: Option<PaymentRequest>): Check {
    if a.amountMinorUnits <= 0 then InvalidAmount
    else if a.sequenceNumber <= 0 then InvalidSequence
    else if !ChecksumMatches(s, StateBody(a), a.stateHash) then ChecksumMismatch
    else
      var signed := CheckSignature(s, a.stateHash, a.signature, a.devicePublicKey);
      if signed != Accepted then signed else CheckBinding(a, bound)
  }

  function VerifyOfflineAuthorization(s: Setting, a: Authorization, bound: Option<PaymentRequest>,
                                      certificate: Option<Certificate>): Check
  {
    var integrity := VerifyIntegrity(s, a, bound);
    if integrity != Accepted then integrity else
      match certificate
      case None => Accepted
      case Some(c) =>
        var valid := VerifyCertificate(s, c);
        if valid != Accepted then valid
        else if a.allowanceId != c.allowanceId then OtherAllowance
        else if Checksums.Lower(a.devicePublicKey) != Checksums.Lower(c.devicePublicKey) then OtherKey
        else Accepted
  }

  // ----- created records verify ----------------------------------------------------------------------

  /** Provisioning produces a certificate that verifies. */
  lemma CreatedCertificateVerifies(s: Setting, allowanceId: string, appUserId: string, stellarPublicKey: string,
                                   amount: int, currency: string, createdAt: int, expiresAt: int, seed: seq<bv8>)
    requires Complete(s) && |seed| == 32
    ensures var c := CreateCertificate(s, allowanceId, appUserId, stellarPublicKey, amount, currency, createdAt,
                                       expiresAt, seed);
            && VerifyCertificate(s, c) == Accepted
            && c == Certificate(allowanceId, appUserId, stellarPublicKey, amount, Upper(currency), createdAt, expiresAt,
                                PublicKeyText(s, seed), c.signature)
  {
    hide Upper, ChecksumOf, SignText, PublicKeyText, CheckSignature;
    var c := CreateCertificate(s, allowanceId, appUserId, stellarPublicKey, amount, currency, createdAt, expiresAt,
                               seed);
    UpperTwice(currency);
    SignedTextVerifies(s, CertificateChecksum(s, c), seed);
  }

  /** The key of a seed is written in lower case, so the key comparison is exact. */
  lemma KeyIsLower(s: Setting, seed: seq<bv8>)
    ensures Checksums.Lower(PublicKeyText(s, seed)) == PublicKeyText(s, seed)
  {
    LowerHex(s.publicKey(seed));
  }

  /**
   An authorization issued for a positive request is accepted against that request and a valid
   certificate exactly when it names the certificate's allowance and was signed with its key.
   */
  lemma CreatedAuthorizationVerifies(s: Setting, authorizationId: string, allowanceId: string, r: PaymentRequest,
                                     number: int, previous: string, now: int, seed: seq<bv8>, c: Certificate,
                                     owner: seq<bv8>)
    requires Complete(s) && |seed| == 32 && r.amountMinorUnits > 0 && number > 0
    requires VerifyCertificate(s, c) == Accepted && c.devicePublicKey == PublicKeyText(s, owner)
    ensures var a := CreateAuthorization(s, authorizationId, allowanceId, r, number, previous, now, seed);
            && VerifyIntegrity(s, a, Some(r)) == Accepted
            && a == Authorization(authorizationId, allowanceId, r.requestId, r.merchantId, r.amountMinorUnits,
                                  Upper(r.currency), number, previous, a.stateHash, now, PublicKeyText(s, seed),
                                  a.signature)
            && (VerifyOfflineAuthorization(s, a, Some(r), Some(c)) == Accepted
                <==> allowanceId == c.allowanceId && PublicKeyText(s, seed) == PublicKeyText(s, owner))
  {
    hide Upper, ChecksumOf, SignText, PublicKeyText, CheckSignature, Checksums.Lower, VerifyCertificate;
    var a := CreateAuthorization(s, authorizationId, allowanceId, r, number, previous, now, seed);
    UpperTwice(r.currency);
    SignedTextVerifies(s, a.stateHash, seed);
    KeyIsLower(s, seed);
    KeyIsLower(s, owner);
  }

  // ----- what is accepted -----------------------------------------------------------------------------

  /** The request it was issued for, if one is given: the same id, amount and currency. */
  predicate BoundTo(a: Authorization, bound: Option<PaymentRequest>) {
    bound.Some? ==>
      && a.requestId == bound.value.requestId && a.amountMinorUnits == bound.value.amountMinorUnits
      && Upper(a.currency) == Upper(bound.value.currency)
  }

  lemma CertificateAcceptedIff(s: Setting, c: Certificate)
    ensures VerifyCertificate(s, c) == Accepted
            <==> SignatureHolds(s, Checksums.Sha256Hex(C.BuildCanonicalString(s.iso, AllowanceBody(c))), c.signature,
                                c.devicePublicKey)
  {
    hide AllowanceBody, C.BuildCanonicalString, Checksums.Sha256Hex, CheckSignature, SignatureHolds;
    CheckSignatureIs(s, CertificateChecksum(s, c), c.signature, c.devicePublicKey);
  }

  /** Accepted exactly when positive, numbered from 1, hashed and signed over its own fields, and bound. */
  lemma IntegrityIff(s: Setting, a: Authorization, bound: Option<PaymentRequest>)
    ensures VerifyIntegrity(s, a, bound) == Accepted
            <==> a.amountMinorUnits > 0 && a.sequenceNumber > 0 && BoundTo(a, bound)
                 && Checksums.Lower(a.stateHash)
                    == Checksums.Sha256Hex(C.BuildCanonicalString(s.iso, StateBody(a)))
                 && SignatureHolds(s, a.stateHash, a.signature, a.devicePublicKey)
    ensures VerifyIntegrity(s, a, bound) == InvalidAmount <==> a.amountMinorUnits <= 0
    ensures VerifyIntegrity(s, a, bound) == InvalidSequence <==> a.amountMinorUnits > 0 && a.sequenceNumber <= 0
    ensures VerifyIntegrity(s, a, bound) == ChecksumMismatch
            <==> a.amountMinorUnits > 0 && a.sequenceNumber > 0
                 && Checksums.Lower(a.stateHash) != Checksums.Sha256Hex(C.BuildCanonicalString(s.iso, StateBody(a)))
  {
    hide StateBody, C.BuildCanonicalString, Checksums.Sha256Hex, Checksums.Lower, CheckSignature, SignatureHolds,
         Upper;
    DigestIsLower(C.BuildCanonicalString(s.iso, StateBody(a)));
    CheckSignatureIs(s, a.stateHash, a.signature, a.devicePublicKey);
  }

  /** With a certificate: also the certificate's own signature, its allowance, and its key in any letter case. */
  lemma OfflineAcceptedIff(s: Setting, a: Authorization, bound: Option<PaymentRequest>,
                           certificate: Option<Certificate>)
    ensures VerifyOfflineAuthorization(s, a, bound, certificate) == Accepted
            <==> VerifyIntegrity(s, a, bound) == Accepted
                 && (certificate.Some? ==>
                       && VerifyCertificate(s, certificate.value) == Accepted
                       && a.allowanceId == certificate.value.allowanceId
                       && Checksums.Lower(a.devicePublicKey) == Checksums.Lower(certificate.value.devicePublicKey))
  {
    hide VerifyIntegrity, VerifyCertificate, Checksums.Lower;
  }

  /** Equal in every field that is hashed. */
  predicate SameState(a: Authorization, t: Authorization) {
    && a.authorizationId == t.authorizationId && a.allowanceId == t.allowanceId && a.requestId == t.requestId
    && a.merchantId == t.merchantId && a.amountMinorUnits == t.amountMinorUnits
    && Upper(a.currency) == Upper(t.currency) && a.sequenceNumber == t.sequenceNumber
    && a.previousAuthHash == t.previousAuthHash && a.timestamp == t.timestamp
    && a.devicePublicKey == t.devicePublicKey
  }

  lemma StateBodyTells(a: Authorization, t: Authorization)
    ensures StateBody(a) == StateBody(t) <==> SameState(a, t)
  {
    hide Upper;
  }

  /**
   Tampering shows: an authorization that keeps the state hash of another but changes any hashed field is rejected
   against every request and certificate, or the two canonical strings are a SHA-256 collision.
   */
  lemma TamperedAuthorizationRejected(s: Setting, a: Authorization, t: Authorization, bound: Option<PaymentRequest>,
                                      certificate: Option<Certificate>)
    requires C.Dated(s.iso) && C.Unambiguous(s.iso, StateBody(a)) && C.Unambiguous(s.iso, StateBody(t))
    requires ChecksumMatches(s, StateBody(a), a.stateHash) && t.stateHash == a.stateHash && !SameState(a, t)
    ensures (VerifyIntegrity(s, t, bound) in {InvalidAmount, InvalidSequence, ChecksumMismatch}
             && VerifyOfflineAuthorization(s, t, bound, certificate) == VerifyIntegrity(s, t, bound))
         || Collision(C.BuildCanonicalString(s.iso, StateBody(a)), C.BuildCanonicalString(s.iso, StateBody(t)))
  {
    hide C.BuildCanonicalString, C.Dated, C.Unambiguous, ChecksumMatches, CheckSignature, StateBody, Collision,
         SameState, VerifyCertificate, Checksums.Lower;
    StateBodyTells(a, t);
    if ChecksumMatches(s, StateBody(t), t.stateHash) {
      ChecksumBinds(s, StateBody(a), StateBody(t), a.stateHash);
    }
  }

  /** Equal in every field that is signed. */
  predicate SameAllowance(c: Certificate, t: Certificate) {
    && c.allowanceId == t.allowanceId && c.appUserId == t.appUserId && c.stellarPublicKey == t.stellarPublicKey
    && c.initialAmountMinorUnits == t.initialAmountMinorUnits && Upper(c.currency) == Upper(t.currency)
    && c.createdAt == t.createdAt && c.expiresAt == t.expiresAt && c.devicePublicKey == t.devicePublicKey
  }

  lemma AllowanceBodyTells(c: Certificate, t: Certificate)
    ensures AllowanceBody(c) == AllowanceBody(t) <==> SameAllowance(c, t)
  {
    hide Upper;
  }

  /**
   A certificate that keeps another's signature but changes any signed field is accepted only if that signature
   also verifies on a text that it was not made for, or the two canonical strings are a SHA-256 collision.
   */
  lemma TamperedCertificate(s: Setting, c: Certificate, t: Certificate)
    requires C.Dated(s.iso) && C.Unambiguous(s.iso, AllowanceBody(c)) && C.Unambiguous(s.iso, AllowanceBody(t))
    requires t.signature == c.signature && !SameAllowance(c, t)
    ensures VerifyCertificate(s, t) == Accepted
            <==> SignatureHolds(s, CertificateChecksum(s, t), c.signature, t.devicePublicKey)
    ensures CertificateChecksum(s, t) != CertificateChecksum(s, c)
         || Collision(C.BuildCanonicalString(s.iso, AllowanceBody(c)), C.BuildCanonicalString(s.iso, AllowanceBody(t)))
  {
    hide C.BuildCanonicalString, C.Dated, C.Unambiguous, AllowanceBody, Checksums.Sha256Hex, SameAllowance,
         SignatureHolds, VerifyCertificate;
    CertificateAcceptedIff(s, t);
    AllowanceBodyTells(c, t);
    if C.BuildCanonicalString(s.iso, AllowanceBody(c)) == C.BuildCanonicalString(s.iso, AllowanceBody(t)) {
      C.CanonicalInjective(s.iso, AllowanceBody(c), AllowanceBody(t));
    }
  }

  // ----- chains ---------------------------------------------------------------------------------------

  /** The authorizations of one allowance, in order. */
  function Of(issued: seq<Authorization>, allowanceId: string): seq<Authorization> {
    if issued == [] then []
    else
      var rest := Of(issued[..|issued| - 1], allowanceId);
      var last := issued[|issued| - 1];
      if last.allowanceId == allowanceId then rest + [last] else rest
  }

  function Total(chain: seq<Authorization>): int {
    if chain == [] then 0 else Total(chain[..|chain| - 1]) + chain[|chain| - 1].amountMinorUnits
  }

  /** The state hash the next authorization must carry. */
  function Tip(s: Setting, c: Certificate, chain: seq<Authorization>): string {
    if chain == [] then CertificateChecksum(s, c) else chain[|chain| - 1].stateHash
  }

  /**
   Numbered 1, 2, 3 and so on, each carrying the hash of the one before, the first the checksum of the
   certificate; each for a positive amount in the certificate's currency, and hashed correctly.
   */
  ghost predicate Chained(s: Setting, c: Certificate, chain: seq<Authorization>) {
    forall k :: 0 <= k < |chain| ==>
      && chain[k].sequenceNumber == k + 1
      && chain[k].previousAuthHash == Tip(s, c, chain[..k])
      && chain[k].stateHash == ChecksumOf(s, StateBody(chain[k]))
      && chain[k].amountMinorUnits > 0
      && chain[k].currency == Upper(c.currency)
  }

  lemma OfAppend(issued: seq<Authorization>, a: Authorization, id: string)
    ensures Of(issued + [a], id) == if a.allowanceId == id then Of(issued, id) + [a] else Of(issued, id)
  {
    assert (issued + [a])[..|issued|] == issued;
  }

  lemma TotalAppend(chain: seq<Authorization>, a: Authorization)
    ensures Total(chain + [a]) == Total(chain) + a.amountMinorUnits
  {
    assert (chain + [a])[..|chain|] == chain;
  }

  lemma ChainedAppend(s: Setting, c: Certificate, chain: seq<Authorization>, a: Authorization)
    requires Chained(s, c, chain)
    requires a.sequenceNumber == |chain| + 1 && a.previousAuthHash == Tip(s, c, chain)
    requires a.stateHash == ChecksumOf(s, StateBody(a)) && a.amountMinorUnits > 0 && a.currency == Upper(c.currency)
    ensures Chained(s, c, chain + [a])
  {
    hide Tip, ChecksumOf, Upper;
    var longer := chain + [a];
    forall k | 0 <= k < |chain| ensures longer[..k] == chain[..k] {}
    assert longer[..|chain|] == chain;
  }

  /** An issued authorization hashes its own fields. */
  lemma CreatedHash(s: Setting, authorizationId: string, allowanceId: string, r: PaymentRequest, number: int,
                    previous: string, now: int, seed: seq<bv8>)
    requires |seed| == 32
    ensures var a := CreateAuthorization(s, authorizationId, allowanceId, r, number, previous, now, seed);
            a.stateHash == ChecksumOf(s, StateBody(a))
  {
    hide Upper, ChecksumOf, SignText, PublicKeyText;
    UpperTwice(r.currency);
  }

  // ----- what a state hash commits to -----------------------------------------------------------------

  /** The record hashed at position k of a chain; position 0 is the certificate. */
  function Hashed(c: Certificate, chain: seq<Authorization>, k: nat): C.Body
    requires k <= |chain|
  {
    if k == 0 then AllowanceBody(c) else StateBody(chain[k - 1])
  }

  function HashedText(s: Setting, c: Certificate, chain: seq<Authorization>, k: nat): string
    requires k <= |chain|
  {
    C.BuildCanonicalString(s.iso, Hashed(c, chain, k))
  }

  ghost predicate AllUnambiguous(s: Setting, c: Certificate, chain: seq<Authorization>) {
    forall k: nat {:trigger Hashed(c, chain, k)} :: k <= |chain| ==> C.Unambiguous(s.iso, Hashed(c, chain, k))
  }

  /** The two chains hold the same records, up to signatures. */
  ghost predicate SameRecords(x: seq<Authorization>, y: seq<Authorization>) {
    |x| == |y| && forall k :: 0 <= k < |x| ==> StateBody(x[k]) == StateBody(y[k])
  }

  ghost predicate CollisionBetween(s: Setting, c: Certificate, x: seq<Authorization>, y: seq<Authorization>) {
    exists i: nat, j: nat ::
      i <= |x| && j <= |y| && Collision(HashedText(s, c, x, i), HashedText(s, c, y, j))
  }

  lemma TipIsHash(s: Setting, c: Certificate, chain: seq<Authorization>)
    requires Chained(s, c, chain)
    ensures Tip(s, c, chain) == Checksums.Sha256Hex(HashedText(s, c, chain, |chain|))
  {
    hide AllowanceBody, StateBody, C.BuildCanonicalString, Checksums.Sha256Hex;
  }

  lemma DropLast(s: Setting, c: Certificate, chain: seq<Authorization>)
    requires Chained(s, c, chain) && AllUnambiguous(s, c, chain) && chain != []
    ensures var front := chain[..|chain| - 1];
            && Chained(s, c, front) && AllUnambiguous(s, c, front)
            && chain[|chain| - 1].previousAuthHash == Tip(s, c, front)
            && forall k: nat :: k <= |front| ==> Hashed(c, front, k) == Hashed(c, chain, k)
  {
    hide AllowanceBody, StateBody, Tip, ChecksumOf, C.Unambiguous, Upper;
    var front := chain[..|chain| - 1];
    forall k | 0 <= k < |front| ensures front[..k] == chain[..k] {}
    forall k: nat | k <= |front|
      ensures Hashed(c, front, k) == Hashed(c, chain, k) && C.Unambiguous(s.iso, Hashed(c, front, k))
    {
      assert C.Unambiguous(s.iso, Hashed(c, chain, k));
    }
  }

  /**
   A state hash commits to the whole history of its allowance: two unambiguous chains of one
   certificate that end in the same hash hold the same records, or two of the strings they hash are a
   SHA-256 collision.
   */
  lemma {:induction false} ChainCommits(s: Setting, c: Certificate, x: seq<Authorization>, y: seq<Authorization>)
    requires C.Dated(s.iso) && AllUnambiguous(s, c, x) && AllUnambiguous(s, c, y)
    requires Chained(s, c, x) && Chained(s, c, y) && Tip(s, c, x) == Tip(s, c, y)
    ensures SameRecords(x, y) || CollisionBetween(s, c, x, y)
    decreases |x|
  {
    hide AllowanceBody, StateBody, Tip, Chained, C.Unambiguous, C.Dated, C.BuildCanonicalString, Checksums.Sha256Hex,
         HashedText;
    TipIsHash(s, c, x);
    TipIsHash(s, c, y);
    if HashedText(s, c, x, |x|) != HashedText(s, c, y, |y|) {
      assert Collision(HashedText(s, c, x, |x|), HashedText(s, c, y, |y|));
    } else {
      SameText(s, c, x, y);
      if x != [] {
        DropLast(s, c, x);
        DropLast(s, c, y);
        var front, front' := x[..|x| - 1], y[..|y| - 1];
        ChainCommits(s, c, front, front');
        if CollisionBetween(s, c, front, front') {
          CollisionLifts(s, c, x, y);
        }
      }
    }
  }

  /** Equal last strings: both chains empty, or equal last records. */
  lemma SameText(s: Setting, c: Certificate, x: seq<Authorization>, y: seq<Authorization>)
    requires C.Dated(s.iso) && AllUnambiguous(s, c, x) && AllUnambiguous(s, c, y)
    requires HashedText(s, c, x, |x|) == HashedText(s, c, y, |y|)
    ensures (x == [] <==> y == [])
    ensures x != [] ==> StateBody(x[|x| - 1]) == StateBody(y[|y| - 1])
                        && x[|x| - 1].previousAuthHash == y[|y| - 1].previousAuthHash
  {
    hide C.Unambiguous, C.Dated, C.BuildCanonicalString;
    assert C.Unambiguous(s.iso, Hashed(c, x, |x|)) && C.Unambiguous(s.iso, Hashed(c, y, |y|));
    C.CanonicalInjective(s.iso, Hashed(c, x, |x|), Hashed(c, y, |y|));
  }

  lemma CollisionLifts(s: Setting, c: Certificate, x: seq<Authorization>, y: seq<Authorization>)
    requires x != [] && y != [] && CollisionBetween(s, c, x[..|x| - 1], y[..|y| - 1])
    ensures CollisionBetween(s, c, x, y)
  {
    hide AllowanceBody, StateBody, C.BuildCanonicalString, Collision;
    var front, front' := x[..|x| - 1], y[..|y| - 1];
    var i: nat, j: nat :| i <= |front| && j <= |front'|
      && Collision(HashedText(s, c, front, i), HashedText(s, c, front', j));
    assert HashedText(s, c, front, i) == HashedText(s, c, x, i);
    assert HashedText(s, c, front', j) == HashedText(s, c, y, j);
  }
}

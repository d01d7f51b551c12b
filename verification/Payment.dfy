/** Payment requests and confirmations: creation, verification, and what one checksum stands for. */
module Payment {
  import opened Text
  import C = Canonical
  import Checksums
  import Hex
  import Sha256

  /** The signature scheme and the ISO-8601 text of an instant. */
  datatype Setting = Setting(
    publicKey: seq<bv8> -> seq<bv8>,
    sign: (seq<bv8>, seq<bv8>) -> seq<bv8>,
    verify: (seq<bv8>, seq<bv8>, seq<bv8>) -> bool,
    iso: int -> string)

  /** Signatures of a 32-byte seed verify under its public key; SignedPayments.dfy has the instance. */
  ghost predicate Complete(s: Setting) {
    forall m, seed {:trigger s.sign(m, seed)} :: |seed| == 32 ==> s.verify(m, s.sign(m, seed), s.publicKey(seed))
  }

  datatype Check =
    | Accepted | Expired | InvalidAmount | InvalidSequence | ChecksumMismatch | InvalidHex | InvalidSignature
    | OtherRequest | OtherAmount | OtherCurrency | OtherAllowance | OtherKey

  datatype PaymentRequest = PaymentRequest(
    requestId: string, merchantId: string, merchantName: Option<string>, amountMinorUnits: int, currency: string,
    note: Option<string>, nonce: string, createdAt: int, expiresAt: int, merchantPublicKey: string, checksum: string,
    signature: string)

  datatype PaymentConfirmation = PaymentConfirmation(
    confirmationId: string, requestId: string, payerId: string, payerPublicKey: string, amountMinorUnits: int,
    currency: string, status: string, authorizationId: Option<string>, timestamp: int, checksum: string,
    signature: string)

  function OrEmpty(text: Option<string>): string {
    match text case None => "" case Some(t) => t
  }

  function UpperChar(c: char): char {
    if 'a' <= c <= 'z' then c - 'a' + 'A' else c
  }

  function Upper(text: string): string {
    seq(|text|, i requires 0 <= i < |text| => UpperChar(text[i]))
  }

  lemma UpperTwice(text: string)
    ensures Upper(Upper(text)) == Upper(text)
  {}

  lemma UpperLetters()
    ensures Upper("abcdefghijklm") == "ABCDEFGHIJKLM" && Upper("nopqrstuvwxyz") == "NOPQRSTUVWXYZ"
    ensures forall c: char :: !('a' <= c <= 'z') ==> UpperChar(c) == c
  {}

  // ----- checksums and signatures -------------------------------------------------------------------

  function ChecksumOf(s: Setting, b: C.Body): string {
    Checksums.Sha256Hex(C.BuildCanonicalString(s.iso, b))
  }

  predicate ChecksumMatches(s: Setting, b: C.Body, checksum: string) {
    Checksums.Lower(ChecksumOf(s, b)) == Checksums.Lower(checksum)
  }

  function SignText(s: Setting, text: string, seed: seq<bv8>): string {
    Hex.Of(s.sign(Checksums.Utf8(text), seed))
  }

  function PublicKeyText(s: Setting, seed: seq<bv8>): string {
    Hex.Of(s.publicKey(seed))
  }

  /** Key first, then signature, then the signature check on the text. */
  function CheckSignature(s: Setting, text: string, signature: string, publicKey: string): Check {
    match (Hex.Parse(publicKey), Hex.Parse(signature))
    case (Bytes(key), Bytes(sig)) => if s.verify(Checksums.Utf8(text), sig, key) then Accepted else InvalidSignature
    case _ => InvalidHex
  }

  /** Key and signature are hex, and the scheme accepts the signature of the text under the key. */
  predicate SignatureHolds(s: Setting, text: string, signature: string, publicKey: string) {
    && Hex.Parse(publicKey).Bytes? && Hex.Parse(signature).Bytes?
    && s.verify(Checksums.Utf8(text), Hex.Parse(signature).bytes, Hex.Parse(publicKey).bytes)
  }

  /** The three answers: a forged signature is never accepted, and hex that does not parse is told apart from one. */
  lemma CheckSignatureIs(s: Setting, text: string, signature: string, publicKey: string)
    ensures var check := CheckSignature(s, text, signature, publicKey);
            && (check == Accepted <==> SignatureHolds(s, text, signature, publicKey))
            && (check == InvalidHex <==> !Hex.Parse(publicKey).Bytes? || !Hex.Parse(signature).Bytes?)
            && (check == InvalidSignature
                <==> Hex.Parse(publicKey).Bytes? && Hex.Parse(signature).Bytes?
                     && !SignatureHolds(s, text, signature, publicKey))
  {
    hide Hex.Parse, Checksums.Utf8;
  }

  lemma SignedTextVerifies(s: Setting, text: string, seed: seq<bv8>)
    requires Complete(s) && |seed| == 32
    ensures CheckSignature(s, text, SignText(s, text, seed), PublicKeyText(s, seed)) == Accepted
  {
    Hex.RoundTrip(s.publicKey(seed));
    Hex.RoundTrip(s.sign(Checksums.Utf8(text), seed));
    hide Hex.Parse, Hex.Of, Checksums.Utf8;
  }

  /** Digests have no upper-case letters, so comparing in lower case compares them exactly. */
  lemma DigestIsLower(text: string)
    ensures Checksums.Lower(Checksums.Sha256Hex(text)) == Checksums.Sha256Hex(text)
  {
    LowerHex(Sha256.Digest(Checksums.Utf8(text)));
  }

  lemma LowerHex(bytes: seq<bv8>)
    ensures Checksums.Lower(Hex.Of(bytes)) == Hex.Of(bytes)
  {
    Hex.DigitsOnly(bytes);
    hide Hex.Of, Hex.IsDigit, Hex.IsSpace;
  }

  /** Two texts that SHA-256 does not tell apart. */
  ghost predicate Collision(a: string, b: string) {
    a != b && Checksums.Sha256Hex(a) == Checksums.Sha256Hex(b)
  }

  /** Such texts differ in their bytes as well: they are a collision of SHA-256 itself. */
  lemma CollisionIsReal(a: string, b: string)
    requires Collision(a, b)
    ensures Checksums.Utf8(a) != Checksums.Utf8(b)
    ensures Sha256.Digest(Checksums.Utf8(a)) == Sha256.Digest(Checksums.Utf8(b))
  {
    hide Sha256.Digest, Hex.Of, Hex.Parse, Checksums.Utf8;
    if Checksums.Utf8(a) == Checksums.Utf8(b) { Checksums.Utf8Injective(a, b); }
    Hex.RoundTrip(Sha256.Digest(Checksums.Utf8(a)));
    Hex.RoundTrip(Sha256.Digest(Checksums.Utf8(b)));
  }

  /**
   A checksum stands for one record of one kind: if it matches two unambiguous records, they are the
   same record, or their canonical strings are a SHA-256 collision.
   */
  lemma ChecksumBinds(s: Setting, a: C.Body, b: C.Body, checksum: string)
    requires C.Dated(s.iso) && C.Unambiguous(s.iso, a) && C.Unambiguous(s.iso, b)
    requires ChecksumMatches(s, a, checksum) && ChecksumMatches(s, b, checksum)
    ensures a == b || Collision(C.BuildCanonicalString(s.iso, a), C.BuildCanonicalString(s.iso, b))
  {
    hide C.BuildCanonicalString, C.Dated, C.Unambiguous, Checksums.Sha256Hex, Checksums.Lower;
    var x, y := C.BuildCanonicalString(s.iso, a), C.BuildCanonicalString(s.iso, b);
    DigestIsLower(x);
    DigestIsLower(y);
    if x == y { C.CanonicalInjective(s.iso, a, b); }
  }

  // ----- requests ---------------------------------------------------------------------------------------

  function RequestBody(r: PaymentRequest): C.Body {
    C.Request(r.requestId, r.merchantId, OrEmpty(r.merchantName), r.amountMinorUnits, Upper(r.currency),
              OrEmpty(r.note), r.nonce, r.createdAt, r.expiresAt, r.merchantPublicKey)
  }

  function CreateRequest(s: Setting, requestId: string, merchantId: string, merchantName: Option<string>,
                         amountMinorUnits: int, currency: string, note: Option<string>, nonce: string, createdAt: int,
                         expiresAt: int, seed: seq<bv8>): PaymentRequest
    requires |seed| == 32
  {
    var body := C.Request(requestId, merchantId, OrEmpty(merchantName), amountMinorUnits, Upper(currency),
                          OrEmpty(note), nonce, createdAt, expiresAt, PublicKeyText(s, seed));
    var checksum := ChecksumOf(s, body);
    PaymentRequest(requestId, merchantId, merchantName, amountMinorUnits, Upper(currency), note, nonce, createdAt,
                   expiresAt, PublicKeyText(s, seed), checksum, SignText(s, checksum, seed))
  }

  function VerifyRequest(s: Setting, r: PaymentRequest, now: int): Check {
    if now > r.expiresAt then Expired
    else if r.amountMinorUnits <= 0 then InvalidAmount
    else if !ChecksumMatches(s, RequestBody(r), r.checksum) then ChecksumMismatch
    else CheckSignature(s, r.checksum, r.signature, r.merchantPublicKey)
  }

  /** A created request is accepted exactly until it expires, when its amount is positive. */
  lemma CreatedRequestVerifies(s: Setting, requestId: string, merchantId: string, merchantName: Option<string>,
                               amountMinorUnits: int, currency: string, note: Option<string>, nonce: string,
                               createdAt: int, expiresAt: int, seed: seq<bv8>, now: int)
    requires Complete(s) && |seed| == 32
    ensures var r := CreateRequest(s, requestId, merchantId, merchantName, amountMinorUnits, currency, note, nonce,
                                   createdAt, expiresAt, seed);
            && (VerifyRequest(s, r, now) == Accepted <==> now <= expiresAt && amountMinorUnits > 0)
            && r == PaymentRequest(requestId, merchantId, merchantName, amountMinorUnits, Upper(currency), note, nonce,
                                   createdAt, expiresAt, PublicKeyText(s, seed), r.checksum, r.signature)
  {
    hide Upper, ChecksumOf, SignText, PublicKeyText, CheckSignature, Checksums.Lower;
    var r := CreateRequest(s, requestId, merchantId, merchantName, amountMinorUnits, currency, note, nonce, createdAt,
                           expiresAt, seed);
    UpperTwice(currency);
    SignedTextVerifies(s, r.checksum, seed);
  }

  /** Accepted exactly when in time, for a positive amount, and the checksum is the record's and is signed. */
  lemma RequestAcceptedIff(s: Setting, r: PaymentRequest, now: int)
    ensures VerifyRequest(s, r, now) == Accepted
            <==> now <= r.expiresAt && r.amountMinorUnits > 0
                 && Checksums.Lower(r.checksum) == Checksums.Sha256Hex(C.BuildCanonicalString(s.iso, RequestBody(r)))
                 && SignatureHolds(s, r.checksum, r.signature, r.merchantPublicKey)
    ensures VerifyRequest(s, r, now) == Expired <==> now > r.expiresAt
    ensures VerifyRequest(s, r, now) == InvalidAmount <==> now <= r.expiresAt && r.amountMinorUnits <= 0
    ensures VerifyRequest(s, r, now) == ChecksumMismatch
            <==> now <= r.expiresAt && r.amountMinorUnits > 0
                 && Checksums.Lower(r.checksum) != Checksums.Sha256Hex(C.BuildCanonicalString(s.iso, RequestBody(r)))
  {
    hide C.BuildCanonicalString, Checksums.Sha256Hex, Checksums.Lower, CheckSignature, SignatureHolds, RequestBody;
    DigestIsLower(C.BuildCanonicalString(s.iso, RequestBody(r)));
    CheckSignatureIs(s, r.checksum, r.signature, r.merchantPublicKey);
  }

  /** Equal in every field that is signed: the currency in any case, no name or note like an empty one. */
  predicate SameRequest(r: PaymentRequest, t: PaymentRequest) {
    && r.requestId == t.requestId && r.merchantId == t.merchantId
    && OrEmpty(r.merchantName) == OrEmpty(t.merchantName) && r.amountMinorUnits == t.amountMinorUnits
    && Upper(r.currency) == Upper(t.currency) && OrEmpty(r.note) == OrEmpty(t.note) && r.nonce == t.nonce
    && r.createdAt == t.createdAt && r.expiresAt == t.expiresAt && r.merchantPublicKey == t.merchantPublicKey
  }

  lemma RequestBodyTells(r: PaymentRequest, t: PaymentRequest)
    ensures RequestBody(r) == RequestBody(t) <==> SameRequest(r, t)
  {
    hide Upper;
  }

  /**
   Tampering shows: a request that keeps the checksum of a created one but changes any signed field is
   rejected, or the two canonical strings are a SHA-256 collision.
   */
  lemma TamperedRequestRejected(s: Setting, r: PaymentRequest, t: PaymentRequest, now: int)
    requires C.Dated(s.iso) && C.Unambiguous(s.iso, RequestBody(r)) && C.Unambiguous(s.iso, RequestBody(t))
    requires ChecksumMatches(s, RequestBody(r), r.checksum) && t.checksum == r.checksum && !SameRequest(r, t)
    ensures VerifyRequest(s, t, now) in {Expired, InvalidAmount, ChecksumMismatch}
         || Collision(C.BuildCanonicalString(s.iso, RequestBody(r)), C.BuildCanonicalString(s.iso, RequestBody(t)))
  {
    hide C.BuildCanonicalString, C.Dated, C.Unambiguous, ChecksumMatches, CheckSignature, RequestBody, Collision,
         SameRequest;
    RequestBodyTells(r, t);
    if ChecksumMatches(s, RequestBody(t), t.checksum) {
      ChecksumBinds(s, RequestBody(r), RequestBody(t), r.checksum);
    }
  }

  // ----- confirmations --------------------------------------------------------------------------------------

  function ConfirmationBody(c: PaymentConfirmation): C.Body {
    C.Confirmation(c.confirmationId, c.requestId, c.payerId, c.payerPublicKey, c.amountMinorUnits, Upper(c.currency),
                   c.status, OrEmpty(c.authorizationId), c.timestamp)
  }

  function CreateConfirmation(s: Setting, confirmationId: string, requestId: string, payerId: string,
                              amountMinorUnits: int, currency: string, status: string,
                              authorizationId: Option<string>, timestamp: int, seed: seq<bv8>)
      : PaymentConfirmation
    requires |seed| == 32
  {
    var body := C.Confirmation(confirmationId, requestId, payerId, PublicKeyText(s, seed), amountMinorUnits,
                               Upper(currency), status, OrEmpty(authorizationId), timestamp);
    var checksum := ChecksumOf(s, body);
    PaymentConfirmation(confirmationId, requestId, payerId, PublicKeyText(s, seed), amountMinorUnits, Upper(currency),
                        status, authorizationId, timestamp, checksum, SignText(s, checksum, seed))
  }

  function VerifyAgainstRequest(s: Setting, c: PaymentConfirmation, r: PaymentRequest): Check {
    if c.requestId != r.requestId then OtherRequest
    else if c.amountMinorUnits != r.amountMinorUnits then OtherAmount
    else if Upper(c.currency) != Upper(r.currency) then OtherCurrency
    else if !ChecksumMatches(s, ConfirmationBody(c), c.checksum) then ChecksumMismatch
    else CheckSignature(s, c.checksum, c.signature, c.payerPublicKey)
  }

  /** A created confirmation is accepted against exactly the requests whose id, amount and currency it names. */
  lemma CreatedConfirmationVerifies(s: Setting, confirmationId: string, requestId: string, payerId: string,
                                    amountMinorUnits: int, currency: string, status: string,
                                    authorizationId: Option<string>, timestamp: int, seed: seq<bv8>, r: PaymentRequest)
    requires Complete(s) && |seed| == 32
    ensures var c := CreateConfirmation(s, confirmationId, requestId, payerId, amountMinorUnits, currency, status,
                                        authorizationId, timestamp, seed);
            && (VerifyAgainstRequest(s, c, r) == Accepted
                <==> requestId == r.requestId && amountMinorUnits == r.amountMinorUnits
                     && Upper(currency) == Upper(r.currency))
            && c == PaymentConfirmation(confirmationId, requestId, payerId, PublicKeyText(s, seed), amountMinorUnits,
                                        Upper(currency), status, authorizationId, timestamp, c.checksum, c.signature)
  {
    hide Upper, ChecksumOf, SignText, PublicKeyText, CheckSignature, Checksums.Lower;
    var c := CreateConfirmation(s, confirmationId, requestId, payerId, amountMinorUnits, currency, status,
                                authorizationId, timestamp, seed);
    UpperTwice(currency);
    SignedTextVerifies(s, c.checksum, seed);
  }

  /** Accepted exactly against a request it names, when the checksum is the record's and is signed. */
  lemma ConfirmationAcceptedIff(s: Setting, c: PaymentConfirmation, r: PaymentRequest)
    ensures VerifyAgainstRequest(s, c, r) == Accepted
            <==> c.requestId == r.requestId && c.amountMinorUnits == r.amountMinorUnits
                 && Upper(c.currency) == Upper(r.currency)
                 && Checksums.Lower(c.checksum)
                    == Checksums.Sha256Hex(C.BuildCanonicalString(s.iso, ConfirmationBody(c)))
                 && SignatureHolds(s, c.checksum, c.signature, c.payerPublicKey)
    ensures VerifyAgainstRequest(s, c, r) == OtherRequest <==> c.requestId != r.requestId
    ensures VerifyAgainstRequest(s, c, r) == OtherAmount
            <==> c.requestId == r.requestId && c.amountMinorUnits != r.amountMinorUnits
    ensures VerifyAgainstRequest(s, c, r) == OtherCurrency
            <==> c.requestId == r.requestId && c.amountMinorUnits == r.amountMinorUnits
                 && Upper(c.currency) != Upper(r.currency)
  {
    hide C.BuildCanonicalString, Checksums.Sha256Hex, Checksums.Lower, CheckSignature, SignatureHolds,
         ConfirmationBody, Upper;
    DigestIsLower(C.BuildCanonicalString(s.iso, ConfirmationBody(c)));
    CheckSignatureIs(s, c.checksum, c.signature, c.payerPublicKey);
  }

  /** Equal in every field that is signed. */
  predicate SameConfirmation(c: PaymentConfirmation, t: PaymentConfirmation) {
    && c.confirmationId == t.confirmationId && c.requestId == t.requestId && c.payerId == t.payerId
    && c.payerPublicKey == t.payerPublicKey && c.amountMinorUnits == t.amountMinorUnits
    && Upper(c.currency) == Upper(t.currency) && c.status == t.status
    && OrEmpty(c.authorizationId) == OrEmpty(t.authorizationId) && c.timestamp == t.timestamp
  }

  lemma ConfirmationBodyTells(c: PaymentConfirmation, t: PaymentConfirmation)
    ensures ConfirmationBody(c) == ConfirmationBody(t) <==> SameConfirmation(c, t)
  {
    hide Upper;
  }

  /**
   The same for confirmations: one that still names the request but changes a signed field is rejected,
   or there is a collision.
   */
  lemma TamperedConfirmationRejected(s: Setting, c: PaymentConfirmation, t: PaymentConfirmation, r: PaymentRequest)
    requires C.Dated(s.iso) && C.Unambiguous(s.iso, ConfirmationBody(c)) && C.Unambiguous(s.iso, ConfirmationBody(t))
    requires ChecksumMatches(s, ConfirmationBody(c), c.checksum) && t.checksum == c.checksum
    requires !SameConfirmation(c, t)
    ensures VerifyAgainstRequest(s, t, r) in {OtherRequest, OtherAmount, OtherCurrency, ChecksumMismatch}
         || Collision(C.BuildCanonicalString(s.iso, ConfirmationBody(c)),
                      C.BuildCanonicalString(s.iso, ConfirmationBody(t)))
  {
    hide C.BuildCanonicalString, C.Dated, C.Unambiguous, ChecksumMatches, CheckSignature, ConfirmationBody, Collision,
         Upper, SameConfirmation;
    ConfirmationBodyTells(c, t);
    if ChecksumMatches(s, ConfirmationBody(t), t.checksum) {
      ChecksumBinds(s, ConfirmationBody(c), ConfirmationBody(t), c.checksum);
    }
  }
}

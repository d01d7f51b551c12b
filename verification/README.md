# PayFlex offline protocol: a verified model

PayFlex lets two phones pay each other with no network. A merchant shows a signed payment request as an
endless stream of fountain-coded QR frames; the payer scans it, spends from a pre-signed allowance, and
shows a signed confirmation back the same way; when the payer is online again, the queued authorizations
are settled. This project models that protocol and the two server-side pieces beside it (the Safebox escrow
contract and the login challenges), and proves what they keep over every input and every run.

To check it: `dafny verify dfyconfig.toml`.

## How it is organised

| part | files |
|---|---|
| Fountain code: PRNG and sampler, source blocks, peeling, decoder and its runs, closure, the app's objects, the TypeScript twin | Prng, Sampling, Blocks, Stream, Peeling, Decoding, Ripple, Fountain, FountainDecoder, TwinDecoding, TwinRipple, TwinStreams |
| Text forms: bytes, hex, base64url, decimal, frames | Bytes, Hex, Base64, Text, Wire |
| Hashes: FIPS 180-4 definitions and the app's loops, UTF-8 and checksums | Sha256Words, Sha256, Sha512Words, Sha512, BigEndian, Checksums |
| Where the hash constants come from, one example of each hash, and how the app's SHA-512 differs | Primes, HashConstants, Abc256, Abc512, AppSha512 |
| Ed25519: prime-field arithmetic, the curve, point codec, signing, which signatures are accepted, the concrete constants | ModArith, Edwards, EdwardsClosed, LittleEndian, PointCodec, Signing, SignatureVerdict, Ed25519 |
| Payments: canonical strings, requests, confirmations, replay sets | Canonical, Payment, SignedPayments, Replay |
| Reserve and redemption: authorizations and chains, the reserve over whole runs, the service objects, settlement, overlapping calls | Authorizations, Reserve, ReserveService, Redemption, RedemptionService, OverlappingSpends, ForkedChains, OverlappingSyncs, EndToEnd |
| Server side | Safebox, Amounts, Auth |

Each imperative part comes twice: once as functions on values, about which the theorems are proved, and once
as the methods and classes the source has (arrays XORed in place, equation objects peeled in place, allowance
and record objects changed in place, a queue and a storage), each method proved to compute the function.

## What is assumed

Nothing is assumed as an axiom; three mathematical facts appear as explicit hypotheses of the signing theorems,
and nowhere else:

- `ModArith.IsPrime(Ed25519.P)`: 2^255 - 19 is prime. (Fermat's theorem, Euclid's lemma, and the quadratic
  characters of 2 and of the curve constant are proved here.)
- `Signing.Associative`: the addition formula is associative on the curve. (That it is complete, commutative,
  has the neutral point, and stays on the curve is proved here.)
- `Signing.Times(base, order) == Zero()`: the stated order takes the base point to the neutral one.
  (`Ed25519.AppOneSignature` alone asks in addition that no smaller positive number does.)

The payment theorems use signatures only through `Payment.Complete`, which `SignedPayments.Ed25519Complete`
proves of the app's Ed25519 from those hypotheses. ISO-8601 text is a function that is injective and prints no
`|`; JSON text is a pair of functions with the stated inverse law, which includes the upper-casing of
currencies on reading. Random ids are assumed not to repeat. SHA-256 is never assumed collision-free: where a
hash stands for a record, the conclusion is "the same record, or these two named strings collide".

## Where the code falls short of what one might expect

- The app's SHA-512 is not the one of FIPS 180-4, which `crypto_utils.dart` says it implements: two of its eighty round
  constants are wrong, those of rounds 38 and 39 (`HashConstants.AppConstants512`). No message of up to 111 bytes has
  its SHA-512 digest in the app (`AppSha512.ShortDigestsDiffer`), so no 32-byte key seed has the digest from which
  section 5.1.5 of RFC 8032 derives the secret scalar and the prefix. For longer messages the digests agree only where the hash values before
  the last block do not (`AppSha512.DigestsAgreeOnlyIf`). The app's signatures verify in the app all the same
  (`Ed25519.AppSigningCompleteness` holds of the hash it has); with other implementations of Ed25519 they need not.
- The peeling cascade carries only the last block of a pass into the next one. Soundness survives; closure
  does not: after the frames 4, 29, 5 and 2 of any four-block payload the decoder leaves a block unsolved that
  its equations determine (`Ripple.StrandedRun`). `Ripple.RippleClosure` gives exactly when a step keeps it. The
  script's cascade, which goes on with each block at once, loses closure on the same frames
  (`TwinStreams.TwinsDiffer`); `TwinRipple.TwinClosure` gives exactly when.
- The Dart and TypeScript samplers differ for some seeds, and for negative seeds also because JavaScript's `%`
  keeps the sign (`Sampling.TwinSamplers` says exactly which, `Sampling.TwinsDifferBelowZero` and
  `TwinStreams.SamplersDiffer` give some). One such frame of the app makes the script's decoder wrong about the
  payload unless the blocks left out cancel out (`TwinStreams.MismatchedFrame`).
- A reserve service that spends or removes before it has read the stored queue after a restart overwrites that
  queue (`Reserve.UnreadQueueIsLost`, and the exact condition in `Reserve.StepKeepsQueueComplete`).
- Calls that overlap on one service. A spend waits for storage in its look-up and for the device key between its
  balance check and its debit; a sync waits at every payment. Two spends that both load the allowance after a restart
  fork its chain (`ForkedChains.ForkedRestart`; exactly when: `ForkedChains.ChainedIff`, and for the next look-up
  `ForkedChains.LookSafeIff`), two that wait for their debits can overdraw it (`OverlappingSpends.TwoDebits`; exactly
  when: `OverlappingSpends.DebitCoveredIff`), and two syncs can pay one authorization twice
  (`OverlappingSyncs.PaidTwice`; exactly when: `OverlappingSyncs.SyncSafeIff`). The screens' busy flags keep calls
  apart; the services themselves do not.
- A text value that holds the marker of the entry after it (a separator, the next key and an equals sign) lets,
  when that entry is text as well, two different records of any kind have one canonical string
  (`Canonical.SeparatorMatters`); when no value holds the marker of the entry after it, they never do. The last value
  may hold anything.
- For a message of 2^64 bits or more (and below 2^128) the app's SHA-512 padding is not the defined one
  (`Sha512.AppPadIff`).
- An issuer's clawback can take the Safebox below what its ledger says it holds: exactly when more was clawed
  back than it opened with and got from outside (`Safebox.BalanceCovers`).
- An unmounted context skips an authorization without counting it (`Redemption.SyncCounts`).
- `docs/stellar/offline-reserve.md` describes HMAC tokens and a redemption call to the backend; the code signs
  with Ed25519 and settles by an on-device payment. `docs/stellar/safebox-soroban.md` describes withdrawal as
  owner-only and closing; the contract lets admins withdraw and closes separately. The code is followed.

## Model

| member | source | states |
|---|---|---|
| Prng.DartEqualsJs | backend/scripts/verify-offline-protocol.ts:138-145 | the Dart 64-bit masked form and the JavaScript signed form of xorshift32 agree on every state, and are one step of the 32-bit mixing |
| Prng.XorshiftBijective | app/lib/protocol/fountain_coder.dart:86-93 | never 0, within 32 bits, injective on starting states and onto the nonzero 32-bit values |
| Sampling.SampleDegreeAndIndices | app/lib/protocol/fountain_coder.dart:96-138 | the loop that draws by removing from a list computes the sample |
| Sampling.SampleShape | app/lib/protocol/fountain_coder.dart:96-138 | for every seed and every k, exactly `degree` strictly increasing indices below k |
| Sampling.DegreeRows | app/lib/protocol/fountain_coder.dart:109-125 | the six rows of the degree table for every number of blocks: 1, 2, 3 or 4 blocks as far as there are so many, then half of them but at least 5, then all |
| Sampling.TwinSamplers | backend/scripts/verify-offline-protocol.ts:147-171 | over all integers, the two samplers agree if and only if k <= 1, or the seed is below k and not a negative number that k does not divide, or the seed is at least k and k <= 5 or the drawn probability is outside [0.93, 0.97) |
| Sampling.TwinsDifferBelowZero | backend/scripts/verify-offline-protocol.ts:149-149 | at seed -1 and k = 3 the app samples block 2 and the script the block number -1 |
| Sampling.SampleTsShape | backend/scripts/verify-offline-protocol.ts:147-171 | for every seed from 0 the script's sample is `degree` block numbers below k, and all of them wherever it differs from the app's |
| Stream.BlocksRoundTrip | app/lib/protocol/fountain_coder.dart:180-190 | the padded blocks, joined and cut to the payload length, are the payload, for every length and block size |
| Stream.PacketIs | app/lib/protocol/fountain_coder.dart:215-241 | the fields of packet n: its number and seed n, the checksum and length of the payload, as many blocks as that needs and no more, the sample of the seed |
| Fountain.FountainEncoder.FromBytes | app/lib/protocol/fountain_coder.dart:167-200 | an empty payload is refused; otherwise the blocks are the payload's and the stream starts at 0 |
| Fountain.FountainEncoder.NextPacket | app/lib/protocol/fountain_coder.dart:215-241 | emits the packet of the current sequence number, its data the XOR of the sampled blocks, and advances |
| Fountain.FountainEncoder.CombineBlocks | app/lib/protocol/fountain_coder.dart:221-228 | the byte loops compute the XOR of the chosen set of blocks |
| Peeling.KeptShrinks | app/lib/protocol/fountain_coder.dart:362-381 | each pass loses an equation for every block it isolates, so the cascade terminates |
| Peeling.SweepMeaning | app/lib/protocol/fountain_coder.dart:366-380 | one pass over the equations is equivalent, for every assignment of blocks, to the equations it keeps and the blocks it isolates, and keeps at least two indices per equation |
| Peeling.CascadeMeaning | app/lib/protocol/fountain_coder.dart:355-391 | the whole cascade keeps the meaning exactly: an assignment fits before if and only if it fits after |
| Peeling.CascadeKeepsSolved | app/lib/protocol/fountain_coder.dart:355-391 | the cascade never changes a solved block |
| Ripple.RippleClosure | app/lib/protocol/fountain_coder.dart:355-391 | solving a block leaves no pending equation naming a solved block if and only if no equation from before with two or more unswept blocks names a block that was solved but not carried on; always so when no pass solves two |
| Ripple.RunNamesOnly | app/lib/protocol/fountain_coder.dart:296-391 | over every run, pending equations name no solved blocks but those solved and not carried on in some step |
| Ripple.RunClosed | app/lib/protocol/fountain_coder.dart:296-391 | a run in which every solved block is carried on is closed after every packet |
| Ripple.StrandedRun | app/lib/protocol/fountain_coder.dart:382-389 | on every four-block payload, the encoder's frames 4, 29, 5 and 2 end in a decoder that is not closed and leaves block 3 unsolved although its equations determine it |
| Decoding.LearnMeaning | app/lib/protocol/fountain_coder.dart:319-336 | after taking an equation the decoder knows exactly what it knew and the equation, for every assignment |
| Decoding.StepKeepsInvariant | app/lib/protocol/fountain_coder.dart:296-337 | every packet keeps the decoder invariant, raises nothing, and is answered by whether the payload is complete |
| Decoding.DecoderSoundness | app/lib/protocol/fountain_coder.dart:296-419 | over every run (any order, loss, repeats, other sessions after the first): solved blocks and pending equations are true of the payload, completion gives the payload, the checksum exception never fires |
| Decoding.DecoderLosesNothing | app/lib/protocol/fountain_coder.dart:296-391 | over every run, finished or not, the decoder knows exactly what all received packets say together |
| Decoding.GuaranteedDelivery | app/lib/protocol/fountain_coder.dart:103-106 | any run that contains seeds 0 to k-1 ends complete with the payload |
| Decoding.CompletionIsPayload | app/lib/protocol/fountain_coder.dart:393-419 | the completion check succeeds exactly when all k blocks are solved, and then returns the payload |
| Decoding.CompletionIff | app/lib/protocol/fountain_coder.dart:393-419 | on any state: waits without the first k blocks, raises on a length out of range or a checksum that differs in more than letter case, and completes otherwise, changing nothing else |
| Decoding.DeliveredIsChecked | app/lib/protocol/fountain_coder.dart:296-419 | over every run of packets, genuine or not: a complete decoder holds bytes of the length and with the checksum that the first packet announced |
| FountainDecoding.FountainDecoder.Sweep | app/lib/protocol/fountain_coder.dart:366-380 | the backwards loop that peels objects in place and removes them from the list keeps and isolates exactly what the function says |
| FountainDecoding.FountainDecoder.AbsorbNew | app/lib/protocol/fountain_coder.dart:382-389 | records the isolated blocks that are new and carries on the last |
| FountainDecoding.FountainDecoder.SolveBlock | app/lib/protocol/fountain_coder.dart:355-391 | the in-place cascade computes the cascade function, aliasing nothing |
| FountainDecoding.FountainDecoder.ReduceEquationWithSolved | app/lib/protocol/fountain_coder.dart:341-353 | subtracts exactly the solved blocks an equation names |
| FountainDecoding.FountainDecoder.CheckCompletion | app/lib/protocol/fountain_coder.dart:393-419 | joins, cuts, checks the checksum, and changes the state as the function says |
| FountainDecoding.FountainDecoder.AddPacket | app/lib/protocol/fountain_coder.dart:296-337 | the new state and the answer are those of the decoder function, so every theorem on it holds of the object |
| FountainDecoding.FountainDecoder.AddFrame | app/lib/protocol/fountain_coder.dart:289-293 | text that is no frame changes nothing; a frame is decoded as its packet |
| TwinDecoding.SolveBlockLoop | backend/scripts/verify-offline-protocol.ts:278-307 | the TypeScript loop, which switches blocks in the middle of a pass, computes the twin's cascade |
| TwinDecoding.CascadeMeaning | backend/scripts/verify-offline-protocol.ts:278-307 | the twin's cascade also keeps the meaning exactly and never changes a solved block |
| TwinStreams.TakenAsSent | backend/scripts/verify-offline-protocol.ts:253-255 | the script takes a frame of the app for what it says if and only if the samplers agree on its seed; otherwise it takes it for the XOR of all blocks |
| TwinStreams.TakeKeepsInvariant | backend/scripts/verify-offline-protocol.ts:250-276 | a frame taken as sent keeps what the script's decoder knows exact, throws nothing and delivers only the payload |
| TwinStreams.StreamSound | backend/scripts/verify-offline-protocol.ts:228-325 | over every run of such frames, in any order: nothing is thrown, every solved block and equation is true, what is delivered is the payload, and seeds 0 to k-1 deliver it |
| TwinStreams.ScriptDelivers | backend/scripts/verify-offline-protocol.ts:173-325 | the same of the script's own encoder and decoder, for all seeds, with no condition |
| TwinStreams.TwinDelivers | backend/scripts/verify-offline-protocol.ts:228-325 | the same of the app's frames, wherever the samplers agree |
| TwinStreams.TwinLosesNothing | backend/scripts/verify-offline-protocol.ts:228-325 | what the script's decoder knows after such frames is exactly what all of them say |
| TwinStreams.TwinsKnowTheSame | backend/scripts/verify-offline-protocol.ts:228-325 | fed the same seeds, in whatever orders and with whatever strays, the app's decoder and the script's admit exactly the same assignments of blocks, finished or not |
| TwinStreams.TwinsDiffer | backend/scripts/verify-offline-protocol.ts:278-307 | yet their equations may differ: after frames 4, 29, 5 and 2 of a four-block payload they have solved different blocks |
| TwinRipple.TwinClosure | backend/scripts/verify-offline-protocol.ts:278-307 | solving a block leaves no pending equation of the script naming a solved block if and only if every equation that names two blocks it was not peeled of was peeled of all those it names that the cascade solved |
| TwinStreams.MismatchedFrame | backend/scripts/verify-offline-protocol.ts:250-276 | one frame on which the samplers differ leaves the script's decoder right about the payload if and only if the blocks the app left out XOR to zero |
| TwinStreams.SamplersDiffer | backend/scripts/verify-offline-protocol.ts:155-159 | there is such a frame, seed 119, on every payload of 6 to 119 blocks |
| TwinStreams.CheckGenuine | backend/scripts/verify-offline-protocol.ts:309-325 | on true blocks the completion test waits below k blocks, and at k holds all of them, passes its checksum and delivers the payload |
| TwinStreams.VerdictIs | backend/scripts/verify-offline-protocol.ts:309-325 | on any blocks: waits below k of them, throws when one of the first k is missing or the checksum differs, delivers otherwise |
| TwinStreams.DeliveredIsChecked | backend/scripts/verify-offline-protocol.ts:250-325 | over every run, mismatched frames included: what the script holds as the payload has the checksum announced |
| Hex.RoundTrip | app/lib/protocol/crypto_utils.dart:18-36 | parsing the hex text of any bytes gives them back |
| Hex.WrittenAt | app/lib/protocol/crypto_utils.dart:18-24 | place by place, the text of a byte string is the sixteens digit and the ones digit of each byte |
| Hex.PairsTaken | app/lib/protocol/crypto_utils.dart:31-35 | cleaned text is taken exactly when it is pairs of digits, or a sign and a digit, and then for the value of each pair |
| Base64.RoundTrip | app/lib/protocol/crypto_utils.dart:38-46 | decoding the base64url text of any bytes gives them back |
| Base64.DecodesIff | app/lib/protocol/crypto_utils.dart:38-46 | a text decodes to bytes if and only if, in either alphabet and with its padding filled up, it is their encoding |
| Base64.Examples | app/lib/protocol/crypto_utils.dart:38-38 | the examples of section 10 of RFC 4648 |
| Text.SplitJoin | app/lib/protocol/fountain_coder.dart:43-55 | splitting joined separator-free parts gives the parts |
| Text.PrintRoundTrip | app/lib/protocol/fountain_coder.dart:57-66 | parsing a printed integer gives it back |
| Text.NumberIff | app/lib/protocol/fountain_coder.dart:58-62 | a text is a number if and only if it is digits with at most one sign in front, and then that one |
| Wire.FrameRoundTrip | app/lib/protocol/fountain_coder.dart:43-80 | parsing a serialized packet gives it back, with the unsent degree and indices sampled again |
| Wire.EncoderFrames | app/lib/protocol/fountain_coder.dart:43-80 | every frame of an encoder with a colon-free session id is read back as its packet |
| Wire.ParsedIff | app/lib/protocol/fountain_coder.dart:50-80 | exactly which texts are taken for which packet, and which are a format error: the prefix, nine fields or more in order, four numbers, data that decodes, and the sampled part of the seed |
| Sha256.ComputeDigest | app/lib/protocol/crypto_utils.dart:128-198 | padding, in-place schedule and 64 masked rounds compute the digest of sections 5.1 and 6.2.2 of FIPS 180-4, for every byte list |
| Checksums.CharEncoded | app/lib/protocol/crypto_utils.dart:48-48 | every character takes the one to four bytes of section 3 of RFC 3629: as few as hold its number, the first announcing how many |
| Checksums.Utf8Injective | app/lib/protocol/crypto_utils.dart:48-48 | different texts have different bytes |
| Checksums.PayloadChecksum | app/lib/protocol/fountain_coder.dart:174-175 | the checksum of a frame is the first eight digits of the digest of the payload's hex text |
| Sha256.DigestChains | app/lib/protocol/crypto_utils.dart:147-182 | the digest of every message compresses the blocks of its padding one after the other from the starting words |
| HashConstants.RoundConstants256 | app/lib/protocol/crypto_utils.dart:109-126 | constant t is the first 32 bits after the point of the cube root of prime t |
| HashConstants.InitialWords256 | app/lib/protocol/crypto_utils.dart:129-130 | the starting words are those of the square roots of the first eight primes |
| Abc256.AbcDigest | app/lib/protocol/crypto_utils.dart:128-198 | the digest of "abc" is the one that FIPS 180-4 gives as its example |
| Sha256.PadMessage | app/lib/protocol/crypto_utils.dart:132-141 | the padded buffer is the message, a 1 bit, zeros, and the 64-bit length |
| Sha256.ExtendSchedule | app/lib/protocol/crypto_utils.dart:149-153 | the in-place loop fills the array with the message schedule |
| Sha256.RunRounds | app/lib/protocol/crypto_utils.dart:155-173 | the 64 rounds on masked wide integers are the rounds on 32-bit words |
| Sha512.ComputeDigest | app/lib/protocol/crypto_utils.dart:295-372 | the same for SHA-512 (section 6.4.2), over unbounded integers masked to 64 bits: for every byte list the digest of the app's padding, with the app's round constants |
| Sha512.AppPadIff | app/lib/protocol/crypto_utils.dart:308-319 | the app writes 8 of the 16 bytes of the length, so its padding is the defined one if and only if the message is below 2^64 bits |
| Sha512.ExtendSchedule | app/lib/protocol/crypto_utils.dart:327-331 | the in-place loop fills the array with the message schedule |
| Sha512.RunRounds | app/lib/protocol/crypto_utils.dart:333-351 | the 80 rounds on masked integers are the rounds on 64-bit words |
| Sha512.DigestChains | app/lib/protocol/crypto_utils.dart:323-361 | either digest of every message compresses the blocks of its padding one after the other from the starting words |
| HashConstants.RoundConstants512 | app/lib/protocol/crypto_utils.dart:206-287 | constant t of FIPS 180-4 is the first 64 bits after the point of the cube root of prime t |
| HashConstants.AppConstants512 | app/lib/protocol/crypto_utils.dart:245-246 | constant t of the app is so if and only if t is neither 38 nor 39 |
| HashConstants.InitialWords512 | app/lib/protocol/crypto_utils.dart:296-303 | the starting words are those of the square roots of the first eight primes |
| Abc512.AbcDigest | app/lib/protocol/crypto_utils.dart:295-372 | the bytes of the app's digest of "abc" |
| AppSha512.RoundsDiffer | app/lib/protocol/crypto_utils.dart:333-351 | from one state and block, the app's rounds and the defined ones agree up to round 38 and at no point after it |
| AppSha512.CompressDiffers | app/lib/protocol/crypto_utils.dart:323-361 | so no block is compressed alike from any state |
| AppSha512.ShortDigestsDiffer | app/lib/protocol/crypto_utils.dart:245-246 | no message of up to 111 bytes, a key seed among them, has its SHA-512 digest in the app |
| AppSha512.DigestsAgreeOnlyIf | app/lib/protocol/crypto_utils.dart:245-246 | of a longer one the digests agree only where the hash values before the last block do not |
| LittleEndian.DecodeScalar | app/lib/protocol/crypto_utils.dart:408-414 | the shift-and-add loop computes the little-endian number |
| LittleEndian.EncodeScalar | app/lib/protocol/crypto_utils.dart:416-422 | the shift-and-mask loop computes the little-endian bytes |
| LittleEndian.NumberRoundTrip | app/lib/protocol/crypto_utils.dart:408-422 | encoding then decoding gives back every number that fits |
| LittleEndian.BytesRoundTrip | app/lib/protocol/crypto_utils.dart:408-422 | decoding then encoding gives back every byte list |
| ModArith.Fermat | app/lib/protocol/crypto_utils.dart:390-394 | for a prime p and a not divisible by p, a^(p-1) = 1 modulo p; so the power p-2 inverts |
| Edwards.Complete | app/lib/protocol/crypto_utils.dart:459-465 | the denominators of the addition formula are never zero on the curve |
| EdwardsClosed.AddOnCurve | app/lib/protocol/crypto_utils.dart:459-465 | the formula's sum of two curve points is a reduced curve point |
| EdwardsClosed.AddIs | app/lib/protocol/crypto_utils.dart:459-465 | its coordinates are the quotients of section 5.1.4 of RFC 8032, which are always defined |
| EdwardsClosed.AddZero | app/lib/protocol/crypto_utils.dart:459-468 | the point (0, 1) is neutral |
| PointCodec.CandidateIsRoot | app/lib/protocol/crypto_utils.dart:444-447 | the power (p+3)/8, corrected by the root of -1, is a square root of every square |
| PointCodec.PointRoundTrip | app/lib/protocol/crypto_utils.dart:424-457 | decoding an encoded curve point gives it back |
| PointCodec.DecodeSound | app/lib/protocol/crypto_utils.dart:432-457 | whatever decodes is on the curve and encodes to the same bytes, so it has the asked parity |
| Signing.ScalarMulLoop | app/lib/protocol/crypto_utils.dart:467-479 | the double-and-add loop computes the scalar multiplication function |
| Signing.ScalarMulIs | app/lib/protocol/crypto_utils.dart:467-479 | for every scalar and curve point, double-and-add is the n-fold sum |
| Signing.TimesModOrder | app/lib/protocol/crypto_utils.dart:496-514 | multiples of the base point depend only on the scalar modulo the order |
| Signing.VerificationEquation | app/lib/protocol/crypto_utils.dart:533-543 | s B = R + k A for the s, R and A that signing produces |
| Signing.SigningCompleteness | app/lib/protocol/crypto_utils.dart:489-544 | over any proper group, verify accepts every signature under its seed's public key, for every message and seed |
| Signing.SignMessage | app/lib/protocol/crypto_utils.dart:496-519 | signing by way of the hash, scalar and double-and-add loops produces the signature of the theorems |
| Signing.VerifySignature | app/lib/protocol/crypto_utils.dart:521-544 | verification by way of the loops gives the verdict of the theorems |
| SignatureVerdict.VerdictIs | app/lib/protocol/crypto_utils.dart:521-544 | a signature is accepted if and only if it has 64 bytes under a key of 32, curve points with the encodings of the key and of its first half exist, the number of its second half is below the order, and s B = R + k A |
| SignatureVerdict.OneSignature | app/lib/protocol/crypto_utils.dart:521-544 | over a group whose base has exactly the order, two accepted signatures of one message and key with one first half are the same |
| SignatureVerdict.ClampIs | app/lib/protocol/crypto_utils.dart:481-487 | the secret scalar is the number of the hash's first half without its lowest three bits and all from the 254th on, and with the 254th set |
| SignatureVerdict.PublicKeyIs | app/lib/protocol/crypto_utils.dart:489-494 | the public key is the encoding of the scalar's multiple of the base point |
| SignatureVerdict.SignatureIs | app/lib/protocol/crypto_utils.dart:496-519 | a signature is that of section 5.1.6 of RFC 8032 over the app's hash: R from the prefix and the message, s = r + k a modulo the order |
| Ed25519.Powers | app/lib/protocol/crypto_utils.dart:380-381 | the written-out prime and order are 2^255 - 19 and 2^252 plus the given number |
| Ed25519.TwoIsNonresidue | app/lib/protocol/crypto_utils.dart:383-383 | 2 is not a square for p = 5 mod 8, so the app's power of 2 is a root of -1 |
| Ed25519.AppCurve | app/lib/protocol/crypto_utils.dart:380-383 | the constants the app derives meet what the curve theorems ask: d is not a square and the root constant squares to -1 |
| Ed25519.AppBase | app/lib/protocol/crypto_utils.dart:385-406 | the derived d and base point are the ones RFC 8032 writes out, and the base point is on the curve |
| Ed25519.EncodedBase | app/lib/protocol/crypto_utils.dart:424-430 | the base point is written as RFC 8032 writes it, and its opposite with the sign bit |
| Ed25519.AppSigningCompleteness | app/lib/protocol/crypto_utils.dart:489-544 | signing completeness for the app's own constants |
| Ed25519.AppVerdict | app/lib/protocol/crypto_utils.dart:521-544 | exactly which signatures are accepted, for the app's own constants |
| Ed25519.AppOneSignature | app/lib/protocol/crypto_utils.dart:521-544 | one signature per first half, for the app's own constants |
| Canonical.CanonicalInjective | app/lib/protocol/payment_protocol.dart:103-120 | equal canonical strings of records of any of the four kinds come from the same record of the same kind, when no value holds the marker of the entry after it |
| Canonical.RequestString | app/lib/protocol/payment_protocol.dart:103-120 | the string of a payment request: its version, then its named values in order |
| Canonical.ConfirmationString | app/lib/protocol/payment_protocol.dart:286-301 | the same of a confirmation |
| Canonical.AllowanceString | app/lib/services/offline_reserve_service.dart:53-67 | the same of an allowance |
| Canonical.AuthorizationString | app/lib/services/offline_reserve_service.dart:172-188 | the same of an authorization |
| Canonical.SeparableIsUnambiguous | app/lib/protocol/payment_protocol.dart:103-120 | so it is for records without separators in their text fields |
| Canonical.SeparatorMatters | app/lib/protocol/payment_protocol.dart:116-119 | wherever a text entry follows a text entry, in each of the four kinds and whatever the rest holds, a value that holds the next marker lets two different records have one canonical string |
| Payment.ChecksumBinds | app/lib/protocol/payment_protocol.dart:146-149 | a checksum that matches two records without such values stands for one record, or their strings are a SHA-256 collision |
| Payment.CollisionIsReal | app/lib/protocol/crypto_utils.dart:57-61 | the collision meant here and below is of bytes: two byte strings with one SHA-256 digest |
| Payment.CheckSignatureIs | app/lib/protocol/payment_protocol.dart:151-161 | a signature is accepted exactly when key and signature are hex and it verifies on the text; a forged one is told from broken hex |
| Payment.RequestAcceptedIff | app/lib/protocol/payment_protocol.dart:137-162 | a request is accepted exactly when in time, positive, its checksum that of its own string, and that signed; and which refusal it gets otherwise |
| Payment.ConfirmationAcceptedIff | app/lib/protocol/payment_protocol.dart:317-344 | the same of a confirmation against a request |
| Payment.CreatedRequestVerifies | app/lib/protocol/payment_protocol.dart:50-162 | a created request is accepted if and only if it has not expired and its amount is positive |
| Payment.CreatedConfirmationVerifies | app/lib/protocol/payment_protocol.dart:237-344 | a created confirmation is accepted against exactly the requests with its id, amount and currency |
| Payment.TamperedRequestRejected | app/lib/protocol/payment_protocol.dart:137-162 | a request that keeps a valid checksum but changes any signed field is rejected before the signature is looked at, or two named strings are a SHA-256 collision |
| Payment.TamperedConfirmationRejected | app/lib/protocol/payment_protocol.dart:317-344 | the same for a confirmation checked against a request |
| SignedPayments.Ed25519Complete | app/lib/protocol/crypto_utils.dart:86-101 | what the payment theorems need of signatures holds of the app's Ed25519 |
| SignedPayments.SignatureHoldsIff | app/lib/protocol/crypto_utils.dart:97-101 | what the payments take as a signature is the hex of one that points stand for in the verification equation |
| Replay.ReplayProtector.RecordRequest | app/lib/protocol/payment_protocol.dart:391-401 | refuses a seen id or nonce without changing anything, otherwise remembers both |
| Replay.ReplayProtector.RecordConfirmation | app/lib/protocol/payment_protocol.dart:403-412 | refuses a seen confirmation id, otherwise remembers it |
| Replay.RefusedIff | app/lib/protocol/payment_protocol.dart:391-401 | over every run, a request is refused if and only if an earlier processed one has its id or its nonce |
| Authorizations.CreatedCertificateVerifies | app/lib/services/offline_reserve_service.dart:87-100 | a provisioned certificate verifies |
| Authorizations.CreatedAuthorizationVerifies | app/lib/services/offline_reserve_service.dart:465-481 | an issued authorization is accepted against its request and a valid certificate if and only if it names that allowance and was signed with its key |
| Authorizations.CertificateAcceptedIff | app/lib/services/offline_reserve_service.dart:87-100 | a certificate is accepted exactly when its signature verifies on the checksum of its own string |
| Authorizations.IntegrityIff | app/lib/services/offline_reserve_service.dart:206-243 | an authorization is accepted exactly when positive, numbered from 1, hashed over its own fields, signed over that, and bound to the request given |
| Authorizations.OfflineAcceptedIff | app/lib/services/offline_reserve_service.dart:465-481 | with a certificate: if that is accepted as well and has its allowance and key |
| Authorizations.TamperedAuthorizationRejected | app/lib/services/offline_reserve_service.dart:214-217 | one that keeps another's state hash but changes any hashed field is rejected against every request and certificate, or two named strings are a SHA-256 collision |
| Authorizations.TamperedCertificate | app/lib/services/offline_reserve_service.dart:87-100 | one that keeps another's signature but changes any signed field is accepted only if that verifies on a checksum it was not made for, or two named strings collide |
| Authorizations.ChainCommits | app/lib/services/offline_reserve_service.dart:172-204 | a state hash commits to the whole history: two chains of one certificate with the same tip hold the same records, or two of their hashed strings collide |
| Reserve.SpendingChain | app/lib/services/offline_reserve_service.dart:334-445 | over every run with fresh ids: remaining is initial less issued and never negative, sequence numbers are 1 to n, each hash links to the one before, the first to the certificate checksum |
| Reserve.StepKeepsChain | app/lib/services/offline_reserve_service.dart:295-491 | every operation, restarts included, keeps memory equal to storage and both consistent with what was issued |
| Reserve.SpendIssuesIff | app/lib/services/offline_reserve_service.dart:356-396 | a spend issues an authorization if and only if the request verifies, an allowance of its currency is unexpired at its look-up and at the second check, enough remains, and the seed has 32 bytes |
| Reserve.ActiveIff | app/lib/services/offline_reserve_service.dart:356-369 | a look-up finds an allowance exactly when storage has it and one of its two looks is in time, and holds it from then on |
| Reserve.RestartedReads | app/lib/services/offline_reserve_service.dart:281-369 | the first look-up and the first read of the queue after a restart answer from storage alone |
| Reserve.ProvisionedIs | app/lib/services/offline_reserve_service.dart:295-353 | refused for amount or seed only; otherwise every field of the new allowance, its place in memory and storage, and that it is found up to the end of its validity and no later |
| Reserve.SpendAnswers | app/lib/services/offline_reserve_service.dart:379-396 | why a spend is refused, in the code's order, with balances and queues unchanged |
| Reserve.SpendLeaves | app/lib/services/offline_reserve_service.dart:432-445 | a spend that issues charges its own allowance by the amount and moves it on by one number and hash, in memory and storage, and no other |
| Reserve.IssuedIsAccepted | app/lib/services/offline_reserve_service.dart:375-481 | in every run, what a spend issues passes both verifications, the authorization if and only if the spending seed has the provisioning key |
| Reserve.StepKeepsQueueComplete | app/lib/services/offline_reserve_service.dart:483-534 | a step keeps the stored queue complete if and only if it does not write an unloaded queue over it |
| Reserve.UnreadQueueIsLost | app/lib/services/offline_reserve_service.dart:521-534 | the first spend of a new instance that has not read the queue leaves only its own authorization stored |
| Reserve.QueueRuns | app/lib/services/offline_reserve_service.dart:483-551 | over every run, queued ids are distinct issued ones and nothing removed is queued again |
| Reserve.QueueIsOutstanding | app/lib/services/offline_reserve_service.dart:483-551 | over every run that reads the queue after a restart before spending or removing, the queue is the issued and not removed authorizations in issue order |
| OverlappingSpends.RunBalance | app/lib/services/offline_reserve_service.dart:375-445 | over every interleaving of spends, the balance of an allowance object is its opening balance less all that was debited from it |
| OverlappingSpends.SpendAloneIs | app/lib/services/offline_reserve_service.dart:375-462 | a spend whose turns nothing interrupts does what the spend function does: the same authorization or none, the same memory and storage |
| OverlappingSpends.BalanceStaysIff | app/lib/services/offline_reserve_service.dart:375-445 | so it never goes below zero if and only if all the requests debited from it together fit its opening balance |
| OverlappingSpends.DebitCoveredIff | app/lib/services/offline_reserve_service.dart:388-440 | a spend that passed its check leaves the balance at zero or more if and only if it and all that others debited between its check and its debit fit the balance it was checked against |
| OverlappingSpends.OneByOneCovered | app/lib/services/offline_reserve_service.dart:388-440 | when no spend is checked while another waits between its check and its debit, no balance goes below zero in any interleaving |
| OverlappingSpends.TwoDebits | app/lib/services/offline_reserve_service.dart:388-440 | two spends that both wait for their debits overdraw their object if and only if it does not cover both |
| ForkedChains.ChainedIff | app/lib/services/offline_reserve_service.dart:356-445 | over every interleaving of look-ups, loads, checks, debits and writes: what is issued is one chain if and only if every debit is of the object debited last, or of a copy read since from storage that had it; otherwise two authorizations carry one number and one previous hash |
| ForkedChains.ApartChained | app/lib/services/offline_reserve_service.dart:356-445 | it is one chain however spends overlap otherwise, when no look-up happens while another spend loads its allowance, and one that misses memory only when no other spend is under way |
| ForkedChains.LookSafeIff | app/lib/services/offline_reserve_service.dart:356-369 | a look-up has no continuation that forks the chain if and only if it keeps to that, while the spends under way are covered |
| ForkedChains.NeverOverspent | app/lib/services/offline_reserve_service.dart:356-445 | when look-ups keep to that and spends are checked one at a time, the authorizations issued never exceed the allowance |
| ForkedChains.ForkedRestart | app/lib/services/offline_reserve_service.dart:363-367 | two spends that both look up an allowance after a restart before either has read it pay from two objects: one number, one previous hash, and a stored allowance that knows of one payment only |
| ReserveService.OfflineReserveService.ProvisionAllowance | app/lib/services/offline_reserve_service.dart:295-353 | the object's new state and outcome are those of the reserve function |
| ReserveService.OfflineReserveService.GetActiveAllowance | app/lib/services/offline_reserve_service.dart:356-369 | finds the unexpired allowance in memory, else the stored one as a fresh object now held |
| ReserveService.OfflineReserveService.SpendFromReserve | app/lib/services/offline_reserve_service.dart:375-462 | the allowance object changes in place and state and outcome are those of the reserve function |
| ReserveService.OfflineReserveService.GetPendingRedemptionQueue | app/lib/services/offline_reserve_service.dart:483-551 | returns the queue in memory, or loads and returns the stored one |
| ReserveService.OfflineReserveService.RemovePendingAuthorization | app/lib/services/offline_reserve_service.dart:488-491 | filters the queue in memory and stores it |
| Redemption.SyncCounts | app/lib/services/offline_redemption_service.dart:138-215 | each counter counts the authorizations of its own fate (expiry before payment), and they add up to the queue length if and only if no attempt was abandoned by an unmounted context |
| Redemption.SyncQueue | app/lib/services/offline_redemption_service.dart:142-212 | a sync leaves exactly the authorizations that neither settled nor expired, in order, in memory and storage, and no allowance changes |
| Redemption.SyncRecords | app/lib/services/offline_redemption_service.dart:144-211 | the record found for a handled authorization has the outcome of its own attempt, the one found for any other id is as before |
| Redemption.SyncOutcome | app/lib/services/offline_redemption_service.dart:144-211 | by its fate: settled with the hash and time of its own payment and no error, failed with the attempt's own message or the default, or expired; all else as loaded, or as the authorization says where nothing was |
| Redemption.LapsedIff | app/lib/services/offline_redemption_service.dart:160-168 | expired means more than 48 hours old; at 48 hours a payment is still tried |
| Redemption.SyncKeepsPlaces | app/lib/services/offline_redemption_service.dart:167-211 | loaded records keep their order, new ones go in front |
| Redemption.RecordedSpend | app/lib/services/offline_redemption_service.dart:103-118 | a recorded spend is found as pending with the authorization's own values, in front of all loaded records |
| Redemption.SyncCopies | app/lib/services/offline_redemption_service.dart:140-211 | a sync never repeats a record: of each id there are as many as were loaded, or one where none was and it was handled |
| Redemption.AtMostOnce | app/lib/services/offline_redemption_service.dart:123-216 | over every run of spends, restarts and syncs with fresh ids, each authorization is settled or expired at most once and then is in no queue |
| OverlappingSyncs.ApartSyncs | app/lib/services/offline_redemption_service.dart:131-216 | over every interleaving of syncs, payments, spends and writes: nothing is settled twice, when no sync takes up what another may still settle and none loads the stored queue while a write is on its way there |
| OverlappingSyncs.SyncSafeIff | app/lib/services/offline_redemption_service.dart:131-216 | a sync that starts or loads has no continuation that settles anything twice if and only if what it takes up, within its window, is neither settled nor still to be tried by another sync |
| OverlappingSyncs.SyncsOneByOne | app/lib/services/offline_redemption_service.dart:131-216 | nothing is settled twice when a sync starts and loads only after every other is through |
| OverlappingSyncs.SyncAloneIs | app/lib/services/offline_redemption_service.dart:131-216 | a sync that nothing interrupts does to the queue what the sync function does, in memory and storage, and settles the same ids |
| OverlappingSyncs.PaidTwice | app/lib/services/offline_redemption_service.dart:131-216 | from two syncs that start over one queue, whatever is queued and within its window can be settled twice |
| OverlappingSyncs.StaleQueue | app/lib/services/offline_reserve_service.dart:483-551 | a sync that finds no queue in memory and loads it before the removal of a paid authorization is stored takes that up again |
| RedemptionService.OfflineRedemptionService.SyncAndRedeemAll | app/lib/services/offline_redemption_service.dart:123-216 | the loop over a snapshot, changing record objects, counters and the queue, computes the sync function and saves the records |
| RedemptionService.OfflineRedemptionService.LoadRecords | app/lib/services/offline_redemption_service.dart:90-100 | stored records replace those in memory; nothing stored leaves them |
| RedemptionService.OfflineRedemptionService.RecordSpend | app/lib/services/offline_redemption_service.dart:103-118 | puts a pending record in front of the loaded ones and saves them |
| EndToEnd.FramesDeliver | app/lib/protocol/fountain_coder.dart:289-293 | frames seen in any order, with repeats, strays, malformed frames and other sessions' frames, deliver the payload once the first k are among them |
| EndToEnd.PaymentAccepted | app/lib/services/offline_reserve_service.dart:375-481 | a request delivered by frames and spent in any run yields a confirmation and authorization that, delivered by frames, are accepted against the merchant's request |
| Safebox.SafeboxContract.Initialize | backend/contracts/safebox/src/lib.rs:76-89 | errors in the contract's order, and the whole new state |
| Safebox.SafeboxContract.Deposit | backend/contracts/safebox/src/lib.rs:94-113 | errors in the contract's order; a trap undoes everything; otherwise funds move and one entry is written |
| Safebox.SafeboxContract.Payout | backend/contracts/safebox/src/lib.rs:119-153 | the same for a withdrawal, by the owner or an admin only |
| Safebox.SafeboxContract.AppointAdmin | backend/contracts/safebox/src/lib.rs:156-181 | errors in the contract's order, and the new admin list |
| Safebox.SafeboxContract.DismissAdmin | backend/contracts/safebox/src/lib.rs:184-201 | errors in the contract's order, and the new admin list |
| Safebox.SafeboxContract.CloseDown | backend/contracts/safebox/src/lib.rs:205-216 | owner only, and the new state |
| Safebox.RunKeepsRoles | backend/contracts/safebox/src/lib.rs:76-216 | over every run: at most three distinct admins, the owner never among them, events equal to the ledger |
| Safebox.StepKeepsRoles | backend/contracts/safebox/src/lib.rs:156-201 | every step keeps at most three distinct admins without the owner, events equal to the ledger, the ledger append-only, and closing final |
| Safebox.LedgerGrows | backend/contracts/safebox/src/lib.rs:260-289 | over every run the owner and token stay, the ledger only grows, and closing freezes it |
| Safebox.CallEffect | backend/contracts/safebox/src/lib.rs:76-289 | every call that goes through has exactly its effect: the entry, both accounts of the transfer and no third, the admin set, the closed mark |
| Safebox.ErrorIff | backend/contracts/safebox/src/lib.rs:76-216 | from every reachable state, exactly which call gets which error |
| Safebox.ClosingEnds | backend/contracts/safebox/src/lib.rs:205-216 | once a close went through, every later contribution and withdrawal is refused, for its amount or as closed, and the ledger stays |
| Safebox.AdminIff | backend/contracts/safebox/src/lib.rs:156-201 | over every run the admins are exactly those appointed and not dismissed since |
| Safebox.AppointingCounts | backend/contracts/safebox/src/lib.rs:156-181 | an appointed admin's withdrawals go through, until it is dismissed, exactly when signed, covered and granted on an open safebox |
| Safebox.DismissingCounts | backend/contracts/safebox/src/lib.rs:184-201 | a dismissed admin's are refused, as unauthorized where nothing else forbids them, until it is appointed again |
| Safebox.EntriesWarranted | backend/contracts/safebox/src/lib.rs:119-153 | every entry of every run was written by a step that warrants it; a withdrawal names a signer who was owner or admin at that step |
| Safebox.BalanceCovers | backend/contracts/safebox/src/lib.rs:94-153 | over every run the balance is the opening balance, plus contributions less withdrawals, plus what came from outside, less what the issuer clawed back; it covers contributions less withdrawals if and only if no more was clawed back than it opened with and got from outside |
| Safebox.BalanceWithoutClawbacks | backend/contracts/safebox/src/lib.rs:94-153 | without clawbacks it always covers them, with equality if and only if it opened empty and nothing came from outside |
| Amounts.AcceptedIff | app/lib/services/safebox_service.dart:39-61 | accepted as n if and only if, trimmed, it is digits with an optional fraction of one to seven digits whose value times 10^7 is n, and n is positive |
| Amounts.TrimIs | app/lib/services/safebox_service.dart:40-40 | trimming leaves the part between the white space around a text |
| Amounts.RefusedIs | app/lib/services/safebox_service.dart:39-61 | exactly which texts are refused as empty, as zero, and for their decimals |
| Amounts.StroopsRoundTrip | app/lib/services/safebox_service.dart:39-72 | printing then parsing gives every positive amount back |
| Amounts.PrintedForm | app/lib/services/safebox_service.dart:64-72 | every amount of either sign is printed without leading zeros and without zeros at the end of its fraction, for its value |
| Amounts.DecimalRoundTrip | app/lib/services/safebox_service.dart:39-72 | parsing then printing keeps the number |
| Amounts.HalvesRoundTrip | app/lib/services/safebox_service.dart:143-147 | splitting fits the two halves and joining undoes it on every signed 128-bit amount, and the other way round |
| Auth.LoginsWithinChallenges | backend/src/auth/auth.service.ts:33-99 | over every interleaving and in every stretch of it, a user's successful logins are at most the challenges issued in the stretch plus one that was pending |
| Auth.SuccessIsSigned | backend/src/auth/auth.service.ts:55-99 | every successful login carried a valid signature, under the registered key, of a challenge issued to that user |
| Auth.LoginSucceedsIff | backend/src/auth/auth.service.ts:33-99 | a login that nothing interrupts succeeds exactly when its signature of the newest challenge verifies and both looks at the clock are within five minutes, the last inside them; what it leaves of the challenge |
| Auth.RefusedWithout | backend/src/auth/auth.service.ts:55-69 | without a pending challenge every login fails, and without a registered key there is neither |

## Left out

- FountainDecoding.FountainDecoder.AddPacket: asks that an accepted packet has the session's block size, which every frame of an encoder does; with blocks of different lengths the source's reduction throws a range error in the middle of its work, and the half-changed state is not modelled.
- FountainDecoding.FountainDecoder.AddFrame: the same for a frame of the session; frames that are malformed or of other sessions may have any length.
- Sha512.ComputeDigest: does not say that the digest is the one FIPS 180-4 defines; that is false of every message that fits one block, by the two round constants named above.
- AppSha512.ShortDigestsDiffer: for messages of 112 bytes or more only `AppSha512.DigestsAgreeOnlyIf` is stated; whether two different hash values can meet again in the last block is a question about the compression function that no guard of the code decides.
- Block sizes below 1, and the fountain encoder's random session id (a parameter).
- Wire.Parse: an integer field is an optional sign and decimal digits; the surrounding white space, hexadecimal and 64-bit bound of the platform parser are not modelled.
- Hex.Parse: of white space, only blank, tab, line feed and carriage return are removed.
- Upper and lower case: ASCII letters only; currencies and hex text hold nothing else.
- Associativity of the addition law, primality of 2^255 - 19 and the order of the base point: hypotheses of the signing theorems, as listed above.
- Signing over seeds that are not 32 bytes: the app refuses them before signing; provisioning and spending model the refusal, the creation functions ask for 32 bytes.
- JSON and ISO-8601 text, clocks, random ids and the device key store: parameters, with the laws stated above.
- Two reserve service instances alive over one storage, callers that change a returned allowance object, and storage writes that fail midway.
- Reserve.SpendingChain: its runs are of calls that do not overlap; OverlappingSpends and ForkedChains split spends at every wait and give the exact conditions.
- Overlapping spends of other currencies, provisioning or a look-up without a spend in the middle of a spend, and the queue writes of overlapping spends. Storage there may answer a read before a write begun earlier, as an injected storage can; the platform's answers in order, so that it takes an earlier read to miss a write.
- Redemption.AtMostOnce: its runs are of calls that do not overlap (OverlappingSyncs is about those that do); and a payment that reached the network although its call threw counts as not settled, because the code cannot tell either.
- The destination lookup, PIN and on-device payment inside a sync: one nondeterministic attempt per authorization.
- The floating-point amount text of a payment and the decimal getter of a record.
- The twin's frame parser and session binding, negative seeds in its streams (the encoders emit none), its number type above 2^53, and its equation objects (held as values).
- The remaining token behaviour in the Safebox (trust lines, freezes, overflow): whether a transfer is granted is a parameter next to the balance check; storage expiry is not part of this model.
- Auth.LoginsWithinChallenges: counts logins and challenges; that each single message is consumed once is not claimed, since a challenge issued in the middle of a login replaces the one being signed. Refresh-token rotation is left out.
- All screens, network clients, the demo and test harnesses, and the other backend modules.

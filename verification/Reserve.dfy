/**
 The offline reserve: allowances and the queue of unsettled authorizations, in memory and in storage,
 and what holds over every run of one service instance at a time, restarts included.
 */
module Reserve {
  import opened Text
  import opened Payment
  import opened Authorizations

  /** An allowance object: its certificate and the fields that spending changes. */
  datatype Allowance = Allowance(certificate: Certificate, remaining: int, sequenceNumber: int, lastStateHash: string)

  /** What an instance holds in memory, and what storage holds. Allowances are keyed by upper-case currency. */
  datatype State = State(
    held: map<string, Allowance>, queue: seq<Authorization>,
    saved: map<string, Allowance>, savedQueue: Option<seq<Authorization>>)

  datatype Refusal = BadAmount | BadSeed | BadRequest(check: Check) | NoAllowance | AllowanceExpired | Insufficient

  datatype Spent = Issued(authorization: Authorization, confirmation: PaymentConfirmation) | Refused(refusal: Refusal)

  datatype Provisioned = NewAllowance(allowance: Allowance) | NotProvisioned(refusal: Refusal)

  /** The readings of the clock during one spend. */
  datatype Clock = Clock(verified: int, held: int, saved: int, checked: int, stamped: int)

  // ----- operations -------------------------------------------------------------------------------------

  predicate IsExpired(a: Allowance, now: int) { now > a.certificate.expiresAt }

  function Provision(s: Setting, st: State, allowanceId: string, appUserId: string, stellarPublicKey: string,
                     amount: int, currency: string, validity: int, now: int, seed: seq<bv8>): (State, Provisioned)
  {
    if amount <= 0 then (st, NotProvisioned(BadAmount))
    else if |seed| != 32 then (st, NotProvisioned(BadSeed))
    else
      var c := CreateCertificate(s, allowanceId, appUserId, stellarPublicKey, amount, currency, now, now + validity,
                                 seed);
      var a := Allowance(c, amount, 0, CertificateChecksum(s, c));
      var cur := Upper(currency);
      (st.(held := st.held[cur := a], saved := st.saved[Upper(c.currency) := a]), NewAllowance(a))
  }

  /** The allowance in memory if it has not expired, else the one in storage if that has not. */
  function GetActive(st: State, currency: string, now: int, later: int): (State, Option<Allowance>) {
    var cur := Upper(currency);
    if cur in st.held && !IsExpired(st.held[cur], now) then (st, Some(st.held[cur]))
    else if Upper(cur) in st.saved && !IsExpired(st.saved[Upper(cur)], later) then
      (st.(held := st.held[cur := st.saved[Upper(cur)]]), Some(st.saved[Upper(cur)]))
    else (st, None)
  }

  function Spend(s: Setting, st: State, r: PaymentRequest, seed: seq<bv8>, clock: Clock, authorizationId: string,
                 confirmationId: string): (State, Spent)
  {
    var check := VerifyRequest(s, r, clock.verified);
    if check != Accepted then (st, Refused(BadRequest(check))) else
      var (st1, active) := GetActive(st, r.currency, clock.held, clock.saved);
      match active
      case None => (st1, Refused(NoAllowance))
      case Some(a) =>
        if IsExpired(a, clock.checked) then (st1, Refused(AllowanceExpired))
        else if a.remaining < r.amountMinorUnits then (st1, Refused(Insufficient))
        else if |seed| != 32 then (st1, Refused(BadSeed))
        else
          var auth := CreateAuthorization(s, authorizationId, a.certificate.allowanceId, r, a.sequenceNumber + 1,
                                          a.lastStateHash, clock.stamped, seed);
          var conf := CreateConfirmation(s, confirmationId, r.requestId, a.certificate.stellarPublicKey,
                                         r.amountMinorUnits, Upper(r.currency), "RESERVE_PENDING",
                                         Some(authorizationId), clock.stamped, seed);
          (Commit(st1, Upper(r.currency), a, auth), Issued(auth, conf))
  }

  /** The allowance object changes, and it and the in-memory queue are saved. */
  function Commit(st: State, cur: string, a: Allowance, auth: Authorization): State {
    State(st.held[cur := Charged(a, auth)], st.queue + [auth],
          st.saved[Upper(a.certificate.currency) := Charged(a, auth)], Some(st.queue + [auth]))
  }

  function Charged(a: Allowance, auth: Authorization): Allowance {
    a.(remaining := a.remaining - auth.amountMinorUnits, sequenceNumber := auth.sequenceNumber,
       lastStateHash := auth.stateHash)
  }

  function GetQueue(st: State): (State, seq<Authorization>) {
    if st.queue != [] then (st, st.queue)
    else match st.savedQueue
      case None => (st, [])
      case Some(q) => (st.(queue := q), q)
  }

  function Without(q: seq<Authorization>, id: string): seq<Authorization> {
    if q == [] then []
    else
      var rest := Without(q[..|q| - 1], id);
      if q[|q| - 1].authorizationId == id then rest else rest + [q[|q| - 1]]
  }

  function Remove(st: State, id: string): State {
    st.(queue := Without(st.queue, id), savedQueue := Some(Without(st.queue, id)))
  }

  /** A new instance over the same storage. */
  function Restart(st: State): State {
    st.(held := map[], queue := [])
  }

  function Start(): State { State(map[], [], map[], None) }

  function SavedQueue(st: State): seq<Authorization> {
    match st.savedQueue case None => [] case Some(q) => q
  }

  // ----- runs ---------------------------------------------------------------------------------------------

  datatype Action =
    | DoProvision(allowanceId: string, appUserId: string, stellarPublicKey: string, amount: int, currency: string,
                  validity: int, now: int, seed: seq<bv8>)
    | DoGetActive(currency: string, now: int, later: int)
    | DoSpend(request: PaymentRequest, seed: seq<bv8>, clock: Clock, authorizationId: string, confirmationId: string)
    | DoGetQueue
    | DoRemove(authorizationId: string)
    | DoRestart

  /**
   A state with its history: all certificates with the seeds they were signed with, all authorizations,
   all removed ids.
   */
  datatype World = World(st: State, certificates: map<string, Certificate>, owners: map<string, seq<bv8>>,
                         issued: seq<Authorization>, removed: set<string>)

  function Step(s: Setting, w: World, a: Action): World {
    match a
    case DoProvision(id, user, key, amount, currency, validity, now, seed) =>
      (match Provision(s, w.st, id, user, key, amount, currency, validity, now, seed)
       case (st, NewAllowance(alw)) =>
         w.(st := st, certificates := w.certificates[id := alw.certificate], owners := w.owners[id := seed])
       case (st, NotProvisioned(_)) => w.(st := st))
    case DoGetActive(currency, now, later) => w.(st := GetActive(w.st, currency, now, later).0)
    case DoSpend(r, seed, clock, authId, confId) =>
      (match Spend(s, w.st, r, seed, clock, authId, confId)
       case (st, Issued(auth, _)) => w.(st := st, issued := w.issued + [auth])
       case (st, Refused(_)) => w.(st := st))
    case DoGetQueue => w.(st := GetQueue(w.st).0)
    case DoRemove(id) => w.(st := Remove(w.st, id), removed := w.removed + {id})
    case DoRestart => w.(st := Restart(w.st))
  }

  ghost predicate IsIssued(w: World, id: string) {
    exists i :: 0 <= i < |w.issued| && w.issued[i].authorizationId == id
  }

  /** Random ids do not repeat. */
  ghost predicate Fresh(w: World, a: Action) {
    match a
    case DoProvision(id, _, _, _, _, _, _, _) => id !in w.certificates
    case DoSpend(_, _, _, id, _) => !IsIssued(w, id) && id !in w.removed
    case _ => true
  }

  ghost function Run(s: Setting, actions: seq<Action>): World {
    if actions == [] then World(Start(), map[], map[], [], {})
    else Step(s, Run(s, actions[..|actions| - 1]), actions[|actions| - 1])
  }

  ghost predicate AllFresh(s: Setting, actions: seq<Action>) {
    forall i :: 0 <= i < |actions| ==> Fresh(Run(s, actions[..i]), actions[i])
  }

  // ----- the spending chain ---------------------------------------------------------------------------------

  /** An allowance agrees with what was issued against it. */
  ghost predicate Consistent(s: Setting, w: World, a: Allowance) {
    var c := a.certificate;
    var chain := Of(w.issued, c.allowanceId);
    && c.allowanceId in w.certificates && w.certificates[c.allowanceId] == c
    && a.remaining == c.initialAmountMinorUnits - Total(chain) && a.remaining >= 0
    && a.sequenceNumber == |chain|
    && a.lastStateHash == Tip(s, c, chain)
  }

  /** Every chain ever issued is linked from its certificate and stays within its amount. */
  ghost predicate Accounted(s: Setting, w: World) {
    && (forall id :: id in w.certificates ==>
          var c, chain := w.certificates[id], Of(w.issued, id);
          c.allowanceId == id && Chained(s, c, chain) && Total(chain) <= c.initialAmountMinorUnits)
    && forall i :: 0 <= i < |w.issued| ==> w.issued[i].allowanceId in w.certificates
  }

  ghost predicate Mirrored(st: State) {
    forall cur :: cur in st.held ==> cur in st.saved && st.held[cur] == st.saved[cur]
  }

  ghost predicate AllConsistent(s: Setting, w: World) {
    forall cur :: cur in w.st.saved
      ==> Upper(w.st.saved[cur].certificate.currency) == cur && Consistent(s, w, w.st.saved[cur])
  }

  ghost predicate ChainInvariant(s: Setting, w: World) {
    Mirrored(w.st) && AllConsistent(s, w) && Accounted(s, w)
  }

  lemma {:induction false} OfEmpty(issued: seq<Authorization>, id: string)
    requires forall i :: 0 <= i < |issued| ==> issued[i].allowanceId != id
    ensures Of(issued, id) == []
  {
    if issued != [] { OfEmpty(issued[..|issued| - 1], id); }
  }

  lemma ProvisionKeepsChain(s: Setting, w: World, a: Action)
    requires ChainInvariant(s, w) && Fresh(w, a) && a.DoProvision?
    ensures ChainInvariant(s, Step(s, w, a))
  {
    hide ChainInvariant, Upper, PublicKeyText, SignText, ChecksumOf, CertificateChecksum, Of;
    if a.amount > 0 && |a.seed| == 32 {
      var c := CreateCertificate(s, a.allowanceId, a.appUserId, a.stellarPublicKey, a.amount, a.currency, a.now,
                                 a.now + a.validity, a.seed);
      UpperTwice(a.currency);
      UnusedId(s, w, a.allowanceId);
      NewCertificate(s, w, c, Allowance(c, a.amount, 0, CertificateChecksum(s, c)), a.seed);
    }
  }

  lemma UnusedId(s: Setting, w: World, id: string)
    requires ChainInvariant(s, w) && id !in w.certificates
    ensures Of(w.issued, id) == []
  {
    hide Mirrored, AllConsistent, Chained, Of;
    OfEmpty(w.issued, id);
  }

  lemma NewCertificate(s: Setting, w: World, c: Certificate, a: Allowance, owner: seq<bv8>)
    requires ChainInvariant(s, w) && c.allowanceId !in w.certificates && Of(w.issued, c.allowanceId) == []
    requires a == Allowance(c, c.initialAmountMinorUnits, 0, CertificateChecksum(s, c)) && c.initialAmountMinorUnits > 0
    requires Upper(c.currency) == c.currency
    ensures ChainInvariant(s, World(w.st.(held := w.st.held[c.currency := a], saved := w.st.saved[c.currency := a]),
                                    w.certificates[c.allowanceId := c], w.owners[c.allowanceId := owner], w.issued,
                                    w.removed))
  {
    hide CertificateChecksum, Upper, Of, Chained, Tip, Total, AllConsistent, Accounted;
    var w' := World(w.st.(held := w.st.held[c.currency := a], saved := w.st.saved[c.currency := a]),
                    w.certificates[c.allowanceId := c], w.owners[c.allowanceId := owner], w.issued, w.removed);
    NewConsistent(s, w, w', c, a);
    NewAccounted(s, w, w', c);
  }

  lemma NewConsistent(s: Setting, w: World, w': World, c: Certificate, a: Allowance)
    requires AllConsistent(s, w) && c.allowanceId !in w.certificates && Of(w.issued, c.allowanceId) == []
    requires a == Allowance(c, c.initialAmountMinorUnits, 0, CertificateChecksum(s, c)) && c.initialAmountMinorUnits > 0
    requires Upper(c.currency) == c.currency && w'.issued == w.issued
    requires w'.st.saved == w.st.saved[c.currency := a] && w'.certificates == w.certificates[c.allowanceId := c]
    ensures AllConsistent(s, w')
  {
    hide CertificateChecksum, Upper, Of, Tip, Total;
    EmptyChain(s, c);
    forall cur | cur in w'.st.saved
      ensures Upper(w'.st.saved[cur].certificate.currency) == cur && Consistent(s, w', w'.st.saved[cur])
    {
      if cur != c.currency { assert Consistent(s, w, w.st.saved[cur]); }
    }
  }

  lemma NewAccounted(s: Setting, w: World, w': World, c: Certificate)
    requires Accounted(s, w) && c.allowanceId !in w.certificates && Of(w.issued, c.allowanceId) == []
    requires c.initialAmountMinorUnits > 0 && w'.issued == w.issued
         && w'.certificates == w.certificates[c.allowanceId := c]
    ensures Accounted(s, w')
  {
    hide Of, Chained, Total, Tip, CertificateChecksum;
    EmptyChain(s, c);
  }

  lemma EmptyChain(s: Setting, c: Certificate)
    ensures Chained(s, c, []) && Total([]) == 0 && Tip(s, c, []) == CertificateChecksum(s, c)
  {}

  /** Looking up an allowance changes memory only, to what storage has, and finds what storage has. */
  lemma ActiveIsSaved(st: State, currency: string, now: int, later: int)
    requires Mirrored(st)
    ensures var (st', active) := GetActive(st, currency, now, later);
            && Mirrored(st') && st'.saved == st.saved && st'.queue == st.queue && st'.savedQueue == st.savedQueue
            && (active.Some? ==> Upper(currency) in st.saved && active.value == st.saved[Upper(currency)])
  {
    UpperTwice(currency);
    hide Upper;
  }

  lemma OfIssued(issued: seq<Authorization>, auth: Authorization)
    ensures forall id ::
      Of(issued + [auth], id) == if auth.allowanceId == id then Of(issued, id) + [auth] else Of(issued, id)
  {
    forall id
      ensures Of(issued + [auth], id) == if auth.allowanceId == id then Of(issued, id) + [auth] else Of(issued, id)
    {
      OfAppend(issued, auth, id);
    }
  }

  lemma TipAppend(s: Setting, c: Certificate, chain: seq<Authorization>, a: Authorization)
    ensures Tip(s, c, chain + [a]) == a.stateHash
  {}

  lemma CommitAccounted(s: Setting, w: World, st: State, cur: string, a: Allowance, auth: Authorization)
    requires ChainInvariant(s, w) && Mirrored(st) && st.saved == w.st.saved && cur in st.saved && a == st.saved[cur]
    requires auth.allowanceId == a.certificate.allowanceId && auth.currency == cur
    requires auth.sequenceNumber == a.sequenceNumber + 1 && auth.previousAuthHash == a.lastStateHash
    requires 0 < auth.amountMinorUnits <= a.remaining && auth.stateHash == ChecksumOf(s, StateBody(auth))
    ensures Accounted(s, w.(st := Commit(st, cur, a, auth), issued := w.issued + [auth]))
  {
    hide CertificateChecksum, Upper, Chained, ChecksumOf, StateBody, Tip, Mirrored, Commit, Of, Total, AllConsistent;
    var c := a.certificate;
    var chain := Of(w.issued, c.allowanceId);
    SavedConsistent(s, w, cur);
    ChainedAppend(s, c, chain, auth);
    TotalAppend(chain, auth);
    OfIssued(w.issued, auth);
    var w' := w.(st := Commit(st, cur, a, auth), issued := w.issued + [auth]);
    forall id | id in w'.certificates
      ensures var c, chain := w'.certificates[id], Of(w'.issued, id);
              c.allowanceId == id && Chained(s, c, chain) && Total(chain) <= c.initialAmountMinorUnits
    {
      assert w.certificates[id].allowanceId == id;
    }
  }

  lemma SavedConsistent(s: Setting, w: World, cur: string)
    requires ChainInvariant(s, w) && cur in w.st.saved
    ensures Consistent(s, w, w.st.saved[cur]) && Upper(w.st.saved[cur].certificate.currency) == cur
  {
    hide Upper, Of, Tip, Total, Chained;
  }

  lemma StillConsistent(s: Setting, w: World, w': World, a: Allowance)
    requires Consistent(s, w, a) && w'.certificates == w.certificates
    requires Of(w'.issued, a.certificate.allowanceId) == Of(w.issued, a.certificate.allowanceId)
    ensures Consistent(s, w', a)
  {
    hide Of, Total, Tip;
  }

  lemma NowConsistent(s: Setting, w: World, w': World, a: Allowance, auth: Authorization)
    requires Consistent(s, w, a) && w'.certificates == w.certificates
    requires Of(w'.issued, a.certificate.allowanceId) == Of(w.issued, a.certificate.allowanceId) + [auth]
    requires auth.sequenceNumber == a.sequenceNumber + 1 && 0 < auth.amountMinorUnits <= a.remaining
    ensures Consistent(s, w', Charged(a, auth))
  {
    hide Of, Total, Tip;
    var chain := Of(w.issued, a.certificate.allowanceId);
    TotalAppend(chain, auth);
    TipAppend(s, a.certificate, chain, auth);
  }

  lemma SameAllowance(s: Setting, w: World, cur: string, other: string)
    requires AllConsistent(s, w) && cur in w.st.saved && other in w.st.saved
    requires w.st.saved[cur].certificate.allowanceId == w.st.saved[other].certificate.allowanceId
    ensures cur == other
  {
    hide Of, Total, Tip, Upper;
    assert Consistent(s, w, w.st.saved[cur]) && Consistent(s, w, w.st.saved[other]);
  }

  lemma CommitConsistent(s: Setting, w: World, st: State, cur: string, a: Allowance, auth: Authorization)
    requires ChainInvariant(s, w) && Mirrored(st) && st.saved == w.st.saved && cur in st.saved && a == st.saved[cur]
    requires auth.allowanceId == a.certificate.allowanceId && auth.currency == cur
    requires auth.sequenceNumber == a.sequenceNumber + 1 && auth.previousAuthHash == a.lastStateHash
    requires 0 < auth.amountMinorUnits <= a.remaining && auth.stateHash == ChecksumOf(s, StateBody(auth))
    ensures AllConsistent(s, w.(st := Commit(st, cur, a, auth), issued := w.issued + [auth]))
  {
    hide CertificateChecksum, Upper, Accounted, ChecksumOf, StateBody, Mirrored, Tip, Of, Total, Consistent;
    assert Consistent(s, w, a);
    OfIssued(w.issued, auth);
    var w' := w.(st := Commit(st, cur, a, auth), issued := w.issued + [auth]);
    NowConsistent(s, w, w', a, auth);
    forall other | other in w'.st.saved
      ensures Upper(w'.st.saved[other].certificate.currency) == other && Consistent(s, w', w'.st.saved[other])
    {
      if other != cur {
        if w.st.saved[other].certificate.allowanceId == auth.allowanceId { SameAllowance(s, w, cur, other); }
        StillConsistent(s, w, w', w.st.saved[other]);
      }
    }
  }

  lemma CommitKeepsChain(s: Setting, w: World, st: State, cur: string, a: Allowance, auth: Authorization)
    requires ChainInvariant(s, w) && Mirrored(st) && st.saved == w.st.saved && cur in st.saved && a == st.saved[cur]
    requires auth.allowanceId == a.certificate.allowanceId && auth.currency == cur
    requires auth.sequenceNumber == a.sequenceNumber + 1 && auth.previousAuthHash == a.lastStateHash
    requires 0 < auth.amountMinorUnits <= a.remaining && auth.stateHash == ChecksumOf(s, StateBody(auth))
    ensures ChainInvariant(s, w.(st := Commit(st, cur, a, auth), issued := w.issued + [auth]))
  {
    hide AllConsistent, Accounted, StateBody, ChecksumOf, Upper;
    CommitAccounted(s, w, st, cur, a, auth);
    CommitConsistent(s, w, st, cur, a, auth);
    SavedUnderOwnCurrency(s, w, cur);
  }

  lemma SavedUnderOwnCurrency(s: Setting, w: World, cur: string)
    requires ChainInvariant(s, w) && cur in w.st.saved
    ensures Upper(w.st.saved[cur].certificate.currency) == cur
  {}

  lemma SpendKeepsChain(s: Setting, w: World, a: Action)
    requires ChainInvariant(s, w) && a.DoSpend?
    ensures ChainInvariant(s, Step(s, w, a))
  {
    hide ChainInvariant, CreateAuthorization, CreateConfirmation, CheckSignature, Commit, GetActive, Upper,
         ChecksumMatches, ChecksumOf, StateBody, RequestBody;
    var (st', outcome) := Spend(s, w.st, a.request, a.seed, a.clock, a.authorizationId, a.confirmationId);
    ChainMirrored(s, w);
    var (st1, active) := GetActive(w.st, a.request.currency, a.clock.held, a.clock.saved);
    ActiveIsSaved(w.st, a.request.currency, a.clock.held, a.clock.saved);
    if outcome.Issued? {
      var alw := active.value;
      CreatedFields(s, a.authorizationId, alw.certificate.allowanceId, a.request, alw.sequenceNumber + 1,
                    alw.lastStateHash, a.clock.stamped, a.seed);
      CommitKeepsChain(s, w, st1, Upper(a.request.currency), alw, outcome.authorization);
    } else {
      MemoryKeepsChain(s, w, st');
    }
  }

  lemma ChainMirrored(s: Setting, w: World)
    requires ChainInvariant(s, w)
    ensures Mirrored(w.st)
  {}

  lemma MemoryKeepsChain(s: Setting, w: World, st: State)
    requires ChainInvariant(s, w) && Mirrored(st) && st.saved == w.st.saved
    ensures ChainInvariant(s, w.(st := st))
  {
    hide Of, Chained, Tip, Total, Upper, Mirrored;
    forall cur | cur in st.saved ensures Consistent(s, w.(st := st), st.saved[cur]) {
      assert Consistent(s, w, w.st.saved[cur]);
    }
  }

  lemma CreatedFields(s: Setting, authorizationId: string, allowanceId: string, r: PaymentRequest, number: int,
                      previous: string, now: int, seed: seq<bv8>)
    requires |seed| == 32
    ensures var a := CreateAuthorization(s, authorizationId, allowanceId, r, number, previous, now, seed);
            && a.authorizationId == authorizationId && a.allowanceId == allowanceId && a.currency == Upper(r.currency)
            && a.amountMinorUnits == r.amountMinorUnits && a.sequenceNumber == number && a.previousAuthHash == previous
            && a.stateHash == ChecksumOf(s, StateBody(a))
  {
    hide Upper, ChecksumOf, SignText, PublicKeyText, StateBody;
    CreatedHash(s, authorizationId, allowanceId, r, number, previous, now, seed);
  }

  lemma QueueLeavesAllowances(st: State)
    requires Mirrored(st)
    ensures Mirrored(GetQueue(st).0) && GetQueue(st).0.saved == st.saved
    ensures Mirrored(Restart(st)) && Restart(st).saved == st.saved
  {}

  lemma StepKeepsChain(s: Setting, w: World, a: Action)
    requires ChainInvariant(s, w) && Fresh(w, a)
    ensures ChainInvariant(s, Step(s, w, a))
  {
    hide ChainInvariant, Fresh, Mirrored, Provision, Spend, GetActive, GetQueue, Remove, Restart;
    ChainMirrored(s, w);
    match a
    case DoProvision(_, _, _, _, _, _, _, _) => ProvisionKeepsChain(s, w, a);
    case DoSpend(_, _, _, _, _) => SpendKeepsChain(s, w, a);
    case DoGetActive(currency, now, later) =>
      ActiveIsSaved(w.st, currency, now, later);
      MemoryKeepsChain(s, w, GetActive(w.st, currency, now, later).0);
    case DoGetQueue =>
      QueueLeavesAllowances(w.st);
      MemoryKeepsChain(s, w, GetQueue(w.st).0);
    case DoRemove(id) => RemoveKeepsChain(s, w, id);
    case DoRestart =>
      QueueLeavesAllowances(w.st);
      MemoryKeepsChain(s, w, Restart(w.st));
  }

  lemma RemoveKeepsChain(s: Setting, w: World, id: string)
    requires ChainInvariant(s, w)
    ensures ChainInvariant(s, w.(st := Remove(w.st, id), removed := w.removed + {id}))
  {
    hide Of, Chained, Tip, Total, Upper, Without;
    var w' := w.(st := Remove(w.st, id), removed := w.removed + {id});
    forall cur | cur in w'.st.saved ensures Consistent(s, w', w'.st.saved[cur]) {
      assert Consistent(s, w, w.st.saved[cur]);
    }
  }

  /**
   Over every run with fresh ids: each allowance in memory or storage has exactly its initial amount
   less what was issued against it, never below zero, and points at the end of its chain; and every
   chain ever issued is numbered from 1 and linked back to its certificate.
   */
  lemma {:induction false} SpendingChain(s: Setting, actions: seq<Action>)
    requires AllFresh(s, actions)
    ensures ChainInvariant(s, Run(s, actions))
  {
    if actions != [] {
      var n := |actions| - 1;
      FreshPrefix(s, actions);
      hide ChainInvariant, Step, Fresh;
      SpendingChain(s, actions[..n]);
      StepKeepsChain(s, Run(s, actions[..n]), actions[n]);
    }
  }

  // ----- acceptance -------------------------------------------------------------------------------------------

  /** Every certificate ever made verifies, under the key of the seed that provisioned it. */
  ghost predicate Certified(s: Setting, w: World) {
    forall id :: id in w.certificates ==>
      && id in w.owners
      && w.certificates[id].devicePublicKey == PublicKeyText(s, w.owners[id])
      && VerifyCertificate(s, w.certificates[id]) == Accepted
  }

  lemma StepKeepsCertified(s: Setting, w: World, a: Action)
    requires Complete(s) && Certified(s, w)
    ensures Certified(s, Step(s, w, a))
  {
    hide Upper, PublicKeyText, SignText, ChecksumOf, CertificateChecksum, VerifyCertificate, Spend;
    if a.DoProvision? && a.amount > 0 && |a.seed| == 32 {
      CreatedCertificateVerifies(s, a.allowanceId, a.appUserId, a.stellarPublicKey, a.amount, a.currency, a.now,
                                 a.now + a.validity, a.seed);
    }
  }

  lemma {:induction false} CertifiedRuns(s: Setting, actions: seq<Action>)
    requires Complete(s)
    ensures Certified(s, Run(s, actions))
  {
    if actions != [] {
      hide Step;
      CertifiedRuns(s, actions[..|actions| - 1]);
      StepKeepsCertified(s, Run(s, actions[..|actions| - 1]), actions[|actions| - 1]);
    }
  }

  /** What a spend that issues something read and produced. */
  lemma SpendShape(s: Setting, st: State, r: PaymentRequest, seed: seq<bv8>, clock: Clock, authId: string,
                   confId: string)
    requires Mirrored(st) && Spend(s, st, r, seed, clock, authId, confId).1.Issued?
    ensures |seed| == 32 && r.amountMinorUnits > 0 && Upper(r.currency) in st.saved
    ensures var (_, outcome) := Spend(s, st, r, seed, clock, authId, confId);
            var a := st.saved[Upper(r.currency)];
            && outcome.authorization == CreateAuthorization(s, authId, a.certificate.allowanceId, r,
                                                            a.sequenceNumber + 1, a.lastStateHash, clock.stamped, seed)
            && outcome.confirmation == CreateConfirmation(s, confId, r.requestId, a.certificate.stellarPublicKey,
                                         r.amountMinorUnits, Upper(r.currency), "RESERVE_PENDING", Some(authId),
                                         clock.stamped, seed)
  {
    hide Upper, SignText, PublicKeyText, ChecksumOf, CheckSignature, ChecksumMatches, GetActive, Commit,
         CreateConfirmation, CreateAuthorization;
    var (st1, active) := GetActive(st, r.currency, clock.held, clock.saved);
    ActiveIsSaved(st, r.currency, clock.held, clock.saved);
  }

  /**
   When a spend goes through: the request verifies, storage has an allowance in its currency that had not
   expired when it was looked up in memory or in storage, nor when it was checked again, enough remains, and
   the seed has 32 bytes.
   */
  lemma SpendIssuesIff(s: Setting, st: State, r: PaymentRequest, seed: seq<bv8>, clock: Clock, authId: string,
                       confId: string)
    requires Mirrored(st)
    ensures Spend(s, st, r, seed, clock, authId, confId).1.Issued? <==>
            var cur := Upper(r.currency);
            && VerifyRequest(s, r, clock.verified) == Accepted
            && cur in st.saved
            && var expiry := st.saved[cur].certificate.expiresAt;
            && ((cur in st.held && clock.held <= expiry) || clock.saved <= expiry) && clock.checked <= expiry
            && r.amountMinorUnits <= st.saved[cur].remaining
            && |seed| == 32
  {
    hide Upper, VerifyRequest, Commit, CreateConfirmation, CreateAuthorization;
    UpperTwice(r.currency);
  }

  /**
   Acceptance: in every run, what a spend issues is accepted. The confirmation passes against the
   request, and the authorization passes against the request and the allowance's certificate exactly
   when the seed that spends has the key of the seed that provisioned.
   */
  lemma IssuedIsAccepted(s: Setting, actions: seq<Action>, r: PaymentRequest, seed: seq<bv8>, clock: Clock,
                         authId: string, confId: string)
    requires Complete(s) && AllFresh(s, actions)
    requires Spend(s, Run(s, actions).st, r, seed, clock, authId, confId).1.Issued?
    ensures var w := Run(s, actions);
            var Issued(auth, conf) := Spend(s, w.st, r, seed, clock, authId, confId).1;
            && auth.allowanceId in w.certificates && auth.allowanceId in w.owners
            && VerifyAgainstRequest(s, conf, r) == Accepted
            && VerifyIntegrity(s, auth, Some(r)) == Accepted
            && (VerifyOfflineAuthorization(s, auth, Some(r), Some(w.certificates[auth.allowanceId])) == Accepted
                <==> PublicKeyText(s, seed) == PublicKeyText(s, w.owners[auth.allowanceId]))
  {
    hide Complete, Run, AllFresh, Spend, Upper, Chained, Tip, Total, Of, CreateAuthorization, CreateConfirmation,
         PublicKeyText, VerifyIntegrity, VerifyCertificate, VerifyOfflineAuthorization, VerifyAgainstRequest;
    var w := Run(s, actions);
    SpendingChain(s, actions);
    CertifiedRuns(s, actions);
    SpendShape(s, w.st, r, seed, clock, authId, confId);
    var cur := Upper(r.currency);
    assert Consistent(s, w, w.st.saved[cur]);
    var c, number := w.st.saved[cur].certificate, w.st.saved[cur].sequenceNumber + 1;
    var tip := w.st.saved[cur].lastStateHash;
    CreatedAuthorizationVerifies(s, authId, c.allowanceId, r, number, tip, clock.stamped, seed, c,
                                 w.owners[c.allowanceId]);
    CreatedFields(s, authId, c.allowanceId, r, number, tip, clock.stamped, seed);
    CreatedConfirmationVerifies(s, confId, r.requestId, c.stellarPublicKey, r.amountMinorUnits, cur, "RESERVE_PENDING",
                                Some(authId), clock.stamped, seed, r);
    UpperTwice(r.currency);
  }

  // ----- what each call answers and leaves ------------------------------------------------------------------

  /** An allowance is found when storage has it and one of the two looks finds it in time. */
  predicate Findable(st: State, cur: string, now: int, later: int) {
    && cur in st.saved
    && ((cur in st.held && now <= st.saved[cur].certificate.expiresAt) || later <= st.saved[cur].certificate.expiresAt)
  }

  /** A look-up finds what storage holds, and holds it from then on; nothing else changes. */
  lemma ActiveIff(st: State, currency: string, now: int, later: int)
    requires Mirrored(st)
    ensures var (st', found) := GetActive(st, currency, now, later);
            var cur := Upper(currency);
            && (found.Some? <==> Findable(st, cur, now, later))
            && (found.Some? ==> found.value == st.saved[cur] && st' == st.(held := st.held[cur := st.saved[cur]]))
            && (found.None? ==> st' == st)
  {
    hide Upper;
    UpperTwice(currency);
    var cur := Upper(currency);
    if cur in st.held { assert st.held[cur := st.held[cur]] == st.held; }
  }

  /** A new instance holds nothing: its first look-up and its first read of the queue answer from storage alone. */
  lemma RestartedReads(st: State, currency: string, now: int, later: int)
    ensures var cur := Upper(currency);
            GetActive(Restart(st), currency, now, later).1
            == if cur in st.saved && later <= st.saved[cur].certificate.expiresAt then Some(st.saved[cur]) else None
    ensures GetQueue(Restart(st)).1 == SavedQueue(st) && GetQueue(Restart(st)).0.saved == st.saved
  {
    hide Upper;
    UpperTwice(currency);
  }

  /**
   Provisioning: refused exactly for an amount that is not positive or a seed that is not 32 bytes. The new allowance
   holds its whole amount, starts its chain at the checksum of its certificate, takes the place of any other in its
   currency in memory and storage, and is found up to and at the end of its validity.
   */
  lemma ProvisionedIs(s: Setting, st: State, allowanceId: string, appUserId: string, stellarPublicKey: string,
                      amount: int, currency: string, validity: int, now: int, seed: seq<bv8>, t: int)
    ensures var (st', p) := Provision(s, st, allowanceId, appUserId, stellarPublicKey, amount, currency, validity, now,
                                      seed);
            var cur := Upper(currency);
            && (p.NewAllowance? <==> amount > 0 && |seed| == 32)
            && (p.NotProvisioned? ==> st' == st && p.refusal == if amount <= 0 then BadAmount else BadSeed)
            && (p.NewAllowance? ==>
                  var a, c := p.allowance, p.allowance.certificate;
                  && c.allowanceId == allowanceId && c.appUserId == appUserId && c.stellarPublicKey == stellarPublicKey
                  && c.initialAmountMinorUnits == amount && c.currency == cur && c.createdAt == now
                  && c.expiresAt == now + validity && c.devicePublicKey == PublicKeyText(s, seed)
                  && a.remaining == amount && a.sequenceNumber == 0 && a.lastStateHash == Tip(s, c, [])
                  && st' == st.(held := st.held[cur := a], saved := st.saved[cur := a])
                  && GetActive(st', currency, t, t).1 == if t <= now + validity then Some(a) else None)
  {
    hide Upper, PublicKeyText, SignText, ChecksumOf, CertificateChecksum;
    UpperTwice(currency);
  }

  /** Why a spend is refused, each reason only where none before it holds; a refusal changes no balance and no queue. */
  lemma SpendAnswers(s: Setting, st: State, r: PaymentRequest, seed: seq<bv8>, clock: Clock, authId: string,
                     confId: string)
    requires Mirrored(st)
    ensures var (st', o) := Spend(s, st, r, seed, clock, authId, confId);
            var check, cur := VerifyRequest(s, r, clock.verified), Upper(r.currency);
            var found := Findable(st, cur, clock.held, clock.saved);
            && (o.Refused? ==> st'.saved == st.saved && st'.queue == st.queue && st'.savedQueue == st.savedQueue)
            && if check != Accepted then o == Refused(BadRequest(check))
               else if !found then o == Refused(NoAllowance)
               else if clock.checked > st.saved[cur].certificate.expiresAt then o == Refused(AllowanceExpired)
               else if st.saved[cur].remaining < r.amountMinorUnits then o == Refused(Insufficient)
               else if |seed| != 32 then o == Refused(BadSeed)
               else o.Issued?
  {
    hide Upper, VerifyRequest, Commit, CreateConfirmation, CreateAuthorization, GetActive, Findable;
    var (st1, active) := GetActive(st, r.currency, clock.held, clock.saved);
    ActiveIff(st, r.currency, clock.held, clock.saved);
  }

  /** What a spend that issues leaves: its allowance charged and moved on by one, in memory and storage; no other. */
  lemma SpendLeaves(s: Setting, st: State, r: PaymentRequest, seed: seq<bv8>, clock: Clock, authId: string,
                    confId: string)
    requires Mirrored(st) && Spend(s, st, r, seed, clock, authId, confId).1.Issued?
    requires Upper(r.currency) in st.saved
         ==> Upper(st.saved[Upper(r.currency)].certificate.currency) == Upper(r.currency)
    ensures var (st', o) := Spend(s, st, r, seed, clock, authId, confId);
            var cur := Upper(r.currency);
            && cur in st.saved && cur in st'.saved && cur in st'.held && st'.held[cur] == st'.saved[cur]
            && st'.saved == st.saved[cur := st'.saved[cur]] && st'.held == st.held[cur := st'.saved[cur]]
            && st'.saved[cur].certificate == st.saved[cur].certificate
            && st'.saved[cur].remaining == st.saved[cur].remaining - r.amountMinorUnits
            && st'.saved[cur].sequenceNumber == st.saved[cur].sequenceNumber + 1
            && st'.saved[cur].lastStateHash == o.authorization.stateHash
  {
    hide Upper, VerifyRequest, SignText, PublicKeyText, ChecksumOf, CreateConfirmation, GetActive;
    var (st1, active) := GetActive(st, r.currency, clock.held, clock.saved);
    ActiveIff(st, r.currency, clock.held, clock.saved);
  }

  // ----- the queue ------------------------------------------------------------------------------------------

  /** Issued and not yet removed, in issue order. */
  ghost function Outstanding(issued: seq<Authorization>, removed: set<string>): seq<Authorization> {
    if issued == [] then []
    else
      var rest := Outstanding(issued[..|issued| - 1], removed);
      var last := issued[|issued| - 1];
      if last.authorizationId in removed then rest else rest + [last]
  }

  /** The in-memory queue is the stored one; an instance that has not loaded it yet holds an empty one. */
  ghost predicate Loaded(st: State) { st.queue == SavedQueue(st) }

  ghost predicate HasId(q: seq<Authorization>, id: string) {
    exists i :: 0 <= i < |q| && q[i].authorizationId == id
  }

  ghost predicate Distinct(q: seq<Authorization>) {
    forall i, j :: 0 <= i < j < |q| ==> q[i].authorizationId != q[j].authorizationId
  }

  /** Issued ids are distinct, and both queues hold distinct issued authorizations that were never removed. */
  ghost predicate QueueInvariant(w: World) {
    && Distinct(w.issued)
    && (w.st.queue == [] || Loaded(w.st))
    && Live(SavedQueue(w.st), w.issued, w.removed) && Distinct(SavedQueue(w.st))
  }

  ghost predicate Live(q: seq<Authorization>, issued: seq<Authorization>, removed: set<string>) {
    forall i :: 0 <= i < |q| ==> q[i] in issued && q[i].authorizationId !in removed
  }

  lemma {:induction false} WithoutMembers(q: seq<Authorization>, id: string)
    ensures forall a :: a in Without(q, id) <==> a in q && a.authorizationId != id
  {
    if q != [] {
      var front := q[..|q| - 1];
      WithoutMembers(front, id);
      assert q == front + [q[|q| - 1]];
    }
  }

  lemma {:induction false} WithoutDistinct(q: seq<Authorization>, id: string)
    requires Distinct(q)
    ensures Distinct(Without(q, id))
  {
    if q != [] {
      var front, last := q[..|q| - 1], q[|q| - 1];
      WithoutDistinct(front, id);
      WithoutMembers(front, id);
      forall a | a in Without(front, id) ensures a.authorizationId != last.authorizationId {
        var i :| 0 <= i < |front| && front[i] == a;
      }
    }
  }

  lemma {:induction false} OutstandingRemoved(issued: seq<Authorization>, removed: set<string>, id: string)
    ensures Outstanding(issued, removed + {id}) == Without(Outstanding(issued, removed), id)
  {
    if issued != [] {
      var front, last := issued[..|issued| - 1], issued[|issued| - 1];
      OutstandingRemoved(front, removed, id);
      if last.authorizationId !in removed {
        WithoutAppend(Outstanding(front, removed), last, id);
      }
    }
  }

  lemma WithoutAppend(q: seq<Authorization>, a: Authorization, id: string)
    ensures Without(q + [a], id) == if a.authorizationId == id then Without(q, id) else Without(q, id) + [a]
  {
    assert (q + [a])[..|q|] == q;
  }

  lemma OutstandingIssued(issued: seq<Authorization>, removed: set<string>, a: Authorization)
    requires a.authorizationId !in removed
    ensures Outstanding(issued + [a], removed) == Outstanding(issued, removed) + [a]
  {
    assert (issued + [a])[..|issued|] == issued;
  }

  /** What a spend does to the queues, and which id it issues. */
  lemma SpendQueues(s: Setting, st: State, r: PaymentRequest, seed: seq<bv8>, clock: Clock, authId: string,
                    confId: string)
    ensures match Spend(s, st, r, seed, clock, authId, confId)
            case (st', Issued(auth, _)) =>
              auth.authorizationId == authId && st'.queue == st.queue + [auth]
                && st'.savedQueue == Some(st.queue + [auth])
            case (st', Refused(_)) => st'.queue == st.queue && st'.savedQueue == st.savedQueue
  {
    hide VerifyRequest, Upper, SignText, PublicKeyText, ChecksumOf, CreateConfirmation;
  }

  lemma AppendKeepsQueue(w: World, st: State, auth: Authorization)
    requires QueueInvariant(w) && !IsIssued(w, auth.authorizationId) && auth.authorizationId !in w.removed
    requires st.queue == w.st.queue + [auth] && st.savedQueue == Some(w.st.queue + [auth])
    ensures QueueInvariant(w.(st := st, issued := w.issued + [auth]))
  {
    var w' := w.(st := st, issued := w.issued + [auth]);
    forall i, j | 0 <= i < j < |w'.issued| ensures w'.issued[i].authorizationId != w'.issued[j].authorizationId {
      assert w.issued[i].authorizationId != auth.authorizationId;
    }
    forall i | 0 <= i < |st.queue| ensures st.queue[i] in w'.issued && st.queue[i].authorizationId !in w'.removed {
      if i < |w.st.queue| {
        assert st.queue[i] == SavedQueue(w.st)[i];
      } else {
        assert w'.issued[|w.issued|] == auth;
      }
    }
    forall i | 0 <= i < |w.st.queue| ensures w.st.queue[i].authorizationId != auth.authorizationId {
      var a := SavedQueue(w.st)[i];
      assert a in w.issued;
      var j :| 0 <= j < |w.issued| && w.issued[j] == a;
    }
  }

  lemma RemoveKeepsQueue(w: World, id: string)
    requires QueueInvariant(w)
    ensures QueueInvariant(w.(st := Remove(w.st, id), removed := w.removed + {id}))
  {
    hide Without;
    WithoutMembers(w.st.queue, id);
    assert Distinct(w.st.queue);
    WithoutDistinct(w.st.queue, id);
    var q := Without(w.st.queue, id);
    forall i | 0 <= i < |q| ensures q[i] in w.issued && q[i].authorizationId !in w.removed + {id} {
      assert q[i] in q && q[i] in SavedQueue(w.st);
    }
  }

  /** The other actions touch the queue in memory only, to load or unload it. */
  lemma OthersKeepQueue(s: Setting, w: World, a: Action)
    requires !a.DoSpend? && !a.DoRemove?
    ensures var w' := Step(s, w, a);
            && w'.issued == w.issued && w'.removed == w.removed && w'.st.savedQueue == w.st.savedQueue
            && (w'.st.queue == w.st.queue || w'.st.queue == [] || Loaded(w'.st))
            && (a.DoRestart? || w'.st.queue == w.st.queue || Loaded(w'.st))
  {
    hide Upper, CreateCertificate, CertificateChecksum, IsExpired;
  }

  lemma SameQueues(w: World, st: State)
    requires QueueInvariant(w) && st.queue == w.st.queue && st.savedQueue == w.st.savedQueue
    ensures QueueInvariant(w.(st := st))
  {
    assert SavedQueue(st) == SavedQueue(w.st);
  }

  lemma StepKeepsQueue(s: Setting, w: World, a: Action)
    requires QueueInvariant(w) && Fresh(w, a)
    ensures QueueInvariant(Step(s, w, a))
  {
    hide Spend, Provision, GetActive, GetQueue, Remove, Restart, IsIssued;
    match a
    case DoSpend(r, seed, clock, authId, confId) =>
      SpendQueues(s, w.st, r, seed, clock, authId, confId);
      match Spend(s, w.st, r, seed, clock, authId, confId) {
        case (st, Issued(auth, _)) => AppendKeepsQueue(w, st, auth);
        case (st, Refused(_)) => SameQueues(w, st);
      }
    case DoRemove(id) => RemoveKeepsQueue(w, id);
    case _ =>
      OthersKeepQueue(s, w, a);
      assert SavedQueue(Step(s, w, a).st) == SavedQueue(w.st);
  }

  /** The stored queue is what is outstanding. */
  ghost predicate QueueComplete(w: World) {
    SavedQueue(w.st) == Outstanding(w.issued, w.removed)
  }

  /**
   One step keeps the stored queue complete exactly when it does not write an unloaded queue over it: a
   successful spend needs the queue loaded, and a removal needs it loaded or nothing else outstanding.
   */
  lemma StepKeepsQueueComplete(s: Setting, w: World, a: Action)
    requires QueueInvariant(w) && Fresh(w, a) && QueueComplete(w)
    ensures QueueComplete(Step(s, w, a)) <==>
            match a
            case DoSpend(r, seed, clock, authId, confId) =>
              Spend(s, w.st, r, seed, clock, authId, confId).1.Issued? ==> Loaded(w.st)
            case DoRemove(id) => Loaded(w.st) || Without(SavedQueue(w.st), id) == []
            case _ => true
  {
    hide Spend, Upper, CreateCertificate, CertificateChecksum, Without, IsExpired, Outstanding;
    match a
    case DoSpend(r, seed, clock, authId, confId) =>
      SpendQueues(s, w.st, r, seed, clock, authId, confId);
      match Spend(s, w.st, r, seed, clock, authId, confId) {
        case (_, Issued(auth, _)) =>
          OutstandingIssued(w.issued, w.removed, auth);
          SameFront(w.st.queue, SavedQueue(w.st), auth);
        case _ =>
      }
    case DoRemove(id) =>
      OutstandingRemoved(w.issued, w.removed, id);
      WithoutNothing(id);
    case _ =>
  }

  lemma SameFront(q: seq<Authorization>, r: seq<Authorization>, a: Authorization)
    ensures q + [a] == r + [a] <==> q == r
  {
    assert (q + [a])[..|q|] == q && (r + [a])[..|r|] == r;
  }

  lemma WithoutNothing(id: string)
    ensures Without([], id) == []
  {}

  /** What goes wrong otherwise: the first spend of a new instance leaves only its own authorization in storage. */
  lemma UnreadQueueIsLost(s: Setting, st: State, r: PaymentRequest, seed: seq<bv8>, clock: Clock, authId: string,
                          confId: string)
    requires Spend(s, Restart(st), r, seed, clock, authId, confId).1.Issued?
    ensures var (st', outcome) := Spend(s, Restart(st), r, seed, clock, authId, confId);
            SavedQueue(st') == [outcome.authorization]
  {
    hide Spend;
    SpendQueues(s, Restart(st), r, seed, clock, authId, confId);
  }

  /** Whether the queue is known to be loaded after an action. */
  function StaysLoaded(loaded: bool, a: Action): bool {
    match a case DoRestart => false case DoGetQueue => true case _ => loaded
  }

  /** Loaded at the start; then only a restart unloads the queue, and only reading it loads it. */
  function KnownLoaded(actions: seq<Action>): bool {
    actions == [] || StaysLoaded(KnownLoaded(actions[..|actions| - 1]), actions[|actions| - 1])
  }

  /** After a restart the queue is read before the next spend or removal. */
  predicate ReadsFirst(actions: seq<Action>) {
    forall i :: 0 <= i < |actions| && (actions[i].DoSpend? || actions[i].DoRemove?) ==> KnownLoaded(actions[..i])
  }

  lemma StepLoads(s: Setting, w: World, a: Action, loaded: bool)
    requires QueueInvariant(w) && (loaded ==> Loaded(w.st))
    ensures StaysLoaded(loaded, a) ==> Loaded(Step(s, w, a).st)
  {
    hide Spend, Upper, CreateCertificate, CertificateChecksum, Without, IsExpired;
    if a.DoSpend? { SpendQueues(s, w.st, a.request, a.seed, a.clock, a.authorizationId, a.confirmationId); }
  }

  lemma FreshPrefix(s: Setting, actions: seq<Action>)
    requires AllFresh(s, actions) && actions != []
    ensures var n := |actions| - 1; AllFresh(s, actions[..n]) && Fresh(Run(s, actions[..n]), actions[n])
  {
    hide Fresh, Run;
    var n := |actions| - 1;
    forall i | 0 <= i < n ensures Fresh(Run(s, actions[..n][..i]), actions[..n][i]) {
      assert actions[..n][..i] == actions[..i];
    }
  }

  lemma ReadsFirstPrefix(actions: seq<Action>)
    requires ReadsFirst(actions) && actions != []
    ensures ReadsFirst(actions[..|actions| - 1])
  {
    hide KnownLoaded;
    var front := actions[..|actions| - 1];
    forall i | 0 <= i < |front| && (front[i].DoSpend? || front[i].DoRemove?) ensures KnownLoaded(front[..i]) {
      assert front[..i] == actions[..i];
    }
  }

  /** Over every run with fresh ids, nothing removed is ever queued again, and queued ids are distinct issued ones. */
  lemma {:induction false} QueueRuns(s: Setting, actions: seq<Action>)
    requires AllFresh(s, actions)
    ensures QueueInvariant(Run(s, actions))
    ensures KnownLoaded(actions) ==> Loaded(Run(s, actions).st)
  {
    hide QueueInvariant, Step, Fresh, Loaded, StaysLoaded;
    if actions == [] {
      EmptyQueue(s);
    } else {
      var n := |actions| - 1;
      FreshPrefix(s, actions);
      QueueRuns(s, actions[..n]);
      StepKeepsQueue(s, Run(s, actions[..n]), actions[n]);
      StepLoads(s, Run(s, actions[..n]), actions[n], KnownLoaded(actions[..n]));
    }
  }

  lemma EmptyQueue(s: Setting)
    ensures QueueInvariant(Run(s, [])) && Loaded(Run(s, []).st) && QueueComplete(Run(s, []))
  {}

  /**
   Over every run that reads the queue after each restart before it spends or removes, the stored queue
   is exactly the issued and not removed authorizations in issue order, and reading it returns them.
   */
  lemma {:induction false} QueueIsOutstanding(s: Setting, actions: seq<Action>)
    requires AllFresh(s, actions) && ReadsFirst(actions)
    ensures var w := Run(s, actions);
            QueueComplete(w) && GetQueue(w.st).1 == Outstanding(w.issued, w.removed)
  {
    hide Step, Fresh, KnownLoaded, Outstanding;
    QueueRuns(s, actions);
    if actions == [] {
      EmptyQueue(s);
    } else {
      var n := |actions| - 1;
      var before := Run(s, actions[..n]);
      FreshPrefix(s, actions);
      ReadsFirstPrefix(actions);
      QueueIsOutstanding(s, actions[..n]);
      QueueRuns(s, actions[..n]);
      StepKeepsQueueComplete(s, before, actions[n]);
    }
  }
}

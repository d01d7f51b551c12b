/** The reserve service as the app holds it: allowance objects changed in place, a queue, and storage. */
module ReserveService {
  import opened Text
  import opened Payment
  import opened Authorizations
  import R = Reserve

  class ReserveAllowance {
    const certificate: Certificate
    var remaining: int
    var sequenceNumber: int
    var lastStateHash: string

    constructor (a: R.Allowance)
      ensures Value() == a
    {
      certificate, remaining := a.certificate, a.remaining;
      sequenceNumber, lastStateHash := a.sequenceNumber, a.lastStateHash;
    }

    function Value(): R.Allowance
      reads this
    {
      R.Allowance(certificate, remaining, sequenceNumber, lastStateHash)
    }
  }

  /** The stored allowances by upper-case currency, and the stored queue; survives restarts. */
  class Storage {
    var allowances: map<string, R.Allowance>
    var queue: Option<seq<Authorization>>
  }

  class OfflineReserveService {
    const s: Setting
    const storage: Storage
    var inMemoryAllowances: map<string, ReserveAllowance>
    var pendingAuthQueue: seq<Authorization>

    /** No two currencies share an allowance object. */
    ghost predicate Valid()
      reads this
    {
      forall c, d :: c in inMemoryAllowances && d in inMemoryAllowances && c != d
        ==> inMemoryAllowances[c] != inMemoryAllowances[d]
    }

    ghost function Held(): map<string, R.Allowance>
      reads this, inMemoryAllowances.Values
    {
      map c | c in inMemoryAllowances :: inMemoryAllowances[c].Value()
    }

    ghost function State(): R.State
      reads this, inMemoryAllowances.Values, storage
    {
      R.State(Held(), pendingAuthQueue, storage.allowances, storage.queue)
    }

    /** A new instance over existing storage. */
    constructor (s: Setting, storage: Storage)
      ensures Valid() && this.s == s && this.storage == storage
      ensures State() == R.State(map[], [], storage.allowances, storage.queue)
    {
      this.s, this.storage := s, storage;
      inMemoryAllowances, pendingAuthQueue := map[], [];
    }

    method SaveAllowance(a: ReserveAllowance)
      modifies storage
      ensures storage.allowances == old(storage.allowances)[Upper(a.certificate.currency) := a.Value()]
      ensures storage.queue == old(storage.queue)
    {
      storage.allowances := storage.allowances[Upper(a.certificate.currency) := a.Value()];
    }

    /** Puts a fresh object under a currency. */
    method Hold(cur: string, v: R.Allowance) returns (a: ReserveAllowance)
      requires Valid()
      modifies this
      ensures Valid() && fresh(a) && a.Value() == v
      ensures inMemoryAllowances == old(inMemoryAllowances)[cur := a]
      ensures Held() == old(Held())[cur := v]
      ensures pendingAuthQueue == old(pendingAuthQueue)
    {
      a := new ReserveAllowance(v);
      inMemoryAllowances := inMemoryAllowances[cur := a];
    }

    method ProvisionAllowance(allowanceId: string, appUserId: string, stellarPublicKey: string, amountMinorUnits: int,
                              currency: string, validity: int, now: int, seed: seq<bv8>)
      returns (outcome: R.Provisioned)
      requires Valid()
      modifies this, storage
      ensures Valid()
      ensures (State(), outcome)
           == R.Provision(s, old(State()), allowanceId, appUserId, stellarPublicKey, amountMinorUnits,
                                                currency, validity, now, seed)
    {
      hide Upper, CreateCertificate, CertificateChecksum;
      if amountMinorUnits <= 0 { return R.NotProvisioned(R.BadAmount); }
      if |seed| != 32 { return R.NotProvisioned(R.BadSeed); }
      var certificate := CreateCertificate(s, allowanceId, appUserId, stellarPublicKey, amountMinorUnits, currency, now,
                                           now + validity, seed);
      var value := R.Allowance(certificate, amountMinorUnits, 0, CertificateChecksum(s, certificate));
      var allowance := Hold(Upper(currency), value);
      SaveAllowance(allowance);
      outcome := R.NewAllowance(value);
    }

    method GetActiveAllowance(currency: string, now: int, later: int) returns (a: ReserveAllowance?)
      requires Valid()
      modifies this
      ensures Valid()
      ensures (State(), if a == null then None else Some(a.Value())) == R.GetActive(old(State()), currency, now, later)
      ensures a != null ==> Upper(currency) in inMemoryAllowances && inMemoryAllowances[Upper(currency)] == a
      ensures forall c :: c in inMemoryAllowances
                ==> fresh(inMemoryAllowances[c]) || inMemoryAllowances[c] in old(inMemoryAllowances.Values)
    {
      hide Upper;
      var cur := Upper(currency);
      if cur in inMemoryAllowances {
        var held := inMemoryAllowances[cur];
        if !R.IsExpired(held.Value(), now) { return held; }
      }
      if Upper(cur) in storage.allowances && !R.IsExpired(storage.allowances[Upper(cur)], later) {
        a := Hold(cur, storage.allowances[Upper(cur)]);
      } else {
        a := null;
      }
    }

    /** The object changes in place. */
    method Charge(cur: string, a: ReserveAllowance, auth: Authorization)
      requires Valid() && cur in inMemoryAllowances && inMemoryAllowances[cur] == a
      modifies a
      ensures Valid() && a.Value() == R.Charged(old(a.Value()), auth)
      ensures Held() == old(Held())[cur := a.Value()]
    {
      a.remaining := a.remaining - auth.amountMinorUnits;
      a.sequenceNumber := auth.sequenceNumber;
      a.lastStateHash := auth.stateHash;
    }

    method EnqueuePendingAuthorization(auth: Authorization)
      modifies this`pendingAuthQueue, storage
      ensures pendingAuthQueue == old(pendingAuthQueue) + [auth]
      ensures storage.queue == Some(pendingAuthQueue) && storage.allowances == old(storage.allowances)
    {
      pendingAuthQueue := pendingAuthQueue + [auth];
      storage.queue := Some(pendingAuthQueue);
    }

    /** The effects of a spend that is granted. */
    method Commit(cur: string, a: ReserveAllowance, auth: Authorization)
      requires Valid() && cur in inMemoryAllowances && inMemoryAllowances[cur] == a
      modifies a, this`pendingAuthQueue, storage
      ensures Valid() && inMemoryAllowances == old(inMemoryAllowances)
      ensures State() == R.Commit(old(State()), cur, old(a.Value()), auth)
    {
      hide Upper;
      Charge(cur, a, auth);
      ghost var held := Held();
      SaveAllowance(a);
      EnqueuePendingAuthorization(auth);
      assert Held() == held by { HeldUnchanged(held); }
    }

    /** Held() depends on the allowance objects only. */
    lemma HeldUnchanged(held: map<string, R.Allowance>)
      requires held.Keys == inMemoryAllowances.Keys
      requires forall c :: c in held ==> held[c] == inMemoryAllowances[c].Value()
      ensures Held() == held
    {}

    method SpendFromReserve(request: PaymentRequest, seed: seq<bv8>, clock: R.Clock, authorizationId: string,
                            confirmationId: string)
      returns (outcome: R.Spent)
      requires Valid()
      modifies this, storage, inMemoryAllowances.Values
      ensures Valid()
      ensures (State(), outcome) == R.Spend(s, old(State()), request, seed, clock, authorizationId, confirmationId)
    {
      hide Upper, VerifyRequest, CreateAuthorization, CreateConfirmation, R.GetActive, R.Commit;
      var check := VerifyRequest(s, request, clock.verified);
      if check != Accepted { return R.Refused(R.BadRequest(check)); }
      var allowance := GetActiveAllowance(request.currency, clock.held, clock.saved);
      if allowance == null { return R.Refused(R.NoAllowance); }
      if R.IsExpired(allowance.Value(), clock.checked) { return R.Refused(R.AllowanceExpired); }
      if allowance.remaining < request.amountMinorUnits { return R.Refused(R.Insufficient); }
      if |seed| != 32 { return R.Refused(R.BadSeed); }
      var authorization := CreateAuthorization(s, authorizationId, allowance.certificate.allowanceId, request,
                                               allowance.sequenceNumber + 1, allowance.lastStateHash, clock.stamped,
                                               seed);
      Commit(Upper(request.currency), allowance, authorization);
      var confirmation := CreateConfirmation(s, confirmationId, request.requestId,
                                             allowance.certificate.stellarPublicKey,
                                             request.amountMinorUnits, Upper(request.currency), "RESERVE_PENDING",
                                             Some(authorizationId), clock.stamped, seed);
      outcome := R.Issued(authorization, confirmation);
    }

    method GetPendingRedemptionQueue() returns (q: seq<Authorization>)
      modifies this`pendingAuthQueue
      ensures (State(), q) == R.GetQueue(old(State()))
    {
      if pendingAuthQueue != [] { return pendingAuthQueue; }
      match storage.queue
      case None => q := [];
      case Some(stored) =>
        ghost var held := Held();
        pendingAuthQueue := stored;
        q := stored;
        HeldUnchanged(held);
    }

    method RemovePendingAuthorization(authorizationId: string)
      modifies this`pendingAuthQueue, storage
      ensures State() == R.Remove(old(State()), authorizationId)
    {
      hide R.Without;
      ghost var held := Held();
      pendingAuthQueue := R.Without(pendingAuthQueue, authorizationId);
      storage.queue := Some(pendingAuthQueue);
      HeldUnchanged(held);
    }
  }
}

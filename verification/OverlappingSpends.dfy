/**
 Spends that overlap on one service instance, in one currency. A spend gives way at its look-up, while it
 loads a stored allowance, while it waits for the device key between its balance check and its debit, and
 while the storage takes its write. Whether the chain and the balance survive depends on the order.
 */
module OverlappingSpends {
  import opened Text
  import opened Payment
  import opened Authorizations
  import R = Reserve

  /** How far a spend is; an object is an allowance held by the instance, by its number. */
  datatype Stage = Loading | Loaded(obj: nat) | Holding(obj: nat) | Checked(obj: nat) | Over

  datatype Flight = Flight(request: PaymentRequest, stage: Stage)

  /**
   The allowance objects, the one in memory, the stored allowance, the writes on their way to it in order,
   what was issued, and the spends. `upToDate` and `stored` say which objects, and whether the stored
   allowance, are of the last debit: the object debited, and copies of it read since.
   */
  datatype Desk = Desk(
    objects: seq<R.Allowance>, memory: Option<nat>, saved: Option<R.Allowance>, writes: seq<R.Allowance>,
    issued: seq<Authorization>, flights: seq<Flight>, upToDate: set<nat>, stored: bool)

  datatype Turn =
    | Look(request: PaymentRequest, verified: int, held: int)
    | Read(flight: nat)
    | Adopt(flight: nat, later: int)
    | Check(flight: nat, checked: int)
    | Debit(flight: nat, seed: seq<bv8>, authorizationId: string, now: int)
    | Write

  // ----- the turns ---------------------------------------------------------------------------------

  /** The look-up finds an unexpired object in memory. */
  predicate Hits(d: Desk, held: int) {
    d.memory.Some? && d.memory.value < |d.objects| && !R.IsExpired(d.objects[d.memory.value], held)
  }

  function LookUp(s: Setting, d: Desk, r: PaymentRequest, verified: int, held: int): Desk {
    if VerifyRequest(s, r, verified) != Accepted then d
    else d.(flights := d.flights + [Flight(r, if Hits(d, held) then Holding(d.memory.value) else Loading)])
  }

  predicate At(d: Desk, i: nat, stage: Stage) { i < |d.flights| && d.flights[i].stage == stage }

  function Move(d: Desk, i: nat, stage: Stage): Desk
    requires i < |d.flights|
  {
    d.(flights := d.flights[i := Flight(d.flights[i].request, stage)])
  }

  /** The stored allowance becomes a new object. */
  function ReadIn(d: Desk, i: nat): Desk {
    if !At(d, i, Loading) then d
    else match d.saved
      case None => Move(d, i, Over)
      case Some(a) =>
        var o := |d.objects|;
        Move(d, i, Loaded(o)).(objects := d.objects + [a], upToDate := d.upToDate + if d.stored then {o} else {})
  }

  function TakeIn(d: Desk, i: nat, later: int): Desk {
    if !(i < |d.flights| && d.flights[i].stage.Loaded? && d.flights[i].stage.obj < |d.objects|) then d
    else
      var o := d.flights[i].stage.obj;
      if R.IsExpired(d.objects[o], later) then Move(d, i, Over) else Move(d, i, Holding(o)).(memory := Some(o))
  }

  function CheckIn(d: Desk, i: nat, checked: int): Desk {
    if !(i < |d.flights| && d.flights[i].stage.Holding? && d.flights[i].stage.obj < |d.objects|) then d
    else
      var o, r := d.flights[i].stage.obj, d.flights[i].request;
      if R.IsExpired(d.objects[o], checked) || d.objects[o].remaining < r.amountMinorUnits then Move(d, i, Over)
      else Move(d, i, Checked(o))
  }

  /** The spend is through with its wait and has a seed to sign with. */
  predicate Debits(d: Desk, t: Turn) {
    && t.Debit? && t.flight < |d.flights| && d.flights[t.flight].stage.Checked?
    && d.flights[t.flight].stage.obj < |d.objects| && |t.seed| == 32
  }

  function Source(d: Desk, t: Turn): nat
    requires Debits(d, t)
  {
    d.flights[t.flight].stage.obj
  }

  function Authorized(s: Setting, d: Desk, t: Turn): Authorization
    requires Debits(d, t)
  {
    var a := d.objects[Source(d, t)];
    CreateAuthorization(s, t.authorizationId, a.certificate.allowanceId, d.flights[t.flight].request,
                        a.sequenceNumber + 1, a.lastStateHash, t.now, t.seed)
  }

  /** The part after the wait runs in one piece, up to the start of its write. */
  function DebitNow(s: Setting, d: Desk, t: Turn): Desk
    requires Debits(d, t)
  {
    var o, auth := Source(d, t), Authorized(s, d, t);
    var charged := R.Charged(d.objects[o], auth);
    Move(d, t.flight, Over).(objects := d.objects[o := charged], writes := d.writes + [charged],
                             issued := d.issued + [auth], upToDate := {o}, stored := false)
  }

  function Take(s: Setting, d: Desk, t: Turn): Desk {
    match t
    case Look(r, verified, held) => LookUp(s, d, r, verified, held)
    case Read(i) => ReadIn(d, i)
    case Adopt(i, later) => TakeIn(d, i, later)
    case Check(i, checked) => CheckIn(d, i, checked)
    case Debit(i, _, _, _) =>
      if Debits(d, t) then DebitNow(s, d, t)
      else if i < |d.flights| && d.flights[i].stage.Checked? then Move(d, i, Over)
      else d
    case Write =>
      if d.writes == [] then d
      else d.(saved := Some(d.writes[0]), writes := d.writes[1..], stored := |d.writes| == 1)
  }

  function TakeAll(s: Setting, d: Desk, turns: seq<Turn>): Desk {
    if turns == [] then d else Take(s, TakeAll(s, d, turns[..|turns| - 1]), turns[|turns| - 1])
  }

  lemma TakeLast(s: Setting, d: Desk, front: seq<Turn>, t: Turn)
    ensures TakeAll(s, d, front + [t]) == Take(s, TakeAll(s, d, front), t)
  {
    var turns := front + [t];
    assert turns[..|turns| - 1] == front;
  }

  lemma NoTurns(s: Setting, d: Desk)
    ensures TakeAll(s, d, []) == d
  {}

  lemma {:induction false} TakeMore(s: Setting, d: Desk, front: seq<Turn>, more: seq<Turn>)
    ensures TakeAll(s, d, front + more) == TakeAll(s, TakeAll(s, d, front), more)
  {
    hide Take;
    if more == [] {
      assert front + more == front;
    } else {
      var n := |more| - 1;
      TakeMore(s, d, front, more[..n]);
      assert front + more == (front + more[..n]) + [more[n]] && more == more[..n] + [more[n]];
      TakeLast(s, d, front + more[..n], more[n]);
      TakeLast(s, TakeAll(s, d, front), more[..n], more[n]);
    }
  }

  // ----- the balance of an object ------------------------------------------------------------------

  /** What a turn debits from an object. */
  function DebitedBy(d: Desk, t: Turn, o: nat): int {
    if Debits(d, t) && Source(d, t) == o then d.flights[t.flight].request.amountMinorUnits else 0
  }

  /** What a run debits from an object. */
  function Debited(s: Setting, d: Desk, turns: seq<Turn>, o: nat): int {
    if turns == [] then 0
    else
      var front := turns[..|turns| - 1];
      Debited(s, d, front, o) + DebitedBy(TakeAll(s, d, front), turns[|turns| - 1], o)
  }

  lemma TurnBalance(s: Setting, d: Desk, t: Turn, o: nat)
    requires o < |d.objects|
    ensures o < |Take(s, d, t).objects|
    ensures Take(s, d, t).objects[o].remaining == d.objects[o].remaining - DebitedBy(d, t, o)
    ensures Take(s, d, t).objects[o].certificate == d.objects[o].certificate
  {
    hide VerifyRequest, CreateAuthorization;
    if Debits(d, t) { AuthorizedFields(s, d, t); }
  }

  lemma AuthorizedFields(s: Setting, d: Desk, t: Turn)
    requires Debits(d, t)
    ensures var a, auth, r := d.objects[Source(d, t)], Authorized(s, d, t), d.flights[t.flight].request;
            && auth.sequenceNumber == a.sequenceNumber + 1 && auth.previousAuthHash == a.lastStateHash
            && auth.amountMinorUnits == r.amountMinorUnits && auth.currency == Upper(r.currency)
            && auth.stateHash == ChecksumOf(s, StateBody(auth))
  {
    hide Upper, ChecksumOf, StateBody, CreateAuthorization;
    var a := d.objects[Source(d, t)];
    R.CreatedFields(s, t.authorizationId, a.certificate.allowanceId, d.flights[t.flight].request,
                    a.sequenceNumber + 1, a.lastStateHash, t.now, t.seed);
  }

  /** Over every interleaving, an object's balance is its opening balance less what was debited from it. */
  lemma {:induction false} RunBalance(s: Setting, d: Desk, turns: seq<Turn>, o: nat)
    requires o < |d.objects|
    ensures o < |TakeAll(s, d, turns).objects|
    ensures TakeAll(s, d, turns).objects[o].remaining == d.objects[o].remaining - Debited(s, d, turns, o)
  {
    hide Take, DebitedBy;
    if turns != [] {
      var n := |turns| - 1;
      RunBalance(s, d, turns[..n], o);
      TurnBalance(s, TakeAll(s, d, turns[..n]), turns[n], o);
    }
  }

  /** Requests under way passed verification, so they are for positive amounts. */
  ghost predicate Positive(d: Desk) {
    forall i :: 0 <= i < |d.flights| && !d.flights[i].stage.Over? ==> d.flights[i].request.amountMinorUnits > 0
  }

  lemma TurnKeepsPositive(s: Setting, d: Desk, t: Turn)
    requires Positive(d)
    ensures Positive(Take(s, d, t))
  {
    hide CheckSignature, ChecksumMatches, RequestBody, CreateAuthorization, R.IsExpired;
  }

  lemma {:induction false} RunKeepsPositive(s: Setting, d: Desk, turns: seq<Turn>)
    requires Positive(d)
    ensures Positive(TakeAll(s, d, turns))
  {
    hide Take, Positive;
    if turns != [] {
      var n := |turns| - 1;
      RunKeepsPositive(s, d, turns[..n]);
      TurnKeepsPositive(s, TakeAll(s, d, turns[..n]), turns[n]);
    }
  }

  /** An object's balance never rises. */
  lemma {:induction false} BalanceFalls(s: Setting, d: Desk, turns: seq<Turn>, n: nat, o: nat)
    requires Positive(d) && o < |d.objects| && n <= |turns|
    ensures Debited(s, d, turns[..n], o) <= Debited(s, d, turns, o)
    decreases |turns|
  {
    hide TakeAll, Positive;
    if n == |turns| {
      assert turns[..n] == turns;
    } else {
      var front := turns[..|turns| - 1];
      BalanceFalls(s, d, front, n, o);
      assert front[..n] == turns[..n];
      RunKeepsPositive(s, d, front);
      DebitIsPositive(TakeAll(s, d, front), turns[|turns| - 1], o);
    }
  }

  lemma DebitIsPositive(d: Desk, t: Turn, o: nat)
    requires Positive(d)
    ensures DebitedBy(d, t, o) >= 0 && (Debits(d, t) && Source(d, t) == o ==> DebitedBy(d, t, o) > 0)
  {}

  /**
   Over every interleaving, an object's balance stays at zero or more exactly when all that is debited from it
   fits its opening balance.
   */
  lemma BalanceStaysIff(s: Setting, d: Desk, turns: seq<Turn>, o: nat)
    requires Positive(d) && o < |d.objects|
    ensures forall n: nat :: n <= |turns| ==> o < |TakeAll(s, d, turns[..n]).objects|
    ensures (forall n: nat :: n <= |turns| ==> TakeAll(s, d, turns[..n]).objects[o].remaining >= 0)
       <==> Debited(s, d, turns, o) <= d.objects[o].remaining
  {
    hide TakeAll, Debited, Positive;
    forall n: nat | n <= |turns|
      ensures o < |TakeAll(s, d, turns[..n]).objects|
      ensures Debited(s, d, turns, o) <= d.objects[o].remaining ==>
                TakeAll(s, d, turns[..n]).objects[o].remaining >= 0
    {
      RunBalance(s, d, turns[..n], o);
      BalanceFalls(s, d, turns, n, o);
    }
    assert turns[..|turns|] == turns;
    RunBalance(s, d, turns, o);
    assert TakeAll(s, d, turns[..|turns|]) == TakeAll(s, d, turns);
  }

  /**
   A spend passes its check, others take their turns, and it debits. The balance is then at zero or more
   exactly when it and what the others debited in between fit the balance that it was checked against.
   */
  lemma DebitCoveredIff(s: Setting, d: Desk, check: Turn, between: seq<Turn>, debit: Turn)
    requires check.Check? && debit.Debit? && debit.flight == check.flight < |d.flights|
    requires var d' := Take(s, d, check);
             d.flights[check.flight].stage.Holding? && d'.flights[check.flight].stage.Checked?
    requires Debits(TakeAll(s, Take(s, d, check), between), debit)
    ensures var o, d' := d.flights[check.flight].stage.obj, Take(s, d, check);
            && o < |d.objects|
            && var after := Take(s, TakeAll(s, d', between), debit);
            && o < |after.objects|
            && (after.objects[o].remaining >= 0 <==>
                Debited(s, d', between, o) + d.flights[check.flight].request.amountMinorUnits <= d.objects[o].remaining)
  {
    var i := check.flight;
    var o, d' := d.flights[i].stage.obj, Take(s, d, check);
    assert d'.flights[i] == Flight(d.flights[i].request, Checked(o)) && d'.objects == d.objects;
    hide Take, TakeAll, Debited;
    CheckedStays(s, d', between, i);
    RunBalance(s, d', between, o);
    TurnBalance(s, TakeAll(s, d', between), debit, o);
  }

  lemma OverStays(s: Setting, d: Desk, t: Turn, i: nat)
    requires i < |d.flights| && d.flights[i].stage.Over?
    ensures i < |Take(s, d, t).flights| && Take(s, d, t).flights[i] == d.flights[i]
  {
    hide VerifyRequest, CreateAuthorization, R.IsExpired;
  }

  lemma CheckedNext(s: Setting, d: Desk, t: Turn, i: nat)
    requires i < |d.flights| && d.flights[i].stage.Checked?
    ensures i < |Take(s, d, t).flights|
    ensures Take(s, d, t).flights[i] == d.flights[i] || Take(s, d, t).flights[i].stage.Over?
  {
    hide VerifyRequest, CreateAuthorization, R.IsExpired;
  }

  /** A checked spend keeps its object until it is over, and once over it stays so. */
  lemma {:induction false} CheckedStays(s: Setting, d: Desk, turns: seq<Turn>, i: nat)
    requires i < |d.flights| && d.flights[i].stage.Checked?
    ensures var d' := TakeAll(s, d, turns);
            i < |d'.flights| && (d'.flights[i] == d.flights[i] || d'.flights[i].stage.Over?)
  {
    hide Take;
    if turns != [] {
      var n := |turns| - 1;
      CheckedStays(s, d, turns[..n], i);
      var before := TakeAll(s, d, turns[..n]);
      if before.flights[i].stage.Over? {
        OverStays(s, before, turns[n], i);
      } else {
        CheckedNext(s, before, turns[n], i);
      }
    }
  }

  // ----- one check at a time -------------------------------------------------------------------------

  ghost predicate NoneChecked(d: Desk) {
    forall i :: 0 <= i < |d.flights| ==> !d.flights[i].stage.Checked?
  }

  /** No spend is checked while another waits between its check and its debit. */
  ghost predicate ChecksAlone(s: Setting, d: Desk, turns: seq<Turn>) {
    forall i :: 0 <= i < |turns| && turns[i].Check? ==> NoneChecked(TakeAll(s, d, turns[..i]))
  }

  ghost predicate CoveredAt(d: Desk, i: nat)
    requires i < |d.flights|
  {
    d.flights[i].stage.Checked? ==>
      && d.flights[i].stage.obj < |d.objects|
      && d.flights[i].request.amountMinorUnits <= d.objects[d.flights[i].stage.obj].remaining
  }

  /** At most one spend waits for its debit, and its object covers it; no balance is below zero. */
  ghost predicate Covered(d: Desk) {
    && (forall i, j :: 0 <= i < j < |d.flights| ==> !(d.flights[i].stage.Checked? && d.flights[j].stage.Checked?))
    && (forall i :: 0 <= i < |d.flights| ==> CoveredAt(d, i))
    && (forall o :: 0 <= o < |d.objects| ==> d.objects[o].remaining >= 0)
    && (d.saved.Some? ==> d.saved.value.remaining >= 0)
    && (forall w :: 0 <= w < |d.writes| ==> d.writes[w].remaining >= 0)
  }

  /** After the only checked spend has debited, none is checked. */
  lemma NoneLeft(s: Setting, d: Desk, t: Turn)
    requires Covered(d) && Debits(d, t)
    ensures NoneChecked(DebitNow(s, d, t))
  {
    hide Authorized, R.Charged, CoveredAt;
    forall i | 0 <= i < |d.flights| && i != t.flight ensures !d.flights[i].stage.Checked? {
      assert i < t.flight || t.flight < i;
    }
  }

  lemma DebitKeepsBalances(s: Setting, d: Desk, t: Turn)
    requires Covered(d) && Debits(d, t)
    ensures var d' := DebitNow(s, d, t);
            && (forall o :: 0 <= o < |d'.objects| ==> d'.objects[o].remaining >= 0)
            && (forall w :: 0 <= w < |d'.writes| ==> d'.writes[w].remaining >= 0)
  {
    hide CreateAuthorization, StateBody, ChecksumOf, Upper, Authorized;
    AuthorizedFields(s, d, t);
    assert CoveredAt(d, t.flight);
  }

  lemma NoneCheckedCovered(d: Desk)
    requires NoneChecked(d)
    ensures forall i :: 0 <= i < |d.flights| ==> CoveredAt(d, i)
  {}

  lemma DebitKeepsCovered(s: Setting, d: Desk, t: Turn)
    requires Covered(d) && Debits(d, t)
    ensures Covered(DebitNow(s, d, t))
  {
    hide CreateAuthorization, Authorized, CoveredAt, R.Charged;
    NoneLeft(s, d, t);
    DebitKeepsBalances(s, d, t);
    NoneCheckedCovered(DebitNow(s, d, t));
  }

  lemma LookKeepsCovered(s: Setting, d: Desk, t: Turn)
    requires Covered(d) && t.Look?
    ensures Covered(Take(s, d, t))
  {
    hide VerifyRequest, R.IsExpired;
    var d' := Take(s, d, t);
    forall i | 0 <= i < |d'.flights| ensures CoveredAt(d', i) { assert i < |d.flights| ==> CoveredAt(d, i); }
  }

  lemma ReadKeepsCovered(s: Setting, d: Desk, t: Turn)
    requires Covered(d) && t.Read?
    ensures Covered(Take(s, d, t))
  {
    var d' := Take(s, d, t);
    forall i | 0 <= i < |d'.flights| ensures CoveredAt(d', i) { assert CoveredAt(d, i); }
  }

  lemma WriteKeepsCovered(s: Setting, d: Desk, t: Turn)
    requires Covered(d) && t.Write?
    ensures Covered(Take(s, d, t))
  {
    var d' := Take(s, d, t);
    forall i | 0 <= i < |d'.flights| ensures CoveredAt(d', i) { assert CoveredAt(d, i); }
  }

  lemma MoveKeepsCovered(d: Desk, i: nat, stage: Stage)
    requires Covered(d) && i < |d.flights|
    requires stage.Checked? ==>
               NoneChecked(d) && stage.obj < |d.objects|
               && d.flights[i].request.amountMinorUnits <= d.objects[stage.obj].remaining
    ensures Covered(Move(d, i, stage))
  {
    var d' := Move(d, i, stage);
    forall j | 0 <= j < |d'.flights| ensures CoveredAt(d', j) { assert CoveredAt(d, j); }
  }

  lemma AdoptKeepsCovered(s: Setting, d: Desk, t: Turn)
    requires Covered(d) && t.Adopt?
    ensures Covered(Take(s, d, t))
  {
    hide R.IsExpired, Covered;
    var i := t.flight;
    if i < |d.flights| && d.flights[i].stage.Loaded? {
      var o := d.flights[i].stage.obj;
      MoveKeepsCovered(d, i, Over);
      MoveKeepsCovered(d, i, Holding(o));
      MemoryLeavesCovered(Move(d, i, Holding(o)), Some(o));
    }
  }

  lemma CheckKeepsCovered(s: Setting, d: Desk, t: Turn)
    requires Covered(d) && t.Check? && NoneChecked(d)
    ensures Covered(Take(s, d, t))
  {
    hide R.IsExpired, Covered, NoneChecked;
    var i := t.flight;
    if i < |d.flights| && d.flights[i].stage.Holding? {
      MoveKeepsCovered(d, i, Over);
      var o := d.flights[i].stage.obj;
      if o < |d.objects| && d.flights[i].request.amountMinorUnits <= d.objects[o].remaining {
        MoveKeepsCovered(d, i, Checked(o));
      }
    }
  }

  lemma TurnKeepsCovered(s: Setting, d: Desk, t: Turn)
    requires Covered(d) && (t.Check? ==> NoneChecked(d))
    ensures Covered(Take(s, d, t))
  {
    hide Covered, NoneChecked, DebitNow, ReadIn, TakeIn, CheckIn, LookUp;
    match t
    case Look(_, _, _) => LookKeepsCovered(s, d, t);
    case Read(_) => ReadKeepsCovered(s, d, t);
    case Write => WriteKeepsCovered(s, d, t);
    case Debit(i, _, _, _) =>
      if Debits(d, t) { DebitKeepsCovered(s, d, t); } else if i < |d.flights| { MoveKeepsCovered(d, i, Over); }
    case Adopt(_, _) => AdoptKeepsCovered(s, d, t);
    case Check(_, _) => CheckKeepsCovered(s, d, t);
  }

  lemma MemoryLeavesCovered(d: Desk, memory: Option<nat>)
    requires Covered(d)
    ensures Covered(d.(memory := memory))
  {
    forall i | 0 <= i < |d.flights| ensures CoveredAt(d.(memory := memory), i) { assert CoveredAt(d, i); }
  }

  /** When spends are checked one at a time, no balance goes below zero, in any interleaving. */
  lemma {:induction false} OneByOneCovered(s: Setting, d: Desk, turns: seq<Turn>)
    requires Covered(d) && ChecksAlone(s, d, turns)
    ensures Covered(TakeAll(s, d, turns))
  {
    hide Take, Covered, NoneChecked;
    if turns != [] {
      var n := |turns| - 1;
      forall i | 0 <= i < n && turns[..n][i].Check? ensures NoneChecked(TakeAll(s, d, turns[..n][..i])) {
        assert turns[..n][..i] == turns[..i];
      }
      OneByOneCovered(s, d, turns[..n]);
      TurnKeepsCovered(s, TakeAll(s, d, turns[..n]), turns[n]);
    }
  }

  /**
   Two spends that both wait for their debit from one object leave it below zero exactly when it does not cover
   both, although it covered each.
   */
  lemma TwoDebits(s: Setting, d: Desk, p: Turn, q: Turn)
    requires Debits(d, p) && Debits(d, q) && p.flight != q.flight && Source(d, p) == Source(d, q)
    ensures var after, o := Take(s, Take(s, d, p), q), Source(d, p);
            && o < |after.objects|
            && (after.objects[o].remaining < 0 <==>
                d.objects[o].remaining
                < d.flights[p.flight].request.amountMinorUnits + d.flights[q.flight].request.amountMinorUnits)
  {
    var d', o := Take(s, d, p), Source(d, p);
    TurnBalance(s, d, p, o);
    hide R.Charged, Authorized;
    assert Debits(d', q) && d'.flights[q.flight] == d.flights[q.flight];
    hide Take, DebitNow;
    TurnBalance(s, d', q, o);
  }

  // ----- a spend that nothing interrupts -------------------------------------------------------------

  /** The desk holds and stores for its currency what the service does, and no write is under way. */
  ghost predicate Shows(d: Desk, st: R.State, cur: string) {
    && (d.memory.Some? <==> cur in st.held)
    && (d.memory.Some? ==> d.memory.value < |d.objects| && d.objects[d.memory.value] == st.held[cur])
    && d.saved == (if cur in st.saved then Some(st.saved[cur]) else None)
    && d.writes == []
  }

  /** The look-up with its load, if it needs one. */
  function LooksUp(s: Setting, d: Desk, r: PaymentRequest, clock: R.Clock): Desk {
    var i := |d.flights|;
    Take(s, Take(s, Take(s, d, Look(r, clock.verified, clock.held)), Read(i)), Adopt(i, clock.saved))
  }

  /** All turns of one spend in a row. */
  function SpendAlone(s: Setting, d: Desk, r: PaymentRequest, seed: seq<bv8>, clock: R.Clock, id: string): Desk {
    var i := |d.flights|;
    var checked := Take(s, LooksUp(s, d, r, clock), Check(i, clock.checked));
    Take(s, Take(s, checked, Debit(i, seed, id, clock.stamped)), Write)
  }

  /** What the look-up leaves: the spend holds the active allowance, or is over. */
  lemma LookUpAlone(s: Setting, d: Desk, st: R.State, r: PaymentRequest, clock: R.Clock)
    requires Shows(d, st, Upper(r.currency)) && VerifyRequest(s, r, clock.verified) == Accepted
    ensures var (st1, active) := R.GetActive(st, r.currency, clock.held, clock.saved);
            var d1, i := LooksUp(s, d, r, clock), |d.flights|;
            && Shows(d1, st1, Upper(r.currency)) && d1.issued == d.issued && |d1.flights| == i + 1
            && d1.flights[i].request == r
            && if active.None? then d1.flights[i].stage == Over
               else d1.flights[i].stage.Holding? && d1.flights[i].stage.obj < |d1.objects|
                    && d1.memory == Some(d1.flights[i].stage.obj) && d1.objects[d1.flights[i].stage.obj] == active.value
  {
    hide Upper, VerifyRequest;
    UpperTwice(r.currency);
  }

  lemma CheckAndDebit(s: Setting, d: Desk, i: nat, checked: int, seed: seq<bv8>, id: string, now: int)
    requires i < |d.flights| && d.flights[i].stage.Holding? && d.flights[i].stage.obj < |d.objects| && d.writes == []
    ensures var o, r := d.flights[i].stage.obj, d.flights[i].request;
            var a := d.objects[o];
            var d' := Take(s, Take(s, Take(s, d, Check(i, checked)), Debit(i, seed, id, now)), Write);
            if R.IsExpired(a, checked) || a.remaining < r.amountMinorUnits || |seed| != 32
            then d'.objects == d.objects && d'.memory == d.memory && d'.saved == d.saved && d'.writes == []
                 && d'.issued == d.issued
            else
              var auth := CreateAuthorization(s, id, a.certificate.allowanceId, r, a.sequenceNumber + 1,
                                              a.lastStateHash, now, seed);
              && d'.objects == d.objects[o := R.Charged(a, auth)] && d'.memory == d.memory
              && d'.saved == Some(R.Charged(a, auth)) && d'.writes == [] && d'.issued == d.issued + [auth]
  {
    hide CreateAuthorization, R.Charged, R.IsExpired;
  }

  /**
   Alone, a spend does here what it does in the service: it issues the same authorization or none, and leaves the same
   allowance in memory and storage.
   */
  lemma SpendAloneIs(s: Setting, d: Desk, st: R.State, r: PaymentRequest, seed: seq<bv8>, clock: R.Clock, id: string,
                     confId: string)
    requires Shows(d, st, Upper(r.currency))
    requires var cur := Upper(r.currency);
             && (cur in st.held ==> Upper(st.held[cur].certificate.currency) == cur)
             && (cur in st.saved ==> Upper(st.saved[cur].certificate.currency) == cur)
    ensures var (st', o) := R.Spend(s, st, r, seed, clock, id, confId);
            var d' := SpendAlone(s, d, r, seed, clock, id);
            && Shows(d', st', Upper(r.currency))
            && d'.issued == if o.Issued? then d.issued + [o.authorization] else d.issued
  {
    hide Upper, VerifyRequest, Take, CreateAuthorization, CreateConfirmation, R.Charged, R.IsExpired, LooksUp;
    var i, cur := |d.flights|, Upper(r.currency);
    if VerifyRequest(s, r, clock.verified) != Accepted {
      RefusedAlone(s, d, r, seed, clock, id);
    } else {
      var (st1, active) := R.GetActive(st, r.currency, clock.held, clock.saved);
      LookUpAlone(s, d, st, r, clock);
      var d1 := LooksUp(s, d, r, clock);
      if active.None? {
        OverAlone(s, d1, i, clock.checked, seed, id, clock.stamped);
      } else {
        CheckAndDebit(s, d1, i, clock.checked, seed, id, clock.stamped);
        ActiveCurrency(st, r.currency, clock.held, clock.saved);
      }
    }
  }

  lemma RefusedAlone(s: Setting, d: Desk, r: PaymentRequest, seed: seq<bv8>, clock: R.Clock, id: string)
    requires VerifyRequest(s, r, clock.verified) != Accepted && d.writes == []
    ensures SpendAlone(s, d, r, seed, clock, id) == d
  {
    hide VerifyRequest, CreateAuthorization;
  }

  lemma OverAlone(s: Setting, d: Desk, i: nat, checked: int, seed: seq<bv8>, id: string, now: int)
    requires i < |d.flights| && d.flights[i].stage == Over && d.writes == []
    ensures Take(s, Take(s, Take(s, d, Check(i, checked)), Debit(i, seed, id, now)), Write) == d
  {
    hide CreateAuthorization;
  }

  lemma ActiveCurrency(st: R.State, currency: string, now: int, later: int)
    requires var cur := Upper(currency);
             && (cur in st.held ==> Upper(st.held[cur].certificate.currency) == cur)
             && (cur in st.saved ==> Upper(st.saved[cur].certificate.currency) == cur)
    ensures var active := R.GetActive(st, currency, now, later).1;
            active.Some? ==> Upper(active.value.certificate.currency) == Upper(currency)
  {
    hide Upper;
    UpperTwice(currency);
  }
}

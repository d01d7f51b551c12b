/**
 What overlapping spends issue: exactly when it is one chain, which look-ups keep it one, and the fork that two
 spends leave that both load the allowance after a restart.
 */
module ForkedChains {
  import opened Text
  import opened Payment
  import opened Authorizations
  import opened OverlappingSpends
  import R = Reserve

  // ----- the chain -----------------------------------------------------------------------------------

  /** A copy of the allowance as some number of the issued authorizations left it. */
  ghost predicate CopyOf(s: Setting, c: Certificate, issued: seq<Authorization>, a: R.Allowance) {
    && a.certificate == c && 0 <= a.sequenceNumber <= |issued|
    && a.lastStateHash == Tip(s, c, issued[..a.sequenceNumber])
    && a.remaining == c.initialAmountMinorUnits - Total(issued[..a.sequenceNumber])
  }

  /** The same, and whether all of them did is known. */
  ghost predicate CopyIf(s: Setting, c: Certificate, issued: seq<Authorization>, a: R.Allowance, latest: bool) {
    CopyOf(s, c, issued, a) && (latest <==> a.sequenceNumber == |issued|)
  }

  ghost predicate Copies(s: Setting, c: Certificate, issued: seq<Authorization>, objects: seq<R.Allowance>,
                         upToDate: set<nat>)
  {
    && (forall o :: o in upToDate ==> o < |objects|)
    && forall o :: 0 <= o < |objects| ==> CopyIf(s, c, issued, objects[o], o in upToDate)
  }

  ghost predicate Underway(s: Setting, c: Certificate, issued: seq<Authorization>, writes: seq<R.Allowance>) {
    forall w :: 0 <= w < |writes| ==> CopyIf(s, c, issued, writes[w], w == |writes| - 1)
  }

  ghost predicate Requests(c: Certificate, flights: seq<Flight>) {
    forall i :: 0 <= i < |flights| && !flights[i].stage.Over? ==>
      flights[i].request.amountMinorUnits > 0 && Upper(flights[i].request.currency) == Upper(c.currency)
  }

  /** What was issued is one chain, and every copy of the allowance is some stage of it. */
  ghost predicate Linked(s: Setting, c: Certificate, d: Desk) {
    && Chained(s, c, d.issued) && Requests(c, d.flights)
    && Copies(s, c, d.issued, d.objects, d.upToDate) && Underway(s, c, d.issued, d.writes)
    && (d.saved.Some? ==> CopyIf(s, c, d.issued, d.saved.value, d.stored))
  }

  /** Spends of this currency: that is how the allowance was found. */
  ghost predicate InCurrency(c: Certificate, t: Turn) {
    t.Look? ==> Upper(t.request.currency) == Upper(c.currency)
  }

  /** A debit is on time when its object is of the last debit. */
  ghost predicate OnTime(d: Desk, t: Turn) { Debits(d, t) ==> Source(d, t) in d.upToDate }

  ghost predicate AllOnTime(s: Setting, d: Desk, turns: seq<Turn>) {
    forall i :: 0 <= i < |turns| ==> OnTime(TakeAll(s, d, turns[..i]), turns[i])
  }

  lemma LookKeepsLinked(s: Setting, c: Certificate, d: Desk, t: Turn)
    requires Linked(s, c, d) && InCurrency(c, t) && t.Look?
    ensures Linked(s, c, Take(s, d, t))
  {
    hide Chained, Copies, Underway, CopyIf, Upper, CheckSignature, ChecksumMatches, RequestBody, R.IsExpired;
  }

  lemma ReadKeepsLinked(s: Setting, c: Certificate, d: Desk, t: Turn)
    requires Linked(s, c, d) && t.Read?
    ensures Linked(s, c, Take(s, d, t))
  {
    hide Chained, CopyIf, Underway, Upper;
    var d' := Take(s, d, t);
    forall o | 0 <= o < |d'.objects| ensures CopyIf(s, c, d'.issued, d'.objects[o], o in d'.upToDate) {
      if o < |d.objects| { assert CopyIf(s, c, d.issued, d.objects[o], o in d.upToDate); }
    }
  }

  lemma WriteKeepsLinked(s: Setting, c: Certificate, d: Desk, t: Turn)
    requires Linked(s, c, d) && t.Write?
    ensures Linked(s, c, Take(s, d, t))
  {
    hide Chained, CopyIf, Copies, Requests;
    var d' := Take(s, d, t);
    if d.writes != [] {
      assert CopyIf(s, c, d.issued, d.writes[0], 0 == |d.writes| - 1);
      forall w | 0 <= w < |d'.writes| ensures CopyIf(s, c, d'.issued, d'.writes[w], w == |d'.writes| - 1) {
        assert CopyIf(s, c, d.issued, d.writes[w + 1], w + 1 == |d.writes| - 1);
      }
    }
  }

  lemma MoveKeepsLinked(s: Setting, c: Certificate, d: Desk, i: nat, stage: Stage, memory: Option<nat>)
    requires Linked(s, c, d) && i < |d.flights| && !d.flights[i].stage.Over?
    ensures Linked(s, c, Move(d, i, stage).(memory := memory))
  {
    hide Chained, CopyIf, Copies, Underway, Upper;
  }

  lemma TurnKeepsLinked(s: Setting, c: Certificate, d: Desk, t: Turn)
    requires Linked(s, c, d) && InCurrency(c, t) && !Debits(d, t)
    ensures Linked(s, c, Take(s, d, t)) && Take(s, d, t).issued == d.issued
  {
    hide Linked, R.IsExpired, VerifyRequest, InCurrency;
    match t
    case Look(_, _, _) => LookKeepsLinked(s, c, d, t);
    case Read(_) => ReadKeepsLinked(s, c, d, t);
    case Write => WriteKeepsLinked(s, c, d, t);
    case Debit(i, _, _, _) =>
      if i < |d.flights| && d.flights[i].stage.Checked? { MoveKeepsLinked(s, c, d, i, Over, d.memory); }
    case Adopt(i, _) =>
      if i < |d.flights| && d.flights[i].stage.Loaded? {
        var o := d.flights[i].stage.obj;
        MoveKeepsLinked(s, c, d, i, Over, d.memory);
        MoveKeepsLinked(s, c, d, i, Holding(o), Some(o));
      }
    case Check(i, _) =>
      if i < |d.flights| && d.flights[i].stage.Holding? {
        MoveKeepsLinked(s, c, d, i, Over, d.memory);
        MoveKeepsLinked(s, c, d, i, Checked(d.flights[i].stage.obj), d.memory);
      }
  }

  /** A stage of the chain stays one when an authorization is added, and is no longer the last. */
  lemma CopyAges(s: Setting, c: Certificate, issued: seq<Authorization>, a: R.Allowance, auth: Authorization,
                 latest: bool)
    requires CopyIf(s, c, issued, a, latest)
    ensures CopyIf(s, c, issued + [auth], a, false)
  {
    hide Tip, Total;
    assert (issued + [auth])[..a.sequenceNumber] == issued[..a.sequenceNumber];
  }

  lemma ChargedCopy(s: Setting, c: Certificate, issued: seq<Authorization>, a: R.Allowance, auth: Authorization)
    requires CopyIf(s, c, issued, a, true) && auth.sequenceNumber == a.sequenceNumber + 1
    ensures CopyIf(s, c, issued + [auth], R.Charged(a, auth), true)
  {
    hide Tip, Total;
    assert issued[..|issued|] == issued && (issued + [auth])[..|issued| + 1] == issued + [auth];
    R.TipAppend(s, c, issued, auth);
    TotalAppend(issued, auth);
  }

  lemma SourceIsCopy(s: Setting, c: Certificate, d: Desk, t: Turn)
    requires Linked(s, c, d) && Debits(d, t)
    ensures CopyIf(s, c, d.issued, d.objects[Source(d, t)], Source(d, t) in d.upToDate)
    ensures var r := d.flights[t.flight].request;
            r.amountMinorUnits > 0 && Upper(r.currency) == Upper(c.currency)
  {
    hide Chained, CopyIf, Underway, Upper;
  }

  lemma DebitChains(s: Setting, c: Certificate, d: Desk, t: Turn)
    requires Linked(s, c, d) && Debits(d, t) && Source(d, t) in d.upToDate
    ensures Chained(s, c, d.issued + [Authorized(s, d, t)])
  {
    hide Chained, Tip, Total, Upper, ChecksumOf, StateBody, CreateAuthorization, Copies, Underway, Requests;
    AuthorizedFields(s, d, t);
    SourceIsCopy(s, c, d, t);
    hide Authorized;
    assert d.issued[..|d.issued|] == d.issued;
    ChainedAppend(s, c, d.issued, Authorized(s, d, t));
  }

  lemma ObjectsAge(s: Setting, c: Certificate, issued: seq<Authorization>, objects: seq<R.Allowance>,
                   upToDate: set<nat>, o: nat, auth: Authorization)
    requires Copies(s, c, issued, objects, upToDate)
    requires o < |objects| && o in upToDate && auth.sequenceNumber == objects[o].sequenceNumber + 1
    ensures Copies(s, c, issued + [auth], objects[o := R.Charged(objects[o], auth)], {o})
  {
    hide CopyIf, R.Charged;
    var objects' := objects[o := R.Charged(objects[o], auth)];
    ChargedCopy(s, c, issued, objects[o], auth);
    forall k | 0 <= k < |objects'| ensures CopyIf(s, c, issued + [auth], objects'[k], k in {o}) {
      if k != o { CopyAges(s, c, issued, objects[k], auth, k in upToDate); }
    }
  }

  lemma WritesAge(s: Setting, c: Certificate, issued: seq<Authorization>, writes: seq<R.Allowance>, a: R.Allowance,
                  auth: Authorization)
    requires Underway(s, c, issued, writes) && CopyIf(s, c, issued + [auth], a, true)
    ensures Underway(s, c, issued + [auth], writes + [a])
  {
    hide CopyIf;
    var writes' := writes + [a];
    forall w | 0 <= w < |writes'| ensures CopyIf(s, c, issued + [auth], writes'[w], w == |writes'| - 1) {
      if w < |writes| { CopyAges(s, c, issued, writes[w], auth, w == |writes| - 1); }
    }
  }

  lemma DebitIsNow(s: Setting, d: Desk, t: Turn)
    requires Debits(d, t)
    ensures Take(s, d, t) == DebitNow(s, d, t)
  {
    hide DebitNow;
  }

  lemma DebitKeepsLinked(s: Setting, c: Certificate, d: Desk, t: Turn)
    requires Linked(s, c, d) && Debits(d, t) && Source(d, t) in d.upToDate
    ensures Linked(s, c, Take(s, d, t))
  {
    hide Chained, CopyIf, Copies, Underway, CreateAuthorization, R.Charged, ChecksumOf, StateBody, Upper, Authorized,
         Take;
    AuthorizedFields(s, d, t);
    DebitChains(s, c, d, t);
    SourceIsCopy(s, c, d, t);
    DebitIsNow(s, d, t);
    var o, auth := Source(d, t), Authorized(s, d, t);
    ChargedCopy(s, c, d.issued, d.objects[o], auth);
    ObjectsAge(s, c, d.issued, d.objects, d.upToDate, o, auth);
    WritesAge(s, c, d.issued, d.writes, R.Charged(d.objects[o], auth), auth);
    if d.saved.Some? { CopyAges(s, c, d.issued, d.saved.value, auth, d.stored); }
  }

  /** Two authorizations with one number and one previous hash. */
  ghost predicate Forked(issued: seq<Authorization>) {
    exists i, j :: 0 <= i < j < |issued| && Twins(issued[i], issued[j])
  }

  ghost predicate Twins(a: Authorization, b: Authorization) {
    a.sequenceNumber == b.sequenceNumber && a.previousAuthHash == b.previousAuthHash
  }

  lemma ForkedIsNotChained(s: Setting, c: Certificate, issued: seq<Authorization>)
    requires Forked(issued)
    ensures !Chained(s, c, issued)
  {
    hide Tip, ChecksumOf, StateBody, Upper;
  }

  /** A debit of an object that is not of the last debit forks the chain. */
  lemma LateDebitForks(s: Setting, c: Certificate, d: Desk, t: Turn)
    requires Linked(s, c, d) && Debits(d, t) && Source(d, t) !in d.upToDate
    ensures Forked(Take(s, d, t).issued)
  {
    hide Tip, Total, Upper, ChecksumOf, StateBody, CreateAuthorization;
    AuthorizedFields(s, d, t);
    SourceIsCopy(s, c, d, t);
    hide Authorized, Copies, Underway, Requests;
    var a, auth, d' := d.objects[Source(d, t)], Authorized(s, d, t), Take(s, d, t);
    var k, n := a.sequenceNumber, |d.issued|;
    assert d'.issued == d.issued + [auth];
    assert d'.issued[k] == d.issued[k] && d'.issued[n] == auth;
    assert Twins(d'.issued[k], d'.issued[n]);
  }

  lemma ForkStays(s: Setting, d: Desk, t: Turn)
    requires Forked(d.issued)
    ensures Forked(Take(s, d, t).issued)
  {
    hide Twins, VerifyRequest, Authorized, R.Charged, R.IsExpired;
    var i, j :| 0 <= i < j < |d.issued| && Twins(d.issued[i], d.issued[j]);
    var issued := Take(s, d, t).issued;
    assert issued[i] == d.issued[i] && issued[j] == d.issued[j];
  }

  lemma FrontOnTime(s: Setting, d: Desk, turns: seq<Turn>)
    requires turns != []
    ensures var n := |turns| - 1;
            AllOnTime(s, d, turns) <==> AllOnTime(s, d, turns[..n]) && OnTime(TakeAll(s, d, turns[..n]), turns[n])
  {
    hide TakeAll, OnTime;
    var n := |turns| - 1;
    forall i | 0 <= i < n ensures turns[..n][..i] == turns[..i] {}
  }

  /**
   Exactly when a run stays one chain: when every debit is of an object of the last debit. Then numbers and
   hashes are linked and every copy is a stage of the chain; otherwise two authorizations are issued with one
   number and one previous hash.
   */
  lemma {:induction false} ChainedIff(s: Setting, c: Certificate, d: Desk, turns: seq<Turn>)
    requires Linked(s, c, d) && forall i :: 0 <= i < |turns| ==> InCurrency(c, turns[i])
    ensures var d' := TakeAll(s, d, turns);
            && (Chained(s, c, d'.issued) <==> AllOnTime(s, d, turns))
            && (if AllOnTime(s, d, turns) then Linked(s, c, d') else Forked(d'.issued))
  {
    hide Take, OnTime, InCurrency;
    if turns == [] {
      hide CopyIf, Chained, Forked, Upper;
    } else {
      hide AllOnTime, Linked, Chained, Forked;
      var n := |turns| - 1;
      FrontOnTime(s, d, turns);
      ChainedIff(s, c, d, turns[..n]);
      LastOnTime(s, c, TakeAll(s, d, turns[..n]), turns[n]);
    }
  }

  lemma LastOnTime(s: Setting, c: Certificate, d: Desk, t: Turn)
    requires InCurrency(c, t)
    ensures Linked(s, c, d) && OnTime(d, t) ==> Linked(s, c, Take(s, d, t)) && Chained(s, c, Take(s, d, t).issued)
    ensures Linked(s, c, d) && !OnTime(d, t) ==> Forked(Take(s, d, t).issued)
    ensures Forked(d.issued) ==> Forked(Take(s, d, t).issued)
    ensures Forked(Take(s, d, t).issued) ==> !Chained(s, c, Take(s, d, t).issued)
  {
    hide Take, CopyIf, Chained, Forked, InCurrency, Debits, Upper;
    if Linked(s, c, d) {
      if !Debits(d, t) {
        TurnKeepsLinked(s, c, d, t);
      } else if OnTime(d, t) {
        DebitKeepsLinked(s, c, d, t);
      } else {
        LateDebitForks(s, c, d, t);
      }
    }
    if Forked(d.issued) { ForkStays(s, d, t); }
    if Forked(Take(s, d, t).issued) { ForkedIsNotChained(s, c, Take(s, d, t).issued); }
  }

  // ----- looks that keep apart -------------------------------------------------------------------------

  /** The spend waits for the storage. */
  predicate LoadingAt(d: Desk, i: nat)
    requires i < |d.flights|
  {
    d.flights[i].stage.Loading? || d.flights[i].stage.Loaded?
  }

  ghost predicate NoneLoading(d: Desk) { forall i :: 0 <= i < |d.flights| ==> !LoadingAt(d, i) }

  /** No spend is under way, nor a write of one. */
  ghost predicate Idle(d: Desk) {
    d.writes == [] && forall i :: 0 <= i < |d.flights| ==> d.flights[i].stage.Over?
  }

  /**
   No spend begins while another loads its allowance, and one that will load its own begins only when no other
   is under way.
   */
  ghost predicate Apart(s: Setting, d: Desk, t: Turn) {
    t.Look? && VerifyRequest(s, t.request, t.verified) == Accepted ==> NoneLoading(d) && (Hits(d, t.held) || Idle(d))
  }

  ghost predicate AllApart(s: Setting, d: Desk, turns: seq<Turn>) {
    forall i :: 0 <= i < |turns| ==> Apart(s, TakeAll(s, d, turns[..i]), turns[i])
  }

  ghost predicate TidyAt(d: Desk, i: nat)
    requires i < |d.flights|
  {
    match d.flights[i].stage
    case Over => true
    case Holding(o) => d.memory == Some(o)
    case Checked(o) => d.memory == Some(o)
    case Loading => AloneAt(d, i)
    case Loaded(o) => AloneAt(d, i) && o in d.upToDate && d.memory != Some(o)
  }

  ghost predicate AloneAt(d: Desk, i: nat) {
    d.writes == [] && forall j :: 0 <= j < |d.flights| && j != i ==> d.flights[j].stage.Over?
  }

  /** Every spend is of the object in memory, which is of the last debit, or loads it with no other under way. */
  ghost predicate Tidy(d: Desk) {
    && (forall o :: o in d.upToDate ==> o < |d.objects|)
    && (d.memory.Some? ==> d.memory.value in d.upToDate)
    && (d.stored <==> d.writes == [])
    && forall i :: 0 <= i < |d.flights| ==> TidyAt(d, i)
  }

  lemma LookKeepsTidy(s: Setting, d: Desk, t: Turn)
    requires Tidy(d) && t.Look? && Apart(s, d, t)
    ensures Tidy(Take(s, d, t))
  {
    hide VerifyRequest, R.IsExpired;
    var d' := Take(s, d, t);
    forall i | 0 <= i < |d'.flights| ensures TidyAt(d', i) {
      if i < |d.flights| {
        assert TidyAt(d, i);
        assert VerifyRequest(s, t.request, t.verified) == Accepted ==> !LoadingAt(d, i);
      }
    }
  }

  lemma ReadKeepsTidy(s: Setting, d: Desk, t: Turn)
    requires Tidy(d) && t.Read?
    ensures Tidy(Take(s, d, t))
  {
    var d' := Take(s, d, t);
    forall i | 0 <= i < |d'.flights| ensures TidyAt(d', i) {
      assert TidyAt(d, i);
      if At(d, t.flight, Loading) { assert TidyAt(d, t.flight); }
    }
  }

  lemma AdoptKeepsTidy(s: Setting, d: Desk, t: Turn)
    requires Tidy(d) && t.Adopt?
    ensures Tidy(Take(s, d, t))
  {
    hide R.IsExpired;
    var d' := Take(s, d, t);
    forall i | 0 <= i < |d'.flights| ensures TidyAt(d', i) {
      assert TidyAt(d, i);
      if t.flight < |d.flights| { assert TidyAt(d, t.flight); }
    }
    if t.flight < |d.flights| { assert TidyAt(d, t.flight); }
  }

  lemma CheckKeepsTidy(s: Setting, d: Desk, t: Turn)
    requires Tidy(d) && (t.Check? || (t.Debit? && !Debits(d, t)))
    ensures Tidy(Take(s, d, t))
  {
    hide R.IsExpired;
    var d' := Take(s, d, t);
    forall i | 0 <= i < |d'.flights| ensures TidyAt(d', i) {
      assert TidyAt(d, i);
      if t.flight < |d.flights| { assert TidyAt(d, t.flight); }
    }
  }

  lemma DebitKeepsTidy(s: Setting, d: Desk, t: Turn)
    requires Tidy(d) && Debits(d, t)
    ensures Tidy(DebitNow(s, d, t)) && Source(d, t) in d.upToDate
  {
    hide Authorized, R.Charged;
    var d' := DebitNow(s, d, t);
    assert TidyAt(d, t.flight);
    forall i | 0 <= i < |d'.flights| ensures TidyAt(d', i) { assert TidyAt(d, i); }
  }

  lemma WriteKeepsTidy(s: Setting, d: Desk, t: Turn)
    requires Tidy(d) && t.Write?
    ensures Tidy(Take(s, d, t))
  {
    var d' := Take(s, d, t);
    forall i | 0 <= i < |d'.flights| ensures TidyAt(d', i) { assert TidyAt(d, i); }
  }

  lemma TurnKeepsTidy(s: Setting, d: Desk, t: Turn)
    requires Tidy(d) && Apart(s, d, t)
    ensures Tidy(Take(s, d, t)) && OnTime(d, t)
  {
    hide Tidy, Take, DebitNow, Apart;
    match t
    case Look(_, _, _) => LookKeepsTidy(s, d, t);
    case Read(_) => ReadKeepsTidy(s, d, t);
    case Adopt(_, _) => AdoptKeepsTidy(s, d, t);
    case Check(_, _) => CheckKeepsTidy(s, d, t);
    case Write => WriteKeepsTidy(s, d, t);
    case Debit(_, _, _, _) =>
      if Debits(d, t) { DebitKeepsTidy(s, d, t); DebitIsNow(s, d, t); } else { CheckKeepsTidy(s, d, t); }
  }

  lemma FrontApart(s: Setting, d: Desk, turns: seq<Turn>)
    requires turns != [] && AllApart(s, d, turns)
    ensures var n := |turns| - 1; AllApart(s, d, turns[..n]) && Apart(s, TakeAll(s, d, turns[..n]), turns[n])
  {
    hide TakeAll, Apart;
    var n := |turns| - 1;
    forall i | 0 <= i < n ensures turns[..n][..i] == turns[..i] {}
  }

  lemma {:induction false} ApartOnTime(s: Setting, d: Desk, turns: seq<Turn>)
    requires Tidy(d) && AllApart(s, d, turns)
    ensures Tidy(TakeAll(s, d, turns)) && AllOnTime(s, d, turns)
  {
    hide Tidy, Take, Apart, AllApart, OnTime;
    if turns != [] {
      var n := |turns| - 1;
      FrontApart(s, d, turns);
      ApartOnTime(s, d, turns[..n]);
      TurnKeepsTidy(s, TakeAll(s, d, turns[..n]), turns[n]);
      FrontOnTime(s, d, turns);
    }
  }

  /**
   When look-ups keep apart, what is issued is one chain in any interleaving, however spends overlap after them.
   */
  lemma ApartChained(s: Setting, c: Certificate, d: Desk, turns: seq<Turn>)
    requires Linked(s, c, d) && Tidy(d) && AllApart(s, d, turns)
    requires forall i :: 0 <= i < |turns| ==> InCurrency(c, turns[i])
    ensures Linked(s, c, TakeAll(s, d, turns)) && Tidy(TakeAll(s, d, turns))
  {
    hide Linked, Tidy, AllApart, AllOnTime, TakeAll, InCurrency, Forked, Chained;
    ApartOnTime(s, d, turns);
    ChainedIff(s, c, d, turns);
  }

  lemma TurnKeepsSaved(s: Setting, d: Desk, t: Turn)
    requires d.saved.Some?
    ensures Take(s, d, t).saved.Some?
  {
    hide VerifyRequest, R.IsExpired, Authorized, R.Charged;
  }

  lemma {:induction false} RunKeepsSaved(s: Setting, d: Desk, turns: seq<Turn>)
    requires d.saved.Some?
    ensures TakeAll(s, d, turns).saved.Some?
  {
    hide Take;
    if turns != [] {
      RunKeepsSaved(s, d, turns[..|turns| - 1]);
      TurnKeepsSaved(s, TakeAll(s, d, turns[..|turns| - 1]), turns[|turns| - 1]);
    }
  }

  /** The latest copy on its way to storage, or there, tells what is left of the allowance. */
  lemma LatestCopy(s: Setting, c: Certificate, d: Desk) returns (a: R.Allowance)
    requires Linked(s, c, d) && Tidy(d) && Covered(d) && d.saved.Some?
    ensures a.remaining == c.initialAmountMinorUnits - Total(d.issued) && a.remaining >= 0
  {
    hide Chained, Requests, Copies, Tip, Total, CoveredAt;
    a := if d.writes == [] then d.saved.value else d.writes[|d.writes| - 1];
    assert CopyIf(s, c, d.issued, a, true);
    assert d.issued[..|d.issued|] == d.issued;
  }

  /**
   When look-ups keep apart and spends are checked one at a time, the authorizations issued on an allowance never
   exceed its amount, in any interleaving.
   */
  lemma NeverOverspent(s: Setting, c: Certificate, d: Desk, turns: seq<Turn>)
    requires Linked(s, c, d) && Tidy(d) && Covered(d) && d.saved.Some?
    requires AllApart(s, d, turns) && ChecksAlone(s, d, turns)
    requires forall i :: 0 <= i < |turns| ==> InCurrency(c, turns[i])
    ensures Total(TakeAll(s, d, turns).issued) <= c.initialAmountMinorUnits
  {
    hide Linked, Tidy, Covered, AllApart, ChecksAlone, TakeAll, InCurrency, Total;
    ApartChained(s, c, d, turns);
    OneByOneCovered(s, d, turns);
    RunKeepsSaved(s, d, turns);
    var a := LatestCopy(s, c, TakeAll(s, d, turns));
  }

  // ----- looks that cross ------------------------------------------------------------------------------

  /** The allowance that the spend has, or will load, covers it. */
  predicate CanPay(d: Desk, i: nat)
    requires i < |d.flights|
  {
    match d.flights[i].stage
    case Loading => d.saved.Some? && d.flights[i].request.amountMinorUnits <= d.saved.value.remaining
    case Loaded(o) => o < |d.objects| && d.flights[i].request.amountMinorUnits <= d.objects[o].remaining
    case Holding(o) => o < |d.objects| && d.flights[i].request.amountMinorUnits <= d.objects[o].remaining
    case Checked(o) => o < |d.objects|
    case Over => true
  }

  /** The object a spend goes on with: its own, or the next to be read. */
  function Destined(d: Desk, i: nat): nat
    requires i < |d.flights| && !d.flights[i].stage.Over?
  {
    if d.flights[i].stage.Loading? then |d.objects| else d.flights[i].stage.obj
  }

  function NextTurn(d: Desk, c: Certificate, i: nat): Turn
    requires i < |d.flights| && !d.flights[i].stage.Over? && !d.flights[i].stage.Checked?
  {
    match d.flights[i].stage
    case Loading => Read(i)
    case Loaded(_) => Adopt(i, c.expiresAt)
    case Holding(_) => Check(i, c.expiresAt)
  }

  /** Nothing of a desk changes but one spend, which gets its object, and what was read for it. */
  ghost predicate OnlyAdvanced(d: Desk, d': Desk, i: nat)
    requires i < |d.flights| && !d.flights[i].stage.Over?
  {
    && i < |d'.flights| && d'.flights == d.flights[i := d'.flights[i]] && !d'.flights[i].stage.Over?
    && d'.flights[i].request == d.flights[i].request
    && d'.issued == d.issued && d'.saved == d.saved && d'.writes == d.writes && d'.stored == d.stored
    && |d.objects| <= |d'.objects| && d'.objects[..|d.objects|] == d.objects
    && Destined(d', i) == Destined(d, i)
    && d'.upToDate == d.upToDate + if d.stored && d.flights[i].stage.Loading? && !d'.flights[i].stage.Loading?
                                   then {Destined(d, i)} else {}
  }

  lemma Advance(s: Setting, c: Certificate, d: Desk, i: nat)
    requires Linked(s, c, d) && i < |d.flights| && !d.flights[i].stage.Over? && !d.flights[i].stage.Checked?
    requires CanPay(d, i)
    ensures var d' := Take(s, d, NextTurn(d, c, i));
            Linked(s, c, d') && OnlyAdvanced(d, d', i) && CanPay(d', i)
            && (d.flights[i].stage.Loading? ==> d'.flights[i].stage.Loaded?)
            && (d.flights[i].stage.Loaded? ==> d'.flights[i].stage.Holding?)
            && (d.flights[i].stage.Holding? ==> d'.flights[i].stage.Checked?)
  {
    hide Chained, Requests, Underway, Tip, Total, CopyOf;
    TurnKeepsLinked(s, c, d, NextTurn(d, c, i));
    if !d.flights[i].stage.Loading? { ObjectsOf(s, c, d, d.flights[i].stage.obj); }
  }

  lemma ObjectsOf(s: Setting, c: Certificate, d: Desk, o: nat)
    requires Linked(s, c, d) && o < |d.objects|
    ensures d.objects[o].certificate == c
  {
    hide Chained, Requests, Underway, Tip, Total;
    assert CopyIf(s, c, d.issued, d.objects[o], o in d.upToDate);
  }

  ghost predicate NoLooks(turns: seq<Turn>) { forall i :: 0 <= i < |turns| ==> !turns[i].Look? }

  /** A spend that is covered can be brought to its debit, and nothing else changes. */
  lemma {:induction false} Bring(s: Setting, c: Certificate, d: Desk, i: nat) returns (turns: seq<Turn>)
    requires Linked(s, c, d) && i < |d.flights| && !d.flights[i].stage.Over? && CanPay(d, i)
    ensures NoLooks(turns)
    ensures var d' := TakeAll(s, d, turns);
            Linked(s, c, d') && OnlyAdvanced(d, d', i) && d'.flights[i].stage.Checked? && CanPay(d', i)
    decreases match d.flights[i].stage case Loading => 3 case Loaded(_) => 2 case Holding(_) => 1 case _ => 0
  {
    hide Linked, Take;
    if d.flights[i].stage.Checked? {
      turns := [];
    } else {
      var t := NextTurn(d, c, i);
      Advance(s, c, d, i);
      var d1 := Take(s, d, t);
      var more := Bring(s, c, d1, i);
      turns := [t] + more;
      TakeMore(s, d, [t], more);
      OneTurn(s, d, t);
    }
  }

  lemma OneTurn(s: Setting, d: Desk, t: Turn)
    ensures TakeAll(s, d, [t]) == Take(s, d, t)
  {
    NoTurns(s, d);
    TakeLast(s, d, [], t);
    assert [] + [t] == [t];
  }

  /** Two spends that wait for their debits from two objects fork the chain. */
  lemma CrossDebits(s: Setting, c: Certificate, d: Desk, p: Turn, q: Turn)
    requires Linked(s, c, d) && Debits(d, p) && Debits(d, q) && p.flight != q.flight && Source(d, p) != Source(d, q)
    ensures Forked(TakeAll(s, d, [p, q]).issued)
  {
    hide Linked, Forked, Authorized, R.Charged, TakeAll;
    OneTurn(s, d, p);
    TakeMore(s, d, [p], [q]);
    assert [p] + [q] == [p, q];
    var d1 := Take(s, d, p);
    OneTurn(s, d1, q);
    if Source(d, p) in d.upToDate {
      DebitKeepsLinked(s, c, d, p);
      assert Debits(d1, q) && Source(d1, q) == Source(d, q) && d1.upToDate == {Source(d, p)};
      hide Take;
      LateDebitForks(s, c, d1, q);
    } else {
      hide Take;
      LateDebitForks(s, c, d, p);
      ForkStays(s, d1, q);
    }
  }

  /** Every spend under way is covered, once the look-up has begun. */
  ghost predicate AllCanPay(d: Desk) { forall i :: 0 <= i < |d.flights| ==> CanPay(d, i) }

  function DebitOf(i: nat, seed: seq<bv8>): Turn { Debit(i, seed, "", 0) }

  lemma StillCanPay(d: Desk, d': Desk, i: nat, k: nat)
    requires i < |d.flights| && k < |d.flights| && i != k && !d.flights[i].stage.Over? && OnlyAdvanced(d, d', i)
    requires CanPay(d, k)
    ensures d'.flights[k] == d.flights[k] && CanPay(d', k)
  {
    assert forall o :: 0 <= o < |d.objects| ==> d'.objects[o] == d.objects[..|d.objects|][o] == d.objects[o];
  }

  /** A copy read before the last debit is written forks the chain on its own. */
  lemma EarlyReadForks(s: Setting, c: Certificate, d: Desk, n: nat, seed: seq<bv8>) returns (turns: seq<Turn>)
    requires Linked(s, c, d) && !d.stored && n < |d.flights| && d.flights[n].stage.Loading? && CanPay(d, n)
    requires |seed| == 32 && forall o :: o in d.upToDate ==> o < |d.objects|
    ensures NoLooks(turns) && Forked(TakeAll(s, d, turns).issued)
  {
    hide Linked, Take, TakeAll, Forked;
    var x := Bring(s, c, d, n);
    var d', p := TakeAll(s, d, x), DebitOf(n, seed);
    assert Debits(d', p) && Source(d', p) == |d.objects|;
    LateDebitForks(s, c, d', p);
    TakeLast(s, d, x, p);
    turns := x + [p];
  }

  /** Two spends that end on two objects fork the chain. */
  lemma TwoObjectsFork(s: Setting, c: Certificate, d: Desk, j: nat, n: nat, seed: seq<bv8>) returns (turns: seq<Turn>)
    requires Linked(s, c, d) && j < |d.flights| && n < |d.flights| && j != n && |seed| == 32
    requires !d.flights[j].stage.Over? && !d.flights[n].stage.Over? && CanPay(d, j) && CanPay(d, n)
    requires !d.flights[n].stage.Loading? ==> Destined(d, j) != d.flights[n].stage.obj
    ensures NoLooks(turns) && Forked(TakeAll(s, d, turns).issued)
  {
    hide Linked, Take, TakeAll, Forked;
    var x := Bring(s, c, d, j);
    var d1 := TakeAll(s, d, x);
    StillCanPay(d, d1, j, n);
    var y := Bring(s, c, d1, n);
    var d2, p, q := TakeAll(s, d1, y), DebitOf(j, seed), DebitOf(n, seed);
    StillCanPay(d1, d2, n, j);
    assert Debits(d2, p) && Debits(d2, q) && Source(d2, p) != Source(d2, q);
    CrossDebits(s, c, d2, p, q);
    TakeMore(s, d, x, y);
    TakeMore(s, d, x + y, [p, q]);
    turns := x + y + [p, q];
  }

  /** A look-up that does not keep apart, while every spend under way is covered, has a continuation that forks. */
  lemma CrossedLookForks(s: Setting, c: Certificate, d: Desk, t: Turn, seed: seq<bv8>) returns (turns: seq<Turn>)
    requires Linked(s, c, d) && Tidy(d) && InCurrency(c, t) && !Apart(s, d, t) && |seed| == 32
    requires AllCanPay(Take(s, d, t))
    ensures NoLooks(turns) && Forked(TakeAll(s, Take(s, d, t), turns).issued)
  {
    hide Linked, VerifyRequest, R.IsExpired, TakeAll, Forked, CanPay, InCurrency;
    LookKeepsLinked(s, c, d, t);
    var d', n := Take(s, d, t), |d.flights|;
    assert CanPay(d', n);
    if d.writes != [] {
      forall i | 0 <= i < n ensures !LoadingAt(d, i) { assert TidyAt(d, i); }
      turns := EarlyReadForks(s, c, d', n, seed);
    } else {
      var j := OtherSpend(s, d, t);
      assert TidyAt(d, j) && CanPay(d', j);
      turns := TwoObjectsFork(s, c, d', j, n, seed);
    }
  }

  /** The other spend: one that loads, if any does. */
  lemma OtherSpend(s: Setting, d: Desk, t: Turn) returns (j: nat)
    requires Tidy(d) && !Apart(s, d, t) && d.writes == []
    ensures j < |d.flights| && !d.flights[j].stage.Over? && (LoadingAt(d, j) || !Hits(d, t.held))
  {
    hide VerifyRequest, R.IsExpired;
    if !NoneLoading(d) {
      var i :| 0 <= i < |d.flights| && LoadingAt(d, i);
      j := i;
    } else {
      var i :| 0 <= i < |d.flights| && !d.flights[i].stage.Over?;
      j := i;
    }
  }

  lemma QuietIsApart(s: Setting, d: Desk, turns: seq<Turn>)
    requires NoLooks(turns)
    ensures AllApart(s, d, turns)
  {
    hide TakeAll, NoneLoading, Idle;
  }

  /**
   Exactly which look-ups are safe. From a state in which look-ups kept apart so far, and while the spends under way
   are covered: no continuation without further look-ups issues two authorizations with one number and one previous
   hash, if and only if this look-up keeps apart, too.
   */
  lemma LookSafeIff(s: Setting, c: Certificate, d: Desk, t: Turn)
    requires Linked(s, c, d) && Tidy(d) && t.Look? && InCurrency(c, t) && AllCanPay(Take(s, d, t))
    ensures Apart(s, d, t) <==>
            forall turns :: NoLooks(turns) ==> !Forked(TakeAll(s, Take(s, d, t), turns).issued)
  {
    hide Linked, Tidy, Take, TakeAll, Forked, Apart, InCurrency, AllCanPay, Chained;
    if Apart(s, d, t) {
      TurnKeepsTidy(s, d, t);
      LookKeepsLinked(s, c, d, t);
      forall turns | NoLooks(turns) ensures !Forked(TakeAll(s, Take(s, d, t), turns).issued) {
        QuietIsUnforked(s, c, Take(s, d, t), turns);
      }
    } else {
      var turns := CrossedLookForks(s, c, d, t, seq(32, _ => 0));
    }
  }

  lemma QuietIsUnforked(s: Setting, c: Certificate, d: Desk, turns: seq<Turn>)
    requires Linked(s, c, d) && Tidy(d) && NoLooks(turns)
    ensures !Forked(TakeAll(s, d, turns).issued)
  {
    hide Tidy, Forked, TakeAll, Chained, AllApart;
    QuietIsApart(s, d, turns);
    ApartChained(s, c, d, turns);
    if Forked(TakeAll(s, d, turns).issued) { ForkedIsNotChained(s, c, TakeAll(s, d, turns).issued); }
  }

  // ----- two spends after a restart ----------------------------------------------------------------------

  /** A new instance over a stored allowance. */
  function Restarted(a: R.Allowance, issued: seq<Authorization>): Desk {
    Desk([], None, Some(a), [], issued, [], {}, true)
  }

  lemma RestartedIsLinked(s: Setting, c: Certificate, a: R.Allowance, issued: seq<Authorization>)
    requires Chained(s, c, issued) && CopyIf(s, c, issued, a, true)
    ensures Linked(s, c, Restarted(a, issued)) && Tidy(Restarted(a, issued))
    ensures a.remaining >= 0 ==> Covered(Restarted(a, issued))
  {
    hide Chained, CopyIf;
  }

  /** Both spends look up an allowance before either has read it, and read, adopt and check it in turn. */
  function BothStart(r: PaymentRequest, r': PaymentRequest, now: int): seq<Turn> {
    [Look(r, now, now), Look(r', now, now), Read(0), Read(1),
     Adopt(0, now), Adopt(1, now), Check(0, now), Check(1, now)]
  }

  function BothPay(seed: seq<bv8>, id: string, id': string, now: int): seq<Turn> {
    [Debit(0, seed, id, now), Debit(1, seed, id', now), Write, Write]
  }

  /** Both spends hold an object of their own and wait for their debits. */
  function TwoObjects(a: R.Allowance, issued: seq<Authorization>, r: PaymentRequest, r': PaymentRequest): Desk {
    Desk([a, a], Some(1), Some(a), [], issued, [Flight(r, Checked(0)), Flight(r', Checked(1))], {0, 1}, true)
  }

  lemma BothLook(s: Setting, a: R.Allowance, issued: seq<Authorization>, r: PaymentRequest, r': PaymentRequest,
                 now: int)
    requires VerifyRequest(s, r, now) == Accepted && VerifyRequest(s, r', now) == Accepted
    ensures TakeAll(s, Restarted(a, issued), [Look(r, now, now), Look(r', now, now)])
         == Restarted(a, issued).(flights := [Flight(r, Loading), Flight(r', Loading)])
  {
    hide VerifyRequest, R.IsExpired, TakeAll;
    var d := Restarted(a, issued);
    OneTurn(s, d, Look(r, now, now));
    TakeLast(s, d, [Look(r, now, now)], Look(r', now, now));
    assert [Look(r, now, now)] + [Look(r', now, now)] == [Look(r, now, now), Look(r', now, now)];
    assert [] + [Flight(r, Loading)] == [Flight(r, Loading)];
    assert [Flight(r, Loading)] + [Flight(r', Loading)] == [Flight(r, Loading), Flight(r', Loading)];
  }

  lemma BothRead(s: Setting, d: Desk, a: R.Allowance, r: PaymentRequest, r': PaymentRequest)
    requires d.objects == [] && d.upToDate == {} && d.stored && d.saved == Some(a)
    requires d.flights == [Flight(r, Loading), Flight(r', Loading)]
    ensures TakeAll(s, d, [Read(0), Read(1)])
         == d.(objects := [a, a], upToDate := {0, 1}, flights := [Flight(r, Loaded(0)), Flight(r', Loaded(1))])
  {
    hide TakeAll;
    OneTurn(s, d, Read(0));
    TakeLast(s, d, [Read(0)], Read(1));
    assert [Read(0)] + [Read(1)] == [Read(0), Read(1)];
    var d1 := Take(s, d, Read(0));
    assert d1 == d.(objects := [a], upToDate := {0}, flights := [Flight(r, Loaded(0)), Flight(r', Loading)]);
    assert [a] + [a] == [a, a];
  }

  lemma BothAdopt(s: Setting, d: Desk, a: R.Allowance, r: PaymentRequest, r': PaymentRequest, now: int)
    requires d.objects == [a, a] && d.flights == [Flight(r, Loaded(0)), Flight(r', Loaded(1))] && !R.IsExpired(a, now)
    ensures TakeAll(s, d, [Adopt(0, now), Adopt(1, now)])
         == d.(memory := Some(1), flights := [Flight(r, Holding(0)), Flight(r', Holding(1))])
  {
    hide TakeAll, R.IsExpired;
    OneTurn(s, d, Adopt(0, now));
    TakeLast(s, d, [Adopt(0, now)], Adopt(1, now));
    assert [Adopt(0, now)] + [Adopt(1, now)] == [Adopt(0, now), Adopt(1, now)];
  }

  lemma BothCheck(s: Setting, d: Desk, a: R.Allowance, r: PaymentRequest, r': PaymentRequest, now: int)
    requires d.objects == [a, a] && d.flights == [Flight(r, Holding(0)), Flight(r', Holding(1))] && !R.IsExpired(a, now)
    requires r.amountMinorUnits <= a.remaining && r'.amountMinorUnits <= a.remaining
    ensures TakeAll(s, d, [Check(0, now), Check(1, now)])
         == d.(flights := [Flight(r, Checked(0)), Flight(r', Checked(1))])
  {
    hide TakeAll, R.IsExpired;
    OneTurn(s, d, Check(0, now));
    TakeLast(s, d, [Check(0, now)], Check(1, now));
    assert [Check(0, now)] + [Check(1, now)] == [Check(0, now), Check(1, now)];
  }

  lemma BothStarted(s: Setting, a: R.Allowance, issued: seq<Authorization>, r: PaymentRequest, r': PaymentRequest,
                    now: int)
    requires VerifyRequest(s, r, now) == Accepted && VerifyRequest(s, r', now) == Accepted && !R.IsExpired(a, now)
    requires r.amountMinorUnits <= a.remaining && r'.amountMinorUnits <= a.remaining
    ensures TakeAll(s, Restarted(a, issued), BothStart(r, r', now)) == TwoObjects(a, issued, r, r')
  {
    hide VerifyRequest, R.IsExpired, TakeAll, Take;
    var d := Restarted(a, issued);
    var t1, t2 := [Look(r, now, now), Look(r', now, now)], [Read(0), Read(1)];
    var t3, t4 := [Adopt(0, now), Adopt(1, now)], [Check(0, now), Check(1, now)];
    BothLook(s, a, issued, r, r', now);
    var d1 := TakeAll(s, d, t1);
    BothRead(s, d1, a, r, r');
    var d2 := TakeAll(s, d1, t2);
    BothAdopt(s, d2, a, r, r', now);
    var d3 := TakeAll(s, d2, t3);
    BothCheck(s, d3, a, r, r', now);
    TakeMore(s, d, t1, t2);
    TakeMore(s, d, t1 + t2, t3);
    TakeMore(s, d, t1 + t2 + t3, t4);
    assert t1 + t2 + t3 + t4 == BothStart(r, r', now);
  }

  lemma BothWritten(s: Setting, d: Desk)
    requires |d.writes| == 2
    ensures TakeAll(s, d, [Write, Write]).saved == Some(d.writes[1]) && TakeAll(s, d, [Write, Write]).issued == d.issued
  {
    hide TakeAll;
    OneTurn(s, d, Write);
    TakeLast(s, d, [Write], Write);
    assert [Write] + [Write] == [Write, Write];
  }

  lemma DebitEffect(s: Setting, d: Desk, t: Turn)
    requires Debits(d, t)
    ensures var d', auth, o := Take(s, d, t), Authorized(s, d, t), Source(d, t);
            && d'.issued == d.issued + [auth] && d'.writes == d.writes + [R.Charged(d.objects[o], auth)]
            && d'.objects == d.objects[o := R.Charged(d.objects[o], auth)]
            && d'.flights == d.flights[t.flight := Flight(d.flights[t.flight].request, Over)]
  {
    hide Authorized, R.Charged;
  }

  lemma BothPaid(s: Setting, a: R.Allowance, issued: seq<Authorization>, r: PaymentRequest, r': PaymentRequest,
                 seed: seq<bv8>, id: string, id': string, now: int)
    requires |seed| == 32
    ensures var d := TakeAll(s, TwoObjects(a, issued, r, r'), [Debit(0, seed, id, now), Debit(1, seed, id', now)]);
            && |d.issued| == |issued| + 2 && |d.writes| == 2
            && d.writes[1].remaining == a.remaining - r'.amountMinorUnits
            && var x, y := d.issued[|issued|], d.issued[|issued| + 1];
            && Twins(x, y) && x.sequenceNumber == a.sequenceNumber + 1
            && x.amountMinorUnits == r.amountMinorUnits && y.amountMinorUnits == r'.amountMinorUnits
  {
    hide TakeAll, Take, Authorized, StateBody, ChecksumOf, Upper;
    var d, p, q := TwoObjects(a, issued, r, r'), Debit(0, seed, id, now), Debit(1, seed, id', now);
    OneTurn(s, d, p);
    TakeLast(s, d, [p], q);
    assert [p] + [q] == [p, q];
    AuthorizedFields(s, d, p);
    DebitEffect(s, d, p);
    var d1 := Take(s, d, p);
    assert Debits(d1, q) && d1.objects[1] == a;
    AuthorizedFields(s, d1, q);
    DebitEffect(s, d1, q);
  }

  /**
   What happens otherwise, after a restart: two spends that both look up an allowance before either has read it both
   pay from it. Their authorizations carry one number and one previous hash, and the stored allowance knows only of
   the second.
   */
  lemma ForkedRestart(s: Setting, a: R.Allowance, issued: seq<Authorization>, r: PaymentRequest, r': PaymentRequest,
                      seed: seq<bv8>, id: string, id': string, now: int)
    requires VerifyRequest(s, r, now) == Accepted && VerifyRequest(s, r', now) == Accepted && !R.IsExpired(a, now)
    requires r.amountMinorUnits <= a.remaining && r'.amountMinorUnits <= a.remaining && |seed| == 32
    ensures var d := TakeAll(s, Restarted(a, issued), BothStart(r, r', now) + BothPay(seed, id, id', now));
            && |d.issued| == |issued| + 2 && Twins(d.issued[|issued|], d.issued[|issued| + 1])
            && d.issued[|issued|].amountMinorUnits == r.amountMinorUnits
            && d.saved.Some? && d.saved.value.remaining == a.remaining - r'.amountMinorUnits
  {
    hide VerifyRequest, R.IsExpired, TakeAll, Take, Twins;
    var d, p, q := Restarted(a, issued), Debit(0, seed, id, now), Debit(1, seed, id', now);
    BothStarted(s, a, issued, r, r', now);
    BothPaid(s, a, issued, r, r', seed, id, id', now);
    BothWritten(s, TakeAll(s, TwoObjects(a, issued, r, r'), [p, q]));
    TakeMore(s, d, BothStart(r, r', now), BothPay(seed, id, id', now));
    TakeMore(s, TwoObjects(a, issued, r, r'), [p, q], [Write, Write]);
    assert [p, q] + [Write, Write] == BothPay(seed, id, id', now);
  }
}

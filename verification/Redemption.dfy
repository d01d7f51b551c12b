/**
 Settling the queued authorizations: what one sync does to the queue, the records and the counts, and
 that over every run of spends, restarts and syncs nothing is settled twice.
 */
module Redemption {
  import opened Text
  import opened Payment
  import opened Authorizations
  import R = Reserve

  datatype Status = Pending | Settled | Failed | Expired

  datatype Record = Record(
    authorizationId: string, requestId: string, merchantId: string, amountMinorUnits: int, currency: string,
    createdAt: int, status: Status, stellarTxHash: Option<string>, errorMessage: Option<string>, settledAt: Option<int>)

  /** What comes of trying to pay one authorization. */
  datatype Attempt = Paid(hash: string, at: int) | NotPaid(message: Option<string>) | Threw(error: string) | Unmounted

  /** 48 hours, in microseconds. */
  const WINDOW := 48 * 3600 * 1000000

  predicate PastWindow(a: Authorization, now: int) { now - a.timestamp > WINDOW }

  function NewRecord(a: Authorization): Record {
    Record(a.authorizationId, a.requestId, a.merchantId, a.amountMinorUnits, a.currency, a.timestamp, Pending, None,
           None, None)
  }

  function IndexOf(records: seq<Record>, id: string): (i: int)
    ensures i == -1 || 0 <= i < |records|
    ensures i >= 0 ==> records[i].authorizationId == id && forall j :: 0 <= j < i ==> records[j].authorizationId != id
    ensures i == -1 ==> forall j :: 0 <= j < |records| ==> records[j].authorizationId != id
  {
    if records == [] then -1
    else if records[0].authorizationId == id then 0
    else
      var i := IndexOf(records[1..], id);
      if i == -1 then -1 else i + 1
  }

  function Find(records: seq<Record>, id: string): Option<Record> {
    var i := IndexOf(records, id);
    if i == -1 then None else Some(records[i])
  }

  /** The existing record of an authorization, or a new one. */
  function RecordOf(records: seq<Record>, a: Authorization): Record {
    match Find(records, a.authorizationId) case None => NewRecord(a) case Some(r) => r
  }

  /** Changes the record in place, or inserts it in front. */
  function Put(records: seq<Record>, r: Record): seq<Record> {
    var i := IndexOf(records, r.authorizationId);
    if i == -1 then [r] + records else records[i := r]
  }

  /** The record after an authorization was handled; not called for an attempt that was abandoned. */
  function Revised(r: Record, a: Authorization, t: Attempt, now: int): Record {
    if PastWindow(a, now) then
      r.(status := Status.Expired, errorMessage := Some("Redemption window expired (48h limit exceeded)"))
    else
      match t
      case Paid(hash, at) => r.(status := Settled, stellarTxHash := Some(hash), settledAt := Some(at),
                                errorMessage := None)
      case NotPaid(Some(message)) => r.(status := Failed, errorMessage := Some(message))
      case NotPaid(None) => r.(status := Failed,
                               errorMessage := Some("Settlement cancelled — no signature was submitted."))
      case Threw(error) => r.(status := Failed, errorMessage := Some(error))
      case Unmounted => r
  }

  predicate Handled(a: Authorization, t: Attempt, now: int) { PastWindow(a, now) || !t.Unmounted? }

  /** Settled or expired: the authorization leaves the queue. */
  predicate Closes(a: Authorization, t: Attempt, now: int) { PastWindow(a, now) || t.Paid? }

  // ----- one sync --------------------------------------------------------------------------------------

  datatype Progress = Progress(st: R.State, records: seq<Record>, succeeded: nat, failed: nat, expired: nat)

  function RedeemOne(b: Progress, a: Authorization, t: Attempt, now: int): Progress {
    var r := Revised(RecordOf(b.records, a), a, t, now);
    if PastWindow(a, now) then
      b.(st := R.Remove(b.st, a.authorizationId), records := Put(b.records, r), expired := b.expired + 1)
    else match t
      case Unmounted => b
      case Paid(_, _) =>
        b.(st := R.Remove(b.st, a.authorizationId), records := Put(b.records, r), succeeded := b.succeeded + 1)
      case _ => b.(records := Put(b.records, r), failed := b.failed + 1)
  }

  /** The first k authorizations of the queue; `attempts` says what comes of each position. */
  function RedeemFirst(b: Progress, q: seq<Authorization>, attempts: nat -> Attempt, now: int, k: nat): Progress
    requires k <= |q|
  {
    if k == 0 then b else RedeemOne(RedeemFirst(b, q, attempts, now, k - 1), q[k - 1], attempts(k - 1), now)
  }

  function LoadRecords(records: seq<Record>, saved: Option<seq<Record>>): seq<Record> {
    match saved case None => records case Some(stored) => stored
  }

  /** Loads the records and the queue, and goes through the queue. */
  function SyncAndRedeemAll(st: R.State, records: seq<Record>, saved: Option<seq<Record>>, attempts: nat -> Attempt,
                            now: int)
      : Progress
  {
    var (st1, q) := R.GetQueue(st);
    RedeemFirst(Progress(st1, LoadRecords(records, saved), 0, 0, 0), q, attempts, now, |q|)
  }

  // ----- the counts ---------------------------------------------------------------------------------------

  datatype Fate = Lapsed | Settles | Fails | Abandoned

  /** What becomes of an authorization: expiry comes before the attempt. */
  function FateOf(a: Authorization, t: Attempt, now: int): Fate {
    if PastWindow(a, now) then Lapsed
    else match t
      case Paid(_, _) => Settles
      case Unmounted => Abandoned
      case _ => Fails
  }

  /** How many of the first k authorizations have a fate. */
  ghost function HowMany(q: seq<Authorization>, attempts: nat -> Attempt, now: int, k: nat, f: Fate): nat
    requires k <= |q|
  {
    if k == 0 then 0
    else HowMany(q, attempts, now, k - 1, f) + if FateOf(q[k - 1], attempts(k - 1), now) == f then 1 else 0
  }

  lemma {:induction false} CountsAre(b: Progress, q: seq<Authorization>, attempts: nat -> Attempt, now: int, k: nat)
    requires k <= |q|
    ensures var b' := RedeemFirst(b, q, attempts, now, k);
            && b'.succeeded == b.succeeded + HowMany(q, attempts, now, k, Settles)
            && b'.failed == b.failed + HowMany(q, attempts, now, k, Fails)
            && b'.expired == b.expired + HowMany(q, attempts, now, k, Lapsed)
  {
    hide Revised, Put, R.Remove, RecordOf, PastWindow;
    if k > 0 { CountsAre(b, q, attempts, now, k - 1); }
  }

  lemma {:induction false} FatesAdd(q: seq<Authorization>, attempts: nat -> Attempt, now: int, k: nat)
    requires k <= |q|
    ensures HowMany(q, attempts, now, k, Settles) + HowMany(q, attempts, now, k, Fails)
         + HowMany(q, attempts, now, k, Lapsed)
            + HowMany(q, attempts, now, k, Abandoned) == k
    ensures HowMany(q, attempts, now, k, Abandoned) == 0 <==> forall j: nat :: j < k ==> Handled(q[j], attempts(j), now)
  {
    if k > 0 { FatesAdd(q, attempts, now, k - 1); }
  }

  /**
   Each counter counts the authorizations of its own fate, and the counts add up to the queue exactly when
   no attempt was abandoned by an unmounted context.
   */
  lemma SyncCounts(st: R.State, records: seq<Record>, saved: Option<seq<Record>>, attempts: nat -> Attempt, now: int)
    ensures var q := R.GetQueue(st).1;
            var b := SyncAndRedeemAll(st, records, saved, attempts, now);
            && b.succeeded == HowMany(q, attempts, now, |q|, Settles)
            && b.failed == HowMany(q, attempts, now, |q|, Fails)
            && b.expired == HowMany(q, attempts, now, |q|, Lapsed)
            && b.succeeded + b.failed + b.expired <= |q|
            && (b.succeeded + b.failed + b.expired == |q|
                <==> forall j: nat :: j < |q| ==> Handled(q[j], attempts(j), now))
  {
    hide RedeemFirst, HowMany, Handled;
    var (st1, q) := R.GetQueue(st);
    CountsAre(Progress(st1, LoadRecords(records, saved), 0, 0, 0), q, attempts, now, |q|);
    FatesAdd(q, attempts, now, |q|);
  }

  // ----- the queue -----------------------------------------------------------------------------------------

  /** The authorizations among the first k that stay queued, in order. */
  ghost function Kept(q: seq<Authorization>, attempts: nat -> Attempt, now: int, k: nat): seq<Authorization>
    requires k <= |q|
  {
    if k == 0 then []
    else Kept(q, attempts, now, k - 1) + if Closes(q[k - 1], attempts(k - 1), now) then [] else [q[k - 1]]
  }

  lemma {:induction false} WithoutSplit(x: seq<Authorization>, y: seq<Authorization>, id: string)
    ensures R.Without(x + y, id) == R.Without(x, id) + R.Without(y, id)
  {
    if y == [] {
      assert x + y == x;
    } else {
      var front := y[..|y| - 1];
      WithoutSplit(x, front, id);
      assert (x + y)[..|x + y| - 1] == x + front;
    }
  }

  lemma {:induction false} WithoutAbsent(q: seq<Authorization>, id: string)
    requires forall i :: 0 <= i < |q| ==> q[i].authorizationId != id
    ensures R.Without(q, id) == q
  {
    if q != [] { WithoutAbsent(q[..|q| - 1], id); }
  }

  lemma {:induction false} KeptFrom(q: seq<Authorization>, attempts: nat -> Attempt, now: int, k: nat)
    requires k <= |q|
    ensures forall a :: a in Kept(q, attempts, now, k) ==> a in q[..k]
  {
    if k > 0 {
      KeptFrom(q, attempts, now, k - 1);
      assert q[..k] == q[..k - 1] + [q[k - 1]];
    }
  }

  lemma RemoveHead(kept: seq<Authorization>, a: Authorization, rest: seq<Authorization>)
    requires forall x :: x in kept ==> x.authorizationId != a.authorizationId
    requires forall x :: x in rest ==> x.authorizationId != a.authorizationId
    ensures R.Without(kept + ([a] + rest), a.authorizationId) == kept + rest
  {
    WithoutSplit(kept, [a] + rest, a.authorizationId);
    WithoutSplit([a], rest, a.authorizationId);
    WithoutAbsent(kept, a.authorizationId);
    WithoutAbsent(rest, a.authorizationId);
    assert [a][..0] == [];
    assert R.Without([a], a.authorizationId) == [];
  }

  lemma OneState(b: Progress, a: Authorization, t: Attempt, now: int)
    ensures RedeemOne(b, a, t, now).st == if Closes(a, t, now) then R.Remove(b.st, a.authorizationId) else b.st
  {
    hide Put, Revised, RecordOf, R.Remove;
  }

  lemma {:induction false} QueueAfter(b: Progress, q: seq<Authorization>, attempts: nat -> Attempt, now: int, k: nat)
    requires k <= |q| && R.Distinct(q) && b.st.queue == q && R.Loaded(b.st)
    ensures var b' := RedeemFirst(b, q, attempts, now, k);
            b'.st.queue == Kept(q, attempts, now, k) + q[k..] && R.Loaded(b'.st)
            && b'.st.held == b.st.held && b'.st.saved == b.st.saved
  {
    hide RedeemOne, Closes, R.Distinct, R.Without;
    if k > 0 {
      QueueAfter(b, q, attempts, now, k - 1);
      KeptFrom(q, attempts, now, k - 1);
      OneState(RedeemFirst(b, q, attempts, now, k - 1), q[k - 1], attempts(k - 1), now);
      assert q[k - 1..] == [q[k - 1]] + q[k..];
      var kept, a := Kept(q, attempts, now, k - 1), q[k - 1];
      OthersDiffer(q, k - 1, kept);
      if Closes(a, attempts(k - 1), now) {
        RemoveHead(kept, a, q[k..]);
      } else {
        assert kept + ([a] + q[k..]) == (kept + [a]) + q[k..];
      }
    }
  }

  lemma OthersDiffer(q: seq<Authorization>, k: nat, kept: seq<Authorization>)
    requires k < |q| && R.Distinct(q) && forall a :: a in kept ==> a in q[..k]
    ensures forall x :: x in kept ==> x.authorizationId != q[k].authorizationId
    ensures forall x :: x in q[k + 1..] ==> x.authorizationId != q[k].authorizationId
  {
    forall x | x in kept ensures x.authorizationId != q[k].authorizationId {
      var i :| 0 <= i < k && q[i] == x;
    }
  }

  /**
   With distinct ids, a sync leaves exactly the authorizations that neither settled nor expired, in their
   order, in memory and in storage, and leaves the allowances alone.
   */
  lemma SyncQueue(st: R.State, records: seq<Record>, saved: Option<seq<Record>>, attempts: nat -> Attempt, now: int)
    requires (st.queue == [] || R.Loaded(st)) && R.Distinct(R.SavedQueue(st))
    ensures var q := R.GetQueue(st).1;
            var b := SyncAndRedeemAll(st, records, saved, attempts, now);
            && q == R.SavedQueue(st)
            && b.st.queue == Kept(q, attempts, now, |q|) && R.SavedQueue(b.st) == Kept(q, attempts, now, |q|)
            && b.st.held == st.held && b.st.saved == st.saved
  {
    hide RedeemFirst, Kept;
    var (st1, q) := R.GetQueue(st);
    QueueAfter(Progress(st1, LoadRecords(records, saved), 0, 0, 0), q, attempts, now, |q|);
  }

  // ----- the records -------------------------------------------------------------------------------------------

  lemma FindPut(records: seq<Record>, r: Record, id: string)
    ensures Find(Put(records, r), id) == if id == r.authorizationId then Some(r) else Find(records, id)
  {
    var i := IndexOf(records, r.authorizationId);
    var after := Put(records, r);
    if i == -1 {
      assert after[1..] == records;
    } else {
      assert forall j :: 0 <= j < |records| ==> after[j].authorizationId == records[j].authorizationId;
      SameIds(records, after, id);
      SameIds(records, after, r.authorizationId);
    }
  }

  lemma {:induction false} SameIds(x: seq<Record>, y: seq<Record>, id: string)
    requires |x| == |y| && forall j :: 0 <= j < |x| ==> x[j].authorizationId == y[j].authorizationId
    ensures IndexOf(x, id) == IndexOf(y, id)
  {}

  lemma RevisedId(r: Record, a: Authorization, t: Attempt, now: int)
    ensures Revised(r, a, t, now).authorizationId == r.authorizationId
  {}

  lemma RecordOfId(records: seq<Record>, a: Authorization)
    ensures RecordOf(records, a).authorizationId == a.authorizationId
  {}

  lemma OneRecord(b: Progress, a: Authorization, t: Attempt, now: int, id: string)
    ensures Find(RedeemOne(b, a, t, now).records, id) ==
            if id == a.authorizationId && Handled(a, t, now) then Some(Revised(RecordOf(b.records, a), a, t, now))
            else Find(b.records, id)
  {
    hide Find, Put, R.Remove, Revised, RecordOf;
    var r := RecordOf(b.records, a);
    RecordOfId(b.records, a);
    RevisedId(r, a, t, now);
    FindPut(b.records, Revised(r, a, t, now), id);
  }

  lemma {:induction false} RecordsAfter(b: Progress, q: seq<Authorization>, attempts: nat -> Attempt, now: int,
                                        k: nat, id: string)
    requires k <= |q| && R.Distinct(q)
    ensures var records := RedeemFirst(b, q, attempts, now, k).records;
            (forall j: nat :: j < k && q[j].authorizationId == id && Handled(q[j], attempts(j), now) ==>
               Find(records, id) == Some(Revised(RecordOf(b.records, q[j]), q[j], attempts(j), now)))
            && ((forall j: nat :: j < k && q[j].authorizationId == id ==> !Handled(q[j], attempts(j), now)) ==>
               Find(records, id) == Find(b.records, id))
  {
    hide Find, Revised, RedeemOne, Handled;
    if k > 0 {
      RecordsAfter(b, q, attempts, now, k - 1, id);
      OneRecord(RedeemFirst(b, q, attempts, now, k - 1), q[k - 1], attempts(k - 1), now, id);
    }
  }

  /**
   With distinct ids, the record found for a handled authorization has the outcome of its own attempt, and
   the one found for any other id is as before.
   */
  lemma SyncRecords(st: R.State, records: seq<Record>, saved: Option<seq<Record>>, attempts: nat -> Attempt, now: int)
    requires (st.queue == [] || R.Loaded(st)) && R.Distinct(R.SavedQueue(st))
    ensures var q := R.GetQueue(st).1;
            var loaded := LoadRecords(records, saved);
            var after := SyncAndRedeemAll(st, records, saved, attempts, now).records;
            && (forall j: nat :: j < |q| && Handled(q[j], attempts(j), now) ==>
                  Find(after, q[j].authorizationId) == Some(Revised(RecordOf(loaded, q[j]), q[j], attempts(j), now)))
            && (forall id ::
                  (forall j: nat :: j < |q| && q[j].authorizationId == id ==> !Handled(q[j], attempts(j), now)) ==>
                  Find(after, id) == Find(loaded, id))
  {
    hide Find, Revised, RedeemOne, Handled, RecordOf, RedeemFirst;
    var (st1, q) := R.GetQueue(st);
    var b := Progress(st1, LoadRecords(records, saved), 0, 0, 0);
    forall id ensures
      var records := RedeemFirst(b, q, attempts, now, |q|).records;
      (forall j: nat :: j < |q| && q[j].authorizationId == id && Handled(q[j], attempts(j), now) ==>
         Find(records, id) == Some(Revised(RecordOf(b.records, q[j]), q[j], attempts(j), now)))
      && ((forall j: nat :: j < |q| && q[j].authorizationId == id ==> !Handled(q[j], attempts(j), now)) ==>
         Find(records, id) == Find(b.records, id))
    {
      RecordsAfter(b, q, attempts, now, |q|, id);
    }
  }

  /** What a failed attempt says: its own message, the default where there is none, or the error. */
  function Complaint(t: Attempt): string
    requires t.NotPaid? || t.Threw?
  {
    if t.Threw? then t.error
    else if t.message.Some? then t.message.value else "Settlement cancelled — no signature was submitted."
  }

  /** The record tells who owes what to whom: as the loaded record did, or as the authorization does. */
  predicate SameDebt(r: Record, was: Option<Record>, a: Authorization) {
    && r.authorizationId == a.authorizationId
    && (was.Some? ==>
          && r.requestId == was.value.requestId && r.merchantId == was.value.merchantId
          && r.amountMinorUnits == was.value.amountMinorUnits && r.currency == was.value.currency
          && r.createdAt == was.value.createdAt)
    && (was.None? ==>
          && r.requestId == a.requestId && r.merchantId == a.merchantId && r.amountMinorUnits == a.amountMinorUnits
          && r.currency == a.currency && r.createdAt == a.timestamp)
  }

  /** The payment it may hold from before. */
  predicate SamePayment(r: Record, was: Option<Record>) {
    && r.stellarTxHash == (if was.Some? then was.value.stellarTxHash else None)
    && r.settledAt == (if was.Some? then was.value.settledAt else None)
  }

  /** 48 hours are 172,800,000,000 microseconds; one that is exactly that old may still be paid. */
  lemma LapsedIff(a: Authorization, t: Attempt, now: int)
    ensures FateOf(a, t, now) == Lapsed <==> now > a.timestamp + 172800000000
    ensures FateOf(a, t, now) == Settles <==> now <= a.timestamp + 172800000000 && t.Paid?
    ensures FateOf(a, t, now) == Fails <==> now <= a.timestamp + 172800000000 && (t.NotPaid? || t.Threw?)
  {}

  /** What a record says after its authorization was handled, by what became of that. */
  lemma OutcomeOf(r: Record, a: Authorization, t: Attempt, now: int)
    ensures var f, r' := FateOf(a, t, now), Revised(r, a, t, now);
            && (f == Settles ==>
                  r'.status == Settled && r'.stellarTxHash == Some(t.hash) && r'.settledAt == Some(t.at)
                  && r'.errorMessage == None)
            && (f == Fails ==>
                  r'.status == Failed && r'.errorMessage == Some(Complaint(t)) && SamePayment(r', Some(r)))
            && (f == Lapsed ==>
                  r'.status == Status.Expired && SamePayment(r', Some(r))
                  && r'.errorMessage == Some("Redemption window expired (48h limit exceeded)"))
  {}

  lemma DebtStays(r: Record, a: Authorization, t: Attempt, now: int)
    ensures var r' := Revised(r, a, t, now);
            && r'.authorizationId == r.authorizationId && r'.requestId == r.requestId && r'.merchantId == r.merchantId
            && r'.amountMinorUnits == r.amountMinorUnits && r'.currency == r.currency && r'.createdAt == r.createdAt
  {
    hide PastWindow;
    if !PastWindow(a, now) {
      match t
      case Paid(_, _) =>
      case NotPaid(message) => if message.Some? {}
      case Threw(_) =>
      case Unmounted =>
    }
  }

  /**
   The record of every authorization that a sync handled: settled with the hash and the time of its own payment,
   failed with the attempt's own complaint, or expired; and otherwise as it was loaded, or as the authorization
   says when none was.
   */
  lemma SyncOutcome(st: R.State, records: seq<Record>, saved: Option<seq<Record>>, attempts: nat -> Attempt, now: int,
                    j: nat)
    requires (st.queue == [] || R.Loaded(st)) && R.Distinct(R.SavedQueue(st)) && j < |R.GetQueue(st).1|
    requires var a := R.GetQueue(st).1[j]; FateOf(a, attempts(j), now) != Abandoned
    ensures var a := R.GetQueue(st).1[j];
            var was := Find(if saved.Some? then saved.value else records, a.authorizationId);
            var found := Find(SyncAndRedeemAll(st, records, saved, attempts, now).records, a.authorizationId);
            && found.Some? && SameDebt(found.value, was, a)
            && match FateOf(a, attempts(j), now)
               case Settles =>
                 && found.value.status == Settled && found.value.errorMessage == None
                 && found.value.stellarTxHash == Some(attempts(j).hash) && found.value.settledAt == Some(attempts(j).at)
               case Fails =>
                 && found.value.status == Failed && found.value.errorMessage == Some(Complaint(attempts(j)))
                 && SamePayment(found.value, was)
               case Lapsed =>
                 && found.value.status == Status.Expired && SamePayment(found.value, was)
                 && found.value.errorMessage == Some("Redemption window expired (48h limit exceeded)")
  {
    hide Find, Revised, SyncAndRedeemAll, SameDebt, PastWindow, SamePayment, Complaint, R.GetQueue;
    var a := R.GetQueue(st).1[j];
    var loaded := if saved.Some? then saved.value else records;
    var r := RecordOf(loaded, a);
    SyncRecords(st, records, saved, attempts, now);
    OutcomeOf(r, a, attempts(j), now);
    DebtStays(r, a, attempts(j), now);
    Carried(loaded, a, Revised(r, a, attempts(j), now));
  }

  lemma Carried(loaded: seq<Record>, a: Authorization, r: Record)
    requires var was := RecordOf(loaded, a);
             && r.authorizationId == was.authorizationId && r.requestId == was.requestId
             && r.merchantId == was.merchantId && r.amountMinorUnits == was.amountMinorUnits
             && r.currency == was.currency && r.createdAt == was.createdAt
    ensures SameDebt(r, Find(loaded, a.authorizationId), a)
    ensures SamePayment(r, Some(RecordOf(loaded, a))) ==> SamePayment(r, Find(loaded, a.authorizationId))
  {}

  function Ids(records: seq<Record>): (ids: seq<string>)
    ensures |ids| == |records|
  {
    seq(|records|, i requires 0 <= i < |records| => records[i].authorizationId)
  }

  /** The earlier records keep their places behind the new ones. */
  predicate Behind(before: seq<Record>, after: seq<Record>) {
    |before| <= |after| && Ids(after)[|after| - |before|..] == Ids(before)
  }

  lemma BehindPut(records: seq<Record>, r: Record)
    ensures Behind(records, Put(records, r))
  {
    hide IndexOf;
    var i := IndexOf(records, r.authorizationId);
    if i == -1 {
      assert Ids([r] + records)[1..] == Ids(records);
    } else {
      assert Ids(records[i := r]) == Ids(records);
    }
  }

  lemma BehindBehind(x: seq<Record>, y: seq<Record>, z: seq<Record>)
    requires Behind(x, y) && Behind(y, z)
    ensures Behind(x, z)
  {
    hide Ids;
    assert Ids(z)[|z| - |x|..] == Ids(z)[|z| - |y|..][|y| - |x|..];
  }

  lemma OneBehind(b: Progress, a: Authorization, t: Attempt, now: int)
    ensures Behind(b.records, RedeemOne(b, a, t, now).records)
  {
    hide Revised, R.Remove, RecordOf, Put, Ids, PastWindow;
    BehindPut(b.records, Revised(RecordOf(b.records, a), a, t, now));
  }

  lemma {:induction false} RecordsBehind(b: Progress, q: seq<Authorization>, attempts: nat -> Attempt, now: int, k: nat)
    requires k <= |q|
    ensures Behind(b.records, RedeemFirst(b, q, attempts, now, k).records)
  {
    hide RedeemOne, Ids;
    if k > 0 {
      RecordsBehind(b, q, attempts, now, k - 1);
      hide Behind;
      OneBehind(RedeemFirst(b, q, attempts, now, k - 1), q[k - 1], attempts(k - 1), now);
      BehindBehind(b.records, RedeemFirst(b, q, attempts, now, k - 1).records,
                   RedeemFirst(b, q, attempts, now, k).records);
    }
  }

  /** A sync keeps the loaded records in their order, behind the new ones. */
  lemma SyncKeepsPlaces(st: R.State, records: seq<Record>, saved: Option<seq<Record>>, attempts: nat -> Attempt,
                        now: int)
    ensures Behind(if saved.Some? then saved.value else records,
                   SyncAndRedeemAll(st, records, saved, attempts, now).records)
  {
    hide RedeemFirst, Behind;
    var (st1, q) := R.GetQueue(st);
    RecordsBehind(Progress(st1, LoadRecords(records, saved), 0, 0, 0), q, attempts, now, |q|);
  }

  // ----- how many records ----------------------------------------------------------------------------------

  /** The records of one authorization. */
  ghost function Copies(records: seq<Record>, id: string): nat {
    if records == [] then 0 else Copies(records[1..], id) + if records[0].authorizationId == id then 1 else 0
  }

  lemma {:induction false} CopiesFound(records: seq<Record>, id: string)
    ensures IndexOf(records, id) == -1 <==> Copies(records, id) == 0
  {
    if records != [] { CopiesFound(records[1..], id); }
  }

  lemma {:induction false} CopiesUpdate(records: seq<Record>, i: nat, r: Record, id: string)
    requires i < |records| && records[i].authorizationId == r.authorizationId
    ensures Copies(records[i := r], id) == Copies(records, id)
  {
    if i > 0 {
      CopiesUpdate(records[1..], i - 1, r, id);
      assert records[i := r][1..] == records[1..][i - 1 := r];
    } else {
      assert records[i := r][1..] == records[1..];
    }
  }

  lemma CopiesPut(records: seq<Record>, r: Record, id: string)
    ensures Copies(Put(records, r), id)
         == if id == r.authorizationId && Copies(records, id) == 0 then 1 else Copies(records, id)
  {
    CopiesFound(records, r.authorizationId);
    var i := IndexOf(records, r.authorizationId);
    if i == -1 {
      assert ([r] + records)[1..] == records;
    } else {
      CopiesUpdate(records, i, r, id);
    }
  }

  lemma OneCopies(b: Progress, a: Authorization, t: Attempt, now: int, id: string)
    ensures Copies(RedeemOne(b, a, t, now).records, id)
         == if id == a.authorizationId && Handled(a, t, now) && Copies(b.records, id) == 0 then 1
           else Copies(b.records, id)
  {
    hide Find, Put, R.Remove, Revised, RecordOf, Copies;
    RecordOfId(b.records, a);
    RevisedId(RecordOf(b.records, a), a, t, now);
    CopiesPut(b.records, Revised(RecordOf(b.records, a), a, t, now), id);
  }

  /** Some of the first k authorizations with this id was handled. */
  ghost predicate AnyHandled(q: seq<Authorization>, attempts: nat -> Attempt, now: int, k: nat, id: string)
    requires k <= |q|
  {
    exists j: nat :: j < k && q[j].authorizationId == id && Handled(q[j], attempts(j), now)
  }

  lemma {:induction false} CopiesAfter(b: Progress, q: seq<Authorization>, attempts: nat -> Attempt, now: int, k: nat,
                                       id: string)
    requires k <= |q|
    ensures Copies(RedeemFirst(b, q, attempts, now, k).records, id)
         == if AnyHandled(q, attempts, now, k, id) && Copies(b.records, id) == 0 then 1 else Copies(b.records, id)
  {
    hide RedeemOne, Handled, Copies;
    if k > 0 {
      CopiesAfter(b, q, attempts, now, k - 1, id);
      OneCopies(RedeemFirst(b, q, attempts, now, k - 1), q[k - 1], attempts(k - 1), now, id);
    }
  }

  /**
   A sync never repeats a record: an authorization has as many as were loaded, or one where none was loaded
   and it was handled. So every handled one has exactly one, unless several were loaded.
   */
  lemma SyncCopies(st: R.State, records: seq<Record>, saved: Option<seq<Record>>, attempts: nat -> Attempt, now: int,
                   id: string)
    ensures var q := R.GetQueue(st).1;
            var loaded := LoadRecords(records, saved);
            var after := SyncAndRedeemAll(st, records, saved, attempts, now).records;
            Copies(after, id) ==
              if AnyHandled(q, attempts, now, |q|, id) && Copies(loaded, id) == 0 then 1 else Copies(loaded, id)
  {
    hide Copies, RedeemFirst, AnyHandled;
    var (st1, q) := R.GetQueue(st);
    CopiesAfter(Progress(st1, LoadRecords(records, saved), 0, 0, 0), q, attempts, now, |q|, id);
  }

  // ----- runs -----------------------------------------------------------------------------------------------------

  datatype Event =
    | Reserve(action: R.Action)
    | RecordSpend(authorization: Authorization)
    | Sync(attempts: nat -> Attempt, now: int)

  /** The reserve with its history, the records in memory and storage, and every id ever settled or expired. */
  datatype Books = Books(
    w: R.World, records: seq<Record>, saved: Option<seq<Record>>, settled: multiset<string>, expired: multiset<string>)

  /** The id of an authorization that an attempt settles, or that has expired, or either. */
  ghost function SettledOne(a: Authorization, t: Attempt, now: int): multiset<string> {
    if !PastWindow(a, now) && t.Paid? then multiset{a.authorizationId} else multiset{}
  }

  ghost function ExpiredOne(a: Authorization, now: int): multiset<string> {
    if PastWindow(a, now) then multiset{a.authorizationId} else multiset{}
  }

  ghost function ClosedOne(a: Authorization, t: Attempt, now: int): set<string> {
    if Closes(a, t, now) then {a.authorizationId} else {}
  }

  ghost function SettledIds(q: seq<Authorization>, attempts: nat -> Attempt, now: int, k: nat): multiset<string>
    requires k <= |q|
  {
    if k == 0 then multiset{} else SettledIds(q, attempts, now, k - 1) + SettledOne(q[k - 1], attempts(k - 1), now)
  }

  ghost function ExpiredIds(q: seq<Authorization>, now: int, k: nat): multiset<string>
    requires k <= |q|
  {
    if k == 0 then multiset{} else ExpiredIds(q, now, k - 1) + ExpiredOne(q[k - 1], now)
  }

  ghost function ClosedIds(q: seq<Authorization>, attempts: nat -> Attempt, now: int, k: nat): set<string>
    requires k <= |q|
  {
    if k == 0 then {} else ClosedIds(q, attempts, now, k - 1) + ClosedOne(q[k - 1], attempts(k - 1), now)
  }

  ghost function Happen(s: Setting, b: Books, e: Event): Books {
    match e
    case Reserve(a) =>
      var w' := R.Step(s, b.w, a);
      b.(w := w', records := if a.DoRestart? then [] else b.records)
    case RecordSpend(a) =>
      var records := [NewRecord(a)] + LoadRecords(b.records, b.saved);
      b.(records := records, saved := Some(records))
    case Sync(attempts, now) =>
      var q := R.GetQueue(b.w.st).1;
      var p := SyncAndRedeemAll(b.w.st, b.records, b.saved, attempts, now);
      Books(b.w.(st := p.st, removed := b.w.removed + ClosedIds(q, attempts, now, |q|)), p.records, Some(p.records),
            b.settled + SettledIds(q, attempts, now, |q|), b.expired + ExpiredIds(q, now, |q|))
  }

  /** A recorded spend is found as pending, with the authorization's own values, in memory and in storage. */
  lemma RecordedSpend(s: Setting, b: Books, a: Authorization)
    ensures var b' := Happen(s, b, RecordSpend(a));
            && Find(b'.records, a.authorizationId)
               == Some(Record(a.authorizationId, a.requestId, a.merchantId, a.amountMinorUnits, a.currency, a.timestamp,
                              Pending, None, None, None))
            && b'.saved == Some(b'.records)
            && b'.records[1..] == if b.saved.Some? then b.saved.value else b.records
  {}

  ghost function History(s: Setting, events: seq<Event>): Books {
    if events == [] then Books(R.Run(s, []), [], None, multiset{}, multiset{})
    else Happen(s, History(s, events[..|events| - 1]), events[|events| - 1])
  }

  ghost predicate FreshEvent(b: Books, e: Event) {
    e.Reserve? ==> R.Fresh(b.w, e.action)
  }

  ghost predicate AllFresh(s: Setting, events: seq<Event>) {
    forall i :: 0 <= i < |events| ==> FreshEvent(History(s, events[..i]), events[i])
  }

  /** Each id was settled or expired at most once, and then removed. */
  ghost predicate OnceAtMost(settled: multiset<string>, expired: multiset<string>, removed: set<string>) {
    forall id :: settled[id] + expired[id] <= 1 && (settled[id] + expired[id] == 1 ==> id in removed)
  }

  ghost predicate Settlement(b: Books) {
    R.QueueInvariant(b.w) && OnceAtMost(b.settled, b.expired, b.w.removed)
  }

  lemma {:induction false} ClosedIdsAre(q: seq<Authorization>, attempts: nat -> Attempt, now: int, k: nat)
    requires k <= |q|
    ensures forall id :: id in ClosedIds(q, attempts, now, k) ==> exists j: nat :: j < k && q[j].authorizationId == id
  {
    if k > 0 { ClosedIdsAre(q, attempts, now, k - 1); }
  }

  lemma OnceMore(settled: multiset<string>, expired: multiset<string>, removed: set<string>, a: Authorization,
                 t: Attempt, now: int)
    requires OnceAtMost(settled, expired, removed) && a.authorizationId !in removed
    ensures OnceAtMost(settled + SettledOne(a, t, now), expired + ExpiredOne(a, now), removed + ClosedOne(a, t, now))
  {
    hide PastWindow;
    assert settled[a.authorizationId] + expired[a.authorizationId] <= 1;
  }

  lemma Regroup(x: multiset<string>, y: multiset<string>, z: multiset<string>)
    ensures x + (y + z) == (x + y) + z
  {}

  lemma RegroupSets(x: set<string>, y: set<string>, z: set<string>)
    ensures x + (y + z) == (x + y) + z
  {}

  lemma Nothing(b: Books)
    ensures b.settled + multiset{} == b.settled && b.expired + multiset{} == b.expired
         && b.w.removed + {} == b.w.removed
  {}

  /** Going through part of a queue with distinct, unremoved ids counts each closed id once. */
  lemma {:induction false} SyncClosesOnce(b: Books, q: seq<Authorization>, attempts: nat -> Attempt, now: int, k: nat)
    requires k <= |q| && R.Distinct(q) && R.Live(q, b.w.issued, b.w.removed)
    requires OnceAtMost(b.settled, b.expired, b.w.removed)
    ensures OnceAtMost(b.settled + SettledIds(q, attempts, now, k), b.expired + ExpiredIds(q, now, k),
                       b.w.removed + ClosedIds(q, attempts, now, k))
  {
    hide OnceAtMost, SettledOne, ExpiredOne, ClosedOne, R.Distinct, R.Live;
    if k == 0 {
      Nothing(b);
    } else {
      SyncClosesOnce(b, q, attempts, now, k - 1);
      NotYetClosed(b, q, attempts, now, k - 1);
      var settled, expired := SettledIds(q, attempts, now, k - 1), ExpiredIds(q, now, k - 1);
      var closed, a, t := ClosedIds(q, attempts, now, k - 1), q[k - 1], attempts(k - 1);
      OnceMore(b.settled + settled, b.expired + expired, b.w.removed + closed, a, t, now);
      Regroup(b.settled, settled, SettledOne(a, t, now));
      Regroup(b.expired, expired, ExpiredOne(a, now));
      RegroupSets(b.w.removed, closed, ClosedOne(a, t, now));
    }
  }

  lemma NotYetClosed(b: Books, q: seq<Authorization>, attempts: nat -> Attempt, now: int, k: nat)
    requires k < |q| && R.Distinct(q) && R.Live(q, b.w.issued, b.w.removed)
    ensures q[k].authorizationId !in b.w.removed + ClosedIds(q, attempts, now, k)
  {
    hide ClosedIds;
    ClosedIdsAre(q, attempts, now, k);
  }

  lemma ClosedStep(q: seq<Authorization>, attempts: nat -> Attempt, now: int, k: nat)
    requires k <= |q|
    ensures k == 0 ==> ClosedIds(q, attempts, now, k) == {}
    ensures k > 0 ==>
              var earlier, a := ClosedIds(q, attempts, now, k - 1), q[k - 1];
              ClosedIds(q, attempts, now, k) ==
                if Closes(a, attempts(k - 1), now) then earlier + {a.authorizationId} else earlier
  {}

  /** Going through part of a queue keeps the reserve's queues in order. */
  lemma {:induction false} SyncKeepsQueue(w: R.World, p: Progress, q: seq<Authorization>, attempts: nat -> Attempt,
                                          now: int, k: nat)
    requires k <= |q| && R.QueueInvariant(w.(st := p.st))
    ensures R.QueueInvariant(w.(st := RedeemFirst(p, q, attempts, now, k).st,
                                removed := w.removed + ClosedIds(q, attempts, now, k)))
  {
    hide R.QueueInvariant, RedeemOne, Closes, R.Remove, ClosedIds;
    ClosedStep(q, attempts, now, k);
    if k == 0 {
      assert w.removed + {} == w.removed;
    } else {
      SyncKeepsQueue(w, p, q, attempts, now, k - 1);
      var a, t := q[k - 1], attempts(k - 1);
      var before := RedeemFirst(p, q, attempts, now, k - 1);
      var removed := w.removed + ClosedIds(q, attempts, now, k - 1);
      OneState(before, a, t, now);
      if Closes(a, t, now) {
        R.RemoveKeepsQueue(w.(st := before.st, removed := removed), a.authorizationId);
        assert removed + {a.authorizationId} == w.removed + ClosedIds(q, attempts, now, k);
      } else {
        assert removed == w.removed + ClosedIds(q, attempts, now, k);
      }
    }
  }

  lemma HappenKeepsSettlement(s: Setting, b: Books, e: Event)
    requires Settlement(b) && FreshEvent(b, e)
    ensures Settlement(Happen(s, b, e))
  {
    match e
    case Reserve(a) =>
      R.StepKeepsQueue(s, b.w, a);
      RemovedGrows(s, b.w, a);
    case RecordSpend(_) =>
    case Sync(attempts, now) =>
      var (st1, q) := R.GetQueue(b.w.st);
      R.StepKeepsQueue(s, b.w, R.DoGetQueue);
      QueueIsSaved(b.w);
      SyncKeepsQueue(b.w, Progress(st1, LoadRecords(b.records, b.saved), 0, 0, 0), q, attempts, now, |q|);
      SyncClosesOnce(b, q, attempts, now, |q|);
  }

  lemma QueueIsSaved(w: R.World)
    requires R.QueueInvariant(w)
    ensures R.GetQueue(w.st).1 == R.SavedQueue(w.st)
    ensures R.Distinct(R.SavedQueue(w.st)) && R.Live(R.SavedQueue(w.st), w.issued, w.removed)
  {}

  lemma RemovedGrows(s: Setting, w: R.World, a: R.Action)
    ensures w.removed <= R.Step(s, w, a).removed
  {
    hide R.Spend, R.Provision, R.GetActive, R.GetQueue, R.Remove;
  }

  /**
   At most once: over every run of reserve actions, restarts and syncs with fresh ids, each authorization
   is settled or expired at most once in total, and after that it is in no queue and no sync sees it.
   */
  lemma {:induction false} AtMostOnce(s: Setting, events: seq<Event>)
    requires AllFresh(s, events)
    ensures var b := History(s, events);
            && Settlement(b)
            && (forall id ::
                  b.settled[id] + b.expired[id] <= 1
                  && (b.settled[id] + b.expired[id] == 1
                      ==> !R.HasId(b.w.st.queue, id) && !R.HasId(R.GetQueue(b.w.st).1, id)))
  {
    hide Happen, R.Run, FreshEvent;
    if events == [] {
      R.EmptyQueue(s);
    } else {
      var n := |events| - 1;
      forall i | 0 <= i < n ensures FreshEvent(History(s, events[..n][..i]), events[..n][i]) {
        assert events[..n][..i] == events[..i];
      }
      AtMostOnce(s, events[..n]);
      HappenKeepsSettlement(s, History(s, events[..n]), events[n]);
    }
    QueuesAreLive(History(s, events));
  }

  lemma QueuesAreLive(b: Books)
    requires Settlement(b)
    ensures forall id :: id in b.w.removed ==> !R.HasId(b.w.st.queue, id) && !R.HasId(R.GetQueue(b.w.st).1, id)
  {
    hide R.Distinct;
    QueueIsSaved(b.w);
  }
}

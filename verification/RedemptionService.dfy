/**
 The redemption service as the app holds it: a list of record objects changed in place, next to the
 reserve service.
 */
module RedemptionService {
  import opened Text
  import opened Authorizations
  import opened Redemption
  import R = Reserve
  import S = ReserveService

  class OfflineTransactionRecord {
    const authorizationId: string
    const requestId: string
    const merchantId: string
    const amountMinorUnits: int
    const currency: string
    const createdAt: int
    var status: Status
    var stellarTxHash: Option<string>
    var errorMessage: Option<string>
    var settledAt: Option<int>

    constructor (r: Record)
      ensures Value() == r
    {
      authorizationId, requestId, merchantId := r.authorizationId, r.requestId, r.merchantId;
      amountMinorUnits, currency, createdAt := r.amountMinorUnits, r.currency, r.createdAt;
      status, stellarTxHash, errorMessage, settledAt := r.status, r.stellarTxHash, r.errorMessage, r.settledAt;
    }

    function Value(): Record
      reads this
    {
      Record(authorizationId, requestId, merchantId, amountMinorUnits, currency, createdAt, status, stellarTxHash,
             errorMessage, settledAt)
    }
  }

  class RecordStorage {
    var records: Option<seq<Record>>
  }

  function ValuesOf(records: seq<OfflineTransactionRecord>): seq<Record>
    reads records
  {
    seq(|records|, i requires 0 <= i < |records| reads records => records[i].Value())
  }

  class OfflineRedemptionService {
    const reserve: S.OfflineReserveService
    const storage: RecordStorage
    var records: seq<OfflineTransactionRecord>

    ghost predicate Valid()
      reads this
    {
      forall i, j :: 0 <= i < j < |records| ==> records[i] != records[j]
    }

    constructor (reserve: S.OfflineReserveService, storage: RecordStorage)
      ensures Valid() && this.reserve == reserve && this.storage == storage && records == []
    {
      this.reserve, this.storage := reserve, storage;
      records := [];
    }

    method LoadRecords()
      requires Valid()
      modifies this
      ensures Valid() && ValuesOf(records) == Redemption.LoadRecords(old(ValuesOf(records)), storage.records)
      ensures forall r :: r in records ==> r in old(records) || fresh(r)
    {
      match storage.records
      case None =>
      case Some(stored) =>
        var loaded: seq<OfflineTransactionRecord> := [];
        for i := 0 to |stored|
          invariant |loaded| == i && forall j :: 0 <= j < i ==> fresh(loaded[j]) && loaded[j].Value() == stored[j]
          invariant forall j, k :: 0 <= j < k < i ==> loaded[j] != loaded[k]
        {
          var r := new OfflineTransactionRecord(stored[i]);
          loaded := loaded + [r];
        }
        records := loaded;
    }

    lemma SameValues(values: seq<Record>)
      requires |values| == |records| && forall i :: 0 <= i < |records| ==> values[i] == records[i].Value()
      ensures ValuesOf(records) == values
    {}

    method SaveRecords()
      modifies storage
      ensures storage.records == Some(ValuesOf(records))
    {
      var values: seq<Record> := [];
      for i := 0 to |records|
        invariant |values| == i && forall j :: 0 <= j < i ==> values[j] == records[j].Value()
      {
        values := values + [records[i].Value()];
      }
      storage.records := Some(values);
      SameValues(values);
    }

    method RecordSpend(authorization: Authorization)
      requires Valid()
      modifies this, storage
      ensures Valid()
      ensures ValuesOf(records) == [NewRecord(authorization)]
           + Redemption.LoadRecords(old(ValuesOf(records)), old(storage.records))
      ensures storage.records == Some(ValuesOf(records))
    {
      LoadRecords();
      ghost var loaded := ValuesOf(records);
      var record := new OfflineTransactionRecord(NewRecord(authorization));
      assert ValuesOf(records) == loaded;
      records := [record] + records;
      assert ValuesOf(records) == [NewRecord(authorization)] + loaded;
      SaveRecords();
    }

    method IndexWhere(id: string) returns (index: int)
      ensures index == IndexOf(ValuesOf(records), id)
    {
      index := 0;
      while index < |records|
        invariant 0 <= index <= |records|
        invariant forall j :: 0 <= j < index ==> records[j].authorizationId != id
      {
        if records[index].authorizationId == id {
          FirstIndex(ValuesOf(records), id, index);
          return;
        }
        index := index + 1;
      }
      index := -1;
    }

    lemma FirstIndex(values: seq<Record>, id: string, i: nat)
      requires i < |values| && values[i].authorizationId == id
      requires forall j :: 0 <= j < i ==> values[j].authorizationId != id
      ensures IndexOf(values, id) == i
    {}

    /** Changes the record that was found, or puts the new one in front. */
    method Keep(index: int, record: OfflineTransactionRecord, v: Record)
      requires Valid() && v.authorizationId == record.authorizationId
           && index == IndexOf(ValuesOf(records), v.authorizationId)
      requires if index == -1 then record !in records else record == records[index]
      requires record.Value() == v.(status := record.status, stellarTxHash := record.stellarTxHash,
                                    errorMessage := record.errorMessage, settledAt := record.settledAt)
      modifies this, record
      ensures Valid() && ValuesOf(records) == Put(old(ValuesOf(records)), v)
      ensures forall r :: r in records ==> r in old(records) || r == record
    {
      hide Put;
      ghost var before := ValuesOf(records);
      record.status, record.stellarTxHash := v.status, v.stellarTxHash;
      record.errorMessage, record.settledAt := v.errorMessage, v.settledAt;
      PutIs(before, v);
      if index == -1 {
        records := [record] + records;
        SameValues([v] + before);
      } else {
        SameValues(before[index := v]);
      }
    }

    lemma PutIs(values: seq<Record>, v: Record)
      ensures Put(values, v) == if IndexOf(values, v.authorizationId) == -1 then [v] + values
                                else values[IndexOf(values, v.authorizationId) := v]
    {}

    /** What one sync leaves behind and counts. */
    ghost function ProgressNow(succeeded: nat, failed: nat, expired: nat): Progress
      reads this, records, reserve, reserve.inMemoryAllowances.Values, reserve.storage
    {
      Progress(reserve.State(), ValuesOf(records), succeeded, failed, expired)
    }

    /** Finds or creates the record of an authorization and writes the outcome into it. */
    method WriteRecord(auth: Authorization, attempt: Attempt, now: int)
      requires Valid()
      modifies this, records
      ensures Valid()
      ensures ValuesOf(records) == Put(old(ValuesOf(records)),
                                       Revised(RecordOf(old(ValuesOf(records)), auth), auth, attempt, now))
      ensures forall r :: r in records ==> r in old(records) || fresh(r)
    {
      hide Put, Revised;
      var index := IndexWhere(auth.authorizationId);
      var record: OfflineTransactionRecord;
      if index != -1 { record := records[index]; } else { record := new OfflineTransactionRecord(NewRecord(auth)); }
      SameValues(old(ValuesOf(records)));
      var v := Revised(record.Value(), auth, attempt, now);
      RevisedKeeps(record.Value(), auth, attempt, now);
      Keep(index, record, v);
    }

    /** One turn of the loop. */
    method RedeemOne(auth: Authorization, attempt: Attempt, now: int, counts: (nat, nat, nat))
      returns (after: (nat, nat, nat))
      requires Valid()
      modifies this, records, reserve`pendingAuthQueue, reserve.storage
      ensures Valid()
      ensures ProgressNow(after.0, after.1, after.2)
           == Redemption.RedeemOne(old(ProgressNow(counts.0, counts.1, counts.2)), auth, attempt, now)
      ensures forall r :: r in records ==> r in old(records) || fresh(r)
    {
      hide Put, Revised, R.Remove, RecordOf, ValuesOf;
      var (succeeded, failed, expired) := counts;
      if PastWindow(auth, now) {
        WriteRecord(auth, attempt, now);
        Dequeue(auth.authorizationId);
        return (succeeded, failed, expired + 1);
      }
      match attempt
      case Unmounted => return counts;
      case Paid(_, _) =>
        WriteRecord(auth, attempt, now);
        Dequeue(auth.authorizationId);
        return (succeeded + 1, failed, expired);
      case _ =>
        WriteRecord(auth, attempt, now);
        return (succeeded, failed + 1, expired);
    }

    /** Removes from the reserve queue; the records are other objects. */
    method Dequeue(id: string)
      modifies reserve`pendingAuthQueue, reserve.storage
      ensures reserve.State() == R.Remove(old(reserve.State()), id)
      ensures ValuesOf(records) == old(ValuesOf(records))
    {
      ghost var before := ValuesOf(records);
      reserve.RemovePendingAuthorization(id);
      SameValues(before);
    }

    lemma RevisedKeeps(r: Record, a: Authorization, t: Attempt, now: int)
      ensures var v := Revised(r, a, t, now);
              && v.authorizationId == r.authorizationId
              && r == v.(status := r.status, stellarTxHash := r.stellarTxHash, errorMessage := r.errorMessage,
                         settledAt := r.settledAt)
    {}

    /** Goes through a snapshot of the queue; `attempts` says what comes of each position. */
    method SyncAndRedeemAll(attempts: nat -> Attempt, now: int) returns (succeeded: nat, failed: nat, expired: nat)
      requires Valid()
      modifies this, storage, records, reserve`pendingAuthQueue, reserve.storage
      ensures Valid()
      ensures ProgressNow(succeeded, failed, expired)
           == Redemption.SyncAndRedeemAll(old(reserve.State()), old(ValuesOf(records)), old(storage.records),
                                          attempts, now)
      ensures storage.records == Some(ValuesOf(records))
    {
      hide Redemption.RedeemOne, R.GetQueue;
      LoadRecords();
      var pendingQueue := reserve.GetPendingRedemptionQueue();
      var counts: (nat, nat, nat) := (0, 0, 0);
      ghost var start := ProgressNow(0, 0, 0);
      for i := 0 to |pendingQueue|
        invariant Valid() && forall r :: r in records ==> r in old(records) || fresh(r)
        invariant ProgressNow(counts.0, counts.1, counts.2) == RedeemFirst(start, pendingQueue, attempts, now, i)
      {
        assert forall k :: 0 <= k < |records| ==> records[k] in old(records) || fresh(records[k]);
        counts := RedeemOne(pendingQueue[i], attempts(i), now, counts);
      }
      SaveRecords();
      succeeded, failed, expired := counts.0, counts.1, counts.2;
    }
  }
}

/**
 Syncs that overlap on one service instance. A sync gives way while it loads the stored queue, at every payment,
 and while the storage takes the queue without a closed authorization. Exactly when one is settled twice.
 */
module OverlappingSyncs {
  import opened Text
  import opened Authorizations
  import Redemption
  import R = Reserve

  /** A sync that waits for the stored queue, or goes through the queue it found. */
  datatype Sync = Opening | Running(snapshot: seq<Authorization>, at: nat, now: int)

  /** A queue on its way to storage, and the sync that waits for it; a spend's write has none. */
  datatype Pending = Pending(sync: Option<nat>, queue: seq<Authorization>)

  datatype Counter = Counter(
    queue: seq<Authorization>, saved: Option<seq<Authorization>>, writes: seq<Pending>, syncs: seq<Sync>,
    settled: multiset<string>)

  /** A sync starts, loads, or is done with its next payment; a spend adds an authorization; a write lands. */
  datatype Move =
    | StartSync(now: int)
    | Load(sync: nat, now: int)
    | Attempted(sync: nat, attempt: Redemption.Attempt)
    | Enqueue(authorization: Authorization)
    | Write

  // ----- the moves -----------------------------------------------------------------------------------

  /** The sync has an authorization to try, and does not wait for a write. */
  predicate Ready(c: Counter, j: nat) {
    && j < |c.syncs| && c.syncs[j].Running? && c.syncs[j].at < |c.syncs[j].snapshot|
    && forall w :: 0 <= w < |c.writes| ==> c.writes[w].sync != Some(j)
  }

  function Try(c: Counter, j: nat, t: Redemption.Attempt): Counter
    requires Ready(c, j)
  {
    var y := c.syncs[j];
    var a := y.snapshot[y.at];
    var rest := R.Without(c.queue, a.authorizationId);
    var closes := Redemption.Closes(a, t, y.now);
    Counter(if closes then rest else c.queue, c.saved, if closes then c.writes + [Pending(Some(j), rest)] else c.writes,
            c.syncs[j := y.(at := y.at + 1)],
            if Redemption.FateOf(a, t, y.now) == Redemption.Settles then c.settled + multiset{a.authorizationId}
            else c.settled)
  }

  function Begin(c: Counter, now: int): Counter {
    c.(syncs := c.syncs + [if c.queue != [] then Running(c.queue, 0, now) else Opening])
  }

  function LoadIn(c: Counter, j: nat, now: int): Counter {
    if !(j < |c.syncs| && c.syncs[j].Opening?) then c
    else match c.saved
      case None => c.(syncs := c.syncs[j := Running([], 0, now)])
      case Some(q) => c.(queue := q, syncs := c.syncs[j := Running(q, 0, now)])
  }

  function Next(c: Counter, m: Move): Counter {
    match m
    case StartSync(now) => Begin(c, now)
    case Load(j, now) => LoadIn(c, j, now)
    case Attempted(j, t) => if Ready(c, j) then Try(c, j, t) else c
    case Enqueue(a) => c.(queue := c.queue + [a], writes := c.writes + [Pending(None, c.queue + [a])])
    case Write => if c.writes == [] then c else c.(saved := Some(c.writes[0].queue), writes := c.writes[1..])
  }

  function NextAll(c: Counter, moves: seq<Move>): Counter {
    if moves == [] then c else Next(NextAll(c, moves[..|moves| - 1]), moves[|moves| - 1])
  }

  lemma NextLast(c: Counter, front: seq<Move>, m: Move)
    ensures NextAll(c, front + [m]) == Next(NextAll(c, front), m) && NextAll(c, []) == c
  {
    var moves := front + [m];
    assert moves[..|moves| - 1] == front;
  }

  lemma {:induction false} NextMore(c: Counter, front: seq<Move>, more: seq<Move>)
    ensures NextAll(c, front + more) == NextAll(NextAll(c, front), more)
  {
    hide Next;
    if more == [] {
      assert front + more == front;
    } else {
      var n := |more| - 1;
      NextMore(c, front, more[..n]);
      assert front + more == (front + more[..n]) + [more[n]] && more == more[..n] + [more[n]];
      NextLast(c, front + more[..n], more[n]);
      NextLast(NextAll(c, front), more[..n], more[n]);
    }
  }

  // ----- who may still settle what ---------------------------------------------------------------------

  /** The ids of a queue from a position on that are within their window. */
  function Payable(q: seq<Authorization>, at: nat, now: int): set<string> {
    set i | at <= i < |q| && !Redemption.PastWindow(q[i], now) :: q[i].authorizationId
  }

  /** What a sync may still settle. */
  function Due(y: Sync): set<string> {
    match y case Opening => {} case Running(q, at, now) => Payable(q, at, now)
  }

  /** What a move makes a sync take up. */
  function TakenUp(c: Counter, m: Move): set<string> {
    match m
    case StartSync(now) => Payable(c.queue, 0, now)
    case Load(j, now) =>
      if j < |c.syncs| && c.syncs[j].Opening? && c.saved.Some? then Payable(c.saved.value, 0, now) else {}
    case _ => {}
  }

  /** A sync takes up nothing that is settled already, or that another sync may still settle. */
  ghost predicate Clear(c: Counter, m: Move) {
    forall id :: id in TakenUp(c, m) ==>
      id !in c.settled && forall j :: 0 <= j < |c.syncs| ==> id !in Due(c.syncs[j])
  }

  ghost predicate AllClear(c: Counter, moves: seq<Move>) {
    forall i :: 0 <= i < |moves| ==> Clear(NextAll(c, moves[..i]), moves[i])
  }

  /** A spend's authorization has an id that is not queued. */
  ghost predicate Fresh(c: Counter, m: Move) {
    m.Enqueue? ==> !R.HasId(c.queue, m.authorization.authorizationId)
  }

  ghost predicate AllFresh(c: Counter, moves: seq<Move>) {
    forall i :: 0 <= i < |moves| ==> Fresh(NextAll(c, moves[..i]), moves[i])
  }

  /** Every queue about holds distinct ids. */
  ghost predicate Tidy(c: Counter) {
    && R.Distinct(c.queue) && (c.saved.Some? ==> R.Distinct(c.saved.value))
    && (forall w :: 0 <= w < |c.writes| ==> R.Distinct(c.writes[w].queue))
    && forall j :: 0 <= j < |c.syncs| && c.syncs[j].Running? ==> R.Distinct(c.syncs[j].snapshot)
  }

  /** No two syncs may settle one authorization, none may settle a settled one, and none was settled twice. */
  ghost predicate Single(c: Counter) {
    && (forall j, k :: 0 <= j < k < |c.syncs| ==> Due(c.syncs[j]) !! Due(c.syncs[k]))
    && (forall j :: 0 <= j < |c.syncs| ==> forall id :: id in Due(c.syncs[j]) ==> id !in c.settled)
    && forall id :: c.settled[id] <= 1
  }

  lemma MoveKeepsTidy(c: Counter, m: Move)
    requires Tidy(c) && Fresh(c, m)
    ensures Tidy(Next(c, m))
  {
    hide R.Distinct, R.Without, R.HasId, Redemption.Closes, Redemption.FateOf;
    match m
    case Attempted(j, _) =>
      if Ready(c, j) { R.WithoutDistinct(c.queue, c.syncs[j].snapshot[c.syncs[j].at].authorizationId); }
    case Enqueue(a) => EnqueueDistinct(c.queue, a);
    case Write => WriteKeepsTidy(c);
    case StartSync(_) =>
    case Load(_, _) => NothingDistinct();
  }

  lemma NothingDistinct()
    ensures R.Distinct([])
  {}

  lemma WriteKeepsTidy(c: Counter)
    requires Tidy(c)
    ensures Tidy(Next(c, Write))
  {
    hide R.Distinct;
    var c' := Next(c, Write);
    forall w | 0 <= w < |c'.writes| ensures R.Distinct(c'.writes[w].queue) {
      assert c'.writes[w] == c.writes[w + 1];
    }
  }

  lemma EnqueueDistinct(q: seq<Authorization>, a: Authorization)
    requires R.Distinct(q) && !R.HasId(q, a.authorizationId)
    ensures R.Distinct(q + [a])
  {}

  lemma PayableNext(q: seq<Authorization>, at: nat, now: int)
    requires R.Distinct(q) && at < |q|
    ensures var id := q[at].authorizationId;
            Payable(q, at + 1, now) <= Payable(q, at, now) && id !in Payable(q, at + 1, now)
            && (!Redemption.PastWindow(q[at], now) ==> id in Payable(q, at, now))
  {
    hide Redemption.PastWindow;
  }

  lemma TryKeepsSingle(c: Counter, j: nat, t: Redemption.Attempt)
    requires Tidy(c) && Single(c) && Ready(c, j)
    ensures Single(Try(c, j, t))
  {
    hide R.Distinct, R.Without, Payable, Redemption.Closes, Redemption.PastWindow;
    var c', y := Try(c, j, t), c.syncs[j];
    PayableNext(y.snapshot, y.at, y.now);
    forall k | 0 <= k < |c'.syncs| ensures Due(c'.syncs[k]) <= Due(c.syncs[k]) {}
    var id := y.snapshot[y.at].authorizationId;
    forall k | 0 <= k < |c'.syncs| && k != j && id in Due(c.syncs[j]) ensures id !in Due(c'.syncs[k]) {
      assert k < j || j < k;
    }
  }

  /** The sync that a move makes go on, if it takes anything up. */
  function Taker(c: Counter, m: Move): nat
    requires m.StartSync? || m.Load?
  {
    if m.StartSync? then |c.syncs| else m.sync
  }

  lemma TakesUp(c: Counter, m: Move)
    requires m.StartSync? || m.Load?
    ensures var c', n := Next(c, m), Taker(c, m);
            && |c.syncs| <= |c'.syncs| && c'.settled == c.settled
            && (forall k :: 0 <= k < |c.syncs| && k != n ==> c'.syncs[k] == c.syncs[k])
            && |c'.syncs| <= |c.syncs| + 1 && (|c.syncs| < |c'.syncs| ==> n == |c.syncs|)
            && (n < |c'.syncs| && c'.syncs[n] != (if n < |c.syncs| then c.syncs[n] else Opening) ==>
                  Due(c'.syncs[n]) == TakenUp(c, m) && (n < |c.syncs| ==> Due(c.syncs[n]) == {}))
            && (TakenUp(c, m) != {} ==> n < |c'.syncs| && Due(c'.syncs[n]) == TakenUp(c, m)
                                        && (n < |c.syncs| ==> Due(c.syncs[n]) == {}))
  {
    hide Redemption.PastWindow;
  }

  lemma MoveKeepsSingle(c: Counter, m: Move)
    requires Tidy(c) && Single(c) && Clear(c, m)
    ensures Single(Next(c, m))
  {
    hide Tidy, Try, TakenUp, Due;
    match m
    case Attempted(j, t) => if Ready(c, j) { TryKeepsSingle(c, j, t); }
    case Enqueue(_) =>
    case Write =>
    case _ =>
      TakesUp(c, m);
      hide Next;
      var c', n := Next(c, m), Taker(c, m);
      forall j, k | 0 <= j < k < |c'.syncs| ensures Due(c'.syncs[j]) !! Due(c'.syncs[k]) {
        EmptyDue();
      }
      EmptyDue();
  }

  lemma EmptyDue()
    ensures Due(Opening) == {}
  {}

  lemma FrontClear(c: Counter, moves: seq<Move>)
    requires moves != [] && AllClear(c, moves) && AllFresh(c, moves)
    ensures var n := |moves| - 1;
            && AllClear(c, moves[..n]) && AllFresh(c, moves[..n])
            && Clear(NextAll(c, moves[..n]), moves[n]) && Fresh(NextAll(c, moves[..n]), moves[n])
  {
    hide NextAll, Clear, Fresh;
    var n := |moves| - 1;
    forall i | 0 <= i < n ensures moves[..n][..i] == moves[..i] {}
  }

  /** When syncs take up only what is clear, nothing is settled twice, however the payments turn out. */
  lemma {:induction false} ClearSyncs(c: Counter, moves: seq<Move>)
    requires Tidy(c) && Single(c) && AllClear(c, moves) && AllFresh(c, moves)
    ensures Tidy(NextAll(c, moves)) && Single(NextAll(c, moves))
    ensures forall id :: NextAll(c, moves).settled[id] <= 1
  {
    hide Tidy, Next, Clear, Fresh, AllClear, AllFresh;
    if moves != [] {
      var n := |moves| - 1;
      FrontClear(c, moves);
      ClearSyncs(c, moves[..n]);
      MoveKeepsTidy(NextAll(c, moves[..n]), moves[n]);
      MoveKeepsSingle(NextAll(c, moves[..n]), moves[n]);
    }
  }

  // ----- what the caller sees ----------------------------------------------------------------------------

  /** The queue as storage has it once all writes have landed. */
  function Newest(c: Counter): seq<Authorization> {
    if c.writes != [] then c.writes[|c.writes| - 1].queue
    else match c.saved case None => [] case Some(q) => q
  }

  /** What is settled is queued no more, in memory or in what storage will hold. */
  ghost predicate Kept(c: Counter) {
    forall id :: id in c.settled ==> !R.HasId(c.queue, id) && !R.HasId(Newest(c), id)
  }

  /** A sync takes up nothing due in another, and loads the stored queue only when no write is on its way there. */
  ghost predicate Apart(c: Counter, m: Move) {
    && (m.Load? ==> c.writes == [])
    && forall id, j :: id in TakenUp(c, m) && 0 <= j < |c.syncs| ==> id !in Due(c.syncs[j])
  }

  /** A spend's id is new. */
  ghost predicate New(c: Counter, m: Move) {
    m.Enqueue? ==> !R.HasId(c.queue, m.authorization.authorizationId) && m.authorization.authorizationId !in c.settled
  }

  ghost predicate AllApart(c: Counter, moves: seq<Move>) {
    forall i :: 0 <= i < |moves| ==> Apart(NextAll(c, moves[..i]), moves[i]) && New(NextAll(c, moves[..i]), moves[i])
  }

  lemma PayableHas(q: seq<Authorization>, now: int, id: string)
    requires id in Payable(q, 0, now)
    ensures R.HasId(q, id)
  {
    hide Redemption.PastWindow;
  }

  lemma ApartIsClear(c: Counter, m: Move)
    requires Kept(c) && Apart(c, m)
    ensures Clear(c, m)
  {
    hide R.HasId, Payable, Due;
    forall id | id in TakenUp(c, m) ensures id !in c.settled {
      if m.StartSync? { PayableHas(c.queue, m.now, id); } else { PayableHas(c.saved.value, m.now, id); }
    }
  }

  lemma WithoutHas(q: seq<Authorization>, id: string, other: string)
    ensures R.HasId(R.Without(q, id), other) ==> R.HasId(q, other) && other != id
  {
    hide R.Without;
    R.WithoutMembers(q, id);
    if R.HasId(R.Without(q, id), other) {
      var i :| 0 <= i < |R.Without(q, id)| && R.Without(q, id)[i].authorizationId == other;
      assert R.Without(q, id)[i] in q;
    }
  }

  lemma EnqueueHas(q: seq<Authorization>, a: Authorization, id: string)
    ensures R.HasId(q + [a], id) ==> R.HasId(q, id) || a.authorizationId == id
  {
    if R.HasId(q + [a], id) {
      var i :| 0 <= i < |q + [a]| && (q + [a])[i].authorizationId == id;
      if i < |q| { assert q[i].authorizationId == id; }
    }
  }

  lemma MoveKeepsKept(c: Counter, m: Move)
    requires Kept(c) && Apart(c, m) && New(c, m)
    ensures Kept(Next(c, m))
  {
    hide R.HasId, R.Without, Payable, Due, Redemption.PastWindow;
    var c' := Next(c, m);
    forall id | id in c'.settled ensures !R.HasId(c'.queue, id) && !R.HasId(Newest(c'), id) {
      if m.Attempted? && Ready(c, m.sync) {
        WithoutHas(c.queue, c.syncs[m.sync].snapshot[c.syncs[m.sync].at].authorizationId, id);
      } else if m.Enqueue? {
        EnqueueHas(c.queue, m.authorization, id);
      }
    }
  }

  /** So it is at the start of an instance, which has read its queue or not. */
  lemma StartIsKept(q: seq<Authorization>, read: bool)
    requires R.Distinct(q)
    ensures var c := Counter(if read then q else [], Some(q), [], [], multiset{});
            Tidy(c) && Single(c) && Kept(c)
  {
    hide R.Distinct, R.HasId;
    NothingDistinct();
  }

  lemma FrontApart(c: Counter, moves: seq<Move>)
    requires moves != [] && AllApart(c, moves)
    ensures var n := |moves| - 1;
            && AllApart(c, moves[..n])
            && Apart(NextAll(c, moves[..n]), moves[n]) && New(NextAll(c, moves[..n]), moves[n])
  {
    hide NextAll, Apart, New;
    var n := |moves| - 1;
    forall i | 0 <= i < n ensures moves[..n][..i] == moves[..i] {}
  }

  /**
   When no sync takes up what another may still settle, and none loads the stored queue while a write is on its way
   there, nothing is settled twice: over every interleaving of syncs, payments, spends and writes.
   */
  lemma {:induction false} ApartSyncs(c: Counter, moves: seq<Move>)
    requires Tidy(c) && Single(c) && Kept(c) && AllApart(c, moves)
    ensures Tidy(NextAll(c, moves)) && Single(NextAll(c, moves)) && Kept(NextAll(c, moves))
    ensures forall id :: NextAll(c, moves).settled[id] <= 1
  {
    hide Tidy, Kept, Next, Apart, AllApart, Clear, R.HasId;
    if moves != [] {
      var n := |moves| - 1;
      FrontApart(c, moves);
      ApartSyncs(c, moves[..n]);
      var before := NextAll(c, moves[..n]);
      ApartIsClear(before, moves[n]);
      MoveKeepsTidy(before, moves[n]);
      MoveKeepsSingle(before, moves[n]);
      MoveKeepsKept(before, moves[n]);
    }
  }

  /** The sync has gone through its queue. */
  predicate Done(y: Sync) { y.Running? && y.at >= |y.snapshot| }

  /** A sync starts, and loads, only when every other is done and no write is on its way. */
  ghost predicate Alone(c: Counter, m: Move) {
    m.StartSync? || m.Load? ==>
      c.writes == [] && forall j :: 0 <= j < |c.syncs| && (m.StartSync? || j != m.sync) ==> Done(c.syncs[j])
  }

  ghost predicate AllAlone(c: Counter, moves: seq<Move>) {
    forall i :: 0 <= i < |moves| ==> Alone(NextAll(c, moves[..i]), moves[i]) && New(NextAll(c, moves[..i]), moves[i])
  }

  lemma AloneIsApart(c: Counter, m: Move)
    requires Alone(c, m)
    ensures Apart(c, m)
  {
    hide Redemption.PastWindow;
  }

  /** So it is when syncs run one after the other. */
  lemma SyncsOneByOne(c: Counter, moves: seq<Move>)
    requires Tidy(c) && Single(c) && Kept(c) && AllAlone(c, moves)
    ensures forall id :: NextAll(c, moves).settled[id] <= 1
  {
    hide Tidy, Single, Kept, NextAll, Alone, Apart, New;
    forall i | 0 <= i < |moves| ensures Apart(NextAll(c, moves[..i]), moves[i]) {
      AloneIsApart(NextAll(c, moves[..i]), moves[i]);
    }
    ApartSyncs(c, moves);
  }

  // ----- otherwise something is settled twice ------------------------------------------------------------

  /** Payments and writes, but no sync that starts or loads. */
  ghost predicate NoStarts(moves: seq<Move>) {
    forall i :: 0 <= i < |moves| ==> moves[i].Attempted? || moves[i].Write?
  }

  lemma {:induction false} Flush(c: Counter) returns (moves: seq<Move>)
    ensures NoStarts(moves)
    ensures var c' := NextAll(c, moves);
            c'.writes == [] && c'.queue == c.queue && c'.syncs == c.syncs && c'.settled == c.settled
    decreases |c.writes|
  {
    if c.writes == [] {
      moves := [];
    } else {
      var rest := Flush(Next(c, Write));
      moves := [Write] + rest;
      NextMore(c, [Write], rest);
      NextLast(c, [], Write);
      assert [] + [Write] == [Write];
    }
  }

  /** One payment of a sync, once its write has landed. */
  lemma OneMore(c: Counter, j: nat, t: Redemption.Attempt) returns (moves: seq<Move>)
    requires j < |c.syncs| && c.syncs[j].Running? && c.syncs[j].at < |c.syncs[j].snapshot|
    ensures NoStarts(moves)
    ensures var c', y := NextAll(c, moves), c.syncs[j];
            && c'.syncs == c.syncs[j := y.(at := y.at + 1)]
            && c'.settled == (if Redemption.FateOf(y.snapshot[y.at], t, y.now) == Redemption.Settles
                              then c.settled + multiset{y.snapshot[y.at].authorizationId} else c.settled)
  {
    hide R.Without, Redemption.Closes, Redemption.FateOf;
    var x := Flush(c);
    var m := Attempted(j, t);
    NextLast(c, x, m);
    moves := x + [m];
    assert Ready(NextAll(c, x), j);
  }

  /** A sync can settle what is due in it, whatever else it still goes through, and no other sync moves. */
  lemma {:induction false} Settle(c: Counter, j: nat, i: nat) returns (moves: seq<Move>)
    requires j < |c.syncs| && c.syncs[j].Running? && c.syncs[j].at <= i < |c.syncs[j].snapshot|
    requires !Redemption.PastWindow(c.syncs[j].snapshot[i], c.syncs[j].now)
    ensures NoStarts(moves)
    ensures var c', id := NextAll(c, moves), c.syncs[j].snapshot[i].authorizationId;
            && c.settled + multiset{id} <= c'.settled
            && |c'.syncs| == |c.syncs| && forall k :: 0 <= k < |c.syncs| && k != j ==> c'.syncs[k] == c.syncs[k]
    decreases i - c.syncs[j].at
  {
    hide Redemption.PastWindow;
    var y := c.syncs[j];
    if y.at == i {
      moves := OneMore(c, j, Redemption.Paid("", y.now));
    } else {
      var x := OneMore(c, j, Redemption.NotPaid(None));
      var c1 := NextAll(c, x);
      var rest := Settle(c1, j, i);
      moves := x + rest;
      NextMore(c, x, rest);
    }
  }

  lemma SettleDue(c: Counter, j: nat, id: string) returns (moves: seq<Move>)
    requires j < |c.syncs| && id in Due(c.syncs[j])
    ensures NoStarts(moves)
    ensures var c' := NextAll(c, moves);
            && c'.settled[id] >= c.settled[id] + 1
            && |c'.syncs| == |c.syncs| && forall k :: 0 <= k < |c.syncs| && k != j ==> c'.syncs[k] == c.syncs[k]
  {
    hide Redemption.PastWindow, NextAll;
    var y := c.syncs[j];
    var i: nat :| y.at <= i < |y.snapshot| && !Redemption.PastWindow(y.snapshot[i], y.now)
                  && y.snapshot[i].authorizationId == id;
    moves := Settle(c, j, i);
    assert (c.settled + multiset{id})[id] == c.settled[id] + 1;
  }

  /** A sync that takes up something settled, or due in another sync, has a continuation that settles it twice. */
  lemma SettledTwice(c: Counter, m: Move) returns (moves: seq<Move>, id: string)
    requires !Clear(c, m)
    ensures NoStarts(moves) && NextAll(Next(c, m), moves).settled[id] >= 2
  {
    var x :| x in TakenUp(c, m) && (x in c.settled || exists j :: 0 <= j < |c.syncs| && x in Due(c.syncs[j]));
    id := x;
    assert m.StartSync? || m.Load?;
    TakesUp(c, m);
    EmptyDue();
    hide Next, NextAll, TakenUp, Due;
    var c', n := Next(c, m), Taker(c, m);
    moves := SettleDue(c', n, id);
    if id !in c.settled {
      var j :| 0 <= j < |c.syncs| && id in Due(c.syncs[j]);
      var c1 := NextAll(c', moves);
      var more := SettleDue(c1, j, id);
      NextMore(c', moves, more);
      moves := moves + more;
    }
  }

  lemma NoStartsIsClear(c: Counter, moves: seq<Move>)
    requires NoStarts(moves)
    ensures AllClear(c, moves) && AllFresh(c, moves)
  {
    hide NextAll;
  }

  /**
   Exactly which starts are safe. From a state in which nothing was or can be settled twice: no continuation
   without further starts settles anything twice, if and only if what the sync takes up is neither settled nor
   due in another sync.
   */
  lemma SyncSafeIff(c: Counter, m: Move)
    requires Tidy(c) && Single(c) && (m.StartSync? || m.Load?)
    ensures Clear(c, m) <==>
            forall moves, id :: NoStarts(moves) ==> NextAll(Next(c, m), moves).settled[id] <= 1
  {
    hide Tidy, Single, Clear, NoStarts, Next, NextAll, AllClear, AllFresh;
    if Clear(c, m) {
      MoveKeepsTidy(c, m);
      MoveKeepsSingle(c, m);
      forall moves, id | NoStarts(moves) ensures NextAll(Next(c, m), moves).settled[id] <= 1 {
        NoStartsIsClear(Next(c, m), moves);
        ClearSyncs(Next(c, m), moves);
      }
    } else {
      var moves, id := SettledTwice(c, m);
      assert NextAll(Next(c, m), moves).settled[id] >= 2;
    }
  }

  /** Two syncs that start over one queue: whatever is queued and within its window can be paid twice. */
  lemma PaidTwice(c: Counter, i: nat, now: int) returns (moves: seq<Move>)
    requires i < |c.queue| && !Redemption.PastWindow(c.queue[i], now)
    ensures NoStarts(moves)
    ensures var d := Next(Next(c, StartSync(now)), StartSync(now));
            NextAll(d, moves).settled[c.queue[i].authorizationId] >= 2
  {
    hide Redemption.PastWindow, NextAll;
    var c1 := Next(c, StartSync(now));
    var d, n, id := Next(c1, StartSync(now)), |c.syncs|, c.queue[i].authorizationId;
    assert d.syncs[n] == Running(c.queue, 0, now) && d.syncs[n + 1] == Running(c.queue, 0, now);
    moves := SettleDue(d, n, id);
    var more := SettleDue(NextAll(d, moves), n + 1, id);
    NextMore(d, moves, more);
    moves := moves + more;
  }

  /**
   Nor is it enough that a sync has paid: until the shorter queue is stored, another that finds nothing in memory loads
   the old one and takes up what is settled.
   */
  lemma StaleQueue(a: Authorization, hash: string, now: int)
    requires !Redemption.PastWindow(a, now)
    ensures var c := NextAll(Counter([a], Some([a]), [], [], multiset{}),
                             [StartSync(now), Attempted(0, Redemption.Paid(hash, now)), StartSync(now)]);
            && c.settled[a.authorizationId] == 1 && c.writes != [] && !Clear(c, Load(1, now))
  {
    hide Redemption.PastWindow, NextAll;
    var c0, t, id := Counter([a], Some([a]), [], [], multiset{}), Redemption.Paid(hash, now), a.authorizationId;
    var x, y := StartSync(now), Attempted(0, t);
    NextLast(c0, [], x);
    NextLast(c0, [x], y);
    NextLast(c0, [x, y], x);
    assert [] + [x] == [x] && [x] + [y] == [x, y] && [x, y] + [x] == [x, y, x];
    var c1 := Next(c0, x);
    assert c1.syncs == [Running([a], 0, now)] && Ready(c1, 0);
    WithoutOne(a);
    var c2 := Next(c1, y);
    var c := Next(c2, x);
    assert c.syncs == [Running([a], 1, now), Opening];
    assert [a][0] == a && id in Payable([a], 0, now);
    assert id in TakenUp(c, Load(1, now)) && id in c.settled;
  }

  lemma WithoutOne(a: Authorization)
    ensures R.Without([a], a.authorizationId) == []
  {
    assert [a][..0] == [];
    assert R.Without([], a.authorizationId) == [];
  }

  // ----- a sync that nothing interrupts ------------------------------------------------------------------

  /** The counter holds and stores the service's queue, and no write is under way. */
  predicate Shows(c: Counter, st: R.State) {
    c.queue == st.queue && c.saved == st.savedQueue && c.writes == []
  }

  /** The first `k` payments of a sync in a row, each with its write if it has one. */
  function PaysAlone(c: Counter, j: nat, attempts: nat -> Redemption.Attempt, k: nat): Counter {
    if k == 0 then c else Next(Next(PaysAlone(c, j, attempts, k - 1), Attempted(j, attempts(k - 1))), Write)
  }

  /** The start of a sync, with its load if it needs one. */
  function StartsAlone(c: Counter, now: int): Counter {
    Next(Next(c, StartSync(now)), Load(|c.syncs|, now))
  }

  lemma OnePayment(c: Counter, j: nat, t: Redemption.Attempt, st: R.State, b: Redemption.Progress)
    requires Ready(c, j) && Shows(c, b.st)
    ensures var y := c.syncs[j];
            var c' := Next(Next(c, Attempted(j, t)), Write);
            var a := y.snapshot[y.at];
            && Shows(c', Redemption.RedeemOne(b, a, t, y.now).st)
            && c'.syncs == c.syncs[j := y.(at := y.at + 1)]
            && c'.settled == c.settled + Redemption.SettledOne(a, t, y.now)
  {
    hide R.Without, Redemption.Put, Redemption.Revised, Redemption.RecordOf, Redemption.PastWindow;
    Redemption.OneState(b, c.syncs[j].snapshot[c.syncs[j].at], t, c.syncs[j].now);
  }

  lemma {:induction false} PaymentsAlone(c: Counter, j: nat, q: seq<Authorization>, now: int,
                                         attempts: nat -> Redemption.Attempt, k: nat, b: Redemption.Progress)
    requires j < |c.syncs| && c.syncs[j] == Running(q, 0, now) && k <= |q| && Shows(c, b.st)
    ensures var c' := PaysAlone(c, j, attempts, k);
            && Shows(c', Redemption.RedeemFirst(b, q, attempts, now, k).st)
            && c'.syncs == c.syncs[j := Running(q, k, now)]
            && c'.settled == c.settled + Redemption.SettledIds(q, attempts, now, k)
  {
    hide Next, Redemption.RedeemOne, Redemption.SettledOne, Shows;
    if k == 0 {
      assert c.settled + multiset{} == c.settled;
    } else {
      PaymentsAlone(c, j, q, now, attempts, k - 1, b);
      var before := PaysAlone(c, j, attempts, k - 1);
      assert before.syncs[j] == Running(q, k - 1, now);
      NoWrites(before, Redemption.RedeemFirst(b, q, attempts, now, k - 1).st);
      OnePayment(before, j, attempts(k - 1), b.st, Redemption.RedeemFirst(b, q, attempts, now, k - 1));
    }
  }

  lemma NoWrites(c: Counter, st: R.State)
    requires Shows(c, st)
    ensures c.writes == []
  {}

  lemma StartAlone(c: Counter, now: int, st: R.State)
    requires Shows(c, st)
    ensures var c', (st1, q) := StartsAlone(c, now), R.GetQueue(st);
            && Shows(c', st1) && c'.syncs == c.syncs + [Running(q, 0, now)] && c'.settled == c.settled
  {
    var n := |c.syncs|;
    assert forall y: Sync, z: Sync :: (c.syncs + [y])[n := z] == c.syncs + [z];
  }

  /**
   Alone, a sync does to the queue what it does in the service, in memory and in storage, and settles exactly the ids
   that it settles there.
   */
  lemma SyncAloneIs(c: Counter, st: R.State, records: seq<Redemption.Record>, saved: Option<seq<Redemption.Record>>,
                    attempts: nat -> Redemption.Attempt, now: int)
    requires Shows(c, st)
    ensures var q := R.GetQueue(st).1;
            var c' := PaysAlone(StartsAlone(c, now), |c.syncs|, attempts, |q|);
            && Shows(c', Redemption.SyncAndRedeemAll(st, records, saved, attempts, now).st)
            && c'.settled == c.settled + Redemption.SettledIds(q, attempts, now, |q|)
  {
    hide PaysAlone, Next, Redemption.RedeemFirst, Redemption.SettledIds, Shows;
    var (st1, q) := R.GetQueue(st);
    StartAlone(c, now, st);
    var b := Redemption.Progress(st1, Redemption.LoadRecords(records, saved), 0, 0, 0);
    PaymentsAlone(StartsAlone(c, now), |c.syncs|, q, now, attempts, |q|, b);
  }
}

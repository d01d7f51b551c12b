/**
 The Safebox escrow contract: persistent storage, the token ledger it moves funds on, and what holds over
 every run of calls and outside token transfers.
 */
module Safebox {
  import opened Text

  type Address = string

  const MAX_ADMINS := 3

  datatype Kind = Contribution | Withdrawal

  datatype Entry = Entry(kind: Kind, member: Address, amount: int, createdAt: int)

  datatype SafeboxError =
    | AlreadyInitialized | NotInitialized | Unauthorized | AdminLimitReached | NotAnAdmin | AlreadyAnAdmin | IsClosed
    | InvalidAmount

  /** A trap is a failed authorization or transfer: it undoes the whole call. */
  datatype Outcome = Ok | Err(error: SafeboxError) | Trapped

  /** The five storage keys, the published events, and the balances of the escrowed token. */
  datatype State = State(
    owner: Option<Address>, token: Option<Address>, admins: Option<seq<Address>>, closed: Option<bool>,
    ledger: Option<seq<Entry>>, events: seq<Entry>, balances: map<Address, int>)

  function BalanceOf(balances: map<Address, int>, a: Address): int {
    if a in balances then balances[a] else 0
  }

  function Transfer(balances: map<Address, int>, from: Address, to: Address, amount: int): map<Address, int> {
    var debited := balances[from := BalanceOf(balances, from) - amount];
    debited[to := BalanceOf(debited, to) + amount]
  }

  /** `granted` is whatever else the token contract asks of a transfer. */
  predicate CanTransfer(balances: map<Address, int>, from: Address, amount: int, granted: bool) {
    granted && BalanceOf(balances, from) >= amount
  }

  function Admins(st: State): seq<Address> {
    match st.admins case None => [] case Some(a) => a
  }

  function LedgerOf(st: State): seq<Entry> {
    match st.ledger case None => [] case Some(l) => l
  }

  predicate MarkedClosed(st: State) { st.closed == Some(true) }

  function Record(st: State, e: Entry): State {
    st.(ledger := Some(LedgerOf(st) + [e]), events := st.events + [e])
  }

  // ----- entry points ------------------------------------------------------------------------------------

  function Init(st: State, signers: set<Address>, owner: Address, token: Address): (State, Outcome) {
    if st.owner.Some? then (st, Err(AlreadyInitialized))
    else if owner !in signers then (st, Trapped)
    else (st.(owner := Some(owner), token := Some(token), admins := Some([]), closed := Some(false),
              ledger := Some([])), Ok)
  }

  function Contribute(st: State, self: Address, signers: set<Address>, granted: bool, now: int, member: Address,
                      amount: int)
      : (State, Outcome)
  {
    if st.owner.None? then (st, Err(NotInitialized))
    else if amount <= 0 then (st, Err(InvalidAmount))
    else if MarkedClosed(st) then (st, Err(IsClosed))
    else if st.token.None? then (st, Err(NotInitialized))
    else if member !in signers || !CanTransfer(st.balances, member, amount, granted) then (st, Trapped)
    else (Record(st.(balances := Transfer(st.balances, member, self, amount)),
                 Entry(Contribution, member, amount, now)), Ok)
  }

  function Withdraw(st: State, self: Address, signers: set<Address>, granted: bool, now: int, caller: Address,
                    to: Address, amount: int): (State, Outcome)
  {
    if st.owner.None? then (st, Err(NotInitialized))
    else if amount <= 0 then (st, Err(InvalidAmount))
    else if MarkedClosed(st) then (st, Err(IsClosed))
    else if st.owner != Some(caller) && caller !in Admins(st) then (st, Err(Unauthorized))
    else if caller !in signers then (st, Trapped)
    else if st.token.None? then (st, Err(NotInitialized))
    else if !CanTransfer(st.balances, self, amount, granted) then (st, Trapped)
    else (Record(st.(balances := Transfer(st.balances, self, to, amount)), Entry(Withdrawal, caller, amount, now)), Ok)
  }

  function AddAdmin(st: State, signers: set<Address>, caller: Address, admin: Address): (State, Outcome) {
    if st.owner.None? then (st, Err(NotInitialized))
    else if st.owner != Some(caller) then (st, Err(Unauthorized))
    else if st.owner == Some(admin) then (st, Err(AlreadyAnAdmin))
    else if caller !in signers then (st, Trapped)
    else if |Admins(st)| >= MAX_ADMINS then (st, Err(AdminLimitReached))
    else if admin in Admins(st) then (st, Err(AlreadyAnAdmin))
    else (st.(admins := Some(Admins(st) + [admin])), Ok)
  }

  function FirstIndexOf(s: seq<Address>, a: Address): (i: nat)
    requires a in s
    ensures i < |s| && s[i] == a
  {
    if s[0] == a then 0 else 1 + FirstIndexOf(s[1..], a)
  }

  function RemoveAdmin(st: State, signers: set<Address>, caller: Address, admin: Address): (State, Outcome) {
    if st.owner.None? then (st, Err(NotInitialized))
    else if st.owner != Some(caller) then (st, Err(Unauthorized))
    else if caller !in signers then (st, Trapped)
    else if admin !in Admins(st) then (st, Err(NotAnAdmin))
    else
      var i := FirstIndexOf(Admins(st), admin);
      (st.(admins := Some(Admins(st)[..i] + Admins(st)[i + 1..])), Ok)
  }

  function Close(st: State, signers: set<Address>, caller: Address): (State, Outcome) {
    if st.owner.None? then (st, Err(NotInitialized))
    else if st.owner != Some(caller) then (st, Err(Unauthorized))
    else if caller !in signers then (st, Trapped)
    else (st.(closed := Some(true)), Ok)
  }

  // ----- the contract ----------------------------------------------------------------------------------------

  class Token {
    var balances: map<Address, int>
  }

  /** One deployed contract; `storage` keys are its fields. */
  class SafeboxContract {
    const self: Address
    const token: Token
    var owner: Option<Address>
    var tokenAddress: Option<Address>
    var admins: Option<seq<Address>>
    var closed: Option<bool>
    var ledger: Option<seq<Entry>>
    var events: seq<Entry>

    constructor (self: Address, token: Token)
      ensures this.self == self && this.token == token
      ensures Value() == State(None, None, None, None, None, [], token.balances)
    {
      this.self, this.token := self, token;
      owner, tokenAddress, admins, closed, ledger, events := None, None, None, None, None, [];
    }

    function Value(): State
      reads this, token
    {
      State(owner, tokenAddress, admins, closed, ledger, events, token.balances)
    }

    method Initialize(signers: set<Address>, newOwner: Address, newToken: Address) returns (o: Outcome)
      modifies this
      ensures (Value(), o) == Init(old(Value()), signers, newOwner, newToken)
    {
      if owner.Some? { return Err(AlreadyInitialized); }
      if newOwner !in signers { return Trapped; }
      owner, tokenAddress, admins, closed, ledger := Some(newOwner), Some(newToken), Some([]), Some(false), Some([]);
      o := Ok;
    }

    method AppendRecord(kind: Kind, member: Address, amount: int, now: int)
      modifies this
      ensures Value() == Record(old(Value()), Entry(kind, member, amount, now))
    {
      var entry := Entry(kind, member, amount, now);
      ledger := Some(LedgerOf(Value()) + [entry]);
      events := events + [entry];
    }

    method Deposit(signers: set<Address>, granted: bool, now: int, member: Address, amount: int) returns (o: Outcome)
      modifies this, token
      ensures (Value(), o) == Contribute(old(Value()), self, signers, granted, now, member, amount)
    {
      if owner.None? { return Err(NotInitialized); }
      if amount <= 0 { return Err(InvalidAmount); }
      if closed == Some(true) { return Err(IsClosed); }
      if tokenAddress.None? { return Err(NotInitialized); }
      if member !in signers || !CanTransfer(token.balances, member, amount, granted) { return Trapped; }
      token.balances := Transfer(token.balances, member, self, amount);
      AppendRecord(Contribution, member, amount, now);
      o := Ok;
    }

    method Payout(signers: set<Address>, granted: bool, now: int, caller: Address, to: Address, amount: int)
      returns (o: Outcome)
      modifies this, token
      ensures (Value(), o) == Withdraw(old(Value()), self, signers, granted, now, caller, to, amount)
    {
      if owner.None? { return Err(NotInitialized); }
      if amount <= 0 { return Err(InvalidAmount); }
      if closed == Some(true) { return Err(IsClosed); }
      var isOwner := owner == Some(caller);
      var isAdmin := !isOwner && caller in Admins(Value());
      if !isOwner && !isAdmin { return Err(Unauthorized); }
      if caller !in signers { return Trapped; }
      if tokenAddress.None? { return Err(NotInitialized); }
      if !CanTransfer(token.balances, self, amount, granted) { return Trapped; }
      token.balances := Transfer(token.balances, self, to, amount);
      AppendRecord(Withdrawal, caller, amount, now);
      o := Ok;
    }

    method AppointAdmin(signers: set<Address>, caller: Address, admin: Address) returns (o: Outcome)
      modifies this
      ensures (Value(), o) == AddAdmin(old(Value()), signers, caller, admin)
    {
      if owner.None? { return Err(NotInitialized); }
      if owner != Some(caller) { return Err(Unauthorized); }
      if owner == Some(admin) { return Err(AlreadyAnAdmin); }
      if caller !in signers { return Trapped; }
      var current := Admins(Value());
      if |current| >= MAX_ADMINS { return Err(AdminLimitReached); }
      if admin in current { return Err(AlreadyAnAdmin); }
      admins := Some(current + [admin]);
      o := Ok;
    }

    method DismissAdmin(signers: set<Address>, caller: Address, admin: Address) returns (o: Outcome)
      modifies this
      ensures (Value(), o) == RemoveAdmin(old(Value()), signers, caller, admin)
    {
      if owner.None? { return Err(NotInitialized); }
      if owner != Some(caller) { return Err(Unauthorized); }
      if caller !in signers { return Trapped; }
      var current := Admins(Value());
      if admin !in current { return Err(NotAnAdmin); }
      var index := FirstIndexOf(current, admin);
      admins := Some(current[..index] + current[index + 1..]);
      o := Ok;
    }

    method CloseDown(signers: set<Address>, caller: Address) returns (o: Outcome)
      modifies this
      ensures (Value(), o) == Close(old(Value()), signers, caller)
    {
      if owner.None? { return Err(NotInitialized); }
      if owner != Some(caller) { return Err(Unauthorized); }
      if caller !in signers { return Trapped; }
      closed := Some(true);
      o := Ok;
    }
  }

  // ----- runs ---------------------------------------------------------------------------------------------------

  /** A call, a token transfer that does not go through the contract, or a clawback by the token's issuer. */
  datatype Action =
    | DoInit(signers: set<Address>, owner: Address, token: Address)
    | DoContribute(signers: set<Address>, granted: bool, now: int, member: Address, amount: int)
    | DoWithdraw(signers: set<Address>, granted: bool, now: int, caller: Address, to: Address, amount: int)
    | DoAddAdmin(signers: set<Address>, caller: Address, admin: Address)
    | DoRemoveAdmin(signers: set<Address>, caller: Address, admin: Address)
    | DoClose(signers: set<Address>, caller: Address)
    | Outside(from: Address, to: Address, amount: int)
    | Clawback(holder: Address, amount: int)

  function Step(self: Address, st: State, a: Action): (State, Outcome) {
    match a
    case DoInit(signers, owner, token) => Init(st, signers, owner, token)
    case DoContribute(signers, granted, now, member, amount) =>
      Contribute(st, self, signers, granted, now, member, amount)
    case DoWithdraw(signers, granted, now, caller, to, amount) =>
      Withdraw(st, self, signers, granted, now, caller, to, amount)
    case DoAddAdmin(signers, caller, admin) => AddAdmin(st, signers, caller, admin)
    case DoRemoveAdmin(signers, caller, admin) => RemoveAdmin(st, signers, caller, admin)
    case DoClose(signers, caller) => Close(st, signers, caller)
    case Outside(from, to, amount) =>
      if amount > 0 && CanTransfer(st.balances, from, amount, true)
        then (st.(balances := Transfer(st.balances, from, to, amount)), Ok)
      else (st, Trapped)
    case Clawback(holder, amount) =>
      if 0 < amount <= BalanceOf(st.balances, holder) then
        (st.(balances := st.balances[holder := BalanceOf(st.balances, holder) - amount]), Ok)
      else (st, Trapped)
  }

  /** The contract's own address signs nothing: it never calls itself, and only it can spend what it holds. */
  predicate Possible(self: Address, a: Action) {
    match a
    case DoContribute(signers, _, _, _, _) => self !in signers
    case DoWithdraw(signers, _, _, _, _, _) => self !in signers
    case Outside(from, _, _) => from != self
    case _ => true
  }

  function Blank(balances: map<Address, int>): State {
    State(None, None, None, None, None, [], balances)
  }

  function Run(self: Address, balances: map<Address, int>, actions: seq<Action>): State {
    if actions == [] then Blank(balances)
    else Step(self, Run(self, balances, actions[..|actions| - 1]), actions[|actions| - 1]).0
  }

  ghost predicate AllPossible(self: Address, actions: seq<Action>) {
    forall i :: 0 <= i < |actions| ==> Possible(self, actions[i])
  }

  // ----- roles ---------------------------------------------------------------------------------------------------

  ghost predicate Roles(st: State) {
    && |Admins(st)| <= MAX_ADMINS
    && (forall i, j :: 0 <= i < j < |Admins(st)| ==> Admins(st)[i] != Admins(st)[j])
    && (st.owner.Some? ==> st.owner.value !in Admins(st) && st.token.Some? && st.admins.Some? && st.closed.Some?
                           && st.ledger.Some?)
    && (st.owner.None? ==> st == Blank(st.balances))
    && st.events == LedgerOf(st)
  }

  lemma AdminsChange(st: State, signers: set<Address>, caller: Address, admin: Address)
    requires Roles(st)
    ensures Roles(AddAdmin(st, signers, caller, admin).0) && Roles(RemoveAdmin(st, signers, caller, admin).0)
  {
    hide FirstIndexOf;
  }

  lemma FundsMove(self: Address, st: State, a: Action)
    requires Roles(st) && (a.DoContribute? || a.DoWithdraw?)
    ensures var (st', o) := Step(self, st, a);
            && Roles(st') && st'.owner == st.owner && st'.token == st.token && st'.closed == st.closed
              && (o != Ok ==> st' == st)
            && (MarkedClosed(st) ==> st' == st)
            && (st' == st || exists e :: Warranted(st, st', a, e) && LedgerOf(st') == LedgerOf(st) + [e])
  {
    hide Transfer, CanTransfer;
    var (st', o) := Step(self, st, a);
    match a
    case DoContribute(_, _, now, member, amount) =>
      if o == Ok { assert Warranted(st, st', a, Entry(Contribution, member, amount, now)); }
    case DoWithdraw(_, _, now, caller, _, amount) =>
      if o == Ok { assert Warranted(st, st', a, Entry(Withdrawal, caller, amount, now)); }
  }

  /** Each step keeps the roles in order, the ledger append-only and equal to the events, and closing final. */
  lemma StepKeepsRoles(self: Address, st: State, a: Action)
    requires Roles(st)
    ensures var (st', o) := Step(self, st, a);
            && Roles(st')
            && (st.owner.Some? ==> st'.owner == st.owner && st'.token == st.token)
            && (MarkedClosed(st) ==> MarkedClosed(st') && st'.ledger == st.ledger)
            && (o != Ok ==> st' == st)
            && (LedgerOf(st') == LedgerOf(st)
                || exists e :: Warranted(st, st', a, e) && LedgerOf(st') == LedgerOf(st) + [e])
  {
    hide Transfer, CanTransfer, Contribute, Withdraw, Warranted, FirstIndexOf;
    match a
    case DoContribute(_, _, _, _, _) => FundsMove(self, st, a);
    case DoWithdraw(_, _, _, _, _, _) => FundsMove(self, st, a);
    case DoAddAdmin(signers, caller, admin) => AdminsChange(st, signers, caller, admin);
    case DoRemoveAdmin(signers, caller, admin) => AdminsChange(st, signers, caller, admin);
    case _ =>
  }

  /**
   An entry is of a positive amount on an open safebox; a withdrawal is signed by the owner or an admin
   of that moment.
   */
  ghost predicate Warranted(st: State, st': State, a: Action, e: Entry) {
    && e.amount > 0 && st.owner.Some? && !MarkedClosed(st)
    && match e.kind
       case Contribution => a.DoContribute? && e.member == a.member && e.member in a.signers && e.amount == a.amount
       case Withdrawal =>
         a.DoWithdraw? && e.member == a.caller && e.member in a.signers && e.amount == a.amount
         && (st.owner == Some(e.member) || e.member in Admins(st))
  }

  /** Exactly which calls go through, from any state that a run can reach. */
  lemma CallSucceedsIff(self: Address, st: State, a: Action)
    requires Roles(st)
    ensures Step(self, st, a).1 == Ok <==>
            match a
            case DoInit(signers, owner, _) => st == Blank(st.balances) && owner in signers
            case DoContribute(signers, granted, _, member, amount) =>
              && st.owner.Some? && !MarkedClosed(st) && member in signers
              && 0 < amount <= BalanceOf(st.balances, member) && granted
            case DoWithdraw(signers, granted, _, caller, _, amount) =>
              && st.owner.Some? && !MarkedClosed(st) && caller in signers
                && (caller == st.owner.value || caller in Admins(st))
              && 0 < amount <= BalanceOf(st.balances, self) && granted
            case DoAddAdmin(signers, caller, admin) =>
              && st.owner == Some(caller) && caller in signers && admin != caller
              && admin !in Admins(st) && |Admins(st)| < MAX_ADMINS
            case DoRemoveAdmin(signers, caller, admin) =>
              st.owner == Some(caller) && caller in signers && admin in Admins(st)
            case DoClose(signers, caller) => st.owner == Some(caller) && caller in signers
            case Outside(from, _, amount) => 0 < amount <= BalanceOf(st.balances, from)
            case Clawback(holder, amount) => 0 < amount <= BalanceOf(st.balances, holder)
  {
    hide Transfer, FirstIndexOf, BalanceOf;
  }

  predicate MovesFunds(a: Action) { a.DoContribute? || a.DoWithdraw? }

  predicate OwnersOnly(a: Action) { a.DoAddAdmin? || a.DoRemoveAdmin? || a.DoClose? }

  /** Which call gets which error, from any state that a run can reach; what is refused otherwise is a trap. */
  lemma ErrorIff(self: Address, st: State, a: Action, e: SafeboxError)
    requires Roles(st)
    ensures Step(self, st, a).1 == Err(e) <==>
            match e
            case AlreadyInitialized => a.DoInit? && st.owner.Some?
            case NotInitialized => (MovesFunds(a) || OwnersOnly(a)) && st.owner.None?
            case InvalidAmount => MovesFunds(a) && st.owner.Some? && a.amount <= 0
            case IsClosed => MovesFunds(a) && st.owner.Some? && a.amount > 0 && MarkedClosed(st)
            case Unauthorized =>
              && st.owner.Some?
              && ((OwnersOnly(a) && a.caller != st.owner.value)
                  || (a.DoWithdraw? && a.amount > 0 && !MarkedClosed(st) && a.caller != st.owner.value
                      && a.caller !in Admins(st)))
            case AlreadyAnAdmin =>
              && a.DoAddAdmin? && st.owner == Some(a.caller)
              && (a.admin == a.caller
                  || (a.caller in a.signers && |Admins(st)| < 3 && a.admin in Admins(st)))
            case AdminLimitReached =>
              && a.DoAddAdmin? && st.owner == Some(a.caller) && a.admin != a.caller && a.caller in a.signers
              && |Admins(st)| == 3
            case NotAnAdmin =>
              a.DoRemoveAdmin? && st.owner == Some(a.caller) && a.caller in a.signers && a.admin !in Admins(st)
  {
    hide Transfer, FirstIndexOf, BalanceOf, CanTransfer;
  }

  /** What a call that goes through changes, and that it changes nothing else. */
  ghost predicate Effect(self: Address, st: State, a: Action, st': State) {
    match a
    case DoInit(_, owner, token) =>
      && st'.owner == Some(owner) && st'.token == Some(token) && Admins(st') == [] && !MarkedClosed(st')
      && LedgerOf(st') == [] && st'.balances == st.balances
    case DoContribute(_, _, now, member, amount) =>
      && st'.owner == st.owner && st'.token == st.token && Admins(st') == Admins(st) && !MarkedClosed(st')
      && LedgerOf(st') == LedgerOf(st) + [Entry(Contribution, member, amount, now)]
      && Moved(st.balances, st'.balances, member, self, amount)
    case DoWithdraw(_, _, now, caller, to, amount) =>
      && st'.owner == st.owner && st'.token == st.token && Admins(st') == Admins(st) && !MarkedClosed(st')
      && LedgerOf(st') == LedgerOf(st) + [Entry(Withdrawal, caller, amount, now)]
      && Moved(st.balances, st'.balances, self, to, amount)
    case DoAddAdmin(_, _, admin) =>
      st'.(admins := None) == st.(admins := None) && AdminSet(st') == AdminSet(st) + {admin}
    case DoRemoveAdmin(_, _, admin) =>
      st'.(admins := None) == st.(admins := None) && AdminSet(st') == AdminSet(st) - {admin}
    case DoClose(_, _) => MarkedClosed(st') && st'.(closed := None) == st.(closed := None)
    case Outside(from, to, amount) =>
      st'.(balances := map[]) == st.(balances := map[]) && Moved(st.balances, st'.balances, from, to, amount)
    case Clawback(holder, amount) =>
      st'.(balances := map[]) == st.(balances := map[]) && Taken(st.balances, st'.balances, holder, amount)
  }

  ghost function AdminSet(st: State): set<Address> { set a | a in Admins(st) }

  /** The payer has `amount` less and the payee `amount` more, the same account neither; all others have as much. */
  ghost predicate Moved(old': map<Address, int>, new': map<Address, int>, from: Address, to: Address, amount: int) {
    forall x :: BalanceOf(new', x)
             == BalanceOf(old', x) - (if x == from then amount else 0) + (if x == to then amount else 0)
  }

  ghost predicate Taken(old': map<Address, int>, new': map<Address, int>, holder: Address, amount: int) {
    forall x :: BalanceOf(new', x) == BalanceOf(old', x) - if x == holder then amount else 0
  }

  /** Every call that goes through has its effect, from any state that a run can reach. */
  lemma CallEffect(self: Address, st: State, a: Action)
    requires Roles(st) && Step(self, st, a).1 == Ok
    ensures Effect(self, st, a, Step(self, st, a).0)
  {
    hide Transfer, CanTransfer, BalanceOf, FirstIndexOf, AdminSet, Moved, Taken;
    match a
    case DoContribute(_, _, _, member, amount) => TransferIsMove(st.balances, member, self, amount);
    case DoWithdraw(_, _, _, _, to, amount) => TransferIsMove(st.balances, self, to, amount);
    case Outside(from, to, amount) => TransferIsMove(st.balances, from, to, amount);
    case Clawback(holder, amount) => ClawbackIsTake(st.balances, holder, amount);
    case DoAddAdmin(signers, caller, admin) => AddedSet(st, admin, Step(self, st, a).0);
    case DoRemoveAdmin(signers, caller, admin) => RemovedSet(st, admin, Step(self, st, a).0);
    case _ =>
  }

  lemma TransferIsMove(balances: map<Address, int>, from: Address, to: Address, amount: int)
    ensures Moved(balances, Transfer(balances, from, to, amount), from, to, amount)
  {
    hide Transfer, BalanceOf;
    forall x ensures BalanceOf(Transfer(balances, from, to, amount), x)
                  == BalanceOf(balances, x) - (if x == from then amount else 0) + (if x == to then amount else 0)
    {
      TransferMoves(balances, from, to, amount, x);
    }
  }

  lemma ClawbackIsTake(balances: map<Address, int>, holder: Address, amount: int)
    ensures Taken(balances, balances[holder := BalanceOf(balances, holder) - amount], holder, amount)
  {}

  lemma AddedSet(st: State, admin: Address, st': State)
    requires Admins(st') == Admins(st) + [admin]
    ensures AdminSet(st') == AdminSet(st) + {admin}
  {}

  lemma RemovedSet(st: State, admin: Address, st': State)
    requires Roles(st) && admin in Admins(st)
    requires var i := FirstIndexOf(Admins(st), admin); Admins(st') == Admins(st)[..i] + Admins(st)[i + 1..]
    ensures AdminSet(st') == AdminSet(st) - {admin}
  {
    hide FirstIndexOf;
    var old', i := Admins(st), FirstIndexOf(Admins(st), admin);
    forall x ensures x in Admins(st') <==> x in old' && x != admin {
      if x in old' && x != admin {
        var j :| 0 <= j < |old'| && old'[j] == x;
        assert x == Admins(st')[if j < i then j else j - 1];
      }
    }
  }

  lemma {:induction false} RunKeepsRoles(self: Address, balances: map<Address, int>, actions: seq<Action>)
    ensures Roles(Run(self, balances, actions))
  {
    hide Step;
    if actions != [] {
      RunKeepsRoles(self, balances, actions[..|actions| - 1]);
      StepKeepsRoles(self, Run(self, balances, actions[..|actions| - 1]), actions[|actions| - 1]);
    }
  }

  /** Over every run: the owner and token stay, the ledger only grows, and closing is final and freezes it. */
  lemma {:induction false} LedgerGrows(self: Address, balances: map<Address, int>, actions: seq<Action>, m: nat)
    requires m <= |actions|
    ensures var early, late := Run(self, balances, actions[..m]), Run(self, balances, actions);
            && LedgerOf(early) <= LedgerOf(late)
            && (MarkedClosed(early) ==> MarkedClosed(late) && late.ledger == early.ledger)
            && (early.owner.Some? ==> late.owner == early.owner && late.token == early.token)
    decreases |actions|
  {
    hide Step, Roles, Warranted, MarkedClosed, LedgerOf;
    if m == |actions| {
      assert actions[..m] == actions;
    } else {
      var front := actions[..|actions| - 1];
      RunKeepsRoles(self, balances, front);
      StepKeepsRoles(self, Run(self, balances, front), actions[|actions| - 1]);
      LedgerGrows(self, balances, front, m);
      assert front[..m] == actions[..m];
    }
  }

  // ----- what closing, appointing and dismissing do to the rest of a run ---------------------------------------------

  /** How call n of the run is answered. */
  ghost function AnswerAt(self: Address, balances: map<Address, int>, actions: seq<Action>, n: nat): Outcome
    requires n < |actions|
  {
    Step(self, Run(self, balances, actions[..n]), actions[n]).1
  }

  lemma RunNext(self: Address, balances: map<Address, int>, actions: seq<Action>, n: nat)
    requires n < |actions|
    ensures Run(self, balances, actions[..n + 1]) == Step(self, Run(self, balances, actions[..n]), actions[n]).0
  {
    assert actions[..n + 1][..n] == actions[..n];
    hide Step;
  }

  lemma EffectAt(self: Address, balances: map<Address, int>, actions: seq<Action>, n: nat)
    requires n < |actions| && AnswerAt(self, balances, actions, n) == Ok
    ensures Effect(self, Run(self, balances, actions[..n]), actions[n], Run(self, balances, actions[..n + 1]))
  {
    hide Run, Step, Effect, Roles;
    RunNext(self, balances, actions, n);
    RunKeepsRoles(self, balances, actions[..n]);
    CallEffect(self, Run(self, balances, actions[..n]), actions[n]);
  }

  /**
   Closing closes: once a close went through, every later contribution and withdrawal is refused, for its amount or
   as closed, and the ledger stays as it was.
   */
  lemma ClosingEnds(self: Address, balances: map<Address, int>, actions: seq<Action>, m: nat, n: nat)
    requires m < n < |actions| && actions[m].DoClose? && AnswerAt(self, balances, actions, m) == Ok
    ensures actions[n].DoContribute? || actions[n].DoWithdraw? ==>
              AnswerAt(self, balances, actions, n) == Err(if actions[n].amount <= 0 then InvalidAmount else IsClosed)
    ensures LedgerOf(Run(self, balances, actions)) == LedgerOf(Run(self, balances, actions[..m]))
  {
    hide Run, Step, LedgerOf;
    EffectAt(self, balances, actions, m);
    var before, closed := Run(self, balances, actions[..m]), Run(self, balances, actions[..m + 1]);
    SameLedger(before, closed);
    OwnerCloses(self, balances, actions, m);
    LedgerGrows(self, balances, actions, m + 1);
    LedgerGrows(self, balances, actions[..n], m + 1);
    assert actions[..n][..m + 1] == actions[..m + 1];
    SameLedger(closed, Run(self, balances, actions));
    RefusedWhenClosed(self, Run(self, balances, actions[..n]), actions[n]);
  }

  lemma SameLedger(x: State, y: State)
    requires x.ledger == y.ledger
    ensures LedgerOf(x) == LedgerOf(y)
  {}

  lemma OwnerCloses(self: Address, balances: map<Address, int>, actions: seq<Action>, m: nat)
    requires m < |actions| && actions[m].DoClose? && AnswerAt(self, balances, actions, m) == Ok
    ensures Run(self, balances, actions[..m + 1]).owner.Some?
  {
    RunNext(self, balances, actions, m);
    hide Run;
  }

  lemma RefusedWhenClosed(self: Address, st: State, a: Action)
    requires st.owner.Some? && MarkedClosed(st)
    ensures a.DoContribute? || a.DoWithdraw? ==>
              Step(self, st, a).1 == Err(if a.amount <= 0 then InvalidAmount else IsClosed)
  {}

  ghost predicate AddedAt(self: Address, balances: map<Address, int>, actions: seq<Action>, n: nat, x: Address)
    requires n < |actions|
  {
    actions[n].DoAddAdmin? && actions[n].admin == x && AnswerAt(self, balances, actions, n) == Ok
  }

  ghost predicate RemovedAt(self: Address, balances: map<Address, int>, actions: seq<Action>, n: nat, x: Address)
    requires n < |actions|
  {
    actions[n].DoRemoveAdmin? && actions[n].admin == x && AnswerAt(self, balances, actions, n) == Ok
  }

  /** Appointed by a call that went through, and not dismissed since. */
  ghost predicate Appointed(self: Address, balances: map<Address, int>, actions: seq<Action>, x: Address) {
    exists n: nat ::
      n < |actions| && AddedAt(self, balances, actions, n, x)
      && forall k: nat :: n < k < |actions| ==> !RemovedAt(self, balances, actions, k, x)
  }

  lemma AnswersAlike(self: Address, balances: map<Address, int>, actions: seq<Action>, n: nat, x: Address)
    requires n < |actions| - 1
    ensures var front := actions[..|actions| - 1];
            && AnswerAt(self, balances, front, n) == AnswerAt(self, balances, actions, n)
            && (AddedAt(self, balances, front, n, x) <==> AddedAt(self, balances, actions, n, x))
            && (RemovedAt(self, balances, front, n, x) <==> RemovedAt(self, balances, actions, n, x))
  {
    hide Run, Step;
    assert actions[..|actions| - 1][..n] == actions[..n];
  }

  lemma AppointedStep(self: Address, balances: map<Address, int>, actions: seq<Action>, x: Address)
    requires actions != []
    ensures var n := |actions| - 1;
            Appointed(self, balances, actions, x)
            <==> AddedAt(self, balances, actions, n, x)
                 || (Appointed(self, balances, actions[..n], x) && !RemovedAt(self, balances, actions, n, x))
  {
    hide AddedAt, RemovedAt;
    var n := |actions| - 1;
    forall k: nat | k < n
      ensures (AddedAt(self, balances, actions[..n], k, x) <==> AddedAt(self, balances, actions, k, x))
      ensures (RemovedAt(self, balances, actions[..n], k, x) <==> RemovedAt(self, balances, actions, k, x))
    {
      AnswersAlike(self, balances, actions, k, x);
    }
    if Appointed(self, balances, actions[..n], x) && !RemovedAt(self, balances, actions, n, x) {
      var k: nat :| k < n && AddedAt(self, balances, actions[..n], k, x)
        && forall j: nat :: k < j < n ==> !RemovedAt(self, balances, actions[..n], j, x);
      assert AddedAt(self, balances, actions, k, x);
    }
    if Appointed(self, balances, actions, x) && !AddedAt(self, balances, actions, n, x) {
      var k: nat :| k < |actions| && AddedAt(self, balances, actions, k, x)
        && forall j: nat :: k < j < |actions| ==> !RemovedAt(self, balances, actions, j, x);
      assert AddedAt(self, balances, actions[..n], k, x);
    }
  }

  /** One call changes who is an admin only by adding or removing somebody. */
  lemma AdminStep(self: Address, st: State, a: Action, x: Address)
    requires Roles(st)
    ensures var (st', o) := Step(self, st, a);
            x in Admins(st') <==> (a.DoAddAdmin? && o == Ok && a.admin == x)
                                  || (x in Admins(st) && !(a.DoRemoveAdmin? && o == Ok && a.admin == x))
  {
    hide Step, Roles, Effect;
    var (st', o) := Step(self, st, a);
    if o == Ok {
      CallEffect(self, st, a);
      CallSucceedsIff(self, st, a);
      AdminEffect(self, st, a, st', x);
    } else {
      StepKeepsRoles(self, st, a);
    }
  }

  lemma AdminEffect(self: Address, st: State, a: Action, st': State, x: Address)
    requires Effect(self, st, a, st') && (a.DoInit? ==> Admins(st) == [])
    ensures x in Admins(st') <==> (a.DoAddAdmin? && a.admin == x)
                                  || (x in Admins(st) && !(a.DoRemoveAdmin? && a.admin == x))
  {
    hide Moved, Taken, LedgerOf;
    assert x in Admins(st') <==> x in AdminSet(st');
    assert x in Admins(st) <==> x in AdminSet(st);
  }

  /** Over every run, the admins are exactly those appointed and not dismissed since. */
  lemma {:induction false} AdminIff(self: Address, balances: map<Address, int>, actions: seq<Action>, x: Address)
    ensures x in Admins(Run(self, balances, actions)) <==> Appointed(self, balances, actions, x)
  {
    hide Step, Appointed, Roles;
    if actions == [] {
      NobodyAppointed(self, balances, x);
    } else {
      var n := |actions| - 1;
      AdminIff(self, balances, actions[..n], x);
      AppointedStep(self, balances, actions, x);
      RunKeepsRoles(self, balances, actions[..n]);
      AdminStep(self, Run(self, balances, actions[..n]), actions[n], x);
    }
  }

  lemma NobodyAppointed(self: Address, balances: map<Address, int>, x: Address)
    ensures x !in Admins(Run(self, balances, [])) && !Appointed(self, balances, [], x)
  {}

  /**
   Appointing gives the right to withdraw: the admins are those before and the new one, and until it is dismissed
   its withdrawals go through exactly when signed, covered and granted on an open safebox.
   */
  lemma AppointingCounts(self: Address, balances: map<Address, int>, actions: seq<Action>, m: nat, n: nat)
    requires m < n < |actions| && actions[m].DoAddAdmin? && AnswerAt(self, balances, actions, m) == Ok
    requires forall k: nat :: m < k < n ==> !RemovedAt(self, balances, actions, k, actions[m].admin)
    ensures AdminSet(Run(self, balances, actions[..m + 1]))
         == AdminSet(Run(self, balances, actions[..m])) + {actions[m].admin}
    ensures var a, st := actions[n], Run(self, balances, actions[..n]);
            a.DoWithdraw? && a.caller == actions[m].admin ==>
              (AnswerAt(self, balances, actions, n) == Ok
               <==> !MarkedClosed(st) && a.caller in a.signers && 0 < a.amount <= BalanceOf(st.balances, self)
                    && a.granted)
  {
    hide Run, Step, BalanceOf, Roles, Moved, Taken;
    var x := actions[m].admin;
    EffectAt(self, balances, actions, m);
    StillAppointed(self, balances, actions, m, n, x);
    AdminIff(self, balances, actions[..n], x);
    RunKeepsRoles(self, balances, actions[..n]);
    var st := Run(self, balances, actions[..n]);
    OwnerOfAdmins(st, x);
    CallSucceedsIff(self, st, actions[n]);
  }

  lemma OwnerOfAdmins(st: State, x: Address)
    requires Roles(st) && x in Admins(st)
    ensures st.owner.Some?
  {}

  lemma {:induction false} StillAppointed(self: Address, balances: map<Address, int>, actions: seq<Action>, m: nat,
                                          n: nat, x: Address)
    requires m < n <= |actions| && AddedAt(self, balances, actions, m, x)
    requires forall k: nat :: m < k < n ==> !RemovedAt(self, balances, actions, k, x)
    ensures Appointed(self, balances, actions[..n], x)
  {
    hide Run, Step, AnswerAt;
    assert AddedAt(self, balances, actions[..n], m, x) by { EarlierAnswer(self, balances, actions, n, m); }
    forall k: nat | m < k < n ensures !RemovedAt(self, balances, actions[..n], k, x) {
      assert !RemovedAt(self, balances, actions, k, x) && actions[..n][k] == actions[k];
      EarlierAnswer(self, balances, actions, n, k);
    }
  }

  lemma EarlierAnswer(self: Address, balances: map<Address, int>, actions: seq<Action>, n: nat, k: nat)
    requires k < n <= |actions|
    ensures AnswerAt(self, balances, actions[..n], k) == AnswerAt(self, balances, actions, k)
  {
    hide Run, Step;
    assert actions[..n][..k] == actions[..k];
  }

  /**
   Dismissing takes it away: the admins are those before without it, and until it is appointed again every
   withdrawal it asks for is refused, for its amount, as closed, or as unauthorized.
   */
  lemma DismissingCounts(self: Address, balances: map<Address, int>, actions: seq<Action>, m: nat, n: nat)
    requires m < n < |actions| && actions[m].DoRemoveAdmin? && AnswerAt(self, balances, actions, m) == Ok
    requires forall k: nat :: m < k < n ==> !AddedAt(self, balances, actions, k, actions[m].admin)
    ensures AdminSet(Run(self, balances, actions[..m + 1]))
         == AdminSet(Run(self, balances, actions[..m])) - {actions[m].admin}
    ensures var a, st := actions[n], Run(self, balances, actions[..n]);
            a.DoWithdraw? && a.caller == actions[m].admin ==>
              AnswerAt(self, balances, actions, n)
              == Err(if a.amount <= 0 then InvalidAmount else if MarkedClosed(st) then IsClosed else Unauthorized)
  {
    hide Run, Step, BalanceOf, Roles, Moved, Taken;
    var x := actions[m].admin;
    EffectAt(self, balances, actions, m);
    NoLongerAppointed(self, balances, actions, m, n, x);
    AdminIff(self, balances, actions[..n], x);
    NotTheOwner(self, balances, actions, m);
    LedgerGrows(self, balances, actions[..n], m);
    assert actions[..n][..m] == actions[..m];
    Unauthorised(self, Run(self, balances, actions[..n]), actions[n]);
  }

  lemma NotTheOwner(self: Address, balances: map<Address, int>, actions: seq<Action>, m: nat)
    requires m < |actions| && actions[m].DoRemoveAdmin? && AnswerAt(self, balances, actions, m) == Ok
    ensures var st := Run(self, balances, actions[..m]); st.owner.Some? && st.owner.value != actions[m].admin
  {
    hide Run;
    RunKeepsRoles(self, balances, actions[..m]);
  }

  lemma Unauthorised(self: Address, st: State, a: Action)
    requires st.owner.Some?
    ensures a.DoWithdraw? && st.owner.value != a.caller && a.caller !in Admins(st) ==>
              Step(self, st, a).1
              == Err(if a.amount <= 0 then InvalidAmount else if MarkedClosed(st) then IsClosed else Unauthorized)
  {}

  lemma NoLongerAppointed(self: Address, balances: map<Address, int>, actions: seq<Action>, m: nat, n: nat, x: Address)
    requires m < n <= |actions| && RemovedAt(self, balances, actions, m, x)
    requires forall k: nat :: m < k < n ==> !AddedAt(self, balances, actions, k, x)
    ensures !Appointed(self, balances, actions[..n], x)
  {
    hide Run, Step, AnswerAt;
    assert RemovedAt(self, balances, actions[..n], m, x) by { EarlierAnswer(self, balances, actions, n, m); }
    forall k: nat | m <= k < n ensures !AddedAt(self, balances, actions[..n], k, x) {
      assert (k > m ==> !AddedAt(self, balances, actions, k, x)) && actions[..n][k] == actions[k];
      EarlierAnswer(self, balances, actions, n, k);
    }
  }

  /** Step n of the run warrants the entry. */
  ghost predicate WrittenBy(self: Address, balances: map<Address, int>, actions: seq<Action>, n: nat, e: Entry)
    requires n < |actions|
  {
    Warranted(Run(self, balances, actions[..n]), Run(self, balances, actions[..n + 1]), actions[n], e)
  }

  lemma WrittenLater(self: Address, balances: map<Address, int>, actions: seq<Action>, n: nat, e: Entry)
    requires n < |actions| - 1 && WrittenBy(self, balances, actions[..|actions| - 1], n, e)
    ensures WrittenBy(self, balances, actions, n, e)
  {
    hide Warranted, Run;
    var front := actions[..|actions| - 1];
    assert front[..n] == actions[..n] && front[..n + 1] == actions[..n + 1];
  }

  /** The last step adds at most one entry, and warrants it. */
  lemma LastEntry(self: Address, balances: map<Address, int>, actions: seq<Action>)
    requires actions != []
    ensures var n := |actions| - 1;
            var before, after := LedgerOf(Run(self, balances, actions[..n])), LedgerOf(Run(self, balances, actions));
            after == before || (|after| == |before| + 1 && after[..|before|] == before
                                && WrittenBy(self, balances, actions, n, after[|before|]))
  {
    hide Step, Roles, Warranted, MarkedClosed, LedgerOf;
    var n := |actions| - 1;
    RunKeepsRoles(self, balances, actions[..n]);
    StepKeepsRoles(self, Run(self, balances, actions[..n]), actions[n]);
    assert actions[..n + 1] == actions;
  }

  lemma EmptyRun(self: Address, balances: map<Address, int>)
    ensures LedgerOf(Run(self, balances, [])) == []
  {}

  /**
   Over every run, each ledger entry was written by a step that warrants it; so each withdrawal names
   somebody who signed for it and was owner or admin at that step.
   */
  lemma {:induction false} EntriesWarranted(self: Address, balances: map<Address, int>, actions: seq<Action>, i: nat)
    requires i < |LedgerOf(Run(self, balances, actions))|
    ensures exists n: nat :: n < |actions|
              && WrittenBy(self, balances, actions, n, LedgerOf(Run(self, balances, actions))[i])
    decreases |actions|
  {
    if actions == [] {
      EmptyRun(self, balances);
      assert false;
    } else {
      hide Run, Step, WrittenBy, LedgerOf;
      LastEntry(self, balances, actions);
      var front := actions[..|actions| - 1];
      if i < |LedgerOf(Run(self, balances, front))| {
        EntriesWarranted(self, balances, front, i);
        var n: nat :| n < |front| && WrittenBy(self, balances, front, n, LedgerOf(Run(self, balances, front))[i]);
        WrittenLater(self, balances, actions, n, LedgerOf(Run(self, balances, front))[i]);
      }
    }
  }

  // ----- the balance -----------------------------------------------------------------------------------------------

  /** Contributions less withdrawals. */
  function Net(ledger: seq<Entry>): int {
    if ledger == [] then 0
    else
      var e := ledger[|ledger| - 1];
      Net(ledger[..|ledger| - 1]) + if e.kind == Contribution then e.amount else -e.amount
  }

  /** What reached the contract outside its ledger: direct deposits, and withdrawals paid to the contract itself. */
  function Extra(self: Address, balances: map<Address, int>, actions: seq<Action>): int {
    if actions == [] then 0
    else
      var n := |actions| - 1;
      var (_, o) := Step(self, Run(self, balances, actions[..n]), actions[n]);
      Extra(self, balances, actions[..n]) +
      match actions[n]
      case Outside(_, to, amount) => if o == Ok && to == self then amount else 0
      case DoWithdraw(_, _, _, _, to, amount) => if o == Ok && to == self then amount else 0
      case _ => 0
  }

  /** What the token's issuer took back from the contract. */
  function Clawed(self: Address, balances: map<Address, int>, actions: seq<Action>): int {
    if actions == [] then 0
    else
      var n := |actions| - 1;
      var (_, o) := Step(self, Run(self, balances, actions[..n]), actions[n]);
      Clawed(self, balances, actions[..n]) +
      match actions[n]
      case Clawback(holder, amount) => if o == Ok && holder == self then amount else 0
      case _ => 0
  }

  lemma TransferMoves(balances: map<Address, int>, from: Address, to: Address, amount: int, a: Address)
    ensures BalanceOf(Transfer(balances, from, to, amount), a)
         == BalanceOf(balances, a) - (if a == from then amount else 0) + (if a == to then amount else 0)
  {}

  lemma NetAppend(ledger: seq<Entry>, e: Entry)
    ensures Net(ledger + [e]) == Net(ledger) + if e.kind == Contribution then e.amount else -e.amount
  {
    assert (ledger + [e])[..|ledger|] == ledger;
  }

  lemma StepBalance(self: Address, st: State, a: Action)
    requires Possible(self, a) && Roles(st)
    ensures var (st', o) := Step(self, st, a);
            var extra := if a.Outside? && o == Ok && a.to == self then a.amount
                         else if a.DoWithdraw? && o == Ok && a.to == self then a.amount else 0;
            var clawed := if a.Clawback? && o == Ok && a.holder == self then a.amount else 0;
            && extra >= 0 && clawed >= 0
            && BalanceOf(st'.balances, self) - Net(LedgerOf(st'))
               == BalanceOf(st.balances, self) - Net(LedgerOf(st)) + extra - clawed
  {
    hide Transfer, Net, BalanceOf;
    var (st', o) := Step(self, st, a);
    match a
    case DoContribute(_, _, now, member, amount) =>
      TransferMoves(st.balances, member, self, amount, self);
      NetAppend(LedgerOf(st), Entry(Contribution, member, amount, now));
    case DoWithdraw(_, _, now, caller, to, amount) =>
      TransferMoves(st.balances, self, to, amount, self);
      NetAppend(LedgerOf(st), Entry(Withdrawal, caller, amount, now));
    case Outside(from, to, amount) => TransferMoves(st.balances, from, to, amount, self);
    case Clawback(holder, amount) => ClawbackTakes(st.balances, holder, amount, self);
    case _ =>
  }

  lemma ClawbackTakes(balances: map<Address, int>, holder: Address, amount: int, a: Address)
    ensures BalanceOf(balances[holder := BalanceOf(balances, holder) - amount], a)
         == BalanceOf(balances, a) - if a == holder then amount else 0
  {}

  /**
   Over every run, the contract holds its opening balance, plus contributions less withdrawals, plus what
   came from outside its ledger, less what the issuer clawed back. So it covers contributions less
   withdrawals exactly when no more was clawed back than it opened with and got from outside.
   */
  lemma {:induction false} BalanceCovers(self: Address, balances: map<Address, int>, actions: seq<Action>)
    requires AllPossible(self, actions)
    ensures var st := Run(self, balances, actions);
            var opening := BalanceOf(balances, self);
            var extra, clawed := Extra(self, balances, actions), Clawed(self, balances, actions);
            && BalanceOf(st.balances, self) == opening + Net(LedgerOf(st)) + extra - clawed
            && extra >= 0 && clawed >= 0
            && (BalanceOf(st.balances, self) >= Net(LedgerOf(st)) <==> clawed <= opening + extra)
  {
    hide Step, Net, BalanceOf, Roles;
    if actions == [] {
      NetOfNothing();
    } else {
      var n := |actions| - 1;
      BalanceCovers(self, balances, actions[..n]);
      RunKeepsRoles(self, balances, actions[..n]);
      StepBalance(self, Run(self, balances, actions[..n]), actions[n]);
    }
  }

  /**
   Without clawbacks, from a balance of zero or more: it always covers them, with equality when it
   opened empty and nothing came from outside.
   */
  lemma BalanceWithoutClawbacks(self: Address, balances: map<Address, int>, actions: seq<Action>)
    requires AllPossible(self, actions) && BalanceOf(balances, self) >= 0
    requires forall i :: 0 <= i < |actions| ==> !actions[i].Clawback?
    ensures var st := Run(self, balances, actions);
            && BalanceOf(st.balances, self) >= Net(LedgerOf(st))
            && (BalanceOf(st.balances, self) == Net(LedgerOf(st))
                <==> BalanceOf(balances, self) == 0 && Extra(self, balances, actions) == 0)
  {
    hide Run, Extra, Clawed, Net, BalanceOf;
    BalanceCovers(self, balances, actions);
    NothingClawed(self, balances, actions);
  }

  lemma {:induction false} NothingClawed(self: Address, balances: map<Address, int>, actions: seq<Action>)
    requires forall i :: 0 <= i < |actions| ==> !actions[i].Clawback?
    ensures Clawed(self, balances, actions) == 0
  {
    hide Run, Step;
    if actions != [] { NothingClawed(self, balances, actions[..|actions| - 1]); }
  }

  lemma NetOfNothing()
    ensures Net([]) == 0
  {}
}

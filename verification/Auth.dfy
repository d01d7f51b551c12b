/**
 Login challenges as interleaved database steps: each request runs one database operation at a time, and
 any other request may run in between.
 */
module Auth {

  type User = string

  /** The pending challenge of a user; at most one exists. */
  datatype Challenge = Challenge(message: string, expiresAt: int)

  /**
   Where a login is: before reading the challenge, with a signature to check, before the conditional
   delete, or over.
   */
  datatype Phase =
    | Reading
    | Expiring
    | Checking(message: string)
    | Consuming(message: string)
    | Finished(ok: bool, message: string)

  datatype Login = Login(user: User, signature: seq<bv8>, phase: Phase)

  /** The challenge rows and the logins under way, with the history of challenges issued. */
  datatype World = World(rows: map<User, Challenge>, logins: seq<Login>, issued: seq<(User, string)>)

  const TTL := 5 * 60 * 1000

  /** One database operation, or the start of a request. `keys` are the registered public keys. */
  datatype Action =
    | CreateChallenge(user: User, message: string, now: int)
    | Begin(user: User, signature: seq<bv8>)
    | Advance(login: nat, now: int)

  datatype Setting = Setting(keys: map<User, seq<bv8>>, verify: (seq<bv8>, string, seq<bv8>) -> bool)

  function Upsert(s: Setting, w: World, user: User, message: string, now: int): World {
    if user !in s.keys then w
    else w.(rows := w.rows[user := Challenge(message, now + TTL)], issued := w.issued + [(user, message)])
  }

  function To(w: World, i: nat, phase: Phase): World
    requires i < |w.logins|
  {
    w.(logins := w.logins[i := w.logins[i].(phase := phase)])
  }

  function Lookup(w: World, i: nat, now: int): World
    requires i < |w.logins|
  {
    var user := w.logins[i].user;
    if user !in w.rows then To(w, i, Finished(false, ""))
    else if w.rows[user].expiresAt < now then To(w, i, Expiring)
    else To(w, i, Checking(w.rows[user].message))
  }

  /** Deletes the user's row, whatever it holds by now, and rejects. */
  function DropExpired(w: World, i: nat): World
    requires i < |w.logins|
  {
    To(w.(rows := w.rows - {w.logins[i].user}), i, Finished(false, ""))
  }

  function CheckSignature(s: Setting, w: World, i: nat): World
    requires i < |w.logins| && w.logins[i].phase.Checking?
  {
    var l := w.logins[i];
    var ok := l.user in s.keys && s.verify(l.signature, l.phase.message, s.keys[l.user]);
    To(w, i, if ok then Consuming(l.phase.message) else Finished(false, ""))
  }

  /** The conditional delete: it counts a row exactly when the user has one that has not expired. */
  function Consume(w: World, i: nat, now: int): World
    requires i < |w.logins| && w.logins[i].phase.Consuming?
  {
    var l := w.logins[i];
    if l.user in w.rows && w.rows[l.user].expiresAt > now then
      To(w.(rows := w.rows - {l.user}), i, Finished(true, l.phase.message))
    else To(w, i, Finished(false, ""))
  }

  function Step(s: Setting, w: World, a: Action): World {
    match a
    case CreateChallenge(user, message, now) => Upsert(s, w, user, message, now)
    case Begin(user, signature) =>
      if user !in s.keys then w else w.(logins := w.logins + [Login(user, signature, Reading)])
    case Advance(i, now) =>
      if i >= |w.logins| then w
      else match w.logins[i].phase
        case Reading => Lookup(w, i, now)
        case Expiring => DropExpired(w, i)
        case Checking(_) => CheckSignature(s, w, i)
        case Consuming(_) => Consume(w, i, now)
        case Finished(_, _) => w
  }

  function Run(s: Setting, w: World, actions: seq<Action>): World {
    if actions == [] then w
    else Step(s, Run(s, w, actions[..|actions| - 1]), actions[|actions| - 1])
  }

  function Start(): World { World(map[], [], []) }

  // ----- counting ---------------------------------------------------------------------------------------

  function Issued(issued: seq<(User, string)>, user: User): nat {
    if issued == [] then 0
    else Issued(issued[..|issued| - 1], user) + if issued[|issued| - 1].0 == user then 1 else 0
  }

  predicate Succeeded(l: Login, user: User) { l.user == user && l.phase.Finished? && l.phase.ok }

  function Successes(logins: seq<Login>, user: User): nat {
    if logins == [] then 0
    else Successes(logins[..|logins| - 1], user) + if Succeeded(logins[|logins| - 1], user) then 1 else 0
  }

  function Pending(w: World, user: User): nat { if user in w.rows then 1 else 0 }

  lemma {:induction false} SuccessesUpdate(logins: seq<Login>, i: nat, l: Login, user: User)
    requires i < |logins|
    ensures Successes(logins[i := l], user) == Successes(logins, user)
              - (if Succeeded(logins[i], user) then 1 else 0) + (if Succeeded(l, user) then 1 else 0)
  {
    var n := |logins| - 1;
    var after := logins[i := l];
    if i == n {
      assert after[..n] == logins[..n];
    } else {
      SuccessesUpdate(logins[..n], i, l, user);
      assert after[..n] == logins[..n][i := l];
    }
  }

  lemma IssuedAppend(issued: seq<(User, string)>, x: (User, string), user: User)
    ensures Issued(issued + [x], user) == Issued(issued, user) + if x.0 == user then 1 else 0
  {
    assert (issued + [x])[..|issued|] == issued;
  }

  lemma SuccessesAppend(logins: seq<Login>, l: Login, user: User)
    ensures Successes(logins + [l], user) == Successes(logins, user) + if Succeeded(l, user) then 1 else 0
  {
    assert (logins + [l])[..|logins|] == logins;
  }

  /** Successes and pending rows can only come from issued challenges: no step makes the first outgrow the second. */
  lemma StepSpends(s: Setting, w: World, a: Action, user: User)
    ensures var w' := Step(s, w, a);
            Successes(w'.logins, user) + Pending(w', user) - Issued(w'.issued, user)
            <= Successes(w.logins, user) + Pending(w, user) - Issued(w.issued, user)
    ensures Issued(Step(s, w, a).issued, user) >= Issued(w.issued, user)
    ensures Successes(Step(s, w, a).logins, user) >= Successes(w.logins, user)
  {
    hide Successes, Issued;
    match a
    case CreateChallenge(u, message, _) => IssuedAppend(w.issued, (u, message), user);
    case Begin(u, signature) => SuccessesAppend(w.logins, Login(u, signature, Reading), user);
    case Advance(i, _) =>
      if i < |w.logins| {
        SuccessesUpdate(w.logins, i, Step(s, w, a).logins[i], user);
      }
  }

  /**
   Single use, over every interleaving and from every moment: in any stretch of a run, a user's successful
   logins number at most the challenges issued to that user in the stretch, plus one if a challenge was
   pending at its start.
   */
  lemma {:induction false} LoginsWithinChallenges(s: Setting, w: World, actions: seq<Action>, user: User)
    ensures var w' := Run(s, w, actions);
            Successes(w'.logins, user) - Successes(w.logins, user)
            <= Issued(w'.issued, user) - Issued(w.issued, user) + Pending(w, user)
    ensures var w' := Run(s, w, actions);
            Successes(w'.logins, user) + Pending(w', user) - Issued(w'.issued, user)
            <= Successes(w.logins, user) + Pending(w, user) - Issued(w.issued, user)
  {
    hide Step, Successes, Issued;
    if actions != [] {
      var n := |actions| - 1;
      LoginsWithinChallenges(s, w, actions[..n], user);
      StepSpends(s, Run(s, w, actions[..n]), actions[n], user);
    }
  }

  // ----- what a success has shown ------------------------------------------------------------------------

  /** The pending rows hold issued challenges. */
  ghost predicate RowsIssued(w: World) {
    forall u :: u in w.rows ==> (u, w.rows[u].message) in w.issued
  }

  /** A login past the reading step has an issued challenge of its user, and past the check a valid signature of it. */
  ghost predicate Backed(s: Setting, issued: seq<(User, string)>, l: Login) {
    match l.phase
    case Checking(m) => (l.user, m) in issued
    case Consuming(m) => (l.user, m) in issued && l.user in s.keys && s.verify(l.signature, m, s.keys[l.user])
    case Finished(ok, m) => ok ==> (l.user, m) in issued && l.user in s.keys && s.verify(l.signature, m, s.keys[l.user])
    case _ => true
  }

  ghost predicate AllBacked(s: Setting, w: World) {
    RowsIssued(w) && forall i :: 0 <= i < |w.logins| ==> Backed(s, w.issued, w.logins[i])
  }

  lemma StepKeepsBacked(s: Setting, w: World, a: Action)
    requires AllBacked(s, w)
    ensures AllBacked(s, Step(s, w, a))
  {
    match a
    case CreateChallenge(user, message, _) =>
      var issued := w.issued + [(user, message)];
      assert issued[|w.issued|] == (user, message);
      forall x | x in w.issued ensures x in issued {}
    case Advance(i, _) =>
      if i < |w.logins| { assert Backed(s, w.issued, w.logins[i]); }
    case _ =>
  }

  /** In every run, each successful login signed a challenge that was issued to its user, under the registered key. */
  lemma {:induction false} SuccessIsSigned(s: Setting, actions: seq<Action>)
    ensures AllBacked(s, Run(s, Start(), actions))
  {
    if actions != [] {
      hide Step, AllBacked;
      SuccessIsSigned(s, actions[..|actions| - 1]);
      StepKeepsBacked(s, Run(s, Start(), actions[..|actions| - 1]), actions[|actions| - 1]);
    }
  }

  // ----- a login that nothing interrupts -----------------------------------------------------------------

  /** The steps of one login in a row: begin, look up, check, consume. */
  function LogIn(s: Setting, w: World, user: User, signature: seq<bv8>, looked: int, checked: int, consumed: int)
      : World
  {
    var i := |w.logins|;
    var begun := Step(s, w, Begin(user, signature));
    Step(s, Step(s, Step(s, begun, Advance(i, looked)), Advance(i, checked)), Advance(i, consumed))
  }

  /**
   A registered user's login with the newest challenge succeeds exactly when the signature verifies and both looks at
   the clock are in time: the first may be at the end of the five minutes, the second may not. Success uses the
   challenge up, and so does a first look that finds it expired; anything else leaves it.
   */
  lemma LoginSucceedsIff(s: Setting, w: World, user: User, message: string, signature: seq<bv8>, now: int, looked: int,
                         checked: int, consumed: int)
    requires user in s.keys
    ensures var issued := Step(s, w, CreateChallenge(user, message, now));
            var w' := LogIn(s, issued, user, signature, looked, checked, consumed);
            var inTime, signed := looked <= now + 300000, s.verify(signature, message, s.keys[user]);
            var ok := inTime && signed && consumed < now + 300000;
            && w'.logins
               == w.logins + [Login(user, signature, if ok then Finished(true, message) else Finished(false, ""))]
            && w'.rows == if ok || !inTime then w.rows - {user}
                          else w.rows[user := Challenge(message, now + 300000)]
  {
    var i := |w.logins|;
    var issued := Step(s, w, CreateChallenge(user, message, now));
    var begun := Step(s, issued, Begin(user, signature));
    assert issued.rows - {user} == w.rows - {user};
    assert forall p: Phase :: begun.logins[i := Login(user, signature, p)] == w.logins + [Login(user, signature, p)];
  }

  /** Without a pending challenge no signature helps, and nobody is challenged or logged in without a registered key. */
  lemma RefusedWithout(s: Setting, w: World, user: User, message: string, signature: seq<bv8>, now: int, looked: int,
                       checked: int, consumed: int)
    ensures user in s.keys && user !in w.rows ==>
              var w' := LogIn(s, w, user, signature, looked, checked, consumed);
              w'.logins == w.logins + [Login(user, signature, Finished(false, ""))] && w'.rows == w.rows
    ensures user !in s.keys ==>
              Step(s, w, CreateChallenge(user, message, now)) == w && Step(s, w, Begin(user, signature)) == w
  {}
}

/**
 The canonical strings that the protocol hashes and signs: a version, then `key=value` entries,
 all joined by '|'.
 */
module Canonical {
  import opened Text

  /** What each canonical string is built from, one constructor per record kind. */
  datatype Body =
    | Request(requestId: string, merchantId: string, merchantName: string, amountMinorUnits: int, currency: string,
              note: string, nonce: string, createdAt: int, expiresAt: int, merchantPublicKey: string)
    | Confirmation(confirmationId: string, requestId: string, payerId: string, payerPublicKey: string,
                   amountMinorUnits: int, currency: string, status: string, authorizationId: string, timestamp: int)
    | Allowance(allowanceId: string, appUserId: string, stellarPublicKey: string, initialAmountMinorUnits: int,
                currency: string, createdAt: int, expiresAt: int, devicePublicKey: string)
    | Authorization(authorizationId: string, allowanceId: string, requestId: string, merchantId: string,
                    amountMinorUnits: int, currency: string, sequenceNumber: int, previousAuthHash: string,
                    timestamp: int, devicePublicKey: string)

  function Version(b: Body): string {
    match b
    case Request(_, _, _, _, _, _, _, _, _, _) => "pf-payreq-v1"
    case Confirmation(_, _, _, _, _, _, _, _, _) => "pf-payconf-v1"
    case Allowance(_, _, _, _, _, _, _, _) => "pf-allowance-v1"
    case Authorization(_, _, _, _, _, _, _, _, _, _) => "pf-auth-v1"
  }

  datatype Key =
    | AmountMinorUnits | CreatedAt | Currency | ExpiresAt | MerchantId | MerchantName | MerchantPublicKey
    | Nonce | Note | RequestId | AuthorizationId | ConfirmationId | PayerId | PayerPublicKey | Status
    | Timestamp | AllowanceId | AppUserId | StellarPublicKey | DevicePublicKey | InitialAmountMinorUnits
    | PreviousAuthHash | SequenceNumber

  function Word(k: Key): string {
    match k
    case AmountMinorUnits => "amountMinorUnits"
    case CreatedAt => "createdAt"
    case Currency => "currency"
    case ExpiresAt => "expiresAt"
    case MerchantId => "merchantId"
    case MerchantName => "merchantName"
    case MerchantPublicKey => "merchantPublicKey"
    case Nonce => "nonce"
    case Note => "note"
    case RequestId => "requestId"
    case AuthorizationId => "authorizationId"
    case ConfirmationId => "confirmationId"
    case PayerId => "payerId"
    case PayerPublicKey => "payerPublicKey"
    case Status => "status"
    case Timestamp => "timestamp"
    case AllowanceId => "allowanceId"
    case AppUserId => "appUserId"
    case StellarPublicKey => "stellarPublicKey"
    case DevicePublicKey => "devicePublicKey"
    case InitialAmountMinorUnits => "initialAmountMinorUnits"
    case PreviousAuthHash => "previousAuthHash"
    case SequenceNumber => "sequenceNumber"
  }

  function Keys(b: Body): seq<Key> {
    match b
    case Request(_, _, _, _, _, _, _, _, _, _) =>
      [AmountMinorUnits, CreatedAt, Currency, ExpiresAt, MerchantId, MerchantName, MerchantPublicKey,
       Nonce, Note, RequestId]
    case Confirmation(_, _, _, _, _, _, _, _, _) =>
      [AmountMinorUnits, AuthorizationId, ConfirmationId, Currency, PayerId, PayerPublicKey, RequestId,
       Status, Timestamp]
    case Allowance(_, _, _, _, _, _, _, _) =>
      [AllowanceId, AppUserId, StellarPublicKey, Currency, DevicePublicKey, ExpiresAt, CreatedAt,
       InitialAmountMinorUnits]
    case Authorization(_, _, _, _, _, _, _, _, _, _) =>
      [AllowanceId, AmountMinorUnits, AuthorizationId, Currency, DevicePublicKey, MerchantId,
       PreviousAuthHash, RequestId, SequenceNumber, Timestamp]
  }

  /** The values under the keys; `iso` writes an instant as ISO-8601 text. */
  function Values(iso: int -> string, b: Body): seq<string> {
    match b
    case Request(requestId, merchantId, merchantName, amount, currency, note, nonce, createdAt, expiresAt, key) =>
      [Print(amount), iso(createdAt), currency, iso(expiresAt), merchantId, merchantName, key, nonce, note, requestId]
    case Confirmation(confirmationId, requestId, payerId, key, amount, currency, status, authorizationId, timestamp) =>
      [Print(amount), authorizationId, confirmationId, currency, payerId, key, requestId, status, iso(timestamp)]
    case Allowance(allowanceId, appUserId, stellarKey, initial, currency, createdAt, expiresAt, key) =>
      [allowanceId, appUserId, stellarKey, currency, key, iso(expiresAt), iso(createdAt), Print(initial)]
    case Authorization(authorizationId, allowanceId, requestId, merchantId, amount, currency, number, previous,
                       timestamp, key) =>
      [allowanceId, Print(amount), authorizationId, currency, key, merchantId, previous, requestId, Print(number),
       iso(timestamp)]
  }

  function Entry(key: Key, value: string): string { Word(key) + ['='] + value }

  function Parts(iso: int -> string, b: Body): seq<string>
  {
    [Version(b)] + seq(|Keys(b)|, i requires 0 <= i < |Keys(b)| => Entry(Keys(b)[i], Values(iso, b)[i]))
  }

  function BuildCanonicalString(iso: int -> string, b: Body): string {
    Join(Parts(iso, b), '|')
  }

  // ----- injectivity -----------------------------------------------------------------------------

  /** Distinct instants have distinct texts, none with a separator in it. */
  ghost predicate Dated(iso: int -> string) {
    && (forall s, t {:trigger iso(s), iso(t)} :: iso(s) == iso(t) ==> s == t)
    && forall t :: '|' !in iso(t)
  }

  /** What announces an entry. */
  function Marker(key: Key): (m: string)
    ensures |m| >= 2 && m[0] == '|'
  {
    ['|'] + Word(key) + ['=']
  }

  predicate OccursAt(m: string, text: string, i: int) {
    0 <= i <= |text| - |m| && text[i..i + |m|] == m
  }

  ghost predicate Occurs(m: string, text: string) {
    exists i :: OccursAt(m, text, i)
  }

  /** No value holds the marker of the entry that follows it; the last value may hold anything. */
  ghost predicate Unambiguous(iso: int -> string, b: Body) {
    Clear(Keys(b), Values(iso, b))
  }

  ghost predicate Clear(keys: seq<Key>, values: seq<string>) {
    |keys| == |values| && forall i :: 0 <= i < |keys| - 1 ==> !Occurs(Marker(keys[i + 1]), values[i])
  }

  /** No text field has a separator in it. */
  predicate Separable(b: Body) {
    match b
    case Request(requestId, merchantId, merchantName, _, currency, note, nonce, _, _, key) =>
      && '|' !in requestId && '|' !in merchantId && '|' !in merchantName && '|' !in currency && '|' !in note
      && '|' !in nonce && '|' !in key
    case Confirmation(confirmationId, requestId, payerId, key, _, currency, status, authorizationId, _) =>
      && '|' !in confirmationId && '|' !in requestId && '|' !in payerId && '|' !in key && '|' !in currency
      && '|' !in status && '|' !in authorizationId
    case Allowance(allowanceId, appUserId, stellarKey, _, currency, _, _, key) =>
      '|' !in allowanceId && '|' !in appUserId && '|' !in stellarKey && '|' !in currency && '|' !in key
    case Authorization(authorizationId, allowanceId, requestId, merchantId, _, currency, _, previous, _, key) =>
      && '|' !in authorizationId && '|' !in allowanceId && '|' !in requestId && '|' !in merchantId && '|' !in currency
      && '|' !in previous && '|' !in key
  }

  lemma PrintInjective(a: int, b: int)
    requires Print(a) == Print(b)
    ensures a == b
  {
    PrintRoundTrip(a);
    PrintRoundTrip(b);
  }

  lemma AmountAndDateWords()
    ensures '|' !in Word(AmountMinorUnits) && '|' !in Word(CreatedAt) && '|' !in Word(Currency)
         && '|' !in Word(ExpiresAt)
    ensures '|' !in Word(MerchantId)
  {}

  lemma PartyWords()
    ensures '|' !in Word(MerchantName) && '|' !in Word(MerchantPublicKey) && '|' !in Word(Nonce) && '|' !in Word(Note)
    ensures '|' !in Word(RequestId)
  {}

  lemma PayerWords()
    ensures '|' !in Word(AuthorizationId) && '|' !in Word(ConfirmationId) && '|' !in Word(PayerId)
         && '|' !in Word(PayerPublicKey)
    ensures '|' !in Word(Status)
  {}

  lemma AllowanceWords()
    ensures '|' !in Word(Timestamp) && '|' !in Word(AllowanceId) && '|' !in Word(AppUserId)
         && '|' !in Word(StellarPublicKey)
  {}

  lemma ChainWords()
    ensures '|' !in Word(DevicePublicKey) && '|' !in Word(InitialAmountMinorUnits) && '|' !in Word(PreviousAuthHash)
         && '|' !in Word(SequenceNumber)
  {}

  lemma WordSeparable(k: Key)
    ensures '|' !in Word(k)
  {
    hide Word;
    AmountAndDateWords();
    PartyWords();
    PayerWords();
    AllowanceWords();
    ChainWords();
  }

  lemma VersionSeparable(b: Body)
    ensures '|' !in Version(b)
  {}

  lemma PrintHasNoSeparator(n: int)
    ensures '|' !in Print(n)
  {
    PrintRoundTrip(n);
  }

  /** Numbers and instants never print a separator. */
  lemma ValuesSeparable(iso: int -> string, b: Body)
    requires Dated(iso) && Separable(b)
    ensures forall i :: 0 <= i < |Values(iso, b)| ==> '|' !in Values(iso, b)[i]
  {
    hide Print;
    match b
    case Request(_, _, _, amount, _, _, _, _, _, _) => PrintHasNoSeparator(amount);
    case Confirmation(_, _, _, _, amount, _, _, _, _) => PrintHasNoSeparator(amount);
    case Allowance(_, _, _, initial, _, _, _, _) => PrintHasNoSeparator(initial);
    case Authorization(_, _, _, _, amount, _, number, _, _, _) =>
      PrintHasNoSeparator(amount);
      PrintHasNoSeparator(number);
  }

  lemma OccursHasFirst(m: string, text: string)
    requires m != [] && Occurs(m, text)
    ensures m[0] in text
  {
    var i :| OccursAt(m, text, i);
    assert text[i] == text[i..i + |m|][0];
  }

  lemma NoMarker(key: Key, text: string)
    requires '|' !in text
    ensures !Occurs(Marker(key), text)
  {
    hide Marker, Occurs;
    if Occurs(Marker(key), text) { OccursHasFirst(Marker(key), text); }
  }

  /** Records without separators in their text fields are unambiguous. */
  lemma SeparableIsUnambiguous(iso: int -> string, b: Body)
    requires Dated(iso) && Separable(b)
    ensures Unambiguous(iso, b)
  {
    SameLength(iso, b);
    ValuesSeparable(iso, b);
    hide Keys, Values, Marker, Occurs, Dated, Separable;
    forall i | 0 <= i < |Keys(b)| - 1 ensures !Occurs(Marker(Keys(b)[i + 1]), Values(iso, b)[i]) {
      NoMarker(Keys(b)[i + 1], Values(iso, b)[i]);
    }
  }

  lemma SameLength(iso: int -> string, b: Body)
    ensures |Keys(b)| == |Values(iso, b)|
  {}

  lemma VersionsDiffer(a: Body, b: Body)
    requires Version(a) == Version(b)
    ensures Keys(a) == Keys(b)
    ensures (a.Request? <==> b.Request?) && (a.Confirmation? <==> b.Confirmation?) && (a.Allowance? <==> b.Allowance?)
  {
    assert |Version(a)| == |Version(b)|;
  }

  // ----- the string without its joins ------------------------------------------------------------

  /** Marker and value of every entry, one after the other. */
  ghost function Rest(keys: seq<Key>, values: seq<string>): string
    requires |keys| == |values|
  {
    if keys == [] then [] else Marker(keys[0]) + values[0] + Rest(keys[1..], values[1..])
  }

  ghost function Entries(keys: seq<Key>, values: seq<string>): seq<string>
    requires |keys| == |values|
  {
    seq(|keys|, i requires 0 <= i < |keys| => Entry(keys[i], values[i]))
  }

  lemma {:induction false} JoinIsRest(first: string, keys: seq<Key>, values: seq<string>)
    requires |keys| == |values|
    ensures Join([first] + Entries(keys, values), '|') == first + Rest(keys, values)
    decreases |keys|
  {
    hide Word;
    var parts := [first] + Entries(keys, values);
    if keys == [] {
      assert parts == [first];
    } else {
      JoinIsRest(Entry(keys[0], values[0]), keys[1..], values[1..]);
      assert parts[1..] == [Entry(keys[0], values[0])] + Entries(keys[1..], values[1..]);
      assert first + ['|'] + (Entry(keys[0], values[0]) + Rest(keys[1..], values[1..])) == first + Rest(keys, values);
    }
  }

  lemma BuildIsRest(iso: int -> string, b: Body)
    ensures |Keys(b)| == |Values(iso, b)| && Keys(b) != []
    ensures BuildCanonicalString(iso, b) == Version(b) + Rest(Keys(b), Values(iso, b))
  {
    SameLength(iso, b);
    SomeKeys(b);
    hide Keys, Values, Version, Entry, Join;
    JoinIsRest(Version(b), Keys(b), Values(iso, b));
    assert Parts(iso, b) == [Version(b)] + Entries(Keys(b), Values(iso, b));
  }

  lemma SomeKeys(b: Body)
    ensures Keys(b) != []
  {}

  lemma RestStarts(keys: seq<Key>, values: seq<string>)
    requires |keys| == |values| && keys != []
    ensures var m, r := Marker(keys[0]), Rest(keys, values); |m| <= |r| && r[..|m|] == m && r[0] == '|'
  {
    hide Marker;
    var m := Marker(keys[0]);
    assert Rest(keys, values) == m + (values[0] + Rest(keys[1..], values[1..]));
  }

  // ----- injectivity -----------------------------------------------------------------------------

  /** Only the first character of a marker is a separator. */
  lemma MarkerInside(key: Key, j: int)
    requires 0 < j < |Marker(key)|
    ensures Marker(key)[j] != '|'
  {
    hide Word;
    WordSeparable(key);
  }

  /** A text in front of a marker, compared with another cut of the same string. */
  lemma MarkerPlace(v: string, w: string, m: string, x: string, y: string)
    requires v + x == w + y && |m| <= |x| && x[..|m|] == m && y != []
    ensures |v| + |m| <= |w| ==> OccursAt(m, w, |v|)
    ensures |v| < |w| < |v| + |m| ==> m[|w| - |v|] == y[0]
  {
    var s := v + x;
    assert s[|v|..|v| + |m|] == m;
    if |v| + |m| <= |w| {
      assert w[|v|..|v| + |m|] == s[|v|..|v| + |m|];
    } else if |v| < |w| {
      assert s[|w|] == s[|v|..|v| + |m|][|w| - |v|];
      assert s[|w|] == (w + y)[|w|];
    }
  }

  /** The first marker after a value that does not hold it stands right behind the value. */
  lemma NotShorter(v: string, w: string, key: Key, x: string, y: string)
    requires v + x == w + y && !Occurs(Marker(key), w)
    requires |Marker(key)| <= |x| && x[..|Marker(key)|] == Marker(key) && y != [] && y[0] == '|'
    ensures |v| >= |w|
  {
    hide Marker, OccursAt;
    MarkerPlace(v, w, Marker(key), x, y);
    if |v| < |w| < |v| + |Marker(key)| { MarkerInside(key, |w| - |v|); }
  }

  lemma SplitAlike(v: string, w: string, x: string, y: string)
    requires v + x == w + y && |v| == |w|
    ensures v == w && x == y
  {
    assert v == (v + x)[..|v|] && w == (w + y)[..|w|];
    assert x == (v + x)[|v|..] && y == (w + y)[|w|..];
  }

  lemma ClearRest(keys: seq<Key>, values: seq<string>)
    requires Clear(keys, values) && keys != []
    ensures Clear(keys[1..], values[1..])
    ensures |keys| > 1 ==> !Occurs(Marker(keys[1]), values[0])
  {
    hide Occurs, Marker;
    forall i | 0 <= i < |keys[1..]| - 1 ensures !Occurs(Marker(keys[1..][i + 1]), values[1..][i]) {
      assert keys[1..][i + 1] == keys[i + 2] && values[1..][i] == values[i + 1];
    }
  }

  lemma {:induction false} RestInjective(keys: seq<Key>, v: seq<string>, w: seq<string>)
    requires Clear(keys, v) && Clear(keys, w) && Rest(keys, v) == Rest(keys, w)
    ensures v == w
  {
    hide Marker, Occurs, Clear;
    assert |keys| == |v| == |w| by { ClearLengths(keys, v); ClearLengths(keys, w); }
    if keys != [] {
      var m, tail := Marker(keys[0]), keys[1..];
      var x, y := Rest(tail, v[1..]), Rest(tail, w[1..]);
      ClearRest(keys, v);
      ClearRest(keys, w);
      assert m + v[0] + x == m + (v[0] + x) && m + w[0] + y == m + (w[0] + y);
      SplitAlike(m, m, v[0] + x, w[0] + y);
      if tail == [] {
        assert x == [] && y == [];
      } else {
        RestStarts(tail, v[1..]);
        RestStarts(tail, w[1..]);
        NotShorter(v[0], w[0], keys[1], x, y);
        NotShorter(w[0], v[0], keys[1], y, x);
      }
      SplitAlike(v[0], w[0], x, y);
      RestInjective(tail, v[1..], w[1..]);
      assert v == [v[0]] + v[1..] && w == [w[0]] + w[1..];
    }
  }

  lemma ClearLengths(keys: seq<Key>, values: seq<string>)
    requires Clear(keys, values)
    ensures |keys| == |values|
  {}

  lemma VersionsAlike(a: Body, b: Body, x: string, y: string)
    requires Version(a) + x == Version(b) + y && x != [] && y != [] && x[0] == '|' && y[0] == '|'
    ensures Version(a) == Version(b) && x == y
  {
    VersionSeparable(a);
    VersionSeparable(b);
    hide Version;
    var v, w := Version(a), Version(b);
    HeadOfJoined(v, '|', x[1..]);
    HeadOfJoined(w, '|', y[1..]);
    assert v + x == v + ['|'] + x[1..] && w + y == w + ['|'] + y[1..];
    SplitAlike(v, w, x, y);
  }

  lemma ValuesInjective(iso: int -> string, a: Body, b: Body)
    requires Dated(iso) && Version(a) == Version(b) && Values(iso, a) == Values(iso, b)
    ensures a == b
  {
    hide Print;
    VersionsDiffer(a, b);
    var v, w := Values(iso, a), Values(iso, b);
    assert v[0] == w[0] && v[1] == w[1] && v[2] == w[2] && v[3] == w[3] && v[4] == w[4] && v[5] == w[5]
           && v[6] == w[6] && v[7] == w[7];
    assert |v| > 8 ==> v[8] == w[8];
    assert |v| > 9 ==> v[9] == w[9];
    match a
    case Request(_, _, _, _, _, _, _, _, _, _) => PrintInjective(a.amountMinorUnits, b.amountMinorUnits);
    case Confirmation(_, _, _, _, _, _, _, _, _) => PrintInjective(a.amountMinorUnits, b.amountMinorUnits);
    case Allowance(_, _, _, _, _, _, _, _) => PrintInjective(a.initialAmountMinorUnits, b.initialAmountMinorUnits);
    case Authorization(_, _, _, _, _, _, _, _, _, _) =>
      PrintInjective(a.amountMinorUnits, b.amountMinorUnits);
      PrintInjective(a.sequenceNumber, b.sequenceNumber);
  }

  /**
   Equal canonical strings come from equal records of the same kind, when no value holds the marker of the
   entry that follows it.
   */
  lemma CanonicalInjective(iso: int -> string, a: Body, b: Body)
    requires Dated(iso) && Unambiguous(iso, a) && Unambiguous(iso, b)
    requires BuildCanonicalString(iso, a) == BuildCanonicalString(iso, b)
    ensures a == b
  {
    hide Keys, Values, Dated, Clear, Version, BuildCanonicalString;
    BuildIsRest(iso, a);
    BuildIsRest(iso, b);
    RestStarts(Keys(a), Values(iso, a));
    RestStarts(Keys(b), Values(iso, b));
    VersionsAlike(a, b, Rest(Keys(a), Values(iso, a)), Rest(Keys(b), Values(iso, b)));
    VersionsDiffer(a, b);
    RestInjective(Keys(a), Values(iso, a), Values(iso, b));
    ValuesInjective(iso, a, b);
  }

  // ----- the condition is needed ---------------------------------------------------------------------

  /** A value may give the end that holds the next marker to the next value. */
  lemma {:induction false} BoundaryMoves(keys: seq<Key>, values: seq<string>, i: nat, x: string, y: string, z: string)
    requires |keys| == |values| && i + 1 < |keys|
    ensures var m := Marker(keys[i + 1]);
            Rest(keys, values[i := x + m + y][i + 1 := z]) == Rest(keys, values[i := x][i + 1 := y + m + z])
  {
    hide Marker;
    var m := Marker(keys[i + 1]);
    var v, w := values[i := x + m + y][i + 1 := z], values[i := x][i + 1 := y + m + z];
    if i == 0 {
      var r := Rest(keys[2..], values[2..]);
      assert keys[1..][1..] == keys[2..] && v[1..][1..] == values[2..] && w[1..][1..] == values[2..];
      assert Rest(keys[1..], v[1..]) == m + z + r && Rest(keys[1..], w[1..]) == m + (y + m + z) + r;
      assert (x + m + y) + (m + z + r) == x + (m + (y + m + z) + r);
      assert Marker(keys[0]) + (x + m + y) + (m + z + r) == Marker(keys[0]) + ((x + m + y) + (m + z + r));
      assert Marker(keys[0]) + x + (m + (y + m + z) + r) == Marker(keys[0]) + (x + (m + (y + m + z) + r));
    } else {
      BoundaryMoves(keys[1..], values[1..], i - 1, x, y, z);
      assert v[1..] == values[1..][i - 1 := x + m + y][i := z] && w[1..] == values[1..][i - 1 := x][i := y + m + z];
    }
  }

  /** The entry under the key is text: not a number and not an instant. */
  predicate IsText(k: Key) {
    k !in {AmountMinorUnits, InitialAmountMinorUnits, SequenceNumber, CreatedAt, ExpiresAt, Timestamp}
  }

  /** The record with other texts, given with all values; its numbers and instants stay. */
  function WithTexts(b: Body, values: seq<string>): Body
    requires |values| == |Keys(b)|
  {
    match b
    case Request(_, _, _, amount, _, _, _, createdAt, expiresAt, _) =>
      Request(values[9], values[4], values[5], amount, values[2], values[8], values[7], createdAt, expiresAt, values[6])
    case Confirmation(_, _, _, _, amount, _, _, _, timestamp) =>
      Confirmation(values[2], values[6], values[4], values[5], amount, values[3], values[7], values[1], timestamp)
    case Allowance(_, _, _, initial, _, createdAt, expiresAt, _) =>
      Allowance(values[0], values[1], values[2], initial, values[3], createdAt, expiresAt, values[4])
    case Authorization(_, _, _, _, amount, _, number, _, timestamp, _) =>
      Authorization(values[2], values[0], values[7], values[5], amount, values[3], number, values[6], timestamp,
                    values[4])
  }

  /** Values that differ from a record's in texts only. */
  ghost predicate OtherTexts(iso: int -> string, b: Body, values: seq<string>) {
    && |values| == |Keys(b)| == |Values(iso, b)|
    && forall i :: 0 <= i < |values| && !IsText(Keys(b)[i]) ==> values[i] == Values(iso, b)[i]
  }

  lemma KindWithTexts(b: Body, values: seq<string>)
    requires |values| == |Keys(b)|
    ensures Keys(WithTexts(b, values)) == Keys(b) && Version(WithTexts(b, values)) == Version(b)
  {}

  lemma RequestWithTexts(iso: int -> string, b: Body, values: seq<string>)
    requires b.Request? && |values| == 10 && values[0] == Print(b.amountMinorUnits) && values[1] == iso(b.createdAt)
         && values[3] == iso(b.expiresAt)
    ensures Values(iso, WithTexts(b, values)) == values
  {
    hide Print;
  }

  lemma RequestTexts(iso: int -> string, b: Body, values: seq<string>)
    requires b.Request? && OtherTexts(iso, b, values)
    ensures |values| == 10 && values[0] == Print(b.amountMinorUnits) && values[1] == iso(b.createdAt)
         && values[3] == iso(b.expiresAt)
  {
    hide Print;
  }

  lemma ConfirmationWithTexts(iso: int -> string, b: Body, values: seq<string>)
    requires b.Confirmation? && |values| == 9 && values[0] == Print(b.amountMinorUnits) && values[8] == iso(b.timestamp)
    ensures Values(iso, WithTexts(b, values)) == values
  {
    hide Print;
  }

  lemma ConfirmationTexts(iso: int -> string, b: Body, values: seq<string>)
    requires b.Confirmation? && OtherTexts(iso, b, values)
    ensures |values| == 9 && values[0] == Print(b.amountMinorUnits) && values[8] == iso(b.timestamp)
  {
    hide Print;
  }

  lemma AllowanceWithTexts(iso: int -> string, b: Body, values: seq<string>)
    requires b.Allowance? && |values| == 8 && values[5] == iso(b.expiresAt) && values[6] == iso(b.createdAt)
         && values[7] == Print(b.initialAmountMinorUnits)
    ensures Values(iso, WithTexts(b, values)) == values
  {
    hide Print;
  }

  lemma AllowanceTexts(iso: int -> string, b: Body, values: seq<string>)
    requires b.Allowance? && OtherTexts(iso, b, values)
    ensures |values| == 8 && values[5] == iso(b.expiresAt) && values[6] == iso(b.createdAt)
         && values[7] == Print(b.initialAmountMinorUnits)
  {
    hide Print;
  }

  lemma AuthorizationWithTexts(iso: int -> string, b: Body, values: seq<string>)
    requires b.Authorization? && |values| == 10 && values[1] == Print(b.amountMinorUnits)
    requires values[8] == Print(b.sequenceNumber) && values[9] == iso(b.timestamp)
    ensures Values(iso, WithTexts(b, values)) == values
  {
    hide Print;
  }

  lemma AuthorizationTexts(iso: int -> string, b: Body, values: seq<string>)
    requires b.Authorization? && OtherTexts(iso, b, values)
    ensures |values| == 10 && values[1] == Print(b.amountMinorUnits) && values[8] == Print(b.sequenceNumber)
         && values[9] == iso(b.timestamp)
  {
    hide Print;
  }

  /** The values are then those that it was given. */
  lemma ValuesWithTexts(iso: int -> string, b: Body, values: seq<string>)
    requires OtherTexts(iso, b, values)
    ensures |values| == |Keys(b)| && Values(iso, WithTexts(b, values)) == values
  {
    hide Values, WithTexts, IsText;
    match b
    case Request(_, _, _, _, _, _, _, _, _, _) =>
      RequestTexts(iso, b, values);
      RequestWithTexts(iso, b, values);
    case Confirmation(_, _, _, _, _, _, _, _, _) =>
      ConfirmationTexts(iso, b, values);
      ConfirmationWithTexts(iso, b, values);
    case Allowance(_, _, _, _, _, _, _, _) =>
      AllowanceTexts(iso, b, values);
      AllowanceWithTexts(iso, b, values);
    case Authorization(_, _, _, _, _, _, _, _, _, _) =>
      AuthorizationTexts(iso, b, values);
      AuthorizationWithTexts(iso, b, values);
  }

  lemma ValuesLength(iso: int -> string, b: Body)
    ensures |Values(iso, b)| == |Keys(b)|
  {
    hide Print;
  }

  /** The record with other texts in two neighbouring entries. */
  function WithTwo(iso: int -> string, b: Body, i: nat, u: string, v: string): Body
    requires i + 1 < |Keys(b)|
  {
    ValuesLength(iso, b);
    WithTexts(b, Values(iso, b)[i := u][i + 1 := v])
  }

  lemma ValuesWithTwo(iso: int -> string, b: Body, i: nat, u: string, v: string)
    requires i + 1 < |Keys(b)| && IsText(Keys(b)[i]) && IsText(Keys(b)[i + 1])
    ensures var a := WithTwo(iso, b, i, u, v);
            && |Values(iso, b)| == |Keys(b)| && Values(iso, a) == Values(iso, b)[i := u][i + 1 := v]
            && Keys(a) == Keys(b) && Version(a) == Version(b)
  {
    hide Keys, Values, Version, IsText, WithTexts;
    ValuesLength(iso, b);
    var values := Values(iso, b)[i := u][i + 1 := v];
    ValuesWithTexts(iso, b, values);
    KindWithTexts(b, values);
  }

  /**
   Wherever a text follows a text, in each of the four kinds and whatever the rest holds: a value with the next
   marker inside lets two different records have one string.
   */
  lemma SeparatorMatters(iso: int -> string, r: Body, i: nat, x: string, y: string, z: string)
    requires i + 1 < |Keys(r)| && IsText(Keys(r)[i]) && IsText(Keys(r)[i + 1])
    ensures var m := Marker(Keys(r)[i + 1]);
            var a, b := WithTwo(iso, r, i, x + m + y, z), WithTwo(iso, r, i, x, y + m + z);
            a != b && BuildCanonicalString(iso, a) == BuildCanonicalString(iso, b)
  {
    hide Keys, Values, Version, IsText, WithTwo, Marker, BuildCanonicalString, Rest;
    var m := Marker(Keys(r)[i + 1]);
    var a, b := WithTwo(iso, r, i, x + m + y, z), WithTwo(iso, r, i, x, y + m + z);
    ValuesWithTwo(iso, r, i, x + m + y, z);
    ValuesWithTwo(iso, r, i, x, y + m + z);
    assert Values(iso, a)[i] == x + m + y && Values(iso, b)[i] == x;
    assert |x + m + y| > |x|;
    BuildIsRest(iso, a);
    BuildIsRest(iso, b);
    BoundaryMoves(Keys(r), Values(iso, r), i, x, y, z);
  }

  // ----- the four strings written out -----------------------------------------------------------------

  /** A version and named values, one after the other. */
  function Record(version: string, entries: seq<(string, string)>): string {
    if entries == [] then version else
      var n := |entries| - 1;
      Record(version, entries[..n]) + "|" + entries[n].0 + "=" + entries[n].1
  }

  lemma {:induction false} RestMore(keys: seq<Key>, values: seq<string>, n: nat)
    requires |keys| == |values| && n < |keys|
    ensures Rest(keys[..n + 1], values[..n + 1]) == Rest(keys[..n], values[..n]) + "|" + Word(keys[n]) + "=" + values[n]
  {
    hide Word;
    if n == 0 {
      assert keys[..1][1..] == [] && values[..1][1..] == [];
    } else {
      RestMore(keys[1..], values[1..], n - 1);
      assert keys[..n + 1][1..] == keys[1..][..n] && values[..n + 1][1..] == values[1..][..n];
      assert keys[..n][1..] == keys[1..][..n - 1] && values[..n][1..] == values[1..][..n - 1];
    }
  }

  lemma {:induction false} RecordIs(iso: int -> string, b: Body, entries: seq<(string, string)>, n: nat)
    requires |Values(iso, b)| == |Keys(b)| == |entries| && n <= |entries|
    requires forall i :: 0 <= i < |entries| ==> entries[i] == (Word(Keys(b)[i]), Values(iso, b)[i])
    ensures Record(Version(b), entries[..n]) == Version(b) + Rest(Keys(b)[..n], Values(iso, b)[..n])
  {
    hide Keys, Values, Version, Word;
    if n > 0 {
      RecordIs(iso, b, entries, n - 1);
      RestMore(Keys(b), Values(iso, b), n - 1);
      assert entries[..n][..n - 1] == entries[..n - 1];
    }
  }

  lemma BuildIsRecord(iso: int -> string, b: Body, entries: seq<(string, string)>)
    requires |Values(iso, b)| == |Keys(b)| == |entries|
    requires forall i :: 0 <= i < |entries| ==> entries[i] == (Word(Keys(b)[i]), Values(iso, b)[i])
    ensures BuildCanonicalString(iso, b) == Record(Version(b), entries)
  {
    hide Keys, Values, Version, Word, BuildCanonicalString, Rest;
    var n := |entries|;
    BuildIsRest(iso, b);
    RecordIs(iso, b, entries, n);
    assert Keys(b)[..n] == Keys(b) && Values(iso, b)[..n] == Values(iso, b) && entries[..n] == entries;
  }

  lemma RequestString(iso: int -> string, requestId: string, merchantId: string, merchantName: string, amount: int,
                      currency: string, note: string, nonce: string, createdAt: int, expiresAt: int, key: string)
    ensures BuildCanonicalString(iso, Request(requestId, merchantId, merchantName, amount, currency, note, nonce,
                                              createdAt, expiresAt, key))
         == Record("pf-payreq-v1", [("amountMinorUnits", Print(amount)), ("createdAt", iso(createdAt)),
                                    ("currency", currency), ("expiresAt", iso(expiresAt)), ("merchantId", merchantId),
                                    ("merchantName", merchantName), ("merchantPublicKey", key), ("nonce", nonce),
                                    ("note", note), ("requestId", requestId)])
  {
    hide Print, Record, BuildCanonicalString;
    var b := Request(requestId, merchantId, merchantName, amount, currency, note, nonce, createdAt, expiresAt, key);
    var entries := [("amountMinorUnits", Print(amount)), ("createdAt", iso(createdAt)), ("currency", currency),
                    ("expiresAt", iso(expiresAt)), ("merchantId", merchantId), ("merchantName", merchantName),
                    ("merchantPublicKey", key), ("nonce", nonce), ("note", note), ("requestId", requestId)];
    BuildIsRecord(iso, b, entries);
  }

  lemma ConfirmationString(iso: int -> string, confirmationId: string, requestId: string, payerId: string,
                           key: string, amount: int, currency: string, status: string, authorizationId: string,
                           timestamp: int)
    ensures BuildCanonicalString(iso, Confirmation(confirmationId, requestId, payerId, key, amount, currency, status,
                                                   authorizationId, timestamp))
         == Record("pf-payconf-v1", [("amountMinorUnits", Print(amount)), ("authorizationId", authorizationId),
                                     ("confirmationId", confirmationId), ("currency", currency), ("payerId", payerId),
                                     ("payerPublicKey", key), ("requestId", requestId), ("status", status),
                                     ("timestamp", iso(timestamp))])
  {
    hide Print, Record, BuildCanonicalString;
    var b := Confirmation(confirmationId, requestId, payerId, key, amount, currency, status, authorizationId,
                          timestamp);
    var entries := [("amountMinorUnits", Print(amount)), ("authorizationId", authorizationId),
                    ("confirmationId", confirmationId), ("currency", currency), ("payerId", payerId),
                    ("payerPublicKey", key), ("requestId", requestId), ("status", status),
                    ("timestamp", iso(timestamp))];
    BuildIsRecord(iso, b, entries);
  }

  lemma AllowanceString(iso: int -> string, allowanceId: string, appUserId: string, stellarKey: string, initial: int,
                        currency: string, createdAt: int, expiresAt: int, key: string)
    ensures BuildCanonicalString(iso, Allowance(allowanceId, appUserId, stellarKey, initial, currency, createdAt,
                                                expiresAt, key))
         == Record("pf-allowance-v1", [("allowanceId", allowanceId), ("appUserId", appUserId),
                                       ("stellarPublicKey", stellarKey), ("currency", currency),
                                       ("devicePublicKey", key), ("expiresAt", iso(expiresAt)),
                                       ("createdAt", iso(createdAt)), ("initialAmountMinorUnits", Print(initial))])
  {
    hide Print, Record, BuildCanonicalString;
    var b := Allowance(allowanceId, appUserId, stellarKey, initial, currency, createdAt, expiresAt, key);
    var entries := [("allowanceId", allowanceId), ("appUserId", appUserId), ("stellarPublicKey", stellarKey),
                    ("currency", currency), ("devicePublicKey", key), ("expiresAt", iso(expiresAt)),
                    ("createdAt", iso(createdAt)), ("initialAmountMinorUnits", Print(initial))];
    BuildIsRecord(iso, b, entries);
  }

  lemma AuthorizationString(iso: int -> string, authorizationId: string, allowanceId: string, requestId: string,
                            merchantId: string, amount: int, currency: string, number: int, previous: string,
                            timestamp: int, key: string)
    ensures BuildCanonicalString(iso, Authorization(authorizationId, allowanceId, requestId, merchantId, amount,
                                                    currency, number, previous, timestamp, key))
         == Record("pf-auth-v1", [("allowanceId", allowanceId), ("amountMinorUnits", Print(amount)),
                                  ("authorizationId", authorizationId), ("currency", currency),
                                  ("devicePublicKey", key), ("merchantId", merchantId),
                                  ("previousAuthHash", previous), ("requestId", requestId),
                                  ("sequenceNumber", Print(number)), ("timestamp", iso(timestamp))])
  {
    hide Print, Record, BuildCanonicalString;
    var b := Authorization(authorizationId, allowanceId, requestId, merchantId, amount, currency, number, previous,
                           timestamp, key);
    var entries := [("allowanceId", allowanceId), ("amountMinorUnits", Print(amount)),
                    ("authorizationId", authorizationId), ("currency", currency), ("devicePublicKey", key),
                    ("merchantId", merchantId), ("previousAuthHash", previous), ("requestId", requestId),
                    ("sequenceNumber", Print(number)), ("timestamp", iso(timestamp))];
    BuildIsRecord(iso, b, entries);
  }
}

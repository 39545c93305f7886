/**
Minting over whole runs: requests read a key, and later verify and record against what the tables
have become, among creations, revocations and sign-ins ended. Steps are at instants of a clock that
does not go back; a mint verifies and records at one instant.
*/
module ApiKeyRuns {
  import opened Wrappers
  import opened Oauth
  import opened ApiKeyCruder
  import A = Assertion

  /** `readings` is what each mint request in progress has read of its key. */
  datatype State = State(db: Db, readings: map<nat, Key>, clock: Time)

  datatype Step =
    | Register(accountId: Id, key: A.PublicKey, name: string, expiresAt: Option<Time>, now: Time)
    | Read(request: nat, keyId: Id, now: Time)
    | Mint(request: nat, claims: A.Claims, audience: string, now: Time, newId: Id)
    | Revoke(accountId: Id, keyId: Id, now: Time)
    | End(authenticationId: Id, now: Time)

  datatype Outcome = InvalidAssertion | KeyIsRevoked | KeyIsExpired | AlreadyPresented | ServerError | Issued(jti: string)

  /** The mint endpoint, from the key as it was read to the token issued. */
  function Handle(db: Db, key: Key, claims: A.Claims, audience: string, now: Time): Outcome {
    var verified := A.Verify(claims, A.PublicKey(key.id, key.algorithm), audience, now);
    if verified.Failure? then InvalidAssertion
    else if key.revokedAt.Some? then KeyIsRevoked
    else if Expired(key, now) then KeyIsExpired
    else
      match MintRefusal(db, key, verified.value.jti)
      case None => Issued(verified.value.jti)
      case Some(KeyRevoked) => KeyIsRevoked
      case Some(AlreadyUsed) => AlreadyPresented
      case Some(_) => ServerError
  }

  /** The endpoint on the tables: what `Handle` says, and the mint recorded when it issues. */
  method Serve(cruder: Cruder, key: Key, claims: A.Claims, audience: string, now: Time, newId: Id)
    returns (outcome: Outcome)
    requires newId !in cruder.authentications && newId !in cruder.links
    modifies cruder
    ensures outcome == Handle(old(cruder.View()), key, claims, audience, now)
    ensures cruder.View() ==
      if outcome.Issued? then Recorded(old(cruder.View()), key, outcome.jti, now, newId) else old(cruder.View())
  {
    var verified := A.Verify(claims, A.PublicKey(key.id, key.algorithm), audience, now);
    if verified.Failure? {
      return InvalidAssertion;
    }
    if key.revokedAt.Some? {
      return KeyIsRevoked;
    }
    if Expired(key, now) {
      return KeyIsExpired;
    }
    var minted := cruder.RecordMint(key, verified.value.jti, now, newId);
    match minted {
      case Success(_) => outcome := Issued(verified.value.jti);
      case Failure(KeyRevoked) => outcome := KeyIsRevoked;
      case Failure(AlreadyUsed) => outcome := AlreadyPresented;
      case Failure(_) => outcome := ServerError;
    }
  }

  ghost predicate Enabled(s: State, step: Step) {
    && s.clock <= step.now
    && (step.Read? ==> step.request !in s.readings)
    && (step.Mint? ==> step.request in s.readings && step.newId !in s.db.authentications && step.newId !in s.db.links)
  }

  ghost function OutcomeOf(s: State, step: Step): Outcome
    requires step.Mint? && step.request in s.readings
  {
    Handle(s.db, s.readings[step.request], step.claims, step.audience, step.now)
  }

  ghost predicate Issues(s: State, step: Step) {
    step.Mint? && step.request in s.readings && OutcomeOf(s, step).Issued?
  }

  ghost function NextDb(s: State, step: Step): Db
    requires Enabled(s, step)
  {
    var db := s.db;
    match step
    case Register(accountId, key, name, expiresAt, _) =>
      if accountId == "" || name == "" || key.id in db.keys then db
      else db.(keys := db.keys[key.id := KeyRow(accountId, name, key.algorithm, expiresAt, None, None)])
    case Read(_, _, _) => db
    case Mint(request, _, _, now, newId) =>
      if Issues(s, step) then Recorded(db, s.readings[request], OutcomeOf(s, step).jti, now, newId) else db
    case Revoke(accountId, keyId, now) =>
      if accountId != "" && keyId != "" && CanRevoke(db, accountId, keyId) then Revoked(db, keyId, now) else db
    case End(a, now) =>
      if a in db.authentications then
        db.(authentications := db.authentications[a := db.authentications[a].(ended := true, endedAt := Some(now))])
      else db
  }

  ghost function Next(s: State, step: Step): State
    requires Enabled(s, step)
  {
    var readings := match step
      case Read(request, keyId, _) =>
        var key := Select(s.db, keyId);
        if key.Some? then s.readings[request := key.value] else s.readings
      case Mint(request, _, _, _, _) => s.readings - {request}
      case _ => s.readings;
    State(NextDb(s, step), readings, step.now)
  }

  ghost predicate IsRun(trace: seq<State>, steps: seq<Step>) {
    && |trace| == |steps| + 1
    && trace[0].db.keys == map[] && trace[0].db.assertions == map[] && trace[0].db.authentications == map[]
    && trace[0].db.links == map[] && trace[0].readings == map[]
    && forall i :: 0 <= i < |steps| ==> Enabled(trace[i], steps[i]) && trace[i + 1] == Next(trace[i], steps[i])
  }

  ghost predicate KeyRevokedIn(db: Db, keyId: Id) {
    keyId in db.keys && db.keys[keyId].revokedAt.Some?
  }

  /** A sign-in linked to a key is that key's account's. */
  ghost predicate LinkOk(db: Db, a: Id)
    requires a in db.links
  {
    && a in db.authentications && db.links[a] in db.keys
    && db.authentications[a].accountId == db.keys[db.links[a]].accountId
    && (KeyRevokedIn(db, db.links[a]) ==> db.authentications[a].ended)
  }

  ghost predicate AtMostOneLive(db: Db, clock: Time) {
    forall a, b ::
      (a in db.links && b in db.links && db.links[a] == db.links[b]
       && a in db.authentications && b in db.authentications
       && LiveRow(db.authentications[a], clock) && LiveRow(db.authentications[b], clock)) ==> a == b
  }

  ghost predicate Inv(s: State) {
    && (forall a :: a in s.db.links ==> LinkOk(s.db, a))
    && AtMostOneLive(s.db, s.clock)
    && (forall r :: r in s.readings ==> ReadFrom(s.readings[r], s.db))
  }

  /** The key was read from its row as it is now, unless it has been revoked since. */
  ghost predicate ReadFrom(key: Key, db: Db) {
    && key.id in db.keys && key.accountId == db.keys[key.id].accountId
    && key.algorithm == db.keys[key.id].algorithm && key.expiresAt == db.keys[key.id].expiresAt
    && (key.revokedAt.Some? ==> db.keys[key.id].revokedAt.Some?)
  }

  /** Recording a mint makes a sign-in live only where the key had none, and otherwise extends those live. */
  lemma RecordingKeepsOneLive(db: Db, clock: Time, key: Key, jti: string, now: Time, newId: Id)
    requires key.id in db.keys && clock <= now && newId !in db.links && newId !in db.authentications
    requires forall a :: a in db.links ==> LinkOk(db, a)
    requires AtMostOneLive(db, clock)
    ensures AtMostOneLive(Recorded(db, key, jti, now, newId), now)
  {
    var recorded := Recorded(db, key, jti, now, newId);
    forall a, b | a in recorded.links && b in recorded.links && recorded.links[a] == recorded.links[b]
      && a in recorded.authentications && b in recorded.authentications
      && LiveRow(recorded.authentications[a], now) && LiveRow(recorded.authentications[b], now)
      ensures a == b
    {
      assert forall x :: x in db.links && LinkedTo(db, x, key.id) && LiveRow(db.authentications[x], now) ==>
        x in LiveOf(db, key.id, now);
    }
  }

  lemma MintKeepsInv(s: State, step: Step)
    requires Inv(s) && step.Mint? && Enabled(s, step)
    ensures Inv(Next(s, step))
  {
    var s' := Next(s, step);
    if Issues(s, step) {
      var key := s.readings[step.request];
      assert !KeyRevokedIn(s.db, key.id);
      RecordingKeepsOneLive(s.db, s.clock, key, OutcomeOf(s, step).jti, step.now, step.newId);
      forall a | a in s'.db.links ensures LinkOk(s'.db, a) {
        if a in s.db.links {
          assert LinkOk(s.db, a);
        }
      }
    }
  }

  lemma RevokeKeepsInv(s: State, step: Step)
    requires Inv(s) && step.Revoke? && Enabled(s, step)
    ensures Inv(Next(s, step))
  {
    var s' := Next(s, step);
    forall a | a in s'.db.links ensures LinkOk(s'.db, a) {
      assert LinkOk(s.db, a);
    }
  }

  lemma StepKeepsInv(s: State, step: Step)
    requires Inv(s) && Enabled(s, step)
    ensures Inv(Next(s, step))
  {
    match step
    case Mint(_, _, _, _, _) => MintKeepsInv(s, step);
    case Revoke(_, _, _) => RevokeKeepsInv(s, step);
    case _ =>
      forall a | a in s.db.links ensures LinkOk(Next(s, step).db, a) {
        assert LinkOk(s.db, a);
      }
  }

  lemma {:induction false} RunKeepsInv(trace: seq<State>, steps: seq<Step>, i: nat)
    requires IsRun(trace, steps) && i < |trace|
    ensures Inv(trace[i])
  {
    if i != 0 {
      RunKeepsInv(trace, steps, i - 1);
      StepKeepsInv(trace[i - 1], steps[i - 1]);
    }
  }

  // --- Which requests mint ---

  /** The claims are an assertion of the key's, by its row, that may be presented now. */
  ghost predicate Presentable(db: Db, keyId: Id, step: Step)
    requires step.Mint? && keyId in db.keys
  {
    && A.SignedFor(step.claims, A.PublicKey(keyId, db.keys[keyId].algorithm), step.audience)
    && A.Timely(step.claims, step.now) && A.Rememberable(step.claims.jti)
  }

  ghost predicate ExpiredBy(row: KeyRow, now: Time) {
    row.expiresAt.Some? && row.expiresAt.value <= now
  }

  /**
  What a mint request comes to, by its key's row at that instant, whenever it was read: a token exactly when the
  assertion is the key's and timely, the key neither expired nor revoked, the assertion unspent and the account there.
  */
  lemma MintedExactly(s: State, step: Step)
    requires Inv(s) && step.Mint? && Enabled(s, step)
    ensures var key, jti := s.readings[step.request], step.claims.jti;
      var row, outcome := s.db.keys[key.id], OutcomeOf(s, step);
      var good, spent := Presentable(s.db, key.id, step), jti.Some? && Spent(key.id, jti.value) in s.db.assertions;
      var usable := good && !ExpiredBy(row, step.now) && row.revokedAt == None;
      && (outcome.Issued? <==> usable && !spent && row.accountId in s.db.accounts)
      && (outcome.Issued? ==> Some(outcome.jti) == jti)
      && (outcome == InvalidAssertion <==> !good)
      && (outcome == KeyIsExpired <==> good && key.revokedAt == None && ExpiredBy(row, step.now))
      && (outcome == KeyIsRevoked <==>
          good && (key.revokedAt.Some? || (!ExpiredBy(row, step.now) && row.revokedAt.Some?)))
      && (outcome == AlreadyPresented <==> usable && spent)
      && (outcome == ServerError <==> usable && !spent && row.accountId !in s.db.accounts)
  {
    var key := s.readings[step.request];
    A.AcceptedExactly(step.claims, A.PublicKey(key.id, key.algorithm), step.audience, step.now);
  }

  /** A mint that issues leaves its key one standing sign-in, its account's, good for thirty days. */
  lemma MintLeavesOneSignIn(s: State, step: Step)
    requires Inv(s) && Enabled(s, step) && Issues(s, step)
    ensures var key, db := s.readings[step.request], Next(s, step).db;
      && (exists a :: Standing(db, a, key.id, step.now))
      && (forall a, b :: Standing(db, a, key.id, step.now) && Standing(db, b, key.id, step.now) ==> a == b)
      && forall a :: Standing(db, a, key.id, step.now) ==>
        && db.authentications[a].accountId == db.keys[key.id].accountId
        && db.authentications[a].expiresAt == step.now + 30 * 24 * 60 * 60 * SECOND
  {
    var key, db := s.readings[step.request], Next(s, step).db;
    RecordedSignsIn(s.db, key, OutcomeOf(s, step).jti, step.now, step.newId);
    StepKeepsInv(s, step);
    forall a | Standing(db, a, key.id, step.now) ensures LinkOk(db, a) && LiveRow(db.authentications[a], step.now) {
    }
    if a :| Standing(s.db, a, key.id, step.now) {
      assert Standing(db, a, key.id, step.now);
    } else {
      assert Standing(db, step.newId, key.id, step.now);
    }
  }

  /** A key's row changes in when it was last used, by a mint that issues, and in being revoked, by its own account. */
  lemma RowChangesExactly(s: State, step: Step, keyId: Id)
    requires Enabled(s, step) && keyId in s.db.keys
    ensures keyId in Next(s, step).db.keys
    ensures var row, left := s.db.keys[keyId], Next(s, step).db.keys[keyId];
      var revokes := step.Revoke? && step.keyId == keyId != "" && step.accountId == row.accountId != "";
      left == row.(
        lastUsedAt := if Issues(s, step) && s.readings[step.request].id == keyId then Some(step.now) else row.lastUsedAt,
        revokedAt := if revokes && row.revokedAt == None then Some(step.now) else row.revokedAt)
  {
  }

  /** The key's row says it expires, then. */
  ghost predicate ExpiresAt(db: Db, keyId: Id, expiry: Time) {
    keyId in db.keys && db.keys[keyId].expiresAt == Some(expiry)
  }

  lemma StepAtExpiry(s: State, step: Step, keyId: Id, expiry: Time)
    requires Inv(s) && Enabled(s, step) && ExpiresAt(s.db, keyId, expiry)
    ensures ExpiresAt(Next(s, step).db, keyId, expiry)
    ensures expiry <= step.now && Issues(s, step) ==> s.readings[step.request].id != keyId
    ensures expiry <= step.now ==> SignInsOf(Next(s, step).db, keyId) <= SignInsOf(s.db, keyId)
  {
    if Issues(s, step) {
      MintedExactly(s, step);
    }
  }

  /**
  A key's expiry never moves. From then on, however stale a request's read of it, the key mints nothing and gains no
  sign-in.
  */
  lemma {:induction false} ExpiredKeyMintsNothing(
    trace: seq<State>, steps: seq<Step>, i: nat, j: nat, keyId: Id, expiry: Time)
    requires IsRun(trace, steps) && i <= j < |trace| && ExpiresAt(trace[i].db, keyId, expiry)
    ensures ExpiresAt(trace[j].db, keyId, expiry)
    ensures expiry <= trace[i].clock ==> SignInsOf(trace[j].db, keyId) <= SignInsOf(trace[i].db, keyId)
    ensures j < |steps| && expiry <= steps[j].now && Issues(trace[j], steps[j]) ==>
      trace[j].readings[steps[j].request].id != keyId
  {
    if i < j {
      ExpiredKeyMintsNothing(trace, steps, i, j - 1, keyId, expiry);
      RunKeepsInv(trace, steps, j - 1);
      ClockIsOrdered(trace, steps, i, j - 1);
      StepAtExpiry(trace[j - 1], steps[j - 1], keyId, expiry);
    }
    if j < |steps| {
      RunKeepsInv(trace, steps, j);
      StepAtExpiry(trace[j], steps[j], keyId, expiry);
    }
  }

  lemma {:induction false} ClockIsOrdered(trace: seq<State>, steps: seq<Step>, i: nat, j: nat)
    requires IsRun(trace, steps) && i <= j < |trace|
    ensures trace[i].clock <= trace[j].clock
    ensures j < |steps| ==> trace[i].clock <= steps[j].now
  {
    if i < j {
      ClockIsOrdered(trace, steps, i, j - 1);
    }
    assert j < |steps| ==> Enabled(trace[j], steps[j]);
  }

  // --- One live sign-in a key, none of a revoked key ---

  /** At any time at most one of a key's sign-ins is live, and none once the key is revoked. */
  lemma LiveSignIns(trace: seq<State>, steps: seq<Step>, n: nat, keyId: Id)
    requires IsRun(trace, steps) && n < |trace|
    ensures var live := LiveOf(trace[n].db, keyId, trace[n].clock); forall a, b :: a in live && b in live ==> a == b
    ensures KeyRevokedIn(trace[n].db, keyId) ==>
      forall a :: LinkedTo(trace[n].db, a, keyId) ==> trace[n].db.authentications[a].ended
  {
    RunKeepsInv(trace, steps, n);
    forall a | LinkedTo(trace[n].db, a, keyId) ensures LinkOk(trace[n].db, a) {
    }
  }

  ghost function SignInsOf(db: Db, keyId: Id): set<Id> {
    set a | a in db.links && LinkedTo(db, a, keyId)
  }

  lemma StepAfterRevocation(s: State, step: Step, keyId: Id)
    requires Enabled(s, step) && KeyRevokedIn(s.db, keyId)
    ensures KeyRevokedIn(Next(s, step).db, keyId)
    ensures SignInsOf(Next(s, step).db, keyId) <= SignInsOf(s.db, keyId)
    ensures Issues(s, step) ==> s.readings[step.request].id != keyId
  {
  }

  /** However stale a request's read of its key, once the key is revoked it mints nothing and gains no sign-in. */
  lemma {:induction false} RevokedKeyGainsNothing(trace: seq<State>, steps: seq<Step>, i: nat, j: nat, keyId: Id)
    requires IsRun(trace, steps) && i <= j < |trace| && KeyRevokedIn(trace[i].db, keyId)
    ensures KeyRevokedIn(trace[j].db, keyId)
    ensures SignInsOf(trace[j].db, keyId) <= SignInsOf(trace[i].db, keyId)
    ensures j < |steps| && Issues(trace[j], steps[j]) ==> trace[j].readings[steps[j].request].id != keyId
  {
    if i < j {
      RevokedKeyGainsNothing(trace, steps, i, j - 1, keyId);
      StepAfterRevocation(trace[j - 1], steps[j - 1], keyId);
    }
    if j < |steps| {
      StepAfterRevocation(trace[j], steps[j], keyId);
    }
  }

  ghost predicate IsLive(s: State, a: Id) {
    a in s.db.authentications && LiveRow(s.db.authentications[a], s.clock)
  }

  /** A sign-in that has ended or expired is never live again. */
  lemma {:induction false} DeadStaysDead(trace: seq<State>, steps: seq<Step>, i: nat, j: nat, a: Id)
    requires IsRun(trace, steps) && i <= j < |trace|
    requires a in trace[i].db.authentications && !IsLive(trace[i], a)
    ensures a in trace[j].db.authentications && !IsLive(trace[j], a)
  {
    if i < j {
      DeadStaysDead(trace, steps, i, j - 1, a);
      assert Enabled(trace[j - 1], steps[j - 1]);
    }
  }

  // --- Single use ---

  ghost predicate IsSpent(db: Db, keyId: Id, jti: string, until: Time) {
    Spent(keyId, jti) in db.assertions && db.assertions[Spent(keyId, jti)] == until
  }

  lemma MintSpends(s: State, step: Step)
    requires Enabled(s, step) && Issues(s, step)
    ensures IsSpent(Next(s, step).db, s.readings[step.request].id, OutcomeOf(s, step).jti, step.now + ASSERTION_RETENTION)
  {
  }

  /** A spent assertion's row survives every sweep until its time. */
  lemma {:induction false} SpentStays(
    trace: seq<State>, steps: seq<Step>, i: nat, j: nat, keyId: Id, jti: string, until: Time)
    requires IsRun(trace, steps) && i <= j < |trace|
    requires IsSpent(trace[i].db, keyId, jti, until) && trace[j].clock < until
    ensures IsSpent(trace[j].db, keyId, jti, until)
  {
    if i < j {
      assert Enabled(trace[j - 1], steps[j - 1]);
      SpentStays(trace, steps, i, j - 1, keyId, jti, until);
    }
  }

  /**
  One assertion mints at most once, whatever else its key mints and however the tables are tidied:
  presented again at any later time, to any audience, it issues nothing.
  */
  lemma AssertionMintsOnce(trace: seq<State>, steps: seq<Step>, i: nat, j: nat)
    requires IsRun(trace, steps) && i < j < |steps| && Issues(trace[i], steps[i])
    requires steps[j].Mint? && steps[j].claims == steps[i].claims
    ensures steps[j].request in trace[j].readings && !OutcomeOf(trace[j], steps[j]).Issued?
    ensures OutcomeOf(trace[j], steps[j]) in {InvalidAssertion, KeyIsRevoked, KeyIsExpired, AlreadyPresented}
  {
    assert Enabled(trace[j], steps[j]);
    var key, key' := trace[i].readings[steps[i].request], trace[j].readings[steps[j].request];
    var claims := steps[i].claims;
    A.AcceptedExactly(claims, A.PublicKey(key.id, key.algorithm), steps[i].audience, steps[i].now);
    A.AcceptedExactly(claims, A.PublicKey(key'.id, key'.algorithm), steps[j].audience, steps[j].now);
    if A.Verify(claims, A.PublicKey(key'.id, key'.algorithm), steps[j].audience, steps[j].now).Success? {
      // The claims name their key, so both requests had the one key; and they are still remembered.
      assert steps[j].now < steps[i].now + ASSERTION_RETENTION;
      MintSpends(trace[i], steps[i]);
      SpentStays(trace, steps, i + 1, j, key.id, claims.jti.value, steps[i].now + ASSERTION_RETENTION);
      RunKeepsInv(trace, steps, j);
    }
  }
}

/**
Registered keys and what they mint with. Each method is one transaction, at one instant: left
early it changes nothing.
*/
module ApiKeyCruder {
  import opened Wrappers
  import opened Oauth
  import A = Assertion

  const AUTHENTICATION_LIFETIME := 30 * DAY

  /** How long a spent assertion is remembered: as long as one accepted now could be accepted again. */
  const ASSERTION_RETENTION := A.LIFETIME + 2 * A.LEEWAY

  datatype KeyRow = KeyRow(
    accountId: Id, name: string, algorithm: string, expiresAt: Option<Time>, lastUsedAt: Option<Time>,
    revokedAt: Option<Time>)

  datatype AuthenticationRow = AuthenticationRow(
    accountId: Id, createdAt: Time, expiresAt: Time, ended: bool, endedAt: Option<Time>)

  /** A spent assertion's identifier, which is its key's own. */
  datatype Spent = Spent(keyId: Id, jti: string)

  datatype Db = Db(
    keys: map<Id, KeyRow>,
    assertions: map<Spent, Time>,
    authentications: map<Id, AuthenticationRow>,
    links: map<Id, Id>,                 // which key a sign-in was minted by
    accounts: set<Id>)

  /** A key as it was read before the assertion was verified. */
  datatype Key = Key(id: Id, algorithm: string, accountId: Id, expiresAt: Option<Time>, revokedAt: Option<Time>)

  datatype MintError = NoJti | NoKey | KeyRevoked | AlreadyUsed | NoAccount

  datatype Minted = Minted(authenticationId: Id, accountId: Id, expiresAt: Time)

  predicate Expired(key: Key, now: Time) {
    key.expiresAt.Some? && !(now < key.expiresAt.value)
  }

  predicate LiveRow(row: AuthenticationRow, now: Time) {
    !row.ended && row.expiresAt > now
  }

  predicate LinkedTo(db: Db, a: Id, keyId: Id) {
    a in db.links && db.links[a] == keyId && a in db.authentications
  }

  /** The key's sign-ins that are live. */
  function LiveOf(db: Db, keyId: Id, now: Time): set<Id> {
    set a | a in db.authentications && LinkedTo(db, a, keyId) && LiveRow(db.authentications[a], now)
  }

  function MintRefusal(db: Db, key: Key, jti: string): Option<MintError> {
    if jti == "" then Some(NoJti)
    else if key.id !in db.keys then Some(NoKey)
    else if db.keys[key.id].revokedAt.Some? then Some(KeyRevoked)
    else if Spent(key.id, jti) in db.assertions then Some(AlreadyUsed)
    else if key.accountId !in db.accounts then Some(NoAccount)
    else None
  }

  /** The assertions left when the key's expired ones are deleted. */
  function Tidied(assertions: map<Spent, Time>, keyId: Id, now: Time): map<Spent, Time> {
    map s | s in assertions && !(s.keyId == keyId && assertions[s] <= now) :: assertions[s]
  }

  function Extended(db: Db, keyId: Id, now: Time, expiresAt: Time): map<Id, AuthenticationRow> {
    map a | a in db.authentications ::
      if a in LiveOf(db, keyId, now) then db.authentications[a].(expiresAt := expiresAt) else db.authentications[a]
  }

  /** The tables once a mint is recorded, `newId` being for a sign-in if one has to be made. */
  function Recorded(db: Db, key: Key, jti: string, now: Time, newId: Id): Db
    requires key.id in db.keys
  {
    var expiresAt := now + AUTHENTICATION_LIFETIME;
    var made := LiveOf(db, key.id, now) == {};
    Db(
      db.keys[key.id := db.keys[key.id].(lastUsedAt := Some(now))],
      Tidied(db.assertions[Spent(key.id, jti) := now + ASSERTION_RETENTION], key.id, now),
      if made then db.authentications[newId := AuthenticationRow(key.accountId, now, expiresAt, false, None)]
      else Extended(db, key.id, now, expiresAt),
      if made then db.links[newId := key.id] else db.links,
      db.accounts)
  }

  /** What recording a mint comes to, said of the tables as a transaction builds them. */
  lemma RecordedIs(db: Db, key: Key, jti: string, now: Time, newId: Id, live: set<Id>, recorded: Db)
    requires key.id in db.keys && live == LiveOf(db, key.id, now)
    requires recorded.keys == db.keys[key.id := db.keys[key.id].(lastUsedAt := Some(now))]
    requires recorded.assertions == Tidied(db.assertions[Spent(key.id, jti) := now + ASSERTION_RETENTION], key.id, now)
    requires recorded.authentications ==
      if live == {} then
        db.authentications[newId := AuthenticationRow(key.accountId, now, now + AUTHENTICATION_LIFETIME, false, None)]
      else Extended(db, key.id, now, now + AUTHENTICATION_LIFETIME)
    requires recorded.links == (if live == {} then db.links[newId := key.id] else db.links) && recorded.accounts ==
      db.accounts
    ensures recorded == Recorded(db, key, jti, now, newId)
  {
  }

  predicate CanRevoke(db: Db, accountId: Id, keyId: Id) {
    keyId in db.keys && db.keys[keyId].accountId == accountId && db.keys[keyId].revokedAt == None
  }

  function Revoked(db: Db, keyId: Id, now: Time): Db
    requires keyId in db.keys
  {
    db.(
      keys := db.keys[keyId := db.keys[keyId].(revokedAt := Some(now))],
      authentications := map a | a in db.authentications ::
        var row := db.authentications[a];
        if LinkedTo(db, a, keyId) && !row.ended then row.(ended := true, endedAt := Some(now)) else row)
  }

  /** The key's sign-ins that have neither ended nor expired, read off the rows. */
  ghost predicate Standing(db: Db, a: Id, keyId: Id, now: Time) {
    && a in db.links && db.links[a] == keyId && a in db.authentications
    && !db.authentications[a].ended && now < db.authentications[a].expiresAt
  }

  /** What a mint leaves of the keys and assertions: its key used now, its assertion spent, its key's expired ones gone. */
  lemma RecordedSpends(db: Db, key: Key, jti: string, now: Time, newId: Id)
    requires key.id in db.keys
    ensures var left := Recorded(db, key, jti, now, newId);
      && left.accounts == db.accounts && left.keys.Keys == db.keys.Keys
      && left.keys[key.id] == db.keys[key.id].(lastUsedAt := Some(now))
      && (forall k :: k in db.keys && k != key.id ==> left.keys[k] == db.keys[k])
      && Spent(key.id, jti) in left.assertions && left.assertions[Spent(key.id, jti)] == now + 7 * 60 * SECOND
      && (forall s :: s in db.assertions && s != Spent(key.id, jti) && (s.keyId != key.id || now < db.assertions[s]) ==>
          s in left.assertions)
      && (forall s :: s in left.assertions && s != Spent(key.id, jti) ==>
          && s in db.assertions && left.assertions[s] == db.assertions[s]
          && (s.keyId != key.id || now < db.assertions[s]))
  {
  }

  /** What a mint leaves of the sign-ins: the key's standing ones for thirty days more, or one made where none stood. */
  lemma RecordedSignsIn(db: Db, key: Key, jti: string, now: Time, newId: Id)
    requires key.id in db.keys && newId !in db.authentications && newId !in db.links
    ensures var left, until := Recorded(db, key, jti, now, newId), now + 30 * 24 * 60 * 60 * SECOND;
      if exists a :: Standing(db, a, key.id, now) then
        && left.links == db.links && left.authentications.Keys == db.authentications.Keys
        && forall a :: a in db.authentications ==>
          var was := db.authentications[a];
          left.authentications[a] == if Standing(db, a, key.id, now) then was.(expiresAt := until) else was
      else
        && left.links == db.links[newId := key.id]
        && left.authentications == db.authentications[newId :=
          AuthenticationRow(key.accountId, now, until, false, None)]
  {
    forall a ensures Standing(db, a, key.id, now) <==> a in LiveOf(db, key.id, now) {
    }
  }

  /** A key revoked is so from now, and each of its sign-ins has ended, now where it had not before. */
  lemma RevokedMeans(db: Db, keyId: Id, now: Time)
    requires keyId in db.keys
    ensures var left := Revoked(db, keyId, now);
      && left.assertions == db.assertions && left.links == db.links && left.accounts == db.accounts
      && left.keys.Keys == db.keys.Keys && left.keys[keyId] == db.keys[keyId].(revokedAt := Some(now))
      && (forall k :: k in db.keys && k != keyId ==> left.keys[k] == db.keys[k])
      && left.authentications.Keys == db.authentications.Keys
      && forall a :: a in db.authentications ==>
        var row, was := left.authentications[a], db.authentications[a];
        if a in db.links && db.links[a] == keyId && !was.ended
        then row == AuthenticationRow(was.accountId, was.createdAt, was.expiresAt, true, Some(now))
        else row == was
  {
  }

  class Cruder {
    var keys: map<Id, KeyRow>
    var assertions: map<Spent, Time>
    var authentications: map<Id, AuthenticationRow>
    var links: map<Id, Id>
    var accounts: set<Id>

    ghost function View(): Db
      reads this
    {
      Db(keys, assertions, authentications, links, accounts)
    }

    constructor (accounts: set<Id>)
      ensures View() == Db(map[], map[], map[], map[], accounts)
    {
      keys, assertions, authentications, links := map[], map[], map[], map[];
      this.accounts := accounts;
    }

    /** Registers a key; one registered already, by any account, revoked or not, is refused. */
    method Create(accountId: Id, key: A.PublicKey, name: string, expiresAt: Option<Time>) returns (created: bool)
      modifies this`keys
      ensures created <==> accountId != "" && name != "" && key.id !in old(keys)
      ensures View() == if created
        then old(View()).(keys := old(keys)[key.id := KeyRow(accountId, name, key.algorithm, expiresAt, None, None)])
        else old(View())
    {
      if accountId == "" || name == "" || key.id in keys {
        return false;
      }
      keys := keys[key.id := KeyRow(accountId, name, key.algorithm, expiresAt, None, None)];
      created := true;
    }

    method SelectForMint(keyId: Id) returns (key: Option<Key>)
      ensures key == Select(View(), keyId)
    {
      if keyId == "" || keyId !in keys {
        return None;
      }
      var row := keys[keyId];
      key := Some(Key(keyId, row.algorithm, row.accountId, row.expiresAt, row.revokedAt));
    }

    method RecordMint(key: Key, jti: string, now: Time, newId: Id) returns (minted: Result<Minted, MintError>)
      requires newId !in authentications && newId !in links
      modifies this
      ensures minted.Failure? <==> MintRefusal(old(View()), key, jti).Some?
      ensures minted.Failure? ==> Some(minted.error) == MintRefusal(old(View()), key, jti) && View() == old(View())
      ensures minted.Success? ==>
        && View() == Recorded(old(View()), key, jti, now, newId)
        && minted.value.accountId == key.accountId && minted.value.expiresAt == now + AUTHENTICATION_LIFETIME
        && minted.value.authenticationId in LiveOf(View(), key.id, now)
    {
      if jti == "" {
        return Failure(NoJti);
      }
      if key.id !in keys {
        return Failure(NoKey);
      }
      if keys[key.id].revokedAt.Some? {
        return Failure(KeyRevoked);
      }
      if Spent(key.id, jti) in assertions {
        return Failure(AlreadyUsed);
      }
      var txAssertions := assertions[Spent(key.id, jti) := now + ASSERTION_RETENTION];
      txAssertions := Tidied(txAssertions, key.id, now);

      var expiresAt := now + AUTHENTICATION_LIFETIME;
      var txAuthentications, txLinks := authentications, links;
      var live := set a | a in authentications && a in links && links[a] == key.id && LiveRow(authentications[a], now);
      var id := newId;
      if live != {} {
        id :| id in live;
        txAuthentications := map a | a in authentications ::
          if a in live then authentications[a].(expiresAt := expiresAt) else authentications[a];
      } else {
        txAuthentications := authentications[newId := AuthenticationRow(key.accountId, now, expiresAt, false, None)];
        txLinks := links[newId := key.id];
      }
      var txKeys := keys[key.id := keys[key.id].(lastUsedAt := Some(now))];
      if key.accountId !in accounts {
        return Failure(NoAccount);
      }
      ghost var before := View();
      assert live == LiveOf(before, key.id, now);
      keys, assertions, authentications, links := txKeys, txAssertions, txAuthentications, txLinks;
      RecordedIs(before, key, jti, now, newId, live, View());
      minted := Success(Minted(id, key.accountId, expiresAt));
    }

    method RevokeForAccount(accountId: Id, keyId: Id, now: Time) returns (revoked: bool)
      modifies this`keys, this`authentications
      ensures revoked <==> accountId != "" && keyId != "" && CanRevoke(old(View()), accountId, keyId)
      ensures View() == if revoked then Revoked(old(View()), keyId, now) else old(View())
    {
      if accountId == "" || keyId == "" {
        return false;
      }
      if keyId !in keys || keys[keyId].accountId != accountId || keys[keyId].revokedAt.Some? {
        return false;
      }
      ghost var before := View();
      keys := keys[keyId := keys[keyId].(revokedAt := Some(now))];
      authentications := map a | a in authentications ::
        if !authentications[a].ended && a in links && links[a] == keyId
        then authentications[a].(ended := true, endedAt := Some(now)) else authentications[a];
      assert View() == Revoked(before, keyId, now);
      revoked := true;
    }
  }

  function Select(db: Db, keyId: Id): Option<Key> {
    if keyId == "" || keyId !in db.keys then None
    else
      var row := db.keys[keyId];
      Some(Key(keyId, row.algorithm, row.accountId, row.expiresAt, row.revokedAt))
  }

  /** A key is read as its row has it. */
  lemma SelectedIs(db: Db, keyId: Id)
    ensures Select(db, keyId).Some? <==> keyId != "" && keyId in db.keys
    ensures Select(db, keyId).Some? ==>
      var key, row := Select(db, keyId).value, db.keys[keyId];
      && key.id == keyId && key.accountId == row.accountId && key.algorithm == row.algorithm
      && key.expiresAt == row.expiresAt && key.revokedAt == row.revokedAt
  {
  }
}

/** Accounts, sign-ins and device-bound session challenges as tables, a method of the class a statement. */
module Authentications {
  import opened Wrappers
  import opened Oauth

  datatype Customer = Customer(id: string, name: string)

  datatype Account = Account(
    id: Id, emailAddress: string, locked: bool, customer: Option<Customer>, roles: seq<string>)

  /** A row; no public key is the empty one, and no id token hash is `None`. */
  datatype Row = Row(
    accountId: Id, createdAt: Time, expiresAt: Time, ended: bool, endedAt: Option<Time>,
    dbscPublicKey: string, idTokenHash: Option<string>)

  /** A sign-in as it is selected, with its account. */
  datatype Authentication = Authentication(
    id: Id, ended: bool, createdAt: Time, expiresAt: Time, dbscPublicKey: string, account: Account)

  datatype Challenge = Challenge(challenge: string, authenticationId: Id)

  datatype Tables = Tables(accounts: map<Id, Account>, rows: map<Id, Row>, challenges: map<Challenge, Time>)

  function Select(t: Tables, id: Id): Option<Authentication> {
    if id !in t.rows || t.rows[id].accountId !in t.accounts then None
    else
      var row := t.rows[id];
      Some(Authentication(id, row.ended, row.createdAt, row.expiresAt, row.dbscPublicKey, t.accounts[row.accountId]))
  }

  predicate TokenUsed(t: Tables, idTokenHash: string) {
    exists id :: id in t.rows && t.rows[id].idTokenHash == Some(idTokenHash)
  }

  /** The hash an id token is stored by, an empty one being none. */
  function StoredHash(idTokenHash: string): Option<string> {
    if idTokenHash == "" then None else Some(idTokenHash)
  }

  function Inserted(t: Tables, id: Id, accountId: Id, idTokenHash: string, duration: int, now: Time): Tables {
    t.(rows := t.rows[id := Row(accountId, now, now + duration, false, None, "", StoredHash(idTokenHash))])
  }

  function Ended(t: Tables, id: Id, now: Time): Tables {
    if id in t.rows then t.(rows := t.rows[id := t.rows[id].(ended := true, endedAt := Some(now))]) else t
  }

  function WithChallenge(t: Tables, c: Challenge, duration: int, now: Time): Tables {
    t.(challenges := t.challenges[c := now + duration])
  }

  /** A sign-in is selected as its row has it, with the account that row names. */
  lemma SelectedIs(t: Tables, id: Id)
    ensures Select(t, id).Some? <==> id in t.rows && t.rows[id].accountId in t.accounts
    ensures Select(t, id).Some? ==>
      var a, row := Select(t, id).value, t.rows[id];
      && a.id == id && a.ended == row.ended && a.createdAt == row.createdAt && a.expiresAt == row.expiresAt
      && a.dbscPublicKey == row.dbscPublicKey && a.account == t.accounts[row.accountId]
  {
  }

  /** Ending a sign-in changes nothing of any other, and of its own row only that it has ended, and when. */
  lemma EndedIs(t: Tables, id: Id, now: Time)
    ensures var u := Ended(t, id, now);
      && u.accounts == t.accounts && u.challenges == t.challenges && u.rows.Keys == t.rows.Keys
      && (forall k :: k in t.rows && k != id ==> u.rows[k] == t.rows[k])
      && (id in t.rows ==>
          var row := t.rows[id];
          u.rows[id] == Row(
            row.accountId, row.createdAt, row.expiresAt, true, Some(now), row.dbscPublicKey, row.idTokenHash))
  {
  }

  class Database {
    var accounts: map<Id, Account>
    var rows: map<Id, Row>
    var challenges: map<Challenge, Time>

    ghost function View(): Tables
      reads this
    {
      Tables(accounts, rows, challenges)
    }

    constructor (accounts: map<Id, Account>)
      ensures View() == Tables(accounts, map[], map[])
    {
      this.accounts, rows, challenges := accounts, map[], map[];
    }

    /** A sign-in; one from an id token that made one already is refused. */
    method InsertAuthentication(accountId: Id, idTokenHash: string, duration: int, now: Time, newId: Id)
      returns (inserted: bool)
      modifies this`rows
      ensures inserted <==> accountId != "" && !(idTokenHash != "" && TokenUsed(old(View()), idTokenHash))
      ensures View() == if inserted then Inserted(old(View()), newId, accountId, idTokenHash, duration, now)
        else old(View())
    {
      if accountId == "" {
        return false;
      }
      if idTokenHash != "" && exists id :: id in rows && rows[id].idTokenHash == Some(idTokenHash) {
        return false;
      }
      rows := rows[newId := Row(accountId, now, now + duration, false, None, "", StoredHash(idTokenHash))];
      inserted := true;
    }

    method SelectRefreshAuthentication(id: Id) returns (selected: Option<Authentication>)
      ensures selected == Select(View(), id)
    {
      if id !in rows || rows[id].accountId !in accounts {
        return None;
      }
      var row := rows[id];
      selected := Some(
        Authentication(id, row.ended, row.createdAt, row.expiresAt, row.dbscPublicKey, accounts[row.accountId]));
    }

    method UpdateWithDbscPublicKey(id: Id, key: string) returns (updated: bool)
      modifies this`rows
      ensures updated <==> key != "" && id in old(rows)
      ensures View() == if updated
        then old(View()).(rows := old(rows)[id := old(rows)[id].(dbscPublicKey := key)]) else old(View())
    {
      if key == "" || id !in rows {
        return false;
      }
      rows := rows[id := rows[id].(dbscPublicKey := key)];
      updated := true;
    }

    method UpdateWithEnded(id: Id, now: Time) returns (updated: bool)
      modifies this`rows
      ensures updated <==> id in old(rows)
      ensures View() == Ended(old(View()), id, now)
    {
      updated := id in rows;
      if updated {
        rows := rows[id := rows[id].(ended := true, endedAt := Some(now))];
      }
    }

    method InsertDbscChallenge(c: Challenge, duration: int, now: Time) returns (inserted: bool)
      modifies this`challenges
      ensures inserted <==> c.challenge != "" && c.authenticationId != "" && duration != 0
      ensures View() == if inserted then WithChallenge(old(View()), c, duration, now) else old(View())
    {
      if c.challenge == "" || c.authenticationId == "" || duration == 0 {
        return false;
      }
      challenges := challenges[c := now + duration];
      inserted := true;
    }

    /** The challenge's expiry, the challenge removed whatever that is. */
    method PopDbscChallenge(c: Challenge) returns (expiresAt: Option<Time>)
      modifies this`challenges
      ensures expiresAt == if c in old(challenges) then Some(old(challenges)[c]) else None
      ensures View() == old(View()).(challenges := old(challenges) - {c})
    {
      expiresAt := if c in challenges then Some(challenges[c]) else None;
      challenges := challenges - {c};
    }
  }
}

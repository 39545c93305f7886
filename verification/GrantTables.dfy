/**
Grants and refresh tokens as tables, and the one-step rotation the store contract asks for.
Both stores are proved against these functions.
*/
module GrantTables {
  import opened Wrappers
  import opened Oauth

  datatype RefreshToken = RefreshToken(grantId: Id, expiresAt: Time, used: bool)

  datatype GrantEntry = GrantEntry(grant: Grant, revoked: bool)

  datatype Tables = Tables(grants: map<Id, GrantEntry>, tokens: map<Hash, RefreshToken>)

  /** What looking a refresh token up finds. */
  datatype Lookup =
    | Missing                // no such token, or no such grant
    | Spent(grantId: Id)     // spent before
    | Dead                   // its grant is revoked, or it has expired
    | Spendable(grant: Grant)

  /** One presentation of a refresh token. */
  datatype Rotation = Rotation(
    presented: Hash, successor: Hash, successorExpiresAt: Time, now: Time, check: GrantCheck)

  datatype Answer =
    | Renewed(grant: Grant)
    | NotFound
    | Reused
    | Refused(error: CheckError)

  function Look(t: Tables, presented: Hash, now: Time): Lookup {
    if presented !in t.tokens then Missing
    else
      var token := t.tokens[presented];
      if token.grantId !in t.grants then Missing
      else if token.used then Spent(token.grantId)
      else if t.grants[token.grantId].revoked || !(now < token.expiresAt) then Dead
      else Spendable(t.grants[token.grantId].grant)
  }

  function RevokeGrant(t: Tables, id: Id): Tables {
    if id in t.grants then t.(grants := t.grants[id := t.grants[id].(revoked := true)]) else t
  }

  /** A spent token coming back costs its grant; nothing else about a look changes anything. */
  function AfterLook(t: Tables, look: Lookup): Tables {
    if look.Spent? then RevokeGrant(t, look.grantId) else t
  }

  function AnswerOf(look: Lookup): Answer {
    match look
    case Spent(_) => Reused
    case Spendable(grant) => Renewed(grant)
    case _ => NotFound
  }

  function Spend(t: Tables, presented: Hash, successor: Hash, expiresAt: Time): Tables
    requires presented in t.tokens
  {
    var token := t.tokens[presented];
    t.(tokens := t.tokens[presented := token.(used := true)]
                 [successor := RefreshToken(token.grantId, expiresAt, false)])
  }

  /** The single-transaction rotation: look, ask the check, spend and replace, all at once. */
  function Rotate(t: Tables, r: Rotation): (Tables, Answer) {
    var look := Look(t, r.presented, r.now);
    if !look.Spendable? then (AfterLook(t, look), AnswerOf(look))
    else if r.check(look.grant).Some? then (t, Refused(r.check(look.grant).value))
    else (Spend(t, r.presented, r.successor, r.successorExpiresAt), Renewed(look.grant))
  }

  /** The second half of the optimistic rotation, once the check has passed: look again, then spend. */
  function Commit(t: Tables, r: Rotation): (Tables, Answer) {
    var look := Look(t, r.presented, r.now);
    if look.Spendable? then (Spend(t, r.presented, r.successor, r.successorExpiresAt), AnswerOf(look))
    else (AfterLook(t, look), AnswerOf(look))
  }

  function Record(t: Tables, id: Id, grant: Grant, tokenHash: Hash, expiresAt: Time): Tables {
    Tables(
      t.grants[id := GrantEntry(grant.(id := id), false)],
      t.tokens[tokenHash := RefreshToken(id, expiresAt, false)])
  }

  /** Revoking by any of a grant's tokens; a hash that is no token's leaves everything as it is. */
  function RevokeByToken(t: Tables, tokenHash: Hash): Tables {
    if tokenHash in t.tokens then RevokeGrant(t, t.tokens[tokenHash].grantId) else t
  }

  // --- What the operations come to, in the tables' own fields ---

  /** The token and its grant are there, the token unspent and in time, the grant unrevoked. */
  predicate Good(t: Tables, h: Hash, now: Time) {
    && h in t.tokens && t.tokens[h].grantId in t.grants
    && !t.tokens[h].used && !t.grants[t.tokens[h].grantId].revoked && now < t.tokens[h].expiresAt
  }

  /**
  A rotation renews exactly for a token that is there with its grant, unspent, in time, the grant unrevoked and passing
  the check; and then spends that token, records the successor, unspent, for the same grant and with the expiry asked
  for, and touches nothing else.
  */
  lemma RotateRenewsExactly(t: Tables, r: Rotation)
    ensures var (left, answer) := Rotate(t, r);
      && (answer.Renewed? <==>
          && r.presented in t.tokens && t.tokens[r.presented].grantId in t.grants
          && !t.tokens[r.presented].used && !t.grants[t.tokens[r.presented].grantId].revoked
          && r.now < t.tokens[r.presented].expiresAt
          && r.check(t.grants[t.tokens[r.presented].grantId].grant) == None)
      && (answer.Renewed? ==>
          var g, expiresAt := t.tokens[r.presented].grantId, t.tokens[r.presented].expiresAt;
          && answer.grant == t.grants[g].grant && left.grants == t.grants
          && left.tokens == t.tokens[r.presented := RefreshToken(g, expiresAt, true)]
                                    [r.successor := RefreshToken(g, r.successorExpiresAt, false)])
  {
  }

  /** What a rotation that does not renew answers and does: a spent token's grant is revoked, and nothing else changes. */
  lemma RotateRefusesExactly(t: Tables, r: Rotation)
    ensures var (left, answer) := Rotate(t, r);
      var held := r.presented in t.tokens && t.tokens[r.presented].grantId in t.grants;
      && (answer.Reused? <==> held && t.tokens[r.presented].used)
      && (answer.Refused? <==>
          Good(t, r.presented, r.now) && r.check(t.grants[t.tokens[r.presented].grantId].grant).Some?)
      && (answer.Refused? ==> r.check(t.grants[t.tokens[r.presented].grantId].grant) == Some(answer.error))
      && (answer.NotFound? <==> !Good(t, r.presented, r.now) && !(held && t.tokens[r.presented].used))
      && (answer.NotFound? || answer.Refused? ==> left == t)
      && (answer.Reused? ==>
          var g := t.tokens[r.presented].grantId;
          left.tokens == t.tokens && left.grants == t.grants[g := GrantEntry(t.grants[g].grant, true)])
  {
  }

  /** The second half spends exactly what is good still. */
  lemma CommitRenewsExactly(t: Tables, r: Rotation)
    ensures Commit(t, r).1.Renewed? <==> Good(t, r.presented, r.now)
    ensures Good(t, r.presented, r.now) ==>
      var g, expiresAt := t.tokens[r.presented].grantId, t.tokens[r.presented].expiresAt;
      && Commit(t, r).1.grant == t.grants[g].grant && Commit(t, r).0.grants == t.grants
      && Commit(t, r).0.tokens == t.tokens[r.presented := RefreshToken(g, expiresAt, true)]
                                          [r.successor := RefreshToken(g, r.successorExpiresAt, false)]
  {
  }

  /** Revoking by a token marks its grant, and no other, and leaves every record as it is. */
  lemma RevokesExactly(t: Tables, h: Hash)
    ensures var left := RevokeByToken(t, h);
      && left.tokens == t.tokens && left.grants.Keys == t.grants.Keys
      && forall g :: g in t.grants ==>
        && left.grants[g].grant == t.grants[g].grant
        && (left.grants[g].revoked <==> t.grants[g].revoked || (h in t.tokens && t.tokens[h].grantId == g))
  {
  }

  /** Recording a grant makes it and its one token good until the token's expiry. */
  lemma RecordedIsGood(t: Tables, id: Id, grant: Grant, tokenHash: Hash, expiresAt: Time, now: Time)
    ensures var left := Record(t, id, grant, tokenHash, expiresAt);
      && left.grants[id].grant == grant.(id := id)
      && (Good(left, tokenHash, now) <==> now < expiresAt)
      && left.tokens[tokenHash].grantId == id
      && (forall g :: g != id ==>
          (g in left.grants <==> g in t.grants) && (g in t.grants ==> left.grants[g] == t.grants[g]))
      && (forall h :: h != tokenHash ==>
          (h in left.tokens <==> h in t.tokens) && (h in t.tokens ==> left.tokens[h] == t.tokens[h]))
  {
  }
}

/**
The database store. A transaction works on copies of the tables it locks and writes them back when
it commits, so leaving it early is its rollback. Statements that purge read the same clock the
caller gives, one instant a call.
*/
module PostgresStore {
  import opened Wrappers
  import opened Oauth
  import opened GrantTables

  datatype PopError = EmptyKey | NoSuchRow

  /** The row of a key, an empty key being an error of the caller's. */
  function Popped<V>(rows: map<string, V>, key: string): Result<V, PopError> {
    if key == "" then Failure(EmptyKey) else if key in rows then Success(rows[key]) else Failure(NoSuchRow)
  }

  datatype TokenRow = TokenRow(grantId: Id, expiresAt: Time, usedAt: Option<Time>)

  /** What is left of a table once the rows expired before `now` are deleted. */
  function PurgeRequests(rows: map<Id, AuthorizationRequest>, now: Time): (kept: map<Id, AuthorizationRequest>)
    ensures forall id :: id in kept <==> id in rows && now <= rows[id].expiresAt
    ensures forall id :: id in kept ==> kept[id] == rows[id]
  {
    map id | id in rows && !(rows[id].expiresAt < now) :: rows[id]
  }

  function PurgeCodes(rows: map<Hash, AuthorizationCode>, now: Time): (kept: map<Hash, AuthorizationCode>)
    ensures forall h :: h in kept <==> h in rows && now <= rows[h].expiresAt
    ensures forall h :: h in kept ==> kept[h] == rows[h]
  {
    map h | h in rows && !(rows[h].expiresAt < now) :: rows[h]
  }

  class Store {
    var requests: map<Id, AuthorizationRequest>
    var codes: map<Hash, AuthorizationCode>
    var grants: map<Id, GrantEntry>
    var tokens: map<Hash, TokenRow>

    /** The rows as the tables both stores are specified by: a token is used once it has a time of use. */
    ghost function View(): Tables
      reads this
    {
      Tables(grants, map h | h in tokens :: RefreshToken(tokens[h].grantId, tokens[h].expiresAt, tokens[h].usedAt.Some?))
    }

    /** Every token's grant exists, as the foreign key has it. */
    ghost predicate Valid()
      reads this
    {
      forall h :: h in tokens ==> tokens[h].grantId in grants
    }

    constructor ()
      ensures Valid() && View() == Tables(map[], map[])
      ensures requests == map[] && codes == map[]
    {
      requests, codes, grants, tokens := map[], map[], map[], map[];
    }

    method InsertAuthorizationRequest(request: AuthorizationRequest, newId: Id, now: Time) returns (id: Option<Id>)
      modifies this`requests
      ensures request.accountId == "" ==> id == None && requests == old(requests)
      ensures request.accountId != "" ==> id == Some(newId) && requests == PurgeRequests(old(requests),
        now)[newId := request]
    {
      if request.accountId == "" {
        return None;
      }
      requests := PurgeRequests(requests, now);
      requests := requests[newId := request];
      id := Some(newId);
    }

    method PopAuthorizationRequest(id: Id) returns (popped: Result<AuthorizationRequest, PopError>)
      modifies this`requests
      ensures popped == Popped(old(requests), id)
      ensures requests == if id == "" then old(requests) else old(requests) - {id}
    {
      if id == "" {
        return Failure(EmptyKey);
      }
      popped := if id in requests then Success(requests[id]) else Failure(NoSuchRow);
      requests := requests - {id};
    }

    method InsertAuthorizationCode(codeHash: Hash, code: AuthorizationCode, now: Time) returns (ok: bool)
      modifies this`codes
      ensures ok <==> codeHash != "" && codeHash !in PurgeCodes(old(codes), now)
      ensures codeHash == "" ==> codes == old(codes)
      ensures codeHash != "" ==> codes == if ok then PurgeCodes(old(codes), now)[codeHash := code]
        else PurgeCodes(old(codes), now)
    {
      if codeHash == "" {
        return false;
      }
      codes := PurgeCodes(codes, now);
      if codeHash in codes {
        return false;
      }
      codes := codes[codeHash := code];
      ok := true;
    }

    method PopAuthorizationCode(codeHash: Hash) returns (popped: Result<AuthorizationCode, PopError>)
      modifies this`codes
      ensures popped == Popped(old(codes), codeHash)
      ensures codes == if codeHash == "" then old(codes) else old(codes) - {codeHash}
    {
      if codeHash == "" {
        return Failure(EmptyKey);
      }
      popped := if codeHash in codes then Success(codes[codeHash]) else Failure(NoSuchRow);
      codes := codes - {codeHash};
    }

    method InsertGrant(g: Grant, tokenHash: Hash, expiresAt: Time, newId: Id) returns (id: Option<Id>)
      requires Valid() && newId !in grants
      modifies this`grants, this`tokens
      ensures Valid()
      ensures id == if tokenHash == "" || tokenHash in old(tokens) then None else Some(newId)
      ensures View() == if id.Some? then Record(old(View()), newId, g, tokenHash, expiresAt) else old(View())
    {
      if tokenHash == "" {
        return None;
      }
      var txGrants := grants[newId := GrantEntry(g.(id := newId), false)];
      if tokenHash in tokens {
        return None;
      }
      grants, tokens := txGrants, tokens[tokenHash := TokenRow(newId, expiresAt, None)];
      id := Some(newId);
    }

    /**
    One transaction over the token's and the grant's locked rows. `None` is an error of the
    database's: an empty hash, or a successor whose hash is there already.
    */
    method RotateRefreshToken(r: Rotation) returns (answer: Option<Answer>)
      requires Valid()
      modifies this`grants, this`tokens
      ensures Valid()
      ensures answer.Some? ==> (View(), answer.value) == Rotate(old(View()), r)
      ensures answer == None ==> View() == old(View())
      ensures answer == None <==>
        r.presented == "" || r.successor == ""
        || (Rotate(old(View()), r).1.Renewed? && r.successor in old(tokens))
    {
      if r.presented == "" || r.successor == "" {
        return None;
      }
      var txGrants, txTokens := grants, tokens;
      if r.presented !in txTokens || txTokens[r.presented].grantId !in txGrants {
        return Some(NotFound);
      }
      var row := txTokens[r.presented];
      var entry := txGrants[row.grantId];
      if row.usedAt.Some? {
        txGrants := txGrants[row.grantId := entry.(revoked := true)];
        grants, tokens := txGrants, txTokens;
        return Some(Reused);
      }
      if entry.revoked || !(r.now < row.expiresAt) {
        return Some(NotFound);
      }
      var refusal := r.check(entry.grant);
      if refusal.Some? {
        return Some(Refused(refusal.value));
      }
      txTokens := txTokens[r.presented := row.(usedAt := Some(r.now))];
      if r.successor in txTokens {
        return None;
      }
      txTokens := txTokens[r.successor := TokenRow(row.grantId, r.successorExpiresAt, None)];
      grants, tokens := txGrants, txTokens;
      answer := Some(Renewed(entry.grant));
      assert View().tokens == Spend(old(View()), r.presented, r.successor, r.successorExpiresAt).tokens;
    }

    method RevokeRefreshToken(tokenHash: Hash) returns (ok: bool)
      requires Valid()
      modifies this`grants
      ensures Valid()
      ensures ok <==> tokenHash != ""
      ensures View() == if ok then RevokeByToken(old(View()), tokenHash) else old(View())
    {
      if tokenHash == "" {
        return false;
      }
      if tokenHash in tokens {
        var id := tokens[tokenHash].grantId;
        grants := grants[id := grants[id].(revoked := true)];
      }
      ok := true;
    }
  }
}

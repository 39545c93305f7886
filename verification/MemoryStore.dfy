/**
The in-memory store. Each method is one critical section, but for `RotateRefreshToken`, which is
two with the check between them: here it is what it does undisturbed, and module Rotation has what
may happen in between.
*/
module MemoryStore {
  import opened Wrappers
  import opened Oauth
  import opened GrantTables
  import opened StoreContents

  class Store {
    var requests: map<Id, AuthorizationRequest>
    var codes: map<Hash, AuthorizationCode>
    var grants: map<Id, GrantEntry>
    var refreshTokens: map<Hash, RefreshToken>
    var lockedAccounts: set<Id>
    var accounts: set<Id>

    ghost function View(): Contents
      reads this
    {
      Contents(requests, codes, Tables(grants, refreshTokens), accounts, lockedAccounts)
    }

    constructor (accountIds: set<Id>)
      ensures View() == Empty(accountIds)
    {
      requests, codes, grants, refreshTokens := map[], map[], map[], map[];
      lockedAccounts, accounts := {}, accountIds;
    }

    method LockAccount(accountId: Id)
      modifies this`lockedAccounts
      ensures View() == old(View()).(locked := old(lockedAccounts) + {accountId})
    {
      lockedAccounts := lockedAccounts + {accountId};
    }

    method UnlockAccount(accountId: Id)
      modifies this`lockedAccounts
      ensures View() == old(View()).(locked := old(lockedAccounts) - {accountId})
    {
      lockedAccounts := lockedAccounts - {accountId};
    }

    method AccountActive(accountId: Id) returns (active: bool)
      ensures active == Active(View(), accountId)
    {
      active := accountId in accounts && accountId !in lockedAccounts;
    }

    method InsertAuthorizationRequest(request: AuthorizationRequest, newId: Id) returns (id: Id)
      modifies this`requests
      ensures id == newId
      ensures View() == old(View()).(requests := old(requests)[newId := request])
    {
      requests := requests[newId := request];
      id := newId;
    }

    method PopAuthorizationRequest(id: Id) returns (popped: Option<AuthorizationRequest>)
      modifies this`requests
      ensures popped == if id in old(requests) then Some(old(requests)[id]) else None
      ensures View() == old(View()).(requests := old(requests) - {id})
    {
      popped := None;
      if id in requests {
        popped := Some(requests[id]);
        requests := requests - {id};
      }
    }

    method InsertAuthorizationCode(codeHash: Hash, code: AuthorizationCode)
      modifies this`codes
      ensures View() == old(View()).(codes := old(codes)[codeHash := code])
    {
      codes := codes[codeHash := code];
    }

    method PopAuthorizationCode(codeHash: Hash) returns (popped: Option<AuthorizationCode>)
      modifies this`codes
      ensures popped == if codeHash in old(codes) then Some(old(codes)[codeHash]) else None
      ensures View() == old(View()).(codes := old(codes) - {codeHash})
    {
      popped := None;
      if codeHash in codes {
        popped := Some(codes[codeHash]);
        codes := codes - {codeHash};
      }
    }

    method InsertGrant(g: Grant, tokenHash: Hash, expiresAt: Time, newId: Id) returns (id: Id)
      modifies this`grants, this`refreshTokens
      ensures id == newId
      ensures View() == old(View()).(tables := Record(old(View()).tables, newId, g, tokenHash, expiresAt))
    {
      grants := grants[newId := GrantEntry(g.(id := newId), false)];
      refreshTokens := refreshTokens[tokenHash := RefreshToken(newId, expiresAt, false)];
      id := newId;
    }

    /** What presenting the token comes to, with the revocation that presenting a spent one brings about. */
    method Find(presented: Hash, now: Time) returns (look: Lookup)
      modifies this`grants
      ensures look == Look(old(View()).tables, presented, now)
      ensures View() == old(View()).(tables := AfterLook(old(View()).tables, look))
      ensures look.Spendable? ==> presented in refreshTokens
    {
      if presented !in refreshTokens {
        return Missing;
      }
      var token := refreshTokens[presented];
      if token.grantId !in grants {
        return Missing;
      }
      var g := grants[token.grantId];
      if token.used {
        grants := grants[token.grantId := g.(revoked := true)];
        return Spent(token.grantId);
      }
      if g.revoked || !(now < token.expiresAt) {
        return Dead;
      }
      look := Spendable(g.grant);
    }

    /** The second critical section: look again, and spend what is still there to be spent. */
    method SpendHeld(r: Rotation) returns (answer: Answer)
      modifies this`grants, this`refreshTokens
      ensures (View().tables, answer) == Commit(old(View()).tables, r)
      ensures View() == old(View()).(tables := View().tables)
    {
      var look := Find(r.presented, r.now);
      if look.Spendable? {
        var token := refreshTokens[r.presented];
        refreshTokens := refreshTokens[r.presented := token.(used := true)];
        refreshTokens := refreshTokens[r.successor := RefreshToken(token.grantId, r.successorExpiresAt, false)];
      }
      answer := AnswerOf(look);
    }

    /** Undisturbed between its two critical sections, it is the one-step rotation. */
    method RotateRefreshToken(r: Rotation) returns (answer: Answer)
      modifies this`grants, this`refreshTokens
      ensures (View().tables, answer) == Rotate(old(View()).tables, r)
      ensures View() == old(View()).(tables := View().tables)
    {
      var look := Find(r.presented, r.now);
      if !look.Spendable? {
        return AnswerOf(look);
      }
      var refusal := r.check(look.grant);
      if refusal.Some? {
        return Refused(refusal.value);
      }
      answer := SpendHeld(r);
    }

    method RevokeRefreshToken(tokenHash: Hash)
      modifies this`grants
      ensures View() == old(View()).(tables := RevokeByToken(old(View()).tables, tokenHash))
    {
      if tokenHash in refreshTokens {
        var id := refreshTokens[tokenHash].grantId;
        if id in grants {
          grants := grants[id := grants[id].(revoked := true)];
        }
      }
    }
  }
}

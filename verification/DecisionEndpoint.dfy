/** The endpoint the consent page's answer is sent to. */
module DecisionEndpoint {
  import opened Wrappers
  import opened Oauth
  import MemoryStore

  const CODE_LIFETIME := MINUTE

  datatype Outcome =
    | Unnamed
    | NoRequest
    | SomeoneElses
    | Expired
    | Denied
    | NeitherAnswer
    | Allowed(code: AuthorizationCode)

  /** What the answer comes to, the request having been taken from the store whatever it comes to. */
  function Decide(popped: Option<AuthorizationRequest>, subject: Id, decision: string, now: Time): Outcome {
    if popped == None then NoRequest
    else
      var r := popped.value;
      if r.accountId != subject then SomeoneElses
      else if !(now < r.expiresAt) then Expired
      else if decision == "deny" then Denied
      else if decision != "allow" then NeitherAnswer
      else Allowed(AuthorizationCode(
        r.accountId, r.clientId, r.redirectUri, r.codeChallenge, r.resource, r.scope, now + CODE_LIFETIME))
  }

  /** A code stands for what its request asked, for the account that was asked. */
  predicate Carries(code: AuthorizationCode, r: AuthorizationRequest) {
    && code.accountId == r.accountId && code.clientId == r.clientId && code.redirectUri == r.redirectUri
    && code.codeChallenge == r.codeChallenge && code.resource == r.resource && code.scope == r.scope
  }

  /**
  A code is made exactly for a timely "allow" by the request's own account, and is the request's for a minute; any other
  answer comes to what was wrong with it first.
  */
  lemma AllowedMeansConsented(r: AuthorizationRequest, subject: Id, decision: string, now: Time)
    ensures var outcome := Decide(Some(r), subject, decision, now);
      var timely := r.accountId == subject && now < r.expiresAt;
      && (outcome.Allowed? <==> timely && decision == "allow")
      && (outcome.Allowed? ==> Carries(outcome.code, r) && outcome.code == AuthorizationCode(
          subject, r.clientId, r.redirectUri, r.codeChallenge, r.resource, r.scope, now + 60 * SECOND))
      && (outcome == SomeoneElses <==> r.accountId != subject)
      && (outcome == Expired <==> r.accountId == subject && r.expiresAt <= now)
      && (outcome == Denied <==> timely && decision == "deny")
      && (outcome == NeitherAnswer <==> timely && decision !in {"allow", "deny"})
    ensures Decide(None, subject, decision, now) == NoRequest
  {
  }

  method Handle(
    store: MemoryStore.Store, requestId: Id, subject: Id, decision: string, now: Time, codeHash: Hash)
    returns (outcome: Outcome)
    modifies store
    ensures requestId == "" ==> outcome == Unnamed && store.View() == old(store.View())
    ensures requestId != "" ==> outcome == Decide(
      if requestId in old(store.requests) then Some(old(store.requests)[requestId]) else None, subject, decision, now)
    ensures requestId != "" ==> store.View() == old(store.View()).(
      requests := old(store.requests) - {requestId},
      codes := if outcome.Allowed? then old(store.codes)[codeHash := outcome.code] else old(store.codes))
  {
    if requestId == "" {
      return Unnamed;
    }
    var popped := store.PopAuthorizationRequest(requestId);
    if popped == None {
      return NoRequest;
    }
    var r := popped.value;
    if r.accountId != subject {
      return SomeoneElses;
    }
    if !(now < r.expiresAt) {
      return Expired;
    }
    match decision {
      case "deny" => return Denied;
      case "allow" =>
      case _ => return NeitherAnswer;
    }
    var code := AuthorizationCode(
      r.accountId, r.clientId, r.redirectUri, r.codeChallenge, r.resource, r.scope, now + CODE_LIFETIME);
    store.InsertAuthorizationCode(codeHash, code);
    outcome := Allowed(code);
  }
}

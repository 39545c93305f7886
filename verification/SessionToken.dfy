/** Session tokens: what they say, how they are read, and how they are renewed. */
module SessionToken {
  import opened Wrappers
  import opened Oauth
  import opened Strings
  import opened Authentications

  /** Times are in whole seconds. */
  datatype Claims = Claims(
    id: string, issuer: string, audience: string, subject: string, expiresAt: Time, notBefore: Time, issuedAt: Time,
    authenticationMethods: seq<string>, authenticatedAt: Time, authorizedParty: string, roles: seq<string>)

  datatype Token = Token(
    claims: Claims, authenticationId: Id, sessionId: string, subjectId: Id, subjectEmailAddress: string,
    tenantId: string, tenantName: string, roles: seq<string>, keyThumbprint: string)

  datatype Error = EndedAuthentication | ExpiredAuthentication | LockedAccount | EmptyMethod

  function CutIfAny(s: string): Option<(string, string)> {
    if s == "" then Some(("", "")) else Cut(s, ':')
  }

  function Parse(claims: Claims): Option<Token> {
    var id, sub, azp := CutIfAny(claims.id), CutIfAny(claims.subject), CutIfAny(claims.authorizedParty);
    if id == None || sub == None || azp == None then None
    else Some(Token(
      claims, id.value.0, id.value.1, sub.value.0, sub.value.1, azp.value.0, azp.value.1, claims.roles, ""))
  }

  /** Whether a sign-in may still stand behind a session. */
  function VerifyAuthentication(a: Authentication, now: Time): Option<Error> {
    if a.ended then Some(EndedAuthentication)
    else if now > a.expiresAt then Some(ExpiredAuthentication)
    else if a.account.locked then Some(LockedAccount)
    else None
  }

  function Earlier(a: Time, b: Time): Time {
    if a < b then a else b
  }

  function Refresh(t: Token, a: Authentication, duration: int, method_: string, now: Time): Result<Token, Error> {
    if method_ == "" then Failure(EmptyMethod)
    else if VerifyAuthentication(a, now).Some? then Failure(VerifyAuthentication(a, now).value)
    else
      var claims := t.claims.(
        authenticationMethods := [method_], expiresAt := WholeSeconds(Earlier(a.expiresAt, now + duration)),
        notBefore := WholeSeconds(now), roles := a.account.roles);
      Success(t.(claims := claims, roles := a.account.roles))
  }
}

/** Sessions made and renewed. Each call reads the clock once. */
module SessionManager {
  import opened Wrappers
  import opened Oauth
  import opened Authentications
  import opened SessionToken
  import opened Strings

  // The authentication methods a token names.
  const METHOD_DBSC := "hwk"
  const METHOD_REFRESH := "rtoken"
  const METHOD_SSO := "ext"
  const METHOD_API_KEY := "swk"

  datatype Manager = Manager(
    issuer: string, cookieDomain: string, initialSessionDuration: int, authenticationDuration: int,
    idleDuration: int, dbscChallengeDuration: int, dbscAlgs: seq<string>, dbscRegisterPath: string)

  datatype Refusal =
    | ServerError | NoAccount | AccountLocked | AlreadySignedIn | IdleTooLong | AuthenticationEnded | AuthenticationExpired

  /** A session answered with: the token, and when the cookie carrying it expires. */
  datatype Session = Session(token: Token, cookieExpiresAt: Time)

  function RefusalOf(error: Error): Refusal {
    match error
    case EndedAuthentication => AuthenticationEnded
    case ExpiredAuthentication => AuthenticationExpired
    case LockedAccount => AccountLocked
    case EmptyMethod => ServerError
  }

  /**
  A device-bound session's cookie expires with its token, so that the browser renews it; any other's, with the
  sign-in.
  */
  function CookieExpiry(method_: string, token: Token, a: Authentication): Time {
    if method_ == METHOD_DBSC then token.claims.expiresAt else a.expiresAt
  }

  function Party(account: Account): string {
    if account.customer == None then "" else account.customer.value.id + ":" + account.customer.value.name
  }

  predicate CompleteAccount(account: Account) {
    account.id != "" && account.emailAddress != ""
    && (account.customer.Some? ==> account.customer.value.id != "" && account.customer.value.name != "")
  }

  function ClaimsFor(
    m: Manager, a: Authentication, audience: string, method_: string, duration: int, now: Time,
    sessionId: string): Claims
  {
    Claims(
      a.id + ":" + sessionId, m.issuer, audience, a.account.id + ":" + a.account.emailAddress,
      WholeSeconds(Earlier(now + duration, a.expiresAt)), WholeSeconds(now), WholeSeconds(now), [method_],
      WholeSeconds(a.createdAt), Party(a.account), a.account.roles)
  }

  /** A token for a sign-in that presents none; `audience` and `keyThumbprint` are empty where not asked for. */
  function MintToken(
    m: Manager, a: Authentication, method_: string, duration: int, audience: string, keyThumbprint: string,
    now: Time, sessionId: string): Result<Token, Refusal>
  {
    var audienceClaim := if audience == "" then m.cookieDomain else audience;
    if method_ == "" || audienceClaim == "" || a.id == "" then Failure(ServerError)
    else if VerifyAuthentication(a, now).Some? then Failure(RefusalOf(VerifyAuthentication(a, now).value))
    else if !CompleteAccount(a.account) then Failure(ServerError)
    else
      var parsed := Parse(ClaimsFor(m, a, audienceClaim, method_, duration, now, sessionId));
      if parsed == None then Failure(ServerError) else Success(parsed.value.(keyThumbprint := keyThumbprint))
  }

  function MintSession(
    m: Manager, a: Authentication, method_: string, duration: int, now: Time,
    sessionId: string): Result<Session, Refusal>
  {
    var minted := MintToken(m, a, method_, duration, "", "", now, sessionId);
    if minted.Failure? then Failure(minted.error)
    else Success(Session(minted.value, CookieExpiry(method_, minted.value, a)))
  }

  function RefreshSession(
    m: Manager, a: Authentication, t: Token, method_: string, duration: int, now: Time): Result<Session, Refusal>
  {
    if method_ == "" then Failure(ServerError)
    else if m.idleDuration > 0 && now - t.claims.expiresAt > m.idleDuration then Failure(IdleTooLong)
    else
      var renewed := Refresh(t, a, duration, method_, now);
      if renewed.Failure? then Failure(RefusalOf(renewed.error))
      else Success(Session(renewed.value, CookieExpiry(method_, renewed.value, a)))
  }

  /** What a sign-in draws: the row's id, the session's id and the challenge its device may be bound by. */
  datatype Draws = Draws(authenticationId: Id, sessionId: string, challenge: string)

  predicate Configured(m: Manager) {
    m.dbscAlgs != [] && m.dbscRegisterPath != "" && m.cookieDomain != ""
  }

  datatype Created = Created(tables: Tables, answer: Result<Session, Refusal>)

  /**
  A sign-in for the account its email address has. What goes wrong once the row is there leaves it
  there, with no session for it.
  */
  function Create(
    m: Manager, t: Tables, method_: string, account: Option<Account>, idTokenHash: string, now: Time,
    draws: Draws): Created
  {
    if method_ == "" || !Configured(m) then Created(t, Failure(ServerError))
    else if account == None then Created(t, Failure(NoAccount))
    else if !CompleteAccount(account.value) then Created(t, Failure(ServerError))
    else if account.value.locked then Created(t, Failure(AccountLocked))
    else if idTokenHash != "" && TokenUsed(t, idTokenHash) then Created(t, Failure(AlreadySignedIn))
    else
      var owner := account.value;
      var inserted := Inserted(t, draws.authenticationId, owner.id, idTokenHash, m.authenticationDuration, now);
      if m.dbscChallengeDuration == 0 then Created(inserted, Failure(ServerError))
      else
        var challenged := WithChallenge(
          inserted, Challenge(draws.challenge, draws.authenticationId), m.dbscChallengeDuration, now);
        var a := Authentication(draws.authenticationId, false, now, now + m.authenticationDuration, "", owner);
        var parsed := Parse(ClaimsFor(m, a, m.cookieDomain, method_, m.initialSessionDuration, now, draws.sessionId));
        if parsed == None then Created(challenged, Failure(ServerError))
        else Created(challenged, Success(Session(parsed.value, a.expiresAt)))
  }

  method CreateSession(
    m: Manager, db: Database, method_: string, account: Option<Account>, idTokenHash: string, now: Time, draws: Draws)
    returns (answer: Result<Session, Refusal>)
    requires draws.authenticationId != "" && draws.challenge != ""
    modifies db
    ensures Created(db.View(), answer) == Create(m, old(db.View()), method_, account, idTokenHash, now, draws)
  {
    if method_ == "" || !Configured(m) {
      return Failure(ServerError);
    }
    if account == None {
      return Failure(NoAccount);
    }
    var owner := account.value;
    if !CompleteAccount(owner) {
      return Failure(ServerError);
    }
    if owner.locked {
      return Failure(AccountLocked);
    }
    var inserted := db.InsertAuthentication(owner.id, idTokenHash, m.authenticationDuration, now, draws.authenticationId);
    if !inserted {
      return Failure(AlreadySignedIn);
    }
    var challenged := db.InsertDbscChallenge(
      Challenge(draws.challenge, draws.authenticationId), m.dbscChallengeDuration, now);
    if !challenged {
      return Failure(ServerError);
    }
    var a := Authentication(draws.authenticationId, false, now, now + m.authenticationDuration, "", owner);
    var parsed := Parse(ClaimsFor(m, a, m.cookieDomain, method_, m.initialSessionDuration, now, draws.sessionId));
    if parsed == None {
      return Failure(ServerError);
    }
    answer := Success(Session(parsed.value, a.expiresAt));
  }

  // --- What tokens say ---

  /** The token says this, in its claims: by whom, to whom, of whose sign-in, from when until when, and in which roles. */
  ghost predicate Says(
    t: Token, issuer: string, audience: string, a: Authentication, method_: string, from: Time, until: Time,
    sessionId: string)
  {
    && t.claims.issuer == issuer && t.claims.audience == audience
    && t.claims.id == a.id + ":" + sessionId && t.claims.subject == a.account.id + ":" + a.account.emailAddress
    && t.claims.notBefore == WholeSeconds(from) && t.claims.issuedAt == WholeSeconds(from)
    && t.claims.expiresAt == WholeSeconds(if until < a.expiresAt then until else a.expiresAt)
    && t.claims.authenticatedAt == WholeSeconds(a.createdAt) && t.claims.authenticationMethods == [method_]
    && t.claims.roles == a.account.roles && t.roles == a.account.roles
  }

  /** Read back, it names the sign-in and its session, the account and its address, exactly when the ids hold no colon. */
  ghost predicate Names(t: Token, a: Authentication, sessionId: string) {
    && (t.authenticationId == a.id && t.sessionId == sessionId <==> ':' !in a.id)
    && (t.subjectId == a.account.id && t.subjectEmailAddress == a.account.emailAddress <==> ':' !in a.account.id)
  }

  /** And the customer as its tenant, exactly when the customer's id holds none. */
  ghost predicate NamesTenant(t: Token, customer: Option<Customer>) {
    if customer == None then t.claims.authorizedParty == "" && t.tenantId == "" && t.tenantName == ""
    else
      && t.claims.authorizedParty == customer.value.id + ":" + customer.value.name
      && (t.tenantId == customer.value.id && t.tenantName == customer.value.name <==> ':' !in customer.value.id)
  }

  /** The claims made for a sign-in can always be read back, as said of it. */
  lemma ClaimsParse(
    m: Manager, a: Authentication, audience: string, method_: string, duration: int, now: Time, sessionId: string)
    ensures var parsed := Parse(ClaimsFor(m, a, audience, method_, duration, now, sessionId));
      && parsed.Some? && parsed.value.keyThumbprint == ""
      && Says(parsed.value, m.issuer, audience, a, method_, now, now + duration, sessionId)
      && Names(parsed.value, a, sessionId) && NamesTenant(parsed.value, a.account.customer)
  {
    CutOfJoin(a.id, sessionId, ':');
    CutOfJoin(a.account.id, a.account.emailAddress, ':');
    if a.account.customer.Some? {
      CutOfJoin(a.account.customer.value.id, a.account.customer.value.name, ':');
    }
  }

  // --- Chains of renewals ---

  /** One renewal of a session: the sign-in as it then was, and what it was renewed with. */
  datatype Renewal = Renewal(a: Authentication, method_: string, duration: int, now: Time)

  /** The token after the renewals one after the other, if each was granted. */
  function Renewed(m: Manager, t: Token, rs: seq<Renewal>): Option<Token> {
    if rs == [] then Some(t)
    else
      var before := Renewed(m, t, rs[..|rs| - 1]);
      if before == None then None
      else
        var r := rs[|rs| - 1];
        var session := RefreshSession(m, r.a, before.value, r.method_, r.duration, r.now);
        if session.Failure? then None else Some(session.value.token)
  }

  /** Who a token is for, and what it is bound to: everything but its times, methods and roles. */
  predicate SameSession(t: Token, u: Token) {
    && u.authenticationId == t.authenticationId && u.sessionId == t.sessionId
    && u.subjectId == t.subjectId && u.subjectEmailAddress == t.subjectEmailAddress
    && u.tenantId == t.tenantId && u.tenantName == t.tenantName && u.keyThumbprint == t.keyThumbprint
    && u.claims == t.claims.(
      expiresAt := u.claims.expiresAt, notBefore := u.claims.notBefore,
      authenticationMethods := u.claims.authenticationMethods, roles := u.claims.roles)
  }

  /**
  However long the chain of renewals, the session stays whose it was and bound as it was, and has
  the roles and the times of its last renewal.
  */
  lemma {:induction false} RenewalKeepsTheSession(m: Manager, t: Token, rs: seq<Renewal>)
    requires Renewed(m, t, rs).Some?
    ensures SameSession(t, Renewed(m, t, rs).value)
    ensures rs != [] ==>
      var last, u := rs[|rs| - 1], Renewed(m, t, rs).value;
      && u.roles == u.claims.roles == last.a.account.roles
      && u.claims.authenticationMethods == [last.method_]
      && u.claims.notBefore == WholeSeconds(last.now)
      && u.claims.expiresAt == WholeSeconds(Earlier(last.a.expiresAt, last.now + last.duration))
      && !last.a.ended && last.now <= last.a.expiresAt && !last.a.account.locked
  {
    if rs != [] {
      RenewalKeepsTheSession(m, t, rs[..|rs| - 1]);
    }
  }

  /**
  With an idle bound, no two renewals that follow one another are further apart than the session's
  duration and the bound together -- nor than the bound past the sign-in's end.
  */
  lemma {:induction false} IdleBoundsTheGap(m: Manager, t: Token, rs: seq<Renewal>, i: nat)
    requires m.idleDuration > 0 && Renewed(m, t, rs).Some? && 0 < i < |rs|
    ensures rs[i].now <= rs[i - 1].now + rs[i - 1].duration + m.idleDuration
    ensures rs[i].now <= rs[i - 1].a.expiresAt + m.idleDuration
    decreases |rs|
  {
    var before := rs[..|rs| - 1];
    if i == |rs| - 1 {
      RenewalKeepsTheSession(m, t, before);
      assert before[|before| - 1] == rs[i - 1];
    } else {
      IdleBoundsTheGap(m, t, before, i);
    }
  }

  /** The account has an address, and is of a customer with a name if of one. */
  ghost predicate Whole(account: Account) {
    && account.id != "" && account.emailAddress != ""
    && forall c :: account.customer == Some(c) ==> c.id != "" && c.name != ""
  }

  /**
  Exactly when a token is minted for a sign-in, and all it says: this server's word to the audience asked for, or else to
  its own domain, of the sign-in and its account as they are, until the duration is over or the sign-in is.
  */
  lemma MintedExactlyWhileLive(
    m: Manager, a: Authentication, method_: string, duration: int, audience: string, keyThumbprint: string,
    now: Time, sessionId: string)
    ensures var minted := MintToken(m, a, method_, duration, audience, keyThumbprint, now, sessionId);
      var to := if audience != "" then audience else m.cookieDomain;
      var setUp := method_ != "" && to != "" && a.id != "";
      && (minted.Success? <==> setUp && !a.ended && now <= a.expiresAt && !a.account.locked && Whole(a.account))
      && (minted.Success? ==>
          && Says(minted.value, m.issuer, to, a, method_, now, now + duration, sessionId)
          && Names(minted.value, a, sessionId) && NamesTenant(minted.value, a.account.customer)
          && minted.value.keyThumbprint == keyThumbprint)
      && (minted == Failure(AuthenticationEnded) <==> setUp && a.ended)
      && (minted == Failure(AuthenticationExpired) <==> setUp && !a.ended && a.expiresAt < now)
      && (minted == Failure(AccountLocked) <==> setUp && !a.ended && now <= a.expiresAt && a.account.locked)
  {
    ClaimsParse(m, a, if audience == "" then m.cookieDomain else audience, method_, duration, now, sessionId);
  }

  /** A session is such a token to the server's own domain, in a cookie for as long as its method has it. */
  lemma SessionMintedExactly(
    m: Manager, a: Authentication, method_: string, duration: int, now: Time, sessionId: string)
    ensures var minted := MintSession(m, a, method_, duration, now, sessionId);
      && (minted.Success? <==>
          && method_ != "" && m.cookieDomain != "" && a.id != ""
          && !a.ended && now <= a.expiresAt && !a.account.locked && Whole(a.account))
      && (minted.Success? ==>
          var (token, until) := (minted.value.token, minted.value.cookieExpiresAt);
          && Says(token, m.issuer, m.cookieDomain, a, method_, now, now + duration, sessionId)
          && Names(token, a, sessionId) && NamesTenant(token, a.account.customer) && token.keyThumbprint == ""
          && until == if method_ == "hwk" then token.claims.expiresAt else a.expiresAt)
  {
    MintedExactlyWhileLive(m, a, method_, duration, "", "", now, sessionId);
  }

  /** Exactly when a session is renewed, and else why not. */
  lemma RenewedExactly(m: Manager, a: Authentication, t: Token, method_: string, duration: int, now: Time)
    ensures var renewed := RefreshSession(m, a, t, method_, duration, now);
      var idle := m.idleDuration > 0 && t.claims.expiresAt + m.idleDuration < now;
      && (renewed.Success? <==> method_ != "" && !idle && !a.ended && now <= a.expiresAt && !a.account.locked)
      && (renewed.Success? ==>
          renewed.value.cookieExpiresAt == if method_ == "hwk" then renewed.value.token.claims.expiresAt else a.expiresAt)
      && (renewed == Failure(IdleTooLong) <==> method_ != "" && idle)
      && (renewed == Failure(AuthenticationEnded) <==> method_ != "" && !idle && a.ended)
      && (renewed == Failure(AuthenticationExpired) <==> method_ != "" && !idle && !a.ended && a.expiresAt < now)
      && (renewed == Failure(AccountLocked) <==>
          method_ != "" && !idle && !a.ended && now <= a.expiresAt && a.account.locked)
  {
  }

  // --- What a sign-in leaves ---

  /** What is asked before anything is stored: set up, for an account that may sign in, by an id token not used before. */
  ghost predicate MaySignIn(m: Manager, t: Tables, method_: string, holder: Option<Account>, idTokenHash: string) {
    && method_ != "" && m.dbscAlgs != [] && m.dbscRegisterPath != "" && m.cookieDomain != ""
    && holder.Some? && Whole(holder.value) && !holder.value.locked
    && (idTokenHash != "" ==> forall id :: id in t.rows ==> t.rows[id].idTokenHash != Some(idTokenHash))
  }

  /**
  Exactly when a sign-in is made and answered with a session, and all that is then stored: its row, for as long as
  sign-ins last, and a challenge for its device. The row alone is left where challenges last no time.
  */
  lemma CreatedExactly(
    m: Manager, t: Tables, method_: string, holder: Option<Account>, idTokenHash: string, now: Time, draws: Draws)
    ensures var (created, id) := (Create(m, t, method_, holder, idTokenHash, now, draws), draws.authenticationId);
      var (left, answer) := (created.tables, created.answer);
      && (answer.Success? <==> MaySignIn(m, t, method_, holder, idTokenHash) && m.dbscChallengeDuration != 0)
      && left.accounts == t.accounts
      && left.rows == (
        if MaySignIn(m, t, method_, holder, idTokenHash)
        then t.rows[id := Row(holder.value.id, now, now + m.authenticationDuration, false, None, "",
          if idTokenHash != "" then Some(idTokenHash) else None)]
        else t.rows)
      && left.challenges == (
        if answer.Success? then t.challenges[Challenge(draws.challenge, id) := now + m.dbscChallengeDuration]
        else t.challenges)
      && (answer.Success? ==>
          var a := Authentication(id, false, now, now + m.authenticationDuration, "", holder.value);
          var token := answer.value.token;
          && Says(token, m.issuer, m.cookieDomain, a, method_, now, now + m.initialSessionDuration, draws.sessionId)
          && Names(token, a, draws.sessionId) && NamesTenant(token, holder.value.customer)
          && token.keyThumbprint == "" && answer.value.cookieExpiresAt == now + m.authenticationDuration)
  {
    if holder.Some? {
      var a := Authentication(draws.authenticationId, false, now, now + m.authenticationDuration, "", holder.value);
      ClaimsParse(m, a, m.cookieDomain, method_, m.initialSessionDuration, now, draws.sessionId);
    }
  }

  /** What a sign-in that is not made is told. */
  lemma UncreatedIsTold(
    m: Manager, t: Tables, method_: string, holder: Option<Account>, idTokenHash: string, now: Time, draws: Draws)
    ensures var answer := Create(m, t, method_, holder, idTokenHash, now, draws).answer;
      var setUp := method_ != "" && m.dbscAlgs != [] && m.dbscRegisterPath != "" && m.cookieDomain != "";
      var known := setUp && holder.Some? && Whole(holder.value);
      && (answer == Failure(NoAccount) <==> setUp && holder == None)
      && (answer == Failure(AccountLocked) <==> known && holder.value.locked)
      && (answer == Failure(AlreadySignedIn) <==>
          known && !holder.value.locked && !MaySignIn(m, t, method_, holder, idTokenHash))
  {
    CreatedExactly(m, t, method_, holder, idTokenHash, now, draws);
  }
}

/** The token endpoint: a code or a refresh token redeemed for an access token. */
module TokenEndpoint {
  import opened Wrappers
  import opened Oauth
  import opened Scopes
  import opened StoreContents
  import G = GrantTables
  import A = AccessToken
  import MemoryStore
  import Base64Url
  import Pkce

  const DEFAULT_ACCESS_TOKEN_LIFETIME := 15 * MINUTE
  const DEFAULT_REFRESH_TOKEN_LIFETIME := 30 * DAY
  const DEFAULT_GRANT_LIFETIME := 90 * DAY

  datatype Config = Config(
    issuer: string, resources: seq<Resource>,
    accessTokenLifetime: int, refreshTokenLifetime: int, grantLifetime: int)
  {
    function AccessTokenLifetime(): (d: int)
      ensures d > 0
    {
      if accessTokenLifetime > 0 then accessTokenLifetime else DEFAULT_ACCESS_TOKEN_LIFETIME
    }

    function RefreshTokenLifetime(): (d: int)
      ensures d > 0
    {
      if refreshTokenLifetime > 0 then refreshTokenLifetime else DEFAULT_REFRESH_TOKEN_LIFETIME
    }

    function GrantLifetime(): (d: int)
      ensures d > 0
    {
      if grantLifetime > 0 then grantLifetime else DEFAULT_GRANT_LIFETIME
    }
  }

  datatype CodeForm = CodeForm(code: string, clientId: string, verifier: string, redirectUri: string, resource: string)

  datatype RefreshForm = RefreshForm(refreshToken: string, clientId: string, resource: string, scope: string)

  /** The secrets and ids a request draws: the refresh token's hash, the access token's id, the grant's id. */
  datatype Draws = Draws(refreshHash: Hash, tokenId: string, grantId: Id)

  datatype Outcome = Issued(token: A.Token) | Refused(error: CheckError)

  const INVALID_REQUEST := Refusal("invalid_request")
  const INVALID_GRANT := Refusal("invalid_grant")
  const INVALID_TARGET := Refusal("invalid_target")
  const INVALID_SCOPE := Refusal("invalid_scope")

  /** Whether a grant's resource is still served and its account still active. */
  function CheckGrant(cfg: Config, grant: Grant, active: bool): Option<CheckError> {
    if FindResource(cfg.resources, grant.resource) == None then Some(INVALID_TARGET)
    else if !active then Some(INVALID_GRANT)
    else None
  }

  function TokenFor(cfg: Config, grant: Grant, scopes: seq<string>, tokenId: string, now: Time): A.Token {
    A.Token(
      cfg.issuer, grant.accountId, grant.resource, grant.clientId, scopes, tokenId,
      now, now + cfg.AccessTokenLifetime(), grant.keyThumbprint)
  }

  /** Whether the code is good for the form that presents it. */
  function CheckCode(sha256: Pkce.Sha256, code: AuthorizationCode, form: CodeForm, now: Time): Option<CheckError> {
    if !(now < code.expiresAt) then Some(INVALID_GRANT)
    else if code.clientId != form.clientId then Some(INVALID_GRANT)
    else if form.redirectUri != "" && code.redirectUri != form.redirectUri then Some(INVALID_GRANT)
    else if !Pkce.ValidVerifier(form.verifier) || !Pkce.MatchesS256(sha256, form.verifier, code.codeChallenge) then
      Some(INVALID_GRANT)
    else if form.resource != "" && form.resource != code.resource then Some(INVALID_TARGET)
    else None
  }

  function GrantOf(code: AuthorizationCode, now: Time): Grant {
    Grant("", code.accountId, code.clientId, code.resource, code.scope, "", now)
  }

  predicate Complete(form: CodeForm) {
    form.code != "" && form.clientId != "" && form.verifier != ""
  }

  /** What a code, taken from the store whatever comes of it, is redeemed for. */
  function Redeem(
    cfg: Config, sha256: Pkce.Sha256, popped: Option<AuthorizationCode>, form: CodeForm, now: Time,
    active: Id -> bool, tokenId: string): Outcome
  {
    if popped == None then Refused(INVALID_GRANT)
    else if CheckCode(sha256, popped.value, form, now).Some? then Refused(CheckCode(sha256, popped.value, form, now).value)
    else
      var grant := GrantOf(popped.value, now);
      var refusal := CheckGrant(cfg, grant, active(grant.accountId));
      var token := TokenFor(cfg, grant, Fields(grant.scope), tokenId, now);
      if refusal.Some? then Refused(refusal.value)
      else if !A.Mintable(token) then Refused(ServerFailure)
      else Issued(token)
  }

  function ScopesRenewed(grant: Grant, form: RefreshForm): seq<string> {
    if Fields(form.scope) == [] then Fields(grant.scope) else Fields(form.scope)
  }

  /** The check a refresh hands to the store, minting included: all that can refuse comes before the spending. */
  function RefreshCheck(cfg: Config, form: RefreshForm, now: Time, active: Id -> bool, tokenId: string): GrantCheck {
    (grant: Grant) =>
      if grant.clientId != form.clientId then Some(INVALID_GRANT)
      else if !(now < grant.createdAt + cfg.GrantLifetime()) then Some(INVALID_GRANT)
      else if form.resource != "" && form.resource != grant.resource then Some(INVALID_TARGET)
      else if !Subset(Fields(form.scope), Fields(grant.scope)) then Some(INVALID_SCOPE)
      else
        var refusal := CheckGrant(cfg, grant, active(grant.accountId));
        if refusal.Some? then refusal
        else if !A.Mintable(TokenFor(cfg, grant, ScopesRenewed(grant, form), tokenId, now)) then Some(ServerFailure)
        else None
  }

  function RotationOf(
    cfg: Config, presented: Hash, successor: Hash, form: RefreshForm, now: Time, active: Id -> bool, tokenId: string)
    : G.Rotation
  {
    G.Rotation(presented, successor, now + cfg.RefreshTokenLifetime(), now, RefreshCheck(cfg, form, now, active, tokenId))
  }

  function OutcomeOf(cfg: Config, answer: G.Answer, form: RefreshForm, now: Time, tokenId: string): Outcome {
    match answer
    case Renewed(grant) => Issued(TokenFor(cfg, grant, ScopesRenewed(grant, form), tokenId, now))
    case NotFound => Refused(INVALID_GRANT)
    case Reused => Refused(INVALID_GRANT)
    case Refused(error) => Refused(error)
  }

  /** A token is for its grant's account, client and resource, and for no scope the grant has not. */
  predicate Serves(token: A.Token, grant: Grant) {
    && token.subject == grant.accountId && token.clientId == grant.clientId && token.audience == grant.resource
    && token.keyThumbprint == grant.keyThumbprint && Subset(token.scopes, Fields(grant.scope))
  }

  /** A resource is served at the URL, or there is no URL and only one resource. */
  ghost predicate Served(resources: seq<Resource>, url: string) {
    if url == "" then |resources| == 1 else exists r :: r in resources && r.url == url
  }

  /** An access token lasts as configured, or fifteen minutes. */
  lemma LifetimesAre(cfg: Config)
    ensures cfg.AccessTokenLifetime() == if cfg.accessTokenLifetime > 0 then cfg.accessTokenLifetime else 15 * 60 * SECOND
    ensures cfg.RefreshTokenLifetime() ==
      if cfg.refreshTokenLifetime > 0 then cfg.refreshTokenLifetime else 30 * 24 * 60 * 60 * SECOND
    ensures cfg.GrantLifetime() == if cfg.grantLifetime > 0 then cfg.grantLifetime else 90 * 24 * 60 * 60 * SECOND
  {
  }

  /** Everything a token must say it can: the issuer, the grant's account, resource and client, an id, and its times. */
  predicate Sayable(cfg: Config, accountId: Id, resource: string, clientId: string, tokenId: string, now: Time) {
    && cfg.issuer != "" && accountId != "" && resource != "" && clientId != "" && tokenId != ""
    && now != A.ZERO_TIME && now + cfg.AccessTokenLifetime() != A.ZERO_TIME
  }

  /** Nothing is asked that was not had. */
  ghost predicate NoneBut(asked: seq<string>, had: seq<string>) {
    forall s :: s in asked ==> s in had
  }

  lemma ServedIsFound(resources: seq<Resource>, url: string)
    ensures FindResource(resources, url) == None <==> !Served(resources, url)
  {
  }

  lemma SayableIsMintable(cfg: Config, grant: Grant, scopes: seq<string>, tokenId: string, now: Time)
    ensures A.Mintable(TokenFor(cfg, grant, scopes, tokenId, now)) <==>
      Sayable(cfg, grant.accountId, grant.resource, grant.clientId, tokenId, now)
  {
  }

  /**
  The code is the form's to redeem: in time, its client's, sent where the form says if it does, and its challenge the
  verifier's.
  */
  predicate Presents(sha256: Pkce.Sha256, code: AuthorizationCode, form: CodeForm, now: Time) {
    && now < code.expiresAt && form.clientId == code.clientId
    && (form.redirectUri != "" ==> form.redirectUri == code.redirectUri)
    && Pkce.ValidVerifier(form.verifier) && Base64Url.Encode(sha256(form.verifier)) == code.codeChallenge
  }

  /** Who may redeem a code, and for what token, exactly. */
  lemma RedeemedExactly(
    cfg: Config, sha256: Pkce.Sha256, code: AuthorizationCode, form: CodeForm, now: Time, active: Id -> bool,
    tokenId: string)
    ensures var outcome := Redeem(cfg, sha256, Some(code), form, now, active, tokenId);
      && (outcome.Issued? <==>
          && now < code.expiresAt && form.clientId == code.clientId
          && (form.redirectUri != "" ==> form.redirectUri == code.redirectUri)
          && Pkce.ValidVerifier(form.verifier) && Base64Url.Encode(sha256(form.verifier)) == code.codeChallenge
          && (form.resource != "" ==> form.resource == code.resource) && Served(cfg.resources, code.resource)
          && active(code.accountId) && Sayable(cfg, code.accountId, code.resource, code.clientId, tokenId, now))
      && (outcome.Issued? ==> outcome.token == A.Token(
          cfg.issuer, code.accountId, code.resource, code.clientId, Fields(code.scope), tokenId, now,
          now + cfg.AccessTokenLifetime(), ""))
  {
    ServedIsFound(cfg.resources, code.resource);
    SayableIsMintable(cfg, GrantOf(code, now), Fields(code.scope), tokenId, now);
  }

  /** What a form that redeems nothing is told: that the grant is invalid, or the target, or that the server failed. */
  lemma UnredeemedIsTold(
    cfg: Config, sha256: Pkce.Sha256, code: AuthorizationCode, form: CodeForm, now: Time, active: Id -> bool,
    tokenId: string)
    ensures var outcome := Redeem(cfg, sha256, Some(code), form, now, active, tokenId);
      var targeted := (form.resource != "" ==> form.resource == code.resource) && Served(cfg.resources, code.resource);
      && (outcome == Refused(Refusal("invalid_grant")) <==>
          !Presents(sha256, code, form, now) || (targeted && !active(code.accountId)))
      && (outcome == Refused(Refusal("invalid_target")) <==> Presents(sha256, code, form, now) && !targeted)
      && (outcome == Refused(ServerFailure) <==>
          && Presents(sha256, code, form, now) && targeted && active(code.accountId)
          && !Sayable(cfg, code.accountId, code.resource, code.clientId, tokenId, now))
    ensures Redeem(cfg, sha256, None, form, now, active, tokenId) == Refused(Refusal("invalid_grant"))
  {
    assert "invalid_grant"[8] != "invalid_target"[8];
    ServedIsFound(cfg.resources, code.resource);
    SayableIsMintable(cfg, GrantOf(code, now), Fields(code.scope), tokenId, now);
  }

  /** Which grants the check lets be renewed, by the form. */
  lemma CheckPassesExactly(cfg: Config, grant: Grant, form: RefreshForm, now: Time, active: Id -> bool, tokenId: string)
    ensures RefreshCheck(cfg, form, now, active, tokenId)(grant) == None <==>
      && form.clientId == grant.clientId && now < grant.createdAt + cfg.GrantLifetime()
      && (form.resource != "" ==> form.resource == grant.resource)
      && NoneBut(Fields(form.scope), Fields(grant.scope))
      && Served(cfg.resources, grant.resource) && active(grant.accountId)
      && Sayable(cfg, grant.accountId, grant.resource, grant.clientId, tokenId, now)
  {
    ServedIsFound(cfg.resources, grant.resource);
    SayableIsMintable(cfg, grant, ScopesRenewed(grant, form), tokenId, now);
    assert Subset(Fields(form.scope), Fields(grant.scope)) <==> NoneBut(Fields(form.scope), Fields(grant.scope));
  }

  /** A refresh renews, and so issues a token, exactly so: by the token's row, its grant and the form. */
  lemma RefreshedExactly(
    cfg: Config, t: G.Tables, presented: Hash, successor: Hash, form: RefreshForm, now: Time, active: Id -> bool,
    tokenId: string)
    ensures var answer := G.Rotate(t, RotationOf(cfg, presented, successor, form, now, active, tokenId)).1;
      var outcome := OutcomeOf(cfg, answer, form, now, tokenId);
      && (outcome.Issued? <==>
          && presented in t.tokens && t.tokens[presented].grantId in t.grants && !t.tokens[presented].used
          && !t.grants[t.tokens[presented].grantId].revoked && now < t.tokens[presented].expiresAt
          && var grant := t.grants[t.tokens[presented].grantId].grant;
            && form.clientId == grant.clientId && now < grant.createdAt + cfg.GrantLifetime()
            && (form.resource != "" ==> form.resource == grant.resource)
            && NoneBut(Fields(form.scope), Fields(grant.scope))
            && Served(cfg.resources, grant.resource) && active(grant.accountId)
            && Sayable(cfg, grant.accountId, grant.resource, grant.clientId, tokenId, now))
      && (outcome.Issued? ==>
          var grant := t.grants[t.tokens[presented].grantId].grant;
          outcome.token == A.Token(
            cfg.issuer, grant.accountId, grant.resource, grant.clientId,
            if Fields(form.scope) == [] then Fields(grant.scope) else Fields(form.scope), tokenId, now,
            now + cfg.AccessTokenLifetime(), grant.keyThumbprint))
  {
    G.RotateRenewsExactly(t, RotationOf(cfg, presented, successor, form, now, active, tokenId));
    if presented in t.tokens && t.tokens[presented].grantId in t.grants {
      CheckPassesExactly(cfg, t.grants[t.tokens[presented].grantId].grant, form, now, active, tokenId);
    }
  }

  /** No code is redeemed whose challenge the authorization endpoint would have refused. */
  lemma RedeemedChallengeIsValid(
    cfg: Config, sha256: Pkce.Sha256, code: AuthorizationCode, form: CodeForm, now: Time,
    active: Id -> bool, tokenId: string)
    requires Redeem(cfg, sha256, Some(code), form, now, active, tokenId).Issued?
    ensures Pkce.ValidChallenge(code.codeChallenge) && now < code.expiresAt && active(code.accountId)
    ensures Serves(Redeem(cfg, sha256, Some(code), form, now, active, tokenId).token, GrantOf(code, now))
  {
    Pkce.MatchedChallengeIsValid(sha256, form.verifier, code.codeChallenge);
  }

  /** What the check mints for a grant it lets be renewed serves that grant. */
  lemma CheckedTokenServes(cfg: Config, grant: Grant, form: RefreshForm, now: Time, active: Id -> bool, tokenId: string)
    requires RefreshCheck(cfg, form, now, active, tokenId)(grant) == None
    ensures var token := TokenFor(cfg, grant, ScopesRenewed(grant, form), tokenId, now);
      && Serves(token, grant) && A.Mintable(token) && (forall s :: s in token.scopes ==> IsScope(s))
      && grant.clientId == form.clientId && now < grant.createdAt + cfg.GrantLifetime() && active(grant.accountId)
  {
  }

  /**
  A refresh issues a token exactly when the rotation renews, the token serves the grant renewed,
  and a grant is renewed for its own client, while it lasts, and for an account active at the time.
  */
  lemma RefreshServesItsGrant(
    cfg: Config, t: G.Tables, presented: Hash, successor: Hash, form: RefreshForm, now: Time,
    active: Id -> bool, tokenId: string)
    ensures var answer := G.Rotate(t, RotationOf(cfg, presented, successor, form, now, active, tokenId)).1;
      var outcome := OutcomeOf(cfg, answer, form, now, tokenId);
      && (outcome.Issued? <==> answer.Renewed?)
      && (outcome.Issued? ==>
        && Serves(outcome.token, answer.grant) && A.Mintable(outcome.token)
        && (forall s :: s in outcome.token.scopes ==> IsScope(s))
        && answer.grant.clientId == form.clientId
        && now < answer.grant.createdAt + cfg.GrantLifetime()
        && active(answer.grant.accountId))
  {
  }

  method RedeemCode(
    cfg: Config, sha256: Pkce.Sha256, hashSecret: string -> Hash, store: MemoryStore.Store, form: CodeForm,
    now: Time, draws: Draws)
    returns (outcome: Outcome)
    modifies store
    ensures !Complete(form) ==> outcome == Refused(INVALID_REQUEST) && store.View() == old(store.View())
    ensures Complete(form) ==>
      var hash := hashSecret(form.code);
      var popped := if hash in old(store.codes) then Some(old(store.codes)[hash]) else None;
      var before := old(store.View()).(codes := old(store.codes) - {hash});
      && outcome == Redeem(cfg, sha256, popped, form, now, id => Active(before, id), draws.tokenId)
      && store.View() ==
        if outcome.Issued? then
          before.(tables := G.Record(
            before.tables, draws.grantId, GrantOf(popped.value, now), draws.refreshHash, now + cfg.RefreshTokenLifetime()))
        else before
  {
    if !Complete(form) {
      return Refused(INVALID_REQUEST);
    }
    var popped := store.PopAuthorizationCode(hashSecret(form.code));
    ghost var before := store.View();
    if popped == None {
      return Refused(INVALID_GRANT);
    }
    var refusal := CheckCode(sha256, popped.value, form, now);
    if refusal.Some? {
      return Refused(refusal.value);
    }
    var grant := GrantOf(popped.value, now);
    var active := store.AccountActive(grant.accountId);
    assert active == Active(before, grant.accountId);
    refusal := CheckGrant(cfg, grant, active);
    if refusal.Some? {
      return Refused(refusal.value);
    }
    var token := TokenFor(cfg, grant, Fields(grant.scope), draws.tokenId, now);
    if !A.Mintable(token) {
      return Refused(ServerFailure);
    }
    var _ := store.InsertGrant(grant, draws.refreshHash, now + cfg.RefreshTokenLifetime(), draws.grantId);
    outcome := Issued(token);
  }

  method Refresh(
    cfg: Config, hashSecret: string -> Hash, store: MemoryStore.Store, form: RefreshForm, now: Time, draws: Draws)
    returns (outcome: Outcome)
    modifies store
    ensures form.refreshToken == "" || form.clientId == "" ==>
      outcome == Refused(INVALID_REQUEST) && store.View() == old(store.View())
    ensures form.refreshToken != "" && form.clientId != "" ==>
      var before := old(store.View());
      var r := RotationOf(
        cfg, hashSecret(form.refreshToken), draws.refreshHash, form, now, id => Active(before, id), draws.tokenId);
      && store.View() == before.(tables := G.Rotate(before.tables, r).0)
      && outcome == OutcomeOf(cfg, G.Rotate(before.tables, r).1, form, now, draws.tokenId)
  {
    if form.refreshToken == "" || form.clientId == "" {
      return Refused(INVALID_REQUEST);
    }
    var accounts, locked := store.accounts, store.lockedAccounts;
    var isActive := id => id in accounts && id !in locked;
    ghost var before := store.View();
    assert forall id :: isActive(id) == Active(before, id);
    var r := RotationOf(
      cfg, hashSecret(form.refreshToken), draws.refreshHash, form, now, isActive, draws.tokenId);
    var answer := store.RotateRefreshToken(r);
    SameCheck(
      cfg, before.tables, hashSecret(form.refreshToken), draws.refreshHash, form, now, isActive,
      id => Active(before, id), draws.tokenId);
    outcome := OutcomeOf(cfg, answer, form, now, draws.tokenId);
  }

  lemma SameCheckOf(
    cfg: Config, grant: Grant, form: RefreshForm, now: Time, f: Id -> bool, g: Id -> bool, tokenId: string)
    requires f(grant.accountId) == g(grant.accountId)
    ensures RefreshCheck(cfg, form, now, f, tokenId)(grant) == RefreshCheck(cfg, form, now, g, tokenId)(grant)
  {
  }

  lemma SameCheck(
    cfg: Config, t: G.Tables, presented: Hash, successor: Hash, form: RefreshForm, now: Time,
    f: Id -> bool, g: Id -> bool, tokenId: string)
    requires forall id :: f(id) == g(id)
    ensures G.Rotate(t, RotationOf(cfg, presented, successor, form, now, f, tokenId)) ==
      G.Rotate(t, RotationOf(cfg, presented, successor, form, now, g, tokenId))
  {
    var look := G.Look(t, presented, now);
    if look.Spendable? {
      SameCheckOf(cfg, look.grant, form, now, f, g, tokenId);
    }
  }
}

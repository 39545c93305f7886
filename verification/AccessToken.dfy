/** Access tokens as the claims they carry (RFC 9068's shape), written and read back. */
module AccessToken {
  import opened Wrappers
  import opened Oauth
  import opened Scopes

  datatype Token = Token(
    issuer: string, subject: Id, audience: string, clientId: string, scopes: seq<string>, id: string,
    issuedAt: Time, expiresAt: Time, keyThumbprint: string)

  datatype Claim = Text(text: string) | Texts(texts: seq<string>) | Number(number: int) | Members(members: map<string, string>)

  type Payload = map<string, Claim>

  /** The first instant of year one, which is a time never set. */
  const ZERO_TIME: Time := -62135596800 * SECOND

  predicate Mintable(t: Token) {
    && t.issuer != "" && t.subject != "" && t.audience != "" && t.clientId != "" && t.id != ""
    && t.issuedAt != ZERO_TIME && t.expiresAt != ZERO_TIME
  }

  function ClaimsOf(t: Token): Payload {
    var claims := map[
      "iss" := Text(t.issuer), "sub" := Text(t.subject), "aud" := Text(t.audience), "client_id" := Text(t.clientId),
      "jti" := Text(t.id), "iat" := Number(t.issuedAt / SECOND), "exp" := Number(t.expiresAt / SECOND)];
    var scoped := if t.scopes == [] then claims else claims["scope" := Text(Join(t.scopes))];
    if t.keyThumbprint == "" then scoped else scoped["cnf" := Members(map["jkt" := t.keyThumbprint])]
  }

  method Mint(token: Token) returns (payload: Option<Payload>)
    ensures payload == if Mintable(token) then Some(ClaimsOf(token)) else None
  {
    if !Mintable(token) {
      return None;
    }
    var claims: Payload := map[
      "iss" := Text(token.issuer), "sub" := Text(token.subject), "aud" := Text(token.audience),
      "client_id" := Text(token.clientId), "jti" := Text(token.id),
      "iat" := Number(token.issuedAt / SECOND), "exp" := Number(token.expiresAt / SECOND)];
    if |token.scopes| != 0 {
      claims := claims["scope" := Text(Join(token.scopes))];
    }
    if token.keyThumbprint != "" {
      claims := claims["cnf" := Members(map["jkt" := token.keyThumbprint])];
    }
    payload := Some(claims);
  }

  function TextOf(p: Payload, name: string): string {
    if name in p && p[name].Text? then p[name].text else ""
  }

  function TimeOf(p: Payload, name: string): Time {
    if name in p && p[name].Number? then p[name].number * SECOND else ZERO_TIME
  }

  function AudienceOf(p: Payload): string {
    if "aud" !in p then ""
    else
      match p["aud"]
      case Text(text) => text
      case Texts(texts) => if |texts| == 1 then texts[0] else ""
      case _ => ""
  }

  /** The token of a verified payload, unless it names no subject or no one audience. */
  function FromPayload(p: Payload): Option<Token> {
    var scope := TextOf(p, "scope");
    var cnf := if "cnf" in p && p["cnf"].Members? then p["cnf"].members else map[];
    var token := Token(
      TextOf(p, "iss"), TextOf(p, "sub"), AudienceOf(p), TextOf(p, "client_id"),
      if scope == "" then [] else Fields(scope), TextOf(p, "jti"), TimeOf(p, "iat"), TimeOf(p, "exp"),
      if "jkt" in cnf then cnf["jkt"] else "");
    if token.subject == "" || token.audience == "" then None else Some(token)
  }

  /** The claims are a token's, one by one. */
  ghost predicate ClaimsHold(t: Token, p: Payload) {
    && TextOf(p, "iss") == t.issuer && TextOf(p, "sub") == t.subject && AudienceOf(p) == t.audience
    && TextOf(p, "client_id") == t.clientId && TextOf(p, "jti") == t.id
    && TimeOf(p, "iat") == WholeSeconds(t.issuedAt) && TimeOf(p, "exp") == WholeSeconds(t.expiresAt)
    && TextOf(p, "scope") == (if t.scopes == [] then "" else Join(t.scopes))
    && if t.keyThumbprint == "" then "cnf" !in p else "cnf" in p && p["cnf"] == Members(map["jkt" := t.keyThumbprint])
  }

  lemma ClaimsOfHold(t: Token)
    ensures ClaimsHold(t, ClaimsOf(t))
  {
  }

  /** The claims by their names, and no others: times in whole seconds, and a scope or a key only where there is one. */
  lemma ClaimsAre(t: Token)
    ensures var p := ClaimsOf(t);
      && p.Keys == {"iss", "sub", "aud", "client_id", "jti", "iat", "exp"}
        + (if t.scopes == [] then {} else {"scope"}) + (if t.keyThumbprint == "" then {} else {"cnf"})
      && p["iss"] == Text(t.issuer) && p["sub"] == Text(t.subject) && p["aud"] == Text(t.audience)
      && p["client_id"] == Text(t.clientId) && p["jti"] == Text(t.id)
      && p["iat"].Number? && p["iat"].number * SECOND <= t.issuedAt < (p["iat"].number + 1) * SECOND
      && p["exp"].Number? && p["exp"].number * SECOND <= t.expiresAt < (p["exp"].number + 1) * SECOND
      && (t.scopes != [] ==> p["scope"] == Text(Join(t.scopes)))
      && (t.keyThumbprint != "" ==> p["cnf"] == Members(map["jkt" := t.keyThumbprint]))
  {
  }

  /** What is read back of a token's claims: all of it as it was but its times, and its scopes split again. */
  lemma ReadBack(t: Token, p: Payload)
    requires Mintable(t) && ClaimsHold(t, p)
    ensures FromPayload(p) == Some(t.(
      scopes := Fields(Join(t.scopes)), issuedAt := WholeSeconds(t.issuedAt), expiresAt := WholeSeconds(t.expiresAt)))
  {
    assert Fields("") == [];
  }

  /**
  Reading back what was minted gives the token with its times cut to whole seconds, exactly when
  every scope is a single one: a scope with a space in it would come back as several.
  */
  lemma MintRoundTrip(t: Token)
    requires Mintable(t)
    ensures
      FromPayload(ClaimsOf(t)) ==
      Some(t.(issuedAt := WholeSeconds(t.issuedAt), expiresAt := WholeSeconds(t.expiresAt)))
      <==> forall s :: s in t.scopes ==> IsScope(s)
  {
    ClaimsOfHold(t);
    ReadBack(t, ClaimsOf(t));
    SplitJoinRoundTrip(t.scopes);
  }
}

/** The authorization endpoint: what it takes for a request to be held for the user's consent. */
module AuthorizeEndpoint {
  import opened Wrappers
  import opened Oauth
  import opened Scopes
  import opened Clients
  import MemoryStore
  import Pkce

  const REQUEST_LIFETIME := 5 * MINUTE
  const METHOD_S256 := "S256"

  datatype Input = Input(
    responseType: string, redirectUri: string, state: string, codeChallenge: string,
    codeChallengeMethod: string, scope: string, resource: string)

  datatype Refusal = RedirectNotRegistered | UnsupportedResponseType | InvalidRequest | InvalidTarget | InvalidScope

  function ScopesAsked(resource: Resource, scope: string): seq<string> {
    if Fields(scope) == [] then resource.scopes else Fields(scope)
  }

  /** The request the endpoint would hold for the resolved client and the signed-in account. */
  function RequestOf(
    resources: seq<Resource>, parse: Parser, client: Client, input: Input, subject: Id, now: Time)
    : Result<AuthorizationRequest, Refusal>
  {
    if !AllowsRedirectUri(parse, client, input.redirectUri) then Failure(RedirectNotRegistered)
    else if input.responseType != "code" then Failure(UnsupportedResponseType)
    else if input.codeChallengeMethod != METHOD_S256 || !Pkce.ValidChallenge(input.codeChallenge) then
      Failure(InvalidRequest)
    else
      var resource := FindResource(resources, input.resource);
      if resource == None then Failure(InvalidTarget)
      else
        var scopes := ScopesAsked(resource.value, input.scope);
        if !AllowsScopes(resource.value, scopes) then Failure(InvalidScope)
        else
          Success(AuthorizationRequest(
            subject, client.id, client.name, input.redirectUri, input.state, input.codeChallenge,
            resource.value.url, Join(scopes), now + REQUEST_LIFETIME))
  }

  /** The client may be answered there, and asks for a code by a challenge that can be one. */
  ghost predicate AsksForACode(parse: Parser, client: Client, input: Input) {
    && AllowsRedirectUri(parse, client, input.redirectUri)
    && input.responseType == "code" && input.codeChallengeMethod == "S256" && Pkce.ValidChallenge(input.codeChallenge)
  }

  /**
  Exactly which requests are held, and all that is: for the client and the account, where the client is to be answered and
  with the state it gave, for five minutes, and for the resource named with the scopes asked for, or all it has.
  */
  lemma HeldExactly(
    resources: seq<Resource>, parse: Parser, client: Client, input: Input, subject: Id, now: Time, r: Resource)
    requires Named(resources, input.resource, r)
    ensures var held, words := RequestOf(resources, parse, client, input, subject, now), Fields(input.scope);
      && (held.Success? <==> AsksForACode(parse, client, input) && forall w :: w in words ==> w in r.scopes)
      && (held.Success? ==> held.value == AuthorizationRequest(
          subject, client.id, client.name, input.redirectUri, input.state, input.codeChallenge, r.url,
          if words == [] then Join(r.scopes) else Join(words), now + 5 * 60 * SECOND))
  {
    FoundExactly(resources, input.resource, r);
  }

  /** Which refusal a request meets: of its address, its response type, its challenge, its resource or its scope. */
  lemma UnheldIsTold(resources: seq<Resource>, parse: Parser, client: Client, input: Input, subject: Id, now: Time)
    ensures var held := RequestOf(resources, parse, client, input, subject, now);
      var answerable, asks := AllowsRedirectUri(parse, client, input.redirectUri), AsksForACode(parse, client, input);
      var named := exists r :: Named(resources, input.resource, r);
      && (held == Failure(RedirectNotRegistered) <==> !answerable)
      && (held == Failure(UnsupportedResponseType) <==> answerable && input.responseType != "code")
      && (held == Failure(InvalidRequest) <==> answerable && input.responseType == "code" && !asks)
      && (held == Failure(InvalidTarget) <==> asks && !named)
      && (held == Failure(InvalidScope) <==>
          asks && named && forall r :: Named(resources, input.resource, r) ==> !Subset(Fields(input.scope), r.scopes))
  {
    forall r ensures Named(resources, input.resource, r) <==> FindResource(resources, input.resource) == Some(r) {
      FoundExactly(resources, input.resource, r);
    }
    var found := FindResource(resources, input.resource);
    if found.Some? {
      assert Named(resources, input.resource, found.value);
    }
  }

  /** What consent to a request can be for: one configured resource, and no scope that is not the resource's. */
  ghost predicate WithinResource(resources: seq<Resource>, resource: string, scope: string) {
    exists r :: r in resources && r.url == resource && Subset(Fields(scope), r.scopes)
  }

  /** The same, but for words of the resource's scopes where those are more than one each. */
  ghost predicate WithinWords(resources: seq<Resource>, resource: string, scope: string) {
    exists r :: r in resources && r.url == resource && Subset(Fields(scope), FieldsOfAll(r.scopes))
  }

  ghost predicate ClosedScopes(resources: seq<Resource>) {
    forall r :: r in resources ==> ClosedUnderSplitting(r.scopes)
  }

  /** With scopes configured that splitting leaves inside their resource, words are within it too. */
  lemma WithinOnceClosed(resources: seq<Resource>, resource: string, scope: string)
    requires ClosedScopes(resources) && WithinWords(resources, resource, scope)
    ensures WithinResource(resources, resource, scope)
  {
    var r :| r in resources && r.url == resource && Subset(Fields(scope), FieldsOfAll(r.scopes));
    SplitJoinStaysInside(r.scopes);
    FieldsOfJoin(r.scopes);
  }

  /** Scopes configured as one word each are closed under splitting. */
  lemma OneWordScopesAreClosed(resources: seq<Resource>)
    requires forall r, s :: r in resources && s in r.scopes ==> IsScope(s)
    ensures ClosedScopes(resources)
  {
    forall r | r in resources ensures ClosedUnderSplitting(r.scopes) {
      ScopesAreClosed(r.scopes);
    }
  }

  lemma AskedScopesAreWords(resource: Resource, scope: string)
    requires AllowsScopes(resource, ScopesAsked(resource, scope))
    ensures Subset(Fields(Join(ScopesAsked(resource, scope))), FieldsOfAll(resource.scopes))
    ensures Fields(scope) != [] ==> Fields(Join(ScopesAsked(resource, scope))) == Fields(scope)
  {
    if Fields(scope) == [] {
      FieldsOfJoin(resource.scopes);
    } else {
      SplitJoinRoundTrip(Fields(scope));
      forall f | f in Fields(scope) ensures f in FieldsOfAll(resource.scopes) {
        FieldsOfScope(f);
        InFieldsOfAll(resource.scopes, f);
      }
    }
  }

  /** Every held request is within one resource: word for word always, and scope for scope where scopes are closed. */
  lemma HeldRequestIsWithinResource(
    resources: seq<Resource>, parse: Parser, client: Client, input: Input, subject: Id, now: Time)
    requires RequestOf(resources, parse, client, input, subject, now).Success?
    ensures var held := RequestOf(resources, parse, client, input, subject, now).value;
      && WithinWords(resources, held.resource, held.scope)
      && (ClosedScopes(resources) ==> WithinResource(resources, held.resource, held.scope))
      && Pkce.ValidChallenge(held.codeChallenge)
      && held.accountId == subject && held.clientId == client.id
      && (Fields(input.scope) != [] ==> Fields(held.scope) == Fields(input.scope))
  {
    var held := RequestOf(resources, parse, client, input, subject, now).value;
    AskedScopesAreWords(FindResource(resources, input.resource).value, input.scope);
    if ClosedScopes(resources) {
      WithinOnceClosed(resources, held.resource, held.scope);
    }
  }

  /**
  A held request that named no scope stays within its resource exactly when the resource's scopes are closed under
  splitting.
  */
  lemma DefaultedScopeIsWithinResource(
    resources: seq<Resource>, parse: Parser, client: Client, input: Input, subject: Id, now: Time)
    requires RequestOf(resources, parse, client, input, subject, now).Success? && Fields(input.scope) == []
    ensures var r := FindResource(resources, input.resource).value;
      Subset(Fields(RequestOf(resources, parse, client, input, subject, now).value.scope), r.scopes)
      <==> ClosedUnderSplitting(r.scopes)
  {
    SplitJoinStaysInside(FindResource(resources, input.resource).value.scopes);
  }

  /** A resource configured with the scope "a b" has its users consent to "a" and "b", which it has not. */
  lemma ConfiguredSpaceEscapes()
    ensures var r := Resource("https://r", "r", ["a b"]);
      !WithinResource([r], r.url, Join(ScopesAsked(r, "")))
  {
    var r := Resource("https://r", "r", ["a b"]);
    FieldsSplitAtSpace("a", "b");
    FieldsOfScope("a");
    assert "a b" == "a" + " " + "b";
    assert Fields("a b")[0] == "a";
    assert "a" !in r.scopes;
    assert Join(ScopesAsked(r, "")) == "a b";
  }

  method Handle(
    resources: seq<Resource>, parse: Parser, store: MemoryStore.Store, client: Client, input: Input,
    subject: Id, now: Time, newId: Id)
    returns (held: Result<Id, Refusal>)
    modifies store
    ensures var request := RequestOf(resources, parse, client, input, subject, now);
      if request.Success? then
        held == Success(newId)
        && store.View() == old(store.View()).(requests := old(store.requests)[newId := request.value])
      else
        held == Failure(request.error) && store.View() == old(store.View())
  {
    var redirectAllowed := CheckRedirectUri(parse, client, input.redirectUri);
    if !redirectAllowed {
      return Failure(RedirectNotRegistered);
    }
    if input.responseType != "code" {
      return Failure(UnsupportedResponseType);
    }
    if input.codeChallengeMethod != METHOD_S256 || !Pkce.ValidChallenge(input.codeChallenge) {
      return Failure(InvalidRequest);
    }
    var resource := FindResource(resources, input.resource);
    if resource == None {
      return Failure(InvalidTarget);
    }
    var scopes := Fields(input.scope);
    if |scopes| == 0 {
      scopes := resource.value.scopes;
    }
    if !AllowsScopes(resource.value, scopes) {
      return Failure(InvalidScope);
    }
    var id := store.InsertAuthorizationRequest(
      AuthorizationRequest(
        subject, client.id, client.name, input.redirectUri, input.state, input.codeChallenge,
        resource.value.url, Join(scopes), now + REQUEST_LIFETIME),
      newId);
    held := Success(id);
  }
}

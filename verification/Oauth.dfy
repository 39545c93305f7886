/**
The records of the OAuth authorization server and what it is configured with. Times are
instants on one clock, and strings are sequences of characters.
*/
module Oauth {
  import opened Wrappers
  import Scopes

  type Time = int
  type Id = string
  type Hash = string

  // Durations, in nanoseconds as the clock is.
  const SECOND := 1_000_000_000
  const MINUTE := 60 * SECOND
  const DAY := 24 * 60 * MINUTE

  /** The instant cut to whole seconds, as a time is when a token says it. */
  function WholeSeconds(t: Time): (r: Time)
    ensures r % SECOND == 0 && r <= t < r + SECOND
  {
    t / SECOND * SECOND
  }

  datatype Resource = Resource(url: string, name: string, scopes: seq<string>)

  datatype Client = Client(id: string, name: string, redirectUris: seq<string>, selfRegistered: bool)

  datatype AuthorizationRequest = AuthorizationRequest(
    accountId: Id, clientId: string, clientName: string, redirectUri: string, state: string,
    codeChallenge: string, resource: string, scope: string, expiresAt: Time)

  datatype AuthorizationCode = AuthorizationCode(
    accountId: Id, clientId: string, redirectUri: string, codeChallenge: string,
    resource: string, scope: string, expiresAt: Time)

  datatype Grant = Grant(
    id: Id, accountId: Id, clientId: string, resource: string, scope: string,
    keyThumbprint: string, createdAt: Time)

  /** What a grant check answers when it will not have the grant renewed. */
  datatype CheckError = Refusal(code: string) | ServerFailure

  /** `None` lets the grant be renewed. */
  type GrantCheck = Grant -> Option<CheckError>

  function FindUrl(resources: seq<Resource>, url: string): (r: Option<Resource>)
    ensures r.Some? ==> r.value in resources && r.value.url == url
    ensures r.None? <==> forall x :: x in resources ==> x.url != url
  {
    if resources == [] then None
    else if resources[0].url == url then Some(resources[0])
    else FindUrl(resources[1..], url)
  }

  /**
  The resource a request names, or the only one there is where it names none: never one of
  several, which would be guessing.
  */
  function FindResource(resources: seq<Resource>, url: string): (r: Option<Resource>)
    ensures r.Some? ==> r.value in resources && (r.value.url == url || (url == "" && |resources| == 1))
    ensures r.None? <==>
      if url == "" then |resources| != 1 else forall x :: x in resources ==> x.url != url
  {
    if url == "" then
      if |resources| == 1 then Some(resources[0]) else None
    else
      FindUrl(resources, url)
  }

  /** The resource is the first at the URL, or the only one there is where there is no URL. */
  ghost predicate Named(resources: seq<Resource>, url: string, r: Resource) {
    if url == "" then resources == [r]
    else exists i :: 0 <= i < |resources| && resources[i] == r && FirstAt(resources, url, i)
  }

  ghost predicate FirstAt(resources: seq<Resource>, url: string, i: nat)
    requires i < |resources|
  {
    resources[i].url == url && forall j :: 0 <= j < i ==> resources[j].url != url
  }

  lemma {:induction false} FoundUrlIsFirst(resources: seq<Resource>, url: string, i: nat)
    requires i < |resources| && FirstAt(resources, url, i)
    ensures FindUrl(resources, url) == Some(resources[i])
  {
    if i > 0 {
      assert resources[0].url != url;
      FoundUrlIsFirst(resources[1..], url, i - 1);
    }
  }

  lemma {:induction false} FirstOf(resources: seq<Resource>, url: string) returns (i: nat)
    requires exists r :: r in resources && r.url == url
    ensures i < |resources| && FirstAt(resources, url, i)
  {
    i := 0;
    if resources[0].url != url {
      assert resources == [resources[0]] + resources[1..];
      var k := FirstOf(resources[1..], url);
      i := k + 1;
    }
  }

  /** What is found for a URL is the resource it names, and nothing exactly where it names none. */
  lemma FoundExactly(resources: seq<Resource>, url: string, r: Resource)
    ensures FindResource(resources, url) == Some(r) <==> Named(resources, url, r)
  {
    if url != "" && FindUrl(resources, url).Some? {
      var i := FirstOf(resources, url);
      FoundUrlIsFirst(resources, url, i);
    }
    if url != "" && Named(resources, url, r) {
      var i :| 0 <= i < |resources| && resources[i] == r && FirstAt(resources, url, i);
      FoundUrlIsFirst(resources, url, i);
    }
  }

  predicate AllowsScopes(r: Resource, scopes: seq<string>) {
    Scopes.Subset(scopes, r.scopes)
  }
}

/** OAuth clients, and where they may be sent back to. */
module Clients {
  import opened Wrappers
  import opened Oauth

  /** A parsed URL, its parts as Go has them: the path also as it came, escaped. */
  datatype Url = Url(
    scheme: string, host: string, hostname: string, hasUser: bool, rawQuery: string, fragment: string,
    opaque_: string, path: string, escapedPath: string)

  type Parser = string -> Option<Url>

  /** An http URL on the user's own machine. */
  predicate IsLoopback(u: Url) {
    u.scheme == "http" && !u.hasUser && (u.hostname == "localhost" || u.hostname == "127.0.0.1")
  }

  predicate ParsesToLoopback(parse: Parser, uri: string) {
    parse(uri).Some? && IsLoopback(parse(uri).value)
  }

  predicate SamePath(candidate: Url, registered: Url) {
    && candidate.hostname == registered.hostname && candidate.path == registered.path
    && candidate.rawQuery == registered.rawQuery && candidate.fragment == ""
  }

  /** The two are addresses on the user's machine, the same but for their ports. */
  predicate SameButPort(parse: Parser, uri: string, registered: string) {
    && ParsesToLoopback(parse, uri) && ParsesToLoopback(parse, registered)
    && SamePath(parse(uri).value, parse(registered).value)
  }

  /** Whether the client may be sent back to the address: one it has, or one on the user's machine at another port. */
  predicate AllowsRedirectUri(parse: Parser, client: Client, uri: string) {
    uri != "" && (uri in client.redirectUris || exists r :: r in client.redirectUris && SameButPort(parse, uri, r))
  }

  method CheckRedirectUri(parse: Parser, client: Client, uri: string) returns (allowed: bool)
    ensures allowed == AllowsRedirectUri(parse, client, uri)
  {
    if uri == "" {
      return false;
    }
    if uri in client.redirectUris {
      return true;
    }
    var candidate := parse(uri);
    if candidate == None || !IsLoopback(candidate.value) {
      return false;
    }
    for i := 0 to |client.redirectUris|
      invariant forall j :: 0 <= j < i ==> !SameButPort(parse, uri, client.redirectUris[j])
    {
      var registered := parse(client.redirectUris[i]);
      if registered.Some? && IsLoopback(registered.value) && SamePath(candidate.value, registered.value) {
        assert SameButPort(parse, uri, client.redirectUris[i]);
        return true;
      }
    }
    allowed := false;
  }

  /** An address that is not on the user's machine is allowed exactly where it is registered, character for character. */
  lemma AllowedExactlyWhereRegistered(parse: Parser, client: Client, uri: string)
    requires forall u :: parse(uri) == Some(u) ==>
      u.scheme != "http" || u.hasUser || u.hostname !in {"localhost", "127.0.0.1"}
    ensures AllowsRedirectUri(parse, client, uri) <==> uri != "" && uri in client.redirectUris
  {
  }

  /** The registered address is on the user's machine too, with the host name, path and query of the URL. */
  ghost predicate SamePlace(parse: Parser, registered: string, u: Url) {
    && parse(registered).Some?
    && var v := parse(registered).value;
      && v.scheme == "http" && !v.hasUser
      && v.hostname == u.hostname && v.path == u.path && v.rawQuery == u.rawQuery
  }

  /**
  An address on the user's machine is allowed exactly where it, or another there on the same host name, path and query, is
  registered: whatever the ports of the two (section 7.3 of RFC 8252).
  */
  lemma AllowedAtAnyPort(parse: Parser, client: Client, uri: string, u: Url)
    requires parse(uri) == Some(u) && uri != ""
    requires u.scheme == "http" && !u.hasUser && u.hostname in {"localhost", "127.0.0.1"} && u.fragment == ""
    ensures AllowsRedirectUri(parse, client, uri) <==> exists r :: r in client.redirectUris && SamePlace(parse, r, u)
  {
    assert uri in client.redirectUris ==> parse(uri).Some?;
  }

  /** A client with fewer addresses may be sent to no more places. */
  lemma FewerAllowFewer(parse: Parser, client: Client, other: Client, uri: string)
    requires forall r :: r in client.redirectUris ==> r in other.redirectUris
    requires AllowsRedirectUri(parse, client, uri)
    ensures AllowsRedirectUri(parse, other, uri)
  {
  }
}

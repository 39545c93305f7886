/**
Dynamic client registration (RFC 7591) by a server that remembers no client: the registration itself is
in the id the client is given, under the server's signature.
*/
module ClientRegistrar {
  import opened Wrappers
  import opened Oauth
  import opened Base64Url
  import opened Clients
  import opened Strings
  import Scopes

  const ID_PREFIX := "dcr."
  const MIN_KEY_LENGTH := 32
  const MAX_REDIRECT_URIS := 10
  const MAX_REDIRECT_URI_LENGTH := 512
  const MAX_CLIENT_NAME_LENGTH := 100
  const UNNAMED := "An unnamed application"

  datatype Registration = Registration(name: string, redirectUris: seq<string>, issuedAt: Time)

  /** What is taken as given: URL parsing, JSON, and HMAC-SHA-256 by a key. */
  datatype Primitives = Primitives(
    parse: Parser, marshal: Registration -> seq<Byte>, unmarshal: seq<Byte> -> Option<Registration>,
    mac: (seq<Byte>, string) -> seq<Byte>)

  /** What JSON writes it reads back. */
  ghost predicate JsonRoundTrips(p: Primitives) {
    forall r :: p.unmarshal(p.marshal(r)) == Some(r)
  }

  datatype RedirectRule = RedirectRule(host: string, pathPrefix: string)

  datatype Registrar = Registrar(key: seq<Byte>, allowLoopback: bool, rules: seq<RedirectRule>)

  datatype NewError = KeyTooShort | BadRule

  datatype Metadata = Metadata(
    redirectUris: seq<string>, clientName: string, authMethod: string, grantTypes: seq<string>,
    responseTypes: seq<string>)

  datatype Refusal = InvalidMetadata | InvalidRedirectUri

  datatype Registered = Registered(client: Client, issuedAt: Time)

  // --- Redirect addresses ---

  /** One path segment after the prefix, on the host exactly, over https, and nothing else. */
  predicate Matches(rule: RedirectRule, u: Url) {
    && u.scheme == "https" && u.host == rule.host && !u.hasUser && u.rawQuery == "" && u.fragment == "" && u.opaque_ == ""
    && var rest := CutPrefix(u.escapedPath, rule.pathPrefix);
      && rest.Some? && rest.value != "" && rest.value != "." && rest.value != ".."
      && forall i :: 0 <= i < |rest.value| ==> rest.value[i] !in "/?#%"
  }

  predicate AllowsRedirect(p: Primitives, r: Registrar, raw: string) {
    && ByteLength(raw) <= MAX_REDIRECT_URI_LENGTH
    && p.parse(raw).Some?
    && var u := p.parse(raw).value;
      && u.fragment == ""
      && if IsLoopback(u) then r.allowLoopback && u.rawQuery == "" && u.opaque_ == ""
        else exists rule :: rule in r.rules && Matches(rule, u)
  }

  /** Which characters a path segment after a rule's prefix may not have, by their codes. */
  ghost predicate EndsSegment(c: char) {
    c as int in {0x23, 0x25, 0x2F, 0x3F}
  }

  /** The address is the rule's: its scheme, host and path, one segment on, and nothing else. */
  ghost predicate OnRule(rule: RedirectRule, u: Url, segment: string) {
    && u.scheme == "https" && u.host == rule.host && u.escapedPath == rule.pathPrefix + segment
    && segment !in {"", ".", ".."} && (forall i :: 0 <= i < |segment| ==> !EndsSegment(segment[i]))
    && !u.hasUser && u.rawQuery == "" && u.fragment == "" && u.opaque_ == ""
  }

  /** Which addresses may be registered: short ones, on the user's machine where that is let, or else by some rule. */
  lemma AllowsRedirectExactly(p: Primitives, r: Registrar, raw: string)
    ensures AllowsRedirect(p, r, raw) <==>
      && ByteLength(raw) <= 512 && p.parse(raw).Some?
      && var u := p.parse(raw).value;
        if u.scheme == "http" && !u.hasUser && u.hostname in {"localhost", "127.0.0.1"} then
          r.allowLoopback && u.rawQuery == "" && u.fragment == "" && u.opaque_ == ""
        else
          exists rule, segment :: rule in r.rules && OnRule(rule, u, segment)
  {
    if p.parse(raw).Some? {
      var u := p.parse(raw).value;
      forall rule | rule in r.rules ensures Matches(rule, u) <==> exists segment :: OnRule(rule, u, segment) {
        MatchesExactly(rule, u);
      }
    }
  }

  lemma MatchesExactly(rule: RedirectRule, u: Url)
    ensures Matches(rule, u) <==> exists segment :: OnRule(rule, u, segment)
  {
    if Matches(rule, u) {
      var segment := CutPrefix(u.escapedPath, rule.pathPrefix).value;
      assert OnRule(rule, u, segment);
    }
    if segment :| OnRule(rule, u, segment) {
      assert CutPrefix(u.escapedPath, rule.pathPrefix).value == segment;
    }
  }

  /** The addresses still allowed, in their order. */
  function Allowed(p: Primitives, r: Registrar, uris: seq<string>): (allowed: seq<string>)
    ensures forall u :: u in allowed <==> u in uris && AllowsRedirect(p, r, u)
    ensures (forall u :: u in uris ==> AllowsRedirect(p, r, u)) ==> allowed == uris
  {
    if uris == [] then []
    else
      var before, last := Allowed(p, r, uris[..|uris| - 1]), uris[|uris| - 1];
      assert uris == uris[..|uris| - 1] + [last];
      if AllowsRedirect(p, r, last) then before + [last] else before
  }

  /** `allowed` is `uris` with some left out and none moved. */
  ghost predicate IsSubsequence(allowed: seq<string>, uris: seq<string>)
    decreases |uris|
  {
    if uris == [] then allowed == []
    else
      var before, last := uris[..|uris| - 1], uris[|uris| - 1];
      || IsSubsequence(allowed, before)
      || (allowed != [] && allowed[|allowed| - 1] == last && IsSubsequence(allowed[..|allowed| - 1], before))
  }

  lemma {:induction false} AllowedIsSubsequence(p: Primitives, r: Registrar, uris: seq<string>)
    ensures IsSubsequence(Allowed(p, r, uris), uris)
  {
    if uris != [] {
      AllowedIsSubsequence(p, r, uris[..|uris| - 1]);
      var before := Allowed(p, r, uris[..|uris| - 1]);
      assert (before + [uris[|uris| - 1]])[..|before|] == before;
    }
  }

  lemma CountOfLast<T>(before: seq<T>, last: T, x: T)
    ensures multiset(before + [last])[x] == multiset(before)[x] + if last == x then 1 else 0
  {
  }

  /** As often as it was there, an address allowed stays. */
  lemma {:induction false} AllowedKeepsCounts(p: Primitives, r: Registrar, uris: seq<string>, u: string)
    ensures multiset(Allowed(p, r, uris))[u] == if AllowsRedirect(p, r, u) then multiset(uris)[u] else 0
  {
    if uris != [] {
      var before, last := uris[..|uris| - 1], uris[|uris| - 1];
      AllowedKeepsCounts(p, r, before, u);
      assert uris == before + [last];
      CountOfLast(before, last, u);
      CountOfLast(Allowed(p, r, before), last, u);
      assert Allowed(p, r, uris) == Allowed(p, r, before) + if AllowsRedirect(p, r, last) then [last] else [];
    }
  }

  predicate ValidRule(rule: RedirectRule) {
    rule.host != "" && "/" <= rule.pathPrefix
  }

  /** It names no host, or its path does not begin at the root. */
  ghost predicate Unrooted(rule: RedirectRule) {
    rule.host == "" || rule.pathPrefix == "" || rule.pathPrefix[0] != '/'
  }

  /** The rules that are rules, `None` being a nil one. */
  function Kept(rules: seq<Option<RedirectRule>>): seq<RedirectRule> {
    if rules == [] then []
    else
      var before, last := Kept(rules[..|rules| - 1]), rules[|rules| - 1];
      if last == None then before else before + [last.value]
  }

  /** Every rule is kept, as often as it was given. */
  lemma {:induction false} KeptAre(rules: seq<Option<RedirectRule>>, rule: RedirectRule)
    ensures multiset(Kept(rules))[rule] == multiset(rules)[Some(rule)]
  {
    if rules != [] {
      var before, last := rules[..|rules| - 1], rules[|rules| - 1];
      KeptAre(before, rule);
      assert rules == before + [last];
      CountOfLast(before, last, Some(rule));
      if last.Some? {
        CountOfLast(Kept(before), last.value, rule);
      }
    }
  }

  /** A registrar; refused a short key, or any rule without a host and a rooted path. */
  method New(key: seq<Byte>, allowLoopback: bool, rules: seq<Option<RedirectRule>>) returns (r: Result<Registrar, NewError>)
    ensures r == Failure(KeyTooShort) <==> |key| < 32
    ensures r == Failure(BadRule) <==> |key| >= 32 && exists rule :: Some(rule) in rules && Unrooted(rule)
    ensures r.Success? ==> r.value == Registrar(key, allowLoopback, Kept(rules))
  {
    if |key| < MIN_KEY_LENGTH {
      return Failure(KeyTooShort);
    }
    var kept := [];
    for i := 0 to |rules|
      invariant kept == Kept(rules[..i])
      invariant forall rule :: Some(rule) in rules[..i] ==> !Unrooted(rule)
    {
      assert rules[..i + 1][..i] == rules[..i];
      if rules[i].Some? {
        if !ValidRule(rules[i].value) {
          assert Some(rules[i].value) in rules;
          return Failure(BadRule);
        }
        kept := kept + [rules[i].value];
      }
    }
    assert rules[..|rules|] == rules;
    r := Success(Registrar(key, allowLoopback, kept));
  }

  // --- Registering and resolving ---

  // White space at either end is left off a name, as `strings.TrimSpace` does.
  function TrimLeft(s: string): string {
    if s != "" && Scopes.IsSpace(s[0]) then TrimLeft(s[1..]) else s
  }

  function TrimRight(s: string): string {
    if s != "" && Scopes.IsSpace(s[|s| - 1]) then TrimRight(s[..|s| - 1]) else s
  }

  function TrimSpace(s: string): string {
    TrimRight(TrimLeft(s))
  }

  function Signed(encodedPayload: string): string {
    ID_PREFIX + encodedPayload
  }

  /** The id that carries the registration. */
  function IdOf(p: Primitives, key: seq<Byte>, registration: Registration): string {
    var signed := Signed(Encode(p.marshal(registration)));
    signed + "." + Encode(p.mac(key, signed))
  }

  function Register(p: Primitives, r: Registrar, m: Metadata, now: Time): Result<Registered, Refusal> {
    var name := TrimSpace(m.clientName);
    if m.authMethod != "" && m.authMethod != "none" then Failure(InvalidMetadata)
    else if exists g :: g in m.grantTypes && g != "authorization_code" && g != "refresh_token" then Failure(InvalidMetadata)
    else if exists t :: t in m.responseTypes && t != "code" then Failure(InvalidMetadata)
    else if |name| > MAX_CLIENT_NAME_LENGTH then Failure(InvalidMetadata)
    else if |m.redirectUris| == 0 || |m.redirectUris| > MAX_REDIRECT_URIS then Failure(InvalidRedirectUri)
    else if exists u :: u in m.redirectUris && !AllowsRedirect(p, r, u) then Failure(InvalidRedirectUri)
    else
      var shown := if name == "" then UNNAMED else name;
      var issuedAt := now / SECOND;
      var id := IdOf(p, r.key, Registration(shown, m.redirectUris, issuedAt));
      Success(Registered(Client(id, shown, m.redirectUris, true), issuedAt))
  }

  /** Only white space is left off a name, and none is left at either end. */
  lemma TrimmedOf(s: string) returns (left: string, right: string)
    ensures s == left + TrimSpace(s) + right
    ensures forall i :: 0 <= i < |left| ==> Scopes.IsSpace(left[i])
    ensures forall i :: 0 <= i < |right| ==> Scopes.IsSpace(right[i])
    ensures var name := TrimSpace(s); name != "" ==> !Scopes.IsSpace(name[0]) && !Scopes.IsSpace(name[|name| - 1])
  {
    left := LeftOf(s);
    right := RightOf(TrimLeft(s));
  }

  lemma {:induction false} LeftOf(s: string) returns (left: string)
    ensures s == left + TrimLeft(s) && forall i :: 0 <= i < |left| ==> Scopes.IsSpace(left[i])
    ensures TrimLeft(s) != "" ==> !Scopes.IsSpace(TrimLeft(s)[0])
  {
    left := "";
    if s != "" && Scopes.IsSpace(s[0]) {
      var rest := LeftOf(s[1..]);
      left := [s[0]] + rest;
    }
  }

  lemma {:induction false} RightOf(s: string) returns (right: string)
    ensures s == TrimRight(s) + right && forall i :: 0 <= i < |right| ==> Scopes.IsSpace(right[i])
    ensures TrimRight(s) != "" ==> !Scopes.IsSpace(TrimRight(s)[|TrimRight(s)| - 1]) && TrimRight(s)[0] == s[0]
  {
    right := "";
    if s != "" && Scopes.IsSpace(s[|s| - 1]) {
      var rest := RightOf(s[..|s| - 1]);
      right := rest + [s[|s| - 1]];
    }
  }

  /** The metadata is of a public client of the authorization code flow, with a name that is not long. */
  ghost predicate PublicClient(m: Metadata) {
    && m.authMethod in {"", "none"}
    && (forall g :: g in m.grantTypes ==> g in {"authorization_code", "refresh_token"})
    && (forall t :: t in m.responseTypes ==> t == "code")
    && |TrimSpace(m.clientName)| <= 100
  }

  /**
  Exactly who registers: a public client with one to ten addresses, each allowed. It keeps them, and its name but for white
  space around it, in an id under the server's signature.
  */
  lemma RegisteredExactly(p: Primitives, r: Registrar, m: Metadata, now: Time)
    ensures var answer, name := Register(p, r, m, now), TrimSpace(m.clientName);
      var shown := if name != "" then name else "An unnamed application";
      var payload := "dcr." + Encode(p.marshal(Registration(shown, m.redirectUris, now / SECOND)));
      var addressed := 1 <= |m.redirectUris| <= 10 && forall u :: u in m.redirectUris ==> AllowsRedirect(p, r, u);
      && (answer.Success? <==> PublicClient(m) && addressed)
      && (answer == Failure(InvalidMetadata) <==> !PublicClient(m))
      && (answer == Failure(InvalidRedirectUri) <==> PublicClient(m) && !addressed)
      && (answer.Success? ==> answer.value == Registered(
          Client(payload + "." + Encode(p.mac(r.key, payload)), shown, m.redirectUris, true), now / SECOND))
  {
  }

  /** What the id of a registered client carries. */
  function RegistrationOf(registered: Registered): Registration {
    Registration(registered.client.name, registered.client.redirectUris, registered.issuedAt)
  }

  /** What an id says was registered, if its signature is the key's. */
  function Read(p: Primitives, key: seq<Byte>, id: string): Option<Registration> {
    var rest := CutPrefix(id, ID_PREFIX);
    if rest == None then None
    else
      var parts := Cut(rest.value, '.');
      if parts == None then None
      else
        var (encodedPayload, encodedSignature) := parts.value;
        if Decode(encodedSignature, false) != Some(p.mac(key, Signed(encodedPayload))) then None
        else if Decode(encodedPayload, false) == None then None
        else p.unmarshal(Decode(encodedPayload, false).value)
  }

  function Resolved(p: Primitives, r: Registrar, id: string): Option<Client> {
    var registered := Read(p, r.key, id);
    if registered == None then None
    else
      var allowed := Allowed(p, r, registered.value.redirectUris);
      if allowed == [] then None else Some(Client(id, registered.value.name, allowed, true))
  }

  method Resolve(p: Primitives, r: Registrar, id: string) returns (resolved: Option<Client>)
    ensures resolved == Resolved(p, r, id)
  {
    var rest := CutPrefix(id, ID_PREFIX);
    if rest == None {
      return None;
    }
    var parts := Cut(rest.value, '.');
    if parts == None {
      return None;
    }
    var (encodedPayload, encodedSignature) := parts.value;
    var given := Decode(encodedSignature, false);
    if given == None || given.value != p.mac(r.key, Signed(encodedPayload)) {
      return None;
    }
    var payload := Decode(encodedPayload, false);
    if payload == None {
      return None;
    }
    var registered := p.unmarshal(payload.value);
    if registered == None {
      return None;
    }
    var uris := registered.value.redirectUris;
    var allowed := [];
    for i := 0 to |uris|
      invariant allowed == Allowed(p, r, uris[..i])
    {
      assert uris[..i + 1][..i] == uris[..i];
      if AllowsRedirect(p, r, uris[i]) {
        allowed := allowed + [uris[i]];
      }
    }
    assert uris[..|uris|] == uris;
    resolved := if allowed == [] then None else Some(Client(id, registered.value.name, allowed, true));
  }

  // --- The id is a registration printed, and is parsed back ---

  /**
  An id read with the key it was made with says what it was made from, and with any other key's signature
  nothing.
  */
  lemma ReadOfId(p: Primitives, key: seq<Byte>, other: seq<Byte>, registration: Registration)
    requires JsonRoundTrips(p)
    ensures var signed := Signed(Encode(p.marshal(registration)));
      Read(p, other, IdOf(p, key, registration)) ==
      if p.mac(other, signed) == p.mac(key, signed) then Some(registration) else None
  {
    var payload := Encode(p.marshal(registration));
    var signature := Encode(p.mac(key, Signed(payload)));
    var id := IdOf(p, key, registration);
    EncodedDigits(p.marshal(registration));
    assert CutPrefix(id, ID_PREFIX).value == payload + "." + signature;
    CutOfJoin(payload, signature, '.');
    DecodeOfEncode(p.marshal(registration), false);
    DecodeOfEncode(p.mac(key, Signed(payload)), false);
  }

  /**
  What registers resolves: under the same key, an id resolves to the client that registered, with
  those of its addresses that the rules now in force allow, in their order -- all of them if the rules are
  what they were -- and to nothing when they allow none.
  */
  lemma RegisteredClientResolves(p: Primitives, r: Registrar, m: Metadata, now: Time, later: Registrar)
    requires JsonRoundTrips(p) && Register(p, r, m, now).Success? && later.key == r.key
    ensures var client := Register(p, r, m, now).value.client;
      var allowed := Allowed(p, later, m.redirectUris);
      && Resolved(p, later, client.id) == (if allowed == [] then None else Some(client.(redirectUris := allowed)))
      && IsSubsequence(allowed, m.redirectUris)
      && (later == r ==> Resolved(p, later, client.id) == Some(client))
  {
    ReadOfId(p, r.key, later.key, RegistrationOf(Register(p, r, m, now).value));
    AllowedIsSubsequence(p, later, m.redirectUris);
  }

  /**
  Under another key a registered id resolves exactly when that key happens to give the id's own text the same
  signature, and the rules allow one of its addresses: so a key changed makes the ids issued before unknown.
  */
  lemma AnotherKeyKnowsNoClient(p: Primitives, r: Registrar, m: Metadata, now: Time, other: Registrar)
    requires JsonRoundTrips(p) && Register(p, r, m, now).Success?
    ensures var registered := Register(p, r, m, now).value;
      var signed := Signed(Encode(p.marshal(RegistrationOf(registered))));
      Resolved(p, other, registered.client.id).Some? <==>
      p.mac(other.key, signed) == p.mac(r.key, signed) && Allowed(p, other, m.redirectUris) != []
  {
    ReadOfId(p, r.key, other.key, RegistrationOf(Register(p, r, m, now).value));
  }

  /**
  A payload as it was issued is read exactly by the signature it was issued with, line breaks and leftover bits
  aside.
  */
  lemma ReadOfIssuedPayload(p: Primitives, key: seq<Byte>, registration: Registration, signature: string)
    requires JsonRoundTrips(p)
    ensures var signed := Signed(Encode(p.marshal(registration)));
      Read(p, key, signed + "." + signature) ==
      if Cleared(Strip(signature)) == Encode(p.mac(key, signed)) then Some(registration) else None
  {
    var payload := Encode(p.marshal(registration));
    var id := Signed(payload) + "." + signature;
    EncodedDigits(p.marshal(registration));
    assert CutPrefix(id, ID_PREFIX).value == payload + "." + signature;
    CutOfJoin(payload, signature, '.');
    DecodeOfEncode(p.marshal(registration), false);
    LenientDecodeReads(signature, p.mac(key, Signed(payload)));
  }

  /** A client just registered has the id of its registration, and every address it registered is allowed. */
  lemma RegisteredAsRead(p: Primitives, r: Registrar, m: Metadata, now: Time)
    requires Register(p, r, m, now).Success?
    ensures var registered := Register(p, r, m, now).value;
      && registered.client.id == IdOf(p, r.key, RegistrationOf(registered))
      && Allowed(p, r, registered.client.redirectUris) == registered.client.redirectUris == m.redirectUris != []
      && registered.client.selfRegistered
  {
  }

  /**
  Which ids with the payload of one issued resolve to its client: those whose signature is the issued one but for
  line breaks and the leftover bits of its last digit, and no others.
  */
  lemma IssuedPayloadResolvesExactly(p: Primitives, r: Registrar, m: Metadata, now: Time, signature: string)
    requires JsonRoundTrips(p) && Register(p, r, m, now).Success?
    ensures var registered := Register(p, r, m, now).value;
      var signed := Signed(Encode(p.marshal(RegistrationOf(registered))));
      var id := signed + "." + signature;
      Resolved(p, r, id) ==
      if Cleared(Strip(signature)) == Encode(p.mac(r.key, signed)) then Some(registered.client.(id := id)) else None
  {
    RegisteredAsRead(p, r, m, now);
    ReadOfIssuedPayload(p, r.key, RegistrationOf(Register(p, r, m, now).value), signature);
  }

  lemma ReadWithBreaksAfter(p: Primitives, key: seq<Byte>, registration: Registration, breaks: string)
    requires JsonRoundTrips(p) && forall i :: 0 <= i < |breaks| ==> IsLineBreak(breaks[i])
    ensures Read(p, key, IdOf(p, key, registration) + breaks) == Some(registration)
  {
    var signed := Signed(Encode(p.marshal(registration)));
    var signature := Encode(p.mac(key, signed));
    BreaksAfterEncoding(p.mac(key, signed), breaks);
    ReadOfIssuedPayload(p, key, registration, signature + breaks);
    assert signed + "." + (signature + breaks) == IdOf(p, key, registration) + breaks;
  }

  /** Line breaks after an id are passed over: the id with them resolves to the same client, by the longer id. */
  lemma TrailingBreaksResolve(p: Primitives, r: Registrar, m: Metadata, now: Time, breaks: string)
    requires JsonRoundTrips(p) && Register(p, r, m, now).Success?
    requires forall i :: 0 <= i < |breaks| ==> IsLineBreak(breaks[i])
    ensures var client := Register(p, r, m, now).value.client;
      Resolved(p, r, client.id + breaks) == Some(client.(id := client.id + breaks))
  {
    RegisteredAsRead(p, r, m, now);
    ReadWithBreaksAfter(p, r.key, RegistrationOf(Register(p, r, m, now).value), breaks);
  }

  /**
  Whatever resolves was signed: the id is a prefix, a payload and the payload's signature, and the client is the
  payload's.
  */
  lemma ResolvedWasSigned(p: Primitives, r: Registrar, id: string) returns (payload: string, signature: string)
    requires Resolved(p, r, id).Some?
    ensures id == Signed(payload) + "." + signature && '.' !in payload
    ensures Decode(signature, false) == Some(p.mac(r.key, Signed(payload)))
    ensures Decode(payload, false).Some?
    ensures var registration := p.unmarshal(Decode(payload, false).value);
      && registration.Some? && Resolved(p, r, id).value.name == registration.value.name
      && forall u :: u in Resolved(p, r, id).value.redirectUris <==>
        u in registration.value.redirectUris && AllowsRedirect(p, r, u)
  {
    var rest := CutPrefix(id, ID_PREFIX).value;
    payload, signature := Cut(rest, '.').value.0, Cut(rest, '.').value.1;
    JoinOfCut(rest, '.');
    assert id == Signed(payload) + "." + signature;
  }

  /** An id of a payload and a signature resolves exactly so: the signature the payload's, and some address allowed. */
  lemma SignedResolvesExactly(p: Primitives, r: Registrar, payload: string, signature: string)
    requires '.' !in payload
    ensures var id := "dcr." + payload + "." + signature;
      var decoded := Decode(payload, false);
      var registration := if decoded.Some? then p.unmarshal(decoded.value) else None;
      var signed := Decode(signature, false) == Some(p.mac(r.key, "dcr." + payload));
      && (Resolved(p, r, id).Some? <==>
          signed && registration.Some? && exists u :: u in registration.value.redirectUris && AllowsRedirect(p, r, u))
      && (Resolved(p, r, id).Some? ==>
          var allowed := Allowed(p, r, registration.value.redirectUris);
          Resolved(p, r, id) == Some(Client(id, registration.value.name, allowed, true)))
  {
    var id := "dcr." + payload + "." + signature;
    assert CutPrefix(id, ID_PREFIX).value == payload + "." + signature;
    CutOfJoin(payload, signature, '.');
    var registered := Read(p, r.key, id);
    if registered.Some? {
      var allowed := Allowed(p, r, registered.value.redirectUris);
      assert allowed != [] ==> allowed[0] in allowed;
    }
  }

  /**
  Wherever a client that resolves may be sent is somewhere the rules in force let clients register: the user's own machine,
  where that is let, or an address it registered and some rule matches.
  */
  lemma ResolvedIsSentWithinTheRules(p: Primitives, r: Registrar, id: string, uri: string)
    requires Resolved(p, r, id).Some? && AllowsRedirectUri(p.parse, Resolved(p, r, id).value, uri)
    ensures p.parse(uri).Some?
    ensures var u := p.parse(uri).value;
      if IsLoopback(u) then r.allowLoopback && u.fragment == "" && u.rawQuery == ""
      else
        && uri in Resolved(p, r, id).value.redirectUris
        && exists rule, segment :: rule in r.rules && OnRule(rule, u, segment)
  {
    var client := Resolved(p, r, id).value;
    forall raw | raw in client.redirectUris ensures AllowsRedirect(p, r, raw) {
    }
    if uri in client.redirectUris {
      AllowsRedirectExactly(p, r, uri);
    } else {
      var raw :| raw in client.redirectUris && SameButPort(p.parse, uri, raw);
      AllowsRedirectExactly(p, r, raw);
    }
  }

  /** And it is somewhere the client it was registered as could be sent. */
  lemma ResolvedIsSentNowhereNew(p: Primitives, r: Registrar, m: Metadata, now: Time, later: Registrar, uri: string)
    requires JsonRoundTrips(p) && Register(p, r, m, now).Success? && later.key == r.key
    requires var id := Register(p, r, m, now).value.client.id;
      Resolved(p, later, id).Some? && AllowsRedirectUri(p.parse, Resolved(p, later, id).value, uri)
    ensures AllowsRedirectUri(p.parse, Register(p, r, m, now).value.client, uri)
  {
    RegisteredClientResolves(p, r, m, now, later);
    var client := Register(p, r, m, now).value.client;
    FewerAllowFewer(p.parse, Resolved(p, later, client.id).value, client, uri);
  }
}

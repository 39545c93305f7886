/** The two ways a session is renewed by its cookie: the refresh endpoint, and a navigation to the sign-in page. */
module RefreshEndpoints {
  import opened Wrappers
  import opened Oauth
  import opened Authentications
  import opened SessionToken
  import opened SessionManager

  datatype Outcome =
    | NotNow                       // nothing to do
    | BadToken
    | Unreadable                   // the sign-in could not be read
    | Refused(refusal: Refusal)
    | RenewedWith(session: Session)

  /** Go's integer division, which truncates toward zero. */
  function Quotient(a: int, b: int): int
    requires b > 0
  {
    if a >= 0 then a / b else -((-a) / b)
  }

  /** More than a third of the token's span is left. */
  predicate TooSoon(claims: Claims, now: Time) {
    claims.expiresAt - now > Quotient(claims.expiresAt - claims.notBefore, 3)
  }

  function RefreshEndpoint(m: Manager, t: Token, selected: Option<Authentication>, duration: int, now: Time): Outcome {
    if t.authenticationId == "" then BadToken
    else if METHOD_DBSC in t.claims.authenticationMethods then NotNow
    else if TooSoon(t.claims, now) then NotNow
    else if selected == None then Unreadable
    else if METHOD_SSO in t.claims.authenticationMethods && selected.value.dbscPublicKey != "" then NotNow
    else
      var session := RefreshSession(m, selected.value, t, METHOD_REFRESH, duration, now);
      if session.Failure? then Refused(session.error) else RenewedWith(session.value)
  }

  /** `toRedirect` is that the request is a navigation and names somewhere under the cookie's domain to go back to. */
  function Navigation(
    m: Manager, toRedirect: bool, token: Option<Token>, selected: Option<Authentication>, duration: int,
    now: Time): Outcome
  {
    if !toRedirect || token == None then NotNow
    else
      var t := token.value;
      if now < t.claims.expiresAt then NotNow
      else if METHOD_DBSC in t.claims.authenticationMethods || t.authenticationId == "" then NotNow
      else if selected == None || selected.value.dbscPublicKey != "" then NotNow
      else
        var session := RefreshSession(m, selected.value, t, METHOD_REFRESH, duration, now);
        if session.Failure? then Refused(session.error) else RenewedWith(session.value)
  }

  /** A sign-in that may still be renewed from the token, by its cookie. */
  predicate MayRenew(m: Manager, t: Token, a: Authentication, now: Time) {
    && !a.ended && now <= a.expiresAt && !a.account.locked
    && (m.idleDuration > 0 ==> now <= t.claims.expiresAt + m.idleDuration)
  }

  /**
  The endpoint renews exactly a token that is not device-bound, nor the first of a sign-in that has become so,
  once no more than a third of its span is left, while its sign-in may still be renewed.
  */
  lemma RefreshedExactlyInItsLastThird(m: Manager, t: Token, selected: Option<Authentication>, duration: int, now: Time)
    requires t.claims.notBefore <= t.claims.expiresAt
    ensures RefreshEndpoint(m, t, selected, duration, now).RenewedWith? <==>
      && t.authenticationId != "" && "hwk" !in t.claims.authenticationMethods
      && 3 * (t.claims.expiresAt - now) <= t.claims.expiresAt - t.claims.notBefore
      && selected.Some? && !("ext" in t.claims.authenticationMethods && selected.value.dbscPublicKey != "")
      && MayRenew(m, t, selected.value, now)
  {
  }

  // --- Asking often enough ---

  function Span(claims: Claims): int {
    claims.expiresAt - claims.notBefore
  }

  /** A token the refresh endpoint does not leave to its device. */
  predicate ByCookie(t: Token, selected: Option<Authentication>) {
    && t.authenticationId != "" && METHOD_DBSC !in t.claims.authenticationMethods
    && (METHOD_SSO in t.claims.authenticationMethods ==> selected == None || selected.value.dbscPublicKey == "")
  }

  /**
  Put off once, a client that asks again within a third of its token's span still has it unexpired, and is put off
  again or, its sign-in permitting, renewed.
  */
  lemma AskingEveryThirdKeepsASession(
    m: Manager, t: Token, first: Option<Authentication>, second: Option<Authentication>, duration: int, now: Time,
    next: Time)
    requires t.claims.notBefore <= t.claims.expiresAt && ByCookie(t, first) && ByCookie(t, second)
    requires RefreshEndpoint(m, t, first, duration, now) == NotNow
    requires now <= next && 3 * (next - now) <= Span(t.claims)
    requires second.Some? && MayRenew(m, t, second.value, next)
    ensures next < t.claims.expiresAt
    ensures var outcome := RefreshEndpoint(m, t, second, duration, next); outcome == NotNow || outcome.RenewedWith?
  {
    RefreshedExactlyInItsLastThird(m, t, first, duration, now);
    RefreshedExactlyInItsLastThird(m, t, second, duration, next);
  }

  /** One time of asking, and the sign-in as it then is. */
  datatype Poll = Poll(a: Authentication, now: Time)

  function Asked(m: Manager, held: Session, duration: int, poll: Poll): Outcome {
    RefreshEndpoint(m, held.token, Some(poll.a), duration, poll.now)
  }

  /** The session a client holds after asking so many times. */
  function Held(m: Manager, s: Session, duration: int, polls: seq<Poll>): Session {
    if polls == [] then s
    else
      var before := Held(m, s, duration, polls[..|polls| - 1]);
      var outcome := Asked(m, before, duration, polls[|polls| - 1]);
      if outcome.RenewedWith? then outcome.session else before
  }

  /** The sign-in may stand behind a session, with three seconds left for one. */
  predicate Standing(a: Authentication, until: Time, now: Time) {
    !a.ended && !a.account.locked && a.expiresAt == until && now + 3 * SECOND <= until
  }

  /** Each time within a third of the span of the token held, the first before it expires. */
  predicate InGoodTime(m: Manager, s: Session, duration: int, until: Time, polls: seq<Poll>) {
    polls == [] ||
    (var before, last := polls[..|polls| - 1], polls[|polls| - 1];
     var held := Held(m, s, duration, before);
     && InGoodTime(m, s, duration, until, before)
     && Standing(last.a, until, last.now)
     && (METHOD_SSO in held.token.claims.authenticationMethods ==> last.a.dbscPublicKey == "")
     && if before == [] then last.now < held.token.claims.expiresAt
        else before[|before| - 1].now <= last.now && 3 * (last.now - before[|before| - 1].now) <= Span(held.token.claims))
  }

  /** A session renewed by its cookie for as long as its sign-in lasts. */
  predicate CookieSession(s: Session, until: Time) {
    && s.token.authenticationId != "" && METHOD_DBSC !in s.token.claims.authenticationMethods
    && s.token.claims.notBefore <= s.token.claims.expiresAt && s.cookieExpiresAt == until
  }

  /** Whether put off or renewed, a client has more than a third of a span left after asking. */
  lemma AskedLeavesAThird(m: Manager, held: Session, duration: int, until: Time, poll: Poll)
    requires duration >= 3 * SECOND && CookieSession(held, until) && Standing(poll.a, until, poll.now)
    requires METHOD_SSO in held.token.claims.authenticationMethods ==> poll.a.dbscPublicKey == ""
    requires poll.now < held.token.claims.expiresAt
    ensures var outcome := Asked(m, held, duration, poll);
      && (outcome == NotNow || outcome.RenewedWith?)
      && var after := if outcome.RenewedWith? then outcome.session else held;
      && CookieSession(after, until)
      && 3 * (after.token.claims.expiresAt - poll.now) > Span(after.token.claims)
  {
    RefreshedExactlyInItsLastThird(m, held.token, Some(poll.a), duration, poll.now);
    var outcome := Asked(m, held, duration, poll);
    if outcome.RenewedWith? {
      assert outcome.session.token.claims.authenticationMethods == [METHOD_REFRESH];
      assert METHOD_DBSC !in [METHOD_REFRESH];
    }
  }

  lemma {:induction false} HeldStaysACookieSession(m: Manager, s: Session, duration: int, until: Time, polls: seq<Poll>)
    requires duration >= 3 * SECOND && CookieSession(s, until) && InGoodTime(m, s, duration, until, polls)
    ensures var held := Held(m, s, duration, polls);
      && CookieSession(held, until)
      && (polls != [] ==> 3 * (held.token.claims.expiresAt - polls[|polls| - 1].now) > Span(held.token.claims))
  {
    if polls != [] {
      var before, last := polls[..|polls| - 1], polls[|polls| - 1];
      HeldStaysACookieSession(m, s, duration, until, before);
      AskedLeavesAThird(m, Held(m, s, duration, before), duration, until, last);
    }
  }

  lemma {:induction false} InGoodTimeSoFar(m: Manager, s: Session, duration: int, until: Time, polls: seq<Poll>, n: nat)
    requires InGoodTime(m, s, duration, until, polls) && n <= |polls|
    ensures InGoodTime(m, s, duration, until, polls[..n])
  {
    if n == |polls| {
      assert polls[..n] == polls;
    } else {
      InGoodTimeSoFar(m, s, duration, until, polls[..|polls| - 1], n);
      assert polls[..|polls| - 1][..n] == polls[..n];
    }
  }

  /**
  However long it goes on, a client that asks within a third of the span of the token it holds never finds that token
  expired, nor its cookie, and is never refused: until its sign-in is about to end, it is put off or renewed each time.
  */
  lemma AskingInGoodTimeNeverExpires(m: Manager, s: Session, duration: int, until: Time, polls: seq<Poll>, i: nat)
    requires duration >= 3 * SECOND && CookieSession(s, until) && InGoodTime(m, s, duration, until, polls) && i < |polls|
    ensures var held := Held(m, s, duration, polls[..i]);
      && polls[i].now < held.token.claims.expiresAt && polls[i].now < held.cookieExpiresAt
      && (Asked(m, held, duration, polls[i]) == NotNow || Asked(m, held, duration, polls[i]).RenewedWith?)
  {
    var upTo, before := polls[..i + 1], polls[..i];
    InGoodTimeSoFar(m, s, duration, until, polls, i + 1);
    assert upTo[..|upTo| - 1] == before;
    HeldStaysACookieSession(m, s, duration, until, before);
    AskedLeavesAThird(m, Held(m, s, duration, before), duration, until, polls[i]);
  }

  /**
  A cookie never expires before its token nor after its sign-in; it lasts as long as the sign-in unless it is a
  device's.
  */
  lemma CookieOutlivesItsToken(
    m: Manager, a: Authentication, t: Token, method_: string, duration: int, now: Time, sessionId: string)
    ensures forall session ::
      (|| RefreshSession(m, a, t, method_, duration, now) == Success(session)
       || MintSession(m, a, method_, duration, now, sessionId) == Success(session)) ==>
        && session.token.claims.expiresAt <= session.cookieExpiresAt <= a.expiresAt
        && session.cookieExpiresAt == if method_ == METHOD_DBSC then session.token.claims.expiresAt else a.expiresAt
  {
  }

  // --- Navigating ---

  /**
  A navigation renews exactly the expired token of a sign-in that is bound to no device and may still be renewed, with its
  own method; and to a sign-in that may not it says why.
  */
  lemma NavigatedExactly(
    m: Manager, toRedirect: bool, token: Option<Token>, selected: Option<Authentication>, duration: int, now: Time)
    ensures var outcome := Navigation(m, toRedirect, token, selected, duration, now);
      var tried := toRedirect && token.Some? && token.value.claims.expiresAt <= now
        && "hwk" !in token.value.claims.authenticationMethods && token.value.authenticationId != ""
        && selected.Some? && selected.value.dbscPublicKey == "";
      && (outcome.RenewedWith? <==> tried && MayRenew(m, token.value, selected.value, now))
      && (outcome.Refused? <==> tried && !MayRenew(m, token.value, selected.value, now))
      && (outcome == NotNow <==> !tried)
      && (outcome.RenewedWith? ==>
          outcome.session.token.claims.authenticationMethods == ["rtoken"]
          && outcome.session.cookieExpiresAt == selected.value.expiresAt)
  {
    assert METHOD_REFRESH != METHOD_DBSC by {
      assert METHOD_REFRESH[0] != METHOD_DBSC[0];
    }
  }

  /** When a navigation renews a token just renewed: never before the whole second it was made to expire at. */
  lemma RenewedIsRenewedAgain(
    m: Manager, token: Token, selected: Option<Authentication>, duration: int, now: Time,
    again: Option<Authentication>, later: Time)
    requires Navigation(m, true, Some(token), selected, duration, now).RenewedWith?
    ensures var renewed := Navigation(m, true, Some(token), selected, duration, now).session.token;
      Navigation(m, true, Some(renewed), again, duration, later).RenewedWith? <==>
      && WholeSeconds(Earlier(selected.value.expiresAt, now + duration)) <= later
      && again.Some? && again.value.dbscPublicKey == "" && MayRenew(m, renewed, again.value, later)
  {
    var renewed := Navigation(m, true, Some(token), selected, duration, now).session.token;
    assert renewed.claims.authenticationMethods == [METHOD_REFRESH];
    assert METHOD_DBSC !in [METHOD_REFRESH];
  }

  /**
  A browser sent back with the token just renewed, at the same instant, is served the page instead of going round
  again, exactly when the token's expiry, in whole seconds, is still to come. With sessions of a second or more that is
  before the sign-in's own last whole second: from then to its end every token made for it has expired already.
  */
  lemma NavigationLoopsOnlyAtTheEnd(
    m: Manager, token: Token, selected: Option<Authentication>, duration: int, now: Time)
    requires duration > 0
    requires Navigation(m, true, Some(token), selected, duration, now).RenewedWith?
    ensures var renewed := Navigation(m, true, Some(token), selected, duration, now).session.token;
      var again := Navigation(m, true, Some(renewed), selected, duration, now);
      && (again == NotNow <==> now < WholeSeconds(Earlier(selected.value.expiresAt, now + duration)))
      && (duration >= SECOND ==> (again == NotNow <==> now < WholeSeconds(selected.value.expiresAt)))
      && (again.RenewedWith? <==> again != NotNow && (m.idleDuration > 0 ==>
        now - renewed.claims.expiresAt <= m.idleDuration))
  {
    RenewedIsRenewedAgain(m, token, selected, duration, now, selected, now);
    var renewed := Navigation(m, true, Some(token), selected, duration, now).session.token;
    assert renewed.claims.authenticationMethods == [METHOD_REFRESH];
    assert METHOD_DBSC !in [METHOD_REFRESH];
  }

  /**
  A sign-in ending at 100.5 seconds: at 100.2 a navigation is given a token that expired at 100, and is renewed
  again.
  */
  lemma NavigationLoopsInThePartialSecond(m: Manager, token: Token, a: Authentication, duration: int)
    requires a.expiresAt == 100 * SECOND + SECOND / 2 && duration >= SECOND && m.idleDuration == 0
    requires Navigation(m, true, Some(token), Some(a), duration, 100 * SECOND + SECOND / 5).RenewedWith?
    ensures var now := 100 * SECOND + SECOND / 5;
      var renewed := Navigation(m, true, Some(token), Some(a), duration, now).session.token;
      && renewed.claims.expiresAt == 100 * SECOND && now < a.expiresAt
      && Navigation(m, true, Some(renewed), Some(a), duration, now).RenewedWith?
  {
    NavigationLoopsOnlyAtTheEnd(m, token, Some(a), duration, 100 * SECOND + SECOND / 5);
  }
}

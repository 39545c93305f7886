/** Signed assertions that API keys mint with: each claim checked, times with a leeway. */
module Assertion {
  import opened Wrappers
  import opened Oauth
  import opened Base64Url

  const TYPE := "api-key+jwt"
  const LIFETIME := 5 * MINUTE
  const LEEWAY := 60 * SECOND
  const MAX_JTI_LENGTH := 256

  datatype PublicKey = PublicKey(id: Id, algorithm: string)

  /** The signed statement's claims, and whether the signature is the key's. Times are numbers of seconds. */
  datatype Claims = Claims(
    signed: bool, alg: string, typ: string, sub: Option<string>, iss: Option<string>, aud: Option<string>,
    exp: Option<real>, iat: Option<real>, nbf: Option<real>, jti: Option<string>)

  datatype Assertion = Assertion(keyId: Id, jti: string)

  datatype Error =
    | NoAudience | Unverified | NoExpiry | Expired | TooLong | FromTheFuture | NotYetUsable | NoJti | JtiTooLong

  /** Seconds cut to a whole number toward zero, as an instant. */
  function Instant(seconds: real): Time {
    (if seconds >= 0.0 then seconds.Floor else -((-seconds).Floor)) * SECOND
  }

  predicate Names(claim: Option<string>, expected: string) {
    claim == None || claim == Some(expected)
  }

  predicate Verifies(claims: Claims, key: PublicKey, audience: string) {
    && claims.signed && claims.alg == key.algorithm && claims.typ == TYPE
    && claims.sub == Some(key.id) && Names(claims.iss, key.id) && Names(claims.aud, audience) && claims.jti.Some?
  }

  function Verify(claims: Claims, key: PublicKey, audience: string, now: Time): Result<Assertion, Error> {
    if audience == "" then Failure(NoAudience)
    else if !Verifies(claims, key, audience) then Failure(Unverified)
    else if claims.exp == None then Failure(NoExpiry)
    else if !(Instant(claims.exp.value) > now - LEEWAY) then Failure(Expired)
    else if Instant(claims.exp.value) > now + (LIFETIME + LEEWAY) then Failure(TooLong)
    else if claims.iat.Some? && Instant(claims.iat.value) > now + LEEWAY then Failure(FromTheFuture)
    else if claims.nbf.Some? && Instant(claims.nbf.value) > now + LEEWAY then Failure(NotYetUsable)
    else if claims.jti.value == "" then Failure(NoJti)
    else if ByteLength(claims.jti.value) > MAX_JTI_LENGTH then Failure(JtiTooLong)
    else Success(Assertion(key.id, claims.jti.value))
  }

  /**
  The instants an assertion is accepted at are less than a lifetime and two leeways apart.
  */
  lemma AcceptedWithinRetention(claims: Claims, key: PublicKey, audience: string, s: Time, t: Time)
    requires Verify(claims, key, audience, s).Success? && Verify(claims, key, audience, t).Success?
    ensures t < s + LIFETIME + 2 * LEEWAY
  {
  }

  /** No shorter span would do: an assertion accepted now may be accepted at the last instant before it ends. */
  lemma RetentionIsTight()
    ensures exists claims, key, audience ::
      Verify(claims, key, audience, 0).Success?
      && Verify(claims, key, audience, LIFETIME + 2 * LEEWAY - 1).Success?
  {
    var claims := Claims(true, "EdDSA", TYPE, Some("k"), None, None, Some(360.0), None, None, Some("j"));
    var key := PublicKey("k", "EdDSA");
    assert ByteLength("j") == 1;
    assert Verify(claims, key, "a", 0).Success? && Verify(claims, key, "a", LIFETIME + 2 * LEEWAY - 1).Success?;
  }

  /** An instant is a whole second, and the seconds it is read from are less than one away from it, on the side of zero. */
  lemma InstantIs(seconds: real)
    ensures Instant(seconds) % SECOND == 0
    ensures var whole := (Instant(seconds) / SECOND) as real;
      if seconds >= 0.0 then 0.0 <= whole <= seconds < whole + 1.0 else whole - 1.0 < seconds <= whole <= 0.0
  {
    var whole := if seconds >= 0.0 then seconds.Floor else -((-seconds).Floor);
    assert Instant(seconds) == whole * SECOND;
    assert Instant(seconds) / SECOND == whole;
  }

  /** Signed by the key, as an assertion, and to the audience where it names one. */
  ghost predicate SignedFor(claims: Claims, key: PublicKey, audience: string) {
    && audience != "" && claims.signed && claims.alg == key.algorithm && claims.typ == "api-key+jwt"
    && claims.sub == Some(key.id) && (claims.iss.Some? ==> claims.iss.value == key.id)
    && (claims.aud.Some? ==> claims.aud.value == audience)
  }

  /** Not expired a minute ago, expiring within six minutes, and not made or usable more than a minute from now. */
  ghost predicate Timely(claims: Claims, now: Time) {
    && claims.exp.Some? && now - 60 * SECOND < Instant(claims.exp.value) <= now + 360 * SECOND
    && (claims.iat.Some? ==> Instant(claims.iat.value) <= now + 60 * SECOND)
    && (claims.nbf.Some? ==> Instant(claims.nbf.value) <= now + 60 * SECOND)
  }

  /** An identifier that can be remembered. */
  ghost predicate Rememberable(jti: Option<string>) {
    jti.Some? && 1 <= ByteLength(jti.value) <= 256
  }

  /**
  Accepted exactly for the key it names, signed by it as an assertion, to this audience or none,
  inside its times, and by an identifier that can be remembered.
  */
  lemma AcceptedExactly(claims: Claims, key: PublicKey, audience: string, now: Time)
    ensures Verify(claims, key, audience, now).Success? <==>
      SignedFor(claims, key, audience) && Timely(claims, now) && Rememberable(claims.jti)
    ensures Verify(claims, key, audience, now).Success? ==>
      Verify(claims, key, audience, now).value == Assertion(key.id, claims.jti.value)
  {
    if claims.jti.Some? && claims.jti.value != "" {
      assert ByteLength(claims.jti.value) >= 1;
    }
  }
}

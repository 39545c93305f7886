/** Proof Key for Code Exchange by S256 (sections 4.1, 4.2 and 4.6 of RFC 7636). */
module Pkce {
  import opened Base64Url

  /** SHA-256, of which only the length of its result is used. */
  type Sha256 = f: string -> seq<Byte> | forall s :: |f(s)| == 32
    ghost witness (s: string) => seq(32, i => 0)

  const MIN_VERIFIER_LENGTH := 43
  const MAX_VERIFIER_LENGTH := 128
  const CHALLENGE_LENGTH := 43
  const HASH_SIZE := 32

  predicate IsUnreserved(c: char) {
    'a' <= c <= 'z' || 'A' <= c <= 'Z' || '0' <= c <= '9' || c == '-' || c == '.' || c == '_' || c == '~'
  }

  predicate ValidVerifier(verifier: string) {
    && MIN_VERIFIER_LENGTH <= ByteLength(verifier) <= MAX_VERIFIER_LENGTH
    && forall i :: 0 <= i < |verifier| ==> IsUnreserved(verifier[i])
  }

  predicate ValidChallenge(challenge: string) {
    && ByteLength(challenge) == CHALLENGE_LENGTH
    && var decoded := Decode(challenge, true);
    decoded.Some? && |decoded.value| == HASH_SIZE
  }

  function ChallengeS256(sha256: Sha256, verifier: string): string {
    Encode(sha256(verifier))
  }

  predicate MatchesS256(sha256: Sha256, verifier: string, challenge: string) {
    ValidVerifier(verifier) && ChallengeS256(sha256, verifier) == challenge
  }

  /** A verifier is valid exactly with 43 to 128 characters, each an ASCII letter or digit or one of four others. */
  lemma ValidVerifierIs(verifier: string)
    ensures ValidVerifier(verifier) <==>
      && 43 <= |verifier| <= 128
      && forall i :: 0 <= i < |verifier| ==>
        || 0x41 <= verifier[i] as int <= 0x5A || 0x61 <= verifier[i] as int <= 0x7A || 0x30 <= verifier[i] as int <= 0x39
        || verifier[i] in "-._~"
  {
    if forall i :: 0 <= i < |verifier| ==> IsUnreserved(verifier[i]) {
      assert ByteLength(verifier) == |verifier|;
    }
  }

  /** A challenge is valid exactly when it is the encoding of some 32 bytes. */
  lemma ValidChallengeIsEncoderImage(challenge: string)
    ensures ValidChallenge(challenge) <==> exists bytes: seq<Byte> :: |bytes| == 32 && challenge == Encode(bytes)
  {
    if ValidChallenge(challenge) {
      var bytes := Decode(challenge, true).value;
      StrictDecodeIsInverse(challenge, bytes);
      EncodedDigits(bytes);
      assert Strip(challenge) == challenge;
    }
    forall bytes: seq<Byte> | |bytes| == 32 && challenge == Encode(bytes) ensures ValidChallenge(challenge) {
      EncodedDigits(bytes);
      DecodeOfEncode(bytes, true);
    }
  }

  /** A challenge some verifier matches is one the authorize step accepts. */
  lemma MatchedChallengeIsValid(sha256: Sha256, verifier: string, challenge: string)
    requires MatchesS256(sha256, verifier, challenge)
    ensures ValidChallenge(challenge)
  {
    ValidChallengeIsEncoderImage(challenge);
  }

  /** Two verifiers match one challenge exactly when they hash alike: the encoding adds no collision. */
  lemma MatchingIsHashEquality(sha256: Sha256, v: string, w: string)
    requires ValidVerifier(v) && ValidVerifier(w)
    ensures MatchesS256(sha256, w, ChallengeS256(sha256, v)) <==> sha256(v) == sha256(w)
  {
    DecodeOfEncode(sha256(v), true);
    DecodeOfEncode(sha256(w), true);
  }
}

# A verified model of the authentication library

This project models, in Dafny, the parts of the library that keep state or decide who may do what,
and proves what they promise over every input and every run:

* **OAuth grants** (`GrantTables`, `Rotation*`, `MemoryStore`, `PostgresStore`): refresh-token rotation. The
  in-memory store looks under its lock, asks the caller's check with the lock let go, and looks again; the
  database store does it in one transaction. Both are proved against one set of functions on tables, and the first is
  proved to refine the second under every interleaving.
* **OAuth endpoints** (`Clients`, `AuthorizeEndpoint`, `DecisionEndpoint`, `TokenEndpoint`, `RevocationEndpoint`, `AccessToken`,
  `Scopes`, `Provenance`, `Purging`): where an access token comes from, and that clearing expired rows cannot be noticed.
* **DPoP** (`ReplayDetector`, `ProofVerifier`, `PathNormalization`): the sweeping memory of proofs against one that
  never forgets, what sweeping costs, the window a proof is accepted in, and the path comparison of RFC 3986.
* **API keys** (`Assertion`, `ApiKeyCruder`, `ApiKeyRuns`): single use of assertions, one live sign-in a key, and
  revocation that stale reads cannot get round.
* **Sessions** (`Authentications`, `SessionToken`, `SessionManager`, `RefreshEndpoints`, `DbscRefreshEndpoint`,
  `SessionRuns`, `SessionProperties`, `DbscInterleavings`): how long a session outlives its sign-in, and single use and progress of the
  challenges a device answers.
* **Self-describing ids and PKCE** (`Base64Url`, `Pkce`, `Strings`, `ClientRegistrar`).

Objects that change in place are classes whose methods are proved against functions of tables; runs are sequences of
steps over those functions, a step being one critical section, transaction or statement. `dafny verify dfyconfig.toml`
checks everything.

## What is assumed

* One clock, which does not go back across steps, and one instant a step. Differences between database and
  server clocks, and time passing within a step, are not modelled.
* Secrets, challenges and ids drawn are new, and ids hold no colon.
* In the refinement, a grant check depends on the grant alone, a record that never changes; in `Provenance` it reads whether
  the account is active, in a step of its own.
* Reading a sign-in and minting a token from it are one step, but in `DbscInterleavings`. Tokens presented are ones that were issued: signatures
  hold.
* SHA-256 gives 32 bytes; HMAC, JSON and URL parsing are functions given, JSON with its round trip. Nothing is assumed of
  them beyond that.
* Strings are sequences of characters; where Go counts bytes, `ByteLength` does.

## Where the code does not do what one might think

Each is kept as it is in the model, with the exact condition for when the property holds.

* A DPoP proof is accepted up to and including its last instant, and for some hundred nanoseconds more where seconds in
  floating point round to that instant, but is remembered only until before it. From that instant on, for as long as the window
  admits it, it is accepted again (`ProofVerifier.AcceptedAgainExactlyAtTheLastInstant`, `TwiceAtTheLastInstant`,
  `TwiceBeyondTheLastInstant`). The comment at pkg/dpop/types/proof_verifier/proof_verifier.go:320 has the two coincide.
* Scopes configured with white space in them are split at consent into scopes the resource does not have, if and only if
  one's words are not scopes of it (`AuthorizeEndpoint.DefaultedScopeIsWithinResource`, `ConfiguredSpaceEscapes`).
* A token's times are in whole seconds, so in the last, partial second of a sign-in every token made for it has expired as it
  is made, and a navigation renews it again, sending the browser round
  (`RefreshEndpoints.NavigationLoopsOnlyAtTheEnd`, `NavigationLoopsInThePartialSecond`); the comment at
  pkg/session/types/navigation_refresh_handler/navigation_refresh_handler.go:167 has it that it cannot.
* Sweeping a replay detector costs two visits for each proof recorded exactly as long as sweeps leave at most half of the
  capacity (`ReplayDetector.AmortisedExactlyUpToHalf`). Past that the rate is the capacity to the room a sweep makes, and no less
  (`SweepCostExactly`, `AmortisedPastHalf`); filled with live proofs, it has none (`NoRateAtCapacity`).
* A registered id's signature is decoded leniently, so that not only the id issued resolves: those do whose signature is
  the issued one but for line breaks and the two leftover bits of its last digit, and no others with its payload
  (`ClientRegistrar.IssuedPayloadResolvesExactly`, `TrailingBreaksResolve`). Which texts are read alike at all is
  `Base64Url.ReadAlikeExactlyWhenClearedAlike`.

## Model

| member | source | states |
|---|---|---|
| GrantTables.RotateRenewsExactly | pkg/oauth/types/memory_store/memory_store.go:139-208 | A rotation renews if and only if the token presented is there with its grant, it is unspent and not at its expiry, the grant is unrevoked and the check lets it pass; then that token alone is spent, and its successor recorded for the same grant with the expiry asked for |
| GrantTables.RotateRefusesExactly | pkg/oauth/types/postgres_store/postgres_store.go:199-234 | What any other rotation answers: reuse exactly for a spent token, whose grant alone is revoked; the check's refusal exactly for a good token; and else not found, changing nothing |
| GrantTables.CommitRenewsExactly | pkg/oauth/types/memory_store/memory_store.go:160-172 | The second look spends exactly a token that is then there with its grant, unspent, unrevoked and in time |
| GrantTables.RevokesExactly | pkg/oauth/types/memory_store/memory_store.go:210-222 | Revoking by a token marks its grant and no other, and no record changes |
| GrantTables.RecordedIsGood | pkg/oauth/types/memory_store/memory_store.go:128-137 | A grant recorded is good by its first token exactly until that token's expiry, and no other grant or token changes |
| RotationRefinement.RunRefines | pkg/oauth/types/memory_store/memory_store.go:139-208 | Every interleaving of rotations (split where the lock is let go for the check), inserts and revocations is a run of the machine whose rotation is one transaction, with the same tables and answers |
| RotationRefinement.CallsAreLinearizable | pkg/oauth/types/memory_store/memory_store.go:139-172 | Each rotation that returns has one step, between the one it began at and the one it returned at, where the single transaction on the tables as they were there gives exactly the tables after it and the answer returned |
| RotationRefinement.CallsRenewExactly | pkg/oauth/types/memory_store/memory_store.go:139-208 | Under every interleaving a call renews if and only if at one step of it the token is there with its grant, unspent and in time, the grant unrevoked, and the check passes |
| RotationRefinement.EndingIsAtomic | pkg/oauth/types/memory_store/memory_store.go:160-172 | With the check passed outside the lock, the second look-and-spend does and answers what look, check and spend at once would have |
| RotationRefinement.StepRefines | pkg/oauth/types/memory_store/memory_store.go:139-222 | Each step of the split protocol is none, one or two steps of the atomic machine |
| Rotation.StepKeepsInv | pkg/oauth/types/memory_store/memory_store.go:128-222 | Every step keeps: each grant's tokens are a chain without repeats, spent all but the last, as long as its renewals and one; calls in progress hold what they saw |
| Rotation.RunKeepsInv | pkg/oauth/types/memory_store/memory_store.go:128-222 | So every state of every run has it |
| RotationProperties.ChainIsAllTokens | pkg/oauth/types/memory_store/memory_store.go:128-172 | The tokens of a grant are exactly its unbranching chain, and its spent ones exactly all but the last |
| RotationProperties.OneUnspentToken | pkg/oauth/types/memory_store/memory_store.go:128-172 | In every reachable state each grant has exactly one unspent refresh token |
| RotationProperties.SpentTokensAreRenewals | pkg/oauth/types/memory_store/memory_store.go:160-172 | The number of a grant's spent tokens is the number of rotations that succeeded for it |
| RotationProperties.FlagsStick | pkg/oauth/types/memory_store/memory_store.go:160-222 | Spent and revoked flags are never cleared, and no grant or token recorded changes or goes |
| RotationProperties.StepTouchesOneGrant | pkg/oauth/types/memory_store/memory_store.go:139-222 | A step leaves every grant but the presented token's, and that grant's tokens, as they were |
| RotationProperties.StrikeRevokes | pkg/oauth/types/memory_store/memory_store.go:189-222 | Presenting a spent token, or revoking by any token, revokes the grant and changes nothing else; a rotation doing so answers reuse |
| RotationProperties.ReuseEndsTheGrant | pkg/oauth/types/memory_store/memory_store.go:160-222 | After that no rotation of the grant, begun before or after, succeeds, and the grant gains no token, over any run |
| RotationProperties.PresentedTwiceRenewsOnce | pkg/oauth/types/memory_store/memory_store.go:139-172 | Of all calls presenting one token at most one is ever answered with a renewal |
| RotationProperties.ExpiredNeverRenews | pkg/oauth/types/memory_store/memory_store.go:199-206 | Over any run no call presenting a token at or past its expiry is answered with a renewal; one that is had its check pass, and its successor has the expiry asked for and the same grant |
| MemoryStore.Store.constructor | pkg/oauth/types/memory_store/memory_store.go:40-53 | An empty store of the accounts |
| MemoryStore.Store.LockAccount | pkg/oauth/types/memory_store/memory_store.go:56-60 | The account is locked, all else as it was |
| MemoryStore.Store.UnlockAccount | pkg/oauth/types/memory_store/memory_store.go:63-67 | The account is no longer locked, all else as it was |
| MemoryStore.Store.AccountActive | pkg/oauth/types/memory_store/memory_store.go:224-228 | Active exactly when known and not locked |
| MemoryStore.Store.InsertAuthorizationRequest | pkg/oauth/types/memory_store/memory_store.go:83-91 | The request is held by the new id, all else as it was |
| MemoryStore.Store.PopAuthorizationRequest | pkg/oauth/types/memory_store/memory_store.go:93-104 | What was held by the id, which is gone after: single use |
| MemoryStore.Store.InsertAuthorizationCode | pkg/oauth/types/memory_store/memory_store.go:106-113 | The code is held by its hash, all else as it was |
| MemoryStore.Store.PopAuthorizationCode | pkg/oauth/types/memory_store/memory_store.go:115-126 | What was held by the hash, which is gone after: single use |
| MemoryStore.Store.InsertGrant | pkg/oauth/types/memory_store/memory_store.go:128-137 | The grant, unrevoked and with its id, and its one unspent token are recorded together |
| MemoryStore.Store.Find | pkg/oauth/types/memory_store/memory_store.go:175-208 | One look at a token: what it comes to, as `GrantTables.CommitRenewsExactly` and `RotateRenewsExactly` have it in the tables' fields, a spent one revoking its grant |
| MemoryStore.Store.SpendHeld | pkg/oauth/types/memory_store/memory_store.go:160-172 | The second critical section: looks again, and spends and replaces in one step, when `GrantTables.CommitRenewsExactly` says |
| MemoryStore.Store.RotateRefreshToken | pkg/oauth/types/memory_store/memory_store.go:139-172 | Undisturbed, does and answers what the one-step rotation does, which `GrantTables.RotateRenewsExactly` states in the tables' fields |
| MemoryStore.Store.RevokeRefreshToken | pkg/oauth/types/memory_store/memory_store.go:210-222 | Revokes the token's grant if it has one; nothing else |
| PostgresStore.PurgeRequests | pkg/oauth/types/postgres_store/postgres_store.go:18-25 | Deleting expired requests leaves exactly those not expired before the instant |
| PostgresStore.PurgeCodes | pkg/oauth/types/postgres_store/postgres_store.go:18-25 | Deleting expired codes leaves exactly those not expired before the instant |
| PostgresStore.Store.constructor | pkg/oauth/types/postgres_store/postgres_store.go:44-49 | Empty tables |
| PostgresStore.Store.InsertAuthorizationRequest | pkg/oauth/types/postgres_store/postgres_store.go:51-75 | Purges, then holds the request; an empty account id is refused and purges nothing |
| PostgresStore.Store.PopAuthorizationRequest | pkg/oauth/types/postgres_store/postgres_store.go:77-100 | What was held by the id, which is gone after; an empty id is an error of its own |
| PostgresStore.Store.InsertAuthorizationCode | pkg/oauth/types/postgres_store/postgres_store.go:102-122 | Purges, then holds the code; a hash still there is refused after the purge |
| PostgresStore.Store.PopAuthorizationCode | pkg/oauth/types/postgres_store/postgres_store.go:124-141 | What was held by the hash, which is gone after; an empty hash is an error of its own |
| PostgresStore.Store.InsertGrant | pkg/oauth/types/postgres_store/postgres_store.go:143-174 | Grant and token recorded in one transaction or, on a duplicate hash, neither |
| PostgresStore.Store.RotateRefreshToken | pkg/oauth/types/postgres_store/postgres_store.go:176-248 | Does and answers what the one-step rotation of `GrantTables.RotateRenewsExactly` does, in one transaction; a duplicate successor rolls everything back |
| PostgresStore.Store.RevokeRefreshToken | pkg/oauth/types/postgres_store/postgres_store.go:250-260 | Revokes the token's grant; an empty hash is refused |
| Provenance.TokensTraceToOneConsent | pkg/oauth/types/endpoint/token_endpoint/token_endpoint.go:151-293 | Over any run each access token issued traces back to exactly one "allow", by the account the token is for, of one request, code and grant, for the same client and resource; the code was redeemed in time by the client consented to, with a verifier that hashes to the challenge in the request consented to, and at its redirect address if one was named; the token's scopes are the grant's or fewer, the grant's are those consented to, and those are words of the resource's scopes, and scopes of it where its scopes are closed under splitting; reading the token back gives its scopes |
| Provenance.OneWordScopesStayInside | pkg/oauth/types/endpoint/authorize_endpoint/authorize_endpoint.go:162-169 | On a server whose configured scopes are one word each, no token has a scope its resource has not |
| Provenance.OneOfEach | pkg/oauth/types/endpoint/decision_endpoint/decision_endpoint.go:87-148 | A request is consented to at most once, yields at most one code, and a code at most one grant |
| Provenance.StepKeepsInv | pkg/oauth/types/endpoint/token_endpoint/token_endpoint.go:151-293 | Every store call of every handler, a refresh's look, check and spending apart, interleaved with any other's, keeps the history well-founded |
| Provenance.RunKeepsInv | pkg/oauth/types/endpoint/token_endpoint/token_endpoint.go:151-293 | So every state of every run has it |
| Provenance.EventsStay | pkg/oauth/types/endpoint/token_endpoint/token_endpoint.go:151-293 | What happened is never undone in the history those count over |
| AuthorizeEndpoint.Handle | pkg/oauth/types/endpoint/authorize_endpoint/authorize_endpoint.go:121-184 | Holds the request the input makes and nothing else, or refuses and holds nothing |
| AuthorizeEndpoint.HeldExactly | pkg/oauth/types/endpoint/authorize_endpoint/authorize_endpoint.go:134-182 | A request is held if and only if the client may be sent to its redirect address, it asks for a code by an S256 challenge that can be one, and its scopes are the named resource's; what is held is the client's, the account's, and the input's own address, state and challenge, for five minutes |
| AuthorizeEndpoint.UnheldIsTold | pkg/oauth/types/endpoint/authorize_endpoint/authorize_endpoint.go:134-170 | Which refusal any other request meets, the first of: its address, response type, challenge, resource, scope |
| Clients.CheckRedirectUri | pkg/oauth/types/client/client.go:23-49 | The loop finds whether the client may be sent to the address |
| Clients.AllowedExactlyWhereRegistered | pkg/oauth/types/client/client.go:23-34 | An address not on the user's machine is allowed if and only if it is registered, character for character |
| Clients.AllowedAtAnyPort | pkg/oauth/types/client/client.go:31-46 | An address on the user's machine, without a fragment, is allowed if and only if one with its host name, path and query is registered, whatever the ports (section 7.3 of RFC 8252) |
| Clients.FewerAllowFewer | pkg/oauth/types/client/client.go:23-49 | A client with fewer addresses may be sent to no more places |
| AuthorizeEndpoint.HeldRequestIsWithinResource | pkg/oauth/types/endpoint/authorize_endpoint/authorize_endpoint.go:158-181 | A held request is for one configured resource and only words of its scopes, and only its scopes where splitting keeps them inside; by a valid challenge, for the signed-in account |
| AuthorizeEndpoint.DefaultedScopeIsWithinResource | pkg/oauth/types/endpoint/authorize_endpoint/authorize_endpoint.go:162-169 | Whatever resources are configured, a held request that named no scope stays within the scopes of the resource found for it exactly when splitting them yields no other |
| AuthorizeEndpoint.ConfiguredSpaceEscapes | pkg/oauth/types/endpoint/authorize_endpoint/authorize_endpoint.go:162-169 | A resource configured with the scope "a b" gets requests for "a" and "b", which it does not have |
| DecisionEndpoint.Handle | pkg/oauth/types/endpoint/decision_endpoint/decision_endpoint.go:82-148 | The request is gone whatever the answer; a code is held exactly when the answer comes to allowing |
| DecisionEndpoint.AllowedMeansConsented | pkg/oauth/types/endpoint/decision_endpoint/decision_endpoint.go:97-139 | Allowed exactly for a timely "allow" by the request's own account, with a code that carries what the request asked, for a minute; and which other answer is given when |
| TokenEndpoint.RedeemCode | pkg/oauth/types/endpoint/token_endpoint/token_endpoint.go:151-215 | The code is gone whatever comes of it; a grant is recorded exactly when a token is issued, which is when `TokenEndpoint.RedeemedExactly` says |
| TokenEndpoint.RedeemedExactly | pkg/oauth/types/endpoint/token_endpoint/token_endpoint.go:151-215 | A code is redeemed if and only if it is in time, the client is its own, the redirect address and resource are its own where named, the verifier is valid and hashes to its challenge, its resource is served, its account active and the token can say all it must; the token is then this |
| TokenEndpoint.UnredeemedIsTold | pkg/oauth/types/endpoint/token_endpoint/token_endpoint.go:159-195 | What a form that redeems nothing is told, and exactly when: the grant is invalid, the target is, or the server failed |
| TokenEndpoint.LifetimesAre | pkg/oauth/types/endpoint/token_endpoint/token_endpoint.go:413-432 | Fifteen minutes, thirty days and ninety days, where nothing else is configured |
| TokenEndpoint.RedeemedChallengeIsValid | pkg/oauth/types/endpoint/token_endpoint/token_endpoint.go:170-184 | A redemption succeeds only for a timely code of an active account whose challenge the authorize step would accept, and the token serves the grant |
| TokenEndpoint.Refresh | pkg/oauth/types/endpoint/token_endpoint/token_endpoint.go:217-293 | The store after is the rotation's and the answer follows from the rotation's |
| TokenEndpoint.CheckPassesExactly | pkg/oauth/types/endpoint/token_endpoint/token_endpoint.go:236-270 | The check lets a grant be renewed if and only if it is the client's, lasts, is for the resource named if any, has every scope asked for, and is still served for an active account |
| TokenEndpoint.RefreshedExactly | pkg/oauth/types/endpoint/token_endpoint/token_endpoint.go:217-293 | A refresh issues a token if and only if the token presented is good and its grant passes that check, in the fields of row, grant and form; the token is then this, with the scopes asked for or else all |
| TokenEndpoint.RefreshServesItsGrant | pkg/oauth/types/endpoint/token_endpoint/token_endpoint.go:236-272 | A token is issued exactly when the grant was renewed, for the grant's account, client and resource and scopes of its own, while the grant lasts and its account is active |
| RevocationEndpoint.Handle | pkg/oauth/types/endpoint/revocation_endpoint/revocation_endpoint.go:56-92 | Revokes the grant of the token presented and answers alike for one never issued; refuses only an empty token |
| Purging.PurgingIsUnobservable | pkg/oauth/types/postgres_store/postgres_store.go:51-141 | Over any interleaving of the handlers' store calls under a clock that does not go back, a store that purges on insert and one that never does hand out the same codes and grants |
| Purging.Serve | pkg/oauth/types/postgres_store/postgres_store.go:51-141 | Each of the endpoints' calls on the database store is the purging operation |
| Oauth.FindUrl | pkg/oauth/oauth.go:36-52 | A resource of that URL, or none exactly when there is none |
| Oauth.FindResource | pkg/oauth/oauth.go:36-52 | The resource named, or the only one where none is named; never one of several |
| Oauth.FoundExactly | pkg/oauth/oauth.go:36-52 | What is found is exactly the first resource at the URL, or the only one where there is none |
| Scopes.SplitJoinRoundTrip | pkg/oauth/types/endpoint/authorize_endpoint/authorize_endpoint.go:162-169 | Splitting what was joined gives the list back exactly when every scope is one word |
| Scopes.SplitJoinStaysInside | pkg/oauth/types/endpoint/authorize_endpoint/authorize_endpoint.go:162-169 | Splitting what was joined stays within the list exactly when every scope's words are in the list |
| AccessToken.Mint | pkg/oauth/types/access_token/access_token.go:59-106 | The claims of a complete token, refused if anything required is missing |
| AccessToken.ClaimsAre | pkg/oauth/types/access_token/access_token.go:59-106 | The claims by their names and no others, times in whole seconds, a scope and a confirmation only where there is one |
| AccessToken.MintRoundTrip | pkg/oauth/types/access_token/access_token.go:59-161 | Reading back a minted token gives it with times in whole seconds exactly when each scope is one word |
| ReplayDetector.Detector.constructor | pkg/dpop/types/memory_replay_detector/memory_replay_detector.go:110-112 | An empty memory |
| ReplayDetector.Detector.Sweep | pkg/dpop/types/memory_replay_detector/memory_replay_detector.go:102-108 | Leaves exactly the live entries, visiting each entry once |
| ReplayDetector.Detector.Observe | pkg/dpop/types/memory_replay_detector/memory_replay_detector.go:58-100 | The answer and memory of one observation, and what it visited |
| ReplayDetector.ObservedExactly | pkg/dpop/types/memory_replay_detector/memory_replay_detector.go:58-108 | Seen, recorded or full, exactly when, by the configured maximum or a hundred thousand; what is forgotten is what had expired, exactly once the map has come to its threshold, and what the threshold then is |
| ReplayDetector.SweepingIsUnobservable | pkg/dpop/types/memory_replay_detector/memory_replay_detector.go:58-108 | Over any calls with nondecreasing time and a fixed capacity the sweeping detector answers each call as one that never forgets |
| ReplayDetector.FullExactlyWhenLiveFill | pkg/dpop/types/memory_replay_detector/memory_replay_detector.go:80-98 | Full is answered exactly when the proof is not remembered as live and at least the capacity of live proofs is remembered |
| ReplayDetector.NeverOverCapacity | pkg/dpop/types/memory_replay_detector/memory_replay_detector.go:58-100 | The map never holds more than the capacity |
| ReplayDetector.LiveIsNeverForgotten | pkg/dpop/types/memory_replay_detector/memory_replay_detector.go:80-108 | A recorded proof is remembered until it expires, whatever is observed and swept |
| ReplayDetector.SweepCostIsAmortised | pkg/dpop/types/memory_replay_detector/memory_replay_detector.go:33-97 | From the start, while each sweep leaves at most half of the capacity, sweeps visit at most two entries for each recorded |
| ReplayDetector.AmortisedExactlyUpToHalf | pkg/dpop/types/memory_replay_detector/memory_replay_detector.go:33-97 | Two entries visited for each recorded is kept to by every run whose sweeps leave at most a given number, if and only if that number is at most half of the capacity |
| ReplayDetector.SweepCostExactly | pkg/dpop/types/memory_replay_detector/memory_replay_detector.go:86-97 | For sweeps that may leave any given number from half of the capacity up, the rates that every run from the start keeps to, and the same for clocks that do not go back, are exactly those no less than the capacity to what is left of it |
| ReplayDetector.AmortisedPastHalf | pkg/dpop/types/memory_replay_detector/memory_replay_detector.go:86-97 | Where sweeps leave half of the capacity or more, but less than all of it, sweeps visit at most as many entries for each recorded as the capacity is to what is left of it |
| ReplayDetector.NoRateAtCapacity | pkg/dpop/types/memory_replay_detector/memory_replay_detector.go:86-97 | Whatever the factor, some run from the start, its clock not going back, visits more than so many entries for each recorded |
| ReplayDetector.FullSweepsEveryCall | pkg/dpop/types/memory_replay_detector/memory_replay_detector.go:86-97 | In a memory full of proofs that stay live, every call visits every entry and records none |
| ProofVerifier.Verifier.constructor | pkg/dpop/types/proof_verifier/proof_verifier.go:516-560 | A verifier with its configuration and detector |
| ProofVerifier.Verifier.Verify | pkg/dpop/types/proof_verifier/proof_verifier.go:105-344 | The checks in order and then the detector, where there is one, asked and changed only if they pass; accepted exactly when `ProofVerifier.AcceptedExactly` says |
| ProofVerifier.AcceptedExactly | pkg/dpop/types/proof_verifier/proof_verifier.go:160-335 | A proof is accepted if and only if it is well made and signed, by the key bound if any, for the request's method and path at an origin of the service, in the window, with an id in bounds, for the access token that came or for none, and is not remembered while fewer than the capacity are; it is then remembered to its last instant |
| ProofVerifier.RefusedForItsFirstFault | pkg/dpop/types/proof_verifier/proof_verifier.go:160-312 | Which refusal any other meets: that of the first of its faults in this order |
| ProofVerifier.ProofIsForOneRequest | pkg/dpop/types/proof_verifier/proof_verifier.go:194-306 | Requests one proof is accepted for, at any services and times, have one method, one access token or none, one path up to equivalence, one key where both are bound, and an origin both services have |
| ProofVerifier.AcceptedOnceInItsWindow | pkg/dpop/types/proof_verifier/proof_verifier.go:245-335 | Two presentations of one key and id are never both accepted before the last instant of the first proof's window, and the second only while the window as it is rounded admits it; with nothing rounded, the same proof at that instant at most |
| ProofVerifier.AcceptedAgainExactlyAtTheLastInstant | pkg/dpop/types/proof_verifier/proof_verifier.go:254-335 | An accepted proof presented again within the window as it is rounded, however often, with no other proof of its id between and fewer live proofs than the capacity, is accepted if and only if it is not before the last instant of its window; with nothing rounded, if and only if it is at that instant |
| ProofVerifier.TwiceAtTheLastInstant | pkg/dpop/types/proof_verifier/proof_verifier.go:254-322 | With nothing rounded, a proof presented twice at that instant is accepted twice |
| ProofVerifier.TwiceBeyondTheLastInstant | pkg/dpop/types/proof_verifier/proof_verifier.go:254-322 | With instants rounded to a quarter of a microsecond, a proof accepted before is accepted again a hundred nanoseconds after it |
| ProofVerifier.AcceptedTargetIsTheRequest | pkg/dpop/types/proof_verifier/proof_verifier.go:396-435 | A proof accepted was made for a path equivalent unit by unit to the request's under sections 6.2.2.1 and 6.2.2.2 of RFC 3986, so of the same bytes and as many segments |
| PathNormalization.NormalizePath | pkg/dpop/types/proof_verifier/proof_verifier.go:441-465 | The loop computes the normal form |
| PathNormalization.UnreservedAre | pkg/dpop/types/proof_verifier/proof_verifier.go:467-476 | Letters, digits, hyphen, full stop, underscore and tilde, by their octets |
| PathNormalization.DigitsAre | pkg/dpop/types/proof_verifier/proof_verifier.go:447-453 | Hexadecimal digits and their values, in either case |
| PathNormalization.EncodingIsRewritten | pkg/dpop/types/proof_verifier/proof_verifier.go:447-457 | An encoding becomes its character if that is unreserved, and else the same octet in upper case |
| PathNormalization.NormalKeepsMeaning | pkg/dpop/types/proof_verifier/proof_verifier.go:441-465 | Normalising keeps a path well-formed and the bytes it stands for, unit by unit |
| PathNormalization.NormalPathIsIdempotent | pkg/dpop/types/proof_verifier/proof_verifier.go:441-465 | Normalising twice is normalising once, for every well-formed path |
| PathNormalization.MalformedIsNotIdempotent | pkg/dpop/types/proof_verifier/proof_verifier.go:441-465 | For "%%341", which is not well-formed and no escaped path of a parsed URL, it is not |
| PathNormalization.AlikeExactlyWhenEquivalent | pkg/dpop/types/proof_verifier/proof_verifier.go:436-476 | Two well-formed paths normalise alike exactly when they agree unit by unit up to digit case and unreserved characters (sections 6.2.2.1 and 6.2.2.2 of RFC 3986), the empty path being "/" |
| PathNormalization.SegmentsNormaliseApart | pkg/dpop/types/proof_verifier/proof_verifier.go:441-465 | The parts before and after a slash are normalised each on its own, and well-formed each on its own |
| PathNormalization.NormalKeepsSegments | pkg/dpop/types/proof_verifier/proof_verifier.go:441-465 | The number of slashes is kept, for every string |
| PathNormalization.EncodedSlashIsNoSlash | pkg/dpop/types/proof_verifier/proof_verifier.go:454-476 | Where two well-formed paths normalise alike, the one has a slash for a unit exactly where the other has, so an encoded slash is never taken for one |
| PathNormalization.EncodedSlashStaysEncoded | pkg/dpop/types/proof_verifier/proof_verifier.go:454-476 | "a%2fb" normalises to "a%2Fb", and not as "a/b" does |
| Assertion.AcceptedWithinRetention | pkg/api_key/assertion/assertion.go:213-229 | Any two instants an assertion is accepted at are less than its lifetime and two leeways apart |
| Assertion.AcceptedExactly | pkg/api_key/assertion/assertion.go:125-271 | An assertion is accepted if and only if it is signed by the key as an API-key assertion, names it, its issuer and audience right where given, its expiry is past less than a minute and within six, it was neither made nor usable more than a minute on, and its identifier has 1 to 256 bytes |
| Assertion.InstantIs | pkg/api_key/assertion/assertion.go:205-247 | A time claimed in seconds is cut to a whole one toward zero |
| Assertion.RetentionIsTight | pkg/api_key/api_key_cruder/api_key_cruder.go:57-73 | No shorter retention would do |
| ApiKeyCruder.Cruder.constructor | pkg/api_key/api_key_cruder/api_key_cruder.go:132-138 | Empty tables |
| ApiKeyCruder.Cruder.Create | pkg/api_key/api_key_cruder/api_key_cruder.go:132-186 | A key not registered yet is registered for the account, else refused and nothing changes |
| ApiKeyCruder.Cruder.SelectForMint | pkg/api_key/api_key_cruder/api_key_cruder.go:325-377 | The key as it is now, if there is one |
| ApiKeyCruder.SelectedIs | pkg/api_key/api_key_cruder/api_key_cruder.go:325-377 | A key is read, field by field, as its row has it |
| ApiKeyCruder.Cruder.RecordMint | pkg/api_key/api_key_cruder/api_key_cruder.go:383-580 | All of the mint is recorded or none: the assertion spent and the expired ones of the key deleted, its live sign-ins extended or one made, its last use set; refused exactly for an unknown or revoked key, a spent assertion or a missing account |
| ApiKeyCruder.RecordedSpends | pkg/api_key/api_key_cruder/api_key_cruder.go:421-457 | A mint leaves its assertion spent for seven minutes and its key used now; only the key's own expired assertions go |
| ApiKeyCruder.RecordedSignsIn | pkg/api_key/api_key_cruder/api_key_cruder.go:459-578 | A mint leaves the key's live sign-ins good for thirty days more, or where none is live makes the one, of the key's account |
| ApiKeyCruder.Cruder.RevokeForAccount | pkg/api_key/api_key_cruder/api_key_cruder.go:253-318 | The account's own unrevoked key is revoked and all its sign-ins ended, at once |
| ApiKeyCruder.RevokedMeans | pkg/api_key/api_key_cruder/api_key_cruder.go:286-312 | The key is revoked as of now and each of its sign-ins has ended, now where it had not; nothing else changes |
| ApiKeyRuns.Serve | pkg/api_key/endpoint/mint_token_endpoint/mint_token_endpoint.go:147-212 | The endpoint from a key read earlier, perhaps stale: verify, revoked, expired, record, in that order; what it answers is stated by `ApiKeyRuns.MintedExactly` |
| ApiKeyRuns.MintedExactly | pkg/api_key/endpoint/mint_token_endpoint/mint_token_endpoint.go:147-212 | However stale the read, a request issues if and only if its assertion is the key's and timely, and by the key's row it is neither expired nor revoked, the assertion unspent and the account there; and exactly when each refusal is given |
| ApiKeyRuns.MintLeavesOneSignIn | pkg/api_key/api_key_cruder/api_key_cruder.go:459-578 | A mint that issues leaves its key exactly one live sign-in, its account's, good for thirty days |
| ApiKeyRuns.RowChangesExactly | pkg/api_key/api_key_cruder/api_key_cruder.go:253-512 | Of a key's row only its last use changes, by mints that issue, and its revocation, once and by its own account |
| ApiKeyRuns.StepKeepsInv | pkg/api_key/api_key_cruder/api_key_cruder.go:253-580 | Every step of interleaved mints, revocations and ends keeps: a linked sign-in is its key's account's, a revoked key's are ended, at most one per key is live |
| ApiKeyRuns.LiveSignIns | pkg/api_key/api_key_cruder/api_key_cruder.go:514-578 | At every moment of every run at most one sign-in of a key is live, and none of a revoked key |
| ApiKeyRuns.RevokedKeyGainsNothing | pkg/api_key/api_key_cruder/api_key_cruder.go:286-487 | Once a key is revoked it mints nothing and gains no sign-in, however stale the read a request goes by |
| ApiKeyRuns.ExpiredKeyMintsNothing | pkg/api_key/api_key_cruder/api_key_cruder.go:106-108 | A key's expiry never moves, and from it on the key mints nothing and gains no sign-in over any run, however stale the read a request goes by |
| ApiKeyRuns.DeadStaysDead | pkg/api_key/api_key_cruder/api_key_cruder.go:514-578 | A sign-in ended or expired is never live again |
| ApiKeyRuns.SpentStays | pkg/api_key/api_key_cruder/api_key_cruder.go:436-457 | A spent assertion's row survives every sweep until its time |
| ApiKeyRuns.AssertionMintsOnce | pkg/api_key/api_key_cruder/api_key_cruder.go:421-457 | Over any run an assertion mints at most once; presented again at any time to any audience it is refused as invalid, spent already or its key's fault, never as the server's |
| Authentications.Database.constructor | pkg/database/authentication.go:30-36 | No sign-ins and no challenges |
| Authentications.Database.InsertAuthentication | pkg/database/authentication.go:38-127 | A sign-in is recorded; an id token that made one already is refused |
| Authentications.Database.SelectRefreshAuthentication | pkg/database/authentication.go:158-209 | The sign-in with its account, if there is one |
| Authentications.SelectedIs | pkg/database/authentication.go:158-209 | A sign-in is read, field by field, as its row has it, with the account the row names |
| Authentications.Database.UpdateWithDbscPublicKey | pkg/database/authentication.go:253-290 | The key is put on the sign-in, if there is one |
| Authentications.Database.UpdateWithEnded | pkg/database/authentication.go:292-320 | The sign-in is ended, as of now, if there is one |
| Authentications.EndedIs | pkg/database/authentication.go:292-320 | Of the sign-in's row only that it has ended, and when, and nothing of any other |
| Authentications.Database.InsertDbscChallenge | pkg/database/authentication.go:445-481 | The challenge is held for the duration; an empty one or no duration is refused |
| Authentications.Database.PopDbscChallenge | pkg/database/authentication.go:483-516 | Its expiry, the challenge gone whatever that is |
| SessionManager.CreateSession | pkg/session/types/session_manager/session_manager.go:125-398 | The refusals in order; a row, its first challenge and a session, and what each failure leaves behind, as `SessionManager.CreatedExactly` states them |
| SessionManager.CreatedExactly | pkg/session/types/session_manager/session_manager.go:125-398 | A sign-in makes a session if and only if the server is set up, the account is there, whole and unlocked, its id token unused and challenges last some time; the row, the challenge and every claim of the token are then these: issuer and audience the server's own, the roles the account's, tenant the customer's, times those of the sign-in |
| SessionManager.UncreatedIsTold | pkg/session/types/session_manager/session_manager.go:160-250 | Which refusal any other sign-in meets: no account, a locked one, or a used id token |
| SessionManager.ClaimsParse | pkg/session/types/session_token/session_token.go:257-305 | The claims made for a sign-in are always read back; as its id, its account's and its customer's if and only if those hold no colon |
| SessionManager.MintedExactlyWhileLive | pkg/session/types/session_manager/session_manager.go:573-745 | A token is minted if and only if the sign-in has not ended or expired and its account is whole and unlocked, and says: the server as issuer, the audience asked for or else its own domain, sign-in, account and tenant, the account's roles in both places, when it was signed in, issued and may be used, and the earlier of the sign-in's end and the duration as expiry, in whole seconds |
| SessionManager.SessionMintedExactly | pkg/session/types/session_manager/session_manager.go:758-820 | A session is minted exactly so, to the server's own domain, in a cookie that ends with the token for a device and else with the sign-in |
| SessionManager.RenewedExactly | pkg/session/types/session_manager/session_manager.go:400-560 | A session is renewed if and only if it has not been idle past the bound and its sign-in is live and its account unlocked; and exactly when each refusal is given |
| SessionManager.RenewalKeepsTheSession | pkg/session/types/session_token/session_token.go:161-205 | However long a chain of renewals, the subject, sign-in, tenant and key binding and every other claim but the times, methods and roles stay; roles and times, in whole seconds, are the last renewal's |
| SessionManager.IdleBoundsTheGap | pkg/session/types/session_manager/session_manager.go:434-458 | With an idle bound, successive renewals are at most the session duration and the bound apart, and none is further than the bound past the sign-in's end |
| RefreshEndpoints.RefreshedExactlyInItsLastThird | pkg/session/types/endpoint/refresh_endpoint/refresh_endpoint.go:67-153 | The endpoint renews a token if and only if it is not left to its device, at most a third of its span remains, it has not been idle past the bound, and its sign-in is live and its account unlocked |
| RefreshEndpoints.AskingEveryThirdKeepsASession | pkg/session/types/endpoint/refresh_endpoint/refresh_endpoint.go:119-134 | Put off once, a client asking again within a third of its token's span finds it unexpired, and is put off or renewed, the first token of a provider sign-in included |
| RefreshEndpoints.AskingInGoodTimeNeverExpires | pkg/session/types/endpoint/refresh_endpoint/refresh_endpoint.go:119-153 | However often it asks, each time within a third of the span of the token it then holds, a client never finds that token or its cookie expired and is never refused, while its sign-in stands with three seconds left |
| RefreshEndpoints.CookieOutlivesItsToken | pkg/session/types/session_manager/session_manager.go:522-529 | The cookie expires no sooner than its token and no later than its sign-in, and with the sign-in unless a device renewed it |
| RefreshEndpoints.NavigatedExactly | pkg/session/types/navigation_refresh_handler/navigation_refresh_handler.go:158-245 | A navigation renews if and only if the token has expired and is not a device's, its sign-in is there, bound to no device and may still be renewed; refuses exactly where only that last fails; and else does nothing |
| RefreshEndpoints.NavigationLoopsOnlyAtTheEnd | pkg/session/types/navigation_refresh_handler/navigation_refresh_handler.go:158-245 | At the same instant a token just renewed is not renewed again by navigating if and only if its expiry, cut to whole seconds, is still to come; for durations of a second or more, if and only if it is before the sign-in's last whole second |
| RefreshEndpoints.RenewedIsRenewedAgain | pkg/session/types/navigation_refresh_handler/navigation_refresh_handler.go:158-245 | When, at any later time and whatever has become of the sign-in, a navigation renews a token just renewed: if and only if the whole second it expires at has come and the sign-in may still be renewed by cookie |
| RefreshEndpoints.NavigationLoopsInThePartialSecond | pkg/session/types/navigation_refresh_handler/navigation_refresh_handler.go:167-172 | With a sign-in ending at 100.5 seconds, at 100.2 the token made expired at 100 and is renewed again |
| Strings.CutOfJoin | pkg/session/types/session_token/session_token.go:257-305 | Two parts joined come apart as they were exactly when the first does not hold the separator |
| DbscRefreshEndpoint.IssueChallenge | pkg/session/types/endpoint/dbsc_refresh_endpoint/dbsc_refresh_endpoint.go:150-170 | A fresh challenge held for the sign-in and given out, unless challenges last no time |
| DbscRefreshEndpoint.ConsumeChallenge | pkg/session/types/dbsc_session_response_processor/dbsc_session_response_processor.go:300-349 | The challenge is gone, and whether it was there and in time |
| DbscRefreshEndpoint.Serve | pkg/session/types/endpoint/dbsc_refresh_endpoint/dbsc_refresh_endpoint.go:92-275 | The answer and the tables after it, case by case: demand, ended, bad proof, spent or expired challenge, mint and seed |
| DbscRefreshEndpoint.UnprovenAnsweredExactly | pkg/session/types/endpoint/dbsc_refresh_endpoint/dbsc_refresh_endpoint.go:118-238 | Without a proof a pending challenge is demanded; an ended or expired sign-in, one without a key and another's proof are each told so, exactly, and change nothing |
| DbscRefreshEndpoint.ProvenAnsweredExactly | pkg/session/types/endpoint/dbsc_refresh_endpoint/dbsc_refresh_endpoint.go:228-275 | An own proof takes its challenge away; pending and in time it is answered with a session and the next challenge, and otherwise with a new challenge, which is then pending |
| SessionRuns.StepKeepsInv | pkg/session/types/session_manager/session_manager.go:125-820 | Every step of sign-ins, renewals, device renewals, API-key mints, key bindings, ends and account changes keeps: tokens within their bounds and their sign-in's; challenges given out once, pending until redeemed or expired, each redeemed once and in time; no id token used twice |
| SessionRuns.RunKeepsInv | pkg/session/types/session_manager/session_manager.go:125-820 | So every state of every run has it |
| SessionProperties.TokensAreBounded | pkg/session/types/session_manager/session_manager.go:641-695 | Over any run each token names its sign-in and its account and expires by its issue and the duration used, and by the expiry its sign-in's row has in the state after the step that issued it |
| SessionProperties.TokensAreForTheirAudience | pkg/session/types/session_manager/session_manager.go:714-724 | Over any run every token issued, renewals of renewals included, has the server for issuer, and for audience its own domain or one that a mint for an API key asked for |
| SessionProperties.TokensSayWhatWasSo | pkg/session/types/session_manager/session_manager.go:322-332 | Over any run every token issued has the roles its account had at the step that issued it, and expires, in whole seconds, exactly at the earlier of its duration and the expiry its sign-in then had |
| SessionProperties.NothingIssuedOnceEnded | pkg/session/types/session_token/session_token.go:131-159 | Once a sign-in has ended it stays so, and no step issues a token for it |
| SessionProperties.EndingASignInEndsItsSessions | pkg/session/types/session_token/session_token.go:131-205 | No token naming a sign-in that has ended is unexpired later than the longest duration after, over any run |
| SessionProperties.DeviceSessionsInjectIntoChallenges | pkg/session/types/endpoint/dbsc_refresh_endpoint/dbsc_refresh_endpoint.go:150-275 | Sessions minted for a device inject into the challenges given to its sign-in: each for one given before, redeemed once and in time |
| DbscInterleavings.InterleavedSessionsInject | pkg/session/types/endpoint/dbsc_refresh_endpoint/dbsc_refresh_endpoint.go:172-275 | However the statements of handlers interleave -- reading the sign-in, taking the challenge, minting, giving the next -- sessions minted for devices inject into the challenges given to their sign-ins, each taken in time |
| DbscInterleavings.UndisturbedIsTheHandler | pkg/session/types/endpoint/dbsc_refresh_endpoint/dbsc_refresh_endpoint.go:172-275 | With nothing in between, the statements come to what the handler does at once |
| SessionProperties.RedeemedProofIsChallengedAgain | pkg/session/types/endpoint/dbsc_refresh_endpoint/dbsc_refresh_endpoint.go:224-248 | A proof of a challenge once redeemed is answered with a fresh challenge, ever after |
| SessionProperties.ExpiredProofIsChallengedAgain | pkg/session/types/endpoint/dbsc_refresh_endpoint/dbsc_refresh_endpoint.go:224-248 | A proof of a challenge past the expiry it was given out with is answered with a fresh challenge, whatever was tried meanwhile |
| SessionProperties.OwnProofAnsweredExactly | pkg/session/types/endpoint/dbsc_refresh_endpoint/dbsc_refresh_endpoint.go:172-275 | After any run, a device's own proof is answered with a fresh challenge if and only if the one it signs was never given to its sign-in, has expired or was redeemed; otherwise with a session, if and only if the account may sign in |
| SessionProperties.LeftUntilPresented | pkg/database/authentication.go:440-516 | A challenge given out stays as it is until it is presented, whatever else happens |
| SessionProperties.DemandedChallengeMints | pkg/session/types/endpoint/dbsc_refresh_endpoint/dbsc_refresh_endpoint.go:172-275 | The timely first proof of a challenge demanded mints a session while the sign-in is live, after any other steps; the token ends with the sign-in or the duration, in whole seconds, and the cookie with the token |
| ClientRegistrar.New | pkg/oauth/types/client_registrar/client_registrar.go:100-115 | Refused exactly for a short key or a rule with no host or rooted path; keeps the rules given, nil ones left out |
| ClientRegistrar.Resolve | pkg/oauth/types/client_registrar/client_registrar.go:215-251 | The client an id resolves to |
| ClientRegistrar.SignedResolvesExactly | pkg/oauth/types/client_registrar/client_registrar.go:215-251 | An id of a payload and a signature resolves if and only if the signature is the payload's, it reads as a registration, and an address of it is allowed |
| ClientRegistrar.ResolvedIsSentWithinTheRules | pkg/oauth/types/client/client.go:23-49 | Wherever a client that resolves may be sent is on the user's machine, where that is let, or an address it registered that some rule in force names |
| ClientRegistrar.ResolvedIsSentNowhereNew | pkg/oauth/types/client_registrar/client_registrar.go:207-251 | Under whatever rules it resolves, a client may be sent nowhere it could not when it registered |
| ClientRegistrar.Allowed | pkg/oauth/types/client_registrar/client_registrar.go:239-247 | The addresses kept are exactly those allowed, all of them if all are |
| ClientRegistrar.AllowsRedirectExactly | pkg/oauth/types/client_registrar/client_registrar.go:56-62 | An address is allowed if and only if it has at most 512 bytes and parses to one on the user's machine, where those are let, without query or fragment, or to one that some rule names: https, its host exactly, its prefix and one segment more, and nothing else |
| ClientRegistrar.AllowedKeepsCounts | pkg/oauth/types/client_registrar/client_registrar.go:239-247 | An address allowed is kept as often as it was registered |
| ClientRegistrar.KeptAre | pkg/oauth/types/client_registrar/client_registrar.go:104-113 | Every rule is kept as often as it was given |
| ClientRegistrar.RegisteredExactly | pkg/oauth/types/client_registrar/client_registrar.go:156-198 | A client registers if and only if it is a public one of the code flow with one to ten addresses, each allowed, and a name of at most a hundred characters; its name is the one given but for white space around it, its id the signed registration; and which refusal any other meets |
| ClientRegistrar.TrimmedOf | pkg/oauth/types/client_registrar/client_registrar.go:173 | Only white space is left off a name, and none is left at either end |
| ClientRegistrar.ReadOfId | pkg/oauth/types/client_registrar/client_registrar.go:190-238 | An id is read back as what was registered exactly when the key signs it the same |
| ClientRegistrar.RegisteredClientResolves | pkg/oauth/types/client_registrar/client_registrar.go:156-251 | A registered id resolves under the same rules to the client registered, under others to exactly its addresses still allowed, in order, and to nothing when there are none |
| ClientRegistrar.AnotherKeyKnowsNoClient | pkg/oauth/types/client_registrar/client_registrar.go:15-16 | Under any key a registered id resolves exactly when that key signs the id's own text the same and an address is still allowed; so under a key that signs it differently it is unknown |
| ClientRegistrar.IssuedPayloadResolvesExactly | pkg/oauth/types/client_registrar/client_registrar.go:215-251 | Of the ids with an issued payload, exactly those resolve whose signature is the issued one but for line breaks and the leftover bits of its last digit |
| ClientRegistrar.TrailingBreaksResolve | pkg/oauth/types/client_registrar/client_registrar.go:215-251 | A registered id with line breaks after it resolves to the same client |
| ClientRegistrar.ResolvedWasSigned | pkg/oauth/types/client_registrar/client_registrar.go:215-251 | What resolves is a payload signed by the key, and its client is the payload's |
| Base64Url.DecodeOfEncode | pkg/pkce/pkce.go:46-60 | Decoding, strict or not, undoes encoding |
| Base64Url.StrictDecodeIsInverse | pkg/pkce/pkce.go:46-54 | A text decodes strictly to bytes exactly when it is, line breaks left out, their encoding |
| Base64Url.LenientDecodeReads | pkg/oauth/types/client_registrar/client_registrar.go:228-236 | A text decodes leniently to bytes exactly when it is, line breaks left out and leftover bits made zero, their encoding |
| Base64Url.ReadAlikeExactlyWhenClearedAlike | pkg/oauth/types/client_registrar/client_registrar.go:228-236 | Two texts are read leniently alike exactly when they are equal once line breaks are left out and leftover bits made zero |
| Base64Url.EncodedDigits | pkg/oauth/types/client_registrar/client_registrar.go:190-196 | An encoding has only the alphabet's digits, so no dot, and a length that depends on the bytes' alone |
| Base64Url.EncodedGroupwise | pkg/oauth/types/client_registrar/client_registrar.go:190-196 | Each three bytes are written as the four digits, in base 64, of the number they are; the last group padded with zeros, and digits that are padding alone left off (section 4 of RFC 4648) |
| Base64Url.AlphabetIs | pkg/pkce/pkce.go:56-60 | The digits of the URL-safe alphabet, by their codes |
| Base64Url.BytesOf | pkg/dpop/types/proof_verifier/proof_verifier.go:281-285 | A string's bytes are its characters', one to four each by the ranges of UTF-8 |
| Base64Url.LenientDecodeIsNotOneToOne | pkg/oauth/types/client_registrar/client_registrar.go:228-236 | Line breaks aside, a text other than the encoding is read leniently for the bytes if and only if their number is no multiple of three |
| Pkce.ValidChallengeIsEncoderImage | pkg/pkce/pkce.go:46-54 | A challenge is valid exactly when it is the encoding of some 32 bytes |
| Pkce.MatchedChallengeIsValid | pkg/pkce/pkce.go:46-70 | A challenge some verifier matches is one the authorize step accepts |
| Pkce.ValidVerifierIs | pkg/pkce/pkce.go:30-42 | A verifier is valid exactly with 43 to 128 characters, each an unreserved one, by their codes |
| Pkce.MatchingIsHashEquality | pkg/pkce/pkce.go:56-70 | Two verifiers match one challenge exactly when they hash alike |

## Left out

- MemoryStore.Store.RotateRefreshToken: states what the call does undisturbed, because a method body cannot let other calls in between its two critical sections; module Rotation has every interleaving of them.
- SessionManager.CreateSession: takes the account as already selected by its email address, and leaves out the client metadata stored with the row.
- DbscRefreshEndpoint.Serve: takes headers as read and the proof as its claims and the key it verifies by; a registered key that does not parse is not modelled, nor a database refusing a challenge for a sign-in it does not have, its schema being no part of the repository.
- ClientRegistrar.Resolve: takes URL parsing, JSON and HMAC as functions given, and so says nothing of who could compute an HMAC.
- ProofVerifier.Verifier.Verify: what floating point makes of the window is two functions given, and a time of issue is a whole number of nanoseconds, where the claim may have a finer fraction.
- TokenEndpoint.Refresh: has the store to itself, and reads whether the account is active in the step that rotates; modules RotationRefinement and Provenance have the interleavings.
- Authentications.Database.InsertAuthentication: leaves out the client metadata stored with the row.
- RefreshEndpoints.NavigationLoopsOnlyAtTheEnd: whether a request is a navigation with an address to go back to is a parameter.
- Encoding and decoding of session tokens: in `SessionRuns` a token presented is one issued, but that its times, methods and roles may be any.
- API-key sign-ins in `SessionRuns` are extended or made in one step with the minting, which `ApiKeyRuns` has in full.
- HTTP: headers, bodies, forms, cookies' attributes, redirects, pages, content security policy, logging and masking.
- Cryptography, JWT and JWS parsing, x509 and JSON: a token, proof or assertion is its claims and whether it verified.
- `makeOrigin` and URL parsing: an origin is given, or there is none.
- `isUuid`, `Admits`, `checkBinding` and the token extractors are each one short scan or branch.
- SQL itself, connection errors, cancelled contexts and timeouts: a transaction happens as one step or not at all. Constraints of the database are modelled where the code handles their violation.
- Sign-in by an identity provider, its callback and its flow rows, magic links, passkeys and the client metadata cache: the same single-use and cache arguments again.
- Listing keys and reading them in bulk, which change nothing.
- That a device-bound session is never renewed by cookie: the refresh endpoint leaves alone only tokens whose method says so.

/** What every run of sessions keeps to: how long tokens outlive their sign-in, and what challenges are good for. */
module SessionProperties {
  import opened Wrappers
  import opened Oauth
  import opened Authentications
  import opened SessionToken
  import opened SessionManager
  import opened SessionRuns
  import D = DbscRefreshEndpoint

  // --- How long a token is good for ---

  function Max(a: int, b: int): int {
    if a < b then b else a
  }

  /** The longest any token is made to last. */
  function Longest(c: Setup): (r: int)
    ensures forall d :: Within(c, d) ==> d <= r
  {
    Max(c.m.initialSessionDuration, Max(Max(c.refreshDuration, c.navigationDuration), Max(c.dbscDuration, c.keyDuration)))
  }

  lemma NewlyIssued(c: Setup, s: State, step: Step, e: Event)
    requires Inv(c, s) && Enabled(s, step) && e in Next(c, s, step).log && e !in s.log && e.Issued?
    ensures var rows := Next(c, s, step).tables.rows; e.signIn in rows && rows[e.signIn].expiresAt == e.until
    ensures e.at == step.now
  {
    EffectTokens(c, s, step, e);
  }

  /** The token was issued by the run's `k`th step, its sign-in having until `e.until` as that step left it. */
  ghost predicate IssuedBy(c: Setup, s: State, steps: seq<Step>, k: nat, e: Event)
    requires e.Issued?
  {
    && 0 < k <= |steps| && steps[k - 1].now == e.at
    && var rows := After(c, s, steps[..k]).tables.rows;
      e.signIn in rows && rows[e.signIn].expiresAt == e.until
  }

  lemma IssuedByTheLast(c: Setup, s: State, steps: seq<Step>, e: Event)
    requires steps != [] && Inv(c, After(c, s, steps[..|steps| - 1]))
    requires Enabled(After(c, s, steps[..|steps| - 1]), steps[|steps| - 1])
    requires e in After(c, s, steps).log && e !in After(c, s, steps[..|steps| - 1]).log && e.Issued?
    ensures IssuedBy(c, s, steps, |steps|, e)
  {
    NewlyIssued(c, After(c, s, steps[..|steps| - 1]), steps[|steps| - 1], e);
    assert steps[..|steps|] == steps;
  }

  lemma {:induction false} IssuedByAStep(c: Setup, s: State, steps: seq<Step>, e: Event) returns (k: nat)
    requires Initial(s) && Run(c, s, steps)
    requires e in After(c, s, steps).log && e.Issued?
    ensures IssuedBy(c, s, steps, k, e)
  {
    var before := steps[..|steps| - 1];
    if e in After(c, s, before).log {
      k := IssuedByAStep(c, s, before, e);
      assert before[..k] == steps[..k];
    } else {
      k := |steps|;
      RunKeepsInv(c, s, before);
      IssuedByTheLast(c, s, steps, e);
    }
  }

  /**
  Whatever the run, a token names the sign-in it was issued for and its account, and lasts no longer than the longest
  duration from the step that issued it, nor than that sign-in then had.
  */
  lemma TokensAreBounded(c: Setup, s: State, steps: seq<Step>, e: Event) returns (k: nat)
    requires Initial(s) && Run(c, s, steps)
    requires e in After(c, s, steps).log && e.Issued?
    ensures var t := After(c, s, steps).tables;
      && e.token.authenticationId == e.signIn && e.signIn in t.rows && e.token.subjectId == t.rows[e.signIn].accountId
      && e.token.claims.expiresAt <= e.at + e.duration && e.duration <= Longest(c)
    ensures 0 < k <= |steps| && e.at == steps[k - 1].now
    ensures var rows := After(c, s, steps[..k]).tables.rows;
      e.signIn in rows && e.token.claims.expiresAt <= e.until == rows[e.signIn].expiresAt
  {
    RunKeepsInv(c, s, steps);
    var after := After(c, s, steps);
    assert TokenOk(c, after.tables, after.clock, e);
    k := IssuedByAStep(c, s, steps, e);
  }

  // --- What a token says ---

  /** The token is of the sign-in as its row is and for its account as that is: its times, and its roles. */
  ghost predicate OfItsRow(t: Tables, e: Event)
    requires e.Issued?
  {
    && e.signIn in t.rows && t.rows[e.signIn].accountId in t.accounts
    && var (said, row) := (e.token.claims, t.rows[e.signIn]);
      && said.notBefore == WholeSeconds(e.at)
      && said.expiresAt == WholeSeconds(if e.at + e.duration < row.expiresAt then e.at + e.duration else row.expiresAt)
      && said.roles == t.accounts[row.accountId].roles && e.token.roles == t.accounts[row.accountId].roles
  }

  /** By the server, to its own domain or to the audience the step asked for. */
  ghost predicate FirstSaid(c: Setup, action: Action, e: Event)
    requires e.Issued?
  {
    && e.token.claims.issuer == c.m.issuer
    && e.token.claims.audience == if action.KeyMint? && action.audience != "" then action.audience else c.m.cookieDomain
  }

  /** By whom and to whom as a token issued before. */
  ghost predicate SaidAgain(log: seq<Event>, e: Event)
    requires e.Issued?
  {
    exists old_ :: old_ in log && old_.Issued? && SameSession(old_.token, e.token)
  }

  lemma SignInSays(c: Setup, s: State, step: Step, e: Event)
    requires Enabled(s, step) && step.action.SignIn?
    requires e in EffectOf(c, s.tables, step.action, step.now).events && e.Issued?
    ensures FirstSaid(c, step.action, e) && OfItsRow(EffectOf(c, s.tables, step.action, step.now).tables, e)
  {
    var a := step.action;
    CreatedExactly(c.m, s.tables, a.method_, a.holder, a.idTokenHash, step.now, a.draws);
  }

  lemma RenewalSays(c: Setup, s: State, step: Step, e: Event)
    requires Enabled(s, step) && (step.action.Refresh? || step.action.Navigate?)
    requires e in EffectOf(c, s.tables, step.action, step.now).events && e.Issued?
    ensures SaidAgain(s.log, e) && OfItsRow(EffectOf(c, s.tables, step.action, step.now).tables, e)
  {
    var token := step.action.token;
    var old_ :| old_ in s.log && old_.Issued? && SameSession(old_.token, token);
    assert SameSession(token, e.token);
  }

  lemma DbscSays(c: Setup, s: State, step: Step, e: Event)
    requires Enabled(s, step) && step.action.DbscRefresh?
    requires e in EffectOf(c, s.tables, step.action, step.now).events && e.Issued?
    ensures FirstSaid(c, step.action, e) && OfItsRow(EffectOf(c, s.tables, step.action, step.now).tables, e)
  {
    var a := step.action;
    DbscKeepsRows(c.Dbsc(), s.tables, a.id, a.proof, step.now, a.newChallenge, a.sessionId);
    SessionMintedExactly(c.m, Select(s.tables, a.id).value, METHOD_DBSC, c.dbscDuration, step.now, a.sessionId);
  }

  lemma KeyMintSays(c: Setup, s: State, step: Step, e: Event)
    requires Enabled(s, step) && step.action.KeyMint?
    requires e in EffectOf(c, s.tables, step.action, step.now).events && e.Issued?
    ensures FirstSaid(c, step.action, e) && OfItsRow(EffectOf(c, s.tables, step.action, step.now).tables, e)
  {
    var a := step.action;
    var selected := Select(KeyRows(c, s.tables, a.id, a.accountId, step.now), a.id).value;
    MintedExactlyWhileLive(
      c.m, selected, METHOD_API_KEY, c.keyDuration, a.audience, a.keyThumbprint, step.now, a.sessionId);
  }

  lemma NewTokenSays(c: Setup, s: State, step: Step, e: Event)
    requires Enabled(s, step) && e in Next(c, s, step).log && e !in s.log && e.Issued?
    ensures FirstSaid(c, step.action, e) || SaidAgain(s.log, e)
    ensures OfItsRow(Next(c, s, step).tables, e)
  {
    match step.action
    case SignIn(_, _, _, _) => SignInSays(c, s, step, e);
    case DbscRefresh(_, _, _, _) => DbscSays(c, s, step, e);
    case KeyMint(_, _, _, _, _) => KeyMintSays(c, s, step, e);
    case BindKey(_, _) =>
    case End(_) =>
    case ChangeAccount(_) =>
    case _ => RenewalSays(c, s, step, e);
  }

  /** The audience is the server's own, or a mint for an API key asked for it. */
  ghost predicate AskedFor(c: Setup, steps: seq<Step>, audience: string) {
    audience == c.m.cookieDomain
    || exists k :: 0 <= k < |steps| && steps[k].action.KeyMint? && steps[k].action.audience == audience
  }

  lemma AskedForStill(c: Setup, steps: seq<Step>, n: nat, audience: string)
    requires n <= |steps| && AskedFor(c, steps[..n], audience)
    ensures AskedFor(c, steps, audience)
  {
    if audience != c.m.cookieDomain {
      var k :| 0 <= k < n && steps[..n][k].action.KeyMint? && steps[..n][k].action.audience == audience;
      assert steps[k] == steps[..n][k];
    }
  }

  /** Whatever the run, every token issued is the server's word, to its own domain or to an audience asked for. */
  lemma {:induction false} TokensAreForTheirAudience(c: Setup, s: State, steps: seq<Step>, e: Event)
    requires Initial(s) && Run(c, s, steps) && e in After(c, s, steps).log && e.Issued?
    ensures e.token.claims.issuer == c.m.issuer && AskedFor(c, steps, e.token.claims.audience)
  {
    var n := |steps| - 1;
    var mid, step := After(c, s, steps[..n]), steps[n];
    if e in mid.log {
      TokensAreForTheirAudience(c, s, steps[..n], e);
      AskedForStill(c, steps, n, e.token.claims.audience);
    } else {
      NewTokenSays(c, mid, step, e);
      if FirstSaid(c, step.action, e) {
        assert steps[n].action == step.action;
      } else {
        var old_ :| old_ in mid.log && old_.Issued? && SameSession(old_.token, e.token);
        TokensAreForTheirAudience(c, s, steps[..n], old_);
        AskedForStill(c, steps, n, old_.token.claims.audience);
      }
    }
  }

  /** The token was issued by the run's `k`th step, and says what was so once that step was done. */
  ghost predicate SaidBy(c: Setup, s: State, steps: seq<Step>, k: nat, e: Event)
    requires e.Issued?
  {
    && 0 < k <= |steps| && e.at == steps[k - 1].now
    && e in After(c, s, steps[..k]).log && e !in After(c, s, steps[..k - 1]).log
    && OfItsRow(After(c, s, steps[..k]).tables, e)
  }

  lemma SaidByTheLast(c: Setup, s: State, steps: seq<Step>, e: Event)
    requires steps != [] && Inv(c, After(c, s, steps[..|steps| - 1]))
    requires Enabled(After(c, s, steps[..|steps| - 1]), steps[|steps| - 1])
    requires e in After(c, s, steps).log && e !in After(c, s, steps[..|steps| - 1]).log && e.Issued?
    ensures SaidBy(c, s, steps, |steps|, e)
  {
    NewTokenSays(c, After(c, s, steps[..|steps| - 1]), steps[|steps| - 1], e);
    NewlyIssued(c, After(c, s, steps[..|steps| - 1]), steps[|steps| - 1], e);
    assert steps[..|steps|] == steps;
  }

  /**
  Whatever the run, a token was issued with the times and the roles its sign-in and account had when it was: it expires,
  in whole seconds, as its duration or its sign-in does, and names no role given or taken since.
  */
  lemma {:induction false} TokensSayWhatWasSo(c: Setup, s: State, steps: seq<Step>, e: Event) returns (k: nat)
    requires Initial(s) && Run(c, s, steps) && e in After(c, s, steps).log && e.Issued?
    ensures SaidBy(c, s, steps, k, e)
  {
    var before := steps[..|steps| - 1];
    if e in After(c, s, before).log {
      k := TokensSayWhatWasSo(c, s, before, e);
      assert before[..k] == steps[..k] && before[..k - 1] == steps[..k - 1];
    } else {
      k := |steps|;
      RunKeepsInv(c, s, before);
      SaidByTheLast(c, s, steps, e);
    }
  }

  /** A sign-in that has ended stays so, and no token is issued for it again. */
  lemma {:induction false} NothingIssuedOnceEnded(c: Setup, s: State, steps: seq<Step>, id: Id)
    requires Inv(c, s) && Run(c, s, steps) && id in s.tables.rows && s.tables.rows[id].ended
    ensures var after := After(c, s, steps);
      && id in after.tables.rows && after.tables.rows[id].ended
      && forall e :: e in after.log && e.Issued? && e.signIn == id ==> e in s.log
  {
    if steps != [] {
      var before, step := steps[..|steps| - 1], steps[|steps| - 1];
      NothingIssuedOnceEnded(c, s, before, id);
      RunKeepsInv(c, s, before);
      var mid := After(c, s, before);
      EffectRows(c, mid, step);
      forall e | e in After(c, s, steps).log && e.Issued? && e.signIn == id
        ensures e in s.log
      {
        if e !in mid.log {
          EffectTokens(c, mid, step, e);
        }
      }
    }
  }

  /**
  Ending a sign-in ends its sessions: by the longest duration there is after it ended, whatever was
  tried meanwhile, no token naming it is unexpired.
  */
  lemma EndingASignInEndsItsSessions(c: Setup, s: State, steps: seq<Step>, id: Id, e: Event)
    requires Inv(c, s) && Run(c, s, steps) && id in s.tables.rows && s.tables.rows[id].ended
    requires e in After(c, s, steps).log && e.Issued? && e.token.authenticationId == id
    ensures e.token.claims.expiresAt <= s.clock + Longest(c)
  {
    NothingIssuedOnceEnded(c, s, steps, id);
    RunKeepsInv(c, s, steps);
    var after := After(c, s, steps);
    assert TokenOk(c, after.tables, after.clock, e);
    assert TokenOk(c, s.tables, s.clock, e);
  }

  // --- What a challenge is good for ---

  /**
  The sessions minted for devices inject into the challenges given out: each is minted for one given to
  its own sign-in before, redeemed then and in time, and no two for the same.
  */
  lemma DeviceSessionsInjectIntoChallenges(c: Setup, s: State, steps: seq<Step>, i: nat, j: nat)
    requires Initial(s) && Run(c, s, steps)
    requires i < |After(c, s, steps).log| && j < |After(c, s, steps).log|
    requires ByDbsc(After(c, s, steps).log[i]) && ByDbsc(After(c, s, steps).log[j])
    ensures var log := After(c, s, steps).log;
      && i + 1 < |log| && j + 1 < |log| && log[i + 1].Redeemed? && log[j + 1].Redeemed?
      && (i != j ==> log[i + 1].challenge != log[j + 1].challenge)
      && log[i + 1].challenge.authenticationId == log[i].token.authenticationId
      && Challenged(log[i + 1].challenge, log[i + 1].expiresAt) in log[..i + 1]
      && log[i].at <= log[i + 1].expiresAt
  {
    RunKeepsInv(c, s, steps);
    var log := After(c, s, steps).log;
    assert ByDbsc(log[i]) && ByDbsc(log[j]);
    assert RedeemedInTime(log[..i + 1], log[i + 1]);
  }

  lemma UnspentIsDemanded(
    e: D.Endpoint, t: Tables, id: Id, proof: D.Proof, now: Time, newChallenge: string, sessionId: string)
    requires D.OwnProof(t, id, proof, now) && proof.jti.Some? && proof.jti.value != "" && e.challengeDuration != 0
    requires D.Redeem(t, proof.jti, id, now) != D.Spent
    ensures D.Handle(e, t, id, Some(proof), now, newChallenge, sessionId).answer == D.ChallengeDemanded(newChallenge)
  {
  }

  /** A proof of a challenge once redeemed is never good again: it is answered with a new challenge. */
  lemma {:induction false} RedeemedProofIsChallengedAgain(
    c: Setup, s: State, steps: seq<Step>, e: Event, proof: D.Proof, now: Time, newChallenge: string, sessionId: string)
    requires Inv(c, s) && Run(c, s, steps) && e in s.log && e.Redeemed?
    requires c.challengeDuration != 0
    requires var t := After(c, s, steps).tables;
      D.OwnProof(t, e.challenge.authenticationId, proof, now) && proof.jti == Some(e.challenge.challenge)
    ensures D.Handle(c.Dbsc(), After(c, s, steps).tables, e.challenge.authenticationId, Some(proof), now,
      newChallenge, sessionId)
            .answer == D.ChallengeDemanded(newChallenge)
  {
    RunKeepsInv(c, s, steps);
    LogGrows(c, s, steps);
    var log := After(c, s, steps).log;
    var i :| 0 <= i < |log| && log[i] == e;
    assert RedeemedInTime(log[..i], log[i]);
    assert e.challenge == Challenge(e.challenge.challenge, e.challenge.authenticationId);
    UnspentIsDemanded(
      c.Dbsc(), After(c, s, steps).tables, e.challenge.authenticationId, proof, now, newChallenge, sessionId);
  }

  /**
  A challenge given out expires as it said, whatever is tried: from then on its proof is answered with a new
  challenge.
  */
  lemma ExpiredProofIsChallengedAgain(
    c: Setup, s: State, steps: seq<Step>, ch: Challenge, expiresAt: Time, proof: D.Proof, now: Time, newChallenge: string,
    sessionId: string)
    requires (Initial(s) || Inv(c, s)) && Run(c, s, steps) && Challenged(ch, expiresAt) in After(c, s, steps).log
    requires expiresAt < now && c.challengeDuration != 0
    requires D.OwnProof(After(c, s, steps).tables, ch.authenticationId, proof, now) && proof.jti == Some(ch.challenge)
    ensures D.Handle(c.Dbsc(), After(c, s, steps).tables, ch.authenticationId, Some(proof), now, newChallenge, sessionId)
            .answer == D.ChallengeDemanded(newChallenge)
  {
    RunKeepsInv(c, s, steps);
    var after := After(c, s, steps);
    assert Challenged(ch, expiresAt).challenge.challenge != "";
    if ch in after.tables.challenges {
      PendingAsGivenOut(after.tables, after.log, Challenged(ch, expiresAt));
    }
    assert ch == Challenge(ch.challenge, ch.authenticationId);
    UnspentIsDemanded(c.Dbsc(), after.tables, ch.authenticationId, proof, now, newChallenge, sessionId);
  }

  /** Given out, in time, and not redeemed before. */
  ghost predicate Answerable(log: seq<Event>, ch: Challenge, now: Time) {
    (exists expiresAt :: Challenged(ch, expiresAt) in log && now <= expiresAt) && !WasRedeemed(log, ch)
  }

  /** A challenge is there to be redeemed exactly when it was given out, is in time and has not been redeemed. */
  lemma RedeemableExactlyWhenAnswerable(c: Setup, s: State, ch: Challenge, now: Time)
    requires Inv(c, s) && s.clock <= now && ch.challenge != ""
    ensures D.Redeem(s.tables, Some(ch.challenge), ch.authenticationId, now) == D.Spent <==> Answerable(s.log, ch, now)
  {
    assert Challenge(ch.challenge, ch.authenticationId) == ch;
    if ch in s.tables.challenges {
      assert Challenged(ch, s.tables.challenges[ch]) in s.log;
      forall expiresAt | Challenged(ch, expiresAt) in s.log ensures s.tables.challenges[ch] == expiresAt {
        PendingAsGivenOut(s.tables, s.log, Challenged(ch, expiresAt));
      }
    }
  }

  /**
  How a device's own proof is answered, after any run: with a new challenge if and only if the one it signs was never
  given to its sign-in, has expired or has been redeemed; otherwise with a session, if and only if its account may sign in.
  */
  lemma OwnProofAnsweredExactly(
    c: Setup, s: State, steps: seq<Step>, id: Id, proof: D.Proof, now: Time, newChallenge: string, sessionId: string)
    requires (Initial(s) || Inv(c, s)) && Run(c, s, steps) && After(c, s, steps).clock <= now
    requires D.OwnProof(After(c, s, steps).tables, id, proof, now) && proof.jti.Some? && proof.jti.value != ""
    requires c.challengeDuration != 0 && c.m.cookieDomain != ""
    ensures var (log, t) := (After(c, s, steps).log, After(c, s, steps).tables);
      var answer := D.Handle(c.Dbsc(), t, id, Some(proof), now, newChallenge, sessionId).answer;
      var answerable := Answerable(log, Challenge(proof.jti.value, id), now);
      var account := Select(t, id).value.account;
      && (answer == D.ChallengeDemanded(newChallenge) <==> !answerable)
      && (answer.Minted? <==> answerable && !account.locked && CompleteAccount(account))
      && (answer.Refused? <==> answerable && (account.locked || !CompleteAccount(account)))
  {
    RunKeepsInv(c, s, steps);
    var t := After(c, s, steps).tables;
    RedeemableExactlyWhenAnswerable(c, After(c, s, steps), Challenge(proof.jti.value, id), now);
    MintedExactlyWhileLive(c.m, Select(t, id).value, METHOD_DBSC, c.dbscDuration, "", "", now, sessionId);
  }

  lemma {:induction false} LogGrows(c: Setup, s: State, steps: seq<Step>)
    requires Run(c, s, steps)
    ensures s.log <= After(c, s, steps).log && s.clock <= After(c, s, steps).clock
  {
    if steps != [] {
      LogGrows(c, s, steps[..|steps| - 1]);
    }
  }

  /** The step does not present the challenge. */
  predicate Leaves(ch: Challenge, step: Step) {
    match step.action
    case DbscRefresh(id, proof, _, _) => !(id == ch.authenticationId && proof.Some? && proof.value.jti ==
      Some(ch.challenge))
    case BindKey(token, proof) => !(token.authenticationId == ch.authenticationId && proof.jti == Some(ch.challenge))
    case _ => true
  }

  lemma LeftByAStep(c: Setup, s: State, step: Step, ch: Challenge)
    requires PendingOk(s.tables, s.log) && Enabled(s, step) && Leaves(ch, step) && ch in s.tables.challenges
    ensures var u := EffectOf(c, s.tables, step.action, step.now).tables;
      ch in u.challenges && u.challenges[ch] == s.tables.challenges[ch]
  {
    assert Challenged(ch, s.tables.challenges[ch]) in s.log;
    match step.action
    case DbscRefresh(id, proof, newChallenge, sessionId) =>
      if proof.Some? && InOrder(s.tables, id, proof.value, step.now) {
        InOrderEffect(c, s.tables, id, proof.value, newChallenge, sessionId, step.now);
      } else {
        OutOfOrderEffect(c, s.tables, id, proof, newChallenge, sessionId, step.now);
      }
    case _ =>
  }

  lemma {:induction false} LeftUntilPresented(c: Setup, s: State, steps: seq<Step>, ch: Challenge)
    requires Inv(c, s) && Run(c, s, steps) && ch in s.tables.challenges
    requires forall step :: step in steps ==> Leaves(ch, step)
    ensures var t := After(c, s, steps).tables;
      ch in t.challenges && t.challenges[ch] == s.tables.challenges[ch]
  {
    if steps != [] {
      var before := steps[..|steps| - 1];
      LeftUntilPresented(c, s, before, ch);
      RunKeepsInv(c, s, before);
      LeftByAStep(c, After(c, s, before), steps[|steps| - 1], ch);
    }
  }

  /** Whoever is told to sign a challenge has it pending, for as long as challenges last. */
  lemma DemandedIsPending(
    e: D.Endpoint, t: Tables, id: Id, proof: Option<D.Proof>, now: Time, newChallenge: string, sessionId: string)
    requires D.Handle(e, t, id, proof, now, newChallenge, sessionId).answer.ChallengeDemanded?
    ensures var reply := D.Handle(e, t, id, proof, now, newChallenge, sessionId);
      && reply.answer.challenge == newChallenge
      && Challenge(newChallenge, id) in reply.tables.challenges
      && reply.tables.challenges[Challenge(newChallenge, id)] == now + e.challengeDuration
  {
  }

  lemma PendingChallengeMints(
    c: Setup, t: Tables, id: Id, proof: D.Proof, now: Time, newChallenge: string, sessionId: string)
    requires AccountsOk(t) && RowsOk(t) && D.OwnProof(t, id, proof, now) && D.Redeem(t, proof.jti, id, now) == D.Spent
    requires c.m.cookieDomain != "" && !Select(t, id).value.account.locked && CompleteAccount(Select(t, id).value.account)
    ensures var answer := D.Handle(c.Dbsc(), t, id, Some(proof), now, newChallenge, sessionId).answer;
      && answer.Minted?
      && answer.session.token.authenticationId == id
      && answer.session.token.claims.expiresAt == WholeSeconds(Earlier(now + c.dbscDuration, t.rows[id].expiresAt))
      && answer.session.cookieExpiresAt == answer.session.token.claims.expiresAt
  {
    MintedExactlyWhileLive(c.m, Select(t, id).value, METHOD_DBSC, c.dbscDuration, "", "", now, sessionId);
  }

  /**
  A challenge demanded is progress: whatever else happens, the device's proof of it, presented for the
  first time and in time, mints a session while the sign-in is live and its account may sign in.
  */
  lemma {:induction false} DemandedChallengeMints(
    c: Setup, s: State, demand: Step, steps: seq<Step>, proof: D.Proof, now: Time, newChallenge: string,
    sessionId: string)
    requires Inv(c, s) && Enabled(s, demand) && demand.action.DbscRefresh?
    requires var a := demand.action;
      D.Handle(c.Dbsc(), s.tables, a.id, a.proof, demand.now, a.newChallenge, a.sessionId).answer.ChallengeDemanded?
    requires Run(c, Next(c, s, demand), steps)
    requires forall step :: step in steps ==> Leaves(Challenge(demand.action.newChallenge, demand.action.id), step)
    requires now <= demand.now + c.challengeDuration && c.m.cookieDomain != ""
    requires var t := After(c, Next(c, s, demand), steps).tables;
      && D.OwnProof(t, demand.action.id, proof, now) && proof.jti == Some(demand.action.newChallenge)
      && var account := Select(t, demand.action.id).value.account;
        !account.locked && CompleteAccount(account)
    ensures var t := After(c, Next(c, s, demand), steps).tables;
      var answer := D.Handle(c.Dbsc(), t, demand.action.id, Some(proof), now, newChallenge, sessionId).answer;
      && answer.Minted?
      && answer.session.token.authenticationId == demand.action.id
      && answer.session.token.claims.expiresAt == WholeSeconds(Earlier(now + c.dbscDuration,
        t.rows[demand.action.id].expiresAt))
      && answer.session.cookieExpiresAt == answer.session.token.claims.expiresAt
  {
    var a := demand.action;
    var s' := Next(c, s, demand);
    StepKeepsInv(c, s, demand);
    DemandedIsPending(c.Dbsc(), s.tables, a.id, a.proof, demand.now, a.newChallenge, a.sessionId);
    LeftUntilPresented(c, s', steps, Challenge(a.newChallenge, a.id));
    RunKeepsInv(c, s', steps);
    PendingChallengeMints(c, After(c, s', steps).tables, a.id, proof, now, newChallenge, sessionId);
  }
}

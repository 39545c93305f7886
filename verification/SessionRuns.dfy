/**
Sessions over whole runs: sign-ins, renewals by cookie and by device key, tokens minted for API keys,
keys bound, sign-ins ended and accounts changed, in any order, each step at one instant of a clock
that does not go back. Ids and challenges drawn are new, and tokens presented are ones issued.
*/
module SessionRuns {
  import opened Wrappers
  import opened Oauth
  import opened Authentications
  import opened SessionToken
  import opened SessionManager
  import opened RefreshEndpoints
  import D = DbscRefreshEndpoint

  datatype Setup = Setup(
    m: Manager, refreshDuration: int, navigationDuration: int, dbscDuration: int, challengeDuration: int,
    keyDuration: int, keySignInDuration: int)
  {
    function Dbsc(): D.Endpoint {
      D.Endpoint(m, dbscDuration, challengeDuration)
    }
  }

  datatype Use = Bound | Minted(token: Token) | Wasted

  /** `until` is when the token's sign-in expired as of then. */
  datatype Event =
    | Issued(signIn: Id, token: Token, at: Time, duration: int, until: Time)
    | Challenged(challenge: Challenge, expiresAt: Time)
    | Redeemed(challenge: Challenge, expiresAt: Time, at: Time, use: Use)

  datatype State = State(tables: Tables, log: seq<Event>, clock: Time)

  datatype Action =
    | SignIn(method_: string, holder: Option<Account>, idTokenHash: string, draws: Draws)
    | Refresh(token: Token)
    | Navigate(token: Token)
    | DbscRefresh(id: Id, proof: Option<D.Proof>, newChallenge: string, sessionId: string)
    | KeyMint(id: Id, accountId: Id, audience: string, keyThumbprint: string, sessionId: string)
    | BindKey(token: Token, registration: D.Proof)
    | End(id: Id)
    | ChangeAccount(account: Account)

  datatype Step = Step(action: Action, now: Time)

  datatype Effect = Effect(tables: Tables, events: seq<Event>)

  // --- What each step does ---

  function SignInEffect(
    c: Setup, t: Tables, method_: string, account: Option<Account>, idTokenHash: string, draws: Draws,
    now: Time): Effect
  {
    var created := Create(c.m, t, method_, account, idTokenHash, now, draws);
    var until := now + c.m.authenticationDuration;
    Effect(
      created.tables,
      if created.answer.Failure? then []
      else [
        Challenged(Challenge(draws.challenge, draws.authenticationId), now + c.m.dbscChallengeDuration),
        Issued(draws.authenticationId, created.answer.value.token, now, c.m.initialSessionDuration, until)])
  }

  function RenewalEffect(t: Tables, id: Id, outcome: Outcome, duration: int, now: Time): Effect {
    Effect(
      t,
      if outcome.RenewedWith? && id in t.rows then [Issued(id, outcome.session.token, now, duration, t.rows[id].expiresAt)]
      else [])
  }

  /** The event of a proof's challenge being redeemed, if it was. */
  function Redemptions(t: Tables, jti: Option<string>, id: Id, now: Time, use: Use): seq<Event> {
    if D.Redeem(t, jti, id, now) == D.Spent then
      var c := Challenge(jti.value, id);
      [Redeemed(c, t.challenges[c], now, use)]
    else []
  }

  /** The event of a challenge given out, if one was. */
  function Given(challenge: Option<string>, id: Id, duration: int, now: Time): seq<Event> {
    if challenge == None then [] else [Challenged(Challenge(challenge.value, id), now + duration)]
  }

  function DbscEffect(
    c: Setup, t: Tables, id: Id, proof: Option<D.Proof>, newChallenge: string, sessionId: string, now: Time): Effect
  {
    var reply := D.Handle(c.Dbsc(), t, id, proof, now, newChallenge, sessionId);
    Effect(
      reply.tables,
      match reply.answer
      case ChallengeDemanded(challenge) => Given(Some(challenge), id, c.challengeDuration, now)
      case Minted(session, next) =>
        (if id in t.rows then [Issued(id, session.token, now, c.dbscDuration, t.rows[id].expiresAt)] else [])
        + Redemptions(t, proof.value.jti, id, now, Minted(session.token))
        + Given(next, id, c.challengeDuration, now)
      case Refused(_) => Redemptions(t, proof.value.jti, id, now, Wasted)
      case _ => [])
  }

  /** The key's live sign-in is extended, or one is made; then a token is minted for it. */
  function KeyRows(c: Setup, t: Tables, id: Id, accountId: Id, now: Time): Tables {
    if id in t.rows then t.(rows := t.rows[id := t.rows[id].(expiresAt := now + c.keySignInDuration)])
    else Inserted(t, id, accountId, "", c.keySignInDuration, now)
  }

  function KeyEffect(
    c: Setup, t: Tables, id: Id, accountId: Id, audience: string, keyThumbprint: string, sessionId: string,
    now: Time): Effect
  {
    var recorded := KeyRows(c, t, id, accountId, now);
    var a := Select(recorded, id);
    if a == None then Effect(recorded, [])
    else
      var minted := MintToken(c.m, a.value, METHOD_API_KEY, c.keyDuration, audience, keyThumbprint, now, sessionId);
      Effect(
        recorded,
        if minted.Failure? then [] else [Issued(id, minted.value, now, c.keyDuration, a.value.expiresAt)])
  }

  /** Registering a device's key, with a proof of the challenge the sign-in came with. */
  function BindEffect(t: Tables, id: Id, proof: D.Proof, now: Time): Effect {
    if !proof.wellFormed then Effect(t, [])
    else
      var taken := D.Taken(t, proof.jti, id);
      if D.Redeem(t, proof.jti, id, now) != D.Spent then Effect(taken, [])
      else
        Effect(
          if id in t.rows && proof.signedBy != ""
          then taken.(rows := t.rows[id := t.rows[id].(dbscPublicKey := proof.signedBy)]) else taken,
          Redemptions(t, proof.jti, id, now, Bound))
  }

  function EffectOf(c: Setup, t: Tables, action: Action, now: Time): Effect {
    match action
    case SignIn(method_, account, idTokenHash, draws) => SignInEffect(c, t, method_, account, idTokenHash, draws, now)
    case Refresh(token) =>
      RenewalEffect(
        t, token.authenticationId,
        RefreshEndpoint(c.m, token, Select(t, token.authenticationId), c.refreshDuration, now), c.refreshDuration, now)
    case Navigate(token) =>
      RenewalEffect(
        t, token.authenticationId,
        Navigation(c.m, true, Some(token), Select(t, token.authenticationId), c.navigationDuration, now),
        c.navigationDuration, now)
    case DbscRefresh(id, proof, newChallenge, sessionId) => DbscEffect(c, t, id, proof, newChallenge, sessionId, now)
    case KeyMint(id, accountId, audience, keyThumbprint, sessionId) =>
      KeyEffect(c, t, id, accountId, audience, keyThumbprint, sessionId, now)
    case BindKey(token, proof) => BindEffect(t, token.authenticationId, proof, now)
    case End(id) => Effect(Ended(t, id, now), [])
    case ChangeAccount(account) => Effect(t.(accounts := t.accounts[account.id := account]), [])
  }

  // --- What may be asked for ---

  predicate PlainId(id: Id) {
    id != "" && ':' !in id
  }

  predicate NewId(s: State, id: Id) {
    PlainId(id) && id !in s.tables.rows
  }

  ghost predicate NewChallenge(log: seq<Event>, challenge: string) {
    challenge != "" && forall e :: e in log && e.Challenged? ==> e.challenge.challenge != challenge
  }

  /** Signatures make a token presented one issued; what is proved rests on nothing of its times, methods or roles. */
  ghost predicate WasIssued(log: seq<Event>, token: Token) {
    exists e :: e in log && e.Issued? && SameSession(e.token, token)
  }

  ghost predicate Enabled(s: State, step: Step) {
    && s.clock <= step.now
    && match step.action
       case SignIn(method_, account, _, draws) =>
         && method_ != METHOD_DBSC && NewId(s, draws.authenticationId) && NewChallenge(s.log, draws.challenge)
         && (account.Some? ==>
             account.value.id in s.tables.accounts && s.tables.accounts[account.value.id] == account.value)
       case Refresh(token) => WasIssued(s.log, token)
       case Navigate(token) => WasIssued(s.log, token)
       case DbscRefresh(_, _, newChallenge, _) => NewChallenge(s.log, newChallenge)
       case KeyMint(id, accountId, _, _, _) =>
         && accountId in s.tables.accounts
         && (NewId(s, id) || (id in s.tables.rows && !s.tables.rows[id].ended && step.now < s.tables.rows[id].expiresAt))
       case BindKey(token, _) => WasIssued(s.log, token)
       case End(_) => true
       case ChangeAccount(account) => PlainId(account.id)
  }

  ghost function Next(c: Setup, s: State, step: Step): State {
    var effect := EffectOf(c, s.tables, step.action, step.now);
    State(effect.tables, s.log + effect.events, step.now)
  }

  ghost predicate Run(c: Setup, s: State, steps: seq<Step>) {
    steps == [] || (Run(c, s, steps[..|steps| - 1]) && Enabled(After(c, s, steps[..|steps| - 1]), steps[|steps| - 1]))
  }

  ghost function After(c: Setup, s: State, steps: seq<Step>): State {
    if steps == [] then s else Next(c, After(c, s, steps[..|steps| - 1]), steps[|steps| - 1])
  }

  ghost predicate Initial(s: State) {
    s.tables.rows == map[] && s.tables.challenges == map[] && s.log == [] && AccountsOk(s.tables)
  }

  // --- What every run keeps ---

  ghost predicate AccountsOk(t: Tables) {
    forall id :: id in t.accounts ==> PlainId(id) && t.accounts[id].id == id
  }

  ghost predicate RowsOk(t: Tables) {
    forall id :: id in t.rows ==> PlainId(id) && t.rows[id].accountId in t.accounts
  }

  predicate Within(c: Setup, duration: int) {
    duration in {c.m.initialSessionDuration, c.refreshDuration, c.navigationDuration, c.dbscDuration, c.keyDuration}
  }

  /** A token issued is its sign-in's, and its account's, and ends no later than the sign-in then would. */
  ghost predicate TokenOk(c: Setup, t: Tables, clock: Time, e: Event)
    requires e.Issued?
  {
    && e.signIn in t.rows && e.token.authenticationId == e.signIn && e.token.subjectId == t.rows[e.signIn].accountId
    && e.token.claims.expiresAt <= e.until && e.token.claims.expiresAt <= e.at + e.duration
    && e.at <= clock && Within(c, e.duration)
  }

  ghost predicate TokensOk(c: Setup, t: Tables, log: seq<Event>, clock: Time) {
    forall e {:trigger TokenOk(c, t, clock, e)} :: e in log && e.Issued? ==> TokenOk(c, t, clock, e)
  }

  /** Challenges still to be answered were given out, and have not been. */
  ghost predicate PendingOk(t: Tables, log: seq<Event>) {
    && (forall c :: c in t.challenges ==> Challenged(c, t.challenges[c]) in log)
    && (forall c, e :: c in t.challenges && e in log && e.Redeemed? ==> e.challenge != c)
  }

  ghost predicate WasRedeemed(log: seq<Event>, ch: Challenge) {
    exists e :: e in log && e.Redeemed? && e.challenge == ch
  }

  /** Challenges given out that are in time and have not been redeemed are pending still. */
  ghost predicate NoneLost(t: Tables, log: seq<Event>, clock: Time) {
    forall e :: e in log && e.Challenged? && clock <= e.expiresAt && !WasRedeemed(log, e.challenge) ==> e.challenge in t.challenges
  }

  /** No challenge is given out twice. */
  ghost predicate ChallengedOnce(log: seq<Event>) {
    && (forall e :: e in log && e.Challenged? ==> e.challenge.challenge != "")
    && forall i, j :: 0 <= i < j < |log| && log[i].Challenged? && log[j].Challenged? ==>
      log[i].challenge.challenge != log[j].challenge.challenge
  }

  ghost predicate RedeemedInTime(log: seq<Event>, e: Event)
    requires e.Redeemed?
  {
    && Challenged(e.challenge, e.expiresAt) in log && e.at <= e.expiresAt && e.challenge.challenge != ""
    && (e.use.Minted? ==>
        e.use.token.authenticationId == e.challenge.authenticationId
        && e.use.token.claims.authenticationMethods == [METHOD_DBSC])
  }

  ghost predicate RedeemedOk(log: seq<Event>) {
    && (forall i {:trigger log[i]} :: 0 <= i < |log| && log[i].Redeemed? ==> RedeemedInTime(log[..i], log[i]))
    && (forall i, j :: 0 <= i < j < |log| && log[i].Redeemed? && log[j].Redeemed? ==> log[i].challenge != log[j].challenge)
  }

  predicate ByDbsc(e: Event) {
    e.Issued? && e.token.claims.authenticationMethods == [METHOD_DBSC]
  }

  /** A session minted for a device is the one its proof's challenge was redeemed for. */
  ghost predicate DbscOk(log: seq<Event>) {
    forall i {:trigger ByDbsc(log[i])} :: 0 <= i < |log| && ByDbsc(log[i]) ==>
      i + 1 < |log| && log[i + 1].Redeemed? && log[i + 1].use == Minted(log[i].token) && log[i + 1].at == log[i].at
  }

  /** No sign-in token has made two sign-ins. */
  ghost predicate HashesOk(t: Tables) {
    forall a, b :: a in t.rows && b in t.rows && t.rows[a].idTokenHash.Some? && t.rows[a].idTokenHash == t.rows[b].idTokenHash
      ==> a == b
  }

  ghost predicate Inv(c: Setup, s: State) {
    && AccountsOk(s.tables) && RowsOk(s.tables) && HashesOk(s.tables)
    && TokensOk(c, s.tables, s.log, s.clock)
    && PendingOk(s.tables, s.log) && RedeemedOk(s.log) && DbscOk(s.log)
    && NoneLost(s.tables, s.log, s.clock) && ChallengedOnce(s.log)
  }

  // --- Each step keeps it ---

  ghost predicate RowsGrow(t: Tables, u: Tables) {
    && t.accounts.Keys <= u.accounts.Keys
    && forall id :: id in t.rows ==>
      id in u.rows && u.rows[id].accountId == t.rows[id].accountId && (t.rows[id].ended ==> u.rows[id].ended)
  }

  /** A device's renewal touches nothing but challenges. */
  lemma DbscKeepsRows(
    e: D.Endpoint, t: Tables, id: Id, proof: Option<D.Proof>, now: Time, newChallenge: string, sessionId: string)
    ensures var u := D.Handle(e, t, id, proof, now, newChallenge, sessionId).tables;
      u.rows == t.rows && u.accounts == t.accounts
  {
  }

  ghost predicate TablesKept(t: Tables, u: Tables) {
    RowsGrow(t, u) && AccountsOk(u) && RowsOk(u)
  }

  lemma SameRowsKept(t: Tables, u: Tables)
    requires AccountsOk(t) && RowsOk(t) && u.rows == t.rows && u.accounts == t.accounts
    ensures TablesKept(t, u)
  {
  }

  lemma OneRowKept(t: Tables, u: Tables, id: Id, row: Row)
    requires AccountsOk(t) && RowsOk(t) && u.rows == t.rows[id := row] && u.accounts == t.accounts
    requires if id in t.rows then row.accountId == t.rows[id].accountId && (t.rows[id].ended ==> row.ended)
      else PlainId(id) && row.accountId in t.accounts
    ensures TablesKept(t, u)
  {
  }

  lemma SignInKeeps(
    c: Setup, t: Tables, method_: string, holder: Option<Account>, idTokenHash: string, draws: Draws, now: Time)
    requires AccountsOk(t) && RowsOk(t) && PlainId(draws.authenticationId) && draws.authenticationId !in t.rows
    requires holder.Some? ==> holder.value.id in t.accounts
    ensures TablesKept(t, SignInEffect(c, t, method_, holder, idTokenHash, draws, now).tables)
  {
    var u := Create(c.m, t, method_, holder, idTokenHash, now, draws).tables;
    if u.rows == t.rows {
      SameRowsKept(t, u);
    } else {
      var row := Row(
        holder.value.id, now, now + c.m.authenticationDuration, false, None, "", StoredHash(idTokenHash));
      OneRowKept(t, u, draws.authenticationId, row);
    }
  }

  lemma BindKeeps(t: Tables, id: Id, proof: D.Proof, now: Time)
    requires AccountsOk(t) && RowsOk(t)
    ensures TablesKept(t, BindEffect(t, id, proof, now).tables)
  {
    var u := BindEffect(t, id, proof, now).tables;
    if u.rows == t.rows {
      SameRowsKept(t, u);
    } else {
      OneRowKept(t, u, id, t.rows[id].(dbscPublicKey := proof.signedBy));
    }
  }

  lemma EffectRows(c: Setup, s: State, step: Step)
    requires Enabled(s, step) && AccountsOk(s.tables) && RowsOk(s.tables)
    ensures TablesKept(s.tables, EffectOf(c, s.tables, step.action, step.now).tables)
  {
    var t := s.tables;
    match step.action
    case SignIn(method_, holder, idTokenHash, draws) => SignInKeeps(c, t, method_, holder, idTokenHash, draws, step.now);
    case DbscRefresh(id, proof, newChallenge, sessionId) =>
      DbscKeepsRows(c.Dbsc(), t, id, proof, step.now, newChallenge, sessionId);
      SameRowsKept(t, D.Handle(c.Dbsc(), t, id, proof, step.now, newChallenge, sessionId).tables);
    case KeyMint(id, accountId, audience, _, _) =>
      var u := KeyRows(c, t, id, accountId, step.now);
      OneRowKept(t, u, id, u.rows[id]);
    case BindKey(token, proof) => BindKeeps(t, token.authenticationId, proof, step.now);
    case End(id) =>
      if id in t.rows {
        OneRowKept(t, Ended(t, id, step.now), id, t.rows[id].(ended := true, endedAt := Some(step.now)));
      }
    case _ =>
  }

  lemma EffectHashes(c: Setup, s: State, step: Step)
    requires Enabled(s, step) && HashesOk(s.tables)
    ensures HashesOk(EffectOf(c, s.tables, step.action, step.now).tables)
  {
    match step.action
    case DbscRefresh(id, proof, newChallenge, sessionId) =>
      DbscKeepsRows(c.Dbsc(), s.tables, id, proof, step.now, newChallenge, sessionId);
    case _ =>
  }

  lemma PresentedIsItsAccounts(c: Setup, s: State, token: Token)
    requires TokensOk(c, s.tables, s.log, s.clock) && WasIssued(s.log, token)
    ensures token.authenticationId in s.tables.rows && s.tables.rows[token.authenticationId].accountId == token.subjectId
  {
    var e :| e in s.log && e.Issued? && SameSession(e.token, token);
    assert TokenOk(c, s.tables, s.clock, e);
  }

  lemma SignInTokens(
    c: Setup, t: Tables, method_: string, holder: Option<Account>, idTokenHash: string, draws: Draws, now: Time,
    e: Event)
    requires PlainId(draws.authenticationId) && (holder.Some? ==> PlainId(holder.value.id))
    requires e in SignInEffect(c, t, method_, holder, idTokenHash, draws, now).events && e.Issued?
    ensures TokenOk(c, SignInEffect(c, t, method_, holder, idTokenHash, draws, now).tables, now, e)
    ensures e.at == now && e.signIn == draws.authenticationId
    ensures e.until == SignInEffect(c, t, method_, holder, idTokenHash, draws, now).tables.rows[e.signIn].expiresAt
  {
    var a := Authentication(draws.authenticationId, false, now, now + c.m.authenticationDuration, "", holder.value);
    ClaimsParse(c.m, a, c.m.cookieDomain, method_, c.m.initialSessionDuration, now, draws.sessionId);
  }

  lemma RenewalTokens(
    c: Setup, t: Tables, token: Token, outcome: Outcome, duration: int, method_: string, now: Time, e: Event)
    requires token.authenticationId in t.rows && t.rows[token.authenticationId].accountId == token.subjectId
    requires Within(c, duration)
    requires outcome.RenewedWith? ==>
      var selected := Select(t, token.authenticationId);
      selected.Some? && RefreshSession(c.m, selected.value, token, method_, duration, now) == Success(outcome.session)
    requires e in RenewalEffect(t, token.authenticationId, outcome, duration, now).events
    ensures e.Issued? && TokenOk(c, t, now, e) && e.at == now && !t.rows[e.signIn].ended
    ensures e.until == t.rows[e.signIn].expiresAt
  {
  }

  lemma DbscTokens(
    c: Setup, t: Tables, id: Id, proof: Option<D.Proof>, newChallenge: string, sessionId: string, now: Time, e: Event)
    requires AccountsOk(t) && RowsOk(t)
    requires e in DbscEffect(c, t, id, proof, newChallenge, sessionId, now).events && e.Issued?
    ensures TokenOk(c, t, now, e) && e.at == now && !t.rows[e.signIn].ended
    ensures e.until == t.rows[e.signIn].expiresAt
  {
    var a := Select(t, id).value;
    MintedExactlyWhileLive(c.m, a, METHOD_DBSC, c.dbscDuration, "", "", now, sessionId);
  }

  lemma KeyTokens(
    c: Setup, t: Tables, id: Id, accountId: Id, audience: string, keyThumbprint: string, sessionId: string,
    now: Time, e: Event)
    requires AccountsOk(t) && RowsOk(t) && PlainId(id) && accountId in t.accounts
    requires e in KeyEffect(c, t, id, accountId, audience, keyThumbprint, sessionId, now).events
    ensures e.Issued? && e.at == now && TokenOk(c, KeyRows(c, t, id, accountId, now), now, e)
    ensures e.until == KeyRows(c, t, id, accountId, now).rows[e.signIn].expiresAt
    ensures e.signIn in t.rows ==> !t.rows[e.signIn].ended
  {
    var a := Select(KeyRows(c, t, id, accountId, now), id).value;
    MintedExactlyWhileLive(c.m, a, METHOD_API_KEY, c.keyDuration, audience, keyThumbprint, now, sessionId);
  }

  lemma EffectTokens(c: Setup, s: State, step: Step, e: Event)
    requires Enabled(s, step) && AccountsOk(s.tables) && RowsOk(s.tables)
    requires TokensOk(c, s.tables, s.log, s.clock)
    requires e in EffectOf(c, s.tables, step.action, step.now).events && e.Issued?
    ensures TokenOk(c, EffectOf(c, s.tables, step.action, step.now).tables, step.now, e)
    ensures e.until == EffectOf(c, s.tables, step.action, step.now).tables.rows[e.signIn].expiresAt
    ensures e.at == step.now && (e.signIn in s.tables.rows ==> !s.tables.rows[e.signIn].ended)
  {
    var t, now := s.tables, step.now;
    match step.action
    case SignIn(method_, holder, idTokenHash, draws) => SignInTokens(c, t, method_, holder, idTokenHash, draws, now, e);
    case Refresh(token) =>
      PresentedIsItsAccounts(c, s, token);
      var outcome := RefreshEndpoint(c.m, token, Select(t, token.authenticationId), c.refreshDuration, now);
      RenewalTokens(c, t, token, outcome, c.refreshDuration, METHOD_REFRESH, now, e);
    case Navigate(token) =>
      PresentedIsItsAccounts(c, s, token);
      var outcome := Navigation(c.m, true, Some(token), Select(t, token.authenticationId), c.navigationDuration, now);
      RenewalTokens(c, t, token, outcome, c.navigationDuration, METHOD_REFRESH, now, e);
    case DbscRefresh(id, proof, newChallenge, sessionId) =>
      DbscTokens(c, t, id, proof, newChallenge, sessionId, now, e);
      DbscKeepsRows(c.Dbsc(), t, id, proof, now, newChallenge, sessionId);
    case KeyMint(id, accountId, audience, keyThumbprint, sessionId) =>
      KeyTokens(c, t, id, accountId, audience, keyThumbprint, sessionId, now, e);
    case _ =>
  }

  // --- Challenges ---

  ghost predicate RedeemedFrom(challenges: map<Challenge, Time>, e: Event)
    requires e.Redeemed?
  {
    && e.challenge in challenges && e.expiresAt == challenges[e.challenge] && e.at <= e.expiresAt
    && e.challenge.challenge != ""
    && (e.use.Minted? ==>
        e.use.token.authenticationId == e.challenge.authenticationId
        && e.use.token.claims.authenticationMethods == [METHOD_DBSC])
  }

  /**
  Of a step's events: challenges given out are new, and at most one is redeemed, which was pending and is so no
  more.
  */
  ghost predicate ChallengesMove(
    log: seq<Event>, old_: map<Challenge, Time>, new_: map<Challenge, Time>, events: seq<Event>)
  {
    && (forall c :: c in new_ ==> (c in old_ && new_[c] == old_[c]) || Challenged(c, new_[c]) in events)
    && (forall e :: e in events && e.Challenged? ==> NewChallenge(log, e.challenge.challenge))
    && (forall i, j :: 0 <= i < j < |events| ==> !(events[i].Redeemed? && events[j].Redeemed?))
    && (forall e :: e in events && e.Redeemed? ==> RedeemedFrom(old_, e) && e.challenge !in new_)
    && DbscOk(events)
  }

  lemma GivingMoves(
    log: seq<Event>, old_: map<Challenge, Time>, new_: map<Challenge, Time>, events: seq<Event>, ch: Challenge,
    expiresAt: Time)
    requires ChallengesMove(log, old_, new_, events) && NewChallenge(log, ch.challenge)
    requires forall e :: e in events && e.Redeemed? ==> e.challenge != ch
    ensures ChallengesMove(log, old_, new_[ch := expiresAt], events + [Challenged(ch, expiresAt)])
  {
    StepKeepsDbsc(events, [Challenged(ch, expiresAt)]);
  }

  lemma RedeemingMoves(log: seq<Event>, old_: map<Challenge, Time>, ch: Challenge, now: Time, use: Use)
    requires ch in old_ && now <= old_[ch] && ch.challenge != "" && !use.Minted?
    ensures ChallengesMove(log, old_, old_ - {ch}, [Redeemed(ch, old_[ch], now, use)])
  {
  }

  lemma MintingMoves(
    log: seq<Event>, old_: map<Challenge, Time>, ch: Challenge, now: Time, token: Token, duration: int, until: Time)
    requires ch in old_ && now <= old_[ch] && ch.challenge != ""
    requires token.authenticationId == ch.authenticationId && token.claims.authenticationMethods == [METHOD_DBSC]
    ensures ChallengesMove(
      log, old_, old_ - {ch},
      [Issued(ch.authenticationId, token, now, duration, until), Redeemed(ch, old_[ch], now, Minted(token))])
  {
  }

  /** A proof in order, by the key of a sign-in that is live, of a challenge that is there and in time. */
  predicate InOrder(t: Tables, id: Id, proof: D.Proof, now: Time) {
    D.OwnProof(t, id, proof, now) && D.Redeem(t, proof.jti, id, now) == D.Spent
  }

  /** The challenge is redeemed, for a session and the next challenge if one may be minted. */
  predicate RedeemedAs(
    c: Setup, t: Tables, ch: Challenge, next: Challenge, now: Time, minted: Result<Session, Refusal>, effect: Effect)
    requires ch in t.challenges && ch.authenticationId in t.rows
  {
    var left := t.challenges - {ch};
    if minted.Failure? then
      effect == Effect(t.(challenges := left), [Redeemed(ch, t.challenges[ch], now, Wasted)])
    else
      var token := minted.value.token;
      var events := [
        Issued(ch.authenticationId, token, now, c.dbscDuration, t.rows[ch.authenticationId].expiresAt),
        Redeemed(ch, t.challenges[ch], now, Minted(token))];
      if c.challengeDuration == 0 then effect == Effect(t.(challenges := left), events)
      else
        var expiresAt := now + c.challengeDuration;
        effect == Effect(t.(challenges := left[next := expiresAt]), events + [Challenged(next, expiresAt)])
  }

  /** What comes of a proof in order. */
  lemma InOrderEffect(c: Setup, t: Tables, id: Id, proof: D.Proof, newChallenge: string, sessionId: string, now: Time)
    requires InOrder(t, id, proof, now)
    ensures RedeemedAs(
      c, t, Challenge(proof.jti.value, id), Challenge(newChallenge, id), now,
      MintSession(c.m, Select(t, id).value, METHOD_DBSC, c.dbscDuration, now, sessionId),
      DbscEffect(c, t, id, Some(proof), newChallenge, sessionId, now))
  {
    var minted := MintSession(c.m, Select(t, id).value, METHOD_DBSC, c.dbscDuration, now, sessionId);
    if minted.Success? {
      var ch := Challenge(proof.jti.value, id);
      var redeemed := Redeemed(ch, t.challenges[ch], now, Minted(minted.value.token));
      var issued := Issued(id, minted.value.token, now, c.dbscDuration, t.rows[id].expiresAt);
      assert [issued] + [redeemed] == [issued, redeemed];
    }
  }

  /** What comes of any other request: a challenge taken at most, and one demanded or nothing. */
  lemma OutOfOrderEffect(
    c: Setup, t: Tables, id: Id, proof: Option<D.Proof>, newChallenge: string, sessionId: string, now: Time)
    requires proof == None || !InOrder(t, id, proof.value, now)
    ensures var effect := DbscEffect(c, t, id, proof, newChallenge, sessionId, now);
      var left := if proof == None then t.challenges else D.Taken(t, proof.value.jti, id).challenges;
      var next := Challenge(newChallenge, id);
      || (effect.events == [] && (effect.tables.challenges == t.challenges || effect.tables.challenges == left))
      || (effect.events == [Challenged(next, now + c.challengeDuration)]
          && effect.tables.challenges == left[next := now + c.challengeDuration])
  {
  }

  lemma DeviceTokenNamesItsSignIn(c: Setup, t: Tables, id: Id, now: Time, sessionId: string)
    requires AccountsOk(t) && RowsOk(t) && Select(t, id).Some? && id != ""
    ensures var minted := MintSession(c.m, Select(t, id).value, METHOD_DBSC, c.dbscDuration, now, sessionId);
      minted.Success? ==>
        minted.value.token.authenticationId == id && minted.value.token.claims.authenticationMethods == [METHOD_DBSC]
  {
    var a := Select(t, id).value;
    if c.m.cookieDomain != "" {
      MintedExactlyWhileLive(c.m, a, METHOD_DBSC, c.dbscDuration, "", "", now, sessionId);
    }
  }

  lemma RedeemedMoves(
    c: Setup, t: Tables, log: seq<Event>, ch: Challenge, next: Challenge, now: Time,
    minted: Result<Session, Refusal>, effect: Effect)
    requires ch in t.challenges && now <= t.challenges[ch] && ch.challenge != "" && ch.authenticationId in t.rows
    requires ch != next && NewChallenge(log, next.challenge)
    requires minted.Success? ==>
      && minted.value.token.authenticationId == ch.authenticationId
      && minted.value.token.claims.authenticationMethods == [METHOD_DBSC]
    requires RedeemedAs(c, t, ch, next, now, minted, effect)
    ensures ChallengesMove(log, t.challenges, effect.tables.challenges, effect.events)
  {
    if minted.Failure? {
      RedeemingMoves(log, t.challenges, ch, now, Wasted);
    } else {
      var token, until := minted.value.token, t.rows[ch.authenticationId].expiresAt;
      MintingMoves(log, t.challenges, ch, now, token, c.dbscDuration, until);
      if c.challengeDuration != 0 {
        GivingMoves(
          log, t.challenges, t.challenges - {ch},
          [Issued(ch.authenticationId, token, now, c.dbscDuration, until), Redeemed(ch, t.challenges[ch], now,
            Minted(token))],
          next, now + c.challengeDuration);
      }
    }
  }

  lemma InOrderMoves(
    c: Setup, t: Tables, log: seq<Event>, id: Id, proof: D.Proof, newChallenge: string, sessionId: string, now: Time)
    requires AccountsOk(t) && RowsOk(t) && PendingOk(t, log) && NewChallenge(log, newChallenge)
    requires InOrder(t, id, proof, now)
    ensures var effect := DbscEffect(c, t, id, Some(proof), newChallenge, sessionId, now);
      ChallengesMove(log, t.challenges, effect.tables.challenges, effect.events)
  {
    var ch, next := Challenge(proof.jti.value, id), Challenge(newChallenge, id);
    assert Challenged(ch, t.challenges[ch]) in log;
    InOrderEffect(c, t, id, proof, newChallenge, sessionId, now);
    DeviceTokenNamesItsSignIn(c, t, id, now, sessionId);
    RedeemedMoves(
      c, t, log, ch, next, now, MintSession(c.m, Select(t, id).value, METHOD_DBSC, c.dbscDuration, now, sessionId),
      DbscEffect(c, t, id, Some(proof), newChallenge, sessionId, now));
  }

  lemma DbscMovesChallenges(
    c: Setup, t: Tables, log: seq<Event>, id: Id, proof: Option<D.Proof>, newChallenge: string, sessionId: string,
    now: Time)
    requires AccountsOk(t) && RowsOk(t) && PendingOk(t, log) && NewChallenge(log, newChallenge)
    ensures var effect := DbscEffect(c, t, id, proof, newChallenge, sessionId, now);
      ChallengesMove(log, t.challenges, effect.tables.challenges, effect.events)
  {
    var next, expiresAt := Challenge(newChallenge, id), now + c.challengeDuration;
    if proof.Some? && InOrder(t, id, proof.value, now) {
      InOrderMoves(c, t, log, id, proof.value, newChallenge, sessionId, now);
    } else {
      OutOfOrderEffect(c, t, id, proof, newChallenge, sessionId, now);
      var left := if proof == None then t.challenges else D.Taken(t, proof.value.jti, id).challenges;
      assert ChallengesMove(log, t.challenges, left, []);
      GivingMoves(log, t.challenges, left, [], next, expiresAt);
      assert [] + [Challenged(next, expiresAt)] == [Challenged(next, expiresAt)];
    }
  }

  lemma SignInMovesChallenges(
    c: Setup, t: Tables, log: seq<Event>, method_: string, holder: Option<Account>, idTokenHash: string,
    draws: Draws, now: Time)
    requires AccountsOk(t) && PlainId(draws.authenticationId) && NewChallenge(log, draws.challenge)
      && method_ != METHOD_DBSC
    requires holder.Some? ==> PlainId(holder.value.id)
    ensures var effect := SignInEffect(c, t, method_, holder, idTokenHash, draws, now);
      ChallengesMove(log, t.challenges, effect.tables.challenges, effect.events)
  {
    var created := Create(c.m, t, method_, holder, idTokenHash, now, draws);
    if holder.Some? {
      var a := Authentication(draws.authenticationId, false, now, now + c.m.authenticationDuration, "", holder.value);
      ClaimsParse(c.m, a, c.m.cookieDomain, method_, c.m.initialSessionDuration, now, draws.sessionId);
    }
    if created.answer.Failure? {
      assert created.tables.challenges == t.challenges;
    }
  }

  lemma BindMovesChallenges(t: Tables, log: seq<Event>, id: Id, proof: D.Proof, now: Time)
    ensures var effect := BindEffect(t, id, proof, now);
      ChallengesMove(log, t.challenges, effect.tables.challenges, effect.events)
  {
    if proof.wellFormed && D.Redeem(t, proof.jti, id, now) == D.Spent {
      RedeemingMoves(log, t.challenges, Challenge(proof.jti.value, id), now, Bound);
    }
  }

  /** A token that is issued but not for a device moves no challenge. */
  lemma IssuingMoves(log: seq<Event>, challenges: map<Challenge, Time>, events: seq<Event>)
    requires forall i :: 0 <= i < |events| ==> events[i].Issued? && !ByDbsc(events[i])
    ensures ChallengesMove(log, challenges, challenges, events)
  {
  }

  lemma EffectChallenges(c: Setup, s: State, step: Step)
    requires Enabled(s, step) && AccountsOk(s.tables) && RowsOk(s.tables) && PendingOk(s.tables, s.log)
    ensures var effect := EffectOf(c, s.tables, step.action, step.now);
      ChallengesMove(s.log, s.tables.challenges, effect.tables.challenges, effect.events)
  {
    var t := s.tables;
    match step.action
    case DbscRefresh(id, proof, newChallenge, sessionId) =>
      DbscMovesChallenges(c, t, s.log, id, proof, newChallenge, sessionId, step.now);
    case SignIn(method_, holder, idTokenHash, draws) =>
      SignInMovesChallenges(c, t, s.log, method_, holder, idTokenHash, draws, step.now);
    case BindKey(token, proof) => BindMovesChallenges(t, s.log, token.authenticationId, proof, step.now);
    case _ => IssuingMoves(s.log, t.challenges, EffectOf(c, t, step.action, step.now).events);
  }

  // --- No challenge lost ---

  /**
  A challenge goes only by being redeemed or once expired, and what a step gives out, at most one, it leaves
  pending.
  */
  ghost predicate ChallengesKept(
    old_: map<Challenge, Time>, new_: map<Challenge, Time>, events: seq<Event>, now: Time)
  {
    && (forall c :: c in old_ && c !in new_ ==> old_[c] < now || WasRedeemed(events, c))
    && (forall e :: e in events && e.Challenged? ==> e.challenge in new_)
    && (forall i, j :: 0 <= i < j < |events| ==> !(events[i].Challenged? && events[j].Challenged?))
  }

  lemma OutOfOrderLosesNone(
    c: Setup, t: Tables, id: Id, proof: Option<D.Proof>, newChallenge: string, sessionId: string, now: Time)
    requires proof == None || !InOrder(t, id, proof.value, now)
    ensures var left := DbscEffect(c, t, id, proof, newChallenge, sessionId, now).tables.challenges;
      forall ch :: ch in t.challenges && ch !in left ==> t.challenges[ch] < now
  {
  }

  lemma RedeemedKept(
    c: Setup, t: Tables, ch: Challenge, next: Challenge, now: Time, minted: Result<Session, Refusal>, effect: Effect)
    requires ch in t.challenges && ch.authenticationId in t.rows && RedeemedAs(c, t, ch, next, now, minted, effect)
    ensures ChallengesKept(t.challenges, effect.tables.challenges, effect.events, now)
  {
    var i := if minted.Failure? then 0 else 1;
    assert effect.events[i].Redeemed? && effect.events[i].challenge == ch;
    assert effect.events[i] in effect.events;
  }

  lemma DbscKeepsChallenges(
    c: Setup, t: Tables, id: Id, proof: Option<D.Proof>, newChallenge: string, sessionId: string, now: Time)
    ensures var effect := DbscEffect(c, t, id, proof, newChallenge, sessionId, now);
      ChallengesKept(t.challenges, effect.tables.challenges, effect.events, now)
  {
    if proof.Some? && InOrder(t, id, proof.value, now) {
      InOrderEffect(c, t, id, proof.value, newChallenge, sessionId, now);
      RedeemedKept(
        c, t, Challenge(proof.value.jti.value, id), Challenge(newChallenge, id), now,
        MintSession(c.m, Select(t, id).value, METHOD_DBSC, c.dbscDuration, now, sessionId),
        DbscEffect(c, t, id, proof, newChallenge, sessionId, now));
    } else {
      OutOfOrderEffect(c, t, id, proof, newChallenge, sessionId, now);
      OutOfOrderLosesNone(c, t, id, proof, newChallenge, sessionId, now);
    }
  }

  lemma BindKeepsChallenges(t: Tables, id: Id, proof: D.Proof, now: Time)
    ensures var effect := BindEffect(t, id, proof, now);
      ChallengesKept(t.challenges, effect.tables.challenges, effect.events, now)
  {
    var effect := BindEffect(t, id, proof, now);
    if proof.wellFormed && D.Redeem(t, proof.jti, id, now) == D.Spent {
      assert effect.events[0].Redeemed? && effect.events[0] in effect.events;
    }
  }

  lemma EffectKeepsChallenges(c: Setup, s: State, step: Step)
    requires Enabled(s, step)
    ensures var effect := EffectOf(c, s.tables, step.action, step.now);
      ChallengesKept(s.tables.challenges, effect.tables.challenges, effect.events, step.now)
  {
    match step.action
    case DbscRefresh(id, proof, newChallenge, sessionId) =>
      DbscKeepsChallenges(c, s.tables, id, proof, newChallenge, sessionId, step.now);
    case BindKey(token, proof) => BindKeepsChallenges(s.tables, token.authenticationId, proof, step.now);
    case _ =>
  }

  lemma StepLosesNone(t: Tables, u: Tables, log: seq<Event>, events: seq<Event>, clock: Time, now: Time)
    requires NoneLost(t, log, clock) && PendingOk(t, log) && ChallengedOnce(log) && clock <= now
    requires ChallengesKept(t.challenges, u.challenges, events, now)
    ensures NoneLost(u, log + events, now)
  {
    forall e | e in log + events && e.Challenged? && now <= e.expiresAt && !WasRedeemed(log + events, e.challenge)
      ensures e.challenge in u.challenges
    {
      if e in log {
        assert forall r :: r in log ==> r in log + events;
        assert forall r :: r in events ==> r in log + events;
        assert !WasRedeemed(log, e.challenge) && !WasRedeemed(events, e.challenge);
        PendingAsGivenOut(t, log, e);
      }
    }
  }

  /** What is pending of a challenge given out is that challenge, expiring when it said. */
  lemma PendingAsGivenOut(t: Tables, log: seq<Event>, e: Event)
    requires PendingOk(t, log) && ChallengedOnce(log) && e in log && e.Challenged? && e.challenge in t.challenges
    ensures t.challenges[e.challenge] == e.expiresAt
  {
    var other := Challenged(e.challenge, t.challenges[e.challenge]);
    var i :| 0 <= i < |log| && log[i] == e;
    var j :| 0 <= j < |log| && log[j] == other;
  }

  lemma StepKeepsOnce(t: Tables, u: Tables, log: seq<Event>, events: seq<Event>, now: Time)
    requires ChallengedOnce(log) && ChallengesMove(log, t.challenges, u.challenges, events)
    requires ChallengesKept(t.challenges, u.challenges, events, now)
    ensures ChallengedOnce(log + events)
  {
    var whole := log + events;
    forall i, j | 0 <= i < j < |whole| && whole[i].Challenged? && whole[j].Challenged?
      ensures whole[i].challenge.challenge != whole[j].challenge.challenge
    {
      if i < |log| <= j {
        assert whole[i] in log && whole[j] in events;
      }
    }
  }

  lemma StepKeepsPending(t: Tables, u: Tables, log: seq<Event>, events: seq<Event>)
    requires PendingOk(t, log) && RedeemedOk(log) && ChallengesMove(log, t.challenges, u.challenges, events)
    ensures PendingOk(u, log + events)
  {
    forall c, e | c in u.challenges && e in log + events && e.Redeemed?
      ensures e.challenge != c
    {
      if e in log && !(c in t.challenges && u.challenges[c] == t.challenges[c]) {
        var i :| 0 <= i < |log| && log[i] == e;
        assert RedeemedInTime(log[..i], log[i]);
        assert Challenged(e.challenge, e.expiresAt) in log;
      }
    }
  }

  lemma StepKeepsRedeemed(t: Tables, u: Tables, log: seq<Event>, events: seq<Event>)
    requires PendingOk(t, log) && RedeemedOk(log) && ChallengesMove(log, t.challenges, u.challenges, events)
    ensures RedeemedOk(log + events)
  {
    var whole := log + events;
    forall i {:trigger whole[i]} | 0 <= i < |whole| && whole[i].Redeemed?
      ensures RedeemedInTime(whole[..i], whole[i])
    {
      if i < |log| {
        assert whole[..i] == log[..i] && whole[i] == log[i];
      } else {
        assert whole[i] in events;
        assert Challenged(whole[i].challenge, whole[i].expiresAt) in log;
        assert log <= whole[..i];
      }
    }
    forall i, j | 0 <= i < j < |whole| && whole[i].Redeemed? && whole[j].Redeemed?
      ensures whole[i].challenge != whole[j].challenge
    {
      if i < |log| <= j {
        assert whole[j] in events && whole[i] in log;
      }
    }
  }

  lemma StepKeepsDbsc(log: seq<Event>, events: seq<Event>)
    requires DbscOk(log) && DbscOk(events)
    ensures DbscOk(log + events)
  {
    var whole := log + events;
    forall i {:trigger ByDbsc(whole[i])} | 0 <= i < |whole| && ByDbsc(whole[i])
      ensures i + 1 < |whole| && whole[i + 1].Redeemed? && whole[i + 1].use == Minted(whole[i].token)
        && whole[i + 1].at == whole[i].at
    {
      if i < |log| {
        assert ByDbsc(log[i]);
      } else {
        assert ByDbsc(events[i - |log|]);
      }
    }
  }

  lemma StepKeepsTokens(c: Setup, s: State, step: Step)
    requires Enabled(s, step) && AccountsOk(s.tables) && RowsOk(s.tables) && TokensOk(c, s.tables, s.log, s.clock)
    ensures var next := Next(c, s, step); TokensOk(c, next.tables, next.log, next.clock)
  {
    var next := Next(c, s, step);
    EffectRows(c, s, step);
    forall e {:trigger TokenOk(c, next.tables, next.clock, e)} | e in next.log && e.Issued?
      ensures TokenOk(c, next.tables, next.clock, e)
    {
      if e in s.log {
        assert TokenOk(c, s.tables, s.clock, e);
      } else {
        EffectTokens(c, s, step, e);
      }
    }
  }

  lemma StepKeepsInv(c: Setup, s: State, step: Step)
    requires Inv(c, s) && Enabled(s, step)
    ensures Inv(c, Next(c, s, step))
  {
    var effect := EffectOf(c, s.tables, step.action, step.now);
    EffectRows(c, s, step);
    EffectHashes(c, s, step);
    StepKeepsTokens(c, s, step);
    EffectChallenges(c, s, step);
    EffectKeepsChallenges(c, s, step);
    StepLosesNone(s.tables, effect.tables, s.log, effect.events, s.clock, step.now);
    StepKeepsOnce(s.tables, effect.tables, s.log, effect.events, step.now);
    StepKeepsPending(s.tables, effect.tables, s.log, effect.events);
    StepKeepsRedeemed(s.tables, effect.tables, s.log, effect.events);
    StepKeepsDbsc(s.log, effect.events);
  }

  lemma {:induction false} RunKeepsInv(c: Setup, s: State, steps: seq<Step>)
    requires (Initial(s) || Inv(c, s)) && Run(c, s, steps)
    ensures Inv(c, After(c, s, steps))
  {
    if steps != [] {
      RunKeepsInv(c, s, steps[..|steps| - 1]);
      StepKeepsInv(c, After(c, s, steps[..|steps| - 1]), steps[|steps| - 1]);
    }
  }
}

/**
Where access tokens come from. The endpoints run interleaved, each store call of a handler a step
of its own, a refresh's look, check and spending included.
Ids and secrets drawn are fresh.
*/
module Provenance {
  import opened Wrappers
  import opened Oauth
  import opened Scopes
  import opened StoreContents
  import G = GrantTables
  import A = AccessToken
  import Az = AuthorizeEndpoint
  import D = DecisionEndpoint
  import T = TokenEndpoint
  import Base64Url
  import Clients
  import Pkce

  /** What a handler holds between its store calls. */
  datatype Proc =
    | Allowing(requestId: Id, code: AuthorizationCode)                      // before storing the code
    | Redeeming(codeHash: Hash, code: AuthorizationCode, at: Time, form: T.CodeForm)
                                                                            // before the grant check
    | Minted(codeHash: Hash, grant: Grant, token: A.Token, form: T.CodeForm)
                                                                            // before recording the grant
    | LookedUp(presented: Hash, successor: Hash, renewal: T.RefreshForm, at: Time, tokenId: string, grant: Grant)
                                                                            // before checking the grant
    | Renewing(presented: Hash, successor: Hash, at: Time, grant: Grant, token: A.Token)
                                                                            // before spending the refresh token

  /** What happened, which no step reads. */
  datatype Event =
    | Consented(requestId: Id, request: AuthorizationRequest, subject: Id)
    | CodeMade(requestId: Id, codeHash: Hash, code: AuthorizationCode)
    | GrantMade(codeHash: Hash, grantId: Id, grant: Grant, form: T.CodeForm)
    | TokenIssued(grantId: Id, token: A.Token)

  datatype State = State(contents: Contents, procs: map<nat, Proc>, usedIds: set<Id>, usedHashes: set<Hash>, events: set<Event>)

  datatype Step =
    | Ask(client: Client, input: Az.Input, subject: Id, now: Time, requestId: Id)
    | Answer(proc: nat, requestId: Id, subject: Id, decision: string, now: Time)
    | StoreCode(proc: nat, codeHash: Hash)
    | Present(proc: nat, codeHash: Hash, form: T.CodeForm, now: Time)
    | MintGrant(proc: nat, tokenId: string)
    | StoreGrant(proc: nat, grantId: Id, refreshHash: Hash)
    | LookUp(proc: nat, presented: Hash, successor: Hash, renewal: T.RefreshForm, now: Time, tokenId: string)
    | CheckRenewal(proc: nat)
    | Spend(proc: nat)
    | Revoke(tokenHash: Hash)
    | Lock(accountId: Id)
    | Unlock(accountId: Id)

  /** The server's configuration, its hash, and how it reads URLs. */
  datatype Server = Server(cfg: T.Config, sha256: Pkce.Sha256, parse: Clients.Parser)

  ghost function Init(accounts: set<Id>): State {
    State(Empty(accounts), map[], {}, {}, {})
  }

  ghost predicate Enabled(s: State, step: Step) {
    match step
    case Ask(_, _, _, _, requestId) => requestId !in s.usedIds
    case Answer(proc, _, _, _, _) => proc !in s.procs
    case StoreCode(proc, codeHash) => proc in s.procs && s.procs[proc].Allowing? && codeHash !in s.usedHashes
    case Present(proc, _, _, _) => proc !in s.procs
    case MintGrant(proc, _) => proc in s.procs && s.procs[proc].Redeeming?
    case StoreGrant(proc, grantId, refreshHash) =>
      proc in s.procs && s.procs[proc].Minted? && grantId !in s.usedIds && refreshHash !in s.usedHashes
    case LookUp(proc, _, successor, _, _, _) => proc !in s.procs && successor !in s.usedHashes
    case CheckRenewal(proc) => proc in s.procs && s.procs[proc].LookedUp?
    case Spend(proc) => proc in s.procs && s.procs[proc].Renewing?
    case _ => true
  }

  ghost function Take<K, V>(m: map<K, V>, k: K): Option<V> {
    if k in m then Some(m[k]) else None
  }

  ghost function AskNext(server: Server, s: State, step: Step): State
    requires step.Ask?
  {
    var request := Az.RequestOf(server.cfg.resources, server.parse, step.client, step.input, step.subject, step.now);
    if request.Failure? then s
    else s.(contents := s.contents.(requests := s.contents.requests[step.requestId := request.value]),
            usedIds := s.usedIds + {step.requestId})
  }

  ghost function AnswerNext(s: State, step: Step): State
    requires step.Answer?
  {
    var popped := Take(s.contents.requests, step.requestId);
    var outcome := D.Decide(popped, step.subject, step.decision, step.now);
    var left := s.(contents := s.contents.(requests := s.contents.requests - {step.requestId}));
    if !outcome.Allowed? then left
    else left.(procs := s.procs[step.proc := Allowing(step.requestId, outcome.code)],
               events := s.events + {Consented(step.requestId, popped.value, step.subject)})
  }

  ghost function PresentNext(server: Server, s: State, step: Step): State
    requires step.Present?
  {
    var popped := Take(s.contents.codes, step.codeHash);
    var left := s.(contents := s.contents.(codes := s.contents.codes - {step.codeHash}));
    if popped == None || T.CheckCode(server.sha256, popped.value, step.form, step.now).Some? then left
    else left.(procs := s.procs[step.proc := Redeeming(step.codeHash, popped.value, step.now, step.form)])
  }

  ghost function MintNext(server: Server, s: State, step: Step): State
    requires step.MintGrant? && Enabled(s, step)
  {
    var p := s.procs[step.proc];
    var grant := T.GrantOf(p.code, p.at);
    var token := T.TokenFor(server.cfg, grant, Fields(grant.scope), step.tokenId, p.at);
    if T.CheckGrant(server.cfg, grant, Active(s.contents, grant.accountId)).Some? || !A.Mintable(token) then
      s.(procs := s.procs - {step.proc})
    else
      s.(procs := s.procs[step.proc := Minted(p.codeHash, grant, token, p.form)])
  }

  ghost function StoreGrantNext(server: Server, s: State, step: Step): State
    requires step.StoreGrant? && Enabled(s, step)
  {
    var p := s.procs[step.proc];
    var expiresAt := p.grant.createdAt + server.cfg.RefreshTokenLifetime();
    s.(contents := s.contents.(tables := G.Record(s.contents.tables, step.grantId, p.grant, step.refreshHash, expiresAt)),
       procs := s.procs - {step.proc},
       usedIds := s.usedIds + {step.grantId},
       usedHashes := s.usedHashes + {step.refreshHash},
       events := s.events
         + {GrantMade(p.codeHash, step.grantId, p.grant.(id := step.grantId), p.form), TokenIssued(step.grantId, p.token)})
  }

  /** The first look, which revokes the grant of a token spent before. */
  ghost function LookUpNext(s: State, step: Step): State
    requires step.LookUp?
  {
    var look := G.Look(s.contents.tables, step.presented, step.now);
    var left := s.(
      contents := s.contents.(tables := G.AfterLook(s.contents.tables, look)),
        usedHashes := s.usedHashes + {step.successor});
    if !look.Spendable? then left
    else
      left.(procs := s.procs[step.proc :=
        LookedUp(step.presented, step.successor, step.renewal, step.now, step.tokenId, look.grant)])
  }

  /** The check, which mints, with no lock held. */
  ghost function CheckNext(server: Server, s: State, step: Step): State
    requires step.CheckRenewal? && Enabled(s, step)
  {
    var p := s.procs[step.proc];
    if T.RefreshCheck(server.cfg, p.renewal, p.at, id => Active(s.contents, id), p.tokenId)(p.grant).Some? then
      s.(procs := s.procs - {step.proc})
    else
      s.(procs := s.procs[step.proc := Renewing(
        p.presented, p.successor, p.at, p.grant,
        T.TokenFor(server.cfg, p.grant, T.ScopesRenewed(p.grant, p.renewal), p.tokenId, p.at))])
  }

  /** The second look, which spends; the token minted is handed out only then. */
  ghost function SpendNext(server: Server, s: State, step: Step): State
    requires step.Spend? && Enabled(s, step)
  {
    var p := s.procs[step.proc];
    var passed: GrantCheck := (grant: Grant) => None;
    var (tables, answer) := G.Commit(
      s.contents.tables,
      G.Rotation(p.presented, p.successor, p.at + server.cfg.RefreshTokenLifetime(), p.at, passed));
    s.(contents := s.contents.(tables := tables),
       procs := s.procs - {step.proc},
       events := if answer.Renewed? then s.events + {TokenIssued(p.grant.id, p.token)} else s.events)
  }

  ghost function Next(server: Server, s: State, step: Step): State
    requires Enabled(s, step)
  {
    match step
    case Ask(_, _, _, _, _) => AskNext(server, s, step)
    case Answer(_, _, _, _, _) => AnswerNext(s, step)
    case StoreCode(proc, codeHash) =>
      var p := s.procs[proc];
      s.(contents := s.contents.(codes := s.contents.codes[codeHash := p.code]),
         procs := s.procs - {proc},
         usedHashes := s.usedHashes + {codeHash},
         events := s.events + {CodeMade(p.requestId, codeHash, p.code)})
    case Present(_, _, _, _) => PresentNext(server, s, step)
    case MintGrant(_, _) => MintNext(server, s, step)
    case StoreGrant(_, _, _) => StoreGrantNext(server, s, step)
    case LookUp(_, _, _, _, _, _) => LookUpNext(s, step)
    case CheckRenewal(_) => CheckNext(server, s, step)
    case Spend(_) => SpendNext(server, s, step)
    case Revoke(h) => s.(contents := s.contents.(tables := G.RevokeByToken(s.contents.tables, h)))
    case Lock(a) => s.(contents := s.contents.(locked := s.contents.locked + {a}))
    case Unlock(a) => s.(contents := s.contents.(locked := s.contents.locked - {a}))
  }

  ghost predicate IsRun(server: Server, trace: seq<State>, steps: seq<Step>) {
    && |trace| == |steps| + 1
    && (exists accounts :: trace[0] == Init(accounts))
    && forall i :: 0 <= i < |steps| ==> Enabled(trace[i], steps[i]) && trace[i + 1] == Next(server, trace[i], steps[i])
  }

  // --- What every step keeps ---

  ghost predicate Within(server: Server, resource: string, scope: string) {
    Az.WithinWords(server.cfg.resources, resource, scope)
  }

  ghost predicate ConsentGiven(server: Server, s: State, e: Event)
    requires e.Consented?
  {
    && e.requestId in s.usedIds && e.requestId !in s.contents.requests
    && e.subject == e.request.accountId && Within(server, e.request.resource, e.request.scope)
  }

  /** The code stands for a request that was consented to. */
  ghost predicate FromConsent(events: set<Event>, requestId: Id, code: AuthorizationCode) {
    exists e :: e in events && e.Consented? && e.requestId == requestId && D.Carries(code, e.request)
  }

  /** The form redeemed the code: by the client it is for, in time, and with a verifier that hashes to its challenge. */
  ghost predicate RedeemedBy(server: Server, form: T.CodeForm, code: AuthorizationCode, at: Time) {
    && form.clientId == code.clientId && at < code.expiresAt
    && (form.redirectUri != "" ==> form.redirectUri == code.redirectUri)
    && Base64Url.Encode(server.sha256(form.verifier)) == code.codeChallenge
  }

  /** The grant is what a code that was made stands for, and was redeemed by the form when the grant was made. */
  ghost predicate FromCode(server: Server, events: set<Event>, codeHash: Hash, grant: Grant, form: T.CodeForm) {
    exists e :: e in events && e.CodeMade? && e.codeHash == codeHash
      && grant.accountId == e.code.accountId && grant.clientId == e.code.clientId
      && grant.resource == e.code.resource && grant.scope == e.code.scope
      && RedeemedBy(server, form, e.code, grant.createdAt)
  }

  ghost predicate FromGrant(events: set<Event>, grantId: Id, token: A.Token) {
    exists e :: e in events && e.GrantMade? && e.grantId == grantId && T.Serves(token, e.grant)
  }

  ghost predicate EventOk(server: Server, s: State, e: Event) {
    match e
    case Consented(_, _, _) => ConsentGiven(server, s, e)
    case CodeMade(requestId, codeHash, code) => codeHash in s.usedHashes && FromConsent(s.events, requestId, code)
    case GrantMade(codeHash, grantId, grant, form) =>
      && grantId in s.usedIds && codeHash in s.usedHashes && codeHash !in s.contents.codes
      && FromCode(server, s.events, codeHash, grant, form)
    case TokenIssued(grantId, token) => FromGrant(s.events, grantId, token) && WellScoped(token)
  }

  predicate WellScoped(token: A.Token) {
    A.Mintable(token) && forall x :: x in token.scopes ==> IsScope(x)
  }

  /** The event is the one the handler is about to cause. */
  predicate Claims(e: Event, p: Proc) {
    || (p.Allowing? && e.CodeMade? && e.requestId == p.requestId)
    || (OfCode(p) && e.GrantMade? && e.codeHash == p.codeHash)
  }

  /** The handler is redeeming a code. */
  predicate OfCode(p: Proc) {
    p.Redeeming? || p.Minted?
  }

  ghost predicate ProcHolds(server: Server, s: State, p: Proc) {
    match p
    case Allowing(requestId, code) => FromConsent(s.events, requestId, code)
    case Redeeming(codeHash, code, at, form) =>
      RedeemedBy(server, form, code, at) &&
      codeHash in s.usedHashes && codeHash !in s.contents.codes && CodeMadeOf(s.events, codeHash, code)
    case Minted(codeHash, grant, token, form) =>
      && codeHash in s.usedHashes && codeHash !in s.contents.codes && FromCode(server, s.events, codeHash, grant, form)
      && T.Serves(token, grant) && WellScoped(token)
    case LookedUp(_, _, _, _, _, grant) => GrantMadeOf(s.events, grant.id, grant)
    case Renewing(_, _, _, grant, token) =>
      GrantMadeOf(s.events, grant.id, grant) && T.Serves(token, grant) && WellScoped(token)
  }

  ghost predicate ProcOk(server: Server, s: State, p: Proc) {
    ProcHolds(server, s, p) && forall e :: e in s.events ==> !Claims(e, p)
  }

  ghost predicate CodeMadeOf(events: set<Event>, codeHash: Hash, code: AuthorizationCode) {
    exists e :: e in events && e.CodeMade? && e.codeHash == codeHash && e.code == code
  }

  /** No two handlers at work on one request, or on one code. */
  ghost predicate Apart(p: Proc, q: Proc) {
    && (p.Allowing? && q.Allowing? ==> p.requestId != q.requestId)
    && (OfCode(p) && OfCode(q) ==> p.codeHash != q.codeHash)
  }

  /** One consent a request, one code a consent, one grant a code. */
  ghost predicate Single(e: Event, f: Event) {
    && (e.Consented? && f.Consented? && e.requestId == f.requestId ==> e == f)
    && (e.CodeMade? && f.CodeMade? && (e.requestId == f.requestId || e.codeHash == f.codeHash) ==> e == f)
    && (e.GrantMade? && f.GrantMade? && (e.codeHash == f.codeHash || e.grantId == f.grantId) ==> e == f)
  }

  ghost predicate StoreOk(server: Server, s: State) {
    && (forall id :: id in s.contents.requests ==> id in s.usedIds)
    && (forall id :: id in s.contents.requests ==>
      Within(server, s.contents.requests[id].resource, s.contents.requests[id].scope))
    && (forall h :: h in s.contents.codes ==> CodeMadeOf(s.events, h, s.contents.codes[h]))
    && (forall g :: g in s.contents.tables.grants ==> GrantMadeOf(s.events, g, s.contents.tables.grants[g].grant))
  }

  ghost predicate GrantMadeOf(events: set<Event>, g: Id, grant: Grant) {
    grant.id == g && exists e :: e in events && e.GrantMade? && e.grantId == g && e.grant == grant
  }

  ghost predicate EventsOk(server: Server, s: State) {
    forall e {:trigger EventOk(server, s, e)} :: e in s.events ==> EventOk(server, s, e)
  }

  ghost predicate AllSingle(events: set<Event>) {
    forall e, f {:trigger Single(e, f)} :: e in events && f in events ==> Single(e, f)
  }

  ghost predicate ProcsOk(server: Server, s: State) {
    forall p {:trigger ProcOk(server, s, s.procs[p])} :: p in s.procs ==> ProcOk(server, s, s.procs[p])
  }

  ghost predicate AllApart(procs: map<nat, Proc>) {
    forall p, q {:trigger Apart(procs[p], procs[q])} :: p in procs && q in procs && p != q ==> Apart(procs[p], procs[q])
  }

  ghost predicate Inv(server: Server, s: State) {
    StoreOk(server, s) && EventsOk(server, s) && AllSingle(s.events) && ProcsOk(server, s) && AllApart(s.procs)
  }

  /** `s'` has more history than `s`, and no request or code that was had before and is gone. */
  ghost predicate Grows(s: State, s': State) {
    && s.events <= s'.events && s.usedIds <= s'.usedIds && s.usedHashes <= s'.usedHashes
    && (forall id :: id in s'.contents.requests ==> id in s.contents.requests || id !in s.usedIds)
    && (forall h :: h in s'.contents.codes ==> h in s.contents.codes || h !in s.usedHashes)
  }

  lemma EventsKept(server: Server, s: State, s': State, added: set<Event>)
    requires EventsOk(server, s) && Grows(s, s') && s'.events == s.events + added
    requires forall e :: e in added ==> EventOk(server, s', e)
    ensures EventsOk(server, s')
  {
    forall e | e in s.events ensures EventOk(server, s', e) {
      EventKept(server, s, s', e);
    }
  }

  lemma EventKept(server: Server, s: State, s': State, e: Event)
    requires EventOk(server, s, e) && Grows(s, s')
    ensures EventOk(server, s', e)
  {
  }

  lemma ProcsKept(server: Server, s: State, s': State, added: set<Event>, changed: set<nat>)
    requires ProcsOk(server, s) && Grows(s, s') && s'.events == s.events + added
    requires forall p :: p in s'.procs && p in changed ==> ProcOk(server, s', s'.procs[p])
    requires forall p :: p in s'.procs && p !in changed ==> p in s.procs && s'.procs[p] == s.procs[p]
    requires forall p, e :: p in s'.procs && p !in changed && e in added ==> !Claims(e, s'.procs[p])
    ensures ProcsOk(server, s')
  {
    forall p | p in s'.procs && p !in changed ensures ProcOk(server, s', s'.procs[p]) {
      ProcKept(server, s, s', s.procs[p]);
    }
  }

  lemma ProcKept(server: Server, s: State, s': State, p: Proc)
    requires ProcOk(server, s, p) && Grows(s, s')
    requires forall e :: e in s'.events && e !in s.events ==> !Claims(e, p)
    ensures ProcOk(server, s', p)
  {
  }

  lemma SinglesKept(events: set<Event>, e: Event)
    requires AllSingle(events) && forall f :: f in events ==> Single(e, f) && Single(f, e)
    ensures AllSingle(events + {e})
  {
  }

  lemma StoreKept(server: Server, s: State, s': State)
    requires StoreOk(server, s) && s.events <= s'.events && s.usedIds <= s'.usedIds
    requires forall id :: id in s'.contents.requests ==>
      id in s.contents.requests && s'.contents.requests[id] == s.contents.requests[id]
    requires forall h :: h in s'.contents.codes ==>
      (h in s.contents.codes && s'.contents.codes[h] == s.contents.codes[h]) || CodeMadeOf(s'.events, h,
        s'.contents.codes[h])
    requires forall g :: g in s'.contents.tables.grants ==>
      || (g in s.contents.tables.grants && s'.contents.tables.grants[g].grant == s.contents.tables.grants[g].grant)
      || GrantMadeOf(s'.events, g, s'.contents.tables.grants[g].grant)
    ensures StoreOk(server, s')
  {
    forall h | h in s'.contents.codes ensures CodeMadeOf(s'.events, h, s'.contents.codes[h]) {
    }
    forall g | g in s'.contents.tables.grants ensures GrantMadeOf(s'.events, g, s'.contents.tables.grants[g].grant) {
    }
  }

  lemma AskKeepsInv(server: Server, s: State, step: Step)
    requires Inv(server, s) && step.Ask? && Enabled(s, step)
    ensures Inv(server, Next(server, s, step))
  {
    var s' := Next(server, s, step);
    if Az.RequestOf(server.cfg.resources, server.parse, step.client, step.input, step.subject, step.now).Success? {
      Az.HeldRequestIsWithinResource(
        server.cfg.resources, server.parse, step.client, step.input, step.subject, step.now);
    }
    EventsKept(server, s, s', {});
    ProcsKept(server, s, s', {}, {});
  }

  lemma ConsentIsNew(server: Server, s: State, requestId: Id)
    requires EventsOk(server, s) && requestId in s.contents.requests
    ensures forall e :: e in s.events && e.Consented? ==> e.requestId != requestId
    ensures forall e :: e in s.events && e.CodeMade? ==> e.requestId != requestId
    ensures ProcsOk(server, s) ==> forall p :: p in s.procs && s.procs[p].Allowing? ==> s.procs[p].requestId != requestId
  {
    forall e | e in s.events && e.Consented? ensures e.requestId != requestId {
      assert EventOk(server, s, e);
    }
    forall e | e in s.events && e.CodeMade? ensures e.requestId != requestId {
      assert EventOk(server, s, e);
    }
    forall p | ProcsOk(server, s) && p in s.procs && s.procs[p].Allowing? ensures s.procs[p].requestId != requestId {
      assert ProcOk(server, s, s.procs[p]);
    }
  }

  /** What an "allow" changes: the request is taken, and its consent is on record. */
  lemma AllowedStep(s: State, step: Step)
    requires step.Answer? && AnswerNext(s, step).events != s.events
    ensures step.requestId in s.contents.requests
    ensures var request := s.contents.requests[step.requestId];
      && request.accountId == step.subject
      && AnswerNext(s, step).events == s.events + {Consented(step.requestId, request, step.subject)}
  {
    D.AllowedMeansConsented(s.contents.requests[step.requestId], step.subject, step.decision, step.now);
  }

  lemma AnswerKeepsStore(server: Server, s: State, step: Step)
    requires StoreOk(server, s) && step.Answer?
    ensures StoreOk(server, AnswerNext(s, step)) && Grows(s, AnswerNext(s, step))
  {
    StoreKept(server, s, AnswerNext(s, step));
  }

  lemma AnswerKeepsEvents(server: Server, s: State, step: Step)
    requires StoreOk(server, s) && EventsOk(server, s) && step.Answer?
    ensures EventsOk(server, AnswerNext(s, step))
  {
    var s' := AnswerNext(s, step);
    AnswerKeepsStore(server, s, step);
    if s'.events == s.events {
      EventsKept(server, s, s', {});
    } else {
      AllowedStep(s, step);
      var request := s.contents.requests[step.requestId];
      assert Within(server, request.resource, request.scope);
      var consent := Consented(step.requestId, request, step.subject);
      assert EventOk(server, s', consent);
      EventsKept(server, s, s', {consent});
    }
  }

  lemma AnswerKeepsSingle(server: Server, s: State, step: Step)
    requires EventsOk(server, s) && AllSingle(s.events) && step.Answer?
    ensures AllSingle(AnswerNext(s, step).events)
  {
    if AnswerNext(s, step).events != s.events {
      AllowedStep(s, step);
      ConsentIsNew(server, s, step.requestId);
      SinglesKept(s.events, Consented(step.requestId, s.contents.requests[step.requestId], step.subject));
    }
  }

  lemma AnswerKeepsProcs(server: Server, s: State, step: Step)
    requires EventsOk(server, s) && ProcsOk(server, s) && AllApart(s.procs) && step.Answer? && Enabled(s, step)
    ensures ProcsOk(server, AnswerNext(s, step)) && AllApart(AnswerNext(s, step).procs)
  {
    var s' := AnswerNext(s, step);
    if step.proc in s'.procs {
      var request := s.contents.requests[step.requestId];
      D.AllowedMeansConsented(request, step.subject, step.decision, step.now);
      ConsentIsNew(server, s, step.requestId);
      var consent := Consented(step.requestId, request, step.subject);
      assert FromConsent(s'.events, step.requestId, s'.procs[step.proc].code) by {
        assert consent in s'.events;
      }
      ProcsKept(server, s, s', {consent}, {step.proc});
    } else {
      ProcsKept(server, s, s', {}, {});
    }
  }

  lemma StoreCodeKeepsInv(server: Server, s: State, step: Step)
    requires Inv(server, s) && step.StoreCode? && Enabled(s, step)
    ensures Inv(server, Next(server, s, step))
  {
    var s' := Next(server, s, step);
    var p := s.procs[step.proc];
    var made := CodeMade(p.requestId, step.codeHash, p.code);
    assert ProcOk(server, s, p);
    StoreCodeIsNew(server, s, p, step.codeHash);
    assert CodeMadeOf(s'.events, step.codeHash, p.code) by {
      assert made in s'.events;
    }
    StoreKept(server, s, s');
    EventsKept(server, s, s', {made});
    SinglesKept(s.events, made);
    forall q | q in s'.procs ensures !Claims(made, s'.procs[q]) {
      assert Apart(s.procs[q], p);
    }
    ProcsKept(server, s, s', {made}, {});
  }

  lemma StoreCodeIsNew(server: Server, s: State, p: Proc, codeHash: Hash)
    requires EventsOk(server, s) && ProcOk(server, s, p) && p.Allowing? && codeHash !in s.usedHashes
    ensures forall e :: e in s.events && e.CodeMade? ==> e.codeHash != codeHash && e.requestId != p.requestId
  {
    forall e | e in s.events && e.CodeMade? ensures e.codeHash != codeHash && e.requestId != p.requestId {
      assert EventOk(server, s, e) && !Claims(e, p);
    }
  }

  lemma PresentKeepsEvents(server: Server, s: State, step: Step)
    requires StoreOk(server, s) && EventsOk(server, s) && step.Present?
    ensures StoreOk(server, PresentNext(server, s, step)) && EventsOk(server, PresentNext(server, s, step))
  {
    var s' := PresentNext(server, s, step);
    StoreKept(server, s, s');
    EventsKept(server, s, s', {});
  }

  lemma PresentKeepsProcs(server: Server, s: State, step: Step)
    requires StoreOk(server, s) && EventsOk(server, s) && ProcsOk(server, s) && AllApart(s.procs) && step.Present?
      && Enabled(s, step)
    ensures ProcsOk(server, PresentNext(server, s, step)) && AllApart(PresentNext(server, s, step).procs)
  {
    var s' := PresentNext(server, s, step);
    if step.proc in s'.procs {
      CodeIsUnclaimed(server, s, step.codeHash);
      assert ProcOk(server, s', s'.procs[step.proc]);
      ProcsKept(server, s, s', {}, {step.proc});
    } else {
      ProcsKept(server, s, s', {}, {});
    }
  }

  /** A code still in the store has no grant, and no handler has it. */
  lemma CodeIsUnclaimed(server: Server, s: State, codeHash: Hash)
    requires StoreOk(server, s) && EventsOk(server, s) && ProcsOk(server, s) && codeHash in s.contents.codes
    ensures codeHash in s.usedHashes && CodeMadeOf(s.events, codeHash, s.contents.codes[codeHash])
    ensures forall e :: e in s.events && e.GrantMade? ==> e.codeHash != codeHash
    ensures forall q :: q in s.procs && OfCode(s.procs[q]) ==> s.procs[q].codeHash != codeHash
  {
    assert CodeMadeOf(s.events, codeHash, s.contents.codes[codeHash]);
    var made :| made in s.events && made.CodeMade? && made.codeHash == codeHash;
    assert EventOk(server, s, made);
    forall e | e in s.events && e.GrantMade? ensures e.codeHash != codeHash {
      assert EventOk(server, s, e);
    }
    forall q | q in s.procs && OfCode(s.procs[q]) ensures s.procs[q].codeHash != codeHash {
      assert ProcOk(server, s, s.procs[q]);
    }
  }

  lemma MintKeepsProcs(server: Server, s: State, step: Step)
    requires ProcsOk(server, s) && AllApart(s.procs) && step.MintGrant? && Enabled(s, step)
    ensures ProcsOk(server, MintNext(server, s, step)) && AllApart(MintNext(server, s, step).procs)
  {
    var s' := MintNext(server, s, step);
    var p := s.procs[step.proc];
    assert ProcOk(server, s, p);
    if step.proc in s'.procs {
      var q := s'.procs[step.proc];
      assert forall e :: Claims(e, p) <==> Claims(e, q);
      assert FromCode(server, s.events, p.codeHash, q.grant, q.form);
      assert ProcOk(server, s', q);
      ReplacedApart(s.procs, step.proc, q);
    }
    ProcsKept(server, s, s', {}, {step.proc});
  }

  lemma ReplacedApart(procs: map<nat, Proc>, k: nat, q: Proc)
    requires AllApart(procs) && k in procs && OfCode(procs[k]) && OfCode(q) && q.codeHash == procs[k].codeHash
    ensures AllApart(procs[k := q])
  {
    forall i, j | i in procs && j in procs && i != j ensures Apart(procs[k := q][i], procs[k := q][j]) {
      assert Apart(procs[i], procs[j]);
    }
  }

  lemma StoreGrantIsNew(server: Server, s: State, p: Proc, grantId: Id)
    requires EventsOk(server, s) && ProcOk(server, s, p) && p.Minted? && grantId !in s.usedIds
    ensures forall e :: e in s.events && e.GrantMade? ==> e.codeHash != p.codeHash && e.grantId != grantId
  {
    forall e | e in s.events && e.GrantMade? ensures e.codeHash != p.codeHash && e.grantId != grantId {
      assert EventOk(server, s, e) && !Claims(e, p);
    }
  }

  lemma StoreGrantKeepsEvents(server: Server, s: State, step: Step)
    requires StoreOk(server, s) && EventsOk(server, s) && AllSingle(s.events) && ProcsOk(server, s)
    requires step.StoreGrant? && Enabled(s, step)
    ensures StoreOk(server, StoreGrantNext(server, s, step)) && EventsOk(server, StoreGrantNext(server, s, step))
  {
    var s' := StoreGrantNext(server, s, step);
    var p := s.procs[step.proc];
    var grant := p.grant.(id := step.grantId);
    var made, issued := GrantMade(p.codeHash, step.grantId, grant, p.form), TokenIssued(step.grantId, p.token);
    assert ProcOk(server, s, p);
    StoreGrantIsNew(server, s, p, step.grantId);
    assert made in s'.events;
    assert FromCode(server, s'.events, p.codeHash, grant, p.form);
    assert T.Serves(p.token, made.grant);
    assert GrantMadeOf(s'.events, step.grantId, grant);
    StoreKept(server, s, s');
    EventsKept(server, s, s', {made, issued});
  }

  lemma StoreGrantKeepsSingle(server: Server, s: State, step: Step)
    requires StoreOk(server, s) && EventsOk(server, s) && AllSingle(s.events) && ProcsOk(server, s)
    requires step.StoreGrant? && Enabled(s, step)
    ensures AllSingle(StoreGrantNext(server, s, step).events)
  {
    var p := s.procs[step.proc];
    var made, issued := GrantMade(p.codeHash, step.grantId, p.grant.(id := step.grantId), p.form),
      TokenIssued(step.grantId, p.token);
    assert ProcOk(server, s, p);
    StoreGrantIsNew(server, s, p, step.grantId);
    SinglesKept(s.events, made);
    SinglesKept(s.events + {made}, issued);
    assert StoreGrantNext(server, s, step).events == s.events + {made} + {issued};
  }

  lemma StoreGrantKeepsProcs(server: Server, s: State, step: Step)
    requires ProcsOk(server, s) && AllApart(s.procs) && step.StoreGrant? && Enabled(s, step)
    ensures ProcsOk(server, StoreGrantNext(server, s, step)) && AllApart(StoreGrantNext(server, s, step).procs)
  {
    var s' := StoreGrantNext(server, s, step);
    var p := s.procs[step.proc];
    var made := GrantMade(p.codeHash, step.grantId, p.grant.(id := step.grantId), p.form);
    forall q | q in s'.procs ensures !Claims(made, s'.procs[q]) {
      assert Apart(s.procs[q], p);
    }
    ProcsKept(server, s, s', {made, TokenIssued(step.grantId, p.token)}, {});
  }

  /** No look, and no spending, adds a grant or changes a grant's record. */
  lemma TablesKeepGrants(t: G.Tables, r: G.Rotation)
    ensures forall g :: g in G.Commit(t, r).0.grants ==> g in t.grants && G.Commit(t, r).0.grants[g].grant == t.grants[g].grant
    ensures var left := G.AfterLook(t, G.Look(t, r.presented, r.now));
      forall g :: g in left.grants ==> g in t.grants && left.grants[g].grant == t.grants[g].grant
  {
  }

  /** The step of a refresh leaves requests, codes and the grants' records as they were. */
  ghost predicate OnlyRefreshes(s: State, s': State, added: set<Event>) {
    && s'.contents.requests == s.contents.requests && s'.contents.codes == s.contents.codes
    && s'.usedIds == s.usedIds && s.usedHashes <= s'.usedHashes && s'.events == s.events + added
    && forall g :: g in s'.contents.tables.grants ==>
      g in s.contents.tables.grants && s'.contents.tables.grants[g].grant == s.contents.tables.grants[g].grant
  }

  lemma RefreshingKeeps(server: Server, s: State, s': State, added: set<Event>)
    requires StoreOk(server, s) && EventsOk(server, s) && OnlyRefreshes(s, s', added)
    requires forall e :: e in added ==> EventOk(server, s', e)
    ensures StoreOk(server, s') && EventsOk(server, s') && Grows(s, s')
  {
    StoreKept(server, s, s');
    EventsKept(server, s, s', added);
  }

  lemma LookUpOnlyRefreshes(s: State, step: Step)
    requires step.LookUp?
    ensures OnlyRefreshes(s, LookUpNext(s, step), {})
  {
    var passed: GrantCheck := (grant: Grant) => None;
    TablesKeepGrants(s.contents.tables, G.Rotation(step.presented, step.successor, 0, step.now, passed));
  }

  lemma LookUpKeepsProcs(server: Server, s: State, step: Step)
    requires StoreOk(server, s) && ProcsOk(server, s) && AllApart(s.procs) && step.LookUp? && Enabled(s, step)
    requires Grows(s, LookUpNext(s, step))
    ensures ProcsOk(server, LookUpNext(s, step)) && AllApart(LookUpNext(s, step).procs)
  {
    var s' := LookUpNext(s, step);
    if step.proc in s'.procs {
      assert GrantMadeOf(
        s.events, s.contents.tables.tokens[step.presented].grantId, s'.procs[step.proc].grant);
      assert ProcOk(server, s', s'.procs[step.proc]);
    }
    ProcsKept(server, s, s', {}, {step.proc});
  }

  lemma CheckKeepsInv(server: Server, s: State, step: Step)
    requires Inv(server, s) && step.CheckRenewal? && Enabled(s, step)
    ensures Inv(server, CheckNext(server, s, step))
  {
    var s', p := CheckNext(server, s, step), s.procs[step.proc];
    var active: Id -> bool := id => Active(s.contents, id);
    assert ProcOk(server, s, p);
    RefreshingKeeps(server, s, s', {});
    if step.proc in s'.procs {
      T.CheckedTokenServes(server.cfg, p.grant, p.renewal, p.at, active, p.tokenId);
      assert ProcOk(server, s', s'.procs[step.proc]);
    }
    ProcsKept(server, s, s', {}, {step.proc});
    forall i, j | i in s'.procs && j in s'.procs && i != j ensures Apart(s'.procs[i], s'.procs[j]) {
      assert Apart(s.procs[i], s.procs[j]);
    }
  }

  /** What a spending hands out: the token minted, or nothing. */
  ghost function HandedOut(server: Server, s: State, step: Step): set<Event>
    requires step.Spend? && Enabled(s, step)
  {
    if SpendNext(server, s, step).events == s.events then {}
    else {TokenIssued(s.procs[step.proc].grant.id, s.procs[step.proc].token)}
  }

  lemma SpendOnlyRefreshes(server: Server, s: State, step: Step)
    requires step.Spend? && Enabled(s, step)
    ensures OnlyRefreshes(s, SpendNext(server, s, step), HandedOut(server, s, step))
  {
    var p := s.procs[step.proc];
    var passed: GrantCheck := (grant: Grant) => None;
    TablesKeepGrants(
      s.contents.tables, G.Rotation(p.presented, p.successor, p.at + server.cfg.RefreshTokenLifetime(), p.at, passed));
  }

  lemma MintedForAGrant(server: Server, s: State, s': State, p: Proc)
    requires ProcOk(server, s, p) && p.Renewing? && s.events <= s'.events
    ensures EventOk(server, s', TokenIssued(p.grant.id, p.token))
  {
    var made :| made in s.events && made.GrantMade? && made.grantId == p.grant.id && made.grant == p.grant;
    assert made in s'.events && T.Serves(p.token, made.grant);
  }

  lemma SpendKeepsInv(server: Server, s: State, step: Step)
    requires Inv(server, s) && step.Spend? && Enabled(s, step)
    ensures Inv(server, SpendNext(server, s, step))
  {
    var s', added := SpendNext(server, s, step), HandedOut(server, s, step);
    SpendOnlyRefreshes(server, s, step);
    assert ProcOk(server, s, s.procs[step.proc]);
    MintedForAGrant(server, s, s', s.procs[step.proc]);
    RefreshingKeeps(server, s, s', added);
    IssuedSingle(s.events, added);
    ProcsKept(server, s, s', added, {step.proc});
  }

  lemma IssuedSingle(events: set<Event>, added: set<Event>)
    requires AllSingle(events) && forall e :: e in added ==> e.TokenIssued?
    ensures AllSingle(events + added)
  {
  }

  lemma StepKeepsInv(server: Server, s: State, step: Step)
    requires Inv(server, s) && Enabled(s, step)
    ensures Inv(server, Next(server, s, step))
  {
    match step
    case Ask(_, _, _, _, _) => AskKeepsInv(server, s, step);
    case Answer(_, _, _, _, _) =>
      AnswerKeepsStore(server, s, step);
      AnswerKeepsEvents(server, s, step);
      AnswerKeepsSingle(server, s, step);
      AnswerKeepsProcs(server, s, step);
    case StoreCode(_, _) => StoreCodeKeepsInv(server, s, step);
    case Present(_, _, _, _) =>
      PresentKeepsEvents(server, s, step);
      PresentKeepsProcs(server, s, step);
    case MintGrant(_, _) =>
      StoreKept(server, s, MintNext(server, s, step));
      EventsKept(server, s, MintNext(server, s, step), {});
      MintKeepsProcs(server, s, step);
    case StoreGrant(_, _, _) =>
      StoreGrantKeepsEvents(server, s, step);
      StoreGrantKeepsSingle(server, s, step);
      StoreGrantKeepsProcs(server, s, step);
    case LookUp(_, _, _, _, _, _) =>
      LookUpOnlyRefreshes(s, step);
      RefreshingKeeps(server, s, LookUpNext(s, step), {});
      LookUpKeepsProcs(server, s, step);
    case CheckRenewal(_) => CheckKeepsInv(server, s, step);
    case Spend(_) => SpendKeepsInv(server, s, step);
    case _ =>
      var s' := Next(server, s, step);
      StoreKept(server, s, s');
      EventsKept(server, s, s', {});
      ProcsKept(server, s, s', {}, {});
  }

  lemma {:induction false} RunKeepsInv(server: Server, trace: seq<State>, steps: seq<Step>, n: nat)
    requires IsRun(server, trace, steps) && n < |trace|
    ensures Inv(server, trace[n])
  {
    if n > 0 {
      RunKeepsInv(server, trace, steps, n - 1);
      StepKeepsInv(server, trace[n - 1], steps[n - 1]);
    }
  }

  /** One account's "allow", and the code, grant and token that came of it. */
  datatype Lineage = Lineage(consent: Event, code: Event, grant: Event)

  ghost predicate LeadsTo(server: Server, events: set<Event>, l: Lineage, grantId: Id, token: A.Token) {
    && l.consent in events && l.consent.Consented?
    && l.code in events && l.code.CodeMade? && l.code.requestId == l.consent.requestId
    && l.grant in events && l.grant.GrantMade? && l.grant.codeHash == l.code.codeHash && l.grant.grantId == grantId
    && var request := l.consent.request;
    && token.subject == l.consent.subject == request.accountId
    && token.clientId == request.clientId
    && token.audience == request.resource
    && Subset(token.scopes, Fields(l.grant.grant.scope))
    && l.grant.grant.scope == l.code.code.scope == request.scope
    && RedeemedBy(server, l.grant.form, l.code.code, l.grant.grant.createdAt)
    && l.grant.form.clientId == request.clientId
    && Base64Url.Encode(server.sha256(l.grant.form.verifier)) == request.codeChallenge
    && (l.grant.form.redirectUri != "" ==> l.grant.form.redirectUri == request.redirectUri)
    && Within(server, token.audience, request.scope)
  }

  lemma LineageExists(server: Server, s: State, grantId: Id, token: A.Token) returns (l: Lineage)
    requires EventsOk(server, s) && TokenIssued(grantId, token) in s.events
    ensures LeadsTo(server, s.events, l, grantId, token)
  {
    assert EventOk(server, s, TokenIssued(grantId, token));
    var grant :| grant in s.events && grant.GrantMade? && grant.grantId == grantId && T.Serves(token, grant.grant);
    assert EventOk(server, s, grant);
    var code :| code in s.events && code.CodeMade? && code.codeHash == grant.codeHash
      && grant.grant.accountId == code.code.accountId && grant.grant.clientId == code.code.clientId
      && grant.grant.resource == code.code.resource && grant.grant.scope == code.code.scope
      && RedeemedBy(server, grant.form, code.code, grant.grant.createdAt);
    assert EventOk(server, s, code);
    var consent :| consent in s.events && consent.Consented? && consent.requestId == code.requestId
      && D.Carries(code.code, consent.request);
    assert EventOk(server, s, consent);
    l := Lineage(consent, code, grant);
  }

  ghost predicate HasItsResourcesScopes(resources: seq<Resource>, token: A.Token) {
    exists r :: r in resources && r.url == token.audience && Subset(token.scopes, r.scopes)
  }

  lemma LineageScopes(server: Server, events: set<Event>, l: Lineage, grantId: Id, token: A.Token)
    requires LeadsTo(server, events, l, grantId, token) && Az.ClosedScopes(server.cfg.resources)
    ensures HasItsResourcesScopes(server.cfg.resources, token)
  {
    Az.WithinOnceClosed(server.cfg.resources, token.audience, l.consent.request.scope);
    var r :| r in server.cfg.resources && r.url == token.audience && Subset(Fields(l.consent.request.scope), r.scopes);
    assert Subset(token.scopes, r.scopes);
  }

  /**
  Every access token issued traces back to one "allow": by the token's account, for its client and
  its resource, the token's scopes among the grant's, the grant's the consented ones, and those
  among the words of the resource's scopes -- among the scopes themselves where they are closed under splitting.
  Read back from its claims, it has the scopes it was issued with.
  */
  lemma TokensTraceToOneConsent(
    server: Server, trace: seq<State>, steps: seq<Step>, n: nat, grantId: Id, token: A.Token)
    requires IsRun(server, trace, steps) && n < |trace|
    requires TokenIssued(grantId, token) in trace[n].events
    ensures exists l :: LeadsTo(server, trace[n].events, l, grantId, token)
    ensures forall l, m ::
      LeadsTo(server, trace[n].events, l, grantId, token) && LeadsTo(server, trace[n].events, m, grantId, token) ==> l == m
    ensures Az.ClosedScopes(server.cfg.resources) ==> HasItsResourcesScopes(server.cfg.resources, token)
    ensures A.FromPayload(A.ClaimsOf(token)).Some? && A.FromPayload(A.ClaimsOf(token)).value.scopes == token.scopes
  {
    RunKeepsInv(server, trace, steps, n);
    var l := LineageExists(server, trace[n], grantId, token);
    assert EventOk(server, trace[n], TokenIssued(grantId, token));
    A.MintRoundTrip(token);
    LineageIsUnique(server, trace[n].events, grantId, token);
    if Az.ClosedScopes(server.cfg.resources) {
      LineageScopes(server, trace[n].events, l, grantId, token);
    }
  }

  /** On a server whose scopes are one word each, a token has no scope its resource has not. */
  lemma OneWordScopesStayInside(
    server: Server, trace: seq<State>, steps: seq<Step>, n: nat, grantId: Id, token: A.Token)
    requires forall r, s :: r in server.cfg.resources && s in r.scopes ==> IsScope(s)
    requires IsRun(server, trace, steps) && n < |trace| && TokenIssued(grantId, token) in trace[n].events
    ensures HasItsResourcesScopes(server.cfg.resources, token)
  {
    Az.OneWordScopesAreClosed(server.cfg.resources);
    TokensTraceToOneConsent(server, trace, steps, n, grantId, token);
  }

  lemma LineageIsUnique(server: Server, events: set<Event>, grantId: Id, token: A.Token)
    requires AllSingle(events)
    ensures forall l, m :: LeadsTo(server, events, l, grantId, token) && LeadsTo(server, events, m, grantId, token) ==> l == m
  {
    forall l, m | LeadsTo(server, events, l, grantId, token) && LeadsTo(server, events, m, grantId, token)
      ensures l == m
    {
      assert Single(l.grant, m.grant);
      assert Single(l.code, m.code);
      assert Single(l.consent, m.consent);
    }
  }

  /** One request is consented to at most once, a request yields at most one code, and a code at most one grant. */
  lemma OneOfEach(server: Server, trace: seq<State>, steps: seq<Step>, n: nat, e: Event, f: Event)
    requires IsRun(server, trace, steps) && n < |trace|
    requires e in trace[n].events && f in trace[n].events
    ensures e.Consented? && f.Consented? && e.requestId == f.requestId ==> e == f
    ensures e.CodeMade? && f.CodeMade? && e.requestId == f.requestId ==> e == f
    ensures e.GrantMade? && f.GrantMade? && e.codeHash == f.codeHash ==> e == f
  {
    RunKeepsInv(server, trace, steps, n);
    assert Single(e, f);
  }

  /** History is kept: an event once in it stays, so "at most one" is over the whole run. */
  lemma {:induction false} EventsStay(server: Server, trace: seq<State>, steps: seq<Step>, i: nat, j: nat)
    requires IsRun(server, trace, steps) && i <= j < |trace|
    ensures trace[i].events <= trace[j].events
  {
    if i < j {
      EventsStay(server, trace, steps, i, j - 1);
      assert Enabled(trace[j - 1], steps[j - 1]);
    }
  }
}

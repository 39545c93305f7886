/**
The database store clears expired requests and codes as it inserts new ones. Side by side with a
store that never does, under one clock that does not go back, the endpoints issue the same codes
and the same grants. A handler's calls on the store are steps of their own, others' coming between.
*/
module Purging {
  import opened Wrappers
  import opened Oauth
  import A = AccessToken
  import D = DecisionEndpoint
  import P = PostgresStore
  import T = TokenEndpoint
  import Pkce

  /** The rows, and the codes that decisions in progress have yet to store. */
  datatype State = State(
    requests: map<Id, AuthorizationRequest>, codes: map<Hash, AuthorizationCode>, allowing: map<nat, AuthorizationCode>)

  datatype Op =
    | Hold(id: Id, request: AuthorizationRequest, now: Time)
    | Answer(proc: nat, requestId: Id, subject: Id, decision: string, now: Time)
    | StoreCode(proc: nat, codeHash: Hash, now: Time)
    | Redeem(presented: Hash, form: T.CodeForm, now: Time, active: Id -> bool, tokenId: string)

  /** What an operation hands out. */
  datatype Output =
    | Nothing
    | Decided(outcome: D.Outcome)
    | MadeCode(codeHash: Hash, code: AuthorizationCode)
    | MadeGrant(presented: Hash, grant: Grant, token: A.Token)

  datatype Server = Server(cfg: T.Config, sha256: Pkce.Sha256)

  function Lookup<V>(rows: map<string, V>, key: string): Option<V> {
    var popped := P.Popped(rows, key);
    if popped.Success? then Some(popped.value) else None
  }

  function Without<V>(rows: map<string, V>, key: string): map<string, V> {
    if key == "" then rows else rows - {key}
  }

  /**
  What a decision that cannot be taken says is the same to a request purged and to one expired: nothing is
  handed out.
  */
  function Handed(outcome: D.Outcome): Output {
    if outcome.Allowed? then Decided(outcome) else Nothing
  }

  /** One operation, on a store that purges or on one that does not. */
  function Run(server: Server, purging: bool, s: State, op: Op): (State, Output) {
    match op
    case Hold(id, request, now) =>
      if request.accountId == "" then (s, Nothing)
      else
        var kept := if purging then P.PurgeRequests(s.requests, now) else s.requests;
        (s.(requests := kept[id := request]), Nothing)
    case Answer(proc, requestId, subject, decision, now) =>
      var outcome := D.Decide(Lookup(s.requests, requestId), subject, decision, now);
      var left := s.(requests := Without(s.requests, requestId));
      (if outcome.Allowed? then left.(allowing := s.allowing[proc := outcome.code]) else left, Handed(outcome))
    case StoreCode(proc, codeHash, now) =>
      if proc !in s.allowing then (s, Nothing)
      else
        var code := s.allowing[proc];
        var left := s.(allowing := s.allowing - {proc});
        if codeHash == "" then (left, Nothing)
        else
          var kept := if purging then P.PurgeCodes(s.codes, now) else s.codes;
          if codeHash in kept then (left.(codes := kept), Nothing)
          else (left.(codes := kept[codeHash := code]), MadeCode(codeHash, code))
    case Redeem(presented, form, now, active, tokenId) =>
      var popped := Lookup(s.codes, presented);
      var outcome := T.Redeem(server.cfg, server.sha256, popped, form, now, active, tokenId);
      (s.(codes := Without(s.codes, presented)),
       if outcome.Issued? then MadeGrant(presented, T.GrantOf(popped.value, now), outcome.token) else Nothing)
  }

  /** The endpoints' calls on the database store are the purging operations. */
  method Serve(server: Server, store: P.Store, allowing: map<nat, AuthorizationCode>, op: Op)
    returns (output: Output, left: map<nat, AuthorizationCode>)
    modifies store
    ensures store.grants == old(store.grants) && store.tokens == old(store.tokens)
    ensures (State(store.requests, store.codes, left), output) ==
      Run(server, true, State(old(store.requests), old(store.codes), allowing), op)
  {
    output, left := Nothing, allowing;
    match op {
      case Hold(id, request, now) =>
        var _ := store.InsertAuthorizationRequest(request, id, now);
      case Answer(proc, requestId, subject, decision, now) =>
        var popped := store.PopAuthorizationRequest(requestId);
        var outcome := D.Decide(if popped.Success? then Some(popped.value) else None, subject, decision, now);
        if outcome.Allowed? {
          output, left := Decided(outcome), allowing[proc := outcome.code];
        }
      case StoreCode(proc, codeHash, now) =>
        if proc in allowing {
          left := allowing - {proc};
          var ok := store.InsertAuthorizationCode(codeHash, allowing[proc], now);
          if ok {
            output := MadeCode(codeHash, allowing[proc]);
          }
        }
      case Redeem(presented, form, now, active, tokenId) =>
        var popped := store.PopAuthorizationCode(presented);
        var code := if popped.Success? then Some(popped.value) else None;
        var outcome := T.Redeem(server.cfg, server.sha256, code, form, now, active, tokenId);
        if outcome.Issued? {
          output := MadeGrant(presented, T.GrantOf(code.value, now), outcome.token);
        }
    }
  }

  function Outputs(server: Server, purging: bool, s: State, ops: seq<Op>): seq<Output>
    decreases |ops|
  {
    if ops == [] then []
    else
      var (next, output) := Run(server, purging, s, ops[0]);
      [output] + Outputs(server, purging, next, ops[1..])
  }

  /** The clock does not go back, and no code's hash is drawn twice. */
  predicate Proper(ops: seq<Op>, clock: Time, used: set<Hash>) {
    ops == [] ||
    (clock <= ops[0].now
     && (ops[0].StoreCode? ==> ops[0].codeHash !in used)
     && Proper(ops[1..], ops[0].now, UsedAfter(ops[0], used)))
  }

  function UsedAfter(op: Op, used: set<Hash>): set<Hash> {
    if op.StoreCode? then used + {op.codeHash} else used
  }

  /** The purging store has every row of the other that has not expired, and no other row. */
  ghost predicate RequestsBehind(
    purged: map<Id, AuthorizationRequest>, full: map<Id, AuthorizationRequest>, clock: Time)
  {
    && (forall id :: id in purged ==> id in full && purged[id] == full[id])
    && (forall id :: id in full && id !in purged ==> full[id].expiresAt < clock)
  }

  ghost predicate CodesBehind(purged: map<Hash, AuthorizationCode>, full: map<Hash, AuthorizationCode>, clock: Time) {
    && (forall h :: h in purged ==> h in full && purged[h] == full[h])
    && (forall h :: h in full && h !in purged ==> full[h].expiresAt < clock)
  }

  ghost predicate Behind(purged: State, full: State, clock: Time, used: set<Hash>) {
    && RequestsBehind(purged.requests, full.requests, clock)
    && CodesBehind(purged.codes, full.codes, clock)
    && purged.allowing == full.allowing
    && full.codes.Keys <= used
  }

  lemma HeldRequestsBehind(
    purged: map<Id, AuthorizationRequest>, full: map<Id, AuthorizationRequest>, clock: Time, now: Time, id: Id,
    request: AuthorizationRequest)
    requires RequestsBehind(purged, full, clock) && clock <= now
    ensures RequestsBehind(P.PurgeRequests(purged, now)[id := request], full[id := request], now)
  {
  }

  lemma HoldStaysBehind(server: Server, purged: State, full: State, clock: Time, used: set<Hash>, op: Op)
    requires Behind(purged, full, clock, used) && op.Hold? && clock <= op.now
    ensures Behind(Run(server, true, purged, op).0, Run(server, false, full, op).0, op.now, used)
  {
    HeldRequestsBehind(purged.requests, full.requests, clock, op.now, op.id, op.request);
  }

  lemma AnswerStaysBehind(server: Server, purged: State, full: State, clock: Time, used: set<Hash>, op: Op)
    requires Behind(purged, full, clock, used) && op.Answer? && clock <= op.now
    ensures Behind(Run(server, true, purged, op).0, Run(server, false, full, op).0, op.now, used)
    ensures Run(server, true, purged, op).1 == Run(server, false, full, op).1
  {
    var wanted, held := Lookup(full.requests, op.requestId), Lookup(purged.requests, op.requestId);
    if wanted != held {
      // What was purged is refused: nothing comes of the answer on either store.
      assert !D.Decide(wanted, op.subject, op.decision, op.now).Allowed? && held == None;
    }
  }

  lemma StoredCodesBehind(
    purged: map<Hash, AuthorizationCode>, full: map<Hash, AuthorizationCode>, clock: Time, now: Time, h: Hash,
    code: AuthorizationCode)
    requires CodesBehind(purged, full, clock) && clock <= now && h !in full
    ensures h !in P.PurgeCodes(purged, now)
    ensures CodesBehind(P.PurgeCodes(purged, now)[h := code], full[h := code], now)
  {
  }

  lemma TimePasses(purged: State, full: State, clock: Time, used: set<Hash>, now: Time, more: set<Hash>)
    requires Behind(purged, full, clock, used) && clock <= now && used <= more
    ensures Behind(purged, full, now, more)
  {
  }

  lemma StoreCodeStaysBehind(server: Server, purged: State, full: State, clock: Time, used: set<Hash>, op: Op)
    requires Behind(purged, full, clock, used) && op.StoreCode? && clock <= op.now && op.codeHash !in used
    ensures Behind(Run(server, true, purged, op).0, Run(server, false, full, op).0, op.now, used + {op.codeHash})
    ensures Run(server, true, purged, op).1 == Run(server, false, full, op).1
  {
    TimePasses(purged, full, clock, used, op.now, used + {op.codeHash});
    if op.proc in full.allowing && op.codeHash != "" {
      StoredCodesBehind(purged.codes, full.codes, clock, op.now, op.codeHash, full.allowing[op.proc]);
    }
  }

  lemma RedeemStaysBehind(server: Server, purged: State, full: State, clock: Time, used: set<Hash>, op: Op)
    requires Behind(purged, full, clock, used) && op.Redeem? && clock <= op.now
    ensures Behind(Run(server, true, purged, op).0, Run(server, false, full, op).0, op.now, used)
    ensures Run(server, true, purged, op).1 == Run(server, false, full, op).1
  {
    if op.presented in full.codes && op.presented !in purged.codes {
      assert T.CheckCode(server.sha256, full.codes[op.presented], op.form, op.now).Some?;
    }
  }

  lemma {:induction false} PurgingIsUnobservableFrom(
    server: Server, purged: State, full: State, clock: Time, used: set<Hash>, ops: seq<Op>)
    requires Behind(purged, full, clock, used) && Proper(ops, clock, used)
    ensures Outputs(server, true, purged, ops) == Outputs(server, false, full, ops)
    decreases |ops|
  {
    if ops != [] {
      var op := ops[0];
      match op {
        case Hold(_, _, _) => HoldStaysBehind(server, purged, full, clock, used, op);
        case Answer(_, _, _, _, _) => AnswerStaysBehind(server, purged, full, clock, used, op);
        case StoreCode(_, _, _) => StoreCodeStaysBehind(server, purged, full, clock, used, op);
        case Redeem(_, _, _, _, _) => RedeemStaysBehind(server, purged, full, clock, used, op);
      }
      PurgingIsUnobservableFrom(
        server, Run(server, true, purged, op).0, Run(server, false, full, op).0, op.now, UsedAfter(op, used), ops[1..]);
    }
  }

  const NONE := State(map[], map[], map[])

  /** From empty stores, whatever the operations, purging changes nothing that is handed out. */
  lemma PurgingIsUnobservable(server: Server, ops: seq<Op>, start: Time)
    requires Proper(ops, start, {})
    ensures Outputs(server, true, NONE, ops) == Outputs(server, false, NONE, ops)
  {
    PurgingIsUnobservableFrom(server, NONE, NONE, start, {}, ops);
  }
}

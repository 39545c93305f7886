/**
Renewals of device-bound sessions with each of the handler's statements a step of its own, any other's coming
between: the sign-in is read, the challenge is taken, the session is minted for the sign-in as it was read, and the
next challenge is put there. Whatever comes between, no two sessions are minted for one challenge.
*/
module DbscInterleavings {
  import opened Wrappers
  import opened Oauth
  import opened Authentications
  import opened SessionToken
  import opened SessionManager
  import opened SessionRuns
  import D = DbscRefreshEndpoint

  /** What a handler holds: the sign-in as it read it, and then the challenge it has taken too. */
  datatype Proc =
    | Proving(id: Id, proof: D.Proof, a: Authentication)
    | Holding(challenge: Challenge, expiresAt: Time, takenAt: Time, a: Authentication)

  datatype Minting = Minting(challenge: Challenge, expiresAt: Time, takenAt: Time, token: Token)

  /** `given` and `minted` are history, which no step reads. */
  datatype Interleaved = Interleaved(
    tables: Tables, procs: map<nat, Proc>, given: map<Challenge, Time>, minted: seq<Minting>, clock: Time)

  datatype Move =
    | Read(proc: nat, id: Id, proof: D.Proof, now: Time)
    | Take(proc: nat, now: Time)
    | Mint(proc: nat, sessionId: string, now: Time)
    | Give(challenge: string, id: Id, duration: int, now: Time)      // demanded, seeded, or a new sign-in's
    | Register(jti: Option<string>, id: Id, now: Time)               // taken by a registration
    | Change(rows: map<Id, Row>, accounts: map<Id, Account>, now: Time)

  ghost predicate CanMove(s: Interleaved, move: Move) {
    && s.clock <= move.now
    && match move
       case Read(proc, _, _, _) => proc !in s.procs
       case Take(proc, _) => proc in s.procs && s.procs[proc].Proving?
       case Mint(proc, _, _) => proc in s.procs && s.procs[proc].Holding?
       case Give(challenge, _, _, _) => challenge != "" && forall ch :: ch in s.given ==> ch.challenge != challenge
       case Register(_, _, _) => true
       case Change(rows, accounts, _) =>
         var t := s.tables.(rows := rows, accounts := accounts); AccountsOk(t) && RowsOk(t)
  }

  ghost function Took(s: Interleaved, proc: nat, now: Time): Interleaved
    requires proc in s.procs && s.procs[proc].Proving?
  {
    var p := s.procs[proc];
    var left := s.(tables := D.Taken(s.tables, p.proof.jti, p.id));
    if D.Redeem(s.tables, p.proof.jti, p.id, now) != D.Spent then left.(procs := s.procs - {proc})
    else
      var ch := Challenge(p.proof.jti.value, p.id);
      left.(procs := s.procs[proc := Holding(ch, s.tables.challenges[ch], now, p.a)])
  }

  ghost function Moved(e: D.Endpoint, s: Interleaved, move: Move): Interleaved
    requires CanMove(s, move)
  {
    var next := match move
      case Read(proc, id, proof, now) =>
        if D.OwnProof(s.tables, id, proof, now) then
          s.(procs := s.procs[proc := Proving(id, proof, Authentications.Select(s.tables, id).value)])
        else s
      case Take(proc, now) => Took(s, proc, now)
      case Mint(proc, sessionId, now) =>
        var p := s.procs[proc];
        var session := MintSession(e.m, p.a, METHOD_DBSC, e.sessionDuration, now, sessionId);
        var left := s.(procs := s.procs - {proc});
        if session.Failure? then left
        else left.(minted := s.minted + [Minting(p.challenge, p.expiresAt, p.takenAt, session.value.token)])
      case Give(challenge, id, duration, now) =>
        var ch := Challenge(challenge, id);
        s.(tables := WithChallenge(s.tables, ch, duration, now), given := s.given[ch := now + duration])
      case Register(jti, id, now) => s.(tables := D.Taken(s.tables, jti, id))
      case Change(rows, accounts, _) => s.(tables := s.tables.(rows := rows, accounts := accounts));
    next.(clock := move.now)
  }

  ghost predicate Moves(e: D.Endpoint, s: Interleaved, moves: seq<Move>)
    decreases |moves|, 0
  {
    moves == [] || (Moves(e, s, moves[..|moves| - 1]) && CanMove(At(e, s, moves[..|moves| - 1]), moves[|moves| - 1]))
  }

  ghost function At(e: D.Endpoint, s: Interleaved, moves: seq<Move>): Interleaved
    requires Moves(e, s, moves)
    decreases |moves|, 1
  {
    if moves == [] then s else Moved(e, At(e, s, moves[..|moves| - 1]), moves[|moves| - 1])
  }

  // --- What every step keeps ---

  ghost predicate Pending(s: Interleaved) {
    forall ch :: ch in s.tables.challenges ==> ch in s.given && s.given[ch] == s.tables.challenges[ch]
  }

  /** A challenge taken is there no more; it was given to the sign-in it is held for, and was in time. */
  ghost predicate TakenOk(s: Interleaved, ch: Challenge, expiresAt: Time, takenAt: Time) {
    ch in s.given && ch !in s.tables.challenges && s.given[ch] == expiresAt && takenAt <= expiresAt
  }

  ghost predicate ProcOk(s: Interleaved, p: Proc) {
    && PlainId(p.a.id) && PlainId(p.a.account.id)
    && (p.Proving? ==> p.a.id == p.id)
    && (p.Holding? ==>
        && TakenOk(s, p.challenge, p.expiresAt, p.takenAt) && p.a.id == p.challenge.authenticationId
        && forall i :: 0 <= i < |s.minted| ==> s.minted[i].challenge != p.challenge)
  }

  ghost predicate ProcsOk(s: Interleaved) {
    && (forall p {:trigger ProcOk(s, s.procs[p])} :: p in s.procs ==> ProcOk(s, s.procs[p]))
    && (forall p, q :: p in s.procs && q in s.procs && p != q && s.procs[p].Holding? && s.procs[q].Holding? ==>
        s.procs[p].challenge != s.procs[q].challenge)
  }

  ghost predicate MintedOk(s: Interleaved) {
    && (forall i :: 0 <= i < |s.minted| ==>
        && TakenOk(s, s.minted[i].challenge, s.minted[i].expiresAt, s.minted[i].takenAt)
        && s.minted[i].token.authenticationId == s.minted[i].challenge.authenticationId)
    && (forall i, j :: 0 <= i < j < |s.minted| ==> s.minted[i].challenge != s.minted[j].challenge)
  }

  ghost predicate Inv(s: Interleaved) {
    AccountsOk(s.tables) && RowsOk(s.tables) && Pending(s) && ProcsOk(s) && MintedOk(s)
  }

  ghost predicate Start(s: Interleaved) {
    AccountsOk(s.tables) && RowsOk(s.tables) && s.tables.challenges == map[] && s.procs == map[] && s.minted == []
  }

  lemma TakeKeepsInv(e: D.Endpoint, s: Interleaved, move: Move)
    requires Inv(s) && move.Take? && CanMove(s, move)
    ensures Inv(Moved(e, s, move))
  {
    var s', p := Moved(e, s, move), s.procs[move.proc];
    assert ProcOk(s, p);
    if move.proc in s'.procs {
      forall i | 0 <= i < |s.minted| ensures s.minted[i].challenge != s'.procs[move.proc].challenge {
        assert TakenOk(s, s.minted[i].challenge, s.minted[i].expiresAt, s.minted[i].takenAt);
      }
    }
    forall q | q in s'.procs
      ensures ProcOk(s', s'.procs[q])
      ensures q != move.proc && s.procs[q].Holding? ==> s.procs[q].challenge !in s.tables.challenges
    {
      assert ProcOk(s, s.procs[q]);
    }
  }

  lemma MintKeepsInv(e: D.Endpoint, s: Interleaved, move: Move)
    requires Inv(s) && move.Mint? && CanMove(s, move)
    ensures Inv(Moved(e, s, move))
  {
    var s', p := Moved(e, s, move), s.procs[move.proc];
    assert ProcOk(s, p);
    forall q | q in s'.procs ensures ProcOk(s', s'.procs[q]) {
      assert ProcOk(s, s.procs[q]);
    }
    if s'.minted != s.minted {
      MintedExactlyWhileLive(e.m, p.a, METHOD_DBSC, e.sessionDuration, "", "", move.now, move.sessionId);
    }
  }

  lemma OtherKeepsInv(e: D.Endpoint, s: Interleaved, move: Move)
    requires Inv(s) && !move.Take? && !move.Mint? && CanMove(s, move)
    ensures Inv(Moved(e, s, move))
  {
    var s' := Moved(e, s, move);
    forall q | q in s'.procs ensures ProcOk(s', s'.procs[q]) {
      if q in s.procs {
        assert ProcOk(s, s.procs[q]);
      }
    }
  }

  lemma {:induction false} MovesKeepInv(e: D.Endpoint, s: Interleaved, moves: seq<Move>)
    requires (Start(s) || Inv(s)) && Moves(e, s, moves)
    ensures Inv(At(e, s, moves))
  {
    if moves != [] {
      var before, move := moves[..|moves| - 1], moves[|moves| - 1];
      MovesKeepInv(e, s, before);
      match move
      case Take(_, _) => TakeKeepsInv(e, At(e, s, before), move);
      case Mint(_, _, _) => MintKeepsInv(e, At(e, s, before), move);
      case _ => OtherKeepsInv(e, At(e, s, before), move);
    }
  }

  /**
  However the statements of any number of handlers interleave, sessions minted for devices inject into the challenges
  given out: each was given to the sign-in the session names, and taken in time, and no two sessions have one.
  */
  lemma InterleavedSessionsInject(e: D.Endpoint, s: Interleaved, moves: seq<Move>, i: nat, j: nat)
    requires Start(s) && Moves(e, s, moves) && i < |At(e, s, moves).minted| && j < |At(e, s, moves).minted|
    ensures var after := At(e, s, moves);
      var m := after.minted[i];
      && (i != j ==> m.challenge != after.minted[j].challenge)
      && m.challenge in after.given && m.takenAt <= after.given[m.challenge]
      && m.token.authenticationId == m.challenge.authenticationId
  {
    MovesKeepInv(e, s, moves);
  }

  /** With nothing in between, the steps come to what the handler does all at once. */
  lemma UndisturbedIsTheHandler(
    e: D.Endpoint, s: Interleaved, proc: nat, id: Id, proof: D.Proof, now: Time, newChallenge: string,
    sessionId: string)
    requires proc !in s.procs && s.clock <= now && D.OwnProof(s.tables, id, proof, now)
    requires newChallenge != "" && forall ch :: ch in s.given ==> ch.challenge != newChallenge
    ensures var read := Moved(e, s, Read(proc, id, proof, now));
      var taken := Moved(e, read, Take(proc, now));
      var reply := D.Handle(e, s.tables, id, Some(proof), now, newChallenge, sessionId);
      if proc !in taken.procs then
        && !reply.answer.Minted? && !reply.answer.Refused?
        && (reply.answer.ChallengeDemanded? ==>
            reply.tables == Moved(e, taken, Give(newChallenge, id, e.challengeDuration, now)).tables)
      else
        var minted := Moved(e, taken, Mint(proc, sessionId, now));
        && (reply.answer.Minted? <==> |minted.minted| == |s.minted| + 1)
        && (reply.answer.Minted? ==> minted.minted[|s.minted|].token == reply.answer.session.token)
        && reply.tables ==
          if reply.answer.Minted? && e.challengeDuration != 0
          then Moved(e, minted, Give(newChallenge, id, e.challengeDuration, now)).tables else minted.tables
  {
  }
}

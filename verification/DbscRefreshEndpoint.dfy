/**
Renewing a device-bound session: the browser names the sign-in, and proves it holds the key
registered for it by signing a challenge it was given, each challenge answering for one renewal.
*/
module DbscRefreshEndpoint {
  import opened Wrappers
  import opened Oauth
  import opened Authentications
  import opened SessionManager

  /** A proof as it is read: whose key it verifies by, and the challenge it says it answers. */
  datatype Proof = Proof(wellFormed: bool, signedBy: string, jti: Option<string>)

  datatype Redemption = Spent | NoJti | NoChallenge | ExpiredChallenge

  datatype Answer =
    | SessionIdEmpty
    | NoPublicKey
    | InvalidProof
    | Unserved
    | ChallengeDemanded(challenge: string)
    | SessionEnded
    | Refused(refusal: Refusal)
    | Minted(session: Session, next: Option<string>)

  datatype Reply = Reply(tables: Tables, answer: Answer)

  datatype Endpoint = Endpoint(m: Manager, sessionDuration: int, challengeDuration: int)

  /** What becomes of a challenge presented: it is gone, whether or not it was in time. */
  function Redeem(t: Tables, jti: Option<string>, authenticationId: Id, now: Time): Redemption {
    if jti == None || jti.value == "" then NoJti
    else
      var c := Challenge(jti.value, authenticationId);
      if c !in t.challenges then NoChallenge
      else if now > t.challenges[c] then ExpiredChallenge
      else Spent
  }

  function Taken(t: Tables, jti: Option<string>, authenticationId: Id): Tables {
    if jti == None || jti.value == "" then t
    else t.(challenges := t.challenges - {Challenge(jti.value, authenticationId)})
  }

  /** The answer that demands a proof, of the fresh challenge it carries. */
  function Demand(e: Endpoint, t: Tables, authenticationId: Id, now: Time, newChallenge: string): Reply {
    if e.challengeDuration == 0 then Reply(t, Unserved)
    else
      Reply(WithChallenge(t, Challenge(newChallenge, authenticationId), e.challengeDuration, now),
        ChallengeDemanded(newChallenge))
  }

  /** The session a redeemed challenge is answered with, and the challenge for the next time. */
  function MintAndSeed(
    e: Endpoint, t: Tables, a: Authentication, now: Time, newChallenge: string, sessionId: string): Reply
  {
    var minted := MintSession(e.m, a, METHOD_DBSC, e.sessionDuration, now, sessionId);
    if minted.Failure? then Reply(t, Refused(minted.error))
    else if e.challengeDuration == 0 then Reply(t, Minted(minted.value, None))
    else
      Reply(WithChallenge(t, Challenge(newChallenge, a.id), e.challengeDuration, now), Minted(minted.value,
        Some(newChallenge)))
  }

  /** A device's own proof: signed with the key of the sign-in it names, the sign-in being live. */
  predicate OwnProof(t: Tables, id: Id, proof: Proof, now: Time) {
    && id != "" && Select(t, id).Some?
    && var a := Select(t, id).value;
      && !a.ended && now <= a.expiresAt && a.dbscPublicKey != ""
      && proof.wellFormed && proof.signedBy == a.dbscPublicKey
  }

  function Handle(
    e: Endpoint, t: Tables, id: Id, proof: Option<Proof>, now: Time, newChallenge: string, sessionId: string): Reply
  {
    if id == "" then Reply(t, SessionIdEmpty)
    else if proof == None then Demand(e, t, id, now, newChallenge)
    else
      var selected := Select(t, id);
      if selected == None || selected.value.ended || now > selected.value.expiresAt then Reply(t, SessionEnded)
      else if selected.value.dbscPublicKey == "" then Reply(t, NoPublicKey)
      else if !proof.value.wellFormed || proof.value.signedBy != selected.value.dbscPublicKey then Reply(t, InvalidProof)
      else
        var taken := Taken(t, proof.value.jti, id);
        match Redeem(t, proof.value.jti, id, now)
        case NoJti => Reply(taken, Unserved)
        case NoChallenge => Demand(e, taken, id, now, newChallenge)
        case ExpiredChallenge => Demand(e, taken, id, now, newChallenge)
        case Spent => MintAndSeed(e, taken, selected.value, now, newChallenge, sessionId)
  }

  /** A challenge inserted for the sign-in; none when challenges are set up to last no time. */
  method IssueChallenge(e: Endpoint, db: Database, id: Id, now: Time, newChallenge: string) returns (issued: Option<string>)
    requires id != "" && newChallenge != ""
    modifies db`challenges
    ensures issued == if e.challengeDuration == 0 then None else Some(newChallenge)
    ensures db.View() ==
      if issued == None then old(db.View())
      else WithChallenge(old(db.View()), Challenge(newChallenge, id), e.challengeDuration, now)
  {
    var inserted := db.InsertDbscChallenge(Challenge(newChallenge, id), e.challengeDuration, now);
    issued := if inserted then Some(newChallenge) else None;
  }

  method ConsumeChallenge(db: Database, jti: Option<string>, id: Id, now: Time) returns (redemption: Redemption)
    modifies db`challenges
    ensures redemption == Redeem(old(db.View()), jti, id, now)
    ensures db.View() == Taken(old(db.View()), jti, id)
  {
    if jti == None || jti.value == "" {
      return NoJti;
    }
    var expiresAt := db.PopDbscChallenge(Challenge(jti.value, id));
    if expiresAt == None {
      return NoChallenge;
    }
    redemption := if now > expiresAt.value then ExpiredChallenge else Spent;
  }

  method Serve(
    e: Endpoint, db: Database, id: Id, proof: Option<Proof>, now: Time, newChallenge: string, sessionId: string)
    returns (answer: Answer)
    requires newChallenge != ""
    modifies db`challenges
    ensures Reply(db.View(), answer) == Handle(e, old(db.View()), id, proof, now, newChallenge, sessionId)
  {
    if id == "" {
      return SessionIdEmpty;
    }
    if proof == None {
      var demanded := IssueChallenge(e, db, id, now, newChallenge);
      return if demanded == None then Unserved else ChallengeDemanded(newChallenge);
    }
    var selected := db.SelectRefreshAuthentication(id);
    if selected == None || selected.value.ended || now > selected.value.expiresAt {
      return SessionEnded;
    }
    var a := selected.value;
    if a.dbscPublicKey == "" {
      return NoPublicKey;
    }
    if !proof.value.wellFormed || proof.value.signedBy != a.dbscPublicKey {
      return InvalidProof;
    }
    var redemption := ConsumeChallenge(db, proof.value.jti, id, now);
    match redemption {
      case NoJti =>
        answer := Unserved;
      case NoChallenge | ExpiredChallenge =>
        var demanded := IssueChallenge(e, db, id, now, newChallenge);
        answer := if demanded == None then Unserved else ChallengeDemanded(newChallenge);
      case Spent =>
        var minted := MintSession(e.m, a, METHOD_DBSC, e.sessionDuration, now, sessionId);
        if minted.Failure? {
          return Refused(minted.error);
        }
        var next := IssueChallenge(e, db, id, now, newChallenge);
        answer := Minted(minted.value, next);
    }
  }

  // --- How a device is answered ---

  /** The sign-in is there with its account, has not ended and has not expired. */
  ghost predicate InForce(t: Tables, id: Id, now: Time) {
    && id in t.rows && t.rows[id].accountId in t.accounts && !t.rows[id].ended && now <= t.rows[id].expiresAt
  }

  /** The proof is well made, and signed with the key registered for the sign-in. */
  ghost predicate SignedFor(t: Tables, id: Id, proof: Proof)
    requires id in t.rows
  {
    proof.wellFormed && t.rows[id].dbscPublicKey != "" && proof.signedBy == t.rows[id].dbscPublicKey
  }

  lemma OwnProofIs(t: Tables, id: Id, proof: Proof, now: Time)
    ensures OwnProof(t, id, proof, now) <==> id != "" && InForce(t, id, now) && SignedFor(t, id, proof)
  {
  }

  /** The tables with the new challenge pending for the sign-in, for as long as challenges last. */
  ghost function Pending(e: Endpoint, t: Tables, id: Id, now: Time, newChallenge: string): Tables {
    t.(challenges := t.challenges[Challenge(newChallenge, id) := now + e.challengeDuration])
  }

  /**
  A device that brings no proof of its own: with none it is given a challenge, which is then pending, and with another's, or
  of a sign-in no longer in force, it is told so and nothing changes.
  */
  lemma UnprovenAnsweredExactly(
    e: Endpoint, t: Tables, id: Id, proof: Option<Proof>, now: Time, newChallenge: string, sessionId: string)
    ensures var reply := Handle(e, t, id, proof, now, newChallenge, sessionId);
      var asked := id != "" && proof.Some?;
      && (reply.answer == SessionIdEmpty <==> id == "")
      && (id != "" && proof == None && e.challengeDuration != 0 ==>
          reply == Reply(Pending(e, t, id, now, newChallenge), ChallengeDemanded(newChallenge)))
      && (id != "" && proof == None && e.challengeDuration == 0 ==> reply == Reply(t, Unserved))
      && (reply.answer == SessionEnded <==> asked && !InForce(t, id, now))
      && (reply.answer == NoPublicKey <==> asked && InForce(t, id, now) && t.rows[id].dbscPublicKey == "")
      && (reply.answer == InvalidProof <==>
          asked && InForce(t, id, now) && t.rows[id].dbscPublicKey != "" && !SignedFor(t, id, proof.value))
      && (id == "" || (asked && !(InForce(t, id, now) && SignedFor(t, id, proof.value))) ==> reply.tables == t)
  {
  }

  /** The challenge the proof answers is pending for the sign-in, and in time. */
  ghost predicate Answers(t: Tables, id: Id, jti: string, now: Time) {
    Challenge(jti, id) in t.challenges && now <= t.challenges[Challenge(jti, id)]
  }

  /**
  A device that brings its own proof: the challenge is gone, and if it was pending and in time a session is minted just as
  sessions are, with the next challenge pending; else a new one is demanded.
  */
  lemma ProvenAnsweredExactly(
    e: Endpoint, t: Tables, id: Id, proof: Proof, now: Time, newChallenge: string, sessionId: string)
    requires id != "" && InForce(t, id, now) && SignedFor(t, id, proof)
    ensures var reply := Handle(e, t, id, Some(proof), now, newChallenge, sessionId);
      var jti := if proof.jti.Some? then proof.jti.value else "";
      var (row, taken) := (t.rows[id], t.(challenges := t.challenges - {Challenge(jti, id)}));
      var a := Authentication(id, row.ended, row.createdAt, row.expiresAt, row.dbscPublicKey, t.accounts[row.accountId]);
      var minted := MintSession(e.m, a, "hwk", e.sessionDuration, now, sessionId);
      if jti == "" then reply == Reply(t, Unserved)
      else if Answers(t, id, jti, now) && minted.Failure? then reply == Reply(taken, Refused(minted.error))
      else if e.challengeDuration != 0 then
        && reply.tables == Pending(e, taken, id, now, newChallenge)
        && reply.answer ==
          if Answers(t, id, jti, now) then Minted(minted.value, Some(newChallenge)) else ChallengeDemanded(newChallenge)
      else
        reply == Reply(taken, if Answers(t, id, jti, now) then Minted(minted.value, None) else Unserved)
  {
  }
}

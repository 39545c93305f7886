/**
The in-memory store's rotation as a protocol: every call is two critical sections with the grant
check between them, and any number of calls, insertions and revocations interleave.

New secrets and ids are taken to be fresh, and a check to depend on the grant's own record alone.
*/
module Rotation {
  import opened Oauth
  import opened GrantTables

  /** A call between its two critical sections, and one that has returned. */
  datatype Call = Looked(r: GrantTables.Rotation, grant: Grant) | Returned(r: GrantTables.Rotation, answer: Answer)

  datatype Event =
    | Recorded(grantId: Id, tokenHash: Hash)
    | RenewedBy(grantId: Id, spent: Hash, successor: Hash)

  /** `handedOut` is every secret made so far, recorded yet or not; `log` is history no step reads. */
  datatype State = State(tables: Tables, calls: map<nat, Call>, handedOut: set<Hash>, log: seq<Event>)

  datatype Step =
    | Insert(id: Id, grant: Grant, tokenHash: Hash, expiresAt: Time)
    | Begin(call: nat, r: GrantTables.Rotation)
    | Finish(call: nat)
    | RevokeToken(tokenHash: Hash)

  const INIT := State(Tables(map[], map[]), map[], {}, [])

  ghost predicate Enabled(s: State, step: Step) {
    match step
    case Insert(id, _, tokenHash, _) => id !in s.tables.grants && tokenHash !in s.handedOut
    case Begin(call, r) => call !in s.calls && r.successor !in s.handedOut
    case Finish(call) => call in s.calls && s.calls[call].Looked?
    case RevokeToken(_) => true
  }

  /** What the second half of a call does: nothing if the check refuses, else `Commit`. */
  ghost function Ending(s: State, call: Call): (Tables, Answer)
    requires call.Looked?
  {
    var refusal := call.r.check(call.grant);
    if refusal.Some? then (s.tables, Refused(refusal.value)) else Commit(s.tables, call.r)
  }

  ghost function Next(s: State, step: Step): State
    requires Enabled(s, step)
  {
    match step
    case Insert(id, grant, tokenHash, expiresAt) =>
      s.(tables := Record(s.tables, id, grant, tokenHash, expiresAt),
         handedOut := s.handedOut + {tokenHash},
         log := s.log + [Recorded(id, tokenHash)])
    case Begin(call, r) =>
      var look := Look(s.tables, r.presented, r.now);
      s.(tables := AfterLook(s.tables, look),
         calls := s.calls[call := if look.Spendable? then Looked(r, look.grant) else Returned(r, AnswerOf(look))],
         handedOut := s.handedOut + {r.successor})
    case Finish(call) =>
      var r := s.calls[call].r;
      var (tables, answer) := Ending(s, s.calls[call]);
      s.(tables := tables,
         calls := s.calls[call := Returned(r, answer)],
         log := if answer.Renewed? then s.log + [RenewedBy(answer.grant.id, r.presented, r.successor)] else s.log)
    case RevokeToken(tokenHash) =>
      s.(tables := RevokeByToken(s.tables, tokenHash))
  }

  ghost predicate IsRun(trace: seq<State>, steps: seq<Step>) {
    && |trace| == |steps| + 1
    && trace[0] == INIT
    && forall i :: 0 <= i < |steps| ==> Enabled(trace[i], steps[i]) && trace[i + 1] == Next(trace[i], steps[i])
  }

  /** The hashes of a grant's refresh tokens in the order they were recorded. */
  ghost function Chain(log: seq<Event>, g: Id): seq<Hash> {
    if log == [] then []
    else
      var earlier := Chain(log[..|log| - 1], g);
      match log[|log| - 1]
      case Recorded(id, tokenHash) => if id == g then earlier + [tokenHash] else earlier
      case RenewedBy(id, _, successor) => if id == g then earlier + [successor] else earlier
  }

  /** How often the grant was renewed. */
  ghost function Renewals(log: seq<Event>, g: Id): nat {
    if log == [] then 0
    else Renewals(log[..|log| - 1], g) + (if log[|log| - 1].RenewedBy? && log[|log| - 1].grantId == g then 1 else 0)
  }

  ghost predicate Distinct(chain: seq<Hash>) {
    forall i, j :: 0 <= i < j < |chain| ==> chain[i] != chain[j]
  }

  ghost predicate Follows(chain: seq<Hash>, a: Hash, b: Hash) {
    exists i :: 0 < i < |chain| && chain[i - 1] == a && chain[i] == b
  }

  /** The grant's tokens are its chain, every one spent but the last. */
  ghost predicate Chained(s: State, g: Id) {
    var chain := Chain(s.log, g);
    && |chain| == Renewals(s.log, g) + 1
    && Distinct(chain)
    && forall i :: 0 <= i < |chain| ==>
      && chain[i] in s.tables.tokens
      && s.tables.tokens[chain[i]].grantId == g
      && (s.tables.tokens[chain[i]].used <==> i < |chain| - 1)
  }

  ghost predicate TokenOwned(s: State, h: Hash)
    requires h in s.tables.tokens
  {
    var g := s.tables.tokens[h].grantId;
    g in s.tables.grants && h in s.handedOut && h in Chain(s.log, g)
  }

  ghost predicate CallHeld(s: State, call: Call) {
    && call.r.successor in s.handedOut
    && (call.Looked? ==>
      && call.r.successor !in s.tables.tokens
      && call.r.presented in s.tables.tokens
      && var g := s.tables.tokens[call.r.presented].grantId;
      g in s.tables.grants && s.tables.grants[g].grant == call.grant)
    && (call.Returned? && call.answer.Renewed? ==>
      RenewedBy(call.answer.grant.id, call.r.presented, call.r.successor) in s.log)
  }

  ghost predicate Inv(s: State) {
    && (forall g :: g in s.tables.grants ==> s.tables.grants[g].grant.id == g)
    && (forall g {:trigger Chained(s, g)} :: g in s.tables.grants ==> Chained(s, g))
    && (forall g :: g !in s.tables.grants ==> Chain(s.log, g) == [] && Renewals(s.log, g) == 0)
    && (forall h {:trigger TokenOwned(s, h)} :: h in s.tables.tokens ==> TokenOwned(s, h))
    && (forall c {:trigger CallHeld(s, s.calls[c])} :: c in s.calls ==> CallHeld(s, s.calls[c]))
    && (forall c, d :: c in s.calls && d in s.calls && c != d ==> s.calls[c].r.successor != s.calls[d].r.successor)
    && (forall e :: e in s.log && e.RenewedBy? ==> Follows(Chain(s.log, e.grantId), e.spent, e.successor))
  }

  lemma LogGrows(log: seq<Event>, e: Event, g: Id)
    ensures e.grantId != g ==> Chain(log + [e], g) == Chain(log, g) && Renewals(log + [e], g) == Renewals(log, g)
    ensures e.Recorded? && e.grantId == g ==>
      Chain(log + [e], g) == Chain(log, g) + [e.tokenHash] && Renewals(log + [e], g) == Renewals(log, g)
    ensures e.RenewedBy? && e.grantId == g ==>
      Chain(log + [e], g) == Chain(log, g) + [e.successor] && Renewals(log + [e], g) == Renewals(log, g) + 1
  {
    assert (log + [e])[..|log + [e]| - 1] == log;
  }

  lemma FollowsGrows(chain: seq<Hash>, a: Hash, b: Hash, h: Hash)
    requires Follows(chain, a, b)
    ensures Follows(chain + [h], a, b)
  {
    var i :| 0 < i < |chain| && chain[i - 1] == a && chain[i] == b;
    assert (chain + [h])[i - 1] == a && (chain + [h])[i] == b;
  }

  /** Revoking, by whatever step, touches no token and no grant's record. */
  lemma RevokingKeepsInv(s: State, g: Id)
    requires Inv(s)
    ensures Inv(s.(tables := RevokeGrant(s.tables, g)))
  {
    var s' := s.(tables := RevokeGrant(s.tables, g));
    forall x | x in s'.tables.grants ensures Chained(s', x) {
      assert Chained(s, x);
    }
    forall h | h in s'.tables.tokens ensures TokenOwned(s', h) {
      assert TokenOwned(s, h);
    }
    forall c | c in s'.calls ensures CallHeld(s', s'.calls[c]) {
      assert CallHeld(s, s.calls[c]);
    }
  }

  lemma InsertKeepsChains(s: State, step: Step)
    requires Inv(s) && step.Insert? && Enabled(s, step)
    ensures forall g :: g != step.id ==>
      Chain(Next(s, step).log, g) == Chain(s.log, g) && Renewals(Next(s, step).log, g) == Renewals(s.log, g)
    ensures Chain(Next(s, step).log, step.id) == [step.tokenHash] && Renewals(Next(s, step).log, step.id) == 0
  {
    forall g ensures g != step.id ==>
      Chain(Next(s, step).log, g) == Chain(s.log, g) && Renewals(Next(s, step).log, g) == Renewals(s.log, g)
    {
      LogGrows(s.log, Recorded(step.id, step.tokenHash), g);
    }
    LogGrows(s.log, Recorded(step.id, step.tokenHash), step.id);
  }

  lemma InsertKeepsTokens(s: State, step: Step)
    requires Inv(s) && step.Insert? && Enabled(s, step)
    ensures step.tokenHash !in s.tables.tokens
    ensures forall h {:trigger TokenOwned(Next(s, step), h)} :: h in Next(s, step).tables.tokens ==> TokenOwned(Next(s, step), h)
  {
    var s' := Next(s, step);
    InsertKeepsChains(s, step);
    forall h | h in s'.tables.tokens ensures TokenOwned(s', h) {
      if h in s.tables.tokens {
        assert TokenOwned(s, h);
      }
    }
    assert step.tokenHash in s.tables.tokens ==> TokenOwned(s, step.tokenHash);
  }

  lemma InsertKeepsInv(s: State, step: Step)
    requires Inv(s) && step.Insert? && Enabled(s, step)
    ensures Inv(Next(s, step))
  {
    var s' := Next(s, step);
    InsertKeepsChains(s, step);
    InsertKeepsTokens(s, step);
    forall g | g in s'.tables.grants ensures Chained(s', g) {
      if g != step.id {
        assert Chained(s, g);
      }
    }
    forall c | c in s'.calls ensures CallHeld(s', s'.calls[c]) {
      assert CallHeld(s, s.calls[c]);
    }
    forall x | x in s'.log && x.RenewedBy? ensures Follows(Chain(s'.log, x.grantId), x.spent, x.successor) {
      assert Follows(Chain(s.log, x.grantId), x.spent, x.successor);
    }
  }

  /** A call that draws a new successor is held, and the others as they were. */
  lemma CallKeepsInv(s: State, c: nat, call: Call)
    requires Inv(s) && c !in s.calls && call.r.successor !in s.handedOut
    requires call.Returned? ==> !call.answer.Renewed?
    requires call.Looked? ==>
      && call.r.presented in s.tables.tokens
      && var g := s.tables.tokens[call.r.presented].grantId;
      g in s.tables.grants && s.tables.grants[g].grant == call.grant
    ensures Inv(s.(calls := s.calls[c := call], handedOut := s.handedOut + {call.r.successor}))
  {
    var s' := s.(calls := s.calls[c := call], handedOut := s.handedOut + {call.r.successor});
    forall g | g in s'.tables.grants ensures Chained(s', g) {
      assert Chained(s, g);
    }
    forall h | h in s'.tables.tokens ensures h in s.handedOut && TokenOwned(s', h) {
      assert TokenOwned(s, h);
    }
    forall d | d in s.calls ensures CallHeld(s', s.calls[d]) && s.calls[d].r.successor != call.r.successor {
      assert CallHeld(s, s.calls[d]);
    }
  }

  lemma BeginKeepsInv(s: State, step: Step)
    requires Inv(s) && step.Begin? && Enabled(s, step)
    ensures Inv(Next(s, step))
  {
    var look := Look(s.tables, step.r.presented, step.r.now);
    var revoked := s.(tables := AfterLook(s.tables, look));
    if look.Spent? {
      RevokingKeepsInv(s, look.grantId);
    }
    CallKeepsInv(
      revoked, step.call, if look.Spendable? then Looked(step.r, look.grant) else Returned(step.r, AnswerOf(look)));
  }

  /** What a renewing second half does, spelt out: `h` is the last of `g`'s chain and `succ` is new. */
  ghost predicate Renewing(s: State, s': State, g: Id, h: Hash, succ: Hash, expiresAt: Time) {
    && s'.log == s.log + [RenewedBy(g, h, succ)]
    && s'.handedOut == s.handedOut
    && g in s.tables.grants && h in s.tables.tokens && s.tables.tokens[h].grantId == g
    && succ in s.handedOut && succ !in s.tables.tokens
    && s'.tables == Spend(s.tables, h, succ, expiresAt)
    && !s.tables.tokens[h].used
    && h in Chain(s.log, g)
  }

  lemma RenewingStep(s: State, step: Step)
    requires Inv(s) && step.Finish? && Enabled(s, step)
    requires Ending(s, s.calls[step.call]).1.Renewed?
    ensures var r := s.calls[step.call].r;
      && r.presented in s.tables.tokens
      && var g := s.tables.tokens[r.presented].grantId;
      && Renewing(s, Next(s, step), g, r.presented, r.successor, r.successorExpiresAt)
      && s.tables.grants[g].grant.id == g
      && Next(s, step).calls == s.calls[step.call := Returned(r, Renewed(s.tables.grants[g].grant))]
  {
    var call := s.calls[step.call];
    assert CallHeld(s, call) && TokenOwned(s, call.r.presented);
  }

  lemma RenewedChain(s: State, s': State, g: Id, h: Hash, succ: Hash, expiresAt: Time, x: Id)
    requires Renewing(s, s', g, h, succ, expiresAt) && Chained(s, g) && Chained(s, x)
    ensures Chained(s', x)
    ensures x == g ==> Chain(s.log, g)[|Chain(s.log, g)| - 1] == h && Chain(s'.log, g) == Chain(s.log, g) + [succ]
    ensures x != g ==> Chain(s'.log, x) == Chain(s.log, x)
  {
    LogGrows(s.log, RenewedBy(g, h, succ), x);
  }

  lemma RenewalKeepsTokens(s: State, s': State, g: Id, h: Hash, succ: Hash, expiresAt: Time)
    requires Renewing(s, s', g, h, succ, expiresAt)
    requires forall x :: x in s.tables.tokens ==> TokenOwned(s, x)
    ensures forall x :: x in s'.tables.tokens ==> TokenOwned(s', x)
  {
    forall x | x in s'.tables.tokens ensures TokenOwned(s', x) {
      if x == succ {
        LogGrows(s.log, RenewedBy(g, h, succ), g);
      } else {
        assert TokenOwned(s, x);
        LogGrows(s.log, RenewedBy(g, h, succ), s.tables.tokens[x].grantId);
      }
    }
  }

  lemma RenewalKeepsHistory(s: State, s': State, g: Id, h: Hash, succ: Hash, expiresAt: Time)
    requires Renewing(s, s', g, h, succ, expiresAt) && Chained(s, g)
    requires forall e :: e in s.log && e.RenewedBy? ==> Follows(Chain(s.log, e.grantId), e.spent, e.successor)
    ensures forall e :: e in s'.log && e.RenewedBy? ==> Follows(Chain(s'.log, e.grantId), e.spent, e.successor)
  {
    var chain, chain' := Chain(s.log, g), Chain(s'.log, g);
    RenewedChain(s, s', g, h, succ, expiresAt, g);
    forall x | x in s'.log && x.RenewedBy? ensures Follows(Chain(s'.log, x.grantId), x.spent, x.successor) {
      if x == RenewedBy(g, h, succ) {
        assert chain'[|chain| - 1] == h && chain'[|chain|] == succ;
      } else if x.grantId == g {
        FollowsGrows(chain, x.spent, x.successor, succ);
      } else {
        LogGrows(s.log, RenewedBy(g, h, succ), x.grantId);
      }
    }
  }

  lemma RenewalKeepsCall(s: State, s': State, g: Id, h: Hash, succ: Hash, expiresAt: Time, call: Call)
    requires Renewing(s, s', g, h, succ, expiresAt) && CallHeld(s, call) && call.r.successor != succ
    ensures CallHeld(s', call)
  {
    if call.Returned? && call.answer.Renewed? {
      assert s'.log[..|s.log|] == s.log;
    }
  }

  lemma RenewalKeepsChains(s: State, s': State, g: Id, h: Hash, succ: Hash, expiresAt: Time)
    requires Renewing(s, s', g, h, succ, expiresAt)
    requires forall x {:trigger Chained(s, x)} :: x in s.tables.grants ==> Chained(s, x)
    requires forall x :: x !in s.tables.grants ==> Chain(s.log, x) == [] && Renewals(s.log, x) == 0
    ensures forall x {:trigger Chained(s', x)} :: x in s'.tables.grants ==> Chained(s', x)
    ensures forall x :: x !in s'.tables.grants ==> Chain(s'.log, x) == [] && Renewals(s'.log, x) == 0
  {
    forall x | x in s'.tables.grants ensures Chained(s', x) {
      assert Chained(s, x);
      RenewedChain(s, s', g, h, succ, expiresAt, x);
    }
    forall x | x !in s'.tables.grants ensures Chain(s'.log, x) == [] && Renewals(s'.log, x) == 0 {
      LogGrows(s.log, RenewedBy(g, h, succ), x);
    }
  }

  lemma RenewalKeepsCalls(s: State, s': State, g: Id, h: Hash, succ: Hash, expiresAt: Time, call: nat)
    requires Renewing(s, s', g, h, succ, expiresAt)
    requires forall c {:trigger CallHeld(s, s.calls[c])} :: c in s.calls ==> CallHeld(s, s.calls[c])
    requires forall c, d :: c in s.calls && d in s.calls && c != d ==> s.calls[c].r.successor != s.calls[d].r.successor
    requires call in s.calls && s.calls[call].r.presented == h && s.calls[call].r.successor == succ
    requires s.tables.grants[g].grant.id == g
    requires s'.calls == s.calls[call := Returned(s.calls[call].r, Renewed(s.tables.grants[g].grant))]
    ensures forall c {:trigger CallHeld(s', s'.calls[c])} :: c in s'.calls ==> CallHeld(s', s'.calls[c])
  {
    forall c | c in s'.calls ensures CallHeld(s', s'.calls[c]) {
      if c == call {
        assert s'.log[|s.log|] == RenewedBy(g, h, succ);
      } else {
        assert CallHeld(s, s.calls[c]);
        RenewalKeepsCall(s, s', g, h, succ, expiresAt, s.calls[c]);
      }
    }
  }

  /** The renewal itself: the grant's last token is spent and its chain grows by the successor. */
  lemma RenewalKeepsInv(s: State, step: Step)
    requires Inv(s) && step.Finish? && Enabled(s, step)
    requires Ending(s, s.calls[step.call]).1.Renewed?
    ensures Inv(Next(s, step))
  {
    var s' := Next(s, step);
    var r := s.calls[step.call].r;
    RenewingStep(s, step);
    var g := s.tables.tokens[r.presented].grantId;
    RenewalKeepsTokens(s, s', g, r.presented, r.successor, r.successorExpiresAt);
    RenewalKeepsHistory(s, s', g, r.presented, r.successor, r.successorExpiresAt);
    RenewalKeepsChains(s, s', g, r.presented, r.successor, r.successorExpiresAt);
    RenewalKeepsCalls(s, s', g, r.presented, r.successor, r.successorExpiresAt, step.call);
  }

  lemma FinishKeepsInv(s: State, step: Step)
    requires Inv(s) && step.Finish? && Enabled(s, step)
    ensures Inv(Next(s, step))
  {
    var s' := Next(s, step);
    var call := s.calls[step.call];
    if Ending(s, call).1.Renewed? {
      RenewalKeepsInv(s, step);
    } else {
      var look := Look(s.tables, call.r.presented, call.r.now);
      var revoked := s.(tables := s'.tables);
      if look.Spent? {
        RevokingKeepsInv(s, look.grantId);
      }
      assert Inv(revoked);
      forall g | g in s'.tables.grants ensures Chained(s', g) {
        assert Chained(revoked, g);
      }
      forall h | h in s'.tables.tokens ensures TokenOwned(s', h) {
        assert TokenOwned(revoked, h);
      }
      forall c | c in s'.calls ensures CallHeld(s', s'.calls[c]) {
        assert CallHeld(revoked, revoked.calls[c]);
      }
    }
  }

  /** What every step of the protocol keeps, whatever it interleaves with. */
  lemma StepKeepsInv(s: State, step: Step)
    requires Inv(s) && Enabled(s, step)
    ensures Inv(Next(s, step))
  {
    match step
    case Insert(_, _, _, _) => InsertKeepsInv(s, step);
    case Begin(_, _) => BeginKeepsInv(s, step);
    case Finish(_) => FinishKeepsInv(s, step);
    case RevokeToken(h) =>
      if h in s.tables.tokens {
        RevokingKeepsInv(s, s.tables.tokens[h].grantId);
      }
  }

  lemma {:induction false} RunKeepsInv(trace: seq<State>, steps: seq<Step>, n: nat)
    requires IsRun(trace, steps) && n < |trace|
    ensures Inv(trace[n])
  {
    if n > 0 {
      RunKeepsInv(trace, steps, n - 1);
      StepKeepsInv(trace[n - 1], steps[n - 1]);
    }
  }
}

/** What every reachable state of the rotation protocol has: one chain of tokens a grant, and what reuse costs. */
module RotationProperties {
  import opened Wrappers
  import opened Oauth
  import opened GrantTables
  import opened Rotation

  ghost function TokensOf(t: Tables, g: Id): set<Hash> {
    set h | h in t.tokens && t.tokens[h].grantId == g
  }

  ghost function SpentOf(t: Tables, g: Id): set<Hash> {
    set h | h in t.tokens && t.tokens[h].grantId == g && t.tokens[h].used
  }

  ghost function Elements(chain: seq<Hash>): set<Hash> {
    set i | 0 <= i < |chain| :: chain[i]
  }

  ghost function RenewedCalls(s: State, g: Id): set<nat> {
    set c | c in s.calls && s.calls[c].Returned? && s.calls[c].answer.Renewed? && s.calls[c].answer.grant.id == g
  }

  lemma {:induction false} DistinctCount(chain: seq<Hash>)
    requires Distinct(chain)
    ensures |Elements(chain)| == |chain|
  {
    if chain == [] {
      assert Elements(chain) == {};
    } else {
      var rest := chain[..|chain| - 1];
      DistinctCount(rest);
      assert Elements(chain) == Elements(rest) + {chain[|chain| - 1]};
    }
  }

  /** A grant's tokens are exactly its chain: none is outside it, none is in it twice. */
  lemma ChainIsAllTokens(s: State, g: Id)
    requires Inv(s) && g in s.tables.grants
    ensures Distinct(Chain(s.log, g)) && Elements(Chain(s.log, g)) == TokensOf(s.tables, g)
    ensures Chain(s.log, g) != [] && Elements(Chain(s.log, g)[..|Chain(s.log, g)| - 1]) == SpentOf(s.tables, g)
  {
    var chain := Chain(s.log, g);
    var spent := chain[..|chain| - 1];
    assert Chained(s, g);
    forall h | h in TokensOf(s.tables, g) ensures h in Elements(chain) {
      assert TokenOwned(s, h);
      var i :| 0 <= i < |chain| && chain[i] == h;
    }
    forall h | h in SpentOf(s.tables, g) ensures h in Elements(spent) {
      assert h in Elements(chain);
      var i :| 0 <= i < |chain| && chain[i] == h;
      assert spent[i] == h;
    }
  }

  /** In every reachable state every grant has one unspent token, and only one. */
  lemma OneUnspentToken(trace: seq<State>, steps: seq<Step>, n: nat, g: Id)
    requires IsRun(trace, steps) && n < |trace| && g in trace[n].tables.grants
    ensures |TokensOf(trace[n].tables, g) - SpentOf(trace[n].tables, g)| == 1
  {
    var s := trace[n];
    RunKeepsInv(trace, steps, n);
    ChainIsAllTokens(s, g);
    assert Chained(s, g);
    var chain := Chain(s.log, g);
    var last := chain[|chain| - 1];
    assert TokensOf(s.tables, g) - SpentOf(s.tables, g) == {last} by {
      assert last in Elements(chain);
      forall h | h in TokensOf(s.tables, g) && h !in SpentOf(s.tables, g) ensures h == last {
        var i :| 0 <= i < |chain| && chain[i] == h;
      }
    }
  }

  /** What a step does to the tables. */
  datatype Effect =
    | Nothing
    | Recording(id: Id, grant: Grant, tokenHash: Hash, expiresAt: Time)
    | Revoking(id: Id)
    | Renewal(id: Id, spent: Hash, successor: Hash, expiresAt: Time)

  ghost function EffectOf(s: State, step: Step): Effect
    requires Enabled(s, step)
  {
    match step
    case Insert(id, grant, tokenHash, expiresAt) => Recording(id, grant, tokenHash, expiresAt)
    case RevokeToken(h) => if h in s.tables.tokens then Revoking(s.tables.tokens[h].grantId) else Nothing
    case Begin(_, r) =>
      var look := Look(s.tables, r.presented, r.now);
      if look.Spent? then Revoking(look.grantId) else Nothing
    case Finish(call) =>
      var c := s.calls[call];
      var look := Look(s.tables, c.r.presented, c.r.now);
      if c.r.check(c.grant).Some? then Nothing
      else if look.Spent? then Revoking(look.grantId)
      else if look.Spendable? then
        Renewal(s.tables.tokens[c.r.presented].grantId, c.r.presented, c.r.successor, c.r.successorExpiresAt)
      else Nothing
  }

  ghost function Apply(t: Tables, e: Effect): Tables
    requires e.Renewal? ==> e.spent in t.tokens
  {
    match e
    case Nothing => t
    case Recording(id, grant, tokenHash, expiresAt) => Record(t, id, grant, tokenHash, expiresAt)
    case Revoking(id) => RevokeGrant(t, id)
    case Renewal(_, spent, successor, expiresAt) => Spend(t, spent, successor, expiresAt)
  }

  ghost predicate Sound(t: Tables, e: Effect) {
    match e
    case Nothing => true
    case Recording(id, _, tokenHash, _) => id !in t.grants && tokenHash !in t.tokens
    case Revoking(id) => id in t.grants
    case Renewal(id, spent, successor, _) =>
      && spent in t.tokens && t.tokens[spent].grantId == id && !t.tokens[spent].used
      && id in t.grants && !t.grants[id].revoked && successor !in t.tokens
  }

  ghost function Logged(e: Effect): seq<Event> {
    match e
    case Recording(id, _, tokenHash, _) => [Recorded(id, tokenHash)]
    case Renewal(id, spent, successor, _) => [RenewedBy(id, spent, successor)]
    case _ => []
  }

  lemma FinishHasEffect(s: State, step: Step)
    requires Inv(s) && step.Finish? && Enabled(s, step)
    ensures var e := EffectOf(s, step);
      && Sound(s.tables, e)
      && Next(s, step).tables == Apply(s.tables, e)
      && Next(s, step).log == s.log + Logged(e)
      && (e.Renewal? <==> Ending(s, s.calls[step.call]).1.Renewed?)
      && (e.Renewal? ==> Ending(s, s.calls[step.call]).1.grant.id == e.id)
  {
    if Ending(s, s.calls[step.call]).1.Renewed? {
      RenewingStep(s, step);
    } else {
      assert s.log + [] == s.log;
    }
  }

  /** A step does to the tables and the history what its effect says. */
  lemma StepHasEffect(s: State, step: Step)
    requires Inv(s) && Enabled(s, step)
    ensures var e := EffectOf(s, step);
      Sound(s.tables, e) && Next(s, step).tables == Apply(s.tables, e) && Next(s, step).log == s.log + Logged(e)
  {
    assert s.log + [] == s.log;
    match step
    case Insert(_, _, tokenHash, _) =>
      forall h | h in s.tables.tokens ensures h in s.handedOut {
        assert TokenOwned(s, h);
      }
    case Begin(_, r) =>
    case Finish(call) => FinishHasEffect(s, step);
    case RevokeToken(h) =>
      if h in s.tables.tokens {
        assert TokenOwned(s, h);
      }
  }

  /** A renewal, and nothing else, is what makes a call one that renewed. */
  lemma StepRenewsCalls(s: State, step: Step, g: Id)
    requires Inv(s) && Enabled(s, step)
    ensures var e := EffectOf(s, step);
      if e.Renewal? && e.id == g then
        && step.Finish? && step.call !in RenewedCalls(s, g)
        && RenewedCalls(Next(s, step), g) == RenewedCalls(s, g) + {step.call}
      else
        RenewedCalls(Next(s, step), g) == RenewedCalls(s, g)
  {
    if step.Finish? {
      FinishHasEffect(s, step);
    }
  }

  lemma LoggedCounts(s: State, step: Step, g: Id)
    requires Inv(s) && Enabled(s, step)
    ensures var e := EffectOf(s, step);
      && Renewals(Next(s, step).log, g) == Renewals(s.log, g) + (if e.Renewal? && e.id == g then 1 else 0)
      && (!(e.Renewal? && e.id == g) && !(e.Recording? && e.id == g) ==> Chain(Next(s, step).log, g) == Chain(s.log, g))
  {
    StepHasEffect(s, step);
    var logged := Logged(EffectOf(s, step));
    if logged == [] {
      assert s.log + logged == s.log;
    } else {
      LogGrows(s.log, logged[0], g);
    }
  }

  /** One step adds to the calls that renewed a grant exactly when it logs a renewal of it. */
  lemma StepCountsRenewals(s: State, step: Step, g: Id)
    requires Inv(s) && Enabled(s, step) && |RenewedCalls(s, g)| == Renewals(s.log, g)
    ensures |RenewedCalls(Next(s, step), g)| == Renewals(Next(s, step).log, g)
  {
    StepRenewsCalls(s, step, g);
    LoggedCounts(s, step, g);
  }

  lemma {:induction false} RunCountsRenewals(trace: seq<State>, steps: seq<Step>, n: nat, g: Id)
    requires IsRun(trace, steps) && n < |trace|
    ensures |RenewedCalls(trace[n], g)| == Renewals(trace[n].log, g)
  {
    if n == 0 {
      assert RenewedCalls(trace[0], g) == {};
    } else {
      RunCountsRenewals(trace, steps, n - 1, g);
      RunKeepsInv(trace, steps, n - 1);
      StepCountsRenewals(trace[n - 1], steps[n - 1], g);
    }
  }

  /** As many tokens of a grant are spent as calls have renewed it. */
  lemma SpentTokensAreRenewals(trace: seq<State>, steps: seq<Step>, n: nat, g: Id)
    requires IsRun(trace, steps) && n < |trace| && g in trace[n].tables.grants
    ensures |SpentOf(trace[n].tables, g)| == |RenewedCalls(trace[n], g)|
  {
    RunKeepsInv(trace, steps, n);
    RunCountsRenewals(trace, steps, n, g);
    ChainIsAllTokens(trace[n], g);
    assert Chained(trace[n], g);
    DistinctCount(Chain(trace[n].log, g)[..|Chain(trace[n].log, g)| - 1]);
  }

  /** Nothing recorded is forgotten, rewritten, unspent or restored. */
  ghost predicate Later(t: Tables, t': Tables) {
    && (forall g :: g in t.grants ==>
      && g in t'.grants
      && t'.grants[g].grant == t.grants[g].grant
      && (t.grants[g].revoked ==> t'.grants[g].revoked))
    && (forall h :: h in t.tokens ==>
      && h in t'.tokens
      && t'.tokens[h].grantId == t.tokens[h].grantId
      && t'.tokens[h].expiresAt == t.tokens[h].expiresAt
      && (t.tokens[h].used ==> t'.tokens[h].used))
  }

  lemma EffectGoesForward(t: Tables, e: Effect)
    requires Sound(t, e)
    ensures Later(t, Apply(t, e))
  {
  }

  /** Spent and revoked flags are never cleared, and no grant or token changes whose it is. */
  lemma {:induction false} FlagsStick(trace: seq<State>, steps: seq<Step>, i: nat, j: nat)
    requires IsRun(trace, steps) && i <= j < |trace|
    ensures Later(trace[i].tables, trace[j].tables)
  {
    if i < j {
      FlagsStick(trace, steps, i, j - 1);
      RunKeepsInv(trace, steps, j - 1);
      StepHasEffect(trace[j - 1], steps[j - 1]);
      EffectGoesForward(trace[j - 1].tables, EffectOf(trace[j - 1], steps[j - 1]));
    }
  }

  /** The grant a step may touch. */
  ghost function Subject(s: State, step: Step): Option<Id>
    requires Enabled(s, step)
  {
    match step
    case Insert(id, _, _, _) => Some(id)
    case Begin(_, r) => OwnerOf(s.tables, r.presented)
    case Finish(call) => OwnerOf(s.tables, s.calls[call].r.presented)
    case RevokeToken(h) => OwnerOf(s.tables, h)
  }

  ghost function OwnerOf(t: Tables, h: Hash): Option<Id> {
    if h in t.tokens then Some(t.tokens[h].grantId) else None
  }

  ghost predicate SameGrant(t: Tables, t': Tables, g: Id) {
    && (g in t'.grants <==> g in t.grants)
    && (g in t.grants ==> t'.grants[g] == t.grants[g])
    && TokensOf(t', g) == TokensOf(t, g)
    && (forall h :: h in TokensOf(t, g) ==> t'.tokens[h] == t.tokens[h])
  }

  lemma EffectTouchesOneGrant(t: Tables, e: Effect, other: Id)
    requires Sound(t, e) && (e.Nothing? || e.id != other)
    ensures SameGrant(t, Apply(t, e), other)
  {
    var t' := Apply(t, e);
    assert forall h :: h in TokensOf(t', other) <==> h in TokensOf(t, other);
  }

  /** A step leaves every grant but its own, and that grant's tokens, as they were. */
  lemma StepTouchesOneGrant(s: State, step: Step, other: Id)
    requires Inv(s) && Enabled(s, step) && Subject(s, step) != Some(other)
    ensures SameGrant(s.tables, Next(s, step).tables, other)
  {
    StepHasEffect(s, step);
    EffectTouchesOneGrant(s.tables, EffectOf(s, step), other);
  }

  /** The step presents a token of the grant that is spent, or revokes by one of its tokens. */
  ghost predicate Strikes(s: State, step: Step, g: Id)
    requires Enabled(s, step)
  {
    match step
    case Insert(_, _, _, _) => false
    case Begin(_, r) => OwnerOf(s.tables, r.presented) == Some(g) && s.tables.tokens[r.presented].used
    case Finish(call) =>
      var c := s.calls[call];
      c.r.check(c.grant) == None && OwnerOf(s.tables, c.r.presented) == Some(g) && s.tables.tokens[c.r.presented].used
    case RevokeToken(h) => OwnerOf(s.tables, h) == Some(g)
  }

  lemma StrikeRevokes(s: State, step: Step, g: Id)
    requires Inv(s) && Enabled(s, step) && Strikes(s, step, g)
    ensures g in s.tables.grants && Next(s, step).tables == RevokeGrant(s.tables, g)
    ensures step.Begin? || step.Finish? ==> Next(s, step).calls[step.call] == Returned(Next(s,
      step).calls[step.call].r, Reused)
  {
    match step
    case Begin(_, r) => assert TokenOwned(s, r.presented);
    case Finish(call) => assert TokenOwned(s, s.calls[call].r.presented);
    case RevokeToken(h) => assert TokenOwned(s, h);
  }

  ghost predicate Revoked(s: State, g: Id) {
    g in s.tables.grants && s.tables.grants[g].revoked
  }

  lemma RevokedStepRenewsNothing(s: State, step: Step, g: Id)
    requires Inv(s) && Enabled(s, step) && Revoked(s, g)
    ensures Revoked(Next(s, step), g)
    ensures TokensOf(Next(s, step).tables, g) == TokensOf(s.tables, g)
    ensures RenewedCalls(Next(s, step), g) == RenewedCalls(s, g)
  {
    StepHasEffect(s, step);
    EffectGoesForward(s.tables, EffectOf(s, step));
    StepRenewsCalls(s, step, g);
  }

  lemma {:induction false} RevokedRenewsNothing(trace: seq<State>, steps: seq<Step>, i: nat, j: nat, g: Id)
    requires IsRun(trace, steps) && i <= j < |trace| && Revoked(trace[i], g)
    ensures Revoked(trace[j], g)
    ensures TokensOf(trace[j].tables, g) == TokensOf(trace[i].tables, g)
    ensures RenewedCalls(trace[j], g) == RenewedCalls(trace[i], g)
  {
    if i < j {
      RevokedRenewsNothing(trace, steps, i, j - 1, g);
      RunKeepsInv(trace, steps, j - 1);
      RevokedStepRenewsNothing(trace[j - 1], steps[j - 1], g);
    }
  }

  /**
  Once a spent token of a grant is presented, or any of its tokens is revoked, no call that has not
  committed by then -- begun before or after -- ever renews the grant, and no token of it is recorded.
  */
  lemma ReuseEndsTheGrant(trace: seq<State>, steps: seq<Step>, i: nat, j: nat, g: Id)
    requires IsRun(trace, steps) && i < j < |trace| && Strikes(trace[i], steps[i], g)
    ensures Revoked(trace[j], g)
    ensures RenewedCalls(trace[j], g) == RenewedCalls(trace[i], g)
    ensures TokensOf(trace[j].tables, g) == TokensOf(trace[i].tables, g)
  {
    RunKeepsInv(trace, steps, i);
    StrikeRevokes(trace[i], steps[i], g);
    StepHasEffect(trace[i], steps[i]);
    StepRenewsCalls(trace[i], steps[i], g);
    RevokedRenewsNothing(trace, steps, i + 1, j, g);
  }

  lemma FollowerIsUnique(chain: seq<Hash>, a: Hash, b: Hash, c: Hash)
    requires Distinct(chain) && Follows(chain, a, b) && Follows(chain, a, c)
    ensures b == c
  {
    var i :| 0 < i < |chain| && chain[i - 1] == a && chain[i] == b;
    var j :| 0 < j < |chain| && chain[j - 1] == a && chain[j] == c;
  }

  /** However many calls present one token, at most one of them is ever answered with a renewal. */
  lemma PresentedTwiceRenewsOnce(trace: seq<State>, steps: seq<Step>, n: nat, c: nat, d: nat)
    requires IsRun(trace, steps) && n < |trace| && c in trace[n].calls && d in trace[n].calls
    requires trace[n].calls[c].r.presented == trace[n].calls[d].r.presented
    requires trace[n].calls[c].Returned? && trace[n].calls[c].answer.Renewed?
    requires trace[n].calls[d].Returned? && trace[n].calls[d].answer.Renewed?
    ensures c == d
  {
    var s := trace[n];
    RunKeepsInv(trace, steps, n);
    var x, y := s.calls[c], s.calls[d];
    assert CallHeld(s, x) && CallHeld(s, y);
    var g, g' := x.answer.grant.id, y.answer.grant.id;
    assert Follows(Chain(s.log, g), x.r.presented, x.r.successor);
    assert Follows(Chain(s.log, g'), y.r.presented, y.r.successor);
    assert g in s.tables.grants && g' in s.tables.grants;
    assert Chained(s, g) && Chained(s, g');
    assert g == s.tables.tokens[x.r.presented].grantId == g';
    FollowerIsUnique(Chain(s.log, g), x.r.presented, x.r.successor, y.r.successor);
  }

  // --- In time, or not at all ---

  /** A call that renewed did so before its token's expiry, and its successor has the expiry asked for. */
  ghost predicate RenewedInTime(s: State, call: Call) {
    call.Returned? && call.answer.Renewed? ==>
      && call.r.presented in s.tables.tokens && call.r.now < s.tables.tokens[call.r.presented].expiresAt
      && call.r.successor in s.tables.tokens
      && s.tables.tokens[call.r.successor].expiresAt == call.r.successorExpiresAt
      && s.tables.tokens[call.r.successor].grantId == s.tables.tokens[call.r.presented].grantId
      && call.r.check(call.answer.grant) == None
  }

  ghost predicate AllInTime(s: State) {
    forall c {:trigger RenewedInTime(s, s.calls[c])} :: c in s.calls ==> RenewedInTime(s, s.calls[c])
  }

  lemma InTimeLater(s: State, s': State, call: Call)
    requires RenewedInTime(s, call) && Later(s.tables, s'.tables)
    ensures RenewedInTime(s', call)
  {
  }

  lemma FinishIsInTime(s: State, step: Step)
    requires Inv(s) && step.Finish? && Enabled(s, step)
    ensures RenewedInTime(Next(s, step), Next(s, step).calls[step.call])
  {
    var call := s.calls[step.call];
    assert CallHeld(s, call);
    CommitRenewsExactly(s.tables, call.r);
  }

  lemma StepKeepsInTime(s: State, step: Step)
    requires Inv(s) && AllInTime(s) && Enabled(s, step)
    ensures AllInTime(Next(s, step))
  {
    var s' := Next(s, step);
    StepHasEffect(s, step);
    EffectGoesForward(s.tables, EffectOf(s, step));
    forall c | c in s'.calls ensures RenewedInTime(s', s'.calls[c]) {
      if step.Finish? && step.call == c {
        FinishIsInTime(s, step);
      } else if c in s.calls {
        InTimeLater(s, s', s.calls[c]);
      }
    }
  }

  lemma {:induction false} RunIsInTime(trace: seq<State>, steps: seq<Step>, n: nat)
    requires IsRun(trace, steps) && n < |trace|
    ensures AllInTime(trace[n])
  {
    if n > 0 {
      RunIsInTime(trace, steps, n - 1);
      RunKeepsInv(trace, steps, n - 1);
      StepKeepsInTime(trace[n - 1], steps[n - 1]);
    }
  }

  /**
  No call that presents a token at or past its expiry ever renews; and one that renews records its successor with the
  expiry asked for, for the same grant, after its check let that grant be renewed.
  */
  lemma ExpiredNeverRenews(trace: seq<State>, steps: seq<Step>, n: nat, c: nat)
    requires IsRun(trace, steps) && n < |trace| && c in trace[n].calls && trace[n].calls[c].Returned?
    ensures var (s, call) := (trace[n], trace[n].calls[c]);
      && (call.r.presented in s.tables.tokens && s.tables.tokens[call.r.presented].expiresAt <= call.r.now ==>
          !call.answer.Renewed?)
      && (call.answer.Renewed? ==>
          && call.r.successor in s.tables.tokens && call.r.presented in s.tables.tokens
          && s.tables.tokens[call.r.successor].expiresAt == call.r.successorExpiresAt
          && s.tables.tokens[call.r.successor].grantId == s.tables.tokens[call.r.presented].grantId
          && call.r.check(call.answer.grant) == None)
  {
    RunIsInTime(trace, steps, n);
    assert RenewedInTime(trace[n], trace[n].calls[c]);
  }
}

/**
The optimistic rotation refines the atomic one: with the check asked while no lock is held, every
call still does and answers what the one transaction would have at a single moment of the call.
*/
module RotationRefinement {
  import opened Wrappers
  import opened Oauth
  import opened GrantTables
  import opened Rotation

  /** The atomic machine: a call is pending until it takes effect, all at once. */
  datatype Progress = Pending(r: GrantTables.Rotation) | Decided(r: GrantTables.Rotation, answer: Answer)

  datatype Atomic = Atomic(tables: Tables, calls: map<nat, Progress>)

  datatype AtomicStep =
    | InsertAll(id: Id, grant: Grant, tokenHash: Hash, expiresAt: Time)
    | Invoke(call: nat, r: GrantTables.Rotation)
    | TakeEffect(call: nat)
    | RevokeAll(tokenHash: Hash)

  ghost predicate AtomicEnabled(a: Atomic, step: AtomicStep) {
    match step
    case InsertAll(id, _, tokenHash, _) => id !in a.tables.grants && tokenHash !in a.tables.tokens
    case Invoke(call, _) => call !in a.calls
    case TakeEffect(call) => call in a.calls && a.calls[call].Pending?
    case RevokeAll(_) => true
  }

  ghost function AtomicNext(a: Atomic, step: AtomicStep): Atomic
    requires AtomicEnabled(a, step)
  {
    match step
    case InsertAll(id, grant, tokenHash, expiresAt) => a.(tables := Record(a.tables, id, grant, tokenHash, expiresAt))
    case Invoke(call, r) => a.(calls := a.calls[call := Pending(r)])
    case TakeEffect(call) =>
      var (tables, answer) := Rotate(a.tables, a.calls[call].r);
      Atomic(tables, a.calls[call := Decided(a.calls[call].r, answer)])
    case RevokeAll(tokenHash) => a.(tables := RevokeByToken(a.tables, tokenHash))
  }

  /** `a'` is reached from `a` by those steps, one after the other. */
  ghost predicate Reaches(a: Atomic, steps: seq<AtomicStep>, a': Atomic)
    decreases |steps|
  {
    if steps == [] then a == a'
    else AtomicEnabled(a, steps[0]) && Reaches(AtomicNext(a, steps[0]), steps[1..], a')
  }

  /** A call whose check is going to refuse has had its one moment already: the first look. */
  ghost function AbsCall(call: Call): Progress {
    match call
    case Looked(r, grant) =>
      if r.check(grant).Some? then Decided(r, Refused(r.check(grant).value)) else Pending(r)
    case Returned(r, answer) => Decided(r, answer)
  }

  ghost function Abs(s: State): Atomic {
    Atomic(s.tables, map c | c in s.calls :: AbsCall(s.calls[c]))
  }

  /** The atomic steps a step of the protocol amounts to. */
  ghost function Matching(s: State, step: Step): seq<AtomicStep>
    requires Enabled(s, step)
  {
    match step
    case Insert(id, grant, tokenHash, expiresAt) => [InsertAll(id, grant, tokenHash, expiresAt)]
    case RevokeToken(tokenHash) => [RevokeAll(tokenHash)]
    case Begin(call, r) =>
      var look := Look(s.tables, r.presented, r.now);
      if look.Spendable? && r.check(look.grant) == None then [Invoke(call, r)] else [Invoke(call, r), TakeEffect(call)]
    case Finish(call) =>
      if s.calls[call].r.check(s.calls[call].grant).Some? then [] else [TakeEffect(call)]
  }

  lemma ReachesOne(a: Atomic, step: AtomicStep)
    requires AtomicEnabled(a, step)
    ensures Reaches(a, [step], AtomicNext(a, step))
  {
    assert [step][1..] == [];
  }

  lemma {:induction false} ReachesOn(a: Atomic, before: seq<AtomicStep>, b: Atomic, after: seq<AtomicStep>, c: Atomic)
    requires Reaches(a, before, b) && Reaches(b, after, c)
    ensures Reaches(a, before + after, c)
    decreases |before|
  {
    if before == [] {
      assert before + after == after;
    } else {
      ReachesOn(AtomicNext(a, before[0]), before[1..], b, after, c);
      assert (before + after)[1..] == before[1..] + after;
    }
  }

  lemma BeginRefines(s: State, step: Step)
    requires step.Begin? && Enabled(s, step)
    ensures Reaches(Abs(s), Matching(s, step), Abs(Next(s, step)))
  {
    var a := Abs(s);
    var invoked := AtomicNext(a, Invoke(step.call, step.r));
    var look := Look(s.tables, step.r.presented, step.r.now);
    ReachesOne(a, Invoke(step.call, step.r));
    if look.Spendable? && step.r.check(look.grant) == None {
      assert Abs(Next(s, step)) == invoked;
    } else {
      ReachesOne(invoked, TakeEffect(step.call));
      assert Abs(Next(s, step)) == AtomicNext(invoked, TakeEffect(step.call));
      ReachesOn(a, [Invoke(step.call, step.r)], invoked, [TakeEffect(step.call)], Abs(Next(s, step)));
    }
  }

  /** What the second section finds is what the one transaction would: the record it checks has not changed. */
  lemma EndingIsAtomic(s: State, call: Call)
    requires call.Looked? && CallHeld(s, call)
    ensures call.r.check(call.grant) == None ==> Ending(s, call) == Rotate(s.tables, call.r)
  {
  }

  lemma FinishRefines(s: State, step: Step)
    requires step.Finish? && Enabled(s, step) && CallHeld(s, s.calls[step.call])
    ensures Reaches(Abs(s), Matching(s, step), Abs(Next(s, step)))
  {
    var a := Abs(s);
    var call := s.calls[step.call];
    EndingIsAtomic(s, call);
    if call.r.check(call.grant) == None {
      ReachesOne(a, TakeEffect(step.call));
      assert Abs(Next(s, step)) == AtomicNext(a, TakeEffect(step.call));
    } else {
      assert Abs(Next(s, step)) == a;
    }
  }

  lemma InsertRefines(s: State, step: Step)
    requires Inv(s) && step.Insert? && Enabled(s, step)
    ensures Reaches(Abs(s), Matching(s, step), Abs(Next(s, step)))
  {
    forall h | h in s.tables.tokens ensures h in s.handedOut {
      assert TokenOwned(s, h);
    }
    var atomic := InsertAll(step.id, step.grant, step.tokenHash, step.expiresAt);
    ReachesOne(Abs(s), atomic);
    assert Abs(Next(s, step)) == AtomicNext(Abs(s), atomic);
  }

  lemma StepRefines(s: State, step: Step)
    requires Inv(s) && Enabled(s, step)
    ensures Reaches(Abs(s), Matching(s, step), Abs(Next(s, step)))
  {
    match step
    case Insert(_, _, _, _) => InsertRefines(s, step);
    case Begin(_, _) => BeginRefines(s, step);
    case Finish(_) => FinishRefines(s, step);
    case RevokeToken(h) =>
      ReachesOne(Abs(s), RevokeAll(h));
      assert Abs(Next(s, step)) == AtomicNext(Abs(s), RevokeAll(h));
  }

  ghost function MatchingRun(trace: seq<State>, steps: seq<Step>, n: nat): seq<AtomicStep>
    requires IsRun(trace, steps) && n < |trace|
  {
    if n == 0 then [] else MatchingRun(trace, steps, n - 1) + Matching(trace[n - 1], steps[n - 1])
  }

  /** Every run of the protocol is a run of the atomic machine, with the same tables and the same answers. */
  lemma {:induction false} RunRefines(trace: seq<State>, steps: seq<Step>, n: nat)
    requires IsRun(trace, steps) && n < |trace|
    ensures Reaches(Abs(INIT), MatchingRun(trace, steps, n), Abs(trace[n]))
  {
    if n > 0 {
      RunRefines(trace, steps, n - 1);
      RunKeepsInv(trace, steps, n - 1);
      StepRefines(trace[n - 1], steps[n - 1]);
      ReachesOn(Abs(INIT), MatchingRun(trace, steps, n - 1), Abs(trace[n - 1]), Matching(trace[n - 1],
        steps[n - 1]), Abs(trace[n]));
    }
  }

  /** Where a call that is between its sections began, and what it saw there. */
  lemma {:induction false} CallBegan(trace: seq<State>, steps: seq<Step>, n: nat, c: nat) returns (i: nat)
    requires IsRun(trace, steps) && n < |trace| && c in trace[n].calls && trace[n].calls[c].Looked?
    ensures i < n && steps[i] == Begin(c, trace[n].calls[c].r)
    ensures Look(trace[i].tables, trace[n].calls[c].r.presented, trace[n].calls[c].r.now) ==
      Spendable(trace[n].calls[c].grant)
  {
    if c in trace[n - 1].calls {
      i := CallBegan(trace, steps, n - 1, c);
    } else {
      i := n - 1;
    }
  }

  /**
  The call that returns at step `j` began at some step `i`, and at one step `k` from `i` to `j`
  the tables became, and the answer is, what the single transaction makes of the tables there.
  */
  lemma CallsAreLinearizable(trace: seq<State>, steps: seq<Step>, j: nat, c: nat) returns (i: nat, k: nat)
    requires IsRun(trace, steps) && j < |steps|
    requires (steps[j].Begin? || steps[j].Finish?) && steps[j].call == c && trace[j + 1].calls[c].Returned?
    ensures i <= k <= j && steps[i] == Begin(c, trace[j + 1].calls[c].r)
    ensures Rotate(trace[k].tables, trace[j + 1].calls[c].r) == (trace[k + 1].tables, trace[j + 1].calls[c].answer)
    ensures k != j ==> trace[j + 1].tables == trace[j].tables
  {
    if steps[j].Begin? {
      i, k := j, j;
    } else {
      RunKeepsInv(trace, steps, j);
      var call := trace[j].calls[c];
      assert CallHeld(trace[j], call);
      EndingIsAtomic(trace[j], call);
      i := CallBegan(trace, steps, j, c);
      k := if call.r.check(call.grant).Some? then i else j;
    }
  }

  /**
  When a call renews, exactly: at one step of the call its token is there with its grant, unspent and in time, the
  grant unrevoked, and the check passes; and if it answers anything else, at that step one of these was not so.
  */
  lemma CallsRenewExactly(trace: seq<State>, steps: seq<Step>, j: nat, c: nat) returns (i: nat, k: nat)
    requires IsRun(trace, steps) && j < |steps|
    requires (steps[j].Begin? || steps[j].Finish?) && steps[j].call == c && trace[j + 1].calls[c].Returned?
    ensures i <= k <= j && steps[i] == Begin(c, trace[j + 1].calls[c].r)
    ensures var (t, call) := (trace[k].tables, trace[j + 1].calls[c]);
      call.answer.Renewed? <==>
      && call.r.presented in t.tokens && t.tokens[call.r.presented].grantId in t.grants
      && !t.tokens[call.r.presented].used && !t.grants[t.tokens[call.r.presented].grantId].revoked
      && call.r.now < t.tokens[call.r.presented].expiresAt
      && call.r.check(t.grants[t.tokens[call.r.presented].grantId].grant) == None
  {
    i, k := CallsAreLinearizable(trace, steps, j, c);
    RotateRenewsExactly(trace[k].tables, trace[j + 1].calls[c].r);
  }
}

/**
DPoP proofs (sections 4.3 and 11.1 of RFC 9449): the claims a proof is checked by, the window its
time must fall in, and the replay detector asked last. Parsing and signatures are taken as done: a
proof here is its claims, whether its header and claims could be read, and whether its key signed it.
*/
module ProofVerifier {
  import opened Wrappers
  import opened Oauth
  import opened Base64Url
  import N = PathNormalization
  import R = ReplayDetector

  /**
  `oldest` and `newest` are the times of issue admitted at an instant: where seconds are compared in floating point,
  the exact ones but for rounding.
  */
  datatype Config = Config(
    origins: seq<string>, maxAge: int, clockSkew: int, maxIdLength: int, oldest: Time -> Time, newest: Time -> Time)

  datatype AccessTokenHash = HashText(text: string) | NotText

  /** `origin` is `None` for a target that is no absolute http URI; paths are as they came, escaped. */
  datatype Proof = Proof(
    wellMade: bool, signed: bool, keyThumbprint: string, method_: string, origin: Option<string>, escapedPath: string,
    issuedAt: Time, jti: string, ath: Option<AccessTokenHash>, nonceIsText: bool)

  /** What the proof must have been made for; `tokenHash` is of the access token, where there is one. */
  datatype Input = Input(method_: string, escapedPath: string, tokenHash: Option<string>, keyThumbprint: string)

  datatype Refusal =
    | Malformed | KeyMismatch | BadSignature | WrongMethod | WrongTarget | TooOld | InTheFuture | BadId | WrongToken
    | BadNonce | Replayed | DetectorFull

  datatype Presentation = Presentation(input: Input, proof: Proof, now: Time)

  predicate MatchesTarget(cfg: Config, input: Input, proof: Proof) {
    proof.origin.Some? && proof.origin.value in cfg.origins
    && N.NormalPath(proof.escapedPath) == N.NormalPath(input.escapedPath)
  }

  predicate MatchesToken(input: Input, proof: Proof) {
    if input.tokenHash.Some? then proof.ath == Some(HashText(input.tokenHash.value)) else proof.ath == None
  }

  /** Everything but the detector. */
  function Check(cfg: Config, p: Presentation): Option<Refusal> {
    if !p.proof.wellMade then Some(Malformed)
    else if p.input.keyThumbprint != "" && p.proof.keyThumbprint != p.input.keyThumbprint then Some(KeyMismatch)
    else if !p.proof.signed then Some(BadSignature)
    else if p.proof.method_ != p.input.method_ then Some(WrongMethod)
    else if !MatchesTarget(cfg, p.input, p.proof) then Some(WrongTarget)
    else if p.proof.issuedAt < cfg.oldest(p.now) then Some(TooOld)
    else if p.proof.issuedAt > cfg.newest(p.now) then Some(InTheFuture)
    else if p.proof.jti == "" || ByteLength(p.proof.jti) > cfg.maxIdLength then Some(BadId)
    else if !MatchesToken(p.input, p.proof) then Some(WrongToken)
    else if !p.proof.nonceIsText then Some(BadNonce)
    else None
  }

  /** The last instant of the window, were nothing rounded, which is also when the proof stops being remembered. */
  function LastInstant(cfg: Config, proof: Proof): Time {
    proof.issuedAt + (cfg.maxAge + cfg.clockSkew)
  }

  function Observed(cfg: Config, p: Presentation): R.Call {
    R.Call(R.Key(p.proof.keyThumbprint, p.proof.jti), p.now, LastInstant(cfg, p.proof))
  }

  /** One presentation against the detector's memory; `None` is acceptance. */
  function Present(cfg: Config, capacity: nat, m: R.Memory, p: Presentation): (R.Memory, Option<Refusal>) {
    if Check(cfg, p).Some? then (m, Check(cfg, p))
    else
      var (next, answer) := R.Observation(m, capacity, Observed(cfg, p));
      (next, match answer case Seen => Some(Replayed) case Full => Some(DetectorFull) case Recorded => None)
  }

  class Verifier {
    const cfg: Config
    /** Null where replays are not looked for. */
    const detector: R.Detector?

    constructor (cfg: Config, detector: R.Detector?)
      ensures this.cfg == cfg && this.detector == detector
    {
      this.cfg, this.detector := cfg, detector;
    }

    method Verify(p: Presentation) returns (refusal: Option<Refusal>)
      modifies detector
      ensures detector == null ==> refusal == Check(cfg, p)
      ensures detector != null ==>
        (detector.View(), refusal) == Present(cfg, R.Capacity(detector.maxEntries), old(detector.View()), p)
    {
      refusal := Check(cfg, p);
      if refusal.Some? || detector == null {
        return;
      }
      var answer := detector.Observe(Observed(cfg, p));
      match answer {
        case Seen => refusal := Some(Replayed);
        case Full => refusal := Some(DetectorFull);
        case Recorded =>
      }
    }
  }

  /** Made by the key the request's token is bound to, if it is to one. */
  ghost predicate OfTheKey(p: Presentation) {
    p.proof.wellMade && (p.input.keyThumbprint == "" || p.proof.keyThumbprint == p.input.keyThumbprint)
  }

  /** Signed, and for the request's method, at one of the origins, on its path. */
  ghost predicate ForTheRequest(cfg: Config, p: Presentation) {
    && OfTheKey(p) && p.proof.signed && p.proof.method_ == p.input.method_
    && (exists origin :: origin in cfg.origins && p.proof.origin == Some(origin))
    && N.NormalPath(p.proof.escapedPath) == N.NormalPath(p.input.escapedPath)
  }

  ghost predicate InTheWindow(cfg: Config, p: Presentation) {
    cfg.oldest(p.now) <= p.proof.issuedAt <= cfg.newest(p.now)
  }

  ghost predicate Identified(cfg: Config, p: Presentation) {
    0 < |p.proof.jti| && ByteLength(p.proof.jti) <= cfg.maxIdLength
  }

  /** For the access token it came with, or for none. */
  ghost predicate ForTheToken(p: Presentation) {
    p.proof.ath == if p.input.tokenHash.Some? then Some(HashText(p.input.tokenHash.value)) else None
  }

  /** All that is asked of a proof, the detector apart. */
  ghost predicate GoodFor(cfg: Config, p: Presentation) {
    ForTheRequest(cfg, p) && InTheWindow(cfg, p) && Identified(cfg, p) && ForTheToken(p) && p.proof.nonceIsText
  }

  /**
  A proof is accepted exactly when it is good for the request and not remembered, and fewer than the capacity are. Where
  replays are not looked for, the memory does not count.
  */
  lemma AcceptedExactly(cfg: Config, maxEntries: int, m: R.Memory, p: Presentation)
    ensures var key := R.Key(p.proof.keyThumbprint, p.proof.jti);
      var remembered := key in m.expiresAt && m.expiresAt[key] > p.now;
      var fits := |R.Unexpired(m.expiresAt, p.now)| < if maxEntries > 0 then maxEntries else 100_000;
      var (next, refusal) := Present(cfg, R.Capacity(maxEntries), m, p);
      && (Check(cfg, p) == None <==> GoodFor(cfg, p))
      && (refusal == None <==> GoodFor(cfg, p) && !remembered && fits)
      && (refusal == Some(Replayed) <==> GoodFor(cfg, p) && remembered)
      && (refusal == Some(DetectorFull) <==> GoodFor(cfg, p) && !remembered && !fits)
      && (!GoodFor(cfg, p) ==> next == m)
      && (refusal == None ==>
          key in next.expiresAt && next.expiresAt[key] == p.proof.issuedAt + (cfg.maxAge + cfg.clockSkew))
  {
    R.ObservedExactly(m, maxEntries, Observed(cfg, p));
  }

  /** A proof is told the first of its faults. */
  lemma RefusedForItsFirstFault(cfg: Config, p: Presentation)
    ensures var (told, asked) := (Check(cfg, p), ForTheRequest(cfg, p));
      && (told == Some(Malformed) <==> !p.proof.wellMade)
      && (told == Some(KeyMismatch) <==> p.proof.wellMade && !OfTheKey(p))
      && (told == Some(BadSignature) <==> OfTheKey(p) && !p.proof.signed)
      && (told == Some(WrongMethod) <==> OfTheKey(p) && p.proof.signed && p.proof.method_ != p.input.method_)
      && (told == Some(WrongTarget) <==>
          OfTheKey(p) && p.proof.signed && p.proof.method_ == p.input.method_ && !asked)
      && (told == Some(TooOld) <==> asked && p.proof.issuedAt < cfg.oldest(p.now))
      && (told == Some(InTheFuture) <==>
          asked && cfg.oldest(p.now) <= p.proof.issuedAt && cfg.newest(p.now) < p.proof.issuedAt)
      && (told == Some(BadId) <==> asked && InTheWindow(cfg, p) && !Identified(cfg, p))
      && (told == Some(WrongToken) <==> asked && InTheWindow(cfg, p) && Identified(cfg, p) && !ForTheToken(p))
      && (told == Some(BadNonce) <==>
          asked && InTheWindow(cfg, p) && Identified(cfg, p) && ForTheToken(p) && !p.proof.nonceIsText)
  {
  }

  /** A proof is good for one request: all it is accepted for, anywhere, is of one key, method, path and access token. */
  lemma ProofIsForOneRequest(
    cfg: Config, maxEntries: int, m: R.Memory, p: Presentation,
    other: Config, otherEntries: int, n: R.Memory, q: Presentation)
    requires p.proof == q.proof
    requires Present(cfg, R.Capacity(maxEntries), m, p).1 == None
    requires Present(other, R.Capacity(otherEntries), n, q).1 == None
    ensures p.input.method_ == q.input.method_ && p.input.tokenHash == q.input.tokenHash
    ensures p.input.keyThumbprint != "" && q.input.keyThumbprint != "" ==> p.input.keyThumbprint == q.input.keyThumbprint
    ensures exists origin :: origin in cfg.origins && origin in other.origins && p.proof.origin == Some(origin)
    ensures N.NormalPath(p.input.escapedPath) == N.NormalPath(q.input.escapedPath)
    ensures N.WellFormed(p.input.escapedPath) && N.WellFormed(q.input.escapedPath) ==>
      && N.WellFormed(N.SlashIfEmpty(p.input.escapedPath)) && N.WellFormed(N.SlashIfEmpty(q.input.escapedPath))
      && N.AllEquivalent(N.Units(N.SlashIfEmpty(p.input.escapedPath)), N.Units(N.SlashIfEmpty(q.input.escapedPath)))
  {
    AcceptedExactly(cfg, maxEntries, m, p);
    AcceptedExactly(other, otherEntries, n, q);
    if N.WellFormed(p.input.escapedPath) && N.WellFormed(q.input.escapedPath) {
      N.AlikeExactlyWhenEquivalent(p.input.escapedPath, q.input.escapedPath);
    }
  }

  // --- Runs of presentations ---

  function MemoryAt(cfg: Config, capacity: nat, ps: seq<Presentation>, i: nat): R.Memory
    requires i <= |ps|
  {
    if i == 0 then R.Memory(map[], 0) else Present(cfg, capacity, MemoryAt(cfg, capacity, ps, i - 1), ps[i - 1]).0
  }

  predicate Accepted(cfg: Config, capacity: nat, ps: seq<Presentation>, i: nat)
    requires i < |ps|
  {
    Present(cfg, capacity, MemoryAt(cfg, capacity, ps, i), ps[i]).1 == None
  }

  predicate Ordered(ps: seq<Presentation>) {
    forall i, j :: 0 <= i <= j < |ps| ==> ps[i].now <= ps[j].now
  }

  predicate SameId(p: Presentation, q: Presentation) {
    p.proof.keyThumbprint == q.proof.keyThumbprint && p.proof.jti == q.proof.jti
  }

  ghost predicate Remembered(cfg: Config, m: R.Memory, p: Presentation) {
    var key := Observed(cfg, p).key;
    key in m.expiresAt && m.expiresAt[key] == LastInstant(cfg, p.proof)
  }

  lemma AcceptanceRemembers(cfg: Config, capacity: nat, m: R.Memory, p: Presentation)
    requires Present(cfg, capacity, m, p).1 == None
    ensures Remembered(cfg, Present(cfg, capacity, m, p).0, p)
  {
  }

  /** What is remembered and live stays so through a presentation, its own id's included. */
  lemma PresentationRemembers(cfg: Config, capacity: nat, m: R.Memory, p: Presentation, q: Presentation)
    requires Remembered(cfg, m, p) && q.now < LastInstant(cfg, p.proof)
    ensures Remembered(cfg, Present(cfg, capacity, m, q).0, p)
  {
  }

  /** An accepted proof is remembered until its last instant. */
  lemma {:induction false} AcceptedIsRemembered(cfg: Config, capacity: nat, ps: seq<Presentation>, i: nat, j: nat)
    requires i < j <= |ps| && Ordered(ps) && Accepted(cfg, capacity, ps, i)
    requires j - 1 == i || ps[j - 1].now < LastInstant(cfg, ps[i].proof)
    ensures Remembered(cfg, MemoryAt(cfg, capacity, ps, j), ps[i])
  {
    var before := MemoryAt(cfg, capacity, ps, j - 1);
    assert MemoryAt(cfg, capacity, ps, j) == Present(cfg, capacity, before, ps[j - 1]).0;
    if j - 1 == i {
      AcceptanceRemembers(cfg, capacity, before, ps[i]);
    } else {
      assert ps[j - 2].now <= ps[j - 1].now;
      AcceptedIsRemembered(cfg, capacity, ps, i, j - 1);
      PresentationRemembers(cfg, capacity, before, ps[i], ps[j - 1]);
    }
  }

  /**
  No two presentations of one key's one id are both accepted before the last instant of the first's window; from then
  on it is no longer remembered, and the same proof is accepted again only where the window still admits it.
  */
  lemma AcceptedOnceInItsWindow(cfg: Config, capacity: nat, ps: seq<Presentation>, i: nat, j: nat)
    requires i < j < |ps| && Ordered(ps) && SameId(ps[i], ps[j])
    requires Accepted(cfg, capacity, ps, i) && Accepted(cfg, capacity, ps, j)
    ensures ps[j].now >= LastInstant(cfg, ps[i].proof) && cfg.oldest(ps[j].now) <= ps[j].proof.issuedAt
    ensures Exact(cfg) && ps[j].proof == ps[i].proof ==> ps[j].now == LastInstant(cfg, ps[i].proof)
  {
    if ps[j].now < LastInstant(cfg, ps[i].proof) {
      assert ps[j - 1].now <= ps[j].now;
      AcceptedIsRemembered(cfg, capacity, ps, i, j);
    }
  }

  /** Nothing is rounded. */
  ghost predicate Exact(cfg: Config) {
    forall t :: cfg.oldest(t) == t - (cfg.maxAge + cfg.clockSkew) && cfg.newest(t) == t + cfg.clockSkew
  }

  /** The proof is remembered, or was dropped once it had expired. */
  ghost predicate RememberedOrExpired(cfg: Config, m: R.Memory, p: Presentation, clock: Time) {
    Remembered(cfg, m, p) || (Observed(cfg, p).key !in m.expiresAt && LastInstant(cfg, p.proof) <= clock)
  }

  lemma PresentationRemembersOrDrops(
    cfg: Config, capacity: nat, m: R.Memory, p: Presentation, clock: Time, q: Presentation)
    requires RememberedOrExpired(cfg, m, p, clock) && clock <= q.now
    requires SameId(p, q) ==> q.proof == p.proof
    ensures RememberedOrExpired(cfg, Present(cfg, capacity, m, q).0, p, q.now)
  {
  }

  /**
  Through other proofs, and itself presented again, an accepted proof is remembered or was dropped once it had
  expired.
  */
  lemma {:induction false} AcceptedIsRememberedOrExpired(
    cfg: Config, capacity: nat, ps: seq<Presentation>, i: nat, j: nat)
    requires i < j <= |ps| && Ordered(ps) && Accepted(cfg, capacity, ps, i)
    requires forall k :: i < k < j && SameId(ps[i], ps[k]) ==> ps[k].proof == ps[i].proof
    ensures RememberedOrExpired(cfg, MemoryAt(cfg, capacity, ps, j), ps[i], ps[j - 1].now)
  {
    var before := MemoryAt(cfg, capacity, ps, j - 1);
    assert MemoryAt(cfg, capacity, ps, j) == Present(cfg, capacity, before, ps[j - 1]).0;
    if j - 1 == i {
      AcceptanceRemembers(cfg, capacity, before, ps[i]);
    } else {
      AcceptedIsRememberedOrExpired(cfg, capacity, ps, i, j - 1);
      assert ps[j - 2].now <= ps[j - 1].now;
      PresentationRemembersOrDrops(cfg, capacity, before, ps[i], ps[j - 2].now, ps[j - 1]);
    }
  }

  /**
  An accepted proof presented again in its window, however often, with no other of its id in between and room left for
  live proofs, is accepted exactly from the last instant on: the window has that instant, and what rounding adds to it,
  and the memory does not. With nothing rounded it is that instant alone.
  */
  lemma AcceptedAgainExactlyAtTheLastInstant(cfg: Config, capacity: nat, ps: seq<Presentation>, i: nat, j: nat)
    requires i < j < |ps| && Ordered(ps) && ps[i].proof == ps[j].proof && Accepted(cfg, capacity, ps, i)
    requires forall k :: i < k < j && SameId(ps[i], ps[k]) ==> ps[k].proof == ps[i].proof
    requires Check(cfg, ps[j]) == None
    requires |R.Live(MemoryAt(cfg, capacity, ps, j).expiresAt, ps[j].now)| < capacity
    ensures Accepted(cfg, capacity, ps, j) <==> ps[j].now >= LastInstant(cfg, ps[i].proof)
    ensures Exact(cfg) ==> (Accepted(cfg, capacity, ps, j) <==> ps[j].now == LastInstant(cfg, ps[i].proof))
  {
    var m := MemoryAt(cfg, capacity, ps, j);
    AcceptedIsRememberedOrExpired(cfg, capacity, ps, i, j);
    assert ps[j - 1].now <= ps[j].now;
    R.FullExactlyWhenLiveFill(m, capacity, Observed(cfg, ps[j]));
  }

  function ExampleConfig(oldest: Time -> Time): Config {
    Config(["https://a"], 10 * SECOND, 10 * SECOND, 256, oldest, t => t + 10 * SECOND)
  }

  const EXAMPLE_PROOF := Proof(true, true, "k", "GET", Some("https://a"), "/", 0, "j", None, true)

  function ExamplePresentation(now: Time): Presentation {
    Presentation(Input("GET", "/", None, ""), EXAMPLE_PROOF, now)
  }

  lemma ExampleIsAcceptedTwice(oldest: Time -> Time, first: Time, second: Time)
    requires 0 <= first <= second && 20 * SECOND <= second && oldest(first) <= 0 && oldest(second) <= 0
    ensures var ps := [ExamplePresentation(first), ExamplePresentation(second)];
      Ordered(ps) && Accepted(ExampleConfig(oldest), 10, ps, 0) && Accepted(ExampleConfig(oldest), 10, ps, 1)
  {
    var cfg := ExampleConfig(oldest);
    var ps := [ExamplePresentation(first), ExamplePresentation(second)];
    assert ByteLength("j") == 1;
    assert Accepted(cfg, 10, ps, 0);
    assert MemoryAt(cfg, 10, ps, 1) == Present(cfg, 10, MemoryAt(cfg, 10, ps, 0), ps[0]).0;
    assert Accepted(cfg, 10, ps, 1);
  }

  /** Both presentations of a proof at its last instant are accepted, though nothing is rounded. */
  lemma TwiceAtTheLastInstant()
    ensures exists cfg, ps, capacity: nat ::
      |ps| == 2 && ps[0] == ps[1] && Exact(cfg) && Ordered(ps) && Accepted(cfg, capacity, ps, 0) && Accepted(cfg,
        capacity, ps, 1)
  {
    var oldest := (t: Time) => t - 20 * SECOND;
    var p := ExamplePresentation(20 * SECOND);
    ExampleIsAcceptedTwice(oldest, 20 * SECOND, 20 * SECOND);
    assert Exact(ExampleConfig(oldest)) && Ordered([p, p]);
  }

  /**
  With instants rounded to a quarter of a microsecond, about what seconds in floating point hold, a proof accepted when it
  was made is accepted again a hundred nanoseconds after the last instant of its window.
  */
  lemma TwiceBeyondTheLastInstant()
    ensures var cfg := ExampleConfig(t => t / 250 * 250 - 20 * SECOND);
      var ps := [ExamplePresentation(0), ExamplePresentation(20 * SECOND + 100)];
      && Ordered(ps) && Accepted(cfg, 10, ps, 0) && Accepted(cfg, 10, ps, 1)
      && ps[1].now == LastInstant(cfg, ps[0].proof) + 100
  {
    ExampleIsAcceptedTwice(t => t / 250 * 250 - 20 * SECOND, 0, 20 * SECOND + 100);
  }

  /** A proof accepted for a path was made for one that is, unit by unit, the same. */
  lemma AcceptedTargetIsTheRequest(cfg: Config, p: Presentation)
    requires Check(cfg, p) == None
    requires N.WellFormed(p.proof.escapedPath) && N.WellFormed(p.input.escapedPath)
    ensures N.WellFormed(N.SlashIfEmpty(p.proof.escapedPath)) && N.WellFormed(N.SlashIfEmpty(p.input.escapedPath))
    ensures N.AllEquivalent(N.Units(N.SlashIfEmpty(p.proof.escapedPath)), N.Units(N.SlashIfEmpty(p.input.escapedPath)))
    ensures N.Decoded(N.Units(N.SlashIfEmpty(p.proof.escapedPath))) ==
      N.Decoded(N.Units(N.SlashIfEmpty(p.input.escapedPath)))
    ensures N.Slashes(N.SlashIfEmpty(p.proof.escapedPath)) == N.Slashes(N.SlashIfEmpty(p.input.escapedPath))
  {
    var a, b := N.SlashIfEmpty(p.proof.escapedPath), N.SlashIfEmpty(p.input.escapedPath);
    N.AlikeExactlyWhenEquivalent(p.proof.escapedPath, p.input.escapedPath);
    assert N.Normal("/") == "/";
    N.NormalKeepsSegments(a);
    N.NormalKeepsSegments(b);
  }
}

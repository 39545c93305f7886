/** The in-memory replay detector: a map of proofs, swept as it fills, never over its capacity. */
module ReplayDetector {
  import opened Oauth

  const DEFAULT_MAX_ENTRIES := 100_000
  const MINIMUM_SWEEP_THRESHOLD := 1024

  datatype Key = Key(keyThumbprint: string, jti: string)

  datatype Memory = Memory(expiresAt: map<Key, Time>, sweepThreshold: int)

  datatype Answer = Seen | Recorded | Full

  datatype Call = Call(key: Key, now: Time, expiresAt: Time)

  function Min(a: int, b: int): int { if a < b then a else b }

  function Max(a: int, b: int): int { if a < b then b else a }

  function Capacity(maxEntries: int): (c: nat)
    ensures c > 0
  {
    if maxEntries <= 0 then DEFAULT_MAX_ENTRIES else maxEntries
  }

  function Live(m: map<Key, Time>, now: Time): map<Key, Time> {
    map k | k in m && m[k] > now :: m[k]
  }

  predicate IsLive(m: map<Key, Time>, key: Key, now: Time) {
    key in m && m[key] > now
  }

  predicate SweepDue(m: Memory, capacity: nat) {
    |m.expiresAt| >= Min(Max(m.sweepThreshold, MINIMUM_SWEEP_THRESHOLD), capacity)
  }

  function Swept(m: Memory, capacity: nat, now: Time): Memory {
    if !SweepDue(m, capacity) then m
    else
      var kept := Live(m.expiresAt, now);
      Memory(kept, Max(2 * |kept|, MINIMUM_SWEEP_THRESHOLD))
  }

  function Observation(m: Memory, capacity: nat, call: Call): (Memory, Answer) {
    if IsLive(m.expiresAt, call.key, call.now) then (m, Seen)
    else
      var swept := Swept(m, capacity, call.now);
      if |swept.expiresAt| >= capacity then (swept, Full)
      else (swept.(expiresAt := swept.expiresAt[call.key := call.expiresAt]), Recorded)
  }

  /** How many entries the call's sweep visits. */
  function Visits(m: Memory, capacity: nat, call: Call): nat {
    if IsLive(m.expiresAt, call.key, call.now) || !SweepDue(m, capacity) then 0 else |m.expiresAt|
  }

  class Detector {
    const maxEntries: int
    var expiresAt: map<Key, Time>
    var sweepThreshold: int
    /** Entries visited by every sweep so far. */
    ghost var visited: nat

    ghost function View(): Memory
      reads this
    {
      Memory(expiresAt, sweepThreshold)
    }

    constructor (maxEntries: int)
      ensures this.maxEntries == maxEntries && View() == Memory(map[], 0) && visited == 0
    {
      this.maxEntries := maxEntries;
      expiresAt, sweepThreshold, visited := map[], 0, 0;
    }

    method Sweep(now: Time)
      modifies this`expiresAt, this`visited
      ensures expiresAt == Live(old(expiresAt), now)
      ensures visited == old(visited) + |old(expiresAt)|
    {
      var keys := expiresAt.Keys;
      while keys != {}
        invariant keys <= old(expiresAt).Keys
        invariant forall k :: k in expiresAt <==> k in keys || IsLive(old(expiresAt), k, now)
        invariant forall k :: k in expiresAt ==> k in old(expiresAt) && expiresAt[k] == old(expiresAt)[k]
        invariant visited + |keys| == old(visited) + |old(expiresAt)|
        decreases keys
      {
        var key :| key in keys;
        keys := keys - {key};
        visited := visited + 1;
        if !(expiresAt[key] > now) {
          expiresAt := expiresAt - {key};
        }
      }
    }

    method Observe(call: Call) returns (answer: Answer)
      modifies this
      ensures (View(), answer) == Observation(old(View()), Capacity(maxEntries), call)
      ensures visited == old(visited) + Visits(old(View()), Capacity(maxEntries), call)
    {
      var capacity := Capacity(maxEntries);
      if call.key in expiresAt && expiresAt[call.key] > call.now {
        return Seen;
      }
      if |expiresAt| >= Min(Max(sweepThreshold, MINIMUM_SWEEP_THRESHOLD), capacity) {
        Sweep(call.now);
        sweepThreshold := Max(2 * |expiresAt|, MINIMUM_SWEEP_THRESHOLD);
      }
      if |expiresAt| >= capacity {
        return Full;
      }
      expiresAt := expiresAt[call.key := call.expiresAt];
      answer := Recorded;
    }
  }

  // --- Against a detector that never forgets ---

  /** The reference: it keeps everything, and is full only by what is live. */
  function ObserveForever(all: map<Key, Time>, capacity: nat, call: Call): (map<Key, Time>, Answer) {
    if IsLive(all, call.key, call.now) then (all, Seen)
    else if |Live(all, call.now)| >= capacity then (all, Full)
    else (all[call.key := call.expiresAt], Recorded)
  }

  function Answers(m: Memory, capacity: nat, calls: seq<Call>): seq<Answer>
    decreases |calls|
  {
    if calls == [] then []
    else
      var (next, answer) := Observation(m, capacity, calls[0]);
      [answer] + Answers(next, capacity, calls[1..])
  }

  function AnswersForever(all: map<Key, Time>, capacity: nat, calls: seq<Call>): seq<Answer>
    decreases |calls|
  {
    if calls == [] then []
    else
      var (next, answer) := ObserveForever(all, capacity, calls[0]);
      [answer] + AnswersForever(next, capacity, calls[1..])
  }

  /** The detector's memory after the calls. */
  function After(m: Memory, capacity: nat, calls: seq<Call>): Memory
    decreases |calls|
  {
    if calls == [] then m else After(Observation(m, capacity, calls[0]).0, capacity, calls[1..])
  }

  predicate Ordered(calls: seq<Call>, clock: Time)
    decreases |calls|
  {
    calls == [] || (clock <= calls[0].now && Ordered(calls[1..], calls[0].now))
  }

  /** What has been forgotten had expired by the clock. */
  ghost predicate Remembers(m: Memory, all: map<Key, Time>, clock: Time) {
    && (forall k :: k in m.expiresAt ==> k in all && m.expiresAt[k] == all[k])
    && (forall k :: k in all && k !in m.expiresAt ==> all[k] <= clock)
  }

  lemma LiveIsSmaller(m: map<Key, Time>, now: Time)
    ensures |Live(m, now)| <= |m|
    ensures |Live(m, now)| == |m| ==> Live(m, now) == m
  {
    var kept := Live(m, now).Keys;
    assert kept <= m.Keys;
    CardinalityOfSubset(kept, m.Keys);
  }

  lemma CardinalityOfSubset<T>(a: set<T>, b: set<T>)
    requires a <= b
    ensures |a| <= |b|
    ensures |a| == |b| ==> a == b
  {
    assert b == a + (b - a);
  }

  /** Full is answered exactly when the proof is not remembered as live and no live one may be forgotten for it. */
  lemma FullExactlyWhenLiveFill(m: Memory, capacity: nat, call: Call)
    ensures Observation(m, capacity, call).1 == Full <==>
      !IsLive(m.expiresAt, call.key, call.now) && |Live(m.expiresAt, call.now)| >= capacity
    ensures |m.expiresAt| <= capacity ==> |Observation(m, capacity, call).0.expiresAt| <= capacity
  {
    LiveIsSmaller(m.expiresAt, call.now);
  }

  /** The keys remembered past the instant. */
  ghost function Unexpired(m: map<Key, Time>, now: Time): set<Key> {
    set k | k in m && m[k] > now
  }

  lemma LiveCounts(m: map<Key, Time>, now: Time)
    ensures |Live(m, now)| == |Unexpired(m, now)|
  {
    assert Live(m, now).Keys == Unexpired(m, now);
  }

  /**
  What one observation answers and leaves, by the entries and the configured maximum: a remembered proof is seen, another
  is recorded unless as many unexpired ones as may be are, and what is expired goes exactly when the map has come to its
  threshold.
  */
  lemma ObservedExactly(m: Memory, maxEntries: int, call: Call)
    ensures var most := if maxEntries > 0 then maxEntries else 100_000;
      var remembered := call.key in m.expiresAt && m.expiresAt[call.key] > call.now;
      var threshold := if m.sweepThreshold < 1024 then 1024 else m.sweepThreshold;
      var due := |m.expiresAt| >= (if threshold < most then threshold else most);
      var left := |Unexpired(m.expiresAt, call.now)|;
      var (next, answer) := Observation(m, Capacity(maxEntries), call);
      && (answer == Seen <==> remembered) && (remembered ==> next == m)
      && (answer == Full <==> !remembered && left >= most)
      && (answer == Recorded ==> call.key in next.expiresAt && next.expiresAt[call.key] == call.expiresAt)
      && (forall k :: k in next.expiresAt && (answer == Recorded ==> k != call.key) ==>
          k in m.expiresAt && next.expiresAt[k] == m.expiresAt[k] && (!remembered && due ==> m.expiresAt[k] > call.now))
      && (forall k :: k in m.expiresAt && (remembered || !due || m.expiresAt[k] > call.now) ==> k in next.expiresAt)
      && (next.sweepThreshold ==
          if remembered || !due then m.sweepThreshold else if 2 * left < 1024 then 1024 else 2 * left)
  {
    LiveCounts(m.expiresAt, call.now);
    FullExactlyWhenLiveFill(m, Capacity(maxEntries), call);
  }

  lemma ObserveAgrees(m: Memory, all: map<Key, Time>, clock: Time, capacity: nat, call: Call)
    requires Remembers(m, all, clock) && clock <= call.now
    ensures Observation(m, capacity, call).1 == ObserveForever(all, capacity, call).1
    ensures Remembers(Observation(m, capacity, call).0, ObserveForever(all, capacity, call).0, call.now)
  {
    assert Live(m.expiresAt, call.now) == Live(all, call.now);
    FullExactlyWhenLiveFill(m, capacity, call);
  }

  lemma {:induction false} AgreesFrom(m: Memory, all: map<Key, Time>, clock: Time, capacity: nat, calls: seq<Call>)
    requires Remembers(m, all, clock) && Ordered(calls, clock)
    ensures Answers(m, capacity, calls) == AnswersForever(all, capacity, calls)
    decreases |calls|
  {
    if calls != [] {
      ObserveAgrees(m, all, clock, capacity, calls[0]);
      AgreesFrom(
        Observation(m, capacity, calls[0]).0, ObserveForever(all, capacity, calls[0]).0, calls[0].now, capacity,
          calls[1..]);
    }
  }

  /** Under a clock that does not go back, the sweeping detector answers every call as the one that never forgets. */
  lemma SweepingIsUnobservable(maxEntries: int, calls: seq<Call>, start: Time)
    requires Ordered(calls, start)
    ensures Answers(Memory(map[], 0), Capacity(maxEntries), calls) == AnswersForever(map[], Capacity(maxEntries), calls)
  {
    AgreesFrom(Memory(map[], 0), map[], start, Capacity(maxEntries), calls);
  }

  /** The map never outgrows its capacity. */
  lemma {:induction false} NeverOverCapacity(m: Memory, capacity: nat, calls: seq<Call>)
    requires |m.expiresAt| <= capacity
    ensures |After(m, capacity, calls).expiresAt| <= capacity
    decreases |calls|
  {
    if calls != [] {
      FullExactlyWhenLiveFill(m, capacity, calls[0]);
      NeverOverCapacity(Observation(m, capacity, calls[0]).0, capacity, calls[1..]);
    }
  }

  /** A live proof stays in the map, sweeps and all, until it expires. */
  lemma {:induction false} LiveIsNeverForgotten(m: Memory, capacity: nat, calls: seq<Call>, key: Key, expiresAt: Time)
    requires key in m.expiresAt && m.expiresAt[key] == expiresAt
    requires forall i :: 0 <= i < |calls| ==> calls[i].now < expiresAt
    ensures key in After(m, capacity, calls).expiresAt && After(m, capacity, calls).expiresAt[key] == expiresAt
    decreases |calls|
  {
    if calls != [] {
      assert calls[0].now < expiresAt;
      LiveIsNeverForgotten(Observation(m, capacity, calls[0]).0, capacity, calls[1..], key, expiresAt);
    }
  }

  // --- What sweeping costs ---

  function TotalVisits(m: Memory, capacity: nat, calls: seq<Call>): nat
    decreases |calls|
  {
    if calls == [] then 0
    else Visits(m, capacity, calls[0]) + TotalVisits(Observation(m, capacity, calls[0]).0, capacity, calls[1..])
  }

  function Insertions(m: Memory, capacity: nat, calls: seq<Call>): nat
    decreases |calls|
  {
    if calls == [] then 0
    else
      var (next, answer) := Observation(m, capacity, calls[0]);
      (if answer == Recorded then 1 else 0) + Insertions(next, capacity, calls[1..])
  }

  /** Every sweep leaves at most so many entries. */
  predicate SweepsLeave(m: Memory, capacity: nat, calls: seq<Call>, most: nat)
    decreases |calls|
  {
    calls == [] ||
    ((Visits(m, capacity, calls[0]) > 0 ==> |Live(m.expiresAt, calls[0].now)| <= most)
     && SweepsLeave(Observation(m, capacity, calls[0]).0, capacity, calls[1..], most))
  }

  /** The threshold is the one a sweep leaving `left` entries sets, or the one before any sweep. */
  predicate ThresholdAfter(m: Memory, left: nat) {
    && left <= |m.expiresAt|
    && (m.sweepThreshold == Max(2 * left, MINIMUM_SWEEP_THRESHOLD) || (m.sweepThreshold == 0 && left == 0))
  }

  /** `visits` is at most `num / den` times `insertions`. */
  predicate Within(visits: int, insertions: int, num: nat, den: nat) {
    visits * den <= num * insertions
  }

  /** Rates that a full map of which `most` survive is paid for at, and that are no less than two. */
  predicate Pays(capacity: nat, most: nat, num: nat, den: nat) {
    2 * den <= num && den * capacity <= num * (capacity - most)
  }

  /** A sweep's visits are paid for by what the map has grown since the last one. */
  lemma SweepIsPaidFor(size: nat, left: nat, capacity: nat, most: nat, num: nat, den: nat)
    requires Pays(capacity, most, num, den) && left <= most <= capacity && left <= size
    requires 2 * left <= size || capacity <= size
    ensures Within(size, size - left, num, den)
  {
    if 2 * left <= size {
      assert den * size <= num * (size - left) by {
        assert (2 * den) * (size - left) <= num * (size - left);
        assert 2 * (size - left) >= size;
        assert den * (2 * (size - left)) >= den * size;
      }
    } else {
      assert num * (capacity - left) >= num * (capacity - most);
      assert (num - den) * (size - capacity) >= 0;
    }
  }

  /** What the map has grown by since its last sweep pays for the next one. */
  lemma {:induction false} VisitsArePaidFor(
    m: Memory, capacity: nat, calls: seq<Call>, left: nat, most: nat, num: nat, den: nat)
    requires Pays(capacity, most, num, den) && 0 < capacity && left <= most <= capacity
    requires ThresholdAfter(m, left) && SweepsLeave(m, capacity, calls, most)
    ensures Within(
      TotalVisits(m, capacity, calls), Insertions(m, capacity, calls) + |m.expiresAt| - left, num, den)
    decreases |calls|
  {
    if calls != [] {
      var call := calls[0];
      var next := Observation(m, capacity, call).0;
      var survivors := Live(m.expiresAt, call.now);
      var rest := calls[1..];
      if IsLive(m.expiresAt, call.key, call.now) {
        VisitsArePaidFor(next, capacity, rest, left, most, num, den);
      } else if SweepDue(m, capacity) {
        LiveIsSmaller(m.expiresAt, call.now);
        VisitsArePaidFor(next, capacity, rest, |survivors|, most, num, den);
        SweepIsPaidFor(|m.expiresAt|, left, capacity, most, num, den);
        PaidTogether(
          |m.expiresAt|, |m.expiresAt| - left, TotalVisits(next, capacity, rest),
          Insertions(next, capacity, rest) + |next.expiresAt| - |survivors|,
          Insertions(m, capacity, calls) + |m.expiresAt| - left, num, den);
      } else {
        VisitsArePaidFor(next, capacity, rest, left, most, num, den);
        PaidTogether(
          0, 0, TotalVisits(next, capacity, rest), Insertions(next, capacity, rest) + |next.expiresAt| - left,
          Insertions(m, capacity, calls) + |m.expiresAt| - left, num, den);
      }
    }
  }

  lemma PaidTogether(a: int, b: int, c: int, d: int, more: int, num: nat, den: nat)
    requires Within(a, b, num, den) && Within(c, d, num, den) && b + d <= more
    ensures Within(a + c, more, num, den)
  {
    assert num * (b + d) <= num * more;
  }

  const EMPTY := Memory(map[], 0)

  lemma SweepCostIsWithin(capacity: nat, calls: seq<Call>, most: nat, num: nat, den: nat)
    requires Pays(capacity, most, num, den) && 0 < capacity && most <= capacity
    requires SweepsLeave(EMPTY, capacity, calls, most)
    ensures Within(TotalVisits(EMPTY, capacity, calls), Insertions(EMPTY, capacity, calls), num, den)
  {
    VisitsArePaidFor(EMPTY, capacity, calls, 0, most, num, den);
  }

  /** While sweeps leave at most half of the capacity, they visit at most two entries for every one inserted. */
  lemma SweepCostIsAmortised(capacity: nat, calls: seq<Call>, most: nat)
    requires 0 < capacity && 2 * most <= capacity && SweepsLeave(EMPTY, capacity, calls, most)
    ensures TotalVisits(EMPTY, capacity, calls) <= 2 * Insertions(EMPTY, capacity, calls)
  {
    SweepCostIsWithin(capacity, calls, most, 2, 1);
  }

  /** Full of live proofs, every call sweeps and none inserts. */
  lemma {:induction false} FullSweepsEveryCall(m: Memory, capacity: nat, calls: seq<Call>)
    requires 0 < capacity == |m.expiresAt|
    requires forall i :: 0 <= i < |calls| ==> calls[i].key !in m.expiresAt && Live(m.expiresAt, calls[i].now) == m.expiresAt
    ensures TotalVisits(m, capacity, calls) == capacity * |calls| && Insertions(m, capacity, calls) == 0
    decreases |calls|
  {
    if calls != [] {
      var next := Observation(m, capacity, calls[0]).0;
      assert calls[0].key !in m.expiresAt;
      assert next.expiresAt == m.expiresAt;
      forall i | 0 <= i < |calls[1..]|
        ensures calls[1..][i].key !in next.expiresAt && Live(next.expiresAt, calls[1..][i].now) == next.expiresAt
      {
        assert calls[1..][i] == calls[i + 1];
      }
      FullSweepsEveryCall(next, capacity, calls[1..]);
      assert capacity * |calls| == capacity + capacity * |calls[1..]|;
    }
  }

  // --- Runs that sweep as much as they can ---

  function Repeated(n: nat): string {
    seq(n, _ => 'x')
  }

  function LiveCall(i: nat): Call {
    Call(Key("live", Repeated(i)), 0, 1)
  }

  /** A proof that is expired as it is recorded. */
  function DeadCall(i: nat): Call {
    Call(Key("dead", Repeated(i)), 0, 0)
  }

  /** The first so many of the live, and of the dead. */
  function Entries(live: nat, dead: nat): map<Key, Time> {
    if dead > 0 then Entries(live, dead - 1)[DeadCall(dead - 1).key := 0]
    else if live > 0 then Entries(live - 1, 0)[LiveCall(live - 1).key := 1]
    else map[]
  }

  predicate EntryOf(k: Key, expiresAt: Time, live: nat, dead: nat) {
    if expiresAt == 1 then k.keyThumbprint == "live" && |k.jti| < live
    else expiresAt == 0 && k.keyThumbprint == "dead" && |k.jti| < dead
  }

  lemma {:induction false} EntriesOf(live: nat, dead: nat)
    ensures forall k :: k in Entries(live, dead) ==> EntryOf(k, Entries(live, dead)[k], live, dead)
    decreases dead, live
  {
    if dead > 0 {
      EntriesOf(live, dead - 1);
    } else if live > 0 {
      EntriesOf(live - 1, 0);
    }
  }

  lemma NewEntries(live: nat, dead: nat)
    ensures LiveCall(live).key !in Entries(live, 0) && DeadCall(dead).key !in Entries(live, dead)
  {
    EntriesOf(live, 0);
    EntriesOf(live, dead);
    assert |LiveCall(live).key.jti| == live && |DeadCall(dead).key.jti| == dead;
    assert "live"[0] != "dead"[0];
  }

  lemma {:induction false} EntriesCount(live: nat, dead: nat)
    ensures |Entries(live, dead)| == live + dead
    decreases dead, live
  {
    if dead > 0 {
      EntriesCount(live, dead - 1);
      NewEntries(live, dead - 1);
    } else if live > 0 {
      EntriesCount(live - 1, 0);
      NewEntries(live - 1, 0);
    }
  }

  lemma {:induction false} EntriesLive(live: nat, dead: nat)
    ensures Live(Entries(live, dead), 0) == Entries(live, 0)
    decreases dead
  {
    if dead > 0 {
      EntriesLive(live, dead - 1);
      NewEntries(live, dead - 1);
    } else {
      EntriesOf(live, 0);
    }
  }

  /** The run is at one instant, and visits more than the rate allows even were there so many more insertions. */
  predicate ExceedsBy(m: Memory, capacity: nat, most: nat, num: nat, den: nat, more: nat, calls: seq<Call>) {
    && Ordered(calls, 0) && SweepsLeave(m, capacity, calls, most)
    && !Within(TotalVisits(m, capacity, calls), Insertions(m, capacity, calls) + more, num, den)
  }

  ghost predicate Exceeds(m: Memory, capacity: nat, most: nat, num: nat, den: nat, more: nat) {
    exists calls :: ExceedsBy(m, capacity, most, num, den, more, calls)
  }

  lemma OneCallMore(m: Memory, capacity: nat, most: nat, call: Call, rest: seq<Call>)
    requires call.now == 0 && |Live(m.expiresAt, 0)| <= most
    requires Ordered(rest, 0) && SweepsLeave(Observation(m, capacity, call).0, capacity, rest, most)
    ensures var calls, next := [call] + rest, Observation(m, capacity, call).0;
      && Ordered(calls, 0) && SweepsLeave(m, capacity, calls, most)
      && TotalVisits(m, capacity, calls) == Visits(m, capacity, call) + TotalVisits(next, capacity, rest)
      && Insertions(m, capacity, calls) <= 1 + Insertions(next, capacity, rest)
  {
    var calls := [call] + rest;
    assert calls[0] == call && calls[1..] == rest;
  }

  lemma StillExceeds(v: int, w: int, i: int, j: int, num: nat, den: nat)
    requires v <= w && i <= j && !Within(v, j, num, den)
    ensures !Within(w, i, num, den)
  {
    assert v * den <= w * den && num * i <= num * j;
  }

  /** One call in front. */
  lemma ExceedsBefore(m: Memory, capacity: nat, most: nat, num: nat, den: nat, more: nat, call: Call)
    requires call.now == 0 && |Live(m.expiresAt, 0)| <= most
    requires Exceeds(Observation(m, capacity, call).0, capacity, most, num, den, more + 1)
    ensures Exceeds(m, capacity, most, num, den, more)
  {
    var next := Observation(m, capacity, call).0;
    var rest :| ExceedsBy(next, capacity, most, num, den, more + 1, rest);
    OneCallMore(m, capacity, most, call, rest);
    StillExceeds(
      TotalVisits(next, capacity, rest), TotalVisits(m, capacity, [call] + rest),
      Insertions(m, capacity, [call] + rest) + more, Insertions(next, capacity, rest) + (more + 1), num, den);
    assert ExceedsBy(m, capacity, most, num, den, more, [call] + rest);
  }

  /** What a dead proof makes of the memory once sweeps wait for it to be full: one more, or the first since a sweep. */
  lemma DeadCallMakes(capacity: nat, most: nat, dead: nat, threshold: int)
    requires 0 < capacity && most <= capacity && most + dead <= capacity
    ensures var m := Memory(Entries(most, dead), threshold);
      var call := DeadCall(if SweepDue(m, capacity) then 0 else dead);
      var (next, answer) := Observation(m, capacity, call);
      && |Live(m.expiresAt, 0)| == most
      && Visits(m, capacity, call) == (if SweepDue(m, capacity) then most + dead else 0)
      && next.sweepThreshold == (if SweepDue(m, capacity) then Max(2 * most, MINIMUM_SWEEP_THRESHOLD) else threshold)
      && (most == capacity ==> answer == Full && next.expiresAt == Entries(most, 0))
      && (most < capacity ==>
          answer == Recorded && next.expiresAt == Entries(most, if SweepDue(m, capacity) then 1 else dead + 1))
  {
    EntriesCount(most, dead);
    EntriesCount(most, 0);
    EntriesLive(most, dead);
    EntriesLive(most, 0);
    NewEntries(most, dead);
    NewEntries(most, 0);
    EntriesOf(most, dead);
  }

  /** The threshold a sweep leaving `most` sets. */
  function Settled(most: nat): int {
    Max(2 * most, MINIMUM_SWEEP_THRESHOLD)
  }

  /** So many visits, `d` times over, are what filling up from `dead` with `n` calls comes to. */
  predicate Covers(visits: nat, d: nat, capacity: nat, n: nat, dead: nat) {
    visits * d >= capacity * (n + dead - d)
  }

  /** At most so many calls insert, and they sweep the full map each time it is full. */
  predicate Fills(capacity: nat, most: nat, dead: nat, n: nat, calls: seq<Call>)
    requires most <= capacity
  {
    var m := Memory(Entries(most, dead), Settled(most));
    && Ordered(calls, 0) && SweepsLeave(m, capacity, calls, most) && Insertions(m, capacity, calls) <= n
    && Covers(TotalVisits(m, capacity, calls), capacity - most, capacity, n, dead)
  }

  /** Filling up with dead proofs again and again. */
  lemma {:induction false} FillingUp(capacity: nat, most: nat, dead: nat, n: nat) returns (calls: seq<Call>)
    requires most < capacity <= 2 * most && most + dead <= capacity
    ensures Fills(capacity, most, dead, n, calls)
    decreases n
  {
    calls := [];
    if n == 0 {
      NotPositive(capacity, dead - (capacity - most));
    } else {
      var after := if most + dead == capacity then 1 else dead + 1;
      var rest := FillingUp(capacity, most, after, n - 1);
      calls := [DeadCall(after - 1)] + rest;
      FillingOn(capacity, most, dead, after, n, rest);
    }
  }

  lemma FillingOn(capacity: nat, most: nat, dead: nat, after: nat, n: nat, rest: seq<Call>)
    requires most < capacity <= 2 * most && most + dead <= capacity && n > 0
    requires after == (if most + dead == capacity then 1 else dead + 1) && Fills(capacity, most, after, n - 1, rest)
    ensures Fills(capacity, most, dead, n, [DeadCall(after - 1)] + rest)
  {
    var m := Memory(Entries(most, dead), Settled(most));
    EntriesCount(most, dead);
    assert SweepDue(m, capacity) <==> most + dead == capacity;
    DeadCallMakes(capacity, most, dead, Settled(most));
    OneCallMore(m, capacity, most, DeadCall(after - 1), rest);
    var next := Memory(Entries(most, after), Settled(most));
    SweepAdds(capacity, capacity - most, TotalVisits(next, capacity, rest), n, dead, after);
  }

  lemma NotPositive(a: nat, b: int)
    requires b <= 0
    ensures a * b <= 0
  {
  }

  lemma SweepAdds(capacity: nat, d: nat, v: nat, n: nat, dead: nat, after: nat)
    requires dead <= d && n > 0 && after == (if dead == d then 1 else dead + 1)
    requires Covers(v, d, capacity, n - 1, after)
    ensures Covers(v + (if dead == d then capacity else 0), d, capacity, n, dead)
  {
    if dead == d {
      assert (v + capacity) * d == v * d + capacity * d;
      assert capacity * (n - d) + capacity * d == capacity * n;
    }
  }

  lemma Grows(a: int, b: int, c: nat)
    requires a <= b
    ensures a * c <= b * c
  {
  }

  lemma Regroup(a: int, b: int, c: int)
    ensures a * (b * c) == (a * b) * c
  {
  }

  lemma Cancels(a: int, b: int, c: nat)
    requires 0 < c && a * c <= b * c
    ensures a <= b
  {
    if b < a {
      Grows(b + 1, a, c);
    }
  }

  lemma ManyVisits(v: int, d: nat, capacity: nat, den: nat, p: nat, x: nat)
    requires v * d >= capacity * x && den * capacity > p
    ensures den * (v * d) >= p * x + x
  {
    Grows(capacity * x, v * d, den);
    Regroup(den, capacity, x);
    Grows(p + 1, den * capacity, x);
  }

  lemma FewVisits(v: int, i: int, n: int, d: nat, num: nat, den: nat, more: nat)
    requires i <= n && Within(v, i + more, num, den)
    ensures den * (v * d) <= num * d * (n + more)
  {
    Grows(i + more, n + more, num);
    Grows(v * den, num * (n + more), d);
    Regroup(den, v, d);
    assert num * (n + more) * d == num * d * (n + more);
  }

  function RunLength(d: nat, num: nat, more: nat): nat {
    d + num * d * (d + more) + 1
  }

  lemma LongEnough(v: int, i: int, n: int, d: nat, capacity: nat, num: nat, den: nat, more: nat)
    requires den * capacity > num * d && i <= n && n == RunLength(d, num, more)
    requires v * d >= capacity * (n - d)
    ensures !Within(v, i + more, num, den)
  {
    var p, x := num * d, n - d;
    assert p * (n + more) == p * x + p * (d + more);
    ManyVisits(v, d, capacity, den, p, x);
    if Within(v, i + more, num, den) {
      FewVisits(v, i, n, d, num, den, more);
    }
  }

  /** Where every proof remembered is live, every call visits them all and none is recorded. */
  lemma FullRun(capacity: nat, threshold: int, n: nat) returns (calls: seq<Call>)
    requires 0 < capacity
    ensures var m := Memory(Entries(capacity, 0), threshold);
      && Ordered(calls, 0) && SweepsLeave(m, capacity, calls, capacity)
      && TotalVisits(m, capacity, calls) == capacity * n && Insertions(m, capacity, calls) == 0
  {
    var m := Memory(Entries(capacity, 0), threshold);
    calls := seq(n, _ => DeadCall(0));
    EntriesCount(capacity, 0);
    EntriesLive(capacity, 0);
    NewEntries(capacity, 0);
    FullSweepsEveryCall(m, capacity, calls);
    AtOneInstant(calls);
    NoneLeavesMore(m, capacity, calls);
  }

  lemma {:induction false} AtOneInstant(calls: seq<Call>)
    requires forall i :: 0 <= i < |calls| ==> calls[i].now == 0
    ensures Ordered(calls, 0)
    decreases |calls|
  {
    if calls != [] {
      AtOneInstant(calls[1..]);
    }
  }

  /** No sweep leaves more than the capacity. */
  lemma {:induction false} NoneLeavesMore(m: Memory, capacity: nat, calls: seq<Call>)
    requires |m.expiresAt| <= capacity
    ensures SweepsLeave(m, capacity, calls, capacity)
    decreases |calls|
  {
    if calls != [] {
      LiveIsSmaller(m.expiresAt, calls[0].now);
      FullExactlyWhenLiveFill(m, capacity, calls[0]);
      NoneLeavesMore(Observation(m, capacity, calls[0]).0, capacity, calls[1..]);
    }
  }

  lemma SettledExceedsShortOfFull(capacity: nat, most: nat, dead: nat, num: nat, den: nat, more: nat)
    requires most < capacity <= 2 * most && most + dead <= capacity && den * capacity > num * (capacity - most)
    ensures Exceeds(Memory(Entries(most, dead), Settled(most)), capacity, most, num, den, more)
  {
    var m, d := Memory(Entries(most, dead), Settled(most)), capacity - most;
    var n := RunLength(d, num, more);
    var calls := FillingUp(capacity, most, dead, n);
    FilledLongEnough(m, capacity, most, num, den, more, dead, calls);
  }

  lemma FilledLongEnough(
    m: Memory, capacity: nat, most: nat, num: nat, den: nat, more: nat, dead: nat, calls: seq<Call>)
    requires most < capacity && den * capacity > num * (capacity - most)
    requires Ordered(calls, 0) && SweepsLeave(m, capacity, calls, most)
    requires var n, d := RunLength(capacity - most, num, more), capacity - most;
      && Insertions(m, capacity, calls) <= n
      && TotalVisits(m, capacity, calls) * d >= capacity * (n + dead - d)
    ensures Exceeds(m, capacity, most, num, den, more)
  {
    var n, d := RunLength(capacity - most, num, more), capacity - most;
    var v, i := TotalVisits(m, capacity, calls), Insertions(m, capacity, calls);
    assert capacity * (n + dead - d) >= capacity * (n - d) by {
      Grows(n - d, n + dead - d, capacity);
    }
    LongEnough(v, i, n, d, capacity, num, den, more);
    assert ExceedsBy(m, capacity, most, num, den, more, calls);
  }

  lemma SettledExceedsWhenFull(capacity: nat, num: nat, den: nat, more: nat)
    requires 0 < capacity && 0 < den
    ensures Exceeds(Memory(Entries(capacity, 0), Settled(capacity)), capacity, capacity, num, den, more)
  {
    var m, n := Memory(Entries(capacity, 0), Settled(capacity)), num * more + 1;
    var calls := FullRun(capacity, Settled(capacity), n);
    Grows(1, capacity, n);
    Grows(1, den, capacity * n);
    assert ExceedsBy(m, capacity, capacity, num, den, more, calls);
  }

  lemma SettledExceeds(capacity: nat, most: nat, dead: nat, num: nat, den: nat, more: nat)
    requires 0 < capacity <= 2 * most && most <= capacity && most + dead <= capacity
    requires 0 < den && den * capacity > num * (capacity - most)
    ensures Exceeds(Memory(Entries(most, dead), Settled(most)), capacity, most, num, den, more)
  {
    if most < capacity {
      SettledExceedsShortOfFull(capacity, most, dead, num, den, more);
    } else {
      SettledExceedsWhenFull(capacity, num, den, more);
    }
  }

  /** Whatever the threshold was, dead proofs fill the memory up to a sweep, which settles it. */
  lemma {:induction false} FillExceeds(
    capacity: nat, most: nat, dead: nat, threshold: int, num: nat, den: nat, more: nat)
    requires 0 < capacity <= 2 * most && most <= capacity && most + dead <= capacity
    requires 0 < den && den * capacity > num * (capacity - most)
    ensures Exceeds(Memory(Entries(most, dead), threshold), capacity, most, num, den, more)
    decreases capacity - most - dead
  {
    var m := Memory(Entries(most, dead), threshold);
    EntriesCount(most, dead);
    EntriesCount(most, 0);
    DeadCallMakes(capacity, most, dead, threshold);
    if SweepDue(m, capacity) {
      SettledExceeds(capacity, most, if most < capacity then 1 else 0, num, den, more + 1);
      ExceedsBefore(m, capacity, most, num, den, more, DeadCall(0));
    } else {
      FillExceeds(capacity, most, dead + 1, threshold, num, den, more + 1);
      ExceedsBefore(m, capacity, most, num, den, more, DeadCall(dead));
    }
  }

  lemma LiveCallMakes(capacity: nat, live: nat, threshold: int)
    requires live < capacity
    ensures var next := Observation(Memory(Entries(live, 0), threshold), capacity, LiveCall(live)).0;
      next == Memory(Entries(live + 1, 0), next.sweepThreshold) && |Live(Entries(live, 0), 0)| == live
  {
    EntriesCount(live, 0);
    EntriesLive(live, 0);
    NewEntries(live, 0);
  }

  lemma {:induction false} LivingExceeds(
    capacity: nat, most: nat, live: nat, threshold: int, num: nat, den: nat, more: nat)
    requires 0 < capacity <= 2 * most && live <= most <= capacity
    requires 0 < den && den * capacity > num * (capacity - most)
    ensures Exceeds(Memory(Entries(live, 0), threshold), capacity, most, num, den, more)
    decreases most - live
  {
    if live == most {
      FillExceeds(capacity, most, 0, threshold, num, den, more);
    } else {
      var m := Memory(Entries(live, 0), threshold);
      LiveCallMakes(capacity, live, threshold);
      LivingExceeds(
        capacity, most, live + 1, Observation(m, capacity, LiveCall(live)).0.sweepThreshold, num, den, more + 1);
      ExceedsBefore(m, capacity, most, num, den, more, LiveCall(live));
    }
  }

  /** Every run from the start whose sweeps leave at most so many keeps to the rate. */
  ghost predicate KeepsTo(capacity: nat, most: nat, num: nat, den: nat) {
    forall calls :: SweepsLeave(EMPTY, capacity, calls, most) ==>
      Within(TotalVisits(EMPTY, capacity, calls), Insertions(EMPTY, capacity, calls), num, den)
  }

  /** The same of runs that can happen, under a clock that does not go back. */
  ghost predicate KeepsToInOrder(capacity: nat, most: nat, num: nat, den: nat) {
    forall calls :: Ordered(calls, 0) && SweepsLeave(EMPTY, capacity, calls, most) ==>
      Within(TotalVisits(EMPTY, capacity, calls), Insertions(EMPTY, capacity, calls), num, den)
  }

  lemma PaysFromHalfOn(capacity: nat, most: nat, num: nat, den: nat)
    requires 0 < capacity <= 2 * most && most <= capacity && den * capacity <= num * (capacity - most)
    ensures Pays(capacity, most, num, den)
  {
    Grows(2 * (capacity - most), capacity, num);
    Regroup(2, den, capacity);
    Cancels(2 * den, num, capacity);
  }

  /**
  What sweeping costs, exactly, where sweeps may leave half of the capacity or more: the rates every run keeps to are
  those that pay for a full memory's sweep with what it makes room for. At the capacity itself that is no rate at all.
  */
  lemma SweepCostExactly(capacity: nat, most: nat, num: nat, den: nat)
    requires 0 < capacity <= 2 * most && most <= capacity && 0 < den
    ensures KeepsTo(capacity, most, num, den) <==> den * capacity <= num * (capacity - most)
    ensures KeepsToInOrder(capacity, most, num, den) <==> den * capacity <= num * (capacity - most)
  {
    if den * capacity <= num * (capacity - most) {
      PaysFromHalfOn(capacity, most, num, den);
      forall calls | SweepsLeave(EMPTY, capacity, calls, most)
        ensures Within(TotalVisits(EMPTY, capacity, calls), Insertions(EMPTY, capacity, calls), num, den)
      {
        SweepCostIsWithin(capacity, calls, most, num, den);
      }
    } else {
      assert Entries(0, 0) == map[];
      LivingExceeds(capacity, most, 0, 0, num, den, 0);
      var calls :| ExceedsBy(EMPTY, capacity, most, num, den, 0, calls);
    }
  }

  /**
  Sweeps visit at most two entries for each recorded in every run, exactly when none may leave more than half of
  the capacity.
  */
  lemma AmortisedExactlyUpToHalf(capacity: nat, most: nat)
    requires 0 < capacity && most <= capacity
    ensures (forall calls :: SweepsLeave(EMPTY, capacity, calls, most) ==>
      TotalVisits(EMPTY, capacity, calls) <= 2 * Insertions(EMPTY, capacity, calls)) <==> 2 * most <= capacity
  {
    if 2 * most <= capacity {
      forall calls | SweepsLeave(EMPTY, capacity, calls, most)
        ensures TotalVisits(EMPTY, capacity, calls) <= 2 * Insertions(EMPTY, capacity, calls)
      {
        SweepCostIsAmortised(capacity, calls, most);
      }
    } else {
      SweepCostExactly(capacity, most, 2, 1);
      var calls :| SweepsLeave(EMPTY, capacity, calls, most)
        && !Within(TotalVisits(EMPTY, capacity, calls), Insertions(EMPTY, capacity, calls), 2, 1);
      assert TotalVisits(EMPTY, capacity, calls) > 2 * Insertions(EMPTY, capacity, calls);
    }
  }

  /**
  Past half, but short of the capacity, there is a rate still: that of a full memory to the room a sweep makes
  in it.
  */
  lemma AmortisedPastHalf(capacity: nat, most: nat, calls: seq<Call>)
    requires most < capacity <= 2 * most && SweepsLeave(EMPTY, capacity, calls, most)
    ensures TotalVisits(EMPTY, capacity, calls) * (capacity - most) <= Insertions(EMPTY, capacity, calls) * capacity
  {
    SweepCostExactly(capacity, most, capacity, capacity - most);
  }

  /** Left to fill with live proofs there is none: whatever the factor, some run from the start exceeds it. */
  lemma NoRateAtCapacity(capacity: nat, factor: nat)
    requires 0 < capacity
    ensures exists calls ::
      Ordered(calls, 0) && TotalVisits(EMPTY, capacity, calls) > factor * Insertions(EMPTY, capacity, calls)
  {
    SweepCostExactly(capacity, capacity, factor, 1);
    var calls :| Ordered(calls, 0) && SweepsLeave(EMPTY, capacity, calls, capacity)
      && !Within(TotalVisits(EMPTY, capacity, calls), Insertions(EMPTY, capacity, calls), factor, 1);
  }
}

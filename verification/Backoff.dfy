/** The gateway's per-exchange circuit breaker, with times in milliseconds. */
module Backoff {
  import opened Wrappers
  import opened Digits
  import opened Clock
  import opened Listing

  type Key = string

  const INITIAL := 50
  const CAP := 10_000

  datatype Circuit = Circuit(backoff: nat, openedAt: real, halfOpen: bool)

  type Circuits = map<Key, Circuit>

  predicate Expired(c: Circuit, now: real) {
    Elapsed(c.openedAt, now) >= c.backoff as real
  }

  // ---------------------------------------------------------------- operations

  function Allow(s: Circuits, key: Key, now: real): (Circuits, bool) {
    if key !in s then (s, true)
    else if Expired(s[key], now) then (s[key := s[key].(halfOpen := true)], true)
    else (s, false)
  }

  /** The circuits still in their backoff window. */
  function Prune(s: Circuits, now: real): Circuits {
    map k | k in s && !Expired(s[k], now) :: s[k]
  }

  function AfterPrune(max: nat, s: Circuits, key: Key, now: real): Circuits {
    if |s| >= max && key !in s then Prune(s, now) else s
  }

  function RateLimited(max: nat, s: Circuits, key: Key, now: real): Circuits {
    var t := AfterPrune(max, s, key, now);
    if key !in t && |t| >= max then t
    else
      var c := if key in t then t[key] else Circuit(INITIAL, now, false);
      var doubled := if c.backoff * 2 <= CAP then c.backoff * 2 else CAP;
      t[key := Circuit(if c.halfOpen then doubled else c.backoff, now, false)]
  }

  datatype Op = AllowOp(key: Key, now: real) | SuccessOp(key: Key) | LimitedOp(key: Key, now: real)

  function Step(max: nat, s: Circuits, op: Op): Circuits {
    match op
    case AllowOp(key, now) => Allow(s, key, now).0
    case SuccessOp(key) => s - {key}
    case LimitedOp(key, now) => RateLimited(max, s, key, now)
  }

  function Run(max: nat, ops: seq<Op>): Circuits {
    if |ops| == 0 then map[] else Step(max, Run(max, ops[..|ops| - 1]), ops[|ops| - 1])
  }

  // ---------------------------------------------------------------- a circuit, told by its history

  /** What the history says of a tracked circuit: failed probes since it was created, last report, probe since. */
  datatype Story = Story(failures: nat, reportedAt: real, probed: bool)

  /** Fifty milliseconds, doubled per failed probe, capped at ten seconds. */
  function BackoffAfter(failures: nat): nat {
    if INITIAL * Pow(2, failures) <= CAP then INITIAL * Pow(2, failures) else CAP
  }

  /** The last report is younger than the backoff it left. */
  predicate Young(t: Story, now: real) {
    Elapsed(t.reportedAt, now) < BackoffAfter(t.failures) as real
  }

  function KeysIn(ops: seq<Op>): set<Key> {
    set op | op in ops :: op.key
  }

  /** The keys with a story. */
  function Known(max: nat, ops: seq<Op>): set<Key>
    decreases |ops|, 1
  {
    set k | k in KeysIn(ops) && Tell(max, ops, k).Some?
  }

  /** The known keys that a report of an unknown one leaves: all while there is room, otherwise the young. */
  function Survivors(max: nat, ops: seq<Op>, now: real): set<Key>
    decreases |ops|, 2
  {
    if |Known(max, ops)| < max then Known(max, ops)
    else set k | k in Known(max, ops) && Young(Tell(max, ops, k).value, now)
  }

  /**
   A key's story, from the operations alone. It begins with a report that finds the key unknown and room for it. It ends
   with a success on the key, or with a report of another unknown key at a full table once the key is no longer young.
   */
  function Tell(max: nat, ops: seq<Op>, key: Key): Option<Story>
    decreases |ops|, 0
  {
    if |ops| == 0 then None
    else
      var before, op := ops[..|ops| - 1], ops[|ops| - 1];
      var tale := Tell(max, before, key);
      match op
      case SuccessOp(k) => if k == key then None else tale
      case AllowOp(k, now) =>
        if k != key || tale.None? then tale
        else Some(tale.value.(probed := tale.value.probed || !Young(tale.value, now)))
      case LimitedOp(k, now) =>
        if k != key then
          if tale.Some? && k !in Known(max, before) && key !in Survivors(max, before, now) then None else tale
        else if tale.Some? then
          Some(Story(if tale.value.probed then tale.value.failures + 1 else tale.value.failures, now, false))
        else if |Survivors(max, before, now)| < max then Some(Story(0, now, false))
        else None
  }

  /** In numbers: 50 ms doubled k times, and 10 s from the eighth failed probe on. */
  lemma BackoffIs(k: nat)
    ensures BackoffAfter(k) == if k < 8 then 50 * Pow(2, k) else 10_000
    decreases k
  {
    if k < 8 {
      SmallPowers();
    } else if k == 8 {
      SmallPowers();
    } else {
      BackoffIs(k - 1);
      BackoffDoubles(k - 1);
    }
  }

  lemma SmallPowers()
    ensures Pow(2, 0) == 1 && Pow(2, 1) == 2 && Pow(2, 2) == 4 && Pow(2, 3) == 8 && Pow(2, 4) == 16
    ensures Pow(2, 5) == 32 && Pow(2, 6) == 64 && Pow(2, 7) == 128 && Pow(2, 8) == 256
  {
    PowZero(2);
    PowStep(2, 0);
    PowStep(2, 1);
    PowStep(2, 2);
    PowStep(2, 3);
    PowStep(2, 4);
    PowStep(2, 5);
    PowStep(2, 6);
    PowStep(2, 7);
  }

  lemma BackoffDoubles(failures: nat)
    ensures BackoffAfter(failures + 1)
         == if BackoffAfter(failures) * 2 <= CAP then BackoffAfter(failures) * 2 else CAP
  {
    PowStep(2, failures);
  }

  /** The circuit of a key and its story. */
  predicate Matches(c: Option<Circuit>, t: Option<Story>) {
    if t.None? then c.None?
    else c == Some(Circuit(BackoffAfter(t.value.failures), t.value.reportedAt, t.value.probed))
  }

  function CircuitOf(s: Circuits, key: Key): Option<Circuit> {
    if key in s then Some(s[key]) else None
  }

  ghost predicate Agrees(max: nat, ops: seq<Op>) {
    forall key :: Matches(CircuitOf(Run(max, ops), key), Tell(max, ops, key))
  }

  /** A key with a story occurs in the operations. */
  lemma {:induction false} KnownOccurs(max: nat, ops: seq<Op>, key: Key)
    requires Tell(max, ops, key).Some?
    ensures key in KeysIn(ops)
    decreases |ops|
  {
    hide Known, Survivors, Young;
    var before, op := ops[..|ops| - 1], ops[|ops| - 1];
    if op.key == key {
      assert op in ops;
    } else {
      KnownOccurs(max, before, key);
      assert forall x :: x in before ==> x in ops;
    }
  }

  lemma KnownKeys(max: nat, ops: seq<Op>)
    requires Agrees(max, ops)
    ensures Known(max, ops) == Run(max, ops).Keys
  {
    hide Run, Tell, KeysIn, BackoffAfter;
    forall key ensures key in Known(max, ops) <==> key in Run(max, ops) {
      assert Matches(CircuitOf(Run(max, ops), key), Tell(max, ops, key));
      if key in Run(max, ops) {
        KnownOccurs(max, ops, key);
      }
    }
  }

  lemma SurvivorKeys(max: nat, ops: seq<Op>, key: Key, now: real)
    requires Agrees(max, ops) && key !in Run(max, ops)
    ensures Survivors(max, ops, now) == AfterPrune(max, Run(max, ops), key, now).Keys
  {
    KnownKeys(max, ops);
    hide Run, Tell, Known, KeysIn, BackoffAfter;
    var s := Run(max, ops);
    forall k ensures k in Survivors(max, ops, now) <==> k in AfterPrune(max, s, key, now) {
      assert Matches(CircuitOf(s, k), Tell(max, ops, k));
    }
  }

  lemma AllowMatches(s: Circuits, tale: Option<Story>, key: Key, k: Key, now: real)
    requires Matches(CircuitOf(s, key), tale)
    ensures Matches(CircuitOf(Allow(s, k, now).0, key),
      if k != key || tale.None? then tale
      else Some(tale.value.(probed := tale.value.probed || !Young(tale.value, now))))
  {
    hide BackoffAfter;
  }

  lemma LimitedMatchesOwn(max: nat, s: Circuits, tale: Option<Story>, key: Key, now: real)
    requires Matches(CircuitOf(s, key), tale)
    ensures var u := RateLimited(max, s, key, now);
      Matches(CircuitOf(u, key),
        if tale.Some? then
          Some(Story(if tale.value.probed then tale.value.failures + 1 else tale.value.failures, now, false))
        else if |AfterPrune(max, s, key, now)| < max then Some(Story(0, now, false))
        else None)
  {
    hide BackoffAfter, Prune;
    FirstBackoff();
    if tale.Some? {
      BackoffDoubles(tale.value.failures);
    } else {
      PruneAddsNothing(s, now, key);
    }
  }

  lemma PruneAddsNothing(s: Circuits, now: real, key: Key)
    ensures key in Prune(s, now) ==> key in s && Prune(s, now)[key] == s[key]
  {
  }

  lemma LimitedLeavesOthers(max: nat, s: Circuits, key: Key, k: Key, now: real)
    requires k != key
    ensures CircuitOf(RateLimited(max, s, k, now), key)
         == if key in s && k !in s && key !in AfterPrune(max, s, k, now) then None else CircuitOf(s, key)
  {
    hide Expired;
  }

  lemma StepAgrees(max: nat, ops: seq<Op>, key: Key)
    requires |ops| > 0 && Agrees(max, ops[..|ops| - 1])
    ensures Matches(CircuitOf(Run(max, ops), key), Tell(max, ops, key))
  {
    var before, op := ops[..|ops| - 1], ops[|ops| - 1];
    var s, tale := Run(max, before), Tell(max, before, key);
    assert Matches(CircuitOf(s, key), tale);
    KnownKeys(max, before);
    hide Young, Known, Survivors, RateLimited, AfterPrune, Matches, Allow, Agrees;
    match op
    case SuccessOp(k) =>
      SuccessMatches(s, tale, key, k);
    case AllowOp(k, now) =>
      AllowMatches(s, tale, key, k, now);
    case LimitedOp(k, now) =>
      MatchesTracked(s, tale, key);
      if k == key {
        LimitedMatchesOwn(max, s, tale, key, now);
        if tale.None? {
          SurvivorKeys(max, before, key, now);
          SameSize(Survivors(max, before, now), AfterPrune(max, s, key, now));
        }
      } else {
        LimitedLeavesOthers(max, s, key, k, now);
        if k !in s {
          SurvivorKeys(max, before, k, now);
        }
        NoneMatches();
      }
  }

  lemma SameSize(keys: set<Key>, s: Circuits)
    requires keys == s.Keys
    ensures |keys| == |s|
  {
  }

  lemma NoneMatches()
    ensures Matches(None, None)
  {
  }

  lemma MatchesTracked(s: Circuits, tale: Option<Story>, key: Key)
    requires Matches(CircuitOf(s, key), tale)
    ensures key in s <==> tale.Some?
  {
    hide BackoffAfter;
  }

  lemma SuccessMatches(s: Circuits, tale: Option<Story>, key: Key, k: Key)
    requires Matches(CircuitOf(s, key), tale)
    ensures Matches(CircuitOf(s - {k}, key), if k == key then None else tale)
  {
    hide BackoffAfter;
  }

  lemma {:induction false} AllAgree(max: nat, ops: seq<Op>)
    ensures Agrees(max, ops)
    decreases |ops|
  {
    if |ops| == 0 {
      assert Run(max, ops) == map[];
    } else {
      AllAgree(max, ops[..|ops| - 1]);
      hide Run, Tell, Matches;
      forall key ensures Matches(CircuitOf(Run(max, ops), key), Tell(max, ops, key)) {
        StepAgrees(max, ops, key);
      }
    }
  }

  /**
   In every run a key is tracked exactly when the operations tell a story of it, and its circuit is that story: nothing
   but a success, or a report at a full table once its window is over, drops a circuit.
   */
  lemma CircuitTellsItsStory(max: nat, ops: seq<Op>, key: Key)
    ensures Matches(CircuitOf(Run(max, ops), key), Tell(max, ops, key))
    ensures Known(max, ops) == Run(max, ops).Keys
  {
    hide Run, Tell, Matches, Known;
    AllAgree(max, ops);
    KnownKeys(max, ops);
  }

  lemma FirstBackoff()
    ensures BackoffAfter(0) == INITIAL
  {
    PowZero(2);
  }

  /** A request is refused exactly when its circuit is tracked and its last report is younger than its backoff. */
  lemma RefusesExactly(max: nat, ops: seq<Op>, key: Key, now: real)
    ensures var t := Tell(max, ops, key);
      !Allow(Run(max, ops), key, now).1
      <==> t.Some? && Elapsed(t.value.reportedAt, now) < BackoffAfter(t.value.failures) as real
  {
    hide Run, Tell, Known, BackoffAfter;
    CircuitTellsItsStory(max, ops, key);
  }

  // ---------------------------------------------------------------- bounded

  lemma PruneIsSmaller(s: Circuits, now: real)
    ensures |Prune(s, now)| <= |s|
  {
    SubsetSize(Prune(s, now).Keys, s.Keys);
  }

  /** The table never outgrows its bound. */
  lemma {:induction false} RunIsBounded(max: nat, ops: seq<Op>)
    ensures |Run(max, ops)| <= max
    decreases |ops|
  {
    if |ops| > 0 {
      RunIsBounded(max, ops[..|ops| - 1]);
      StepIsBounded(max, Run(max, ops[..|ops| - 1]), ops[|ops| - 1]);
    }
  }

  lemma StepIsBounded(max: nat, s: Circuits, op: Op)
    requires |s| <= max
    ensures |Step(max, s, op)| <= max
  {
    match op
    case AllowOp(key, now) =>
      var t := Allow(s, key, now).0;
      assert t.Keys == s.Keys;
    case SuccessOp(key) =>
      SubsetSize((s - {key}).Keys, s.Keys);
    case LimitedOp(key, now) =>
      LimitedIsBounded(max, s, key, now);
  }

  lemma LimitedIsBounded(max: nat, s: Circuits, key: Key, now: real)
    requires |s| <= max
    ensures |RateLimited(max, s, key, now)| <= max
  {
    PruneIsSmaller(s, now);
    hide Prune;
    var t := AfterPrune(max, s, key, now);
    var u := RateLimited(max, s, key, now);
    if u != t && key !in t {
      assert u.Keys == t.Keys + {key};
    } else {
      assert u.Keys == t.Keys;
    }
  }

  /** Pruning forgets only circuits that would let the next request through anyway. */
  lemma PruneForgetsOnlyOpen(max: nat, s: Circuits, key: Key, now: real, other: Key, later: real)
    requires other in s && other != key && other !in RateLimited(max, s, key, now) && later >= now
    ensures Allow(s, other, later).1
  {
  }

  /**
   The notes say a half-open circuit lets one probe through. Until one of them reports, each of any number of requests
   is let through exactly when the window has passed at its own time, whatever passed before it.
   */
  lemma {:induction false} EveryProbePasses(s: Circuits, key: Key, times: seq<real>)
    requires key in s
    ensures forall i :: 0 <= i < |times| ==>
      (Allow(AllowAll(s, key, times[..i]), key, times[i]).1 <==> Expired(s[key], times[i]))
  {
    forall i | 0 <= i < |times|
      ensures Allow(AllowAll(s, key, times[..i]), key, times[i]).1 <==> Expired(s[key], times[i])
    {
      AllowKeepsWindow(s, key, times[..i]);
    }
  }

  function AllowAll(s: Circuits, key: Key, times: seq<real>): Circuits {
    if |times| == 0 then s else Allow(AllowAll(s, key, times[..|times| - 1]), key, times[|times| - 1]).0
  }

  lemma {:induction false} AllowKeepsWindow(s: Circuits, key: Key, times: seq<real>)
    requires key in s
    ensures var t := AllowAll(s, key, times);
      key in t && t[key].backoff == s[key].backoff && t[key].openedAt == s[key].openedAt
  {
    if |times| > 0 {
      AllowKeepsWindow(s, key, times[..|times| - 1]);
    }
  }

  // ---------------------------------------------------------------- the object

  class BackoffManager {
    const max: nat
    var circuits: map<Key, Circuit>

    constructor (max: nat)
      ensures this.max == max && circuits == map[]
    {
      this.max := max;
      circuits := map[];
    }

    method AllowRequest(exchange: Key, now: real) returns (allowed: bool)
      modifies this
      ensures (circuits, allowed) == Allow(old(circuits), exchange, now)
    {
      if exchange !in circuits {
        return true;
      }
      var state := circuits[exchange];
      if Elapsed(state.openedAt, now) >= state.backoff as real {
        circuits := circuits[exchange := state.(halfOpen := true)];
        allowed := true;
      } else {
        allowed := false;
      }
    }

    method ReportSuccess(exchange: Key)
      modifies this
      ensures circuits == Step(max, old(circuits), SuccessOp(exchange))
    {
      circuits := circuits - {exchange};
    }

    method ReportRateLimited(exchange: Key, now: real)
      modifies this
      ensures circuits == Step(max, old(circuits), LimitedOp(exchange, now))
      ensures old(|circuits|) <= max ==> |circuits| <= max
    {
      ghost var was := circuits;
      if |circuits| >= max && exchange !in circuits {
        circuits :=
          map k | k in circuits && Elapsed(circuits[k].openedAt, now) < circuits[k].backoff as real :: circuits[k];
        assert circuits == Prune(was, now);
        if |circuits| >= max {
          PruneIsSmaller(was, now);
          return;
        }
      }
      var state := if exchange in circuits then circuits[exchange] else Circuit(INITIAL, now, false);
      if state.halfOpen {
        state := state.(backoff := if state.backoff * 2 <= CAP then state.backoff * 2 else CAP);
      }
      circuits := circuits[exchange := state.(openedAt := now, halfOpen := false)];
      if |was| <= max {
        StepIsBounded(max, was, LimitedOp(exchange, now));
      }
    }
  }
}

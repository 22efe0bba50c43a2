/**
 The enclave's token-bucket rate limiter: a bounded table of buckets with first-in-first-out eviction, and a bounded
 queue of evicted ("ghost") buckets that are restored when their key returns. It is compared with the limiter it
 approximates: one token bucket per key, never evicted.
 */
module RateLimiter {
  import opened Wrappers
  import opened Clock
  import opened Listing

  type Key = string

  datatype Bucket = Bucket(tokens: real, lastRefill: real)

  /** Bucket size, refill per second (both u32 in the source) and the bound on tracked keys. */
  datatype Config = Config(capacity: nat, rate: nat, max: nat)

  datatype State = State(buckets: map<Key, Bucket>, order: seq<Key>, ghosts: map<Key, Bucket>, ghostOrder: seq<Key>)

  const EMPTY := State(map[], [], map[], [])

  // ---------------------------------------------------------------- one bucket

  function Full(c: Config, now: real): Bucket {
    Bucket(c.capacity as real, now)
  }

  /** What flows in during some time. */
  function Flow(rate: nat, d: real): real {
    rate as real * d
  }

  function Refilled(c: Config, b: Bucket, now: real): real {
    var t := b.tokens + Flow(c.rate, Elapsed(b.lastRefill, now));
    if t <= c.capacity as real then t else c.capacity as real
  }

  /** Refill, then take a token if there is a whole one. */
  function Spend(c: Config, b: Bucket, now: real): (Bucket, bool) {
    var t := Refilled(c, b, now);
    if t >= 1.0 then (Bucket(t - 1.0, now), true) else (Bucket(t, now), false)
  }

  // ---------------------------------------------------------------- one check

  /** Drop the oldest ghosts until the queue has room for one more. */
  function Prune(m: nat, ghosts: map<Key, Bucket>, ghostOrder: seq<Key>): (map<Key, Bucket>, seq<Key>)
    decreases |ghostOrder|
  {
    if |ghostOrder| >= m && |ghostOrder| > 0 then Prune(m, ghosts - {ghostOrder[0]}, ghostOrder[1..])
    else (ghosts, ghostOrder)
  }

  /** Must the oldest bucket go to make room for this key? */
  predicate Evicts(c: Config, s: State, key: Key) {
    key !in s.buckets && |s.buckets| >= c.max
  }

  function Evict(c: Config, s: State): State {
    if |s.order| == 0 then s
    else
      var oldest := s.order[0];
      if oldest !in s.buckets then s.(order := s.order[1..])
      else
        var (ghosts, ghostOrder) := Prune(c.max, s.ghosts, s.ghostOrder);
        State(s.buckets - {oldest}, s.order[1..], ghosts[oldest := s.buckets[oldest]], ghostOrder + [oldest])
  }

  function AfterEviction(c: Config, s: State, key: Key): State {
    if Evicts(c, s, key) then Evict(c, s) else s
  }

  /** Make the key live: restored from its ghost, or with a full bucket. */
  function Admit(c: Config, s: State, key: Key, now: real): (r: State)
    ensures key in r.buckets
  {
    if key in s.buckets then s
    else
      var t := AfterEviction(c, s, key);
      var b := if key in t.ghosts then t.ghosts[key] else Full(c, now);
      State(t.buckets[key := b], t.order + [key], t.ghosts - {key}, t.ghostOrder)
  }

  function Check(c: Config, s: State, key: Key, now: real): (State, bool) {
    var t := Admit(c, s, key, now);
    var (b, allowed) := Spend(c, t.buckets[key], now);
    (t.(buckets := t.buckets[key := b]), allowed)
  }

  // ---------------------------------------------------------------- the invariant of every reachable state

  ghost predicate TokensInRange(c: Config, buckets: map<Key, Bucket>) {
    forall k :: k in buckets ==> 0.0 <= buckets[k].tokens <= c.capacity as real
  }

  /** A live key's tombstone is dropped before the key can be evicted again. */
  ghost predicate TombstonesExpire(c: Config, s: State) {
    forall p, q :: 0 <= p < |s.ghostOrder| && 0 <= q < |s.order| && s.ghostOrder[p] == s.order[q]
      ==> |s.ghostOrder| - 1 - p + q >= c.max
  }

  ghost predicate Valid(c: Config, s: State) {
    && 0 < c.max
    && Lists(s.order, s.buckets.Keys)
    && |s.order| <= c.max
    && (s.ghostOrder != [] ==> |s.order| == c.max)
    && |s.ghostOrder| <= c.max
    && GhostsMatch(s)
    && TombstonesExpire(c, s)
    && TokensInRange(c, s.buckets) && TokensInRange(c, s.ghosts)
  }

  /** In a valid state pruning drops the front ghost of a full queue and nothing else. */
  lemma PruneOne(m: nat, ghosts: map<Key, Bucket>, ghostOrder: seq<Key>)
    requires 0 < m && |ghostOrder| <= m
    ensures Prune(m, ghosts, ghostOrder)
         == if |ghostOrder| == m then (ghosts - {ghostOrder[0]}, ghostOrder[1..]) else (ghosts, ghostOrder)
  {
  }

  /** A bounded queue after one more arrival. */
  function Pushed(m: nat, q: seq<Key>, x: Key): seq<Key> {
    (if |q| == m && m > 0 then q[1..] else q) + [x]
  }

  lemma PushedElements(m: nat, q: seq<Key>, x: Key)
    requires 0 < m && |q| <= m && NoDuplicates(q) && x !in q
    ensures NoDuplicates(Pushed(m, q, x))
    ensures forall k :: k in Pushed(m, q, x) <==> k == x || (k in q && !(|q| == m && k == q[0]))
  {
    forall k | k in q && !(|q| == m && k == q[0]) ensures k in Pushed(m, q, x) {
      var i :| 0 <= i < |q| && q[i] == k;
      assert Pushed(m, q, x)[if |q| == m then i - 1 else i] == k;
    }
    assert Pushed(m, q, x)[|Pushed(m, q, x)| - 1] == x;
  }

  /** Where the oldest live key goes, and what it pushes out. */
  ghost predicate Moved(c: Config, s: State, t: State) {
    && 0 < c.max == |s.order|
    && var oldest := s.order[0];
    && oldest in s.buckets && oldest !in s.ghostOrder
    && t.order == s.order[1..] && t.buckets == s.buckets - {oldest}
    && t.ghostOrder == Pushed(c.max, s.ghostOrder, oldest)
    && var kept := if |s.ghostOrder| == c.max then s.ghosts - {s.ghostOrder[0]} else s.ghosts;
    && t.ghosts == kept[oldest := s.buckets[oldest]]
  }

  lemma EvictMoves(c: Config, s: State)
    requires Valid(c, s) && |s.order| == c.max
    ensures Moved(c, s, Evict(c, s))
  {
    PruneOne(c.max, s.ghosts, s.ghostOrder);
    var oldest := s.order[0];
    assert oldest in s.order;
    forall p | 0 <= p < |s.ghostOrder| ensures s.ghostOrder[p] != oldest {
      assert |s.ghostOrder| - 1 - p + 0 < c.max;
    }
  }

  /** The ghost map and queue name the same keys, apart from tombstones of live keys. */
  ghost predicate GhostsMatch(s: State) {
    && NoDuplicates(s.ghostOrder)
    && (forall k :: k in s.ghosts <==> k in s.ghostOrder && k !in s.buckets)
  }

  /** Eviction leaves everything valid but one slot short. */
  ghost predicate Halfway(c: Config, s: State) {
    && 0 < c.max
    && Lists(s.order, s.buckets.Keys)
    && |s.order| == c.max - 1
    && 0 < |s.ghostOrder| <= c.max
    && GhostsMatch(s)
    && TombstonesExpire(c, s)
    && TokensInRange(c, s.buckets) && TokensInRange(c, s.ghosts)
  }

  lemma EvictHalfway(c: Config, s: State, t: State)
    requires Valid(c, s) && Moved(c, s, t)
    ensures Halfway(c, t)
  {
    EvictQueues(c, s, t);
    EvictTombstones(c, s, t);
    hide Lists, NoDuplicates, TombstonesExpire, GhostsMatch;
  }

  lemma EvictQueues(c: Config, s: State, t: State)
    requires Valid(c, s) && Moved(c, s, t)
    ensures Lists(t.order, t.buckets.Keys) && GhostsMatch(t)
  {
    PushedElements(c.max, s.ghostOrder, s.order[0]);
    TailLists(s.order, s.buckets.Keys);
    hide TombstonesExpire, TokensInRange, NoDuplicates, Lists, Pushed;
    assert t.buckets.Keys == s.buckets.Keys - {s.order[0]};
  }

  lemma EvictTombstones(c: Config, s: State, t: State)
    requires Valid(c, s) && Moved(c, s, t)
    ensures TombstonesExpire(c, t)
  {
    hide TokensInRange, GhostsMatch;
    forall p, q | 0 <= p < |t.ghostOrder| && 0 <= q < |t.order| && t.ghostOrder[p] == t.order[q]
      ensures |t.ghostOrder| - 1 - p + q >= c.max
    {
      assert s.order[q + 1] == t.order[q];
      assert s.order[q + 1] != s.order[0];
      var p' := if |s.ghostOrder| == c.max then p + 1 else p;
      assert p < |t.ghostOrder| - 1;
      assert s.ghostOrder[p'] == s.order[q + 1];
    }
  }

  lemma AdmitValid(c: Config, s: State, key: Key, now: real)
    requires Valid(c, s)
    ensures Valid(c, Admit(c, s, key, now))
  {
    if key !in s.buckets {
      ListsHaveSize(s.order, s.buckets.Keys);
      var b := if key in AfterEviction(c, s, key).ghosts then AfterEviction(c, s, key).ghosts[key] else Full(c, now);
      if |s.order| == c.max {
        EvictMoves(c, s);
        EvictHalfway(c, s, Evict(c, s));
        hide Evict, Valid;
        AppendKey(c, Evict(c, s), key, b);
      } else {
        AppendFresh(c, s, key, b);
      }
    }
  }

  lemma AppendKey(c: Config, t: State, key: Key, b: Bucket)
    requires Halfway(c, t) && key !in t.buckets && 0.0 <= b.tokens <= c.capacity as real
    requires t.ghostOrder[|t.ghostOrder| - 1] != key
    ensures Valid(c, State(t.buckets[key := b], t.order + [key], t.ghosts - {key}, t.ghostOrder))
  {
    var r := State(t.buckets[key := b], t.order + [key], t.ghosts - {key}, t.ghostOrder);
    AppendLists(t.order, t.buckets.Keys, key);
    assert t.buckets[key := b].Keys == t.buckets.Keys + {key};
    assert TombstonesExpire(c, r) by {
      forall p, q | 0 <= p < |r.ghostOrder| && 0 <= q < |r.order| && r.ghostOrder[p] == r.order[q]
        ensures |r.ghostOrder| - 1 - p + q >= c.max
      {
        // The newcomer's own tombstone is not the ghost pushed last.
        if q == |t.order| {
          assert p < |t.ghostOrder| - 1;
        } else {
          assert t.ghostOrder[p] == t.order[q];
        }
      }
    }
  }

  lemma AppendFresh(c: Config, s: State, key: Key, b: Bucket)
    requires Valid(c, s) && key !in s.buckets && |s.order| < c.max && 0.0 <= b.tokens <= c.capacity as real
    ensures Valid(c, State(s.buckets[key := b], s.order + [key], s.ghosts - {key}, s.ghostOrder))
  {
    AppendLists(s.order, s.buckets.Keys, key);
    assert s.buckets[key := b].Keys == s.buckets.Keys + {key};
  }

  lemma SpendInRange(c: Config, b: Bucket, now: real)
    requires 0.0 <= b.tokens <= c.capacity as real
    ensures 0.0 <= Spend(c, b, now).0.tokens <= c.capacity as real
  {
    FlowNotNegative(c.rate, Elapsed(b.lastRefill, now));
    hide Flow, Elapsed;
  }

  /** Every check keeps the invariant. */
  lemma CheckValid(c: Config, s: State, key: Key, now: real)
    requires Valid(c, s)
    ensures Valid(c, Check(c, s, key, now).0)
  {
    hide Admit, Spend;
    AdmitValid(c, s, key, now);
    var t := Admit(c, s, key, now);
    SpendInRange(c, t.buckets[key], now);
    assert t.buckets[key := Spend(c, t.buckets[key], now).0].Keys == t.buckets.Keys;
  }

  // ---------------------------------------------------------------- how long a key is remembered

  /** What is known about a key, live or ghost. */
  function Tracked(s: State, k: Key): Option<Bucket> {
    if k in s.buckets then Some(s.buckets[k]) else if k in s.ghosts then Some(s.ghosts[k]) else None
  }

  /** Evictions of other keys that a tracked key outlives. */
  ghost function Life(c: Config, s: State, k: Key): nat
    requires Valid(c, s) && Tracked(s, k).Some?
  {
    if k in s.buckets then IndexOf(s.order, k) + c.max
    else c.max - |s.ghostOrder| + IndexOf(s.ghostOrder, k)
  }

  /** What is left of a key's life, read off the queues of a state on either side of an eviction. */
  ghost predicate Outlives(c: Config, t: State, k: Key, left: int) {
    if k in t.buckets then k in t.order && IndexOf(t.order, k) + c.max == left
    else k in t.ghostOrder && c.max - |t.ghostOrder| + IndexOf(t.ghostOrder, k) == left
  }

  lemma EvictLive(c: Config, s: State, t: State, k: Key)
    requires Valid(c, s) && Moved(c, s, t) && k in s.buckets
    ensures Tracked(t, k) == Tracked(s, k)
    ensures Outlives(c, t, k, IndexOf(s.order, k) + c.max - 1)
  {
    EvictQueues(c, s, t);
    ValidParts(c, s);
    NoDuplicateGhosts(t);
    assert k in s.order;
    hide Valid, GhostsMatch, Lists, IndexOf, NoDuplicates;
    if s.order[0] == k {
      assert NoDuplicates(s.order) by { ListsOnce(s.order, s.buckets.Keys); }
      OldestBecomesGhost(c, s.order, s.ghostOrder, k);
      IndexIs(t.ghostOrder, k, |t.ghostOrder| - 1);
    } else {
      assert NoDuplicates(s.order) by { ListsOnce(s.order, s.buckets.Keys); }
      TailIndex(s.order, k);
    }
  }

  lemma ListsOnce(q: seq<Key>, keys: set<Key>)
    requires Lists(q, keys)
    ensures NoDuplicates(q)
  {
  }

  lemma OldestBecomesGhost(c: Config, order: seq<Key>, ghostOrder: seq<Key>, k: Key)
    requires |order| > 0 && order[0] == k && NoDuplicates(order)
    ensures IndexOf(order, k) == 0
    ensures var q := Pushed(c.max, ghostOrder, k); q[|q| - 1] == k
  {
  }

  lemma NoDuplicateGhosts(s: State)
    requires GhostsMatch(s)
    ensures NoDuplicates(s.ghostOrder)
  {
  }

  lemma TailIndex(q: seq<Key>, k: Key)
    requires NoDuplicates(q) && k in q && q[0] != k
    ensures k in q[1..] && IndexOf(q[1..], k) == IndexOf(q, k) - 1
  {
  }

  /** Pushing a new ghost moves the others one step toward the exit. */
  lemma GhostIndex(m: nat, q: seq<Key>, x: Key, k: Key)
    requires 0 < m && |q| <= m && NoDuplicates(q) && x !in q && k in q
    ensures var q' := Pushed(m, q, x);
      var left := m - |q| + IndexOf(q, k) - 1;
      && (left >= 0 ==> k in q' && m - |q'| + IndexOf(q', k) == left)
      && (left < 0 <==> |q| == m && q[0] == k)
  {
    var q' := Pushed(m, q, x);
    hide IndexOf;
    var p := IndexOf(q, k);
    if |q| < m {
      assert q'[p] == k;
      IndexIs(q', k, p);
    } else if p > 0 {
      assert q'[p - 1] == k;
      IndexIs(q', k, p - 1);
    }
  }

  lemma EvictGhost(c: Config, s: State, t: State, k: Key)
    requires Valid(c, s) && Moved(c, s, t) && k !in s.buckets && k in s.ghosts
    ensures var left := c.max - |s.ghostOrder| + IndexOf(s.ghostOrder, k) - 1;
      && Tracked(t, k) == (if left >= 0 then Tracked(s, k) else None)
      && (left >= 0 ==> Outlives(c, t, k, left))
  {
    hide TokensInRange, TombstonesExpire, IndexOf, NoDuplicates, Lists, Pushed;
    GhostIndex(c.max, s.ghostOrder, s.order[0], k);
  }

  /** One eviction costs a tracked key one unit of life; a key with none left is forgotten. */
  lemma EvictionCostsLife(c: Config, s: State, t: State, k: Key)
    requires Valid(c, s) && Moved(c, s, t) && Tracked(s, k).Some?
    ensures Tracked(t, k) == if Life(c, s, k) > 0 then Tracked(s, k) else None
    ensures Life(c, s, k) > 0 ==> Outlives(c, t, k, Life(c, s, k) - 1)
  {
    ValidParts(c, s);
    hide Outlives, IndexOf, Moved, Valid;
    if k in s.buckets {
      EvictLive(c, s, t, k);
    } else {
      EvictGhost(c, s, t, k);
    }
  }

  /** What a check of another key does to a tracked one. */
  lemma OtherCheck(c: Config, s: State, j: Key, now: real, k: Key)
    requires Valid(c, s) && j != k && Tracked(s, k).Some?
    ensures var t := Check(c, s, j, now).0;
      var left := Life(c, s, k) - (if Evicts(c, s, j) then 1 else 0);
      && Valid(c, t)
      && Tracked(t, k) == (if left >= 0 then Tracked(s, k) else None)
      && (left >= 0 ==> Life(c, t, k) == left)
  {
    CheckValid(c, s, j, now);
    ValidParts(c, s);
    CheckShape(c, s, j, now, k);
    LifeIsOutlives(c, s, k);
    var t, u := Check(c, s, j, now).0, AfterEviction(c, s, j);
    if Evicts(c, s, j) {
      ListsHaveSize(s.order, s.buckets.Keys);
      EvictMoves(c, s);
      EvictionCostsLife(c, s, u, k);
    }
    var left := Life(c, s, k) - (if Evicts(c, s, j) then 1 else 0);
    hide Valid, Check, AfterEviction, Evicts, Life, Moved, Lists;
    if left >= 0 {
      AppendedLife(c, u, t, j, k, left);
      LifeIsOutlives(c, t, k);
    }
  }

  /** A check, as seen by another key. */
  lemma CheckShape(c: Config, s: State, j: Key, now: real, k: Key)
    requires j != k
    ensures var t, u := Check(c, s, j, now).0, AfterEviction(c, s, j);
      && t.ghostOrder == u.ghostOrder
      && (t.order == u.order || t.order == u.order + [j])
      && Tracked(t, k) == Tracked(u, k)
      && (k in t.buckets <==> k in u.buckets)
  {
    hide Evict, Spend, Full;
  }

  lemma LifeIsOutlives(c: Config, s: State, k: Key)
    requires Valid(c, s) && Tracked(s, k).Some?
    ensures forall left :: Outlives(c, s, k, left) <==> left == Life(c, s, k)
  {
  }

  /** Admitting another key at the back moves no one. */
  lemma AppendedLife(c: Config, u: State, t: State, j: Key, k: Key, left: int)
    requires t.order == u.order || t.order == u.order + [j]
    requires t.ghostOrder == u.ghostOrder && (k in t.buckets <==> k in u.buckets)
    requires Outlives(c, u, k, left)
    ensures Outlives(c, t, k, left)
  {
    if k in u.buckets {
      IndexAppend(u.order, k, j);
    }
  }

  lemma ValidParts(c: Config, s: State)
    requires Valid(c, s)
    ensures |s.order| <= c.max && 0 < c.max && Lists(s.order, s.buckets.Keys)
    ensures s.ghostOrder != [] ==> |s.order| == c.max
  {
  }

  lemma ForgottenStaysForgotten(c: Config, s: State, j: Key, now: real, k: Key)
    requires Valid(c, s) && j != k && Tracked(s, k).None?
    ensures Tracked(Check(c, s, j, now).0, k).None?
  {
    ListsHaveSize(s.order, s.buckets.Keys);
    hide Spend;
    if Evicts(c, s, j) {
      EvictMoves(c, s);
    }
  }

  /** The bucket a check of k spends from, and what is remembered of k afterwards. */
  lemma OwnCheck(c: Config, s: State, k: Key, now: real)
    requires Valid(c, s)
    ensures var known := Tracked(AfterEviction(c, s, k), k);
      var spent := Spend(c, if known.Some? then known.value else Full(c, now), now);
      Check(c, s, k, now).1 == spent.1 && Tracked(Check(c, s, k, now).0, k) == Some(spent.0)
  {
    hide Evict, Spend;
    if Evicts(c, s, k) {
      ListsHaveSize(s.order, s.buckets.Keys);
      EvictMoves(c, s);
    }
  }

  /** A key just checked outlives at least max and at most 2 max - 1 evictions. */
  lemma LifeAfterCheck(c: Config, s: State, k: Key, now: real)
    requires Valid(c, s)
    ensures var t := Check(c, s, k, now).0;
      Valid(c, t) && k in t.buckets && c.max <= Life(c, t, k) <= 2 * c.max - 1
  {
    hide Spend, Admit;
    CheckValid(c, s, k, now);
    ValidParts(c, Check(c, s, k, now).0);
  }

  // ---------------------------------------------------------------- runs

  datatype Event = Event(key: Key, now: real)

  function Run(c: Config, s: State, events: seq<Event>): State
    decreases |events|
  {
    if |events| == 0 then s else Run(c, Check(c, s, events[0].key, events[0].now).0, events[1..])
  }

  /** The answers given to one key. */
  function Answers(c: Config, s: State, events: seq<Event>, k: Key): seq<bool>
    decreases |events|
  {
    if |events| == 0 then []
    else
      var (t, allowed) := Check(c, s, events[0].key, events[0].now);
      (if events[0].key == k then [allowed] else []) + Answers(c, t, events[1..], k)
  }

  function Evictions(c: Config, s: State, events: seq<Event>): nat
    decreases |events|
  {
    if |events| == 0 then 0
    else
      (if Evicts(c, s, events[0].key) then 1 else 0)
      + Evictions(c, Check(c, s, events[0].key, events[0].now).0, events[1..])
  }

  predicate Untouched(events: seq<Event>, k: Key) {
    forall i :: 0 <= i < |events| ==> events[i].key != k
  }

  lemma {:induction false} RunValid(c: Config, s: State, events: seq<Event>)
    requires Valid(c, s)
    ensures Valid(c, Run(c, s, events))
    decreases |events|
  {
    if |events| > 0 {
      CheckValid(c, s, events[0].key, events[0].now);
      RunValid(c, Check(c, s, events[0].key, events[0].now).0, events[1..]);
    }
  }

  /** Every state the limiter can reach is valid. */
  lemma ReachableValid(c: Config, events: seq<Event>)
    requires 0 < c.max
    ensures Valid(c, Run(c, EMPTY, events))
  {
    EmptyValid(c);
    RunValid(c, EMPTY, events);
  }

  lemma EmptyValid(c: Config)
    requires 0 < c.max
    ensures Valid(c, EMPTY)
  {
  }

  lemma {:induction false} ForgottenForGood(c: Config, s: State, events: seq<Event>, k: Key)
    requires Valid(c, s) && Tracked(s, k).None? && Untouched(events, k)
    ensures Tracked(Run(c, s, events), k).None?
    decreases |events|
  {
    hide Check, Valid, Tracked;
    if |events| > 0 {
      CheckValid(c, s, events[0].key, events[0].now);
      ForgottenStaysForgotten(c, s, events[0].key, events[0].now, k);
      ForgottenForGood(c, Check(c, s, events[0].key, events[0].now).0, events[1..], k);
    }
  }

  /**
   Exactly when a limited key gets a fresh bucket: checks of other keys, then the key again, find its state intact
   exactly when they evicted fewer times than the key's life.
   */
  lemma {:induction false} RememberedExactly(c: Config, s: State, events: seq<Event>, k: Key)
    requires Valid(c, s) && Tracked(s, k).Some? && Untouched(events, k)
    ensures var t := Run(c, s, events);
      Tracked(AfterEviction(c, t, k), k) == if Evictions(c, s, events) < Life(c, s, k) then Tracked(s, k) else None
    decreases |events|
  {
    if |events| == 0 {
      RememberedNow(c, s, k);
    } else {
      var j, now := events[0].key, events[0].now;
      var t := Check(c, s, j, now).0;
      OtherCheck(c, s, j, now, k);
      hide Valid, Check, Tracked, Life, AfterEviction, Evicts;
      if Tracked(t, k).Some? {
        RememberedExactly(c, t, events[1..], k);
      } else {
        ForgottenForGood(c, t, events[1..], k);
        var u := Run(c, t, events[1..]);
        RunValid(c, t, events[1..]);
        ForgottenAtCheck(c, u, k);
      }
    }
  }

  lemma RememberedNow(c: Config, s: State, k: Key)
    requires Valid(c, s) && Tracked(s, k).Some?
    ensures Tracked(AfterEviction(c, s, k), k) == if 0 < Life(c, s, k) then Tracked(s, k) else None
  {
    ValidParts(c, s);
    ListsHaveSize(s.order, s.buckets.Keys);
    if Evicts(c, s, k) {
      EvictMoves(c, s);
      hide Evict;
      EvictionCostsLife(c, s, Evict(c, s), k);
    }
  }

  lemma ForgottenAtCheck(c: Config, s: State, k: Key)
    requires Valid(c, s) && Tracked(s, k).None?
    ensures Tracked(AfterEviction(c, s, k), k).None?
  {
    ListsHaveSize(s.order, s.buckets.Keys);
    if Evicts(c, s, k) {
      EvictMoves(c, s);
      hide Evict;
    }
  }

  // ---------------------------------------------------------------- the limiter without a bound

  /** One bucket, never evicted: the answers to its checks. */
  function UnboundedAnswers(c: Config, known: Option<Bucket>, times: seq<real>): seq<bool>
    decreases |times|
  {
    if |times| == 0 then []
    else
      var (b, allowed) := Spend(c, if known.Some? then known.value else Full(c, times[0]), times[0]);
      [allowed] + UnboundedAnswers(c, Some(b), times[1..])
  }

  function TimesOf(events: seq<Event>, k: Key): seq<real> {
    if |events| == 0 then []
    else (if events[0].key == k then [events[0].now] else []) + TimesOf(events[1..], k)
  }

  /** The key's state is never dropped while it is tracked. */
  ghost predicate Kept(c: Config, s: State, events: seq<Event>, k: Key)
    decreases |events|
  {
    |events| > 0 ==>
      && (Tracked(s, k).Some? ==> Tracked(AfterEviction(c, s, events[0].key), k).Some?)
      && Kept(c, Check(c, s, events[0].key, events[0].now).0, events[1..], k)
  }

  /** While a key is kept, the bounded limiter answers it as the unbounded one does. */
  lemma {:induction false} AgreesWithUnbounded(c: Config, s: State, events: seq<Event>, k: Key)
    requires Valid(c, s) && Kept(c, s, events, k)
    ensures Answers(c, s, events, k) == UnboundedAnswers(c, Tracked(s, k), TimesOf(events, k))
    decreases |events|
  {
    if |events| > 0 {
      var j, now := events[0].key, events[0].now;
      var t := Check(c, s, j, now).0;
      CheckValid(c, s, j, now);
      AgreesWithUnbounded(c, t, events[1..], k);
      KeptStep(c, s, j, now, k);
      hide Valid, Check, AfterEviction, Spend, Full;
      var times := TimesOf(events[1..], k);
      assert TimesOf(events, k) == if j == k then [now] + times else times;
      if j == k {
        assert ([now] + times)[1..] == times;
      }
    }
  }

  lemma KeptStep(c: Config, s: State, j: Key, now: real, k: Key)
    requires Valid(c, s)
    requires Tracked(s, k).Some? ==> Tracked(AfterEviction(c, s, j), k).Some?
    ensures j != k ==> Tracked(Check(c, s, j, now).0, k) == Tracked(s, k)
    ensures j == k ==>
      var spent := Spend(c, if Tracked(s, k).Some? then Tracked(s, k).value else Full(c, now), now);
      Check(c, s, k, now).1 == spent.1 && Tracked(Check(c, s, k, now).0, k) == Some(spent.0)
  {
    if Tracked(s, k).Some? {
      assert Tracked(AfterEviction(c, s, j), k) == Tracked(s, k) by {
        if Evicts(c, s, j) {
          ListsHaveSize(s.order, s.buckets.Keys);
          EvictMoves(c, s);
          EvictionCostsLife(c, s, Evict(c, s), k);
        }
      }
    } else {
      AbsentAfterEviction(c, s, j, k);
    }
    if j != k {
      CheckShape(c, s, j, now, k);
    }
    OwnCheck(c, s, k, now);
    hide Valid, Check, AfterEviction, Spend;
  }

  lemma AbsentAfterEviction(c: Config, s: State, j: Key, k: Key)
    requires Valid(c, s) && Tracked(s, k).None?
    ensures Tracked(AfterEviction(c, s, j), k).None?
  {
    ListsHaveSize(s.order, s.buckets.Keys);
    if Evicts(c, s, j) {
      EvictMoves(c, s);
      hide Evict;
    }
  }

  // ---------------------------------------------------------------- the budget

  function Count(answers: seq<bool>): nat {
    if |answers| == 0 then 0 else (if answers[0] then 1 else 0) + Count(answers[1..])
  }

  /** Total forward movement of a clock over its readings. */
  function Forward(last: real, times: seq<real>): real
    decreases |times|
  {
    if |times| == 0 then 0.0 else Elapsed(last, times[0]) + Forward(times[0], times[1..])
  }

  lemma FlowIs(rate: nat, d: real)
    ensures Flow(rate, d) == rate as real * d
  {
  }

  /** A refill adds the rate times the time since the last one, up to the capacity; out of order it adds nothing. */
  lemma RefilledIs(c: Config, b: Bucket, now: real)
    ensures var d := if now >= b.lastRefill then now - b.lastRefill else 0.0;
      var t := b.tokens + c.rate as real * d;
      Refilled(c, b, now) == if t <= c.capacity as real then t else c.capacity as real
  {
    var d := if now >= b.lastRefill then now - b.lastRefill else 0.0;
    assert Elapsed(b.lastRefill, now) == d;
    FlowIs(c.rate, d);
    hide Flow, Elapsed;
  }

  lemma FlowAdds(rate: nat, d: real, e: real)
    ensures Flow(rate, d + e) == Flow(rate, d) + Flow(rate, e)
  {
  }

  lemma NoFlow(rate: nat)
    ensures Flow(rate, 0.0) == 0.0
  {
  }

  lemma FlowNotNegative(rate: nat, d: real)
    requires d >= 0.0
    ensures Flow(rate, d) >= 0.0
  {
  }

  /** A check only moves tokens from the refilled bucket, which the capacity caps, to its answer. */
  lemma SpendConserves(c: Config, b: Bucket, now: real)
    ensures var (b', allowed) := Spend(c, b, now);
      && (if allowed then 1.0 else 0.0) + b'.tokens == Refilled(c, b, now)
      && b'.lastRefill == now && (b.tokens >= 0.0 ==> b'.tokens >= 0.0)
    ensures Refilled(c, b, now) <= c.capacity as real
    ensures Refilled(c, b, now) <= b.tokens + Flow(c.rate, Elapsed(b.lastRefill, now))
  {
    FlowNotNegative(c.rate, Elapsed(b.lastRefill, now));
    hide Flow, Elapsed;
  }

  /** From its first check on, a bucket hands out what it holds after that refill, plus what flows in afterwards. */
  lemma {:induction false} BucketBudget(c: Config, b: Bucket, times: seq<real>)
    requires b.tokens >= 0.0 && |times| > 0
    ensures Count(UnboundedAnswers(c, Some(b), times)) as real
         <= Refilled(c, b, times[0]) + Flow(c.rate, Forward(times[0], times[1..]))
    decreases |times|
  {
    hide Spend, Refilled, Elapsed, Flow;
    NoFlow(c.rate);
    var (b', allowed) := Spend(c, b, times[0]);
    SpendConserves(c, b, times[0]);
    var tail := times[1..];
    var rest := UnboundedAnswers(c, Some(b'), tail);
    assert ([allowed] + rest)[1..] == rest;
    if |tail| > 0 {
      BucketBudget(c, b', tail);
      SpendConserves(c, b', tail[0]);
      FlowAdds(c.rate, Elapsed(times[0], tail[0]), Forward(tail[0], tail[1..]));
    }
  }

  /** The bucket a tracked key starts from holds no negative tokens. */
  lemma TrackedInRange(c: Config, s: State, k: Key)
    requires Valid(c, s) && Tracked(s, k).Some?
    ensures Tracked(s, k).value.tokens >= 0.0
  {
  }

  lemma StartsFull(c: Config, times: seq<real>)
    requires |times| > 0
    ensures UnboundedAnswers(c, None, times) == UnboundedAnswers(c, Some(Full(c, times[0])), times)
  {
  }

  /**
   Over any span of any run in which a key is kept, from whatever state it starts, the requests allowed to the key never
   exceed the capacity plus the rate times the forward movement of its clock readings within the span.
   */
  lemma AllowedWithinBudget(c: Config, s: State, events: seq<Event>, k: Key)
    requires Valid(c, s) && Kept(c, s, events, k) && |TimesOf(events, k)| > 0
    ensures var times := TimesOf(events, k);
      Count(Answers(c, s, events, k)) as real <= c.capacity as real + c.rate as real * Forward(times[0], times)
  {
    hide Answers, Kept, TimesOf, Forward, Count, UnboundedAnswers, Valid, Tracked, Refilled, Flow;
    AgreesWithUnbounded(c, s, events, k);
    var times := TimesOf(events, k);
    var b := if Tracked(s, k).Some? then Tracked(s, k).value else Full(c, times[0]);
    if Tracked(s, k).Some? {
      TrackedInRange(c, s, k);
    }
    StartsFull(c, times);
    BucketBudget(c, b, times);
    SpendConserves(c, b, times[0]);
    ForwardFromFirst(times);
    FlowIs(c.rate, Forward(times[0], times));
  }

  lemma ForwardFromFirst(times: seq<real>)
    requires |times| > 0
    ensures Forward(times[0], times) == Forward(times[0], times[1..])
  {
  }

  predicate NeverBackwards(last: real, times: seq<real>) {
    |times| > 0 ==> last <= times[0] && forall i :: 0 < i < |times| ==> times[i - 1] <= times[i]
  }

  /** Forward movement is elapsed time exactly when the readings never run backwards; otherwise it is more. */
  lemma {:induction false} ForwardIsElapsed(last: real, times: seq<real>)
    requires |times| > 0
    ensures Forward(last, times) >= times[|times| - 1] - last
    ensures Forward(last, times) == times[|times| - 1] - last <==> NeverBackwards(last, times)
    decreases |times|
  {
    if |times| == 1 {
      assert Forward(times[0], times[1..]) == 0.0;
    } else {
      var rest := times[1..];
      ForwardIsElapsed(times[0], rest);
      BackwardsTail(last, times);
    }
  }

  lemma BackwardsTail(last: real, times: seq<real>)
    requires |times| > 1
    ensures NeverBackwards(last, times) <==> last <= times[0] && NeverBackwards(times[0], times[1..])
  {
    var rest := times[1..];
    if NeverBackwards(times[0], rest) {
      forall i | 0 < i < |times| ensures times[i - 1] <= times[i] {
        if i > 1 {
          assert rest[i - 2] <= rest[i - 1];
        }
      }
    }
    if NeverBackwards(last, times) {
      forall i | 0 < i < |rest| ensures rest[i - 1] <= rest[i] {
        assert times[i] <= times[i + 1];
      }
    }
  }

  /** A key alone in the events is never evicted. */
  lemma {:induction false} KeptAlone(c: Config, s: State, events: seq<Event>, k: Key)
    requires forall i :: 0 <= i < |events| ==> events[i].key == k
    requires k in s.buckets || Tracked(s, k).None?
    ensures Kept(c, s, events, k)
    decreases |events|
  {
    hide AfterEviction, Spend;
    if |events| > 0 {
      KeptAlone(c, Check(c, s, k, events[0].now).0, events[1..], k);
      if k in s.buckets {
        StaysWhenLive(c, s, k);
      }
    }
  }

  lemma StaysWhenLive(c: Config, s: State, k: Key)
    requires k in s.buckets
    ensures AfterEviction(c, s, k) == s
  {
  }

  function ReadingsOf(k: Key, times: seq<real>): seq<Event> {
    seq(|times|, i requires 0 <= i < |times| => Event(k, times[i]))
  }

  lemma {:induction false} TimesOfReadings(k: Key, times: seq<real>)
    ensures TimesOf(ReadingsOf(k, times), k) == times
  {
    if |times| > 0 {
      TimesOfReadings(k, times[1..]);
      assert ReadingsOf(k, times)[1..] == ReadingsOf(k, times[1..]);
    }
  }

  /**
   Readings taken before the lock is held can arrive out of order, and then elapsed time alone is no bound: five checks
   of one key that end at the reading they began with, at capacity one, are allowed three times, for every table size.
   */
  lemma BackwardsClockExceedsElapsed(max: nat, k: Key)
    requires 0 < max
    ensures Count(Answers(Config(1, 1, max), EMPTY, ReadingsOf(k, [1.0, 0.0, 1.0, 0.0, 1.0]), k)) == 3
  {
    hide Answers, Count, UnboundedAnswers, Kept, ReadingsOf, TimesOf, Spend, Check;
    var c, times := Config(1, 1, max), [1.0, 0.0, 1.0, 0.0, 1.0];
    EmptyValid(c);
    KeptReadings(c, k, times);
    AgreesWithUnbounded(c, EMPTY, ReadingsOf(k, times), k);
    TimesOfReadings(k, times);
    StartsFull(c, times);
    var late, early := Bucket(0.0, 1.0), Bucket(0.0, 0.0);
    SpendsAt(c, Full(c, 1.0), 1.0);
    SpendsAt(c, late, 0.0);
    SpendsAt(c, early, 1.0);
    OneMoreAnswer(c, Full(c, 1.0), times);
    assert times[1..] == [0.0, 1.0, 0.0, 1.0];
    OneMoreAnswer(c, late, [0.0, 1.0, 0.0, 1.0]);
    assert [0.0, 1.0, 0.0, 1.0][1..] == [1.0, 0.0, 1.0];
    OneMoreAnswer(c, early, [1.0, 0.0, 1.0]);
    assert [1.0, 0.0, 1.0][1..] == [0.0, 1.0];
    OneMoreAnswer(c, late, [0.0, 1.0]);
    assert [0.0, 1.0][1..] == [1.0];
    OneMoreAnswer(c, early, [1.0]);
    NoAnswers(c, late);
  }

  lemma KeptReadings(c: Config, k: Key, times: seq<real>)
    ensures Kept(c, EMPTY, ReadingsOf(k, times), k)
  {
    KeptAlone(c, EMPTY, ReadingsOf(k, times), k);
  }

  lemma SpendsAt(c: Config, b: Bucket, now: real)
    requires c.capacity == 1 && c.rate == 1
    ensures b == Full(c, 1.0) && now == 1.0 ==> Spend(c, b, now) == (Bucket(0.0, 1.0), true)
    ensures b == Bucket(0.0, 1.0) && now == 0.0 ==> Spend(c, b, now) == (Bucket(0.0, 0.0), false)
    ensures b == Bucket(0.0, 0.0) && now == 1.0 ==> Spend(c, b, now) == (Bucket(0.0, 1.0), true)
  {
  }

  lemma OneMoreAnswer(c: Config, b: Bucket, times: seq<real>)
    requires |times| > 0
    ensures var (b', allowed) := Spend(c, b, times[0]);
      Count(UnboundedAnswers(c, Some(b), times))
      == (if allowed then 1 else 0) + Count(UnboundedAnswers(c, Some(b'), times[1..]))
  {
    hide Spend;
    var (b', allowed) := Spend(c, b, times[0]);
    var rest := UnboundedAnswers(c, Some(b'), times[1..]);
    assert ([allowed] + rest)[1..] == rest;
  }

  lemma NoAnswers(c: Config, b: Bucket)
    ensures Count(UnboundedAnswers(c, Some(b), [])) == 0
  {
  }

  // ---------------------------------------------------------------- when elapsed time is a bound

  /** With readings that never run backwards, elapsed time is a bound: over any span, from whatever state it starts. */
  lemma AllowedWithinElapsed(c: Config, s: State, events: seq<Event>, k: Key)
    requires Valid(c, s) && Kept(c, s, events, k) && |TimesOf(events, k)| > 0
    requires NeverBackwards(TimesOf(events, k)[0], TimesOf(events, k))
    ensures var times := TimesOf(events, k);
      Count(Answers(c, s, events, k)) as real
      <= c.capacity as real + c.rate as real * (times[|times| - 1] - times[0])
  {
    hide Answers, Kept, Forward, Count, Valid, NeverBackwards, Flow;
    AllowedWithinBudget(c, s, events, k);
    var times := TimesOf(events, k);
    ForwardIsElapsed(times[0], times);
    FlowIs(c.rate, Forward(times[0], times));
    FlowIs(c.rate, times[|times| - 1] - times[0]);
  }

  /** The bucket after a sequence of checks, and how many of them it allowed. */
  function Spent(c: Config, b: Bucket, times: seq<real>): (Bucket, nat)
    decreases |times|
  {
    if |times| == 0 then (b, 0)
    else
      var (b', allowed) := Spend(c, b, times[0]);
      var (last, n) := Spent(c, b', times[1..]);
      (last, n + if allowed then 1 else 0)
  }

  lemma {:induction false} SpentCounts(c: Config, b: Bucket, times: seq<real>)
    ensures Count(UnboundedAnswers(c, Some(b), times)) == Spent(c, b, times).1
    decreases |times|
  {
    hide Spend;
    if |times| > 0 {
      OneMoreAnswer(c, b, times);
      SpentCounts(c, Spend(c, b, times[0]).0, times[1..]);
    }
  }

  lemma {:induction false} SpentSplits(c: Config, b: Bucket, xs: seq<real>, ys: seq<real>)
    ensures var (b', m) := Spent(c, b, xs);
      var (last, n) := Spent(c, b', ys);
      Spent(c, b, xs + ys) == (last, m + n)
    decreases |xs|
  {
    hide Spend;
    if |xs| == 0 {
      assert xs + ys == ys;
    } else {
      assert (xs + ys)[1..] == xs[1..] + ys;
      SpentSplits(c, Spend(c, b, xs[0]).0, xs[1..], ys);
    }
  }

  function Repeat(now: real, n: nat): seq<real> {
    if n == 0 then [] else [now] + Repeat(now, n - 1)
  }

  /** Every reading taken n times in a row. */
  function Stutter(times: seq<real>, n: nat): seq<real> {
    if |times| == 0 then [] else Repeat(times[0], n) + Stutter(times[1..], n)
  }

  /** A burst at one time takes out whole tokens only, and enough checks leave less than one. */
  lemma {:induction false} Burst(c: Config, b: Bucket, now: real, n: nat)
    requires b.lastRefill == now && 0.0 <= b.tokens <= c.capacity as real
    ensures var (b', m) := Spent(c, b, Repeat(now, n));
      && b'.lastRefill == now && m as real + b'.tokens == b.tokens && 0.0 <= b'.tokens
      && (b.tokens <= n as real ==> b'.tokens < 1.0)
    decreases n
  {
    if n > 0 {
      var b' := Spend(c, b, now).0;
      NoTimePasses(c, b);
      assert Repeat(now, n)[1..] == Repeat(now, n - 1);
      hide Refilled;
      Burst(c, b', now, n - 1);
    }
  }

  lemma NoTimePasses(c: Config, b: Bucket)
    requires b.tokens <= c.capacity as real
    ensures Refilled(c, b, b.lastRefill) == b.tokens
  {
  }

  /** A burst first refills the bucket. */
  lemma BurstRefills(c: Config, b: Bucket, now: real, n: nat)
    requires n > 0 && b.tokens >= 0.0
    ensures var full := Bucket(Refilled(c, b, now), now);
      0.0 <= full.tokens <= c.capacity as real && Spent(c, b, Repeat(now, n)) == Spent(c, full, Repeat(now, n))
  {
    SpendConserves(c, b, now);
    NoTimePasses(c, Bucket(Refilled(c, b, now), now));
    RefilledInRange(c, b, now);
    hide Refilled;
    assert Spend(c, b, now) == Spend(c, Bucket(Refilled(c, b, now), now), now);
    hide Spend;
  }

  lemma RefilledInRange(c: Config, b: Bucket, now: real)
    requires b.tokens >= 0.0
    ensures Refilled(c, b, now) >= 0.0
  {
    FlowNotNegative(c.rate, Elapsed(b.lastRefill, now));
    hide Flow, Elapsed;
  }

  lemma {:induction false} ForwardNotNegative(last: real, times: seq<real>)
    ensures Forward(last, times) >= 0.0
    decreases |times|
  {
    if |times| > 0 {
      ForwardNotNegative(times[0], times[1..]);
    }
  }

  lemma RefillUncapped(c: Config, b: Bucket, now: real)
    requires b.tokens + Flow(c.rate, Elapsed(b.lastRefill, now)) <= c.capacity as real
    ensures Refilled(c, b, now) == b.tokens + Flow(c.rate, Elapsed(b.lastRefill, now))
  {
    hide Flow, Elapsed;
  }

  /** A nearly empty bucket with room for all that flows in hands out all of it, but for a last fraction. */
  lemma {:induction false} Drained(c: Config, b: Bucket, times: seq<real>, n: nat)
    requires 0.0 <= b.tokens < 1.0 && n >= c.capacity
    requires c.capacity as real >= 1.0 + Flow(c.rate, Forward(b.lastRefill, times))
    ensures var (last, m) := Spent(c, b, Stutter(times, n));
      && 0.0 <= last.tokens < 1.0
      && m as real + last.tokens == b.tokens + Flow(c.rate, Forward(b.lastRefill, times))
    decreases |times|
  {
    if |times| == 0 {
      NoFlow(c.rate);
    } else {
      var now, rest := times[0], times[1..];
      var d, f := Elapsed(b.lastRefill, now), Forward(now, rest);
      ForwardNotNegative(now, rest);
      FlowAdds(c.rate, d, f);
      FlowNotNegative(c.rate, d);
      FlowNotNegative(c.rate, f);
      hide Flow, Elapsed, Refilled;
      RefillUncapped(c, b, now);
      BurstRefills(c, b, now, n);
      Burst(c, Bucket(Refilled(c, b, now), now), now, n);
      var (b', m) := Spent(c, b, Repeat(now, n));
      Drained(c, b', rest, n);
      SpentSplits(c, b, Repeat(now, n), Stutter(rest, n));
    }
  }

  /** A full bucket that is big enough hands out its capacity and all that flows in, but for a last fraction. */
  lemma DrainedFromFull(c: Config, times: seq<real>, n: nat)
    requires |times| > 0 && n >= c.capacity
    requires c.capacity as real >= 1.0 + c.rate as real * Forward(times[0], times)
    ensures Count(UnboundedAnswers(c, None, Stutter(times, n))) as real
      > c.capacity as real + c.rate as real * Forward(times[0], times) - 1.0
  {
    hide Forward, Flow, UnboundedAnswers, Count, Stutter;
    FlowIs(c.rate, Forward(times[0], times));
    DrainsFlow(c, times, n);
  }

  lemma DrainsFlow(c: Config, times: seq<real>, n: nat)
    requires |times| > 0 && n >= c.capacity
    requires c.capacity as real >= 1.0 + Flow(c.rate, Forward(times[0], times))
    ensures Count(UnboundedAnswers(c, None, Stutter(times, n))) as real
      > c.capacity as real + Flow(c.rate, Forward(times[0], times)) - 1.0
  {
    var now, rest := times[0], times[1..];
    ForwardFromFirst(times);
    ForwardNotNegative(now, rest);
    FlowNotNegative(c.rate, Forward(now, rest));
    hide Forward, Flow, Spent, UnboundedAnswers, Count;
    FirstOfStutter(times, n);
    StartsFull(c, Stutter(times, n));
    Burst(c, Full(c, now), now, n);
    var (b, m) := Spent(c, Full(c, now), Repeat(now, n));
    Drained(c, b, rest, n);
    SpentSplits(c, Full(c, now), Repeat(now, n), Stutter(rest, n));
    SpentCounts(c, Full(c, now), Stutter(times, n));
  }

  lemma FirstOfStutter(times: seq<real>, n: nat)
    requires |times| > 0 && n > 0
    ensures var st := Stutter(times, n);
      |st| > 0 && st[0] == times[0] && st == Repeat(times[0], n) + Stutter(times[1..], n)
  {
  }

  lemma {:induction false} ForwardOfRepeat(last: real, now: real, n: nat, rest: seq<real>)
    requires n > 0
    ensures Forward(last, Repeat(now, n) + rest) == Elapsed(last, now) + Forward(now, rest)
    decreases n
  {
    var s := Repeat(now, n) + rest;
    assert s[0] == now && s[1..] == Repeat(now, n - 1) + rest;
    if n == 1 {
      assert Repeat(now, 0) + rest == rest;
    } else {
      ForwardOfRepeat(now, now, n - 1, rest);
    }
  }

  /** Taking readings several times over moves the clock no further. */
  lemma {:induction false} ForwardOfStutter(last: real, times: seq<real>, n: nat)
    requires n > 0
    ensures Forward(last, Stutter(times, n)) == Forward(last, times)
    decreases |times|
  {
    if |times| > 0 {
      ForwardOfRepeat(last, times[0], n, Stutter(times[1..], n));
      ForwardOfStutter(times[0], times[1..], n);
    }
  }

  /** The requests a limiter allows one key, each reading taken n times. */
  function Allowed(c: Config, k: Key, times: seq<real>, n: nat): nat {
    Count(Answers(c, EMPTY, ReadingsOf(k, Stutter(times, n)), k))
  }

  lemma AllowedIsUnbounded(c: Config, k: Key, times: seq<real>, n: nat)
    requires 0 < c.max
    ensures Allowed(c, k, times, n) == Count(UnboundedAnswers(c, None, Stutter(times, n)))
  {
    hide Answers, Count, UnboundedAnswers, Kept, ReadingsOf, TimesOf, Stutter;
    EmptyValid(c);
    KeptReadings(c, k, Stutter(times, n));
    AgreesWithUnbounded(c, EMPTY, ReadingsOf(k, Stutter(times, n)), k);
    TimesOfReadings(k, Stutter(times, n));
  }

  /** This much time bounds what is allowed over these readings, whatever the capacity, the rate and the load. */
  ghost predicate Bounds(max: nat, k: Key, times: seq<real>, time: real) {
    forall capacity: nat, rate: nat, n: nat ::
      Allowed(Config(capacity, rate, max), k, times, n) as real <= capacity as real + rate as real * time
  }

  lemma StutteredBudget(c: Config, times: seq<real>, n: nat)
    requires |times| > 0 && n > 0
    ensures Count(UnboundedAnswers(c, None, Stutter(times, n))) as real
      <= c.capacity as real + Flow(c.rate, Forward(times[0], times))
  {
    FirstOfStutter(times, n);
    ForwardOfStutter(times[0], times, n);
    hide Forward, Stutter, UnboundedAnswers, Count, Refilled, Flow;
    var st := Stutter(times, n);
    StartsFull(c, st);
    BucketBudget(c, Full(c, times[0]), st);
    ForwardFromFirst(st);
    SpendConserves(c, Full(c, times[0]), times[0]);
  }

  lemma BoundHolds(c: Config, k: Key, times: seq<real>, n: nat, time: real)
    requires 0 < c.max && |times| > 0 && Forward(times[0], times) <= time
    ensures Allowed(c, k, times, n) as real <= c.capacity as real + c.rate as real * time
  {
    hide Forward, Stutter, UnboundedAnswers, Count, Allowed, Flow;
    AllowedIsUnbounded(c, k, times, n);
    ForwardNotNegative(times[0], times);
    FlowGrows(c.rate, Forward(times[0], times), time);
    FlowIs(c.rate, time);
    if n == 0 {
      NothingAllowed(c, times);
    } else {
      StutteredBudget(c, times, n);
    }
  }

  lemma {:induction false} NothingAllowed(c: Config, times: seq<real>)
    ensures Count(UnboundedAnswers(c, None, Stutter(times, 0))) == 0
  {
    if |times| > 0 {
      NothingAllowed(c, times[1..]);
      assert Repeat(times[0], 0) + Stutter(times[1..], 0) == Stutter(times[1..], 0);
    }
  }

  lemma FlowGrows(rate: nat, d: real, e: real)
    requires 0.0 <= d <= e
    ensures 0.0 <= Flow(rate, d) <= Flow(rate, e)
  {
  }

  /** A rate at which a surplus of time is worth a token, and a capacity that never caps. */
  lemma BoundFails(max: nat, k: Key, times: seq<real>, time: real) returns (c: Config)
    requires 0 < max && |times| > 0 && Forward(times[0], times) > time
    ensures c.max == max
    ensures Allowed(c, k, times, c.capacity) as real > c.capacity as real + c.rate as real * time
  {
    hide Flow, Forward, Allowed;
    c := FlowFails(max, k, times, time);
    FlowIs(c.rate, time);
  }

  lemma FlowFails(max: nat, k: Key, times: seq<real>, time: real) returns (c: Config)
    requires 0 < max && |times| > 0 && Forward(times[0], times) > time
    ensures c.max == max
    ensures Allowed(c, k, times, c.capacity) as real > c.capacity as real + Flow(c.rate, time)
  {
    var f := Forward(times[0], times);
    var rate := WorthOne(f - time);
    hide Flow, Forward, Allowed, UnboundedAnswers, Count, Stutter;
    var capacity := AtLeast(1.0 + Flow(rate, f));
    c := Config(capacity, rate, max);
    DrainsFlow(c, times, capacity);
    AllowedIsUnbounded(c, k, times, capacity);
    FlowAdds(rate, f - time, time);
    assert f - time + time == f;
  }

  lemma WorthOne(d: real) returns (rate: nat)
    requires d > 0.0
    ensures Flow(rate, d) >= 1.0
  {
    rate := AtLeast(1.0 / d);
    assert (1.0 / d) * d == 1.0;
    ProductGrows(1.0 / d, rate as real, d);
  }

  lemma ProductGrows(x: real, y: real, d: real)
    requires x <= y && d > 0.0
    ensures x * d <= y * d
  {
  }

  lemma AtLeast(x: real) returns (n: nat)
    ensures n as real >= x
  {
    n := if x <= 0.0 then 0 else x.Floor + 1;
  }

  /**
   Forward movement is the least time that bounds what is allowed: a given time does so for every capacity, rate and
   load exactly when the readings move forward no further than that.
   */
  lemma ForwardIsTheBound(max: nat, k: Key, times: seq<real>, time: real)
    requires 0 < max && |times| > 0
    ensures Bounds(max, k, times, time) <==> Forward(times[0], times) <= time
  {
    hide Forward, Allowed, Flow;
    if Forward(times[0], times) <= time {
      forall capacity: nat, rate: nat, n: nat
        ensures Allowed(Config(capacity, rate, max), k, times, n) as real <= capacity as real + rate as real * time
      {
        BoundHolds(Config(capacity, rate, max), k, times, n, time);
      }
    } else {
      var c := BoundFails(max, k, times, time);
      assert c == Config(c.capacity, c.rate, max);
    }
  }

  /** Elapsed time bounds what is allowed over a list of readings exactly when they never run backwards. */
  lemma ElapsedBoundsExactly(max: nat, k: Key, times: seq<real>)
    requires 0 < max && |times| > 0
    ensures Bounds(max, k, times, times[|times| - 1] - times[0]) <==> NeverBackwards(times[0], times)
  {
    hide Bounds, Forward, NeverBackwards;
    ForwardIsTheBound(max, k, times, times[|times| - 1] - times[0]);
    ForwardIsElapsed(times[0], times);
  }

  // ---------------------------------------------------------------- how many other keys reset a key

  function KeysOf(events: seq<Event>): (keys: set<Key>)
    ensures forall i :: 0 <= i < |events| ==> events[i].key in keys
    ensures forall x :: x in keys ==> exists i :: 0 <= i < |events| && events[i].key == x
  {
    set e | e in events :: e.key
  }

  /** Everything known of the key is lost by its next check, which is answered as its very first would be. */
  ghost predicate ResetAt(c: Config, s: State, k: Key) {
    && Tracked(AfterEviction(c, s, k), k).None?
    && forall now :: Check(c, s, k, now).1 == Spend(c, Full(c, now), now).1
  }

  lemma ForgottenIsReset(c: Config, s: State, k: Key)
    requires Valid(c, s) && Tracked(AfterEviction(c, s, k), k).None?
    ensures ResetAt(c, s, k)
  {
    hide Valid, Check, Spend, AfterEviction, Tracked;
    forall now ensures Check(c, s, k, now).1 == Spend(c, Full(c, now), now).1 {
      OwnCheck(c, s, k, now);
    }
  }

  /** The keys admitted last, in order: the tail of the insertion queue. */
  ghost predicate Newest(s: State, last: seq<Key>) {
    |last| <= |s.order| && s.order[|s.order| - |last|..] == last
  }

  /** What a check does to the insertion queue. */
  lemma CheckOrder(c: Config, s: State, j: Key, now: real)
    requires Valid(c, s)
    ensures var t := Check(c, s, j, now).0;
      t.order == if j in s.buckets then s.order else (if |s.order| == c.max then s.order[1..] else s.order) + [j]
    ensures Evicts(c, s, j) <==> j !in s.buckets && |s.order| == c.max
    ensures j in s.buckets <==> j in s.order
  {
    ListsHaveSize(s.order, s.buckets.Keys);
    if j !in s.buckets && |s.order| == c.max {
      EvictMoves(c, s);
    }
    hide Evict, Spend, Full;
  }

  lemma DistinctWithin(q: seq<Key>, keys: set<Key>)
    requires NoDuplicates(q) && forall x :: x in q ==> x in keys
    ensures |q| <= |keys|
  {
    var own := set x | x in q;
    ListsHaveSize(q, own);
    SubsetSize(own, keys);
  }

  lemma NewestIsDistinct(c: Config, s: State, last: seq<Key>)
    requires Valid(c, s) && Newest(s, last)
    ensures NoDuplicates(last) && forall x :: x in last ==> x in s.order
  {
  }

  /** A newcomer joins the newest; while those are few enough, no eviction reaches them. */
  lemma NewestGrows(c: Config, s: State, j: Key, now: real, last: seq<Key>, keys: set<Key>)
    requires Valid(c, s) && Newest(s, last) && j !in s.buckets
    requires (forall x :: x in last ==> x in keys) && j in keys && |keys| <= c.max
    ensures Newest(Check(c, s, j, now).0, last + [j])
  {
    NewestIsDistinct(c, s, last);
    CheckOrder(c, s, j, now);
    ValidParts(c, s);
    assert j !in last;
    FewerThan(last, j, keys);
    hide Valid, Check, NoDuplicates, Lists, Newest;
    JoinNewest(s, Check(c, s, j, now).0, c.max, last, j);
  }

  lemma FewerThan(q: seq<Key>, j: Key, keys: set<Key>)
    requires NoDuplicates(q) && j !in q && j in keys && forall x :: x in q ==> x in keys
    ensures |q| < |keys|
  {
    DistinctWithin(q + [j], keys);
  }

  lemma JoinNewest(s: State, t: State, max: nat, last: seq<Key>, j: Key)
    requires Newest(s, last) && |last| < max
    requires t.order == (if |s.order| == max then s.order[1..] else s.order) + [j]
    ensures Newest(t, last + [j])
  {
    var q := if |s.order| == max then s.order[1..] else s.order;
    assert q[|q| - |last|..] == last;
    assert t.order[|t.order| - |last| - 1..] == last + [j];
  }

  /** Admissions that found room, and those that evicted. */
  ghost function Admissions(c: Config, s: State, events: seq<Event>): int {
    Evictions(c, s, events) + |Run(c, s, events).order| - |s.order|
  }

  /** A key admitted now comes back only after max further admissions: few keys cannot evict often. */
  lemma {:induction false} EvictionsNeedKeys(c: Config, s: State, events: seq<Event>, last: seq<Key>, keys: set<Key>)
    requires Valid(c, s) && Newest(s, last) && |keys| <= c.max
    requires (forall x :: x in last ==> x in keys) && forall i :: 0 <= i < |events| ==> events[i].key in keys
    ensures |last| + Admissions(c, s, events) <= |keys|
    decreases |events|
  {
    hide Valid, Check, Evicts, Newest;
    if |events| == 0 {
      NewestIsDistinct(c, s, last);
      DistinctWithin(last, keys);
    } else {
      var j, now := events[0].key, events[0].now;
      var t := Check(c, s, j, now).0;
      CheckValid(c, s, j, now);
      CheckOrder(c, s, j, now);
      if j in s.buckets {
        assert Newest(t, last) by { SameNewest(s, t, last); }
        EvictionsNeedKeys(c, t, events[1..], last, keys);
      } else {
        NewestGrows(c, s, j, now, last, keys);
        EvictionsNeedKeys(c, t, events[1..], last + [j], keys);
      }
    }
  }

  lemma SameNewest(s: State, t: State, last: seq<Key>)
    requires Newest(s, last) && t.order == s.order
    ensures Newest(t, last)
  {
  }

  /** Only a full table evicts, and a full table stays full. */
  lemma {:induction false} EvictionFills(c: Config, s: State, events: seq<Event>)
    requires Valid(c, s)
    ensures |s.order| <= |Run(c, s, events).order|
    ensures Evictions(c, s, events) > 0 ==> |Run(c, s, events).order| >= c.max
    decreases |events|
  {
    hide Valid, Check, Evicts;
    if |events| > 0 {
      var j, now := events[0].key, events[0].now;
      CheckValid(c, s, j, now);
      CheckOrder(c, s, j, now);
      ValidParts(c, s);
      EvictionFills(c, Check(c, s, j, now).0, events[1..]);
    }
  }

  /**
   Fewer than max distinct other keys never reset a live key, however often they are checked; nor do max, unless the
   table is full and the key is its oldest.
   */
  lemma FewKeysNeverReset(c: Config, s: State, events: seq<Event>, k: Key)
    requires Valid(c, s) && k in s.buckets && Untouched(events, k)
    requires |KeysOf(events)| < c.max
      || (|KeysOf(events)| == c.max && (|s.order| < c.max || s.order[0] != k))
    ensures Tracked(AfterEviction(c, Run(c, s, events), k), k) == Tracked(s, k)
  {
    LiveLife(c, s, k);
    assert Newest(s, []);
    hide Valid, AfterEviction, Life, Evictions, Newest, Run;
    EvictionsNeedKeys(c, s, events, [], KeysOf(events));
    EvictionFills(c, s, events);
    RememberedExactly(c, s, events, k);
  }

  lemma LiveLife(c: Config, s: State, k: Key)
    requires Valid(c, s) && k in s.buckets
    ensures |s.order| > 0 && Life(c, s, k) >= c.max
    ensures Life(c, s, k) == c.max <==> s.order[0] == k
  {
    assert k in s.order;
  }

  /** No two of the checks are of one key. */
  predicate AllDifferent(events: seq<Event>) {
    forall i, j :: 0 <= i < j < |events| ==> events[i].key != events[j].key
  }

  /** At a full table every key that is not live evicts one that is. */
  lemma {:induction false} NewKeysEvict(c: Config, s: State, events: seq<Event>)
    requires Valid(c, s) && |s.order| == c.max && AllDifferent(events)
    requires forall i :: 0 <= i < |events| ==> events[i].key !in s.buckets
    ensures Evictions(c, s, events) == |events|
    decreases |events|
  {
    hide Valid, Check, Evicts;
    if |events| > 0 {
      var j, now := events[0].key, events[0].now;
      var t := Check(c, s, j, now).0;
      CheckValid(c, s, j, now);
      CheckOrder(c, s, j, now);
      ValidParts(c, s);
      forall i | 0 <= i < |events[1..]| ensures events[1..][i].key !in t.buckets {
        CheckOrder(c, s, events[i + 1].key, now);
        CheckOrder(c, t, events[i + 1].key, now);
      }
      NewKeysEvict(c, t, events[1..]);
    }
  }

  /** At a full table one pass over max new keys resets the oldest one. */
  lemma MaxKeysResetTheOldest(c: Config, s: State, events: seq<Event>, k: Key)
    requires Valid(c, s) && |s.order| == c.max && s.order[0] == k
    requires |events| == c.max && AllDifferent(events)
    requires forall i :: 0 <= i < |events| ==> events[i].key !in s.buckets
    ensures |KeysOf(events)| == c.max
    ensures ResetAt(c, Run(c, s, events), k)
  {
    OldestIsLive(c, s);
    LiveLife(c, s, k);
    KeysCounted(events);
    hide Valid, AfterEviction, Life, Evictions, Run, ResetAt, KeysOf, AllDifferent;
    NewKeysEvict(c, s, events);
    RememberedExactly(c, s, events, k);
    RunValid(c, s, events);
    ForgottenIsReset(c, Run(c, s, events), k);
  }

  lemma OldestIsLive(c: Config, s: State)
    requires Valid(c, s) && |s.order| > 0
    ensures s.order[0] in s.buckets
  {
    assert s.order[0] in s.order;
  }

  lemma KeysCounted(events: seq<Event>)
    requires AllDifferent(events)
    ensures |KeysOf(events)| == |events|
  {
    var q := seq(|events|, i requires 0 <= i < |events| => events[i].key);
    forall x | x in KeysOf(events) ensures x in q {
      var i :| 0 <= i < |events| && events[i].key == x;
      assert q[i] == x;
    }
    ListsHaveSize(q, KeysOf(events));
  }

  /** Without an admission, every key checked was live. */
  lemma {:induction false} NoAdmission(c: Config, s: State, events: seq<Event>)
    requires Valid(c, s)
    ensures Admissions(c, s, events) >= 0
    ensures Admissions(c, s, events) == 0 ==> forall i :: 0 <= i < |events| ==> events[i].key in s.order
    decreases |events|
  {
    hide Valid, Check, Evicts;
    if |events| > 0 {
      var j, now := events[0].key, events[0].now;
      var t, rest := Check(c, s, j, now).0, events[1..];
      CheckValid(c, s, j, now);
      CheckOrder(c, s, j, now);
      ValidParts(c, s);
      NoAdmission(c, t, rest);
      if Admissions(c, s, events) == 0 {
        forall i | 0 <= i < |events| ensures events[i].key in s.order {
          if i > 0 {
            assert rest[i - 1] == events[i];
          }
        }
      }
    }
  }

  /** More than max distinct keys cannot all be live: checking them admits one. */
  lemma RoundAdmits(c: Config, s: State, round: seq<Event>)
    requires Valid(c, s) && |KeysOf(round)| > c.max
    ensures Admissions(c, s, round) >= 1
  {
    NoAdmission(c, s, round);
    ValidParts(c, s);
    ListsHaveSize(s.order, s.buckets.Keys);
    hide Valid, Admissions;
    if Admissions(c, s, round) == 0 {
      forall x | x in KeysOf(round) ensures x in s.buckets.Keys {
        assert x in s.order;
      }
      SubsetSize(KeysOf(round), s.buckets.Keys);
    }
  }

  function Cycle(round: seq<Event>, n: nat): seq<Event> {
    if n == 0 then [] else round + Cycle(round, n - 1)
  }

  lemma {:induction false} RunSplits(c: Config, s: State, a: seq<Event>, b: seq<Event>)
    ensures Run(c, s, a + b) == Run(c, Run(c, s, a), b)
    ensures Evictions(c, s, a + b) == Evictions(c, s, a) + Evictions(c, Run(c, s, a), b)
    decreases |a|
  {
    hide Check, Evicts;
    if |a| == 0 {
      assert a + b == b;
    } else {
      assert (a + b)[1..] == a[1..] + b;
      RunSplits(c, Check(c, s, a[0].key, a[0].now).0, a[1..], b);
    }
  }

  lemma {:induction false} CyclesAdmit(c: Config, s: State, round: seq<Event>, n: nat)
    requires Valid(c, s) && |KeysOf(round)| > c.max
    ensures Admissions(c, s, Cycle(round, n)) >= n
    decreases n
  {
    hide Valid, KeysOf, Run, Evictions;
    if n == 0 {
      NoAdmission(c, s, []);
    } else {
      RoundAdmits(c, s, round);
      RunValid(c, s, round);
      CyclesAdmit(c, Run(c, s, round), round, n - 1);
      RunSplits(c, s, round, Cycle(round, n - 1));
    }
  }

  lemma {:induction false} CycleKeys(round: seq<Event>, n: nat, k: Key)
    requires Untouched(round, k)
    ensures Untouched(Cycle(round, n), k)
    ensures n > 0 ==> KeysOf(Cycle(round, n)) == KeysOf(round)
  {
    if n > 0 {
      CycleKeys(round, n - 1, k);
      if n == 1 {
        assert Cycle(round, 1) == round;
      } else {
        assert forall e :: e in Cycle(round, n) <==> e in round || e in Cycle(round, n - 1);
        assert KeysOf(Cycle(round, n)) == KeysOf(round) + KeysOf(Cycle(round, n - 1));
      }
    }
  }

  /** From any state, cycling through max + 1 distinct other keys, at whatever times, resets every other key. */
  lemma OneMoreKeyResets(c: Config, s: State, round: seq<Event>, k: Key)
    requires Valid(c, s) && |KeysOf(round)| == c.max + 1 && Untouched(round, k)
    ensures KeysOf(Cycle(round, 3 * c.max)) == KeysOf(round)
    ensures ResetAt(c, Run(c, s, Cycle(round, 3 * c.max)), k)
  {
    var events := Cycle(round, 3 * c.max);
    ValidParts(c, s);
    CycleKeys(round, 3 * c.max, k);
    CyclesAdmit(c, s, round, 3 * c.max);
    RunValid(c, s, events);
    var t := Run(c, s, events);
    ValidParts(c, t);
    if Tracked(s, k).Some? {
      LifeIsShort(c, s, k);
      hide Valid, AfterEviction, Life, KeysOf, Cycle, Run, ResetAt;
      RememberedExactly(c, s, events, k);
      ForgottenIsReset(c, t, k);
    } else {
      ForgottenForGood(c, s, events, k);
      ForgottenAtCheck(c, t, k);
      ForgottenIsReset(c, t, k);
    }
  }

  lemma LifeIsShort(c: Config, s: State, k: Key)
    requires Valid(c, s) && Tracked(s, k).Some?
    ensures Life(c, s, k) < |s.order| + c.max
  {
    if k in s.buckets {
      assert k in s.order;
    }
  }

  /** A length that none of these strings reaches. */
  lemma {:induction false} LongerThanAll(avoid: set<Key>) returns (n: nat)
    ensures forall x :: x in avoid ==> |x| < n
  {
    n := 0;
    if avoid != {} {
      var x :| x in avoid;
      var m := LongerThanAll(avoid - {x});
      n := m + |x| + 1;
    }
  }

  /** There are always more keys: one check each of n keys that are not among the given ones. */
  lemma {:induction false} NewKeys(avoid: set<Key>, n: nat) returns (events: seq<Event>)
    ensures |events| == n && AllDifferent(events)
    ensures forall i :: 0 <= i < n ==> events[i].key !in avoid
    decreases n
  {
    events := [];
    if n > 0 {
      var long := LongerThanAll(avoid);
      var key: Key := seq(long, _ => 'a');
      assert key !in avoid;
      var rest := NewKeys(avoid + {key}, n - 1);
      events := [Event(key, 0.0)] + rest;
      forall i | 0 <= i < n ensures events[i].key !in avoid && (i > 0 ==> events[i].key != key) {
        if i > 0 {
          assert events[i] == rest[i - 1];
        }
      }
      forall i, j | 0 <= i < j < n ensures events[i].key != events[j].key {
        if i > 0 {
          assert events[i] == rest[i - 1] && events[j] == rest[j - 1];
        }
      }
    }
  }

  /** Some run of checks of at most n distinct other keys resets the key. */
  ghost predicate ResetBy(c: Config, s: State, k: Key, n: nat) {
    exists events :: Untouched(events, k) && |KeysOf(events)| <= n && ResetAt(c, Run(c, s, events), k)
  }

  /**
   How many distinct other keys it takes to reset a live key: the table size when the table is full and the key its
   oldest, one more otherwise, and not, as the module's notes have it, twice the table size.
   */
  lemma KeysToReset(c: Config, s: State, k: Key, n: nat)
    requires Valid(c, s) && k in s.buckets
    ensures ResetBy(c, s, k, n) <==> n > c.max || (n == c.max && |s.order| == c.max && s.order[0] == k)
  {
    LiveLife(c, s, k);
    if n > c.max {
      ResetByOneMore(c, s, k, n);
    } else if n == c.max && |s.order| == c.max && s.order[0] == k {
      ResetOldest(c, s, k);
    } else {
      hide Valid, ResetAt, Run, KeysOf;
      forall events | Untouched(events, k) && |KeysOf(events)| <= n ensures !ResetAt(c, Run(c, s, events), k) {
        FewKeysNeverReset(c, s, events, k);
        StillKnown(c, Run(c, s, events), k);
      }
    }
  }

  lemma StillKnown(c: Config, s: State, k: Key)
    requires Tracked(AfterEviction(c, s, k), k).Some?
    ensures !ResetAt(c, s, k)
  {
    hide Check, AfterEviction, Spend;
  }

  lemma ResetByOneMore(c: Config, s: State, k: Key, n: nat)
    requires Valid(c, s) && n > c.max
    ensures ResetBy(c, s, k, n)
  {
    var round := NewKeys({k}, c.max + 1);
    KeysCounted(round);
    assert Untouched(round, k);
    hide Valid, ResetAt, Run, KeysOf, Cycle, AllDifferent;
    OneMoreKeyResets(c, s, round, k);
    CycleKeys(round, 3 * c.max, k);
  }

  lemma ResetOldest(c: Config, s: State, k: Key)
    requires Valid(c, s) && |s.order| == c.max && s.order[0] == k
    ensures ResetBy(c, s, k, c.max)
  {
    OldestIsLive(c, s);
    var events := NewKeys(s.buckets.Keys, c.max);
    assert Untouched(events, k);
    hide Valid, ResetAt, Run, KeysOf, AllDifferent;
    MaxKeysResetTheOldest(c, s, events, k);
  }

  // ---------------------------------------------------------------- the object

  class Limiter {
    const config: Config
    var buckets: map<Key, Bucket>
    var insertionOrder: seq<Key>
    var ghosts: map<Key, Bucket>
    var ghostOrder: seq<Key>

    ghost function Abstract(): State
      reads this
    {
      State(buckets, insertionOrder, ghosts, ghostOrder)
    }

    constructor (c: Config)
      requires 0 < c.max
      ensures config == c && Abstract() == EMPTY && Valid(config, Abstract())
    {
      config := c;
      buckets, insertionOrder, ghosts, ghostOrder := map[], [], map[], [];
    }

    method TryConsume(key: Key, now: real) returns (allowed: bool)
      requires Valid(config, Abstract())
      modifies this
      ensures Valid(config, Abstract())
      ensures (Abstract(), allowed) == Check(config, old(Abstract()), key, now)
    {
      CheckValid(config, Abstract(), key, now);
      hide Valid;
      if key !in buckets {
        if |buckets| >= config.max {
          EvictOldest();
        }
        var bucket := if key in ghosts then ghosts[key] else Full(config, now);
        ghosts := ghosts - {key};
        insertionOrder := insertionOrder + [key];
        buckets := buckets[key := bucket];
      }
      var (b, ok) := Spend(config, buckets[key], now);
      buckets := buckets[key := b];
      allowed := ok;
    }

    method EvictOldest()
      modifies this
      ensures Abstract() == Evict(config, old(Abstract()))
    {
      if |insertionOrder| > 0 {
        var oldest := insertionOrder[0];
        insertionOrder := insertionOrder[1..];
        if oldest in buckets {
          var evicted := buckets[oldest];
          buckets := buckets - {oldest};
          ghost var pruned := Prune(config.max, ghosts, ghostOrder);
          while |ghostOrder| >= config.max && |ghostOrder| > 0
            invariant Prune(config.max, ghosts, ghostOrder) == pruned
            invariant buckets == old(buckets) - {oldest} && insertionOrder == old(insertionOrder)[1..]
            decreases |ghostOrder|
          {
            var stale := ghostOrder[0];
            ghostOrder := ghostOrder[1..];
            ghosts := ghosts - {stale};
          }
          ghosts := ghosts[oldest := evicted];
          ghostOrder := ghostOrder + [oldest];
        }
      }
    }
  }
}

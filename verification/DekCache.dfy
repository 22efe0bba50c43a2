/**
 The data-key cache: a map with time-to-live, bounded by least-recently-used eviction. It is compared with the plain map
 of latest puts.
 */
module DekCache {
  import opened Wrappers
  import opened Clock
  import opened Listing

  type Key = Bytes

  const MAX_ENTRIES_CEILING := 1024

  datatype Entry = Entry(dek: Bytes, inserted: real)

  /** Time-to-live in seconds (zero disables the cache) and the bound on entries. */
  datatype Config = Config(ttl: nat, max: nat)

  datatype State = State(entries: map<Key, Entry>, order: seq<Key>)

  const EMPTY := State(map[], [])

  datatype Op = Get(key: Key, now: real) | Put(key: Key, dek: Bytes, now: real) | Flush

  function Clamp(max: nat): (m: nat)
    ensures 1 <= m <= 1024 && (1 <= max <= 1024 ==> m == max)
    ensures (max < 1 ==> m == 1) && (max > 1024 ==> m == 1024)
  {
    if max < 1 then 1 else if max > MAX_ENTRIES_CEILING then MAX_ENTRIES_CEILING else max
  }

  predicate Expired(c: Config, e: Entry, now: real) {
    Elapsed(e.inserted, now) >= c.ttl as real
  }

  predicate Hits(c: Config, s: State, key: Key, now: real) {
    c.ttl > 0 && key in s.entries && !Expired(c, s.entries[key], now)
  }

  /** Move to the most-recently-used end. */
  function Touch(order: seq<Key>, key: Key): seq<Key> {
    Without(order, key) + [key]
  }

  function GetStep(c: Config, s: State, key: Key, now: real): (State, Option<Bytes>) {
    if c.ttl == 0 || key !in s.entries then (s, None)
    else if Expired(c, s.entries[key], now) then (State(s.entries - {key}, Without(s.order, key)), None)
    else (s.(order := Touch(s.order, key)), Some(s.entries[key].dek))
  }

  /** Drop least-recently-used entries until within the bound. */
  function EvictTo(max: nat, s: State): State
    decreases |s.order|
  {
    if |s.entries| > max && |s.order| > 0 then EvictTo(max, State(s.entries - {s.order[0]}, s.order[1..])) else s
  }

  function Inserted(s: State, key: Key, e: Entry): State {
    State(s.entries[key := e], (if key in s.entries then Without(s.order, key) else s.order) + [key])
  }

  function PutStep(c: Config, s: State, key: Key, dek: Bytes, now: real): State {
    if c.ttl == 0 then s else EvictTo(c.max, Inserted(s, key, Entry(dek, now)))
  }

  function Step(c: Config, s: State, op: Op): State {
    match op
    case Get(key, now) => GetStep(c, s, key, now).0
    case Put(key, dek, now) => PutStep(c, s, key, dek, now)
    case Flush => EMPTY
  }

  function Run(c: Config, s: State, ops: seq<Op>): State
    decreases |ops|
  {
    if |ops| == 0 then s else Run(c, Step(c, s, ops[0]), ops[1..])
  }

  // ---------------------------------------------------------------- invariant

  ghost predicate Valid(c: Config, s: State) {
    0 < c.max && Lists(s.order, s.entries.Keys) && |s.order| <= c.max
  }

  /** Insertion may overshoot the bound by one; the least recently used entry makes up for it. */
  lemma EvictOne(c: Config, s: State)
    requires 0 < c.max && Lists(s.order, s.entries.Keys) && |s.order| <= c.max + 1
    ensures EvictTo(c.max, s)
         == if |s.order| == c.max + 1 then State(s.entries - {s.order[0]}, s.order[1..]) else s
    ensures Valid(c, EvictTo(c.max, s))
  {
    ListsHaveSize(s.order, s.entries.Keys);
    if |s.order| == c.max + 1 {
      TailLists(s.order, s.entries.Keys);
      var t := State(s.entries - {s.order[0]}, s.order[1..]);
      assert t.entries.Keys == s.entries.Keys - {s.order[0]};
      ListsHaveSize(t.order, t.entries.Keys);
    }
  }

  lemma TouchLists(order: seq<Key>, keys: set<Key>, key: Key)
    requires Lists(order, keys)
    ensures Lists(Touch(order, key), keys + {key})
  {
    WithoutLists(order, keys, key);
    AppendLists(Without(order, key), keys - {key}, key);
    assert keys - {key} + {key} == keys + {key};
  }

  lemma InsertedLists(c: Config, s: State, key: Key, e: Entry)
    requires Valid(c, s)
    ensures var t := Inserted(s, key, e);
      t.order == Touch(s.order, key) && Lists(t.order, t.entries.Keys) && |t.order| <= c.max + 1
  {
    TouchLists(s.order, s.entries.Keys, key);
    assert s.entries[key := e].Keys == s.entries.Keys + {key};
  }

  lemma GetValid(c: Config, s: State, key: Key, now: real)
    requires Valid(c, s)
    ensures Valid(c, GetStep(c, s, key, now).0)
  {
    if key in s.entries {
      WithoutLists(s.order, s.entries.Keys, key);
      TouchLists(s.order, s.entries.Keys, key);
      assert key in s.order;
      hide Expired, Lists;
      assert s.entries.Keys + {key} == s.entries.Keys;
      assert (s.entries - {key}).Keys == s.entries.Keys - {key};
    }
  }

  lemma PutValid(c: Config, s: State, key: Key, dek: Bytes, now: real)
    requires Valid(c, s)
    ensures Valid(c, PutStep(c, s, key, dek, now))
  {
    hide Lists, EvictTo;
    InsertedLists(c, s, key, Entry(dek, now));
    EvictOne(c, Inserted(s, key, Entry(dek, now)));
  }

  lemma StepValid(c: Config, s: State, op: Op)
    requires Valid(c, s)
    ensures Valid(c, Step(c, s, op))
  {
    hide GetStep, PutStep;
    match op
    case Get(key, now) => GetValid(c, s, key, now);
    case Put(key, dek, now) => PutValid(c, s, key, dek, now);
    case Flush =>
  }

  /** In every reachable state the order is a permutation of the keys and the bound holds. */
  lemma {:induction false} RunValid(c: Config, s: State, ops: seq<Op>)
    requires Valid(c, s)
    ensures Valid(c, Run(c, s, ops)) && |Run(c, s, ops).entries| <= c.max
    decreases |ops|
  {
    if |ops| == 0 {
      ListsHaveSize(s.order, s.entries.Keys);
      assert |s.entries.Keys| == |s.entries|;
    } else {
      StepValid(c, s, ops[0]);
      RunValid(c, Step(c, s, ops[0]), ops[1..]);
    }
  }

  // ---------------------------------------------------------------- refinement of the map of latest puts

  /** Every key's latest put since the last flush. */
  function Latest(m: map<Key, Entry>, ops: seq<Op>): map<Key, Entry>
    decreases |ops|
  {
    if |ops| == 0 then m else Latest(Recorded(m, ops[0]), ops[1..])
  }

  function Recorded(m: map<Key, Entry>, op: Op): map<Key, Entry> {
    match op
    case Get(_, _) => m
    case Put(key, dek, now) => m[key := Entry(dek, now)]
    case Flush => map[]
  }

  ghost predicate Within(s: State, m: map<Key, Entry>) {
    forall k :: k in s.entries ==> k in m && m[k] == s.entries[k]
  }

  lemma {:induction false} EvictShrinks(max: nat, s: State, m: map<Key, Entry>)
    requires Within(s, m)
    ensures Within(EvictTo(max, s), m)
    decreases |s.order|
  {
    if |s.entries| > max && |s.order| > 0 {
      EvictShrinks(max, State(s.entries - {s.order[0]}, s.order[1..]), m);
    }
  }

  lemma StepWithin(c: Config, s: State, m: map<Key, Entry>, op: Op)
    requires Within(s, m) && (c.ttl == 0 ==> s == EMPTY)
    ensures Within(Step(c, s, op), Recorded(m, op)) && (c.ttl == 0 ==> Step(c, s, op) == EMPTY)
  {
    hide Expired, Without;
    if op.Put? {
      EvictShrinks(c.max, Inserted(s, op.key, Entry(op.dek, op.now)), Recorded(m, op));
    }
  }

  lemma {:induction false} EntriesAreLatestPuts(c: Config, s: State, m: map<Key, Entry>, ops: seq<Op>)
    requires Within(s, m) && (c.ttl == 0 ==> s == EMPTY)
    ensures Within(Run(c, s, ops), Latest(m, ops))
    decreases |ops|
  {
    if |ops| > 0 {
      StepWithin(c, s, m, ops[0]);
      hide Step, Recorded, Within;
      EntriesAreLatestPuts(c, Step(c, s, ops[0]), Recorded(m, ops[0]), ops[1..]);
    }
  }

  /** After any history, a hit returns the key's latest put, and only within its time-to-live. */
  lemma HitIsLatestPut(c: Config, ops: seq<Op>, key: Key, now: real)
    requires GetStep(c, Run(c, EMPTY, ops), key, now).1.Some?
    ensures key in Latest(map[], ops)
    ensures var e := Latest(map[], ops)[key];
      GetStep(c, Run(c, EMPTY, ops), key, now).1 == Some(e.dek) && Elapsed(e.inserted, now) < c.ttl as real
  {
    EntriesAreLatestPuts(c, EMPTY, map[], ops);
  }

  // ---------------------------------------------------------------- least recently used

  /** The key put or hit by one operation. */
  function TouchedBy(c: Config, s: State, op: Op): set<Key> {
    match op
    case Get(key, now) => if Hits(c, s, key, now) then {key} else {}
    case Put(key, _, _) => if c.ttl > 0 then {key} else {}
    case Flush => {}
  }

  /** Keys put or hit during a run. */
  function Touched(c: Config, s: State, ops: seq<Op>): set<Key>
    decreases |ops|
  {
    if |ops| == 0 then {} else TouchedBy(c, s, ops[0]) + Touched(c, Step(c, s, ops[0]), ops[1..])
  }

  predicate Leaves(ops: seq<Op>, k: Key) {
    forall i :: 0 <= i < |ops| ==> !ops[i].Flush? && ops[i].key != k
  }

  /** The keys more recent than k are among these. */
  ghost predicate NewerWithin(s: State, k: Key, keys: set<Key>) {
    && k in s.entries && k in s.order
    && forall i :: IndexOf(s.order, k) < i < |s.order| ==> s.order[i] in keys
  }

  lemma NewerAfterWithout(order: seq<Key>, k: Key, x: Key, keys: set<Key>)
    requires NoDuplicates(order) && k in order && x != k
    requires forall i :: IndexOf(order, k) < i < |order| ==> order[i] in keys
    ensures var q := Without(order, x);
      NoDuplicates(q) && k in q && forall i :: IndexOf(q, k) < i < |q| ==> q[i] in keys
  {
    var n, q := IndexOf(order, k), Without(order, x);
    if x in order {
      var m := IndexOf(order, x);
      var n' := if n < m then n else n - 1;
      assert q[n'] == k;
      IndexIs(q, k, n');
      forall i | n' < i < |q| ensures q[i] in keys {
        assert q[i] == order[if i < m then i else i + 1];
      }
    }
  }

  lemma NewerAfterTouch(order: seq<Key>, k: Key, x: Key, keys: set<Key>)
    requires NoDuplicates(order) && k in order && x != k
    requires forall i :: IndexOf(order, k) < i < |order| ==> order[i] in keys
    ensures var q := Touch(order, x);
      k in q && forall i :: IndexOf(q, k) < i < |q| ==> q[i] in keys + {x}
  {
    NewerAfterWithout(order, k, x, keys);
    IndexAppend(Without(order, x), k, x);
  }

  /** One operation on another key cannot evict k while fewer than max other keys are more recent. */
  lemma StepKeeps(c: Config, s: State, op: Op, k: Key, keys: set<Key>)
    requires Valid(c, s) && NewerWithin(s, k, keys) && !op.Flush? && op.key != k
    requires |keys + TouchedBy(c, s, op)| < c.max
    ensures var t := Step(c, s, op);
      NewerWithin(t, k, keys + TouchedBy(c, s, op)) && t.entries[k] == s.entries[k]
  {
    match op
    case Get(x, now) =>
      GetKeeps(c, s, x, now, k, keys);
    case Put(x, dek, now) =>
      PutKeeps(c, s, x, dek, now, k, keys);
  }

  lemma GetKeeps(c: Config, s: State, x: Key, now: real, k: Key, keys: set<Key>)
    requires Valid(c, s) && NewerWithin(s, k, keys) && x != k
    ensures var t := GetStep(c, s, x, now).0;
      NewerWithin(t, k, keys + TouchedBy(c, s, Get(x, now))) && t.entries[k] == s.entries[k]
  {
    NewerAfterWithout(s.order, k, x, keys);
    NewerAfterTouch(s.order, k, x, keys);
    hide Without, Expired;
  }

  lemma PutKeeps(c: Config, s: State, x: Key, dek: Bytes, now: real, k: Key, keys: set<Key>)
    requires Valid(c, s) && NewerWithin(s, k, keys) && x != k
    requires |keys + TouchedBy(c, s, Put(x, dek, now))| < c.max
    ensures var t := PutStep(c, s, x, dek, now);
      NewerWithin(t, k, keys + TouchedBy(c, s, Put(x, dek, now))) && t.entries[k] == s.entries[k]
  {
    var t := Inserted(s, x, Entry(dek, now));
    InsertedLists(c, s, x, Entry(dek, now));
    NewerAfterTouch(s.order, k, x, keys);
    if c.ttl > 0 {
      hide Lists, EvictTo, Touch, Without;
      assert NewerWithin(t, k, keys + {x});
      hide NewerWithin;
      EvictKeeps(c, t, k, keys + {x});
    }
  }

  lemma EvictKeeps(c: Config, s: State, k: Key, keys: set<Key>)
    requires 0 < c.max && Lists(s.order, s.entries.Keys) && |s.order| <= c.max + 1
    requires NewerWithin(s, k, keys) && |keys| < c.max
    ensures NewerWithin(EvictTo(c.max, s), k, keys) && EvictTo(c.max, s).entries[k] == s.entries[k]
  {
    EvictOne(c, s);
    if |s.order| == c.max + 1 {
      NotTheOldest(s.order, k, keys);
      hide Lists, EvictTo, IndexOf;
    }
  }

  /** With few enough keys more recent than it, a key is not the first of a long queue. */
  lemma NotTheOldest(order: seq<Key>, k: Key, keys: set<Key>)
    requires NoDuplicates(order) && k in order && |keys| < |order| - 1
    requires forall i :: IndexOf(order, k) < i < |order| ==> order[i] in keys
    ensures order[0] != k && k in order[1..]
    ensures forall i :: IndexOf(order[1..], k) < i < |order| - 1 ==> order[1..][i] in keys
  {
    if order[0] == k {
      OthersAreMany(order, keys);
    } else {
      assert order[1..][IndexOf(order, k) - 1] == k;
    }
  }

  /** Distinct elements of a set are no more than its size. */
  lemma {:induction false} OthersAreMany(q: seq<Key>, keys: set<Key>)
    requires NoDuplicates(q) && |q| > 0 && forall i :: 0 < i < |q| ==> q[i] in keys
    ensures |q| - 1 <= |keys|
    decreases |q|
  {
    if |q| > 1 {
      var r := [q[0]] + q[2..];
      OthersAreMany(r, keys - {q[1]});
    }
  }

  /** An entry survives while fewer than max distinct other keys have been touched since it was. */
  lemma {:induction false} RecentSurvives(c: Config, s: State, ops: seq<Op>, k: Key, keys: set<Key>)
    requires Valid(c, s) && NewerWithin(s, k, keys) && Leaves(ops, k)
    requires |keys + Touched(c, s, ops)| < c.max
    ensures var t := Run(c, s, ops); k in t.entries && t.entries[k] == s.entries[k]
    decreases |ops|
  {
    if |ops| > 0 {
      var t := Step(c, s, ops[0]);
      var now' := keys + TouchedBy(c, s, ops[0]);
      assert now' <= keys + Touched(c, s, ops);
      SubsetSize(now', keys + Touched(c, s, ops));
      StepValid(c, s, ops[0]);
      StepKeeps(c, s, ops[0], k, keys);
      assert now' + Touched(c, t, ops[1..]) == keys + Touched(c, s, ops);
      RecentSurvives(c, t, ops[1..], k, now');
    }
  }

  /** Put, then fewer than max other keys, then a timely get: the value comes back. */
  lemma PutThenGet(c: Config, s: State, key: Key, dek: Bytes, at: real, ops: seq<Op>, now: real)
    requires Valid(c, s) && Leaves(ops, key) && Elapsed(at, now) < c.ttl as real
    requires |Touched(c, PutStep(c, s, key, dek, at), ops)| < c.max
    ensures GetStep(c, Run(c, PutStep(c, s, key, dek, at), ops), key, now).1 == Some(dek)
  {
    var t := PutStep(c, s, key, dek, at);
    StepValid(c, s, Put(key, dek, at));
    JustPut(c, s, key, dek, at);
    assert {} + Touched(c, t, ops) == Touched(c, t, ops);
    RecentSurvives(c, t, ops, key, {});
  }

  lemma JustPut(c: Config, s: State, key: Key, dek: Bytes, at: real)
    requires Valid(c, s) && c.ttl > 0
    ensures var t := PutStep(c, s, key, dek, at);
      NewerWithin(t, key, {}) && t.entries[key] == Entry(dek, at)
  {
    var e := Entry(dek, at);
    var u := Inserted(s, key, e);
    InsertedLists(c, s, key, e);
    IndexIs(u.order, key, |u.order| - 1);
    assert u.order[|u.order| - 1] == key;
    EvictKeeps(c, u, key, {});
  }

  lemma JustHit(c: Config, s: State, key: Key, at: real)
    requires Valid(c, s) && GetStep(c, s, key, at).1.Some?
    ensures var t := GetStep(c, s, key, at).0;
      && NewerWithin(t, key, {}) && t.entries[key] == s.entries[key]
      && GetStep(c, s, key, at).1 == Some(s.entries[key].dek)
  {
    StepValid(c, s, Get(key, at));
    hide Expired, Without;
    var t := GetStep(c, s, key, at).0;
    assert t.order[|t.order| - 1] == key;
    IndexIs(t.order, key, |t.order| - 1);
  }

  /** A hit renews a key as a put does: after fewer than max other keys a get within its lifetime hits again. */
  lemma GetThenGet(c: Config, s: State, key: Key, at: real, ops: seq<Op>, now: real)
    requires Valid(c, s) && Leaves(ops, key) && GetStep(c, s, key, at).1.Some?
    requires Elapsed(s.entries[key].inserted, now) < c.ttl as real
    requires |Touched(c, GetStep(c, s, key, at).0, ops)| < c.max
    ensures GetStep(c, Run(c, GetStep(c, s, key, at).0, ops), key, now).1 == GetStep(c, s, key, at).1
  {
    var t := GetStep(c, s, key, at).0;
    StepValid(c, s, Get(key, at));
    JustHit(c, s, key, at);
    assert {} + Touched(c, t, ops) == Touched(c, t, ops);
    RecentSurvives(c, t, ops, key, {});
  }

  /** What stands behind a key in the queue: the keys touched since. */
  function After(order: seq<Key>, k: Key): seq<Key>
    requires k in order
  {
    order[IndexOf(order, k) + 1..]
  }

  /** These keys have all been touched since k, if k is still there. */
  ghost predicate Since(s: State, k: Key, keys: set<Key>) {
    k in s.entries ==> k in s.order && forall x :: x in keys ==> x in After(s.order, k)
  }

  /** Touching another key leaves behind k what was behind it, and puts that key there too. */
  lemma TouchKeepsAfter(order: seq<Key>, k: Key, x: Key, y: Key)
    requires NoDuplicates(order) && k in order && x != k && (y == x || y in After(order, k))
    ensures k in Touch(order, x) && y in After(Touch(order, x), k)
  {
    var q, n := Without(order, x), IndexOf(order, k);
    var n' := PlaceWithout(order, k, x);
    IndexAppend(q, k, x);
    var t := q + [x];
    if y == x {
      assert t[n' + 1..][|q| - n' - 1] == x;
    } else {
      var i :| 0 <= i < |After(order, k)| && After(order, k)[i] == y;
      assert order[n + 1 + i] == y;
      hide IndexOf, Without;
      var at := PlaceWithoutLater(order, k, x, n + 1 + i);
      assert t[n' + 1..][at - n' - 1] == y;
    }
  }

  /** The place of what stood at i, once another key is taken out. */
  function PlaceOf(order: seq<Key>, x: Key, i: nat): nat {
    if x in order && IndexOf(order, x) < i then i - 1 else i
  }

  lemma ElementWithout(order: seq<Key>, x: Key, i: nat)
    requires i < |order| && order[i] != x
    ensures var q := Without(order, x); PlaceOf(order, x, i) < |q| && q[PlaceOf(order, x, i)] == order[i]
  {
    hide IndexOf;
  }

  lemma PlaceWithout(order: seq<Key>, k: Key, x: Key) returns (n: nat)
    requires NoDuplicates(order) && k in order && x != k
    ensures n == PlaceOf(order, x, IndexOf(order, k))
    ensures var q := Without(order, x); n < |q| && k in q && IndexOf(q, k) == n
  {
    n := PlaceOf(order, x, IndexOf(order, k));
    WithoutOnce(order, x);
    ElementWithout(order, x, IndexOf(order, k));
    IndexIs(Without(order, x), k, n);
  }

  /** What stood later still does. */
  lemma PlaceWithoutLater(order: seq<Key>, k: Key, x: Key, i: nat) returns (at: nat)
    requires NoDuplicates(order) && k in order && x != k && IndexOf(order, k) < i < |order| && order[i] != x
    ensures var q := Without(order, x); k in q && IndexOf(q, k) < at < |q| && q[at] == order[i]
  {
    hide IndexOf, Without;
    var n := PlaceWithout(order, k, x);
    at := PlaceOf(order, x, i);
    ElementWithout(order, x, i);
  }

  lemma WithoutOnce(order: seq<Key>, x: Key)
    requires NoDuplicates(order)
    ensures NoDuplicates(Without(order, x))
  {
  }

  lemma TailAfter(order: seq<Key>, k: Key)
    requires k in order && order[0] != k
    ensures k in order[1..] && After(order[1..], k) == After(order, k)
  {
    var n := IndexOf(order, k);
    assert order[1..][n - 1] == k;
    assert order[1..][n..] == order[n + 1..];
  }

  lemma EvictSince(c: Config, s: State, k: Key, keys: set<Key>)
    requires 0 < c.max && Lists(s.order, s.entries.Keys) && |s.order| <= c.max + 1 && Since(s, k, keys)
    ensures Since(EvictTo(c.max, s), k, keys)
  {
    EvictOne(c, s);
    hide EvictTo;
    if |s.order| == c.max + 1 && s.order[0] != k && k in s.entries {
      TailAfter(s.order, k);
      hide Lists, After;
    }
  }

  lemma PutSince(c: Config, s: State, x: Key, dek: Bytes, now: real, k: Key, keys: set<Key>)
    requires Valid(c, s) && c.ttl > 0 && x != k && Since(s, k, keys)
    ensures Since(PutStep(c, s, x, dek, now), k, keys + {x})
  {
    var t := Inserted(s, x, Entry(dek, now));
    InsertedLists(c, s, x, Entry(dek, now));
    if k in t.entries {
      hide Lists, Touch, After;
      assert NoDuplicates(s.order) by { OrderOnce(c, s); }
      forall y | y in keys + {x} ensures k in t.order && y in After(t.order, k) {
        TouchKeepsAfter(s.order, k, x, y);
      }
      TouchKeepsAfter(s.order, k, x, x);
    }
    hide Lists, EvictTo, After, Inserted;
    EvictSince(c, t, k, keys + {x});
  }

  lemma OrderOnce(c: Config, s: State)
    requires Valid(c, s)
    ensures NoDuplicates(s.order)
  {
  }

  predicate OnlyPuts(ops: seq<Op>) {
    forall i :: 0 <= i < |ops| ==> ops[i].Put?
  }

  lemma {:induction false} PutsSince(c: Config, s: State, ops: seq<Op>, k: Key, keys: set<Key>)
    requires Valid(c, s) && c.ttl > 0 && OnlyPuts(ops) && Leaves(ops, k) && Since(s, k, keys)
    ensures Since(Run(c, s, ops), k, keys + Touched(c, s, ops))
    decreases |ops|
  {
    hide Since, PutStep, Valid;
    if |ops| == 0 {
      assert keys + {} == keys;
    } else {
      var op := ops[0];
      StepValid(c, s, op);
      PutSince(c, s, op.key, op.dek, op.now, k, keys);
      var t := Step(c, s, op);
      PutsSince(c, t, ops[1..], k, keys + {op.key});
      assert keys + {op.key} + Touched(c, t, ops[1..]) == keys + Touched(c, s, ops);
    }
  }

  /** A key that is still there leaves room for fewer than max others behind it. */
  lemma FewSince(c: Config, s: State, k: Key, keys: set<Key>)
    requires Valid(c, s) && k in s.entries && Since(s, k, keys)
    ensures |keys| < c.max
  {
    var q := After(s.order, k);
    var own := set x | x in q;
    assert NoDuplicates(q);
    ListsHaveSize(q, own);
    SubsetSize(keys, own);
  }

  /** After a touch, puts of other keys evict a key exactly when they are of at least max distinct ones. */
  lemma PutsEvictExactly(c: Config, s: State, ops: seq<Op>, k: Key)
    requires Valid(c, s) && c.ttl > 0 && NewerWithin(s, k, {}) && OnlyPuts(ops) && Leaves(ops, k)
    ensures k in Run(c, s, ops).entries <==> |Touched(c, s, ops)| < c.max
  {
    assert {} + Touched(c, s, ops) == Touched(c, s, ops);
    if |Touched(c, s, ops)| < c.max {
      RecentSurvives(c, s, ops, k, {});
    } else {
      assert Since(s, k, {});
      PutsSince(c, s, ops, k, {});
      RunValid(c, s, ops);
      hide Valid, Since, Run, Touched;
      if k in Run(c, s, ops).entries {
        FewSince(c, Run(c, s, ops), k, Touched(c, s, ops));
      }
    }
  }

  // ---------------------------------------------------------------- the object

  class Cache {
    const config: Config
    var entries: map<Key, Entry>
    var order: seq<Key>

    ghost function Abstract(): State
      reads this
    {
      State(entries, order)
    }

    constructor (ttl: nat, max: nat)
      ensures config == Config(ttl, Clamp(max)) && Abstract() == EMPTY && Valid(config, Abstract())
    {
      config := Config(ttl, Clamp(max));
      entries, order := map[], [];
    }

    method Lookup(key: Key, now: real) returns (dek: Option<Bytes>)
      requires Valid(config, Abstract())
      modifies this
      ensures Valid(config, Abstract())
      ensures (Abstract(), dek) == GetStep(config, old(Abstract()), key, now)
    {
      StepValid(config, Abstract(), Get(key, now));
      if config.ttl == 0 || key !in entries {
        return None;
      }
      var entry := entries[key];
      if Expired(config, entry, now) {
        entries := entries - {key};
        RemoveFromOrder(key);
        dek := None;
      } else {
        RemoveFromOrder(key);
        order := order + [key];
        dek := Some(entry.dek);
      }
    }

    method Insert(key: Key, dek: Bytes, now: real)
      requires Valid(config, Abstract())
      modifies this
      ensures Valid(config, Abstract())
      ensures Abstract() == PutStep(config, old(Abstract()), key, dek, now)
    {
      StepValid(config, Abstract(), Put(key, dek, now));
      if config.ttl == 0 {
        return;
      }
      if key in entries {
        RemoveFromOrder(key);
      }
      entries := entries[key := Entry(dek, now)];
      order := order + [key];
      ghost var inserted := Abstract();
      while |entries| > config.max && |order| > 0
        invariant EvictTo(config.max, Abstract()) == EvictTo(config.max, inserted)
        decreases |order|
      {
        var oldest := order[0];
        order := order[1..];
        entries := entries - {oldest};
      }
    }

    method FlushAll()
      modifies this
      ensures Abstract() == EMPTY
    {
      entries, order := map[], [];
    }

    method RemoveFromOrder(key: Key)
      modifies this`order
      ensures order == Without(old(order), key)
    {
      var i := 0;
      while i < |order| && order[i] != key
        invariant 0 <= i <= |order| && order == old(order)
        invariant key !in order[..i]
      {
        i := i + 1;
      }
      if i < |order| {
        FirstIndex(order, key, i);
        order := order[..i] + order[i + 1..];
      }
    }
  }

  lemma {:induction false} FirstIndex(q: seq<Key>, k: Key, i: nat)
    requires i < |q| && q[i] == k && k !in q[..i]
    ensures IndexOf(q, k) == i
  {
    if i > 0 {
      assert q[0] in q[..i];
      FirstIndex(q[1..], k, i - 1);
    }
  }
}

/** The replay ledger: a bounded first-in-first-out set of accepted nonces. */
module IntentLedger {
  import opened Listing

  type Key = string

  /** The last m elements. */
  function LastOf(m: nat, accepted: seq<Key>): seq<Key> {
    if |accepted| <= m then accepted else accepted[|accepted| - m..]
  }

  class Ledger {
    const max: nat
    var seen: set<Key>
    var order: seq<Key>
    /** Every key ever accepted, in order. */
    ghost var accepted: seq<Key>

    /** The set and the queue hold the same keys once each: the last max keys accepted. */
    ghost predicate Valid()
      reads this
    {
      && 0 < max
      && Lists(order, seen)
      && order == LastOf(max, accepted)
      && Spaced(max, accepted)
    }

    constructor (max: nat)
      requires 0 < max
      ensures Valid() && this.max == max && accepted == []
    {
      this.max := max;
      seen, order, accepted := {}, [], [];
    }

    /** Accepts a key exactly when it is not among the last max accepted. */
    method RecordIfNew(key: Key) returns (isNew: bool)
      requires Valid()
      modifies this
      ensures Valid()
      ensures isNew <==> key !in LastOf(max, old(accepted))
      ensures accepted == if isNew then old(accepted) + [key] else old(accepted)
    {
      if key in seen {
        return false;
      }
      ListsHaveSize(order, seen);
      AcceptSpaced(max, accepted, key);
      QueueGrows(max, order, seen, key);
      WindowMoves(max, accepted, key);
      hide Lists, Spaced, LastOf;
      if |seen| >= max {
        if |order| > 0 {
          var oldest := order[0];
          order := order[1..];
          seen := seen - {oldest};
        }
      }
      seen := seen + {key};
      order := order + [key];
      accepted := accepted + [key];
      isNew := true;
    }
  }

  lemma QueueGrows(m: nat, order: seq<Key>, seen: set<Key>, key: Key)
    requires 0 < m && Lists(order, seen) && key !in seen
    ensures |order| >= m ==> Lists(order[1..] + [key], seen - {order[0]} + {key})
    ensures |order| < m ==> Lists(order + [key], seen + {key})
  {
    if |order| >= m {
      TailLists(order, seen);
      hide Lists;
      AppendLists(order[1..], seen - {order[0]}, key);
    } else {
      hide Lists;
      AppendLists(order, seen, key);
    }
  }

  /** The last m acceptances move on by one. */
  lemma WindowMoves(m: nat, accepted: seq<Key>, key: Key)
    requires 0 < m
    ensures var order := LastOf(m, accepted);
      LastOf(m, accepted + [key]) == (if |order| >= m then order[1..] else order) + [key]
  {
  }

  /** Between two acceptances of one key lie at least m acceptances of others. */
  ghost predicate Spaced(m: nat, accepted: seq<Key>) {
    forall i, j :: 0 <= i < j < |accepted| && accepted[i] == accepted[j] ==> j - i - 1 >= m
  }

  lemma AcceptSpaced(m: nat, accepted: seq<Key>, key: Key)
    requires Spaced(m, accepted) && key !in LastOf(m, accepted)
    ensures Spaced(m, accepted + [key])
  {
    var n := |accepted|;
    forall i | 0 <= i < n && n - i - 1 < m ensures accepted[i] != key {
      assert LastOf(m, accepted)[if n <= m then i else i - (n - m)] == accepted[i];
    }
  }

  /** The answers to a run of requests, by the unbounded history alone. */
  function Replay(m: nat, accepted: seq<Key>, keys: seq<Key>): seq<Key>
    decreases |keys|
  {
    if |keys| == 0 then accepted
    else Replay(m, if keys[0] in LastOf(m, accepted) then accepted else accepted + [keys[0]], keys[1..])
  }

  /** Over every run, acceptances of one key are at least m acceptances apart; with fewer requests none repeats. */
  lemma {:induction false} RunIsSpaced(m: nat, accepted: seq<Key>, keys: seq<Key>)
    requires Spaced(m, accepted)
    ensures Spaced(m, Replay(m, accepted, keys))
    ensures |Replay(m, accepted, keys)| <= m + 1 ==> NoDuplicates(Replay(m, accepted, keys))
    decreases |keys|
  {
    if |keys| > 0 {
      if keys[0] in LastOf(m, accepted) {
        RunIsSpaced(m, accepted, keys[1..]);
      } else {
        AcceptSpaced(m, accepted, keys[0]);
        RunIsSpaced(m, accepted + [keys[0]], keys[1..]);
      }
    }
  }
}

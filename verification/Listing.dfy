/** Queues that list the keys of a table without repetition. */
module Listing {
  import opened Lex

  ghost predicate NoDuplicates<T>(q: seq<T>) {
    forall i, j :: 0 <= i < j < |q| ==> q[i] != q[j]
  }

  /** The queue holds each key once and nothing else. */
  ghost predicate Lists<T(!new)>(q: seq<T>, keys: set<T>) {
    NoDuplicates(q) && forall k :: k in q <==> k in keys
  }

  lemma {:induction false} ListsHaveSize<T(!new)>(q: seq<T>, keys: set<T>)
    requires Lists(q, keys)
    ensures |q| == |keys|
  {
    if |q| == 0 {
      assert keys == {};
    } else {
      assert q[0] in q;
      TailLists(q, keys);
      ListsHaveSize(q[1..], keys - {q[0]});
    }
  }

  lemma TailLists<T(!new)>(q: seq<T>, keys: set<T>)
    requires Lists(q, keys) && |q| > 0
    ensures Lists(q[1..], keys - {q[0]})
  {
    forall k | k in keys - {q[0]} ensures k in q[1..] {
      var i :| 0 <= i < |q| && q[i] == k;
      assert q[1..][i - 1] == k;
    }
  }

  lemma AppendLists<T(!new)>(q: seq<T>, keys: set<T>, k: T)
    requires Lists(q, keys) && k !in keys
    ensures Lists(q + [k], keys + {k})
  {
    assert (q + [k])[|q|] == k;
    forall x | x in keys ensures x in q + [k] {
      var i :| 0 <= i < |q| && q[i] == x;
      assert (q + [k])[i] == x;
    }
  }

  lemma {:induction false} SubsetSize<T>(a: set<T>, b: set<T>)
    requires a <= b
    ensures |a| <= |b|
    decreases a
  {
    if a != {} {
      var k :| k in a;
      SubsetSize(a - {k}, b - {k});
    }
  }

  /** Index of the first occurrence, or the length. */
  function Find<T(==)>(s: seq<T>, x: T): (k: nat)
    ensures k <= |s|
    ensures k < |s| ==> s[k] == x
    ensures forall i :: 0 <= i < k ==> s[i] != x
  {
    if |s| == 0 || s[0] == x then 0 else 1 + Find(s[1..], x)
  }

  lemma FindIs<T>(s: seq<T>, x: T, k: nat)
    requires k <= |s| && (k < |s| ==> s[k] == x) && forall i :: 0 <= i < k ==> s[i] != x
    ensures Find(s, x) == k
  {
  }

  /** A part that ends at the first separator, and what follows it. */
  lemma UpTo<T>(sep: T, a: seq<T>, x: seq<T>, b: seq<T>, y: seq<T>)
    requires sep !in a && sep !in b && a + ([sep] + x) == b + ([sep] + y)
    ensures a == b && x == y
  {
    var s := a + ([sep] + x);
    assert s[|a|] == sep && s[|b|] == sep;
    FindIs(s, sep, |a|);
    FindIs(s, sep, |b|);
    SameParts(a, [sep] + x, b, [sep] + y);
    SameTail([sep], x, y);
  }

  /** Position of a key's first occurrence. */
  function IndexOf<T(==)>(q: seq<T>, k: T): (i: nat)
    requires k in q
    ensures i < |q| && q[i] == k
  {
    if q[0] == k then 0 else 1 + IndexOf(q[1..], k)
  }

  lemma IndexIs<T>(q: seq<T>, k: T, i: nat)
    requires NoDuplicates(q) && i < |q| && q[i] == k
    ensures IndexOf(q, k) == i
  {
    var j := IndexOf(q, k);
    assert q[j] == q[i];
  }

  lemma {:induction false} IndexAppend<T>(q: seq<T>, k: T, x: T)
    requires k in q
    ensures IndexOf(q + [x], k) == IndexOf(q, k)
  {
    if q[0] != k {
      assert (q + [x])[1..] == q[1..] + [x];
      IndexAppend(q[1..], k, x);
    }
  }

  /** The queue without its first occurrence of a key. */
  function Without<T(==)>(q: seq<T>, k: T): (r: seq<T>) {
    if k in q then q[..IndexOf(q, k)] + q[IndexOf(q, k) + 1..] else q
  }

  lemma WithoutLists<T(!new)>(q: seq<T>, keys: set<T>, k: T)
    requires Lists(q, keys)
    ensures Lists(Without(q, k), keys - {k})
  {
    var r := Without(q, k);
    if k in q {
      var n := IndexOf(q, k);
      forall x | x in keys - {k} ensures x in r {
        var i :| 0 <= i < |q| && q[i] == x;
        assert r[if i < n then i else i - 1] == x;
      }
      forall x | x in r ensures x in keys - {k} {
        var i :| 0 <= i < |r| && r[i] == x;
        assert q[if i < n then i else i + 1] == x;
      }
    }
  }
}

/** Unicode scalar values, their UTF-8 and UTF-16 encodings, and the UTF-16 order of RFC 8785 section 3.2.3. */
module Unicode {
  import opened Wrappers
  import opened Lex

  predicate IsScalar(n: int) {
    0 <= n < 0xD800 || 0xE000 <= n < 0x11_0000
  }

  // The range is spelled out again: the verifier does not unfold a predicate in a subset type's constraint.
  type scalar = n: int | 0 <= n < 0xD800 || 0xE000 <= n < 0x11_0000

  /** A well-formed string, as its sequence of scalar values. */
  type Str = seq<scalar>

  function Utf8(c: scalar): (b: Bytes)
    ensures 1 <= |b| <= 4
    ensures b[0] < 0x80 <==> c < 0x80
  {
    var n: int := c;
    if n < 0x80 then [n]
    else if n < 0x800 then [0xC0 + n / 64, 0x80 + n % 64]
    else if n < 0x1_0000 then [0xE0 + n / 4096, 0x80 + n / 64 % 64, 0x80 + n % 64]
    else [0xF0 + n / 262_144, 0x80 + n / 4096 % 64, 0x80 + n / 64 % 64, 0x80 + n % 64]
  }

  /** The scalar a lead byte and its continuation bytes would denote. */
  function Utf8Candidate(s: Bytes): int {
    var at := (i: int) => if 0 <= i < |s| then s[i] as int else 0;
    if at(0) < 0x80 then at(0)
    else if at(0) < 0xE0 then (at(0) - 0xC0) * 64 + (at(1) - 0x80)
    else if at(0) < 0xF0 then (at(0) - 0xE0) * 4096 + (at(1) - 0x80) * 64 + (at(2) - 0x80)
    else (at(0) - 0xF0) * 262_144 + (at(1) - 0x80) * 4096 + (at(2) - 0x80) * 64 + (at(3) - 0x80)
  }

  /** Read one scalar off the front; refuses overlong and truncated forms. */
  function ReadUtf8(s: Bytes): (r: Option<(scalar, Bytes)>)
    ensures r.Some? ==> s == Utf8(r.value.0) + r.value.1
  {
    var c := Utf8Candidate(s);
    if IsScalar(c) && Utf8(c) <= s then Some((c, s[|Utf8(c)|..])) else None
  }

  lemma Utf8ReadsBack(c: scalar, rest: Bytes)
    ensures ReadUtf8(Utf8(c) + rest) == Some((c, rest))
  {
    var s := Utf8(c) + rest;
    CandidateOfUtf8(c, rest);
    assert s[|Utf8(c)|..] == rest;
  }

  lemma CandidateOfUtf8(c: scalar, rest: Bytes)
    ensures Utf8Candidate(Utf8(c) + rest) == c
  {
    var s, u := Utf8(c) + rest, Utf8(c);
    var n: int := c;
    assert s[0] == u[0] && (|u| > 1 ==> s[1] == u[1]) && (|u| > 2 ==> s[2] == u[2]) && (|u| > 3 ==> s[3] == u[3]);
    SixBits(n);
    SixBits(n / 64);
    SixBits(n / 64 / 64);
  }

  lemma SixBits(n: int)
    requires 0 <= n
    ensures n == n / 64 * 64 + n % 64
    ensures n / 4096 == n / 64 / 64
    ensures n / 262_144 == n / 64 / 64 / 64
  {
  }

  // ---------------------------------------------------------------- UTF-16

  function Utf16(c: scalar): (u: seq<int>)
    ensures 1 <= |u| <= 2
  {
    var n: int := c;
    if n < 0x1_0000 then [n] else [0xD800 + (n - 0x1_0000) / 1024, 0xDC00 + (n - 0x1_0000) % 1024]
  }

  /** The code units of a string. */
  function Units(s: Str): seq<int> {
    if |s| == 0 then [] else Utf16(s[0]) + Units(s[1..])
  }

  /** Two distinct scalars differ within their units, and the smaller unit there decides the order of what follows. */
  lemma Utf16Decides(c: scalar, d: scalar, s: seq<int>, t: seq<int>)
    requires c != d
    ensures Less(Utf16(c) + s, Utf16(d) + t) <==> Less(Utf16(c), Utf16(d))
    ensures Utf16(c) + s != Utf16(d) + t
  {
    var u, v := Utf16(c), Utf16(d);
    assert (u + s)[0] == u[0] && (v + t)[0] == v[0];
    if u[0] == v[0] {
      assert |u| == 2 && |v| == 2 && u[1] != v[1];
      assert (u + s)[1..][0] == u[1] && (v + t)[1..][0] == v[1];
    }
  }

  lemma {:induction false} UnitsInjective(s: Str, t: Str)
    requires Units(s) == Units(t)
    ensures s == t
  {
    if |s| > 0 && |t| > 0 {
      if s[0] != t[0] {
        Utf16Decides(s[0], t[0], Units(s[1..]), Units(t[1..]));
      } else {
        var n := |Utf16(s[0])|;
        assert Units(s)[n..] == Units(s[1..]) && Units(t)[n..] == Units(t[1..]);
        UnitsInjective(s[1..], t[1..]);
        assert s == [s[0]] + s[1..] && t == [t[0]] + t[1..];
      }
    }
  }

  /** The object key order. */
  predicate KeyLess(a: Str, b: Str) {
    Less(Units(a), Units(b))
  }

  /** The key order is a strict total order: it separates any two distinct strings, one way only. */
  lemma KeyOrderIsTotal(a: Str, b: Str)
    ensures !KeyLess(a, a)
    ensures a != b ==> (KeyLess(a, b) <==> !KeyLess(b, a))
  {
    LessIrreflexive(Units(a));
    if a != b {
      LessTotal(Units(a), Units(b));
      if Units(a) == Units(b) {
        UnitsInjective(a, b);
      }
      if KeyLess(a, b) && KeyLess(b, a) {
        LessTransitive(Units(a), Units(b), Units(a));
      }
    }
  }

  lemma {:induction false} UnitsConcat(s: Str, t: Str)
    ensures Units(s + t) == Units(s) + Units(t)
  {
    hide Utf16;
    if |s| == 0 {
      assert s + t == t;
    } else {
      assert (s + t)[1..] == s[1..] + t && (s + t)[0] == s[0];
      UnitsConcat(s[1..], t);
      ConcatAssoc(Utf16(s[0]), Units(s[1..]), Units(t));
    }
  }

  /** Length of the longest common prefix. */
  function FirstDifference(a: Str, b: Str): (i: nat)
    ensures i <= |a| && i <= |b| && a[..i] == b[..i]
    ensures i < |a| && i < |b| ==> a[i] != b[i]
  {
    if |a| == 0 || |b| == 0 || a[0] != b[0] then 0
    else
      var i := FirstDifference(a[1..], b[1..]);
      assert a[..i + 1] == [a[0]] + a[1..][..i] && b[..i + 1] == [b[0]] + b[1..][..i];
      i + 1
  }

  /** The order of two scalars by their code units: surrogates come between U+D7FF and U+E000. */
  predicate ScalarLess(c: scalar, d: scalar) {
    if c < 0x1_0000 && d >= 0x1_0000 then c < 0xD800
    else if c >= 0x1_0000 && d < 0x1_0000 then d >= 0xE000
    else c < d
  }

  lemma ScalarLessIsUnitOrder(c: scalar, d: scalar)
    requires c != d
    ensures Less(Utf16(c), Utf16(d)) <==> ScalarLess(c, d)
  {
    var u, v := Utf16(c), Utf16(d);
    if u[0] == v[0] {
      assert u[1..] == [u[1]] && v[1..] == [v[1]];
    }
  }

  /** The key order, scalar by scalar: a proper prefix comes first, otherwise the first difference decides. */
  lemma KeyOrderByScalars(a: Str, b: Str)
    ensures var i := FirstDifference(a, b);
      KeyLess(a, b) <==> i < |b| && (i == |a| || ScalarLess(a[i], b[i]))
  {
    hide FirstDifference, Units, ScalarLess;
    var i := FirstDifference(a, b);
    var s, t := a[i..], b[i..];
    assert a == a[..i] + s && b == a[..i] + t;
    UnitsConcat(a[..i], s);
    UnitsConcat(a[..i], t);
    LessSharedPrefix(Units(a[..i]), Units(s), Units(t));
    FirstScalarDecides(s, t);
  }

  lemma FirstScalarDecides(s: Str, t: Str)
    requires |s| > 0 && |t| > 0 ==> s[0] != t[0]
    ensures Less(Units(s), Units(t)) <==> |t| > 0 && (|s| == 0 || ScalarLess(s[0], t[0]))
  {
    hide Utf16, ScalarLess;
    if |s| > 0 && |t| > 0 {
      Utf16Decides(s[0], t[0], Units(s[1..]), Units(t[1..]));
      ScalarLessIsUnitOrder(s[0], t[0]);
    }
  }

  predicate AllBasic(s: Str) {
    forall i :: 0 <= i < |s| ==> s[i] < 0x1_0000
  }

  /**
   When a key with a scalar outside the basic plane sorts after a basic key: exactly when the basic key is its prefix,
   or is smaller at the first difference, where a supplementary scalar exceeds only what lies below the surrogates.
   */
  lemma SupplementarySortsAfter(basic: Str, key: Str)
    requires AllBasic(basic) && !AllBasic(key)
    ensures var i := FirstDifference(basic, key);
      KeyLess(basic, key)
      <==> i == |basic| || (i < |key| && if key[i] < 0x1_0000 then basic[i] < key[i] else basic[i] < 0xD800)
  {
    KeyOrderByScalars(basic, key);
    hide KeyLess, FirstDifference;
    assert basic[..|basic|] == basic && key[..|key|] == key;
  }

  /** The claim that it sorts after every basic key fails on an earlier difference, and from U+E000 on. */
  lemma SupplementarySortsBefore()
    ensures KeyLess([97, 0x1_F600], [98]) && KeyLess([0x1_F600], [0xE000])
  {
    KeyOrderByScalars([97, 0x1_F600], [98]);
    KeyOrderByScalars([0x1_F600], [0xE000]);
    hide KeyLess;
  }
}

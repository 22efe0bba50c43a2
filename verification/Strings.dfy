/** Character strings: trimming and splitting, as the Rust standard library does them. */
module Strings {
  import opened Wrappers
  import opened Listing

  /** Unicode White_Space, what trimming removes. */
  predicate IsWhitespace(c: char) {
    var n := c as int;
    9 <= n <= 13 || n in {0x20, 0x85, 0xA0, 0x1680, 0x2028, 0x2029, 0x202F, 0x205F, 0x3000} || 0x2000 <= n <= 0x200A
  }

  function TrimStart(s: string): string {
    if |s| > 0 && IsWhitespace(s[0]) then TrimStart(s[1..]) else s
  }

  function TrimEnd(s: string): string {
    if |s| > 0 && IsWhitespace(s[|s| - 1]) then TrimEnd(s[..|s| - 1]) else s
  }

  function Trim(s: string): string {
    TrimEnd(TrimStart(s))
  }

  /** What is trimmed is white space, and no more is left at either end. */
  lemma TrimIs(s: string) returns (i: nat, j: nat)
    ensures i <= j <= |s| && Trim(s) == s[i..j]
    ensures forall k :: 0 <= k < i || j <= k < |s| ==> IsWhitespace(s[k])
    ensures i < j ==> !IsWhitespace(s[i]) && !IsWhitespace(s[j - 1])
  {
    hide IsWhitespace;
    i := TrimStartIs(s);
    j := TrimEndIs(s[i..]);
    j := j + i;
    assert s[i..][..j - i] == s[i..j];
    forall k | j <= k < |s| ensures IsWhitespace(s[k]) {
      assert s[i..][k - i] == s[k];
    }
  }

  lemma {:induction false} TrimStartIs(s: string) returns (i: nat)
    ensures i <= |s| && TrimStart(s) == s[i..]
    ensures (forall k :: 0 <= k < i ==> IsWhitespace(s[k])) && (i < |s| ==> !IsWhitespace(s[i]))
  {
    hide IsWhitespace;
    i := 0;
    if |s| > 0 && IsWhitespace(s[0]) {
      i := TrimStartIs(s[1..]);
      i := i + 1;
    }
  }

  lemma {:induction false} TrimEndIs(s: string) returns (j: nat)
    ensures j <= |s| && TrimEnd(s) == s[..j]
    ensures (forall k :: j <= k < |s| ==> IsWhitespace(s[k])) && (j > 0 ==> !IsWhitespace(s[j - 1]))
  {
    hide IsWhitespace;
    j := |s|;
    if |s| > 0 && IsWhitespace(s[|s| - 1]) {
      j := TrimEndIs(s[..|s| - 1]);
      assert s[..|s| - 1][..j] == s[..j];
    }
  }

  predicate AllWhitespace(s: string) {
    forall k :: 0 <= k < |s| ==> IsWhitespace(s[k])
  }

  /** A text that trimming leaves alone. */
  predicate Tidy(s: string) {
    |s| > 0 && !IsWhitespace(s[0]) && !IsWhitespace(s[|s| - 1])
  }

  /** White space around a text goes, and nothing else. */
  lemma TrimPadded(a: string, s: string, d: string)
    requires AllWhitespace(a) && AllWhitespace(d) && (s == "" || Tidy(s))
    ensures Trim(a + s + d) == s
  {
    hide IsWhitespace;
    if s == "" {
      TrimBlank(a + s + d);
    } else {
      TrimStartPadded(a, s + d);
      assert a + s + d == a + (s + d);
      TrimEndPadded(s, d);
    }
  }

  lemma TrimBlank(s: string)
    requires AllWhitespace(s)
    ensures Trim(s) == ""
  {
    hide IsWhitespace;
    var i, j := TrimIs(s);
  }

  lemma {:induction false} TrimStartPadded(a: string, s: string)
    requires AllWhitespace(a) && |s| > 0 && !IsWhitespace(s[0])
    ensures TrimStart(a + s) == s
  {
    hide IsWhitespace;
    if a == "" {
      assert a + s == s;
    } else {
      assert (a + s)[1..] == a[1..] + s;
      TrimStartPadded(a[1..], s);
    }
  }

  lemma {:induction false} TrimEndPadded(s: string, d: string)
    requires AllWhitespace(d) && |s| > 0 && !IsWhitespace(s[|s| - 1])
    ensures TrimEnd(s + d) == s
  {
    hide IsWhitespace;
    if d == "" {
      assert s + d == s;
    } else {
      var n := |d| - 1;
      assert (s + d)[..|s| + n] == s + d[..n];
      TrimEndPadded(s, d[..n]);
    }
  }

  /** The pieces between separators; always at least one. */
  function Split(s: string, c: char): (parts: seq<string>)
    ensures |parts| > 0
    decreases |s|
  {
    var k := Find(s, c);
    if k == |s| then [s] else [s[..k]] + Split(s[k + 1..], c)
  }

  lemma SplitFirst(first: string, rest: string, c: char)
    requires c !in first
    ensures Split(first, c) == [first] && Split(first + [c] + rest, c) == [first] + Split(rest, c)
  {
    FindIs(first, c, |first|);
    var s := first + [c] + rest;
    FindIs(s, c, |first|);
    assert s[..|first|] == first && s[|first| + 1..] == rest;
  }

  /** The text on either side of the first separator. */
  function SplitOnce(s: string, c: char): Option<(string, string)> {
    var k := Find(s, c);
    if k == |s| then None else Some((s[..k], s[k + 1..]))
  }

  lemma SplitOnceAt(first: string, rest: string, c: char)
    requires c !in first
    ensures SplitOnce(first + [c] + rest, c) == Some((first, rest))
  {
    var s := first + [c] + rest;
    FindIs(s, c, |first|);
    assert s[..|first|] == first && s[|first| + 1..] == rest;
  }
}

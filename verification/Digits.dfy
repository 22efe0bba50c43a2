/** Positional notation: what a vector of digits is worth, independent of how it was computed. */
module Digits {

  type digit = n: int | 0 <= n < 10

  function Pow(base: nat, n: nat): nat
    decreases n
  {
    if n == 0 then 1 else base * Pow(base, n - 1)
  }

  lemma PowZero(base: nat)
    ensures Pow(base, 0) == 1
  {
  }

  lemma PowStep(base: nat, n: nat)
    ensures Pow(base, n + 1) == base * Pow(base, n)
  {
  }

  lemma PowPositive(base: nat, n: nat)
    requires 0 < base
    ensures 0 < Pow(base, n)
  {
  }

  lemma {:induction false} PowAdd(base: nat, m: nat, n: nat)
    ensures Pow(base, m + n) == Pow(base, m) * Pow(base, n)
  {
    if m > 0 {
      PowAdd(base, m - 1, n);
      calc {
        Pow(base, m + n);
        base * (Pow(base, m - 1) * Pow(base, n));
        { MulAssoc(base, Pow(base, m - 1), Pow(base, n)); }
        Pow(base, m) * Pow(base, n);
      }
    }
  }

  lemma MulAssoc(a: int, b: int, c: int)
    ensures a * (b * c) == (a * b) * c
  {
  }

  /** Value of a cell vector read least significant cell first; a cell may exceed the base. */
  function Value(base: nat, cells: seq<nat>): nat
  {
    if |cells| == 0 then 0 else cells[0] + base * Value(base, cells[1..])
  }

  /** Value read most significant digit first, as the source stores its vectors. */
  function ValueBE(base: nat, cells: seq<nat>): nat
  {
    if |cells| == 0 then 0 else ValueBE(base, cells[..|cells| - 1]) * base + cells[|cells| - 1]
  }

  function Reverse(s: seq<digit>): (r: seq<digit>)
    ensures |r| == |s|
    ensures forall i :: 0 <= i < |s| ==> r[i] == s[|s| - 1 - i]
  {
    if |s| == 0 then [] else Reverse(s[1..]) + [s[0]]
  }

  lemma {:induction false} ValueReverse(base: nat, cells: seq<digit>)
    ensures ValueBE(base, Reverse(cells)) == Value(base, cells)
  {
    if |cells| > 0 {
      ValueReverse(base, cells[1..]);
      var r := Reverse(cells);
      assert r[..|r| - 1] == Reverse(cells[1..]);
    }
  }

  /** A new least significant digit multiplies what was read so far by the base. */
  lemma ValueBEAppend(base: nat, s: seq<nat>, d: nat)
    ensures ValueBE(base, s + [d]) == ValueBE(base, s) * base + d
  {
    assert (s + [d])[..|s|] == s;
  }

  /** A new most significant digit weighs the base to the length of the rest. */
  lemma {:induction false} ValueBEPrepend(base: nat, d: nat, s: seq<nat>)
    ensures ValueBE(base, [d] + s) == d * Pow(base, |s|) + ValueBE(base, s)
  {
    if |s| > 0 {
      var front, last := s[..|s| - 1], s[|s| - 1];
      ValueBEPrepend(base, d, front);
      assert s == front + [last];
      assert [d] + s == ([d] + front) + [last];
      ValueBEAppend(base, [d] + front, last);
      calc {
        ValueBE(base, [d] + s);
        (d * Pow(base, |front|) + ValueBE(base, front)) * base + last;
        { Distribute(d * Pow(base, |front|), ValueBE(base, front), base); }
        d * Pow(base, |front|) * base + (ValueBE(base, front) * base + last);
        { MulAssoc(d, Pow(base, |front|), base); }
        d * Pow(base, |s|) + ValueBE(base, s);
      }
    }
  }

  lemma Distribute(a: int, b: int, c: int)
    ensures (a + b) * c == a * c + b * c
  {
  }

  lemma {:induction false} ValueBEConcat(base: nat, s: seq<nat>, t: seq<nat>)
    ensures ValueBE(base, s + t) == ValueBE(base, s) * Pow(base, |t|) + ValueBE(base, t)
  {
    if |t| == 0 {
      assert s + t == s;
    } else {
      var front, last := t[..|t| - 1], t[|t| - 1];
      ValueBEConcat(base, s, front);
      assert s + t == (s + front) + [last];
      ValueBEAppend(base, s + front, last);
      Distribute(ValueBE(base, s) * Pow(base, |front|), ValueBE(base, front), base);
      MulAssoc(ValueBE(base, s), Pow(base, |front|), base);
    }
  }

  /** Digits below the base can never reach the base to their count. */
  lemma {:induction false} ValueBEBound(base: nat, s: seq<nat>)
    requires forall i :: 0 <= i < |s| ==> s[i] < base
    ensures ValueBE(base, s) < Pow(base, |s|)
  {
    if |s| > 0 {
      ValueBEBound(base, s[..|s| - 1]);
      var v, p := ValueBE(base, s[..|s| - 1]), Pow(base, |s| - 1);
      MulMonotone(v + 1, p, base);
      Distribute(v, 1, base);
    }
  }

  lemma MulMonotone(a: int, b: int, c: nat)
    requires a <= b
    ensures a * c <= b * c
  {
  }

  /** Adding to one cell adds its weight. */
  lemma {:induction false} ValueUpdate(base: nat, cells: seq<nat>, k: nat, x: nat)
    requires k < |cells|
    ensures Value(base, cells[k := x]) + cells[k] * Pow(base, k) == Value(base, cells) + x * Pow(base, k)
  {
    if k > 0 {
      ValueUpdate(base, cells[1..], k - 1, x);
      assert cells[k := x][1..] == cells[1..][k - 1 := x];
      var t, t' := Value(base, cells[1..]), Value(base, cells[k := x][1..]);
      var p := Pow(base, k - 1);
      ScaleBoth(base, t', cells[k], p);
      ScaleBoth(base, t, x, p);
    }
  }

  lemma ScaleBoth(base: int, t: int, x: int, p: int)
    ensures base * (t + x * p) == base * t + x * (base * p)
  {
  }

  lemma {:induction false} ValueAppend(base: nat, cells: seq<nat>, d: nat)
    ensures Value(base, cells + [d]) == Value(base, cells) + d * Pow(base, |cells|)
  {
    if |cells| > 0 {
      ValueAppend(base, cells[1..], d);
      assert (cells + [d])[1..] == cells[1..] + [d];
      ScaleBoth(base, Value(base, cells[1..]), d, Pow(base, |cells| - 1));
    }
  }

  lemma {:induction false} ValueZeros(base: nat, cells: seq<nat>)
    requires forall i :: 0 <= i < |cells| ==> cells[i] == 0
    ensures Value(base, cells) == 0
  {
    if |cells| > 0 {
      ValueZeros(base, cells[1..]);
    }
  }

  /** No leading zero; the empty vector is zero. */
  predicate Normal(s: seq<nat>) {
    |s| > 0 ==> s[0] != 0
  }

  function StripZeros(s: seq<digit>): (r: seq<digit>)
    ensures Normal(r) && |r| <= |s|
  {
    if |s| > 0 && s[0] == 0 then StripZeros(s[1..]) else s
  }

  lemma {:induction false} StripZerosValue(base: nat, s: seq<digit>)
    ensures ValueBE(base, StripZeros(s)) == ValueBE(base, s)
  {
    if |s| > 0 && s[0] == 0 {
      StripZerosValue(base, s[1..]);
      assert s == [0] + s[1..];
      ValueBEPrepend(base, 0, s[1..]);
    }
  }

  /** A normal non-empty vector is at least the weight of its leading position. */
  lemma NormalLowerBound(base: nat, s: seq<nat>)
    requires Normal(s) && |s| > 0
    ensures Pow(base, |s| - 1) <= ValueBE(base, s)
  {
    assert s == [s[0]] + s[1..];
    hide ValueBE, Pow;
    ValueBEPrepend(base, s[0], s[1..]);
    MulMonotone(1, s[0], Pow(base, |s| - 1));
  }
}

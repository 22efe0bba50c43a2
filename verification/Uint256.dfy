/** Base-10 to base-256 conversion of a decimal uint256 string, with overflow detection. */
module Uint256 {
  import opened Wrappers
  import opened Digits
  import opened Strings
  import opened Text

  datatype Uint256Error = NotDecimal | Overflow

  const LENGTH := 32

  predicate IsDecimal(s: string) {
    |s| > 0 && forall i :: 0 <= i < |s| ==> '0' <= s[i] <= '9'
  }

  /** The number a trimmed decimal string denotes. */
  function DecimalValue(s: string): nat
    requires IsDecimal(s)
  {
    ReadDecimal(Ascii(s))
  }

  /** What the caller gets back, stated without the algorithm: rejected exactly at 2^256, otherwise the value. */
  method ParseU256BeDecimal(s: string) returns (r: Result<seq<byte>, Uint256Error>)
    ensures r == Err(NotDecimal) <==> !IsDecimal(Trim(s))
    ensures r == Err(Overflow) <==> IsDecimal(Trim(s)) && DecimalValue(Trim(s)) >= Pow(256, 32)
    ensures r.Ok? ==> |r.value| == 32 && ValueBE(256, r.value) == DecimalValue(Trim(s))
  {
    hide Pow, ValueBE, Trim;
    var t := Trim(s);
    if !IsDecimal(t) {
      return Err(NotDecimal);
    }
    var digits := Ascii(t);
    var acc := new byte[LENGTH](_ => 0);
    ZeroBytes(acc[..]);
    for i := 0 to |digits|
      invariant ValueBE(256, acc[..]) == ReadDecimal(digits[..i])
    {
      assert digits[..i + 1][..i] == digits[..i];
      var carry := TimesTenPlus(acc, digits[i] - 48);
      if carry != 0 {
        MulMonotone(1, carry, Pow(256, LENGTH));
        PrefixIsSmaller(digits, i + 1);
        return Err(Overflow);
      }
    }
    assert digits[..|digits|] == digits;
    ValueBEBound(256, acc[..]);
    r := Ok(acc[..]);
  }

  lemma {:induction false} ZeroBytes(s: seq<byte>)
    requires forall i :: 0 <= i < |s| ==> s[i] == 0
    ensures ValueBE(256, s) == 0
  {
    if |s| > 0 {
      ZeroBytes(s[..|s| - 1]);
    }
  }

  /** Dropping trailing digits never makes a decimal larger, so an overflowing prefix is an overflowing whole. */
  lemma {:induction false} PrefixIsSmaller(t: Bytes, i: nat)
    requires AllDigits(t) && i <= |t|
    ensures ReadDecimal(t[..i]) <= ReadDecimal(t)
    decreases |t|
  {
    if i == |t| {
      assert t[..i] == t;
    } else {
      PrefixIsSmaller(t[..|t| - 1], i);
      assert t[..|t| - 1][..i] == t[..i];
    }
  }

  /** One digit: multiply the big-endian accumulator by ten and add d; the carry out of every byte is at most 9. */
  method TimesTenPlus(acc: array<byte>, d: digit) returns (carry: nat)
    modifies acc
    ensures carry <= 9
    ensures ValueBE(256, acc[..]) + carry * Pow(256, acc.Length) == old(ValueBE(256, acc[..])) * 10 + d
  {
    hide Pow, ValueBE;
    carry := d;
    var k := acc.Length;
    ghost var was: seq<byte> := acc[..];
    PowZero(256);
    EmptyBytes();
    assert acc[k..] == [] && was[k..] == [];
    while k > 0
      invariant 0 <= k <= acc.Length && carry <= 9
      invariant acc[..k] == was[..k]
      invariant ValueBE(256, acc[k..]) + carry * Pow(256, acc.Length - k) == ValueBE(256, was[k..]) * 10 + d
    {
      k := k - 1;
      assert acc[k] == acc[..k + 1][k] == was[k];
      var v := acc[k] * 10 + carry;
      ghost var high, before := carry, acc[k + 1..];
      acc[k] := v % 256;
      carry := v / 256;
      assert acc[k + 1..] == before;
      assert acc[k..] == [v % 256] + acc[k + 1..];
      assert was[k..] == [was[k]] + was[k + 1..];
      ValueBEPrepend(256, v % 256, before);
      ValueBEPrepend(256, was[k], was[k + 1..]);
      PowStep(256, |before|);
      CarryByte(was[k], high, Pow(256, |before|));
    }
    assert acc[0..] == acc[..] && was[0..] == was;
  }

  lemma EmptyBytes()
    ensures ValueBE(256, []) == 0
  {
  }

  lemma CarryByte(b: byte, carry: nat, p: nat)
    ensures ((b * 10 + carry) % 256) * p + ((b * 10 + carry) / 256) * (256 * p) == (b * p) * 10 + carry * p
  {
    var v := b * 10 + carry;
    MulAssoc(v / 256, 256, p);
    Distribute(v % 256, v / 256 * 256, p);
    Distribute(b * 10, carry, p);
    assert v == v % 256 + v / 256 * 256;
    assert b * 10 * p == (b * p) * 10;
  }

  /** The fixed-width big-endian form is unique, so equal results mean equal amounts and conversely. */
  lemma {:induction false} BigEndianIsUnique(x: seq<byte>, y: seq<byte>)
    requires |x| == |y|
    ensures x == y <==> ValueBE(256, x) == ValueBE(256, y)
  {
    if |x| > 0 && ValueBE(256, x) == ValueBE(256, y) {
      var n := |x| - 1;
      BigEndianIsUnique(x[..n], y[..n]);
      assert x == x[..n] + [x[n]] && y == y[..n] + [y[n]];
    }
  }
}

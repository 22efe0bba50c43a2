/**
 Exact money arithmetic on decimal strings: parse to digit vectors, schoolbook multiply, scale-aligned add and
 compare, and the cap checks built from them. Everything is tied to `Meaning`, the rational number a decimal
 string denotes.
 */
module Decimal {
  import opened Wrappers
  import opened Digits
  import opened Text
  import opened Listing

  const MAX_OPERAND_LEN := 64
  const U32_LIMIT := 0x1_0000_0000

  type u32 = n: int | 0 <= n < U32_LIMIT

  datatype DecimalError = Empty | TooLong | BadByte | TwoDots | NoDigits

  datatype Ordering = Less | Equal | Greater

  /** Most-significant-first digits and a fractional scale: digits / 10^scale. */
  datatype Scaled = Scaled(digits: seq<digit>, scale: nat)

  const DOT: byte := 46

  predicate IsDot(b: byte) {
    b == DOT
  }

  function DigitsOf(s: Bytes): (d: seq<digit>)
    requires AllDigits(s)
    ensures |d| == |s|
  {
    seq(|s|, i requires 0 <= i < |s| => s[i] - 48)
  }

  // ---------------------------------------------------------------- meaning

  /** The operands the money path accepts. */
  predicate WellFormed(s: Bytes) {
    0 < |s| <= MAX_OPERAND_LEN && OnlyDigitsAndDots(s) && AtMostOneDot(s) && HasDigit(s)
  }

  predicate OnlyDigitsAndDots(s: Bytes) {
    forall i :: 0 <= i < |s| ==> IsDigit(s[i]) || IsDot(s[i])
  }

  predicate AtMostOneDot(s: Bytes) {
    forall i, j :: 0 <= i < j < |s| ==> !(IsDot(s[i]) && IsDot(s[j]))
  }

  predicate HasDigit(s: Bytes) {
    exists i :: 0 <= i < |s| && IsDigit(s[i])
  }

  /** In characters: one to sixty-four of them, digits and at most one point, and a digit among them. */
  lemma WellFormedMeans(s: Bytes)
    ensures WellFormed(s) <==>
      && 1 <= |s| <= 64
      && (forall i :: 0 <= i < |s| ==> '0' as int <= s[i] <= '9' as int || s[i] == '.' as int)
      && (forall i, j :: 0 <= i < j < |s| && s[i] == '.' as int ==> s[j] != '.' as int)
      && (exists i :: 0 <= i < |s| && s[i] != '.' as int)
  {
    if WellFormed(s) {
      var i :| 0 <= i < |s| && IsDigit(s[i]);
      assert s[i] != '.' as int;
    }
  }

  /** 0.f1f2f3... as a rational. */
  function Fraction(f: Bytes): real
    requires AllDigits(f)
  {
    if |f| == 0 then 0.0 else ((f[0] - 48) as real + Fraction(f[1..])) / 10.0
  }

  function WholePart(s: Bytes): Bytes {
    s[..Find(s, DOT)]
  }

  function FractionPart(s: Bytes): Bytes {
    var k := Find(s, DOT);
    if k < |s| then s[k + 1..] else []
  }

  /** The rational number a decimal string denotes (zero for a string that denotes none). */
  function Meaning(s: Bytes): real {
    if WellFormed(s) then
      PartsAreDigits(s);
      ValueBE(10, DigitsOf(WholePart(s))) as real + Fraction(FractionPart(s))
    else
      0.0
  }

  function Ratio(n: nat, d: nat): real
    requires 0 < d
  {
    n as real / d as real
  }

  /** The rational number a digit vector denotes. */
  function Amount(x: Scaled): real {
    PowPositive(10, x.scale);
    Ratio(ValueBE(10, x.digits), Pow(10, x.scale))
  }

  // ---------------------------------------------------------------- parsing

  function DotCount(s: Bytes): nat {
    if |s| == 0 then 0 else (if IsDot(s[0]) then 1 else 0) + DotCount(s[1..])
  }

  lemma {:induction false} DotCountZero(s: Bytes)
    ensures DotCount(s) == 0 <==> forall i :: 0 <= i < |s| ==> !IsDot(s[i])
  {
    if |s| > 0 {
      DotCountZero(s[1..]);
      assert forall i :: 0 < i < |s| ==> s[i] == s[1..][i - 1];
      assert DotCount(s) == 0 ==> !IsDot(s[0]);
    }
  }

  lemma {:induction false} DotCountAtMostOne(s: Bytes)
    ensures DotCount(s) <= 1 <==> AtMostOneDot(s)
  {
    if |s| > 0 {
      DotCountAtMostOne(s[1..]);
      DotCountZero(s[1..]);
      assert forall i :: 0 < i < |s| ==> s[i] == s[1..][i - 1];
      if DotCount(s) <= 1 {
        forall i, j | 0 <= i < j < |s| ensures !(IsDot(s[i]) && IsDot(s[j])) {
          assert s[j] == s[1..][j - 1];
        }
      } else if IsDot(s[0]) {
        var j :| 0 <= j < |s[1..]| && IsDot(s[1..][j]);
        assert IsDot(s[0]) && IsDot(s[j + 1]);
      } else {
        var i, j :| 0 <= i < j < |s[1..]| && IsDot(s[1..][i]) && IsDot(s[1..][j]);
        assert IsDot(s[i + 1]) && IsDot(s[j + 1]);
      }
    }
  }

  function DecimalDigits(s: Bytes): (r: Result<Scaled, DecimalError>)
    ensures r.Ok? <==> WellFormed(s)
    ensures r.Ok? ==> Normal(r.value.digits) && |r.value.digits| <= MAX_OPERAND_LEN && r.value.scale < |s|
  {
    if |s| == 0 then Err(Empty)
    else if |s| > MAX_OPERAND_LEN then Err(TooLong)
    else if !OnlyDigitsAndDots(s) then Err(BadByte)
    else
      DotCountAtMostOne(s);
      if DotCount(s) > 1 then Err(TwoDots)
      else if !HasDigit(s) then Err(NoDigits)
      else
        PartsAreDigits(s);
        Ok(Scaled(StripZeros(DigitsOf(WholePart(s) + FractionPart(s))), |FractionPart(s)|))
  }

  /** Around its only dot a string has nothing but digits. */
  lemma PartsAreDigits(s: Bytes)
    requires OnlyDigitsAndDots(s) && AtMostOneDot(s) && HasDigit(s)
    ensures AllDigits(WholePart(s)) && AllDigits(FractionPart(s)) && AllDigits(WholePart(s) + FractionPart(s))
    ensures |WholePart(s) + FractionPart(s)| <= |s| && |FractionPart(s)| < |s|
  {
    var k := Find(s, DOT);
    forall i | 0 <= i < k ensures IsDigit(WholePart(s)[i]) {
      assert !IsDot(s[i]);
    }
    forall i | 0 <= i < |FractionPart(s)| ensures IsDigit(FractionPart(s)[i]) {
      assert IsDot(s[k]) && FractionPart(s)[i] == s[k + 1 + i];
    }
  }

  lemma {:induction false} FractionIsQuotient(f: Bytes)
    requires AllDigits(f)
    ensures Fraction(f) == Amount(Scaled(DigitsOf(f), |f|))
  {
    hide Ratio;
    RatioOfZero();
    if |f| > 0 {
      FractionIsQuotient(f[1..]);
      var d, t := f[0] - 48, f[1..];
      assert DigitsOf(f) == [d] + DigitsOf(t);
      ValueBEPrepend(10, d, DigitsOf(t));
      PowPositive(10, |t|);
      QuotientStep(d, ValueBE(10, DigitsOf(t)), Pow(10, |t|));
    }
  }

  lemma RatioOfZero()
    ensures Ratio(0, 1) == 0.0
  {
  }

  lemma QuotientStep(d: nat, v: nat, p: nat)
    requires 0 < p
    ensures (d as real + Ratio(v, p)) / 10.0 == Ratio(d * p + v, 10 * p)
  {
    var x, q := Ratio(v, p), p as real;
    assert x * q == v as real;
    assert (10 * p) as real == 10.0 * q;
    assert ((d as real + x) / 10.0) * (10.0 * q) == d as real * q + x * q;
    assert (d * p + v) as real == d as real * q + v as real;
  }

  /** Parsing keeps the value: the digit vector denotes what the string denotes. */
  lemma ParseIsExact(s: Bytes)
    requires WellFormed(s)
    ensures DecimalDigits(s).Ok? && Amount(DecimalDigits(s).value) == Meaning(s)
  {
    hide Amount, Fraction, StripZeros, ValueBE, Pow, DotCount, WholePart, FractionPart;
    PartsAreDigits(s);
    AmountOfParts(WholePart(s), FractionPart(s));
  }

  lemma AmountOfParts(w: Bytes, f: Bytes)
    requires AllDigits(w) && AllDigits(f)
    ensures Amount(Scaled(StripZeros(DigitsOf(w + f)), |f|)) == ValueBE(10, DigitsOf(w)) as real + Fraction(f)
  {
    hide Fraction, StripZeros, Pow, ValueBE, Ratio, DigitsOf, Joined;
    FractionIsQuotient(f);
    ValueOfParts(w, f);
    PowPositive(10, |f|);
    SumOverDenominator(ValueBE(10, DigitsOf(w)), ValueBE(10, DigitsOf(f)), Pow(10, |f|));
  }

  /** A high part of weight p followed by a low part. */
  function Joined(high: nat, p: nat, low: nat): nat {
    high * p + low
  }

  lemma ValueOfParts(w: Bytes, f: Bytes)
    requires AllDigits(w) && AllDigits(f)
    ensures ValueBE(10, StripZeros(DigitsOf(w + f)))
         == Joined(ValueBE(10, DigitsOf(w)), Pow(10, |f|), ValueBE(10, DigitsOf(f)))
  {
    hide StripZeros, Pow, ValueBE, DigitsOf;
    DigitsOfConcat(w, f);
    ValueBEConcat(10, DigitsOf(w), DigitsOf(f));
    StripZerosValue(10, DigitsOf(w + f));
  }

  lemma DigitsOfConcat(w: Bytes, f: Bytes)
    requires AllDigits(w) && AllDigits(f)
    ensures DigitsOf(w + f) == DigitsOf(w) + DigitsOf(f)
  {
  }

  lemma SumOverDenominator(a: nat, b: nat, p: nat)
    requires 0 < p
    ensures a as real + Ratio(b, p) == Ratio(Joined(a, p, b), p)
  {
    var x, q := Ratio(b, p), p as real;
    assert x * q == b as real;
    assert (a as real + x) * q == a as real * q + x * q;
    assert Joined(a, p, b) as real == a as real * q + b as real;
    QuotientOf(a as real + x, Joined(a, p, b) as real, q);
  }

  lemma QuotientOf(x: real, n: real, q: real)
    requires q > 0.0 && x * q == n
    ensures x == n / q
  {
  }

  // ---------------------------------------------------------------- scale alignment and comparison

  function Zeros(k: nat): (z: seq<digit>)
    ensures |z| == k
  {
    seq(k, _ => 0)
  }

  /** Multiply by 10^k, leaving zero empty. */
  function ShiftLeft(d: seq<digit>, k: nat): (r: seq<digit>)
    ensures Normal(d) ==> Normal(r)
  {
    if |d| == 0 then d else d + Zeros(k)
  }

  lemma {:induction false} ZerosValue(k: nat)
    ensures ValueBE(10, Zeros(k)) == 0
  {
    if k > 0 {
      ZerosValue(k - 1);
      assert Zeros(k) == Zeros(k - 1) + [0];
      ValueBEAppend(10, Zeros(k - 1), 0);
    }
  }

  lemma ShiftLeftValue(d: seq<digit>, k: nat)
    ensures ValueBE(10, ShiftLeft(d, k)) == ValueBE(10, d) * Pow(10, k)
  {
    if |d| > 0 {
      ValueBEConcat(10, d, Zeros(k));
      ZerosValue(k);
    }
  }

  /** Rescaling moves the point without changing the amount. */
  lemma RescaleAmount(x: Scaled, k: nat)
    ensures Amount(Scaled(ShiftLeft(x.digits, k), x.scale + k)) == Amount(x)
  {
    hide Ratio, Pow, ValueBE, ShiftLeft;
    ShiftLeftValue(x.digits, k);
    PowAdd(10, x.scale, k);
    PowPositive(10, x.scale);
    PowPositive(10, k);
    CancelFactor(ValueBE(10, x.digits), Pow(10, x.scale), Pow(10, k));
  }

  lemma CancelFactor(v: nat, p: nat, q: nat)
    requires 0 < p && 0 < q
    ensures 0 < p * q
    ensures Ratio(v * q, p * q) == Ratio(v, p)
  {
    var vr, pr, qr := v as real, p as real, q as real;
    assert (v * q) as real == vr * qr && (p * q) as real == pr * qr;
    var x := vr / pr;
    assert x * pr == vr;
    assert x * (pr * qr) == vr * qr;
  }

  function LexCompare(l: seq<digit>, r: seq<digit>): Ordering
    requires |l| == |r|
  {
    if |l| == 0 then Equal
    else if l[0] < r[0] then Less
    else if l[0] > r[0] then Greater
    else LexCompare(l[1..], r[1..])
  }

  function CompareNat(a: int, b: int): Ordering {
    if a < b then Less else if a > b then Greater else Equal
  }

  function CompareReal(a: real, b: real): Ordering {
    if a < b then Less else if a > b then Greater else Equal
  }

  lemma {:induction false} LexIsNumeric(l: seq<digit>, r: seq<digit>)
    requires |l| == |r|
    ensures LexCompare(l, r) == CompareNat(ValueBE(10, l), ValueBE(10, r))
  {
    if |l| > 0 {
      var p := Pow(10, |l| - 1);
      assert l == [l[0]] + l[1..] && r == [r[0]] + r[1..];
      ValueBEPrepend(10, l[0], l[1..]);
      ValueBEPrepend(10, r[0], r[1..]);
      ValueBEBound(10, l[1..]);
      ValueBEBound(10, r[1..]);
      if l[0] < r[0] {
        MulMonotone(l[0] + 1, r[0], p);
        Distribute(l[0], 1, p);
      } else if l[0] > r[0] {
        MulMonotone(r[0] + 1, l[0], p);
        Distribute(r[0], 1, p);
      } else {
        LexIsNumeric(l[1..], r[1..]);
      }
    }
  }

  function CompareDigits(l: seq<digit>, r: seq<digit>): Ordering {
    if |l| < |r| then Less else if |l| > |r| then Greater else LexCompare(l, r)
  }

  lemma ShorterIsSmaller(l: seq<digit>, r: seq<digit>)
    requires Normal(r) && |l| < |r|
    ensures ValueBE(10, l) < ValueBE(10, r)
  {
    ValueBEBound(10, l);
    NormalLowerBound(10, r);
    PowMonotone(|l|, |r| - 1);
  }

  lemma {:induction false} PowMonotone(m: nat, n: nat)
    requires m <= n
    ensures Pow(10, m) <= Pow(10, n)
    decreases n
  {
    if m < n {
      PowMonotone(m, n - 1);
    }
  }

  /** Length first, then lexicographic, is the numeric order of normal vectors. */
  lemma CompareDigitsIsNumeric(l: seq<digit>, r: seq<digit>)
    requires Normal(l) && Normal(r)
    ensures CompareDigits(l, r) == CompareNat(ValueBE(10, l), ValueBE(10, r))
  {
    if |l| < |r| {
      ShorterIsSmaller(l, r);
    } else if |l| > |r| {
      ShorterIsSmaller(r, l);
    } else {
      LexIsNumeric(l, r);
    }
  }

  function CmpScaled(l: Scaled, r: Scaled): Ordering {
    if l.scale < r.scale then CompareDigits(ShiftLeft(l.digits, r.scale - l.scale), r.digits)
    else CompareDigits(l.digits, ShiftLeft(r.digits, l.scale - r.scale))
  }

  lemma SameDenominator(a: nat, b: nat, p: nat)
    requires 0 < p
    ensures CompareNat(a, b) == CompareReal(Ratio(a, p), Ratio(b, p))
  {
    var x, y, q := Ratio(a, p), Ratio(b, p), p as real;
    assert x * q == a as real && y * q == b as real;
    RealMulMonotone(x, y, q);
    RealMulMonotone(y, x, q);
  }

  lemma RealMulMonotone(x: real, y: real, q: real)
    requires 0.0 < q
    ensures x <= y ==> x * q <= y * q
  {
  }

  /** The scale-aligned digit comparison is the comparison of the rational amounts. */
  lemma CmpScaledIsExact(l: Scaled, r: Scaled)
    requires Normal(l.digits) && Normal(r.digits)
    ensures CmpScaled(l, r) == CompareReal(Amount(l), Amount(r))
  {
    hide Ratio, Pow, ValueBE, CompareDigits;
    var k := if l.scale < r.scale then r.scale else l.scale;
    var x := Scaled(ShiftLeft(l.digits, k - l.scale), k);
    var y := Scaled(ShiftLeft(r.digits, k - r.scale), k);
    RescaleAmount(l, k - l.scale);
    RescaleAmount(r, k - r.scale);
    assert ShiftLeft(l.digits, 0) == l.digits && ShiftLeft(r.digits, 0) == r.digits;
    CompareDigitsIsNumeric(x.digits, y.digits);
    PowPositive(10, k);
    SameDenominator(ValueBE(10, x.digits), ValueBE(10, y.digits), Pow(10, k));
  }

  // ---------------------------------------------------------------- multiplication

  /** Schoolbook product. The bound on `a` is what keeps every cell, with its carry, inside a u32. */
  method MulDigits(a: seq<digit>, b: seq<digit>) returns (out: seq<digit>)
    requires 90 * |a| < U32_LIMIT
    ensures Normal(out)
    ensures ValueBE(10, out) == ValueBE(10, a) * ValueBE(10, b)
  {
    if |a| == 0 || |b| == 0 {
      return [];
    }
    var acc := new u32[|a| + |b|](_ => 0);
    ValueZeros(10, acc[..]);
    for i := 0 to |a|
      invariant forall k :: 0 <= k < acc.Length ==> acc[k] <= 81 * i
      invariant Value(10, acc[..]) == ValueBE(10, a[|a| - i..]) * ValueBE(10, b)
    {
      var da := a[|a| - 1 - i];
      AccumulateRow(acc, i, da, b, 81 * i);
      assert a[|a| - 1 - i..] == [da] + a[|a| - i..];
      ValueBEPrepend(10, da, a[|a| - i..]);
      Distribute(da * Pow(10, i), ValueBE(10, a[|a| - i..]), ValueBE(10, b));
    }
    assert a[0..] == a;
    ProductFits(a, b);
    out := CarryAndStrip(acc, 81 * |a|, ValueBE(10, a) * ValueBE(10, b));
  }

  /** One row of the product: add da * b, shifted by i cells, into the accumulator. */
  method AccumulateRow(acc: array<u32>, i: nat, da: digit, b: seq<digit>, bound: nat)
    requires i + |b| <= acc.Length
    requires bound + 81 < U32_LIMIT
    requires forall k :: 0 <= k < acc.Length ==> acc[k] <= bound
    modifies acc
    ensures forall k :: 0 <= k < acc.Length ==> acc[k] <= bound + 81
    ensures Value(10, acc[..]) == old(Value(10, acc[..])) + da * Pow(10, i) * ValueBE(10, b)
  {
    hide Pow, Value, ValueBE;
    EmptyValue();
    assert b[|b|..] == [];
    for j := 0 to |b|
      invariant forall k :: 0 <= k < i + j ==> acc[k] <= bound + 81
      invariant forall k :: i + j <= k < acc.Length ==> acc[k] <= bound
      invariant Value(10, acc[..]) == old(Value(10, acc[..])) + da * Pow(10, i) * ValueBE(10, b[|b| - j..])
    {
      var db := b[|b| - 1 - j];
      ProductBound(da, db);
      ghost var before: seq<nat> := acc[..];
      acc[i + j] := acc[i + j] + da * db;
      assert acc[..] == before[i + j := before[i + j] + da * db];
      ValueUpdate(10, before, i + j, before[i + j] + da * db);
      Distribute(before[i + j], da * db, Pow(10, i + j));
      assert b[|b| - 1 - j..] == [db] + b[|b| - j..];
      ValueBEPrepend(10, db, b[|b| - j..]);
      PartialProduct(da, db, i, j, ValueBE(10, b[|b| - j..]));
    }
    assert b[0..] == b;
  }

  lemma ProductBound(x: digit, y: digit)
    ensures 0 <= x * y <= 81
  {
    MulMonotone(x, 9, y);
  }

  lemma PartialProduct(da: nat, db: nat, i: nat, j: nat, v: nat)
    ensures da * Pow(10, i) * (db * Pow(10, j) + v) == da * Pow(10, i) * v + da * db * Pow(10, i + j)
  {
    PowAdd(10, i, j);
    Rearrange(da, Pow(10, i), db, Pow(10, j), v);
  }

  lemma Rearrange(a: int, p: int, b: int, q: int, v: int)
    ensures a * p * (b * q + v) == a * p * v + a * b * (p * q)
  {
    Distribute(b * q, v, a * p);
    assert a * p * (b * q) == a * b * (p * q);
  }

  /** Release the carries cell by cell; a product that fits its cells leaves no carry over. */
  method CarryAndStrip(acc: array<u32>, bound: nat, ghost product: nat) returns (out: seq<digit>)
    requires 10 * bound < 9 * U32_LIMIT
    requires forall k :: 0 <= k < acc.Length ==> acc[k] <= bound
    requires Value(10, acc[..]) == product < Pow(10, acc.Length)
    modifies acc
    ensures Normal(out)
    ensures ValueBE(10, out) == product
  {
    hide Pow, ValueBE, StripZeros, Value;
    var carry: u32 := 0;
    PowZero(10);
    for p := 0 to acc.Length
      invariant 9 * carry <= bound
      invariant forall k :: 0 <= k < p ==> acc[k] < 10
      invariant forall k :: p <= k < acc.Length ==> acc[k] <= bound
      invariant Value(10, acc[..]) + carry * Pow(10, p) == product
    {
      ghost var before: seq<nat> := acc[..];
      var v: u32 := acc[p] + carry;
      acc[p] := v % 10;
      assert acc[..] == before[p := v % 10];
      ValueUpdate(10, before, p, v % 10);
      CarryStep(before[p], carry, Pow(10, p));
      PowStep(10, p);
      carry := v / 10;
    }
    assert carry == 0 by {
      if carry > 0 {
        MulMonotone(1, carry, Pow(10, acc.Length));
        assert false;
      }
    }
    var cells: seq<digit> := acc[..];
    ValueReverse(10, cells);
    out := StripZeros(Reverse(cells));
    StripZerosValue(10, Reverse(cells));
  }

  lemma CarryStep(cell: nat, carry: nat, p: nat)
    ensures cell * p + carry * p == ((cell + carry) % 10) * p + ((cell + carry) / 10) * (10 * p)
  {
    var v := cell + carry;
    Distribute(cell, carry, p);
    assert v == v % 10 + (v / 10) * 10;
    Distribute(v % 10, (v / 10) * 10, p);
    MulAssoc(v / 10, 10, p);
  }

  lemma ProductFits(a: seq<digit>, b: seq<digit>)
    ensures ValueBE(10, a) * ValueBE(10, b) < Pow(10, |a| + |b|)
  {
    ValueBEBound(10, a);
    ValueBEBound(10, b);
    PowAdd(10, |a|, |b|);
    ProductBelow(ValueBE(10, a), Pow(10, |a|), ValueBE(10, b), Pow(10, |b|));
  }

  lemma ProductBelow(x: nat, p: nat, y: nat, q: nat)
    requires x < p && y < q
    ensures x * y < p * q
  {
    MulMonotone(x, p, y);
    MulMonotone(y + 1, q, p);
    Distribute(y, 1, p);
  }

  // ---------------------------------------------------------------- addition

  /** The k lowest digits of x, or all of them. */
  function Low(x: seq<digit>, k: nat): seq<digit> {
    if k <= |x| then x[|x| - k..] else x
  }

  lemma LowNone(x: seq<digit>)
    ensures Low(x, 0) == []
  {
  }

  lemma LowAll(x: seq<digit>, n: nat)
    requires |x| <= n
    ensures Low(x, n) == x
  {
  }

  /** Digit k from the right, zero past the left end (an exhausted reversed iterator). */
  function DigitFromRight(x: seq<digit>, k: nat): digit {
    if k < |x| then x[|x| - 1 - k] else 0
  }

  lemma LowStep(x: seq<digit>, k: nat)
    ensures ValueBE(10, Low(x, k + 1)) == DigitFromRight(x, k) * Pow(10, k) + ValueBE(10, Low(x, k))
  {
    if k < |x| {
      assert Low(x, k + 1) == [x[|x| - 1 - k]] + Low(x, k);
      ValueBEPrepend(10, x[|x| - 1 - k], Low(x, k));
    }
  }

  /** One column of the sum: digit out, carry on. */
  lemma ColumnSum(x: seq<digit>, y: seq<digit>, k: nat, cells: seq<digit>, carry: nat)
    requires |cells| == k && carry <= 1
    requires Value(10, cells) + carry * Pow(10, k) == ValueBE(10, Low(x, k)) + ValueBE(10, Low(y, k))
    ensures var s := DigitFromRight(x, k) + DigitFromRight(y, k) + carry;
      Value(10, cells + [s % 10]) + (s / 10) * Pow(10, k + 1) == ValueBE(10, Low(x, k + 1)) + ValueBE(10, Low(y, k + 1))
  {
    hide Pow, ValueBE, Value, Low, DigitFromRight;
    var s := DigitFromRight(x, k) + DigitFromRight(y, k) + carry;
    LowStep(x, k);
    LowStep(y, k);
    ValueAppend(10, cells, s % 10);
    AddStep(DigitFromRight(x, k), DigitFromRight(y, k), carry, Pow(10, k));
    PowStep(10, k);
  }

  /** Ripple-carry sum of two integers; each step stays below 20, so a u8 holds it. */
  method AddAligned(x: seq<digit>, y: seq<digit>) returns (out: seq<digit>)
    ensures Normal(out)
    ensures ValueBE(10, out) == ValueBE(10, x) + ValueBE(10, y)
  {
    hide Pow, ValueBE, Value, StripZeros, Low, Reverse;
    var n := if |x| < |y| then |y| else |x|;
    var cells: seq<digit>, carry: byte := [], 0;
    EmptyValue();
    PowZero(10);
    LowNone(x);
    LowNone(y);
    for k := 0 to n
      invariant |cells| == k && carry <= 1
      invariant Value(10, cells) + carry * Pow(10, k) == ValueBE(10, Low(x, k)) + ValueBE(10, Low(y, k))
    {
      var s: byte := DigitFromRight(x, k) + DigitFromRight(y, k) + carry;
      ColumnSum(x, y, k, cells, carry);
      cells := cells + [s % 10];
      carry := s / 10;
    }
    if carry > 0 {
      ValueAppend(10, cells, carry);
      cells := cells + [carry];
    }
    LowAll(x, n);
    LowAll(y, n);
    ValueReverse(10, cells);
    StripZerosValue(10, Reverse(cells));
    out := StripZeros(Reverse(cells));
  }

  lemma EmptyValue()
    ensures Value(10, []) == ValueBE(10, []) == 0
  {
  }

  /** Exact sum of two scaled vectors at the larger scale. */
  method AddDigits(a: Scaled, b: Scaled) returns (sum: Scaled)
    requires Normal(a.digits) && Normal(b.digits)
    ensures Normal(sum.digits)
    ensures Amount(sum) == Amount(a) + Amount(b)
  {
    hide Amount, ShiftLeft, ValueBE;
    var scale := if a.scale < b.scale then b.scale else a.scale;
    var x := ShiftLeft(a.digits, scale - a.scale);
    var y := ShiftLeft(b.digits, scale - b.scale);
    var out := AddAligned(x, y);
    sum := Scaled(out, scale);
    RescaleAmount(a, scale - a.scale);
    RescaleAmount(b, scale - b.scale);
    AddAmount(x, y, out, scale);
  }

  lemma AddAmount(x: seq<digit>, y: seq<digit>, out: seq<digit>, scale: nat)
    requires ValueBE(10, out) == ValueBE(10, x) + ValueBE(10, y)
    ensures Amount(Scaled(out, scale)) == Amount(Scaled(x, scale)) + Amount(Scaled(y, scale))
  {
    hide Pow, ValueBE, Ratio;
    PowPositive(10, scale);
    AddQuotients(ValueBE(10, x), ValueBE(10, y), Pow(10, scale));
  }

  lemma AddStep(x: nat, y: nat, carry: nat, p: nat)
    ensures carry * p + x * p + y * p == ((x + y + carry) % 10) * p + ((x + y + carry) / 10) * (10 * p)
  {
    CarryStep(x + y, carry, p);
    Distribute(x, y, p);
  }

  lemma AddQuotients(a: nat, b: nat, p: nat)
    requires 0 < p
    ensures Ratio(a, p) + Ratio(b, p) == Ratio(a + b, p)
  {
  }

  lemma ZeroAmount()
    ensures Amount(Scaled([], 0)) == 0.0
  {
  }

  /** The product of two amounts at the sum of their scales. */
  lemma MulAmount(x: Scaled, y: Scaled, product: seq<digit>)
    requires ValueBE(10, product) == ValueBE(10, x.digits) * ValueBE(10, y.digits)
    ensures Amount(Scaled(product, x.scale + y.scale)) == Amount(x) * Amount(y)
  {
    hide Pow, ValueBE, Ratio;
    PowAdd(10, x.scale, y.scale);
    PowPositive(10, x.scale);
    PowPositive(10, y.scale);
    MulQuotients(ValueBE(10, x.digits), Pow(10, x.scale), ValueBE(10, y.digits), Pow(10, y.scale));
  }

  lemma MulQuotients(a: nat, p: nat, b: nat, q: nat)
    requires 0 < p && 0 < q
    ensures 0 < p * q
    ensures Ratio(a * b, p * q) == Ratio(a, p) * Ratio(b, q)
  {
    var pr, qr := p as real, q as real;
    var x, y := Ratio(a, p), Ratio(b, q);
    assert x * pr == a as real && y * qr == b as real;
    assert (a * b) as real == a as real * b as real;
    assert (p * q) as real == pr * qr;
    assert (x * y) * (pr * qr) == (x * pr) * (y * qr);
  }

  // ---------------------------------------------------------------- cap checks

  function CmpPositiveDecimals(a: Bytes, b: Bytes): (r: Result<Ordering, DecimalError>)
    ensures r.Ok? <==> WellFormed(a) && WellFormed(b)
    ensures r.Ok? ==> r.value == CompareReal(Meaning(a), Meaning(b))
    ensures r.Err? ==> FirstFault([a, b], r.error)
  {
    assert [a, b][0] == a && [a, b][1] == b;
    var x :- DecimalDigits(a);
    var y :- DecimalDigits(b);
    ParseIsExact(a);
    ParseIsExact(b);
    CmpScaledIsExact(x, y);
    Ok(CmpScaled(x, y))
  }

  /** e is the fault of the first malformed operand, in the order the operands are read. */
  predicate FirstFault(operands: seq<Bytes>, e: DecimalError) {
    exists k :: 0 <= k < |operands|
                && DecimalDigits(operands[k]) == Err(e)
                && forall j :: 0 <= j < k ==> WellFormed(operands[j])
  }

  method NotionalExceeds(qty: Bytes, price: Bytes, maxNotional: Bytes) returns (r: Result<bool, DecimalError>)
    ensures r.Ok? <==> WellFormed(qty) && WellFormed(price) && WellFormed(maxNotional)
    ensures r.Ok? ==> (r.value <==> Meaning(qty) * Meaning(price) > Meaning(maxNotional))
    ensures r.Err? ==> FirstFault([qty, price, maxNotional], r.error)
  {
    hide DecimalDigits, Amount, Meaning, CmpScaled;
    ghost var operands := [qty, price, maxNotional];
    var q := DecimalDigits(qty);
    if q.Err? { assert operands[0] == qty; return Err(q.error); }
    var p := DecimalDigits(price);
    if p.Err? { assert operands[1] == price; return Err(p.error); }
    var c := DecimalDigits(maxNotional);
    if c.Err? { assert operands[2] == maxNotional; return Err(c.error); }
    var product := MulDigits(q.value.digits, p.value.digits);
    ParseIsExact(qty);
    ParseIsExact(price);
    ParseIsExact(maxNotional);
    MulAmount(q.value, p.value, product);
    CmpScaledIsExact(Scaled(product, q.value.scale + p.value.scale), c.value);
    r := Ok(CmpScaled(Scaled(product, q.value.scale + p.value.scale), c.value) == Greater);
  }

  /** Sum of a quantity over a batch. */
  function Total<T>(xs: seq<T>, f: T -> real): real {
    if |xs| == 0 then 0.0 else Total(xs[..|xs| - 1], f) + f(xs[|xs| - 1])
  }

  method SumExceeds(values: seq<Bytes>, cap: Bytes) returns (r: Result<bool, DecimalError>)
    ensures r.Ok? <==> WellFormed(cap) && forall v :: v in values ==> WellFormed(v)
    ensures r.Ok? ==> (r.value <==> Total(values, Meaning) > Meaning(cap))
    ensures r.Err? ==> FirstFault([cap] + values, r.error)
  {
    hide DecimalDigits, Amount, Meaning, CmpScaled;
    ghost var operands := [cap] + values;
    var c := DecimalDigits(cap);
    if c.Err? { assert operands[0] == cap; return Err(c.error); }
    var acc := Scaled([], 0);
    ZeroAmount();
    for i := 0 to |values|
      invariant forall j :: 0 <= j < i ==> WellFormed(values[j])
      invariant Normal(acc.digits)
      invariant Amount(acc) == Total(values[..i], Meaning)
    {
      var d := DecimalDigits(values[i]);
      if d.Err? { assert operands[i + 1] == values[i]; return Err(d.error); }
      ParseIsExact(values[i]);
      acc := AddDigits(acc, d.value);
      assert values[..i + 1][..i] == values[..i];
    }
    assert values[..|values|] == values;
    ParseIsExact(cap);
    CmpScaledIsExact(acc, c.value);
    r := Ok(CmpScaled(acc, c.value) == Greater);
  }

  function Notional(pair: (Bytes, Bytes)): real {
    Meaning(pair.0) * Meaning(pair.1)
  }

  /** The operands of a batch of pairs in the order they are parsed. */
  function PairOperands(pairs: seq<(Bytes, Bytes)>): seq<Bytes> {
    seq(2 * |pairs|, k requires 0 <= k < 2 * |pairs| => if k % 2 == 0 then pairs[k / 2].0 else pairs[k / 2].1)
  }

  lemma PairFault(pairs: seq<(Bytes, Bytes)>, cap: Bytes, i: nat, e: DecimalError)
    requires i < |pairs| && WellFormed(cap)
    requires forall j :: 0 <= j < i ==> WellFormed(pairs[j].0) && WellFormed(pairs[j].1)
    requires DecimalDigits(pairs[i].0) == Err(e) || (WellFormed(pairs[i].0) && DecimalDigits(pairs[i].1) == Err(e))
    ensures FirstFault([cap] + PairOperands(pairs), e)
  {
    hide DecimalDigits, WellFormed;
    var ops := [cap] + PairOperands(pairs);
    var k := if WellFormed(pairs[i].0) then 2 * i + 2 else 2 * i + 1;
    assert ops[k] == if k == 2 * i + 1 then pairs[i].0 else pairs[i].1;
    forall j | 0 <= j < k ensures WellFormed(ops[j]) {
      if j > 0 {
        assert (j - 1) / 2 <= i;
      }
    }
  }

  /** The aggregate notional cap: is the exact rational sum of qty * price strictly above the cap? */
  method NotionalSumExceeds(pairs: seq<(Bytes, Bytes)>, maxNotional: Bytes) returns (r: Result<bool, DecimalError>)
    ensures r.Ok? <==> WellFormed(maxNotional) && forall p :: p in pairs ==> WellFormed(p.0) && WellFormed(p.1)
    ensures r.Ok? ==> (r.value <==> Total(pairs, Notional) > Meaning(maxNotional))
    ensures r.Err? ==> FirstFault([maxNotional] + PairOperands(pairs), r.error)
  {
    hide DecimalDigits, Amount, Meaning, CmpScaled, WellFormed, PairOperands, ValueBE;
    ghost var operands := [maxNotional] + PairOperands(pairs);
    var c := DecimalDigits(maxNotional);
    if c.Err? { assert operands[0] == maxNotional; return Err(c.error); }
    var acc := Scaled([], 0);
    ZeroAmount();
    for i := 0 to |pairs|
      invariant forall j :: 0 <= j < i ==> WellFormed(pairs[j].0) && WellFormed(pairs[j].1)
      invariant Normal(acc.digits)
      invariant Amount(acc) == Total(pairs[..i], Notional)
    {
      var q := DecimalDigits(pairs[i].0);
      if q.Err? { PairFault(pairs, maxNotional, i, q.error); return Err(q.error); }
      var p := DecimalDigits(pairs[i].1);
      if p.Err? { PairFault(pairs, maxNotional, i, p.error); return Err(p.error); }
      ParseIsExact(pairs[i].0);
      ParseIsExact(pairs[i].1);
      var product := MulDigits(q.value.digits, p.value.digits);
      MulAmount(q.value, p.value, product);
      acc := AddDigits(acc, Scaled(product, q.value.scale + p.value.scale));
      assert pairs[..i + 1][..i] == pairs[..i];
    }
    assert pairs[..|pairs|] == pairs;
    ParseIsExact(maxNotional);
    CmpScaledIsExact(acc, c.value);
    r := Ok(CmpScaled(acc, c.value) == Greater);
  }

  // ---------------------------------------------------------------- batch laws

  lemma {:induction false} TotalRemove<T>(xs: seq<T>, f: T -> real, i: nat)
    requires i < |xs|
    ensures Total(xs, f) == Total(xs[..i] + xs[i + 1..], f) + f(xs[i])
  {
    var n := |xs| - 1;
    var rest := xs[..i] + xs[i + 1..];
    if i == n {
      assert rest == xs[..n];
    } else {
      TotalRemove(xs[..n], f, i);
      assert rest[..n - 1] == xs[..n][..i] + xs[..n][i + 1..];
    }
  }

  /** The order of a batch does not matter: permuted batches have the same total, so every cap check agrees. */
  lemma {:induction false} TotalIgnoresOrder<T>(xs: seq<T>, ys: seq<T>, f: T -> real)
    requires multiset(xs) == multiset(ys)
    ensures Total(xs, f) == Total(ys, f)
  {
    if |xs| == 0 {
      assert |multiset(ys)| == 0;
    } else {
      var n := |xs| - 1;
      var i := MovedLast(xs, ys);
      TotalIgnoresOrder(xs[..n], ys[..i] + ys[i + 1..], f);
      TotalRemove(ys, f, i);
    }
  }

  /** Where the last element of xs sits in a permutation of it, and what is left of both without it. */
  lemma MovedLast<T>(xs: seq<T>, ys: seq<T>) returns (i: nat)
    requires multiset(xs) == multiset(ys) && |xs| > 0
    ensures i < |ys| && ys[i] == xs[|xs| - 1]
    ensures multiset(xs[..|xs| - 1]) == multiset(ys[..i] + ys[i + 1..])
  {
    var n := |xs| - 1;
    assert xs[n] in multiset(xs);
    i :| i < |ys| && ys[i] == xs[n];
    RemoveOne(xs, n);
    RemoveOne(ys, i);
    assert xs[..n] + xs[n + 1..] == xs[..n];
  }

  lemma RemoveOne<T>(s: seq<T>, i: nat)
    requires i < |s|
    ensures multiset(s[..i] + s[i + 1..]) == multiset(s) - multiset{s[i]}
  {
    assert s == s[..i] + ([s[i]] + s[i + 1..]);
  }

  lemma {:induction false} MeaningNonNegative(s: Bytes)
    ensures Meaning(s) >= 0.0
  {
    if WellFormed(s) {
      ParseIsExact(s);
      AmountNonNegative(DecimalDigits(s).value);
    }
  }

  lemma AmountNonNegative(x: Scaled)
    ensures Amount(x) >= 0.0
  {
    hide Pow, ValueBE;
    PowPositive(10, x.scale);
    assert ValueBE(10, x.digits) as real == Amount(x) * Pow(10, x.scale) as real;
  }

  lemma {:induction false} NotionalTotalNonNegative(pairs: seq<(Bytes, Bytes)>)
    ensures Total(pairs, Notional) >= 0.0
  {
    hide Meaning, WellFormed;
    if |pairs| > 0 {
      var last := pairs[|pairs| - 1];
      NotionalTotalNonNegative(pairs[..|pairs| - 1]);
      MeaningNonNegative(last.0);
      MeaningNonNegative(last.1);
    }
  }

  /** On a single order the aggregate check compares what the per-order check compares. */
  lemma OneOrderAgrees(qty: Bytes, price: Bytes)
    ensures Total([(qty, price)], Notional) == Meaning(qty) * Meaning(price)
  {
    hide Meaning;
  }

  /** The aggregate check subsumes the per-order one: a batch within the cap has every order within it. */
  lemma AggregateCapBoundsEveryOrder(pairs: seq<(Bytes, Bytes)>, shuffled: seq<(Bytes, Bytes)>, cap: Bytes)
    requires multiset(shuffled) == multiset(pairs)
    requires Total(pairs, Notional) <= Meaning(cap)
    ensures Total(shuffled, Notional) <= Meaning(cap)
    ensures forall p :: p in pairs ==> Notional(p) <= Meaning(cap)
  {
    TotalIgnoresOrder(pairs, shuffled, Notional);
    forall p | p in pairs ensures Notional(p) <= Meaning(cap) {
      var i :| 0 <= i < |pairs| && pairs[i] == p;
      TotalRemove(pairs, Notional, i);
      NotionalTotalNonNegative(pairs[..i] + pairs[i + 1..]);
    }
  }
}

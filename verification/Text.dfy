/** ASCII text as bytes: decimal rendering of numbers, zero padding, and reading them back. */
module Text {
  import opened Wrappers
  import opened Digits

  predicate IsDigit(b: byte) {
    48 <= b <= 57
  }

  predicate AllDigits(s: Bytes) {
    forall i :: 0 <= i < |s| ==> IsDigit(s[i])
  }

  /** ASCII letters and digits. */
  predicate IsAlnum(b: byte) {
    IsDigit(b) || 65 <= b <= 90 || 97 <= b <= 122
  }

  function Lower(b: byte): byte {
    if 65 <= b <= 90 then b + 32 else b
  }

  /** ASCII lower case; other bytes stay. */
  function Lowercase(s: Bytes): (r: Bytes)
    ensures |r| == |s| && forall i :: 0 <= i < |s| ==> r[i] == Lower(s[i])
  {
    seq(|s|, i requires 0 <= i < |s| => Lower(s[i]))
  }

  /** The bytes of an ASCII literal. */
  function Ascii(s: string): (b: Bytes)
    ensures |b| == |s|
    ensures forall i :: 0 <= i < |s| && s[i] as int < 128 ==> b[i] == s[i] as int
  {
    seq(|s|, i requires 0 <= i < |s| => s[i] as int % 128)
  }

  /** Shortest decimal form, as integers are displayed. */
  function DecimalText(n: nat): (s: Bytes)
    ensures |s| > 0 && AllDigits(s)
  {
    if n < 10 then [48 + n] else DecimalText(n / 10) + [48 + n % 10]
  }

  function ReadDecimal(s: Bytes): nat
    requires AllDigits(s)
  {
    if |s| == 0 then 0 else ReadDecimal(s[..|s| - 1]) * 10 + (s[|s| - 1] - 48)
  }

  lemma {:induction false} DecimalTextReadsBack(n: nat)
    ensures ReadDecimal(DecimalText(n)) == n
  {
    if n < 10 {
      assert ReadDecimal([]) == 0;
      assert DecimalText(n)[..0] == [];
    } else {
      DecimalTextReadsBack(n / 10);
      assert DecimalText(n)[..|DecimalText(n)| - 1] == DecimalText(n / 10);
    }
  }

  /** No leading zero, but for zero itself. */
  lemma {:induction false} DecimalTextIsShortest(n: nat)
    ensures DecimalText(n)[0] == 48 <==> n == 0
    ensures DecimalText(0) == [48]
  {
    if n >= 10 {
      DecimalTextIsShortest(n / 10);
    }
  }

  lemma DecimalTextInjective(m: nat, n: nat)
    requires DecimalText(m) == DecimalText(n)
    ensures m == n
  {
    DecimalTextReadsBack(m);
    DecimalTextReadsBack(n);
  }

  /** The display of n has at most w digits exactly when n is below 10^w. */
  lemma {:induction false} DecimalTextWidth(n: nat, w: nat)
    requires 0 < w
    ensures |DecimalText(n)| <= w <==> n < Pow(10, w)
  {
    PowPositive(10, w - 1);
    if n >= 10 {
      if w == 1 {
        PowZero(10);
      } else {
        DecimalTextWidth(n / 10, w - 1);
      }
    }
  }

  /** Zero-padded to a minimum width, as `{:0w}` displays it. */
  function Padded(n: nat, w: nat): (s: Bytes)
    ensures |s| >= w && |s| > 0 && AllDigits(s)
  {
    var d := DecimalText(n);
    if |d| >= w then d else ZeroText(w - |d|) + d
  }

  function ZeroText(k: nat): (s: Bytes)
    ensures |s| == k && AllDigits(s)
  {
    if k == 0 then [] else [48] + ZeroText(k - 1)
  }

  lemma {:induction false} LeadingZeroReads(s: Bytes)
    requires AllDigits(s)
    ensures ReadDecimal([48] + s) == ReadDecimal(s)
  {
    if |s| > 0 {
      LeadingZeroReads(s[..|s| - 1]);
      assert ([48] + s)[..|s|] == [48] + s[..|s| - 1];
    } else {
      assert ([48] + s)[..0] == s;
    }
  }

  lemma {:induction false} LeadingZerosRead(k: nat, s: Bytes)
    requires AllDigits(s)
    ensures ReadDecimal(ZeroText(k) + s) == ReadDecimal(s)
  {
    if k == 0 {
      assert ZeroText(k) + s == s;
    } else {
      LeadingZerosRead(k - 1, s);
      LeadingZeroReads(ZeroText(k - 1) + s);
      assert ZeroText(k) + s == [48] + (ZeroText(k - 1) + s);
    }
  }

  /** Padding keeps the number, and has exactly the asked width when the number fits. */
  lemma PaddedReadsBack(n: nat, w: nat)
    requires 0 < w
    ensures ReadDecimal(Padded(n, w)) == n
    ensures |Padded(n, w)| == w <==> n < Pow(10, w)
  {
    hide DecimalText, ReadDecimal, Pow, ZeroText;
    DecimalTextReadsBack(n);
    DecimalTextWidth(n, w);
    if |DecimalText(n)| < w {
      LeadingZerosRead(w - |DecimalText(n)|, DecimalText(n));
    }
  }

  /** The k low bytes of n, least significant first. */
  function LittleEndian(n: nat, k: nat): (b: Bytes)
    ensures |b| == k
    decreases k
  {
    if k == 0 then [] else [n % 256] + LittleEndian(n / 256, k - 1)
  }

  /** A number that fits is what its bytes denote, least significant first. */
  lemma {:induction false} LittleEndianValue(n: nat, k: nat)
    requires n < Pow(256, k)
    ensures Value(256, LittleEndian(n, k)) == n
    decreases k
  {
    if k > 0 {
      LittleEndianValue(n / 256, k - 1);
      assert LittleEndian(n, k)[1..] == LittleEndian(n / 256, k - 1);
    }
  }

  lemma LittleEndianInjective(m: nat, n: nat, k: nat)
    requires m < Pow(256, k) && n < Pow(256, k) && LittleEndian(m, k) == LittleEndian(n, k)
    ensures m == n
  {
    LittleEndianValue(m, k);
    LittleEndianValue(n, k);
  }

  /** The k low bytes of n, most significant first. */
  function BigEndian(n: nat, k: nat): (b: Bytes)
    ensures |b| == k
    decreases k
  {
    if k == 0 then [] else BigEndian(n / 256, k - 1) + [n % 256]
  }

  lemma {:induction false} BigEndianValue(n: nat, k: nat)
    requires n < Pow(256, k)
    ensures ValueBE(256, BigEndian(n, k)) == n
    decreases k
  {
    if k > 0 {
      BigEndianValue(n / 256, k - 1);
      assert BigEndian(n, k)[..k - 1] == BigEndian(n / 256, k - 1);
    }
  }

  lemma BigEndianInjective(m: nat, n: nat, k: nat)
    requires m < Pow(256, k) && n < Pow(256, k) && BigEndian(m, k) == BigEndian(n, k)
    ensures m == n
  {
    BigEndianValue(m, k);
    BigEndianValue(n, k);
  }

  /** Numbers of 64 bits fit eight bytes. */
  const U64_LIMIT := 0x1_0000_0000_0000_0000

  lemma U64Fits(n: nat)
    ensures n < U64_LIMIT <==> n < Pow(256, 8)
  {
    assert Pow(256, 4) == 0x1_0000_0000;
    PowAdd(256, 4, 4);
  }

  /** Literal parts compared by their text. */
  lemma AsciiInjective(a: string, b: string)
    requires forall i :: 0 <= i < |a| ==> a[i] as int < 128
    requires forall i :: 0 <= i < |b| ==> b[i] as int < 128
    requires a != b
    ensures Ascii(a) != Ascii(b)
  {
    if |a| == |b| {
      var i :| 0 <= i < |a| && a[i] != b[i];
      assert Ascii(a)[i] != Ascii(b)[i];
    }
  }
}

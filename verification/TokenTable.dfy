/** The branch-free token scan shared by the enclave's tenant registry and the gateway's bearer authentication. */
module TokenTable {
  import opened Wrappers
  import opened Digits

  // ---------------------------------------------------------------- machine words

  /** Bits of a usize. */
  const WORD := 64

  function And(a: nat, b: nat, bits: nat): nat
    decreases bits
  {
    if bits == 0 then 0 else (if a % 2 == 1 && b % 2 == 1 then 1 else 0) + 2 * And(a / 2, b / 2, bits - 1)
  }

  function Or(a: nat, b: nat, bits: nat): nat
    decreases bits
  {
    if bits == 0 then 0 else (if a % 2 == 1 || b % 2 == 1 then 1 else 0) + 2 * Or(a / 2, b / 2, bits - 1)
  }

  function Ones(bits: nat): nat
    decreases bits
  {
    if bits == 0 then 0 else 1 + 2 * Ones(bits - 1)
  }

  function Not(a: nat, bits: nat): nat
    requires a <= Ones(bits)
  {
    Ones(bits) - a
  }

  function WrappingNeg(a: nat, bits: nat): nat
    requires a <= Ones(bits)
  {
    if a == 0 then 0 else Ones(bits) + 1 - a
  }

  lemma {:induction false} MaskIdentities(a: nat, bits: nat)
    requires a <= Ones(bits)
    ensures And(a, Ones(bits), bits) == a && And(a, 0, bits) == 0
    ensures Or(a, 0, bits) == a && Or(0, a, bits) == a
    decreases bits
  {
    if bits > 0 {
      MaskIdentities(a / 2, bits - 1);
      assert Ones(bits) / 2 == Ones(bits - 1);
    }
  }

  /** The source's conditional update without a branch. */
  function Select(matched: nat, i: nat, eq: nat): nat
    requires matched <= Ones(WORD) && i <= Ones(WORD) && eq <= 1
  {
    OnesPositive();
    var mask := WrappingNeg(eq, WORD);
    Or(And(matched, Not(mask, WORD), WORD), And(i, mask, WORD), WORD)
  }

  lemma OnesPositive()
    ensures Ones(WORD) >= 1
  {
  }

  lemma SelectChooses(matched: nat, i: nat, eq: nat)
    requires matched <= Ones(WORD) && i <= Ones(WORD) && eq <= 1
    ensures Select(matched, i, eq) == if eq == 1 then i else matched
  {
    hide And, Or, Ones;
    OnesPositive();
    MaskIdentities(matched, WORD);
    MaskIdentities(i, WORD);
    MaskIdentities(0, WORD);
  }

  // ---------------------------------------------------------------- the scan

  /** The last position holding a value. */
  function LastMatch<T(==)>(table: seq<T>, value: T): (m: Option<nat>)
    ensures m.Some? ==> m.value < |table|
  {
    if |table| == 0 then None
    else if table[|table| - 1] == value then Some(|table| - 1)
    else LastMatch(table[..|table| - 1], value)
  }

  lemma {:induction false} LastMatchIsLast<T>(table: seq<T>, value: T)
    ensures LastMatch(table, value).None? <==> value !in table
    ensures LastMatch(table, value).Some? ==>
      var i := LastMatch(table, value).value;
      i < |table| && table[i] == value && value !in table[i + 1..]
  {
    if |table| > 0 {
      var n := |table| - 1;
      LastMatchIsLast(table[..n], value);
      assert table == table[..n] + [table[n]];
      var m := LastMatch(table[..n], value);
      if table[n] != value && m.Some? {
        assert table[m.value + 1..] == table[..n][m.value + 1..] + [table[n]];
      }
    }
  }

  /** Scans every entry; the index of the last match survives, and the all-ones word means none. */
  method Scan<T(==)>(table: seq<T>, value: T) returns (matched: Option<nat>)
    requires |table| < Ones(WORD)
    ensures matched.None? <==> value !in table
    ensures matched.Some? ==>
      matched.value < |table| && table[matched.value] == value && value !in table[matched.value + 1..]
    ensures matched == LastMatch(table, value)
  {
    hide Ones, Select;
    var index := Ones(WORD);
    for i := 0 to |table|
      invariant index == Ones(WORD) || index < i
      invariant LastMatch(table[..i], value) == if index == Ones(WORD) then None else Some(index)
    {
      var eq := if table[i] == value then 1 else 0;
      SelectChooses(index, i, eq);
      index := Select(index, i, eq);
      assert table[..i + 1][..i] == table[..i];
    }
    assert table[..|table|] == table;
    LastMatchIsLast(table, value);
    matched := if index == Ones(WORD) then None else Some(index);
  }
}

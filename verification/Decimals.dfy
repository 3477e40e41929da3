/** Decimal numerals as ASCII bytes. */
module Decimals {
  import opened Bytes

  predicate IsDigit(b: byte) { 48 <= b < 58 }

  predicate AllDigits(d: Bytes) { forall i :: 0 <= i < |d| ==> IsDigit(d[i]) }

  function Decimal(n: nat): (d: Bytes)
    ensures d != [] && AllDigits(d)
  {
    if n < 10 then [48 + n] else Decimal(n / 10) + [LastDigit(n)]
  }

  function LastDigit(n: nat): (d: byte)
    ensures IsDigit(d) && n == n / 10 * 10 + (d as int - 48)
  {
    var digit := n - n / 10 * 10;
    assert 0 <= digit < 10;
    48 + digit
  }

  function Value(d: Bytes, acc: nat): nat
    requires AllDigits(d)
  {
    if d == [] then acc
    else
      assert IsDigit(d[|d| - 1]);
      Value(d[..|d| - 1], acc) * 10 + (d[|d| - 1] as int - 48)
  }

  lemma {:induction false} DecimalValue(n: nat)
    ensures Value(Decimal(n), 0) == n
  {
    if n >= 10 {
      DecimalValue(n / 10);
      assert Decimal(n)[..|Decimal(n)| - 1] == Decimal(n / 10);
    } else {
      assert Decimal(n)[..0] == [];
    }
  }
}

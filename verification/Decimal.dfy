/** Decimal numerals as ASCII text. */
module Decimal {
  import opened Bytes

  predicate IsDigit(c: int)
  {
    48 <= c <= 57
  }

  /** The decimal numeral of `n`, without leading zeros. */
  function Digits(n: nat): (d: seq<byte>)
    ensures d != [] && forall i :: 0 <= i < |d| ==> IsDigit(d[i])
    decreases n
  {
    if n < 10 then [48 + n] else Digits(n / 10) + [48 + n % 10]
  }

  function Value(d: seq<byte>): int
    decreases |d|
  {
    if d == [] then 0 else 10 * Value(d[..|d| - 1]) + d[|d| - 1] as int - 48
  }

  lemma {:induction false} ValueOfDigits(n: nat)
    ensures Value(Digits(n)) == n
    decreases n
  {
    if n >= 10 {
      ValueOfDigits(n / 10);
      assert Digits(n)[..|Digits(n)| - 1] == Digits(n / 10);
    } else {
      assert Digits(n)[..0] == [];
    }
  }

  lemma DigitsInjective(m: nat, n: nat)
    requires Digits(m) == Digits(n)
    ensures m == n
  {
    ValueOfDigits(m);
    ValueOfDigits(n);
  }

  /** The length of the numeral, found by repeated division. */
  method DigitCount(n: nat) returns (digits: nat)
    ensures digits == |Digits(n)|
  {
    digits := 1;
    var value := n;
    while value >= 10
      invariant digits + |Digits(value)| == |Digits(n)| + 1
    {
      value := value / 10;
      digits := digits + 1;
    }
  }
}

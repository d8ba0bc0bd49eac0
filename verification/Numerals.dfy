/** Decimal numerals, as printed into labels and frame offsets. */
module Numerals {
  function Decimal(n: nat): string {
    var d := [(n % 10) as char + '0'];
    if n < 10 then d else Decimal(n / 10) + d
  }

  predicate IsDigit(c: char) {
    '0' <= c <= '9'
  }

  lemma {:induction false} DecimalDigits(n: nat)
    ensures Decimal(n) != [] && forall c :: c in Decimal(n) ==> IsDigit(c)
  {
    if n >= 10 {
      DecimalDigits(n / 10);
    }
  }

  lemma DecimalLength(n: nat)
    ensures |Decimal(n)| == 1 <==> n < 10
  {
    if n >= 10 {
      DecimalDigits(n / 10);
    }
  }

  /** Decimal numerals are injective. */
  lemma {:induction false} DecimalInjective(m: nat, n: nat)
    requires Decimal(m) == Decimal(n)
    ensures m == n
  {
    var a, b := Decimal(m), Decimal(n);
    assert a[|a| - 1] == (m % 10) as char + '0' && b[|b| - 1] == (n % 10) as char + '0';
    assert m % 10 == n % 10;
    DecimalLength(m);
    DecimalLength(n);
    if m >= 10 {
      assert a[..|a| - 1] == Decimal(m / 10) && b[..|b| - 1] == Decimal(n / 10);
      DecimalInjective(m / 10, n / 10);
    }
  }

  function Pow10(k: nat): (r: nat)
    ensures r >= 1
  {
    if k == 0 then 1 else 10 * Pow10(k - 1)
  }

  /** A numeral has at most k digits if and only if the number is below 10^k. */
  lemma {:induction false} DecimalAtMost(n: nat, k: nat)
    requires k >= 1
    ensures |Decimal(n)| <= k <==> n < Pow10(k)
  {
    if n >= 10 {
      DecimalDigits(n / 10);
      if k > 1 {
        DecimalAtMost(n / 10, k - 1);
      }
    } else if k > 1 {
      assert Pow10(k) == 10 * Pow10(k - 1);
    }
  }
}

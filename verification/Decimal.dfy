/** Decimal numerals as JavaScript prints and reads them. */
module Decimal {
  import opened Basics

  const ZERO: Unit := 0x30

  predicate IsDigit(u: Unit) { ZERO <= u <= ZERO + 9 }

  predicate AllDigits(t: Text) { forall i :: 0 <= i < |t| ==> IsDigit(t[i]) }

  // String(n)
  function Digits(n: nat): (t: Text)
    ensures |t| >= 1
  {
    if n < 10 then [ZERO + n] else Digits(n / 10) + [ZERO + n % 10]
  }

  // Number(t)
  function Value(t: Text): nat
    requires AllDigits(t)
  {
    if t == [] then 0 else 10 * Value(t[..|t| - 1]) + (t[|t| - 1] - ZERO)
  }

  lemma {:induction false} ValueOfDigits(n: nat)
    ensures AllDigits(Digits(n)) && Value(Digits(n)) == n
    ensures Digits(n)[0] == ZERO ==> n == 0
  {
    if n < 10 {
      assert Value([ZERO + n]) == 10 * Value([]) + n;
    } else {
      ValueOfDigits(n / 10);
      var init := Digits(n / 10);
      assert Digits(n)[..|init|] == init;
    }
  }

  function Power10(k: nat): nat { if k == 0 then 1 else 10 * Power10(k - 1) }

  // A number below 10^k has at most k digits.
  lemma {:induction false} DigitsLength(n: nat, k: nat)
    requires k >= 1 && n < Power10(k)
    ensures |Digits(n)| <= k
  {
    if n >= 10 {
      assert Power10(0) == 1 && k > 1;
      DigitsLength(n / 10, k - 1);
    }
  }
}

/** Exact fractions of a count, and the lesser of two numbers. */
module Rates {

  function Min(x: real, y: real): real { if x <= y then x else y }

  function Ratio(k: int, n: nat): real
    requires n >= 1
  {
    k as real / n as real
  }

  lemma RatioOrder(a: int, b: int, n: nat)
    requires n >= 1 && a <= b
    ensures Ratio(a, n) <= Ratio(b, n)
  {
    assert a as real / n as real <= b as real / n as real;
  }

  lemma RatioUnit(n: nat)
    requires n >= 1
    ensures Ratio(0, n) == 0.0 && Ratio(n, n) == 1.0
  {}

  lemma RatioSum(a: int, b: int, n: nat)
    requires n >= 1
    ensures Ratio(a, n) + Ratio(b, n) == Ratio(a + b, n)
  {
    assert a as real / n as real + b as real / n as real == (a as real + b as real) / n as real;
  }

  lemma RatioInUnit(k: int, n: nat)
    requires n >= 1 && 0 <= k <= n
    ensures 0.0 <= Ratio(k, n) <= 1.0
  {
    RatioUnit(n);
    RatioOrder(0, k, n);
    RatioOrder(k, n, n);
  }

  lemma RatioTimes(k: int, n: nat)
    requires n >= 1
    ensures Ratio(k, n) * n as real == k as real
  {}
}

/**
 * Bounds, sums and quotients of naturals.
 */
module Arithmetic {

  function Min(a: nat, b: nat): (m: nat)
    ensures m <= a && m <= b && (m == a || m == b)
  {
    if a < b then a else b
  }

  function Max(a: nat, b: nat): (m: nat)
    ensures m >= a && m >= b && (m == a || m == b)
  {
    if a < b then b else a
  }

  function Sum(s: seq<nat>): nat {
    if s == [] then 0 else Sum(s[..|s| - 1]) + s[|s| - 1]
  }

  lemma SumAppend(s: seq<nat>, x: nat)
    ensures Sum(s + [x]) == Sum(s) + x
  {
    assert (s + [x])[..|s|] == s;
  }

  lemma OneMoreTime(n: nat, x: nat)
    ensures (n + 1) * x == n * x + x
  {
  }

  lemma {:induction false} SumBetween(s: seq<nat>, low: nat, high: nat)
    requires forall i :: 0 <= i < |s| ==> low <= s[i] <= high
    ensures |s| * low <= Sum(s) <= |s| * high
  {
    if s != [] {
      SumBetween(s[..|s| - 1], low, high);
      OneMoreTime(|s| - 1, low);
      OneMoreTime(|s| - 1, high);
    }
  }

  lemma CancelFactor(a: int, b: int, m: int)
    requires m > 0 && a * m < b * m
    ensures a < b
  {
    assert (b - a) * m > 0;
  }

  lemma Quotient(total: nat, n: nat)
    requires n > 0
    ensures total / n * n <= total < (total / n + 1) * n
  {
  }

  lemma QuotientBetween(total: nat, n: nat, low: nat, high: nat)
    requires n > 0 && n * low <= total <= n * high
    ensures low <= total / n <= high
  {
    var q := total / n;
    Quotient(total, n);
    assert low * n < (q + 1) * n;
    CancelFactor(low, q + 1, n);
    assert q * n < (high + 1) * n;
    CancelFactor(q, high + 1, n);
  }

  /** The rounded-down average lies between the bounds of what is averaged. */
  lemma AverageBetween(s: seq<nat>, low: nat, high: nat)
    requires s != [] && forall i :: 0 <= i < |s| ==> low <= s[i] <= high
    ensures low <= Sum(s) / |s| <= high
  {
    SumBetween(s, low, high);
    QuotientBetween(Sum(s), |s|, low, high);
  }
}

/** Division with remainder, for the modular steps of the wheel, the arena and the balancer. */
module Arithmetic {

  lemma MulAtLeast(k: int, n: nat)
    requires k >= 1
    ensures k * n >= n && (-k) * n <= 0 - n
  {
  }

  /** A remainder below the divisor is the remainder. */
  lemma ModUnique(a: nat, n: nat, m: nat, r: nat)
    requires n > 0 && r < n && a == m * n + r
    ensures a % n == r && a / n == m
  {
    var d := a / n - m;
    assert a / n * n + a % n == a;
    assert d * n == r - a % n;
    if d >= 1 { MulAtLeast(d, n); }
    if d <= -1 { MulAtLeast(-d, n); }
  }
}

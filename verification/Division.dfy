/** Division and remainder of natural numbers, by variables. */
module Division {
  /** A quotient and a rest below the divisor are the quotient and the rest. */
  lemma QuotientAndRest(y: nat, m: nat, q: nat, x: nat)
    requires x < m && y == q * m + x
    ensures y % m == x && y / m == q
  {
    var d, e := y / m, y % m;
    assert y == d * m + e;
    Apart(q, d, m);
    Apart(d, q, m);
  }

  lemma Apart(q: nat, d: nat, m: nat)
    requires m > 0
    ensures q > d ==> q * m - d * m >= m
  {
    if q > d { Split(d, q - d, m); }
  }

  lemma Split(d: nat, k: nat, m: nat)
    requires k > 0
    ensures (d + k) * m == d * m + k * m && k * m >= m
  {
  }

  lemma Below(i: nat, n: nat, r: nat, e: nat)
    requires i < n && e < r
    ensures i * r + e < n * r
  {
    Apart(n, i, r);
  }

  /** Dividing twice, and the rest of a quotient. */
  lemma Twice(x: nat, r: nat, n: nat)
    requires n > 0 && r > 0
    ensures n * r > 0 && x / r / n == x / (n * r) && x % (n * r) / r == x / r % n
  {
    var q, e := x / r, x % r;
    Parts(x, r, q, e);
    Parts(q, n, q / n, q % n);
    Nested(x, r, n, n * r, q, e, q / n, q % n);
  }

  lemma Parts(x: nat, r: nat, q: nat, e: nat)
    requires r > 0 && q == x / r && e == x % r
    ensures x == q * r + e && e < r
  {
  }

  lemma Nested(x: nat, r: nat, n: nat, m: nat, q: nat, e: nat, k: nat, i: nat)
    requires x == q * r + e && e < r && q == k * n + i && i < n && m == n * r
    ensures m > 0 && x / m == k && x % m / r == i
  {
    var rest := i * r + e;
    Regroup(n, k, i, r, m);
    Below(i, n, r, e);
    QuotientAndRest(x, m, k, rest);
    QuotientAndRest(rest, r, i, e);
  }

  lemma Regroup(n: nat, k: nat, i: nat, r: nat, m: nat)
    requires m == n * r
    ensures (k * n + i) * r == k * m + i * r
  {
    assert (k * n + i) * r == k * n * r + i * r;
    assert k * n * r == k * (n * r);
  }

  lemma QuotientExactly(x: nat, r: nat, q: nat)
    requires r > 0
    ensures x / r == q <==> q * r <= x < (q + 1) * r
  {
    if q * r <= x < (q + 1) * r { QuotientAndRest(x, r, q, x - q * r); }
  }
}

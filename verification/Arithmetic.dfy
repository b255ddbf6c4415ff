/** Division with remainder by a positive number that is not a constant. */
module Arithmetic {

  lemma DivMod(v: int, p: nat)
    requires p > 0
    ensures v % p + (v / p) * p == v && 0 <= v % p < p
  {
  }

  lemma {:induction false} FartherMultiple(n: nat, q: nat, k: nat)
    ensures q < k ==> n * q + n <= n * k
    decreases k
  {
    if q < k {
      assert n * k == n * (k - 1) + n;
      FartherMultiple(n, q, k - 1);
    }
  }

  lemma SameQuotient(n: nat, q: nat, r: nat, k: nat, s: nat)
    requires r < n && s < n && n * q + r == n * k + s
    ensures q == k && r == s
  {
    FartherMultiple(n, q, k);
    FartherMultiple(n, k, q);
  }

  lemma RemainderIs(x: nat, n: nat, q: nat, r: nat)
    requires r < n && x == n * q + r
    ensures x % n == r
  {
    DivMod(x, n);
    SameQuotient(n, q, r, x / n, x % n);
  }

  lemma MultipleDropsOut(c: nat, n: nat, q: nat)
    requires n > 0
    ensures (n * q + c) % n == c % n
  {
    DivMod(c, n);
    assert n * q + c == n * (q + c / n) + c % n;
    RemainderIs(n * q + c, n, q + c / n, c % n);
  }
}

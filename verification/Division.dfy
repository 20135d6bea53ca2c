/** Euclidean division by a variable divisor. */
module Division {
  lemma MulAtLeast(k: int, n: nat)
    requires k >= 1
    ensures k * n >= n
  {
    assert k * n == (k - 1) * n + n;
    assert (k - 1) * n >= 0;
  }

  lemma MulDiff(a: int, b: int, n: int)
    ensures (a - b) * n == a * n - b * n
  {
  }

  /** Quotient and remainder are unique. */
  lemma DivUnique(a: nat, q: int, r: nat, n: nat)
    requires r < n && a == q * n + r
    ensures a / n == q && a % n == r
  {
    var q', r' := a / n, a % n;
    QuotientSame(q, r, q', r', n);
  }

  lemma QuotientSame(q: int, r: nat, q': int, r': nat, n: nat)
    requires r < n && r' < n && q * n + r == q' * n + r'
    ensures q == q'
  {
    MulDiff(q, q', n);
    MulDiff(q', q, n);
    if q > q' {
      MulAtLeast(q - q', n);
    } else if q < q' {
      MulAtLeast(q' - q, n);
    }
  }

  /** Dividing by k * p is dividing by p, then by k. */
  lemma DivProduct(a: nat, k: nat, p: nat)
    requires k >= 1 && p >= 1 && k * p >= 1
    ensures a / (k * p) == a / p / k
    ensures a % (k * p) == a / p % k * p + a % p
  {
    var q, r := a / p, a % p;
    var q', r' := q / k, q % k;
    assert q * p == q' * (k * p) + r' * p by {
      assert q == q' * k + r';
      MulSum(q' * k, r', p);
      MulAssoc(q', k, p);
    }
    assert r' * p + r < k * p by {
      MulSum(r', 1, p);
      MulDiff(k, r' + 1, p);
      if k > r' + 1 { MulAtLeast(k - (r' + 1), p); }
    }
    assert r' * p >= 0;
    DivUnique(a, q', r' * p + r, k * p);
  }

  lemma MulSum(a: int, b: int, p: int)
    ensures (a + b) * p == a * p + b * p
  {
  }

  lemma MulAssoc(a: int, b: int, c: int)
    ensures a * b * c == a * (b * c)
  {
  }
}

/** Facts about Euclidean remainder by a positive modulus, used to compute in
    the groups of the pairing in their discrete-logarithm representation. */
module ModArith {

  lemma MulAtLeast(d: int, m: int)
    requires d >= 1 && m > 0
    ensures d * m >= m
  {
  }

  /** Euclidean division is unique. */
  lemma ModUnique(x: int, q: int, r: int, m: int)
    requires m > 0 && x == q * m + r && 0 <= r < m
    ensures x % m == r
  {
    var q0, r0 := x / m, x % m;
    assert x == q0 * m + r0;
    assert (q - q0) * m == r0 - r;
    if q > q0 {
      MulAtLeast(q - q0, m);
    } else if q < q0 {
      MulAtLeast(q0 - q, m);
    }
  }

  /** Adding a multiple of the modulus does not change the remainder. */
  lemma ModAddMultiple(a: int, k: int, m: int)
    requires m > 0
    ensures (a + k * m) % m == a % m
  {
    var q := a / m;
    assert a == q * m + a % m;
    assert a + k * m == (q + k) * m + a % m;
    ModUnique(a + k * m, q + k, a % m, m);
  }

  /** Reducing a summand first does not change the remainder of the sum. */
  lemma ModSum(a: int, b: int, m: int)
    requires m > 0
    ensures (a % m + b) % m == (a + b) % m
  {
    var q := a / m;
    assert a == q * m + a % m;
    assert a + b == (a % m + b) + q * m;
    ModAddMultiple(a % m + b, q, m);
  }

  /** Reducing a factor first does not change the remainder of the product. */
  lemma ModProduct(a: int, b: int, m: int)
    requires m > 0
    ensures (a % m * b) % m == (a * b) % m
  {
    var q := a / m;
    assert a == q * m + a % m;
    assert a * b == a % m * b + (q * b) * m by {
      assert a * b == (q * m + a % m) * b;
    }
    ModAddMultiple(a % m * b, q * b, m);
  }

  /** Remainders agree exactly when the difference is a multiple. */
  lemma ModEqualIff(a: int, b: int, m: int)
    requires m > 0
    ensures a % m == b % m <==> (a - b) % m == 0
  {
    var qa, qb := a / m, b / m;
    assert a == qa * m + a % m;
    assert b == qb * m + b % m;
    assert a - b == (qa - qb) * m + (a % m - b % m);
    if a % m == b % m {
      ModUnique(a - b, qa - qb, 0, m);
    } else if a % m > b % m {
      ModUnique(a - b, qa - qb, a % m - b % m, m);
    } else {
      ModUnique(a - b, qa - qb - 1, m + a % m - b % m, m);
    }
  }

  lemma ModOfRange(x: int, m: int)
    requires m > 0 && 0 <= x < m
    ensures x % m == x
  {
    ModUnique(x, 0, x, m);
  }
}

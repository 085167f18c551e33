/** Small facts about Euclidean division that the solver does not find on its own. */
module Arith {

  /** Division and remainder are determined by any decomposition a == k*q + m with 0 <= m < k. */
  lemma DivModUnique(a: int, k: int, q: int, m: int)
    requires k > 0 && 0 <= m < k && a == k * q + m
    ensures a / k == q && a % k == m
  {
    var q0, m0 := a / k, a % k;
    assert a == k * q0 + m0;
    if q0 < q {
      MulLe(k, q0 + 1, q);
    } else if q0 > q {
      MulLe(k, q + 1, q0);
    }
  }

  lemma MulLe(k: int, a: int, b: int)
    requires k >= 0 && a <= b
    ensures k * a <= k * b
  {
    assert k * b - k * a == k * (b - a);
  }

  /** k*q is a multiple of k with quotient q. */
  lemma MulDiv(k: int, q: int)
    requires k > 0
    ensures (k * q) / k == q && (k * q) % k == 0
  {
    DivModUnique(k * q, k, q, 0);
  }

  /** Dividing twice is dividing by the product. */
  lemma DivDiv(a: nat, b: nat, c: nat)
    requires b > 0 && c > 0
    ensures a / b / c == a / (b * c)
  {
    var q1, r1 := a / b, a % b;
    var q2, r2 := q1 / c, q1 % c;
    assert a == b * q1 + r1;
    assert q1 == c * q2 + r2;
    assert a == (b * c) * q2 + (b * r2 + r1) by {
      assert b * q1 == b * (c * q2) + b * r2;
    }
    assert b * r2 + r1 < b * c by {
      MulLe(b, r2, c - 1);
      assert b * (c - 1) == b * c - b;
    }
    DivModUnique(a, b * c, q2, b * r2 + r1);
  }

  /** Multiplying by a positive k preserves strict order, so it can be cancelled. */
  lemma MulCancelLt(k: int, x: int, y: int)
    requires k > 0 && k * x < k * y
    ensures x < y
  {
    if x >= y {
      MulLe(k, y, x);
    }
  }

  /** Two multiples of k less than k apart in the given order are ordered: r - k < m forces r <= m. */
  lemma MultipleOrder(k: int, r: int, m: int)
    requires k > 0 && r % k == 0 && m % k == 0 && r - k < m
    ensures r <= m
  {
    var a, b := r / k, m / k;
    assert r == k * a && m == k * b;
    assert k * (a - 1) == r - k;
    MulCancelLt(k, a - 1, b);
    MulLe(k, a, b);
  }

  /** The next multiple of k strictly above a. */
  lemma RoundUp(a: nat, k: nat)
    requires k > 0
    ensures (a / k + 1) * k % k == 0
    ensures a < (a / k + 1) * k <= a + k
  {
    var q := a / k;
    assert a == k * q + a % k;
    assert (q + 1) * k == k * q + k;
    MulDiv(k, q + 1);
  }

  /** Two numbers agree modulo k exactly when their difference is a multiple of k. */
  lemma ModEq(x: int, y: int, k: int)
    requires k > 0
    ensures x % k == y % k <==> (x - y) % k == 0
  {
    var qx, qy := x / k, y / k;
    assert x == k * qx + x % k && y == k * qy + y % k;
    assert x - y == k * (qx - qy) + (x % k - y % k);
    if x % k == y % k {
      DivModUnique(x - y, k, qx - qy, 0);
    }
    if (x - y) % k == 0 {
      var q := (x - y) / k;
      assert x == k * (qy + q) + y % k;
      DivModUnique(x, k, qy + q, y % k);
    }
  }
}

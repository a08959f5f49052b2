/** Facts about division the other modules use. */
module Arithmetic {

  lemma MulMonotone(a: int, b: int, d: nat)
    requires a <= b
    ensures a * d <= b * d
  {
  }

  /** Division with remainder is unique. */
  lemma DivModUnique(x: nat, q: int, d: nat, r: nat)
    requires x == q * d + r && r < d
    ensures x / d == q && x % d == r
  {
    var k := x / d;
    assert x == k * d + x % d;
    assert (q + 1) * d == q * d + d && (k + 1) * d == k * d + d;
    if k > q {
      MulMonotone(q + 1, k, d);
    } else if k < q {
      MulMonotone(k + 1, q, d);
    }
  }

  lemma DivDiv(w: nat, a: nat, b: nat)
    requires a > 0 && b > 0
    ensures a * b > 0 && w / (a * b) == w / a / b
  {
    var q, r1, r2 := w / a / b, w / a % b, w % a;
    assert w == (q * b + r1) * a + r2;
    MulMonotone(r1 + 1, b, a);
    assert (q * b + r1) * a + r2 == q * (a * b) + (r1 * a + r2);
    DivModUnique(w, q, a * b, r1 * a + r2);
  }

  lemma ModSucc(a: nat, m: nat)
    requires m > 0
    ensures (a + 1) % m == if a % m + 1 == m then 0 else a % m + 1
    ensures (a + 1) / m == a / m + if a % m + 1 == m then 1 else 0
  {
    var q := a / m;
    assert a == q * m + a % m && (q + 1) * m == q * m + m;
    if a % m + 1 == m {
      DivModUnique(a + 1, q + 1, m, 0);
    } else {
      DivModUnique(a + 1, q, m, a % m + 1);
    }
  }
}

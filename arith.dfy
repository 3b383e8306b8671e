/** Integer facts shared by the limb arithmetic and the decimal parser:
    powers, and the uniqueness of Euclidean division. */
module Arith {

  function Max(a: int, b: int): int { if a < b then b else a }

  function Min(a: int, b: int): int { if a < b then a else b }

  /** b raised to the power e. */
  function Pow(b: nat, e: nat): (r: nat)
    ensures b > 0 ==> r > 0
  {
    if e == 0 then 1 else b * Pow(b, e - 1)
  }

  function Pow10(e: nat): (r: nat)
    ensures r > 0
  {
    Pow(10, e)
  }

  lemma {:induction false} PowAdd(b: nat, m: nat, n: nat)
    ensures Pow(b, m + n) == Pow(b, m) * Pow(b, n)
  {
    if m > 0 {
      PowAdd(b, m - 1, n);
      calc {
        Pow(b, m + n);
        b * Pow(b, m - 1 + n);
        b * (Pow(b, m - 1) * Pow(b, n));
        (b * Pow(b, m - 1)) * Pow(b, n);
      }
    }
  }

  lemma {:induction false} PowMonotone(b: nat, m: nat, n: nat)
    requires b >= 1 && m <= n
    ensures Pow(b, m) <= Pow(b, n)
  {
    if m < n {
      PowMonotone(b, m, n - 1);
      MulMonotone(1, b, Pow(b, n - 1));
    }
  }

  lemma MulMonotone(x: nat, y: nat, z: nat)
    requires x <= y
    ensures x * z <= y * z
  {
  }

  lemma MulSucc(m: nat, s: nat)
    ensures (m + 1) * s == m * s + s
  {
  }

  /** x < X and y < Y bound the product strictly by X * Y. */
  lemma MulStrict(x: nat, y: nat, X: nat, Y: nat)
    requires x < X && y < Y
    ensures x * y < X * Y
  {
    MulMonotone(x, X, y);
    MulMonotone(y, Y, X);
    assert x * y <= X * y;
    assert X * y <= Y * X;
    assert X * y < X * Y;
  }

  /** A quotient and remainder that satisfy z == q * d + r with 0 <= r < d are
      the ones Euclidean division computes. */
  lemma DivModUnique(z: int, d: int, q: int, r: int)
    requires d > 0 && 0 <= r < d && z == q * d + r
    ensures z / d == q && z % d == r
  {
    var q0, r0 := z / d, z % d;
    assert z == q0 * d + r0;
    assert (q - q0) * d == r0 - r;
    if q0 < q {
      MulMonotone(1, q - q0, d);
    } else if q < q0 {
      MulMonotone(1, q0 - q, d);
    }
  }

  /** Dividing by b and then by p is dividing by b * p. */
  lemma DivDiv(z: nat, b: nat, p: nat)
    requires b > 0 && p > 0
    ensures z / b / p == z / (b * p)
  {
    var q1, r1 := z / b, z % b;
    var q2, r2 := q1 / p, q1 % p;
    assert z == q2 * (b * p) + (r2 * b + r1) by {
      assert q1 == q2 * p + r2;
      assert z == q1 * b + r1;
      calc {
        q1 * b + r1;
        (q2 * p + r2) * b + r1;
        q2 * (b * p) + (r2 * b + r1);
      }
    }
    assert r2 * b + r1 < b * p by {
      MulMonotone(r2, p - 1, b);
      assert r2 * b <= (p - 1) * b;
    }
    DivModUnique(z, b * p, q2, r2 * b + r1);
  }

  /** x < d * p implies x / d < p. */
  lemma DivBelow(x: nat, d: nat, p: nat)
    requires d > 0 && x < d * p
    ensures x / d < p
  {
    if x / d >= p {
      MulMonotone(p, x / d, d);
      assert false;
    }
  }
}

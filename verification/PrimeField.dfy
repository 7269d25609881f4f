/**
 The scalar field of the curve the dealer works over (BN254), as far as the dealer uses it:
 addition, subtraction and multiplication modulo the group order, and inverses.
 */
module PrimeField {
  const MODULUS := 21888242871839275222246405745257275088548364400416034343698204186575808495617

  type Scalar = x: int | 0 <= x < MODULUS

  function Add(a: Scalar, b: Scalar): Scalar {
    (a + b) % MODULUS
  }

  function Sub(a: Scalar, b: Scalar): Scalar {
    (a - b) % MODULUS
  }

  function Mul(a: Scalar, b: Scalar): Scalar {
    (a * b) % MODULUS
  }

  /** Subtracting a share and adding it again gives the value back. */
  lemma ShareAndRest(v: Scalar, s: Scalar)
    ensures Add(s, Sub(v, s)) == v
  {
  }

  // ------------
  // | Inverses |
  // ------------

  ghost predicate Divides(d: int, n: int) {
    exists q: int :: n == d * q
  }

  ghost predicate IsPrime(p: int) {
    p > 1 && forall d :: Divides(d, p) && d > 0 ==> d == 1 || d == p
  }

  lemma DividesSum(g: int, a: int, b: int, q: int)
    requires Divides(g, a) && Divides(g, b)
    ensures Divides(g, a * q + b)
  {
    var u: int :| a == g * u;
    var v: int :| b == g * v;
    assert a * q + b == g * (u * q + v);
  }

  /** A common divisor of both numbers is a combination of them. */
  lemma {:induction false} Bezout(a: nat, b: nat) returns (g: nat, x: int, y: int)
    requires a > 0
    ensures g > 0 && a * x + b * y == g && Divides(g, a) && Divides(g, b)
    decreases b
  {
    if b == 0 {
      g, x, y := a, 1, 0;
      assert a == g * 1 && b == g * 0;
    } else {
      var q := a / b;
      var x', y';
      g, x', y' := Bezout(b, a % b);
      DividesSum(g, b, a % b, q);
      x, y := y', x' - q * y';
      assert b * q + a % b == a;
      assert a * y' + b * (x' - q * y') == b * x' + (a - b * q) * y';
    }
  }

  lemma ReduceFactor(a: int, x: int, y: int, p: int)
    requires p > 1 && a * x + p * y == 1
    ensures (a * (x % p)) % p == 1
  {
    var k, r := x / p, x % p;
    assert x == p * k + r;
    assert a * r == 1 + p * (-y - a * k) by {
      assert a * x == a * (p * k) + a * r;
      assert a * (p * k) == p * (a * k);
      assert p * (-y - a * k) == -(p * y) - p * (a * k);
    }
    ModOfOnePlus(p, -y - a * k);
  }

  lemma ProductBound(p: int, t: int)
    requires p > 0
    ensures t >= 1 ==> p * t >= p
    ensures t <= -1 ==> p * t <= -p
  {
  }

  lemma ModOfOnePlus(p: int, m: int)
    requires p > 1
    ensures (1 + p * m) % p == 1
  {
    var n := 1 + p * m;
    var q, r := n / p, n % p;
    assert n == p * q + r;
    assert p * (m - q) == r - 1;
    ProductBound(p, m - q);
  }

  /** Modulo a prime every nonzero element has an inverse. */
  lemma NonzeroHasInverse(p: nat, a: nat)
    requires IsPrime(p) && 0 < a < p
    ensures exists b :: 0 <= b < p && (a * b) % p == 1
  {
    var g, x, y := Bezout(a, p);
    assert g == 1 by {
      assert Divides(g, p);
      var u: int :| a == g * u;
      ProductBound(g, u);
    }
    ReduceFactor(a, x, y, p);
    var b := x % p;
    assert 0 <= b < p && (a * b) % p == 1;
  }
}

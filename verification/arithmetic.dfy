/** Facts about Euclidean division on naturals shared by the modules that
    reason about remainders and positional digits. */
module Arithmetic {

  /** An unsigned 8-bit value. */
  type Byte = b: int | 0 <= b < 256

  /** Quotient and remainder are the only pair that rebuilds `x`. */
  lemma DivModUnique(x: int, m: int, q: int, r: int)
    requires m > 0 && 0 <= r < m && x == m * q + r
    ensures x % m == r && x / m == q
  {
    var q0, r0 := x / m, x % m;
    assert x == m * q0 + r0;
    var k := q - q0;
    assert m * q - m * q0 == m * k;
    assert k >= 1 ==> m * k >= m;
    assert k <= -1 ==> m * k <= -m;
  }

  lemma MulMod(m: nat, k: nat)
    requires m > 0
    ensures (m * k) % m == 0 && (m * k) / m == k
  {
    DivModUnique(m * k, m, k, 0);
  }

  lemma AddMultiple(x: nat, m: nat, k: nat)
    requires m > 0
    ensures (x + m * k) % m == x % m
  {
    assert x + m * k == m * (x / m + k) + x % m by {
      DivBounds(x, m);
      assert m * (x / m + k) == m * (x / m) + m * k;
    }
    DivModUnique(x + m * k, m, x / m + k, x % m);
  }

  lemma ModAdd(a: nat, b: nat, m: nat)
    requires m > 0
    ensures (a + b) % m == (a % m + b) % m
  {
    var x, k := a % m + b, a / m;
    var y := x + m * k;
    assert y == a + b by {
      DivBounds(a, m);
    }
    AddMultiple(x, m, k);
    assert y % m == x % m;
  }

  lemma ModOfMod(x: nat, m: nat, k: nat)
    requires m > 0 && k > 0
    ensures (x % (m * k)) % m == x % m
  {
    var p := m * k;
    assert x == p * (x / p) + x % p;
    assert p * (x / p) == m * (k * (x / p));
    AddMultiple(x % p, m, k * (x / p));
  }

  function Pow(b: nat, e: nat): (r: nat)
    ensures b > 0 ==> r > 0
  {
    if e == 0 then 1 else Pow(b, e - 1) * b
  }

  /** Peeling the last digit in base `b` off `n`, then keeping `P` more
      digits, keeps `P * b` worth of `n`. */
  lemma DigitStep(n: nat, b: nat, p: nat)
    requires b > 0 && p > 0
    ensures ((n / b) % p) * b + n % b == n % (p * b)
  {
    var q, r := n / b, n % b;
    var k, m := q / p, q % p;
    assert n == b * q + r && 0 <= r < b by {
      DivBounds(n, b);
    }
    assert q == p * k + m && 0 <= m < p by {
      DivBounds(q, p);
    }
    assert b * q == (p * b) * k + m * b by {
      assert b * (p * k + m) == b * (p * k) + b * m;
    }
    assert m * b + r < p * b by {
      MulMonotone(m, p - 1, b);
      MulSucc(p - 1, b);
    }
    DivModUnique(n, p * b, k, m * b + r);
  }

  /** The quotient and remainder of naturals are naturals. */
  lemma DivBounds(n: nat, b: nat)
    requires b > 0
    ensures 0 <= n / b && 0 <= n % b < b && n == b * (n / b) + n % b
  {
    var q: int := n / b;
    assert n == b * q + n % b;
  }

  /** Multiplying by a natural keeps order. */
  lemma MulMonotone(x: int, y: int, b: nat)
    requires x <= y
    ensures x * b <= y * b
  {
    assert y * b - x * b == (y - x) * b;
  }

  lemma MulSucc(x: int, b: int)
    ensures (x + 1) * b == x * b + b
  {
  }
}

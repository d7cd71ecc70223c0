/** Facts about floor division, remainders and greatest common divisors that the
    shape arithmetic of the repository rests on. */
module Arith {

  /** Quotient and remainder are determined by the division equation. */
  lemma DivModUnique(a: int, b: int, q: int, r: int)
    requires 0 <= r < b
    requires a == q * b + r
    ensures a / b == q && a % b == r
  {
    var q', r' := a / b, a % b;
    assert (q' - q) * b == r - r';
    if q' > q {
      MulMonotone(1, q' - q, b);
      assert false;
    } else if q' < q {
      MulMonotone(1, q - q', b);
      assert false;
    }
  }

  lemma MulMonotone(x: int, y: int, k: int)
    requires x <= y && 0 <= k
    ensures x * k <= y * k
  {
    assert 0 <= (y - x) * k;
  }

  lemma MulPositive(x: int, y: int)
    requires 0 < x && 0 < y
    ensures 0 < x * y
  {
  }

  /** Dividing twice is dividing by the product. */
  lemma DivDiv(a: int, b: int, c: int)
    requires 0 < b && 0 < c
    ensures 0 < b * c
    ensures (a / b) / c == a / (b * c)
    ensures a % (b * c) == ((a / b) % c) * b + a % b
  {
    var q, r := a / b, a % b;
    var q2, r2 := q / c, q % c;
    assert a == q2 * (b * c) + (r2 * b + r) by {
      assert a == q * b + r;
      assert q == q2 * c + r2;
      assert (q2 * c + r2) * b == q2 * (b * c) + r2 * b;
    }
    assert 0 <= r2 * b + r < b * c by {
      MulMonotone(r2, c - 1, b);
      assert (c - 1) * b == b * c - b;
    }
    DivModUnique(a, b * c, q2, r2 * b + r);
  }

  /** Adding a multiple of the divisor moves the quotient and keeps the remainder. */
  lemma AddMultiple(a: int, k: int, b: int)
    requires 0 < b
    ensures (k * b + a) % b == a % b
    ensures (k * b + a) / b == k + a / b
  {
    assert k * b + a == (k + a / b) * b + a % b;
    DivModUnique(k * b + a, b, k + a / b, a % b);
  }

  ghost predicate Divides(d: int, a: int)
    requires 0 < d
  {
    a % d == 0
  }

  lemma DividesSum(d: int, a: int, b: int)
    requires 0 < d && a % d == 0
    ensures (a + b) % d == 0 <==> b % d == 0
  {
    assert a == (a / d) * d;
    AddMultiple(b, a / d, d);
  }

  lemma DividesProduct(d: int, a: int, k: int)
    requires 0 < d && a % d == 0
    ensures (k * a) % d == 0
  {
    assert a == (a / d) * d;
    assert k * a == (k * (a / d)) * d;
    DivModUnique(k * a, d, k * (a / d), 0);
  }

  /** Euclid's algorithm, as std::gcd computes it on non-negative arguments. */
  function Gcd(a: nat, b: nat): (g: nat)
    ensures g == 0 <==> a == 0 && b == 0
    decreases b
  {
    if b == 0 then a else Gcd(b, a % b)
  }

  /** The defining property of the greatest common divisor: its divisors are the
      common divisors of its arguments. */
  lemma {:induction false} GcdDivisors(a: nat, b: nat, d: int)
    requires 0 < d
    ensures Divides(d, Gcd(a, b)) <==> Divides(d, a) && Divides(d, b)
    decreases b
  {
    if b == 0 {
      assert 0 % d == 0;
    } else {
      GcdDivisors(b, a % b, d);
      if b % d == 0 {
        DividesProduct(d, b, a / b);
        assert a == (a / b) * b + a % b;
        DividesSum(d, (a / b) * b, a % b);
      }
    }
  }
}

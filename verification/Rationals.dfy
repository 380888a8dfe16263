/** Powers, exact fractions and reduction to lowest terms. */
module Rationals {

  function Pow(x: real, n: nat): real {
    if n == 0 then 1.0 else x * Pow(x, n - 1)
  }

  function NatPow(b: nat, n: nat): nat {
    if n == 0 then 1 else b * NatPow(b, n - 1)
  }

  lemma ScaleLess(a: real, b: real, c: real)
    requires a <= b && 0.0 <= c
    ensures a * c <= b * c && c * a <= c * b
  {
    assert 0.0 <= (b - a) * c;
  }

  /** The same, with the products named. */
  lemma ScaleTo(a: real, b: real, c: real, x: real, y: real)
    requires a <= b && 0.0 <= c
    requires x == a * c && y == b * c
    ensures x <= y
  {
    ScaleLess(a, b, c);
  }

  lemma ScaleBoth(a: real, b: real, c: real, d: real)
    requires 0.0 <= a <= b && 0.0 <= c <= d
    ensures 0.0 <= a * c <= b * d
  {
    ScaleLess(a, b, c);
    ScaleLess(c, d, b);
    ScaleLess(0.0, a, c);
  }

  lemma {:induction false} PowNonNegative(x: real, n: nat)
    requires 0.0 <= x
    ensures 0.0 <= Pow(x, n)
  {
    if n > 0 {
      PowNonNegative(x, n - 1);
      ScaleLess(0.0, x, Pow(x, n - 1));
    }
  }

  lemma {:induction false} PowAtLeastOne(x: real, n: nat)
    requires 1.0 <= x
    ensures 1.0 <= Pow(x, n)
  {
    if n > 0 {
      PowAtLeastOne(x, n - 1);
      ScaleLess(1.0, x, Pow(x, n - 1));
    }
  }

  lemma {:induction false} PowOne(n: nat)
    ensures Pow(1.0, n) == 1.0
  {
    if n > 0 {
      PowOne(n - 1);
    }
  }

  lemma {:induction false} PowMonotone(x: real, y: real, n: nat)
    requires 0.0 <= x <= y
    ensures Pow(x, n) <= Pow(y, n)
  {
    if n > 0 {
      PowMonotone(x, y, n - 1);
      PowNonNegative(y, n - 1);
      ScaleLess(Pow(x, n - 1), Pow(y, n - 1), x);
      ScaleLess(x, y, Pow(y, n - 1));
    }
  }

  lemma {:induction false} PowSum(x: real, m: nat, n: nat)
    ensures Pow(x, m + n) == Pow(x, m) * Pow(x, n)
  {
    if m > 0 {
      PowSum(x, m - 1, n);
      assert Pow(x, m + n) == x * Pow(x, m - 1 + n);
      assert x * (Pow(x, m - 1) * Pow(x, n)) == (x * Pow(x, m - 1)) * Pow(x, n);
    }
  }

  lemma {:induction false} NatPowIsPow(b: nat, n: nat)
    ensures NatPow(b, n) as real == Pow(b as real, n)
  {
    if n > 0 {
      NatPowIsPow(b, n - 1);
    }
  }

  lemma {:induction false} NatPowPositive(b: nat, n: nat)
    requires b > 0
    ensures NatPow(b, n) > 0
  {
    if n > 0 {
      NatPowPositive(b, n - 1);
    }
  }

  // ----- Greatest common divisors -----

  function Gcd(a: nat, b: nat): nat
    decreases b
  {
    if b == 0 then a else Gcd(b, a % b)
  }

  ghost predicate Divides(d: nat, a: nat) {
    exists k: nat :: d * k == a
  }

  lemma DividesSum(d: nat, a: nat, b: nat, q: nat, sum: nat)
    requires Divides(d, b) && sum == a + q * b
    ensures Divides(d, a) <==> Divides(d, sum)
  {
    var k: nat :| d * k == b;
    var m := q * k;
    Associate(d, q, k, b, m, q * b);
    if Divides(d, a) {
      var j: nat :| d * j == a;
      Multiple(d, j, m, a, q * b);
      assert d * (j + m) == sum;
    }
    if Divides(d, sum) {
      var j: nat :| d * j == sum;
      Cofactor(d, j, m, a, q * b);
    }
  }

  lemma Associate(d: nat, q: nat, k: nat, b: nat, m: nat, qb: nat)
    requires d * k == b && m == q * k && qb == q * b
    ensures d * m == qb
  {
    assert d * (q * k) == q * (d * k);
  }

  lemma Multiple(d: nat, j: nat, m: nat, a: nat, b: nat)
    requires d * j == a && d * m == b
    ensures d * (j + m) == a + b
  {
  }

  lemma Cofactor(d: nat, j: nat, m: nat, a: nat, b: nat)
    requires d * j == a + b && d * m == b
    ensures Divides(d, a)
  {
    if j < m {
      NatScale(d, j, m);
      assert d * 0 == a;
    } else {
      Multiple(d, j - m, m, d * (j - m), b);
      assert d * (j - m) == a;
    }
  }

  lemma NatScale(g: nat, a: nat, b: nat)
    requires a <= b
    ensures g * a <= g * b
  {
  }

  /** The common divisors of two numbers are exactly the divisors of their Gcd. */
  lemma {:induction false} GcdDivides(a: nat, b: nat, d: nat)
    ensures Divides(d, Gcd(a, b)) <==> Divides(d, a) && Divides(d, b)
    decreases b
  {
    if b == 0 {
      assert d * 0 == 0;
    } else {
      GcdDivides(b, a % b, d);
      if Divides(d, b) {
        DividesSum(d, a % b, b, a / b, a);
      }
    }
  }

  lemma {:induction false} GcdPositive(a: nat, b: nat)
    requires a > 0 || b > 0
    ensures Gcd(a, b) > 0
    decreases b
  {
    if b > 0 {
      GcdPositive(b, a % b);
    }
  }

  /** The denominator in lowest terms. */
  function ReducedDenominator(num: nat, den: nat): nat
    requires den > 0
  {
    GcdPositive(num, den);
    den / Gcd(num, den)
  }

  lemma QuotientOf(g: nat, k: nat, n: nat)
    requires g > 0 && g * k == n
    ensures n / g == k
  {
    var q := n / g;
    assert g * q <= n < g * q + g;
    if q < k {
      NatScale(g, q + 1, k);
    } else if k < q {
      NatScale(g, k + 1, q);
    }
  }

  lemma SelfDivides(g: nat)
    ensures Divides(g, g)
  {
    assert g * 1 == g;
  }

  /** Cancelling the Gcd keeps the value of the fraction. */
  lemma LowestTerms(num: nat, den: nat) returns (n: nat)
    requires den > 0
    ensures ReducedDenominator(num, den) > 0
    ensures n as real / ReducedDenominator(num, den) as real == num as real / den as real
    ensures num > 0 ==> n > 0
  {
    GcdPositive(num, den);
    var g := Gcd(num, den);
    SelfDivides(g);
    GcdDivides(num, den, g);
    n :| g * n == num;
    var d: nat :| g * d == den;
    QuotientOf(g, d, den);
    CancelFactor(n, d, g, num, den);
  }

  lemma CancelFactor(n: nat, d: nat, g: nat, num: nat, den: nat)
    requires g * n == num && g * d == den && den > 0
    ensures d > 0 && n as real / d as real == num as real / den as real
    ensures num > 0 ==> n > 0
  {
    assert d != 0;
    assert n * den == num * d by {
      assert n * (g * d) == (g * n) * d;
    }
    assert n as real * den as real == num as real * d as real;
    CrossEqual(n as real, d as real, num as real, den as real);
  }

  lemma CrossEqual(a: real, b: real, c: real, d: real)
    requires b > 0.0 && d > 0.0 && a * d == c * b
    ensures a / b == c / d
  {
    var q := c / d;
    assert (q * b) * d == (q * d) * b == a * d;
    assert q * b == a;
  }
}

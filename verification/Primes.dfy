/** Divisibility and primes, as far as the ground-truth routines need them. */
module Primes {

  predicate Divides(d: int, n: int) {
    d > 0 && n % d == 0
  }

  predicate Prime(n: int) {
    n >= 2 && forall d :: 2 <= d < n ==> !Divides(d, n)
  }

  lemma MulAtLeast(d: int, t: int)
    requires d > 0
    ensures t >= 1 ==> d * t >= d
    ensures t <= -1 ==> d * t <= -d
    ensures t == 0 ==> d * t == 0
  {
    if t >= 1 { assert d * t == d + d * (t - 1); }
    if t <= -1 { assert d * t == -d + d * (t + 1); }
  }

  /** Division with remainder is unique. */
  lemma DivModUnique(d: int, q: int, r: int, n: int)
    requires 0 <= r < d && n == d * q + r
    ensures n / d == q && n % d == r
  {
    var t := q - n / d;
    assert n == d * (n / d) + n % d;
    assert d * t == d * q - d * (n / d);
    MulAtLeast(d, t);
  }

  lemma MultipleDivides(d: int, q: int)
    requires d > 0
    ensures Divides(d, d * q) && (d * q) / d == q
  {
    DivModUnique(d, q, 0, d * q);
  }

  lemma Quotient(d: int, n: int)
    requires Divides(d, n)
    ensures n == d * (n / d)
  {
  }

  lemma DividesSum(d: int, a: int, b: int)
    requires Divides(d, a) && Divides(d, b)
    ensures Divides(d, a + b) && Divides(d, a - b)
  {
    Quotient(d, a);
    Quotient(d, b);
    assert a + b == d * (a / d + b / d);
    assert a - b == d * (a / d - b / d);
    MultipleDivides(d, a / d + b / d);
    MultipleDivides(d, a / d - b / d);
  }

  lemma DividesProduct(d: int, a: int, c: int)
    requires Divides(d, a)
    ensures Divides(d, a * c) && Divides(d, c * a)
  {
    Quotient(d, a);
    assert a * c == d * (a / d * c);
    MultipleDivides(d, a / d * c);
  }

  lemma DividesTrans(d: int, e: int, n: int)
    requires Divides(d, e) && Divides(e, n)
    ensures Divides(d, n)
  {
    Quotient(e, n);
    DividesProduct(d, e, n / e);
  }

  lemma FactorBound(d: int, q: int)
    requires d > 0 && d * q > 0
    ensures 1 <= q <= d * q && d <= d * q
  {
    MulAtLeast(d, q);
    MulAtLeast(q, d);
  }

  lemma DivisorBound(d: int, n: int)
    requires Divides(d, n) && n > 0
    ensures 1 <= d <= n && 1 <= n / d <= n && Divides(n / d, n) && n / (n / d) == d
  {
    var q := n / d;
    Quotient(d, n);
    FactorBound(d, q);
    MultipleDivides(q, d);
    assert n == q * d;
  }

  /** The other factor is small when this one is not. */
  lemma CofactorSmall(d: int, n: int, bound: int)
    requires Divides(d, n) && n > 0 && 0 < bound <= d && n < bound * bound
    ensures n / d < bound
  {
    DivisorBound(d, n);
    if n / d >= bound {
      Quotient(d, n);
      MulMonotone(bound, d, bound, n / d);
    }
  }

  lemma MulMonotone(a: int, b: int, c: int, d: int)
    requires 0 <= a <= b && 0 <= c <= d
    ensures a * c <= b * d
  {
    assert b * d - a * c == b * (d - c) + (b - a) * c;
  }

  lemma {:induction false} PrimeFactor(n: int) returns (p: int)
    requires n >= 2
    ensures Prime(p) && Divides(p, n) && p <= n
    decreases n
  {
    if Prime(n) {
      p := n;
      assert n == n * 1;
      MultipleDivides(n, 1);
    } else {
      var d :| 2 <= d < n && Divides(d, n);
      p := PrimeFactor(d);
      DividesTrans(p, d, n);
    }
  }

  /** Replacing a factor by a remainder keeps divisibility. */
  lemma ReduceFactor(q: int, a: int, b: int, s: int, r: int)
    requires Divides(q, a * b) && a == q * s + r
    ensures Divides(q, r * b)
  {
    assert r * b == a * b - q * (s * b) by {
      assert (q * s + r) * b == q * s * b + r * b;
      assert q * s * b == q * (s * b);
    }
    MultipleDivides(q, s * b);
    DividesSum(q, a * b, q * (s * b));
  }

  lemma ReduceModulus(q: int, a: int, b: int, s: int, r: int)
    requires Divides(q, a * b) && q == a * s + r
    ensures Divides(q, r * b)
  {
    assert r * b == q * b - (a * b) * s by {
      assert (a * s + r) * b == a * s * b + r * b;
      assert a * s * b == (a * b) * s;
    }
    MultipleDivides(q, b);
    DividesProduct(q, a * b, s);
    DividesSum(q, q * b, (a * b) * s);
  }

  /** Euclid's lemma. */
  lemma {:induction false} Euclid(q: int, a: int, b: int)
    requires Prime(q) && a >= 1 && Divides(q, a * b) && !Divides(q, a)
    ensures Divides(q, b)
    decreases a
  {
    if a >= q {
      var r := a % q;
      assert a == q * (a / q) + r && 0 < r < q;
      ReduceFactor(q, a, b, a / q, r);
      SmallNotDivided(q, r);
      Euclid(q, r, b);
    } else if a > 1 {
      var r := q % a;
      assert q == a * (q / a) + r;
      assert !Divides(a, q) && 0 < r < a;
      ReduceModulus(q, a, b, q / a, r);
      SmallNotDivided(q, r);
      Euclid(q, r, b);
    }
  }

  lemma SmallNotDivided(q: int, r: int)
    requires 0 < r < q
    ensures !Divides(q, r)
  {
    DivModUnique(q, 0, r, r);
  }

  /** Distinct primes do not divide each other. */
  lemma DistinctPrimes(q: int, p: int)
    requires Prime(q) && Prime(p) && Divides(q, p)
    ensures q == p
  {
    DivisorBound(q, p);
  }
}

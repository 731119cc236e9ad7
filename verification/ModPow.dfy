/** Modular exponentiation by squaring, on unbounded integers. */
module ModPow {
  import opened Primes
  import opened Options

  ghost function Pow(b: int, e: nat): int {
    if e == 0 then 1 else b * Pow(b, e - 1)
  }

  /** The source's remainder truncates: it has the sign of the dividend. */
  function Rem(a: int, m: int): int
    requires m > 0
  {
    if a >= 0 then a % m else -((-a) % m)
  }

  ghost predicate Congruent(a: int, b: int, m: int)
    requires m > 0
  {
    Divides(m, a - b)
  }

  lemma RemCongruent(a: int, m: int)
    requires m > 0
    ensures Congruent(Rem(a, m), a, m) && -m < Rem(a, m) < m && (a >= 0 ==> Rem(a, m) >= 0)
  {
    if a >= 0 {
      assert Rem(a, m) - a == m * (-(a / m));
      MultipleDivides(m, -(a / m));
    } else {
      assert Rem(a, m) - a == m * ((-a) / m);
      MultipleDivides(m, (-a) / m);
    }
  }

  lemma CongruentTrans(a: int, b: int, c: int, m: int)
    requires m > 0 && Congruent(a, b, m) && Congruent(b, c, m)
    ensures Congruent(a, c, m)
  {
    DividesSum(m, a - b, b - c);
  }

  lemma CongruentMul(a: int, b: int, c: int, d: int, m: int)
    requires m > 0 && Congruent(a, b, m) && Congruent(c, d, m)
    ensures Congruent(a * c, b * d, m)
  {
    assert a * c - b * d == (a - b) * c + b * (c - d) by {
      assert (a - b) * c == a * c - b * c;
      assert b * (c - d) == b * c - b * d;
    }
    DividesProduct(m, a - b, c);
    DividesProduct(m, c - d, b);
    DividesSum(m, (a - b) * c, b * (c - d));
  }

  lemma CongruentRefl(a: int, m: int)
    requires m > 0
    ensures Congruent(a, a, m)
  {
    MultipleDivides(m, 0);
    assert m * 0 == 0;
  }

  lemma {:induction false} CongruentPow(a: int, b: int, e: nat, m: int)
    requires m > 0 && Congruent(a, b, m)
    ensures Congruent(Pow(a, e), Pow(b, e), m)
  {
    if e == 0 {
      CongruentRefl(1, m);
    } else {
      CongruentPow(a, b, e - 1, m);
      CongruentMul(a, b, Pow(a, e - 1), Pow(b, e - 1), m);
    }
  }

  lemma {:induction false} PowSquare(b: int, h: nat)
    ensures Pow(b, 2 * h) == Pow(b * b, h)
  {
    if h > 0 {
      PowSquare(b, h - 1);
      assert Pow(b, 2 * h) == b * Pow(b, 2 * h - 1);
      assert Pow(b, 2 * h - 1) == b * Pow(b, 2 * h - 2);
      assert b * (b * Pow(b, 2 * h - 2)) == (b * b) * Pow(b, 2 * h - 2);
    }
  }

  /** Equal remainders from congruence. */
  lemma CongruentReduced(r: int, a: int, m: int)
    requires m > 0 && Congruent(r, a, m) && 0 <= r < m
    ensures r == a % m
  {
    Quotient(m, r - a);
    DivModUnique(m, -((r - a) / m), r, a);
  }

  /** An odd exponent gives one factor away; what is left is a power of the square. */
  lemma SplitPower(b: int, e: int)
    requires e > 0
    ensures Pow(b, e) == if e % 2 == 1 then b * Pow(b * b, e / 2) else Pow(b * b, e / 2)
  {
    PowSquare(b, e / 2);
  }

  lemma RemFactors(factor: int, factor': int, square: int, h: nat, m: int)
    requires m > 0 && Congruent(factor', factor, m)
    ensures Congruent(factor' * Pow(Rem(square, m), h), factor * Pow(square, h), m)
  {
    RemCongruent(square, m);
    CongruentPow(Rem(square, m), square, h, m);
    CongruentMul(factor', factor, Pow(Rem(square, m), h), Pow(square, h), m);
  }

  lemma MulAssoc(a: int, b: int, c: int)
    ensures (a * b) * c == a * (b * c)
  {
  }

  /** One round: square the base, halve the exponent, multiply in an odd factor. */
  lemma Round(result: int, b: int, e: int, m: int, goal: int)
    requires m > 0 && e > 0 && Congruent(result * Pow(b, e), goal, m)
    ensures Congruent((if e % 2 == 1 then Rem(result * b, m) else result) * Pow(Rem(b * b, m), e / 2), goal, m)
  {
    var factor := if e % 2 == 1 then result * b else result;
    var factor' := if e % 2 == 1 then Rem(result * b, m) else result;
    SplitPower(b, e);
    MulAssoc(result, b, Pow(b * b, e / 2));
    RemCongruent(factor, m);
    CongruentRefl(factor, m);
    hide Congruent, Rem, Pow;
    RemFactors(factor, factor', b * b, e / 2, m);
    CongruentTrans(factor' * Pow(Rem(b * b, m), e / 2), factor * Pow(b * b, e / 2), goal, m);
  }

  /** Fails for a modulus below one.  A negative base keeps the truncated sign; a negative
      exponent leaves the loop unentered. */
  method Compute(base: int, exp: int, mod: int) returns (r: Option<int>)
    ensures r.None? <==> mod <= 0
    ensures mod > 0 && exp >= 0 && base >= 0 ==> r.value == Pow(base, exp) % mod
    ensures mod > 0 && exp >= 0 ==> Congruent(r.value, Pow(base, exp), mod) && -mod < r.value < mod
    ensures mod > 0 && exp < 0 ==> r.value == 1 % mod
  {
    if mod <= 0 { return None; }
    var result := Rem(1, mod);
    var b := Rem(base, mod);
    var e := exp;
    ghost var goal := if exp >= 0 then Pow(base, exp) else 1;
    RemCongruent(1, mod);
    RemCongruent(base, mod);
    if exp >= 0 {
      CongruentPow(b, base, exp, mod);
      CongruentMul(result, 1, Pow(b, exp), Pow(base, exp), mod);
    }
    while e > 0
      invariant exp >= 0 ==> e >= 0 && Congruent(result * Pow(b, e), goal, mod)
      invariant exp < 0 ==> e == exp && result == 1 % mod
      invariant -mod < result < mod
      invariant base >= 0 ==> result >= 0 && b >= 0
    {
      Round(result, b, e, mod, goal);
      if e % 2 == 1 {
        RemCongruent(result * b, mod);
        if base >= 0 { MulMonotone(0, result, 0, b); }
        result := Rem(result * b, mod);
      }
      e := e / 2;
      RemCongruent(b * b, mod);
      assert b * b >= 0;
      b := Rem(b * b, mod);
    }
    if exp >= 0 {
      assert result * Pow(b, 0) == result;
      if base >= 0 { CongruentReduced(result, goal, mod); }
    }
    r := Some(result);
  }
}

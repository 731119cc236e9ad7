/** Sum of divisors by trial division up to the square root. */
module DivisorSum {
  import opened Primes

  ghost function Pick<T>(s: set<T>): (x: T)
    requires s != {}
    ensures x in s
  {
    var x :| x in s;
    x
  }

  ghost function Sum(s: set<int>): int
    decreases |s|
  {
    if s == {} then 0 else Pick(s) + Sum(s - {Pick(s)})
  }

  lemma {:induction false} SumAdd(s: set<int>, x: int)
    requires x !in s
    ensures Sum(s + {x}) == Sum(s) + x
    decreases |s|
  {
    var t := s + {x};
    var y := Pick(t);
    if y == x {
      assert t - {y} == s;
    } else {
      assert t - {y} == (s - {y}) + {x};
      SumAdd(s - {y}, x);
      SumAdd(s - {y}, y);
      assert s - {y} + {y} == s;
    }
  }

  ghost function Divisors(n: int): set<int> {
    set e | 1 <= e <= n && Divides(e, n)
  }

  /** The divisors found by trying everything below `d`, each with its cofactor. */
  ghost function Found(n: int, d: int): set<int> {
    set e | 1 <= e <= n && Divides(e, n) && (e < d || n / e < d)
  }

  lemma FoundStep(n: int, d: int)
    requires n >= 1 && 1 <= d && d * d <= n
    ensures Divides(d, n) ==> Found(n, d + 1) == Found(n, d) + {d, n / d} && d !in Found(n, d) && n / d !in Found(n, d)
    ensures !Divides(d, n) ==> Found(n, d + 1) == Found(n, d)
  {
    forall e | 1 <= e <= n && Divides(e, n) ensures n / e == d <==> Divides(d, n) && e == n / d {
      DivisorBound(e, n);
      if Divides(d, n) { DivisorBound(d, n); }
    }
    if Divides(d, n) {
      DivisorBound(d, n);
      Quotient(d, n);
      if n / d < d { CofactorTooSmall(n, d); }
    }
  }

  lemma CofactorTooSmall(n: int, d: int)
    requires d >= 1 && d * d <= n && n == d * (n / d)
    ensures n / d >= d
  {
    MulAtLeast(d, d - n / d);
    assert d * (d - n / d) == d * d - d * (n / d);
  }

  lemma AllFound(n: int, d: int)
    requires n >= 1 && d >= 1 && d * d > n
    ensures Found(n, d) == Divisors(n)
  {
    forall e | e in Divisors(n) ensures e in Found(n, d) {
      if e >= d { CofactorSmall(e, n, d); }
    }
  }

  method SumOfDivisors(n: nat) returns (sum: int)
    ensures sum == Sum(Divisors(n))
  {
    sum := 0;
    var d := 1;
    assert Found(n, 1) == {} by {
      forall e | 1 <= e <= n && Divides(e, n) ensures !(e < 1 || n / e < 1) { DivisorBound(e, n); }
    }
    while d * d <= n
      invariant d >= 1
      invariant sum == Sum(Found(n, d))
      decreases n + 1 - d
    {
      assert d <= n by { MulMonotone(1, d, d, d); }
      FoundStep(n, d);
      if n % d == 0 {
        SumAdd(Found(n, d), d);
        sum := sum + d;
        var complement := n / d;
        if complement != d {
          SumAdd(Found(n, d) + {d}, complement);
          assert Found(n, d) + {d} + {complement} == Found(n, d) + {d, complement};
          sum := sum + complement;
        } else {
          assert Found(n, d) + {d, complement} == Found(n, d) + {d};
        }
      }
      d := d + 1;
    }
    if n >= 1 { AllFound(n, d); } else { assert Found(n, d) == Divisors(n) == {}; }
  }
}

/** The sieve of Eratosthenes and the prime count read off it. */
module Sieve {
  import opened Primes

  /** `k` has no proper divisor below `i`. */
  predicate Survives(k: int, i: int) {
    k >= 2 && forall d :: 2 <= d < i && d < k ==> !Divides(d, k)
  }

  lemma SurvivorsAreThePrimes(k: int, i: int, N: int)
    requires 0 <= k <= N < i * i && i >= 2
    ensures Survives(k, i) <==> Prime(k)
  {
    if Survives(k, i) && !Prime(k) {
      var d :| 2 <= d < k && Divides(d, k);
      if d >= i {
        CofactorSmall(d, k, i);
        DivisorBound(d, k);
        Quotient(d, k);
      }
    }
  }

  /** A composite step strikes nothing new. */
  lemma CompositeStep(k: int, i: int)
    requires i >= 2 && !Prime(i)
    ensures Survives(k, i + 1) <==> Survives(k, i)
  {
    if Survives(k, i) && i < k && Divides(i, k) {
      var d :| 2 <= d < i && Divides(d, i);
      DividesTrans(d, i, k);
    }
  }

  /** A prime step may start at the square: smaller multiples have a smaller divisor. */
  lemma PrimeStep(k: int, i: int)
    requires i >= 2
    ensures Survives(k, i + 1) <==> Survives(k, i) && !(k >= i * i && Divides(i, k))
  {
    if Survives(k, i) && i < k && Divides(i, k) && k < i * i {
      CofactorSmall(i, k, i);
      DivisorBound(i, k);
      Quotient(i, k);
    }
    if k >= i * i { assert i * i >= 2 * i; }
  }

  method SievePrimes(N: nat) returns (isPrime: array<bool>)
    ensures fresh(isPrime)
    ensures isPrime.Length == if N < 1 then 2 else N + 1
    ensures forall k :: 0 <= k <= N ==> (isPrime[k] <==> Prime(k))
  {
    isPrime := new bool[if N < 1 then 2 else N + 1](_ => true);
    isPrime[0], isPrime[1] := false, false;
    var i := 2;
    while i * i <= N
      invariant i >= 2
      invariant forall k :: 0 <= k <= N ==> (isPrime[k] <==> Survives(k, i))
      decreases N + 1 - i
    {
      assert i <= N by { assert i * i >= 2 * i; }
      assert isPrime[i] <==> Prime(i);
      if isPrime[i] {
        StrikeMultiples(isPrime, N, i);
      } else {
        forall k | 0 <= k <= N ensures Survives(k, i + 1) <==> Survives(k, i) { CompositeStep(k, i); }
      }
      i := i + 1;
    }
    forall k | 0 <= k <= N ensures isPrime[k] <==> Prime(k) { SurvivorsAreThePrimes(k, i, N); }
  }

  method StrikeMultiples(isPrime: array<bool>, N: nat, i: int)
    requires 2 <= i && i * i <= N < isPrime.Length
    requires forall k :: 0 <= k <= N ==> (isPrime[k] <==> Survives(k, i))
    modifies isPrime
    ensures forall k :: 0 <= k <= N ==> (isPrime[k] <==> Survives(k, i + 1))
  {
    var j := i * i;
    MultipleDivides(i, i);
    while j <= N
      invariant i * i <= j && Divides(i, j)
      invariant forall k :: 0 <= k <= N ==>
        (isPrime[k] <==> Survives(k, i) && !(i * i <= k < j && Divides(i, k)))
      decreases N + 1 - j
    {
      isPrime[j] := false;
      NextMultiple(i, j);
      j := j + i;
    }
    forall k | 0 <= k <= N ensures isPrime[k] <==> Survives(k, i + 1) { PrimeStep(k, i); }
  }

  lemma NextMultiple(i: int, j: int)
    requires i > 0 && Divides(i, j)
    ensures Divides(i, j + i)
    ensures forall k :: j < k < j + i ==> !Divides(i, k)
  {
    assert i * 1 == i;
    MultipleDivides(i, 1);
    DividesSum(i, j, i);
    forall k | j < k < j + i ensures !Divides(i, k) {
      if Divides(i, k) {
        DividesSum(i, k, j);
        DivisorBound(i, k - j);
      }
    }
  }

  /** The primes up to `n`. */
  ghost function PrimesUpTo(n: int): set<int> {
    set p | 2 <= p <= n && Prime(p)
  }

  method PrimeCount(N: nat) returns (count: nat)
    ensures count == |PrimesUpTo(N)|
  {
    var isPrime := SievePrimes(N);
    count := 0;
    var i := 2;
    assert PrimesUpTo(1) == {};
    while i <= N
      invariant 2 <= i && (N >= 1 ==> i <= N + 1) && (N < 1 ==> i == 2)
      invariant count == |PrimesUpTo(i - 1)|
    {
      assert PrimesUpTo(i) == if Prime(i) then PrimesUpTo(i - 1) + {i} else PrimesUpTo(i - 1);
      if isPrime[i] { count := count + 1; }
      i := i + 1;
    }
    assert PrimesUpTo(N) == PrimesUpTo(i - 1);
  }
}

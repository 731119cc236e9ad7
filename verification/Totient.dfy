/** The totient sieve: after the loop has passed every prime, entry `n` counts the numbers up to
    `n` that share no factor with `n`. */
module Totient {
  import opened Primes
  import Sieve

  /** `k` and `n` share no divisor above one. */
  ghost predicate Coprime(k: int, n: int) {
    forall d :: d >= 2 && Divides(d, k) ==> !Divides(d, n)
  }

  /** Euler's totient, by definition. */
  ghost function Phi(n: int): nat {
    |set k | 1 <= k <= n && Coprime(k, n)|
  }

  /** `k` shares no prime below `i` with `n`. */
  ghost predicate Clear(k: int, n: int, i: int) {
    forall q :: 2 <= q < i && Prime(q) && Divides(q, n) ==> !Divides(q, k)
  }

  /** How many of `1..len` are clear. */
  ghost function CountClear(n: int, i: int, len: nat): nat {
    if len == 0 then 0 else CountClear(n, i, len - 1) + if Clear(len, n, i) then 1 else 0
  }

  /** How many of `1..len` are clear and divisible by `p`. */
  ghost function CountStruck(n: int, p: int, len: nat): nat {
    if len == 0 then 0
    else CountStruck(n, p, len - 1) + if Clear(len, n, p) && Divides(p, len) then 1 else 0
  }

  // ---- Passing one prime -----------------------------------------------------------------

  /** Being clear has period `n / p`: every smaller prime of `n` divides it. */
  lemma ClearPeriod(k: int, n: int, p: int)
    requires Prime(p) && Divides(p, n) && n > 0
    ensures Clear(k + n / p, n, p) <==> Clear(k, n, p)
  {
    forall q | 2 <= q < p && Prime(q) && Divides(q, n) ensures Divides(q, k + n / p) <==> Divides(q, k) {
      SmallerPrimeOfCofactor(q, n, p);
      if Divides(q, k) { DividesSum(q, k, n / p); }
      if Divides(q, k + n / p) { DividesSum(q, k + n / p, n / p); }
    }
  }

  lemma SmallerPrimeOfCofactor(q: int, n: int, p: int)
    requires Prime(p) && Divides(p, n) && n > 0 && 2 <= q < p && Prime(q)
    ensures Divides(q, n) <==> Divides(q, n / p)
  {
    Quotient(p, n);
    if Divides(q, n / p) { DividesProduct(q, n / p, p); }
    if Divides(q, n) {
      if Divides(q, p) { DistinctPrimes(q, p); }
      Euclid(q, p, n / p);
    }
  }

  lemma ClearOfCofactor(k: int, n: int, p: int)
    requires Prime(p) && Divides(p, n) && n > 0
    ensures Clear(k, n, p) <==> Clear(k, n / p, p)
  {
    forall q | 2 <= q < p && Prime(q) ensures Divides(q, n) <==> Divides(q, n / p) {
      SmallerPrimeOfCofactor(q, n, p);
    }
  }

  lemma ClearMultiple(j: int, n: int, p: int)
    requires Prime(p) && Divides(p, n) && n > 0
    ensures Clear(p * j, n, p) <==> Clear(j, n / p, p)
  {
    ClearOfCofactor(j, n, p);
    forall q | 2 <= q < p && Prime(q) ensures Divides(q, p * j) <==> Divides(q, j) {
      if Divides(q, j) { DividesProduct(q, j, p); }
      if Divides(q, p * j) {
        if Divides(q, p) { DistinctPrimes(q, p); }
        Euclid(q, p, j);
      }
    }
  }

  lemma {:induction false} CountShift(n: int, p: int, len: nat, m: nat)
    requires Prime(p) && Divides(p, n) && n > 0 && m == n / p
    ensures CountClear(n, p, m + len) == CountClear(n, p, m) + CountClear(n, p, len)
  {
    if len > 0 {
      CountShift(n, p, len - 1, m);
      ClearPeriod(len, n, p);
      assert CountClear(n, p, m + len) == CountClear(n, p, m + len - 1) + if Clear(len + m, n, p) then 1 else 0;
    }
  }

  lemma {:induction false} CountBlocks(n: int, p: int, c: nat, m: nat)
    requires Prime(p) && Divides(p, n) && n > 0 && m == n / p
    ensures c * m >= 0 && CountClear(n, p, c * m) == c * CountClear(n, p, m)
  {
    if c > 0 {
      CountBlocks(n, p, c - 1, m);
      assert c * m == (c - 1) * m + m;
      CountShift(n, p, (c - 1) * m, m);
      assert c * CountClear(n, p, m) == (c - 1) * CountClear(n, p, m) + CountClear(n, p, m);
    }
  }

  lemma {:induction false} CountCofactor(n: int, p: int, len: nat)
    requires Prime(p) && Divides(p, n) && n > 0
    ensures CountClear(n, p, len) == CountClear(n / p, p, len)
  {
    if len > 0 {
      CountCofactor(n, p, len - 1);
      ClearOfCofactor(len, n, p);
    }
  }

  lemma {:induction false} CountMultiples(n: int, p: int, j: nat)
    requires Prime(p) && Divides(p, n) && n > 0
    ensures p * j >= 0 && CountStruck(n, p, p * j) == CountClear(n / p, p, j)
  {
    if j > 0 {
      CountMultiples(n, p, j - 1);
      assert p * j == p * (j - 1) + p;
      MultipleDivides(p, j - 1);
      CountGap(n, p, p * (j - 1), p - 1);
      MultipleDivides(p, j);
      ClearMultiple(j, n, p);
    } else {
      assert p * 0 == 0;
    }
  }

  lemma {:induction false} CountGap(n: int, p: int, base: nat, gap: nat)
    requires Divides(p, base) && gap < p
    ensures CountStruck(n, p, base + gap) == CountStruck(n, p, base)
  {
    if gap > 0 {
      CountGap(n, p, base, gap - 1);
      Sieve.NextMultiple(p, base);
    }
  }

  lemma {:induction false} CountSplit(n: int, p: int, len: nat)
    requires Prime(p) && Divides(p, n)
    ensures CountClear(n, p + 1, len) == CountClear(n, p, len) - CountStruck(n, p, len)
  {
    if len > 0 {
      CountSplit(n, p, len - 1);
      assert Clear(len, n, p + 1) <==> Clear(len, n, p) && !Divides(p, len);
    }
  }

  /** Passing a prime `p` of `n` takes away exactly one `p`-th of the count, without remainder. */
  lemma PassPrime(n: int, p: int)
    requires Prime(p) && Divides(p, n) && n > 0
    ensures Divides(p, CountClear(n, p, n))
    ensures CountClear(n, p + 1, n) == CountClear(n, p, n) - CountClear(n, p, n) / p
  {
    DivisorBound(p, n);
    Quotient(p, n);
    var m := n / p;
    CountBlocks(n, p, p, m);
    CountCofactor(n, p, m);
    CountMultiples(n, p, m);
    CountSplit(n, p, n);
    MultipleDivides(p, CountClear(n, p, m));
  }

  /** Nothing changes for a number the step does not divide, nor at a composite step. */
  lemma {:induction false} PassOther(n: int, i: int, len: nat)
    requires !(Prime(i) && Divides(i, n))
    ensures CountClear(n, i + 1, len) == CountClear(n, i, len)
  {
    if len > 0 {
      PassOther(n, i, len - 1);
      assert Clear(len, n, i + 1) <==> Clear(len, n, i);
    }
  }

  // ---- What the entries mean -----------------------------------------------------------------

  lemma {:induction false} CountBound(n: int, i: int, len: nat)
    ensures CountClear(n, i, len) <= len
    ensures CountClear(n, i, len) == len <==> forall k :: 1 <= k <= len ==> Clear(k, n, i)
  {
    if len > 0 {
      CountBound(n, i, len - 1);
    }
  }

  /** An entry still equal to its index marks a prime, and only a prime. */
  lemma UntouchedIffPrime(i: int)
    requires i >= 2
    ensures CountClear(i, i, i) == i <==> Prime(i)
  {
    CountBound(i, i, i);
    if Prime(i) {
      forall k | 1 <= k <= i ensures Clear(k, i, i) {}
    } else {
      var d :| 2 <= d < i && Divides(d, i);
      var q := PrimeFactor(d);
      DividesTrans(q, d, i);
      assert !Clear(q, i, i) by {
        assert q == q * 1;
        MultipleDivides(q, 1);
      }
    }
  }

  lemma ClearIsCoprime(k: int, n: int, i: int)
    requires 1 <= n < i
    ensures Clear(k, n, i) <==> Coprime(k, n)
  {
    if Clear(k, n, i) && !Coprime(k, n) {
      var d :| d >= 2 && Divides(d, k) && Divides(d, n);
      var q := PrimeFactor(d);
      DividesTrans(q, d, k);
      DividesTrans(q, d, n);
      DivisorBound(q, n);
    }
  }

  lemma {:induction false} CountIsPhi(n: int, i: int, len: nat)
    requires 1 <= n < i
    ensures CountClear(n, i, len) == |set k | 1 <= k <= len && Coprime(k, n)|
  {
    var s := set k | 1 <= k <= len && Coprime(k, n);
    if len == 0 {
      assert s == {};
    } else {
      CountIsPhi(n, i, len - 1);
      ClearIsCoprime(len, n, i);
      var t := set k | 1 <= k <= len - 1 && Coprime(k, n);
      assert s == if Coprime(len, n) then t + {len} else t;
    }
  }

  lemma {:induction false} NothingStruckYet(n: int, len: nat)
    ensures CountClear(n, 2, len) == len
  {
    if len > 0 { NothingStruckYet(n, len - 1); }
  }

  // ---- The sieve ---------------------------------------------------------------------------------

  method TotientSieve(N: nat) returns (phi: array<int>)
    ensures fresh(phi) && phi.Length == N + 1 && phi[0] == 0
    ensures forall n :: 1 <= n <= N ==> phi[n] == Phi(n)
  {
    phi := new int[N + 1](i => i);
    forall n | 0 <= n <= N ensures phi[n] == CountClear(n, 2, n) { NothingStruckYet(n, n); }
    var i := 2;
    while i <= N
      invariant 2 <= i && (N >= 1 ==> i <= N + 1)
      invariant forall n :: 0 <= n <= N ==> phi[n] == CountClear(n, i, n)
    {
      UntouchedIffPrime(i);
      if phi[i] == i {
        ApplyPrime(phi, N, i);
      } else {
        forall n | 0 <= n <= N ensures CountClear(n, i + 1, n) == CountClear(n, i, n) { PassOther(n, i, n); }
      }
      i := i + 1;
    }
    forall n | 1 <= n <= N ensures phi[n] == Phi(n) { CountIsPhi(n, i, n); }
  }

  /** Subtract a prime's contribution from every multiple; the divisions are exact. */
  method ApplyPrime(phi: array<int>, N: nat, p: int)
    requires Prime(p) && p <= N && phi.Length == N + 1
    requires forall n :: 0 <= n <= N ==> phi[n] == CountClear(n, p, n)
    modifies phi
    ensures forall n :: 0 <= n <= N ==> phi[n] == CountClear(n, p + 1, n)
  {
    var j := p;
    assert Divides(p, j) by {
      assert p == p * 1;
      MultipleDivides(p, 1);
    }
    forall n | 0 <= n < p ensures CountClear(n, p + 1, n) == CountClear(n, p, n) {
      if n == 0 {
      } else {
        if Divides(p, n) { DivisorBound(p, n); }
        PassOther(n, p, n);
      }
    }
    while j <= N
      invariant p <= j <= N + p && Divides(p, j)
      invariant forall n :: 0 <= n <= N ==> phi[n] == CountClear(n, if n < j then p + 1 else p, n)
    {
      PassPrime(j, p);
      assert Divides(p, phi[j]);
      phi[j] := phi[j] - phi[j] / p;
      Sieve.NextMultiple(p, j);
      forall n | j < n < j + p ensures CountClear(n, p + 1, n) == CountClear(n, p, n) { PassOther(n, p, n); }
      j := j + p;
    }
  }
}

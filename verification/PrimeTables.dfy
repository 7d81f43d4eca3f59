/**
  Two tables of primes with one interface: trial division on the fly, and a
  sieve.  Integers are unbounded.
 */
module PrimeTables {

  ghost predicate Divides(d: int, n: int)
    requires d > 0
  {
    n % d == 0
  }

  ghost predicate Prime(n: int) {
    n >= 2 && forall d :: 2 <= d < n ==> !Divides(d, n)
  }

  // ----- Divisibility -------------------------------------------------------

  lemma DividesProduct(d: nat, k: int)
    requires d > 0
    ensures Divides(d, d * k)
  {
    ModUnique(d * k, d, k, 0);
  }

  lemma ModUnique(n: int, d: int, q: int, r: int)
    requires 0 <= r < d && n == d * q + r
    ensures n % d == r
  {
    var p := n / d;
    assert n == d * p + n % d;
    if p < q {
      MulStep(d, p + 1, q);
    } else if q < p {
      MulStep(d, q + 1, p);
    }
  }

  lemma MulStep(d: int, a: int, b: int)
    requires d > 0 && a <= b
    ensures d * a <= d * b
  {
  }

  lemma Quotient(d: nat, n: int) returns (k: int)
    requires d > 0 && Divides(d, n)
    ensures n == d * k
  {
    k := n / d;
  }

  lemma DividesTransitive(d: nat, e: nat, n: int)
    requires d > 0 && e > 0 && Divides(d, e) && Divides(e, n)
    ensures Divides(d, n)
  {
    var a := Quotient(d, e);
    var b := Quotient(e, n);
    assert n == d * (a * b) by { assert (d * a) * b == d * (a * b); }
    DividesProduct(d, a * b);
  }

  /** Every number from 2 on has a prime factor. */
  lemma {:induction false} PrimeFactor(n: nat) returns (p: nat)
    requires n >= 2
    ensures 2 <= p <= n && Prime(p) && Divides(p, n)
  {
    if Prime(n) {
      p := n;
    } else {
      var d :| 2 <= d < n && Divides(d, n);
      p := PrimeFactor(d);
      DividesTransitive(p, d, n);
    }
  }

  // ----- Trial division -----------------------------------------------------

  /** A composite number has a divisor no larger than its square root. */
  lemma SmallDivisor(n: nat, bound: nat)
    requires n >= 2 && n < bound * bound && bound >= 2
    requires forall d :: 2 <= d < bound && d < n ==> !Divides(d, n)
    ensures Prime(n)
  {
    forall d | 2 <= d < n
      ensures !Divides(d, n)
    {
      if Divides(d, n) {
        var k := Quotient(d, n);
        CofactorBounds(d, k, n);
        if d >= bound {
          assert k < bound by {
            if k >= bound { MulBoth(bound, d, bound, k); }
          }
          DividesProduct(k, d);
        }
      }
    }
  }

  lemma CofactorBounds(d: nat, k: int, n: nat)
    requires 2 <= d < n && n == d * k
    ensures 2 <= k < n
  {
    if k <= 1 {
      MulStep(d, k, 1);
    } else {
      MulStep(k, 2, d);
    }
  }

  lemma MulBoth(a: nat, b: nat, c: nat, d: nat)
    requires a <= b && c <= d
    ensures a * c <= b * d
  {
    MulStep2(c, a, b);
    MulStep2(b, c, d);
  }

  lemma MulStep2(d: nat, a: nat, b: nat)
    requires a <= b
    ensures d * a <= d * b && a * d <= b * d
  {
  }

  // ----- Euclid -------------------------------------------------------------

  ghost function Factorial(n: nat): (f: nat)
    ensures f >= 1
  {
    if n == 0 then 1 else n * Factorial(n - 1)
  }

  lemma {:induction false} DividesFactorial(d: nat, n: nat)
    requires 1 <= d <= n
    ensures Divides(d, Factorial(n))
  {
    if d == n {
      DividesProduct(n, Factorial(n - 1));
    } else {
      DividesFactorial(d, n - 1);
      var k := Quotient(d, Factorial(n - 1));
      assert Factorial(n) == d * (n * k) by { assert n * (d * k) == d * (n * k); }
      DividesProduct(d, n * k);
    }
  }

  /** Above every number there is a prime. */
  lemma PrimeAbove(n: nat) returns (p: nat)
    ensures p > n && Prime(p)
  {
    var m := Factorial(n) + 1;
    p := PrimeFactor(m);
    if p <= n {
      DividesFactorial(p, n);
      var k := Quotient(p, Factorial(n));
      ModUnique(m, p, k, 1);
      assert false;
    }
  }

  /** r is the least prime above p. */
  ghost predicate IsNextPrime(p: int, r: int) {
    r > p && Prime(r) && forall q :: p < q < r ==> !Prime(q)
  }

  /** r is the least prime above p and below size, or -1 if there is none. */
  ghost predicate IsNextInTable(p: int, size: int, r: int) {
    if r == -1 then forall q :: p < q < size ==> !Prime(q) else IsNextPrime(p, r) && r < size
  }

  /** The two tables agree as far as the second one goes. */
  lemma TablesAgree(p: int, size: int, r: int, t: int)
    requires p >= 0 && IsNextPrime(p, r) && IsNextInTable(p, size, t)
    ensures t == if r < size then r else -1
  {
    assert Prime(r);
    if t != -1 {
      assert Prime(t);
    }
  }

  // ----- Implementation 1: on the fly ---------------------------------------

  class OnTheFlyPrimeTable {
    constructor () {
    }

    method IsPrime(n: int) returns (r: bool)
      ensures r <==> Prime(n)
    {
      if n <= 1 {
        return false;
      }
      var i := 2;
      while i * i <= n
        invariant 2 <= i
        invariant forall d :: 2 <= d < i && d < n ==> !Divides(d, n)
        decreases n - i
      {
        MulStep(i, 1, i);
        if n % i == 0 {
          MulStep(i, 2, i);
          assert Divides(i, n);
          return false;
        }
        i := i + 1;
      }
      SmallDivisor(n, i);
      return true;
    }

    /** The least prime above p; for a negative p the search ends at once. */
    method GetNextPrime(p: int) returns (r: int)
      ensures IsNextPrime(p, r) <==> p >= 0
      ensures p < 0 ==> r == -1
    {
      var n := p + 1;
      ghost var bound := 0;
      if p >= 0 { bound := PrimeAbove(p); }
      while n > 0
        invariant p >= 0 ==> p < n <= bound
        invariant p < 0 ==> n == p + 1
        invariant forall q :: p < q < n ==> !Prime(q)
        decreases bound - n
      {
        var prime := IsPrime(n);
        if prime {
          return n;
        }
        n := n + 1;
      }
      return -1;
    }
  }

  // ----- Implementation 2: a sieve ------------------------------------------

  /** n has no divisor from 2 to below i, other than itself. */
  ghost predicate Survives(n: int, i: int) {
    n >= 2 && forall d :: 2 <= d < i && d < n ==> !Divides(d, n)
  }

  /** The multiples of i below j are cleared as well, i itself excepted. */
  ghost predicate SurvivesUpTo(n: int, i: int, j: int)
    requires i >= 1
  {
    Survives(n, i) && !(n < j && n > i && Divides(i, n))
  }

  /** The multiples of a composite number are already cleared. */
  lemma SkipComposite(i: int, max: int)
    requires 2 <= i <= max && !Survives(i, i)
    ensures forall n :: 0 <= n <= max ==> (Survives(n, i) <==> Survives(n, i + 1))
  {
    var d :| 2 <= d < i && Divides(d, i);
    forall n | 0 <= n <= max && Survives(n, i)
      ensures Survives(n, i + 1)
    {
      if i < n && Divides(i, n) {
        DividesTransitive(d, i, n);
        assert false;
      }
    }
  }

  class PreCalculatedPrimeTable {
    const isPrimeSize: nat
    const isPrime: array<bool>

    ghost predicate Valid()
      reads isPrime
    {
      && isPrimeSize == isPrime.Length >= 2
      && forall n :: 0 <= n < isPrimeSize ==> (isPrime[n] <==> Prime(n))
    }

    /** The source writes is_prime_[1], so max must be at least 1. */
    constructor (max: int)
      requires max >= 1
      ensures Valid() && isPrimeSize == max + 1 && fresh(isPrime)
    {
      isPrimeSize := max + 1;
      isPrime := new bool[max + 1];
      new;
      CalculatePrimesUpTo(max);
    }

    method CalculatePrimesUpTo(max: int)
      requires max >= 1 && isPrimeSize == isPrime.Length == max + 1
      modifies isPrime
      ensures Valid()
    {
      for k := 0 to isPrimeSize
        invariant forall n :: 0 <= n < k ==> isPrime[n]
      {
        isPrime[k] := true;
      }
      isPrime[0], isPrime[1] := false, false;
      var i := 2;
      while i <= max
        invariant 2 <= i <= max + 1
        invariant forall n :: 0 <= n <= max ==> (isPrime[n] <==> Survives(n, i))
      {
        if isPrime[i] {
          MarkMultiples(i, max);
        } else {
          SkipComposite(i, max);
        }
        i := i + 1;
      }
    }

    /** The inner loop: clears every multiple of i except i itself. */
    method MarkMultiples(i: int, max: int)
      requires 2 <= i <= max && isPrime.Length == max + 1
      requires forall n :: 0 <= n <= max ==> (isPrime[n] <==> Survives(n, i))
      modifies isPrime
      ensures forall n :: 0 <= n <= max ==> (isPrime[n] <==> Survives(n, i + 1))
    {
      var j := 2 * i;
      ghost var k := 2;
      NothingCleared(i);
      while j <= max
        invariant 2 <= k && j == k * i
        invariant forall n :: 0 <= n <= max ==> (isPrime[n] <==> SurvivesUpTo(n, i, j))
      {
        isPrime[j] := false;
        NextMultiple(i, k, j);
        j := j + i;
        k := k + 1;
      }
      AllCleared(i, j, max);
    }

    method IsPrime(n: int) returns (r: bool)
      requires Valid()
      ensures r <==> n < isPrimeSize && Prime(n)
    {
      r := 0 <= n < isPrimeSize && isPrime[n];
    }

    /** The least prime above p if the table goes that far, and -1 if not. */
    method GetNextPrime(p: int) returns (r: int)
      requires Valid() && p >= -1
      ensures IsNextInTable(p, isPrimeSize, r)
    {
      var n := p + 1;
      while n < isPrimeSize
        invariant p < n && (n <= isPrimeSize || n == p + 1)
        invariant forall q :: p < q < n ==> !Prime(q)
      {
        if isPrime[n] {
          return n;
        }
        n := n + 1;
      }
      return -1;
    }
  }

  /** The multiples of i below (k + 1) * i are those below k * i, and k * i. */
  lemma NextMultiple(i: int, k: int, j: int)
    requires i >= 1 && k >= 2 && j == k * i
    ensures j + i == (k + 1) * i && j > i
    ensures forall n :: SurvivesUpTo(n, i, j + i) <==> SurvivesUpTo(n, i, j) && n != j
  {
    DividesProduct(i, k);
    NoMultipleBetween(i, k);
    MulStep(i, 2, k);
    assert (k + 1) * i == k * i + i && k * i == i * k && i * 2 == i + i;
  }

  lemma NothingCleared(i: int)
    requires i >= 1
    ensures forall n :: SurvivesUpTo(n, i, 2 * i) <==> Survives(n, i)
  {
    NoMultipleBetween(i, 1);
  }

  lemma AllCleared(i: int, j: int, max: int)
    requires i >= 2 && j > max
    ensures forall n :: n <= max ==> (SurvivesUpTo(n, i, j) <==> Survives(n, i + 1))
  {
  }

  lemma NoMultipleBetween(i: int, k: int)
    requires i >= 1 && k >= 1
    ensures forall n :: k * i < n < (k + 1) * i ==> !Divides(i, n)
  {
    forall n | k * i < n < (k + 1) * i
      ensures !Divides(i, n)
    {
      assert (k + 1) * i == k * i + i && k * i == i * k;
      ModUnique(n, i, k, n - k * i);
    }
  }
}

/** The search for a new bucket count in `resize` (Source/DOH/hash.c).

    The C loop tries odd candidates and divides each by the odd numbers below half of it.  Two facts make it
    correct: a composite odd number has an odd divisor in that range, and there is always a further prime, so
    the search cannot run for ever.
 */
module TableSize {

  ghost predicate Divides(d: nat, n: nat)
    requires 0 < d
  {
    n % d == 0
  }

  ghost predicate IsPrime(n: nat) {
    2 <= n && forall d :: 2 <= d < n ==> !Divides(d, n)
  }

  // ----- an unbounded supply of primes

  function Factorial(n: nat): (f: nat)
    ensures 1 <= f
  {
    if n == 0 then 1 else n * Factorial(n - 1)
  }

  /** The quotient and remainder of a division are determined by their defining equation. */
  lemma DivModUnique(n: int, d: nat, q: int, r: nat)
    requires n == d * q + r && r < d
    ensures n / d == q && n % d == r
  {
    var k := n / d - q;
    assert d * (n / d) + n % d == n;
    assert d * k == d * (n / d) - d * q;
    if 1 <= k {
      MulMono(d, 1, k);
    } else if k <= -1 {
      MulMono(d, k, -1);
    }
  }

  lemma MulMono(a: nat, x: int, y: int)
    requires x <= y
    ensures a * x <= a * y
  {
  }

  lemma DivisorTimes(d: nat, q: nat)
    requires 0 < d
    ensures Divides(d, d * q)
  {
    DivModUnique(d * q, d, q, 0);
  }

  lemma {:induction false} FactorialIsMultiple(d: nat, n: nat)
    requires 1 <= d <= n
    ensures Divides(d, Factorial(n))
  {
    if d == n {
      DivisorTimes(d, Factorial(n - 1));
    } else {
      FactorialIsMultiple(d, n - 1);
      var q := Factorial(n - 1) / d;
      assert Factorial(n) == n * (d * q) == d * (n * q);
      DivisorTimes(d, n * q);
    }
  }

  lemma LeastDivisorIsPrime(n: nat) returns (d: nat)
    requires 2 <= n
    ensures 2 <= d <= n && Divides(d, n) && IsPrime(d)
    ensures forall e :: 2 <= e < d ==> !Divides(e, n)
  {
    d := 2;
    while !Divides(d, n)
      invariant 2 <= d <= n
      invariant forall e :: 2 <= e < d ==> !Divides(e, n)
      decreases n - d
    {
      if d == n { ModSelf(n); }
      d := d + 1;
    }
    forall e | 2 <= e < d ensures !Divides(e, d) {
      if Divides(e, d) { DividesTransitive(e, d, n); }
    }
  }

  lemma ModSelf(n: nat)
    requires 0 < n
    ensures Divides(n, n)
  {
    DivisorTimes(n, 1);
  }

  lemma DividesTransitive(e: nat, d: nat, n: nat)
    requires 0 < e && 0 < d && Divides(e, d) && Divides(d, n)
    ensures Divides(e, n)
  {
    var x, y := d / e, n / d;
    assert n == (e * x) * y == e * (x * y);
    DivisorTimes(e, x * y);
  }

  /** Euclid: above every bound there is a prime. */
  lemma PrimesAreUnbounded(n: nat) returns (p: nat)
    ensures n < p && IsPrime(p)
  {
    p := LeastDivisorIsPrime(Factorial(n) + 1);
    if p <= n {
      FactorialIsMultiple(p, n);
      var q := Factorial(n) / p;
      assert Factorial(n) + 1 == 1 + p * q;
      DivModUnique(Factorial(n) + 1, p, q, 1);
    }
  }

  // ----- trial division

  ghost predicate NoOddDivisorBelow(n: nat, p: nat) {
    forall d :: 3 <= d < p && d % 2 == 1 ==> !Divides(d, n)
  }

  /** An odd number with no odd divisor in [3, n / 2) is prime: what the C loop's bound relies on. */
  lemma TrialDivisionSuffices(n: nat)
    requires 3 <= n && n % 2 == 1
    requires NoOddDivisorBelow(n, n / 2)
    ensures IsPrime(n)
  {
    forall d | 2 <= d < n ensures !Divides(d, n) {
      if Divides(d, n) { OddDivisorIsSmall(d, n); }
    }
  }

  lemma OddDivisorIsSmall(d: nat, n: nat)
    requires 2 <= d < n && n % 2 == 1 && Divides(d, n)
    ensures 3 <= d < n / 2 && d % 2 == 1
  {
    var q := n / d;
    assert n == d * q;
    if d % 2 == 0 { EvenTimes(d, q); }
    if q % 2 == 0 { EvenTimes(q, d); }
    if q <= 2 {
      MulMono(d, q, 1);
    } else {
      MulMono(d, 3, q);
    }
  }

  lemma EvenTimes(d: nat, q: nat)
    requires d % 2 == 0
    ensures (d * q) % 2 == 0
  {
    assert d * q == 2 * ((d / 2) * q);
    DivisorTimes(2, (d / 2) * q);
  }

  lemma PrimeAboveTwoIsOdd(p: nat)
    requires IsPrime(p) && 2 < p
    ensures p % 2 == 1
  {
    assert !Divides(2, p);
  }

  ghost predicate NoPrimeIn(lo: nat, hi: nat) {
    forall n :: lo <= n < hi ==> !IsPrime(n)
  }

  /** The C test for a divisor. */
  predicate Hit(n: nat, p: nat)
    requires 0 < p
  {
    (n / p) * p == n
  }

  lemma SkipComposite(lo: nat, n: nat, p: nat)
    requires 3 <= p < n / 2 && n % 2 == 1 && Hit(n, p) && NoPrimeIn(lo, n)
    ensures !IsPrime(n) && NoPrimeIn(lo, n + 2)
  {
    DivisorTimes(p, n / p);
    if IsPrime(n + 1) { PrimeAboveTwoIsOdd(n + 1); }
  }

  lemma NextDivisor(n: nat, p: nat)
    requires 3 <= p && p % 2 == 1 && !Hit(n, p) && NoOddDivisorBelow(n, p)
    ensures NoOddDivisorBelow(n, p + 2)
  {
  }

  /** The loop of `resize` that picks the new bucket count. */
  method NextSize(oldsize: nat) returns (newsize: nat)
    requires 1 <= oldsize
    ensures 2 * oldsize + 1 <= newsize && IsPrime(newsize)
    ensures NoPrimeIn(2 * oldsize + 1, newsize)
  {
    newsize := 2 * oldsize + 1;
    ghost var bound := PrimesAreUnbounded(newsize);
    PrimeAboveTwoIsOdd(bound);
    var p := 3;
    while p < newsize / 2
      invariant 2 * oldsize + 1 <= newsize <= bound && newsize % 2 == 1
      invariant 3 <= p && p % 2 == 1 && (p <= newsize / 2 + 2)
      invariant NoOddDivisorBelow(newsize, p)
      invariant NoPrimeIn(2 * oldsize + 1, newsize)
      decreases bound - newsize, newsize - p
    {
      if Hit(newsize, p) {
        SkipComposite(2 * oldsize + 1, newsize, p);
        newsize := newsize + 2;
        p := 3;
        continue;
      }
      NextDivisor(newsize, p);
      p := p + 2;
    }
    TrialDivisionSuffices(newsize);
  }
}

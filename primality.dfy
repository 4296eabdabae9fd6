/**
  The primality filter that every worker of the pipeline applies to a candidate:
  drop even numbers, then trial-divide by the odd numbers from 3 up to the
  integer square root. The filter is the one the script writes, not the textbook
  one: 2 is dropped (it is even) and 1 is kept (there is no trial divisor).
 */
module Primality {

  /** `d` divides `n` evenly. */
  predicate Divides(d: int, n: int) {
    d != 0 && n % d == 0
  }

  /** Integer square root, the value of `int(math.sqrt(n))` for the candidates
      the producer enqueues (see README for the floating-point caveat). */
  function Isqrt(n: nat): nat {
    if n == 0 then 0
    else
      var s := Isqrt(n - 1);
      if (s + 1) * (s + 1) <= n then s + 1 else s
  }

  /** `Isqrt(n)` is the largest number whose square is at most `n`. */
  lemma {:induction false} IsqrtBounds(n: nat)
    ensures Isqrt(n) * Isqrt(n) <= n < (Isqrt(n) + 1) * (Isqrt(n) + 1)
  {
    if n > 0 {
      IsqrtBounds(n - 1);
      var s := Isqrt(n - 1);
      if (s + 1) * (s + 1) > n {
        assert (s + 1) * (s + 1) == n + 1 || (s + 1) * (s + 1) > n + 1;
      } else {
        MulMonotone(s + 1, s + 2, s + 1);
        MulMonotone(s + 1, s + 2, s + 2);
      }
    }
  }

  /** The reference notion: `n` is prime. */
  predicate IsPrime(n: nat) {
    n >= 2 && forall d :: 2 <= d < n ==> !Divides(d, n)
  }

  /** What the worker accepts: an odd `n` none of whose odd trial divisors
      `3 <= i <= isqrt(n)` divides it. */
  predicate PassesFilter(n: nat) {
    n % 2 == 1 && NoOddDivisorBelow(n, Isqrt(n) + 1)
  }

  /** No odd `i` with `3 <= i < bound` divides `n`. */
  predicate NoOddDivisorBelow(n: nat, bound: int) {
    forall i :: 3 <= i < bound && i % 2 == 1 ==> !Divides(i, n)
  }

  /** The filter part of the worker loop: the `continue` on even candidates and
      the `for ... break ... else` trial division over `range(3, isqrt(n) + 1, 2)`.
      `emit` is true exactly when the `else` branch (the put) is reached. */
  method CheckCandidate(n: nat) returns (emit: bool)
    ensures emit <==> PassesFilter(n)
  {
    if n % 2 == 0 {
      return false;
    }
    var stop := Isqrt(n) + 1;
    var i: int := 3;
    while i < stop
      invariant 3 <= i && i % 2 == 1
      invariant NoOddDivisorBelow(n, i)
      decreases stop - i
    {
      if n % i == 0 {
        assert Divides(i, n);
        return false;
      }
      NoOddDivisorStep(n, i);
      i := i + 2;
    }
    assert NoOddDivisorBelow(n, stop);
    return true;
  }

  /** Passing one more odd trial divisor extends the stretch without divisors. */
  lemma NoOddDivisorStep(n: nat, i: int)
    requires i % 2 == 1 && NoOddDivisorBelow(n, i) && !Divides(i, n)
    ensures NoOddDivisorBelow(n, i + 2)
  {
    forall j | 3 <= j < i + 2 && j % 2 == 1
      ensures !Divides(j, n)
    {
      if j != i {
        assert j < i;
      }
    }
  }

  lemma MulMonotone(a: nat, b: nat, c: nat)
    requires a <= b
    ensures a * c <= b * c
  {}

  /** A square at most `n` has its root at most `isqrt(n)`. */
  lemma SquareBelow(m: nat, n: nat)
    requires m * m <= n
    ensures m <= Isqrt(n)
  {
    var r := Isqrt(n);
    IsqrtBounds(n);
    if m >= r + 1 {
      MulMonotone(r + 1, m, r + 1);
      MulMonotone(r + 1, m, m);
      assert false;
    }
  }

  /** An exact division leaves a product. */
  lemma ExactQuotient(n: nat, d: nat) returns (e: nat)
    requires Divides(d, n)
    ensures n == d * e
  {
    e := n / d;
  }

  /** Either factor of a product divides it. */
  lemma FactorDivides(n: nat, m: nat, k: nat)
    requires n == m * k && m > 0
    ensures Divides(m, n)
  {
    var q, r := n / m, n % m;
    assert m * (k - q) == r;
    if k - q >= 1 {
      MulMonotone(1, k - q, m);
    } else if k - q <= -1 {
      MulMonotone(1, q - k, m);
      assert m * (q - k) == -r;
    }
  }

  lemma EvenProduct(m: nat, k: nat)
    requires m % 2 == 0
    ensures (m * k) % 2 == 0
  {
    var j := m / 2;
    assert m * k == 2 * (j * k);
  }

  /** The factors of an odd number are odd. */
  lemma OddFactor(n: nat, m: nat, k: nat)
    requires n == m * k && n % 2 == 1
    ensures m % 2 == 1
  {
    if m % 2 == 0 {
      EvenProduct(m, k);
    }
  }

  /** A composite odd `n` has an odd divisor between 3 and `isqrt(n)`. */
  lemma SmallOddDivisor(n: nat, d: nat) returns (m: nat)
    requires n % 2 == 1 && 2 <= d < n && Divides(d, n)
    ensures 3 <= m <= Isqrt(n) && m % 2 == 1 && Divides(m, n)
  {
    var e := ExactQuotient(n, d);
    if e <= 1 {
      assert false;
    }
    var k;
    if d <= e {
      m, k := d, e;
      MulMonotone(d, e, d);
    } else {
      m, k := e, d;
      MulMonotone(e, d, e);
    }
    assert n == m * k && m * m <= n;
    SquareBelow(m, n);
    FactorDivides(n, m, k);
    OddFactor(n, m, k);
  }

  /** A trial divisor in the filter's range is less than `n` itself. */
  lemma TrialDivisorBelow(n: nat, i: nat)
    requires 3 <= i <= Isqrt(n)
    ensures i < n
  {
    var r := Isqrt(n);
    IsqrtBounds(n);
    MulMonotone(i, r, i);
    MulMonotone(i, r, r);
    MulMonotone(3, i, i);
  }

  /** The filter accepts exactly 1 and the odd primes: every even candidate,
      2 included, is dropped, and for odd `n >= 3` the filter is primality. */
  lemma FilterCharacterisation(n: nat)
    ensures PassesFilter(n) <==> n == 1 || (n % 2 == 1 && IsPrime(n))
  {
    if n % 2 == 1 && n >= 3 {
      if PassesFilter(n) {
        forall d | 2 <= d < n
          ensures !Divides(d, n)
        {
          if Divides(d, n) {
            var m := SmallOddDivisor(n, d);
            assert false;
          }
        }
      } else {
        var i :| 3 <= i <= Isqrt(n) && i % 2 == 1 && Divides(i, n);
        TrialDivisorBelow(n, i);
        assert !IsPrime(n);
      }
    } else if n == 1 {
      SquareBelow(Isqrt(1), 1);
      assert Isqrt(1) <= 1;
    }
  }

  /** Where the script departs from primality: it drops the prime 2 and keeps
      the non-prime 1. */
  lemma FilterDiffersAtOneAndTwo()
    ensures PassesFilter(1) && !IsPrime(1)
    ensures IsPrime(2) && !PassesFilter(2)
  {
    FilterCharacterisation(1);
  }
}

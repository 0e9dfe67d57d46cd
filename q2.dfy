/**
 * Chapter 1, question 2: the smaller of two integers, and the greatest common
 * divisor found by trying every candidate from 1 up to the smaller one. C++
 * `int` is modelled as an unbounded integer; whether a remainder is zero does
 * not depend on the sign convention of `%`.
 */
module Q2 {

  /** `smallest`. */
  function Smallest(a: int, b: int): (r: int)
    ensures r <= a && r <= b
    ensures r == a || r == b
  {
    if a < b then a else b
  }

  /** Both `a` and `b` leave no remainder modulo `d`. */
  predicate CommonDivisor(a: int, b: int, d: int)
    requires d != 0
  {
    a % d == 0 && b % d == 0
  }

  /** The largest common divisor of `a` and `b` in 1..n, or 1 when n < 1. */
  function CommonDivisorUpTo(a: int, b: int, n: int): (d: int)
    ensures d >= 1
    ensures n < 1 ==> d == 1
    ensures n >= 1 ==> d <= n && CommonDivisor(a, b, d)
    ensures forall e :: d < e <= n ==> !CommonDivisor(a, b, e)
    decreases n
  {
    if n < 1 then 1
    else if CommonDivisor(a, b, n) then n
    else CommonDivisorUpTo(a, b, n - 1)
  }

  /**
   * `largestdenominator`: starting from 1, remember every `i` up to the
   * smaller argument that divides both.
   */
  method LargestDenominator(a: int, b: int) returns (denominator: int)
    ensures denominator == CommonDivisorUpTo(a, b, Smallest(a, b))
    ensures denominator >= 1
    ensures Smallest(a, b) < 1 ==> denominator == 1
  {
    denominator := 1;
    var i := 1;
    while i <= Smallest(a, b)
      invariant 1 <= i <= if Smallest(a, b) < 1 then 1 else Smallest(a, b) + 1
      invariant denominator == CommonDivisorUpTo(a, b, i - 1)
      decreases Smallest(a, b) - i
    {
      if a % i == 0 && b % i == 0 {
        denominator := i;
      }
      i := i + 1;
    }
  }

  /** A positive multiple of a positive `d` is at least `d`. */
  lemma DivisorAtMost(m: int, d: int)
    requires m > 0 && d > 0 && m % d == 0
    ensures d <= m
  {
    var k := m / d;
    assert m == k * d;
    if k >= 1 {
      assert k * d == (k - 1) * d + d;
      assert (k - 1) * d >= 0;
    }
  }

  /**
   * For positive arguments the result is their greatest common divisor: it
   * divides both, and so does no larger integer.
   */
  lemma LargestDenominatorIsGcd(a: int, b: int)
    requires a > 0 && b > 0
    ensures CommonDivisor(a, b, CommonDivisorUpTo(a, b, Smallest(a, b)))
    ensures forall e :: e > CommonDivisorUpTo(a, b, Smallest(a, b)) ==> !CommonDivisor(a, b, e)
  {
    var m := Smallest(a, b);
    forall e | e > CommonDivisorUpTo(a, b, m)
      ensures !CommonDivisor(a, b, e)
    {
      if e <= m {
      } else if CommonDivisor(a, b, e) {
        DivisorAtMost(m, e);
      }
    }
  }

  /** The search is symmetric in `a` and `b`. */
  lemma {:induction false} CommonDivisorUpToSymmetric(a: int, b: int, n: int)
    ensures CommonDivisorUpTo(a, b, n) == CommonDivisorUpTo(b, a, n)
    decreases n
  {
    if n >= 1 {
      CommonDivisorUpToSymmetric(a, b, n - 1);
    }
  }

  /** `largestdenominator(a, b) == largestdenominator(b, a)`. */
  lemma LargestDenominatorSymmetric(a: int, b: int)
    ensures CommonDivisorUpTo(a, b, Smallest(a, b)) == CommonDivisorUpTo(b, a, Smallest(b, a))
  {
    assert Smallest(a, b) == Smallest(b, a);
    CommonDivisorUpToSymmetric(a, b, Smallest(a, b));
  }
}

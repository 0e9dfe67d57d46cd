/**
 * Chapter 1, question 3: the largest value of a vector, divisibility by every
 * value, and the least common multiple found by counting up from the largest
 * value. C++ `int` is modelled as an unbounded integer.
 */
module Q3 {

  /** `m` is a multiple of every value. */
  predicate DividesAll(values: seq<int>, m: int)
    requires forall i :: 0 <= i < |values| ==> values[i] != 0
  {
    forall i :: 0 <= i < |values| ==> m % values[i] == 0
  }

  /** The largest value: an element that no element exceeds. */
  function Largest(values: seq<int>): (r: int)
    requires |values| > 0
    ensures r in values
    ensures forall i :: 0 <= i < |values| ==> values[i] <= r
  {
    if |values| == 1 then values[0]
    else
      var rest := Largest(values[1..]);
      assert forall i :: 1 <= i < |values| ==> values[i] == values[1..][i - 1];
      if values[0] >= rest then values[0] else rest
  }

  /** `getmax`: the first element, then every larger one found scanning from index 1. */
  method GetMax(values: seq<int>) returns (max: int)
    requires |values| > 0
    ensures max in values
    ensures forall i :: 0 <= i < |values| ==> values[i] <= max
    ensures max == Largest(values)
  {
    max := values[0];
    for i := 1 to |values|
      invariant max in values[..i]
      invariant forall j :: 0 <= j < i ==> values[j] <= max
    {
      if values[i] > max {
        max := values[i];
      }
    }
    assert values[..|values|] == values;
  }

  /**
   * `isdivbyall`: false at the first value that leaves a remainder. Whether the
   * remainder is zero does not depend on the sign convention of `%`.
   */
  method IsDivByAll(values: seq<int>, multiple: int) returns (r: bool)
    requires forall i :: 0 <= i < |values| ==> values[i] != 0
    ensures r <==> DividesAll(values, multiple)
    ensures |values| == 0 ==> r
  {
    for i := 0 to |values|
      invariant forall j :: 0 <= j < i ==> multiple % values[j] == 0
    {
      if multiple % values[i] != 0 {
        return false;
      }
    }
    return true;
  }

  function Abs(x: int): (r: nat)
    ensures r == x || r == -x
  {
    if x < 0 then -x else x
  }

  /** The product of the values' magnitudes: a common multiple that bounds the search. */
  function AbsProduct(values: seq<int>): int
  {
    if |values| == 0 then 1 else Abs(values[0]) * AbsProduct(values[1..])
  }

  lemma {:induction false} AbsProductPositive(values: seq<int>)
    requires forall i :: 0 <= i < |values| ==> values[i] != 0
    ensures AbsProduct(values) > 0
    decreases |values|
  {
    if |values| > 0 {
      AbsProductPositive(values[1..]);
    }
  }

  /** A positive factor keeps the sign of a non-zero integer and does not shrink it. */
  lemma MulSign(e: int, v: int)
    requires v > 0
    ensures e >= 1 ==> e * v >= v
    ensures e <= -1 ==> e * v <= -v
  {
    if e >= 1 {
      assert (e - 1) * v >= 0;
      assert e * v == (e - 1) * v + v;
    }
    if e <= -1 {
      assert (-1 - e) * v >= 0;
      assert e * v == -v - (-1 - e) * v;
    }
  }

  /** `x * v` leaves no remainder modulo `v`. */
  lemma ModOfMultiple(x: int, v: int)
    requires v > 0
    ensures (x * v) % v == 0
  {
    var d := (x * v) / v;
    var r := (x * v) % v;
    assert (x - d) * v == r;
    MulSign(x - d, v);
  }

  /** The remainder modulo `-v` is the remainder modulo `v`. */
  lemma ModNegDivisor(m: int, v: int)
    requires v > 0
    ensures m % (-v) == m % v
  {
    var q, r := m / v, m % v;
    var q', r' := m / (-v), m % (-v);
    assert m == q * v + r;
    assert m == q' * (-v) + r';
    assert (q + q') * v == r' - r;
    MulSign(q + q', v);
  }

  /** A multiple of a multiple of `v` is a multiple of `v`. */
  lemma MultipleOfMultiple(a: int, b: int, v: int)
    requires v > 0 && b % v == 0
    ensures (a * b) % v == 0
  {
    var q := b / v;
    assert b == q * v;
    assert a * b == (a * q) * v;
    ModOfMultiple(a * q, v);
  }

  /** The product of the magnitudes is a multiple of each magnitude. */
  lemma {:induction false} AbsProductIsCommonMultiple(values: seq<int>, i: nat)
    requires forall j :: 0 <= j < |values| ==> values[j] != 0
    requires i < |values|
    ensures AbsProduct(values) % Abs(values[i]) == 0
    decreases |values|
  {
    var rest := AbsProduct(values[1..]);
    var v := Abs(values[0]);
    if i == 0 {
      assert v % v == 0;
      MultipleOfMultiple(rest, v, v);
      assert AbsProduct(values) == rest * v;
    } else {
      AbsProductIsCommonMultiple(values[1..], i - 1);
      MultipleOfMultiple(v, rest, Abs(values[i]));
    }
  }

  /** Whether `m` is a multiple of `v` does not depend on the sign of `v`. */
  lemma MultipleOfAbs(m: int, v: int)
    requires v != 0
    ensures m % v == 0 <==> m % Abs(v) == 0
  {
    if v < 0 {
      ModNegDivisor(m, -v);
    }
  }

  /** The product of the magnitudes is a common multiple of the values. */
  lemma AbsProductIsCommon(values: seq<int>)
    requires forall i :: 0 <= i < |values| ==> values[i] != 0
    ensures DividesAll(values, AbsProduct(values))
  {
    forall i | 0 <= i < |values|
      ensures AbsProduct(values) % values[i] == 0
    {
      AbsProductIsCommonMultiple(values, i);
      MultipleOfAbs(AbsProduct(values), values[i]);
    }
  }

  /** A positive multiple of a positive value is at least that value. */
  lemma MultipleAtLeast(m: int, v: int)
    requires m > 0 && v > 0 && m % v == 0
    ensures m >= v
  {
    var k := m / v;
    assert m == k * v;
    assert k >= 1;
  }

  /**
   * Where the search stops at the latest: the product of the magnitudes when
   * the largest value is positive, and 0 when every value is negative.
   */
  function SearchBound(values: seq<int>): int
    requires |values| > 0
  {
    if Largest(values) > 0 then AbsProduct(values) else 0
  }

  /** The bound is a common multiple no smaller than the largest value. */
  lemma SearchBoundIsCommon(values: seq<int>)
    requires |values| > 0
    requires forall i :: 0 <= i < |values| ==> values[i] != 0
    ensures DividesAll(values, SearchBound(values)) && Largest(values) <= SearchBound(values)
  {
    var max := Largest(values);
    if max > 0 {
      AbsProductPositive(values);
      AbsProductIsCommon(values);
      var k :| 0 <= k < |values| && values[k] == max;
      MultipleAtLeast(AbsProduct(values), values[k]);
    } else {
      forall i | 0 <= i < |values|
        ensures 0 % values[i] == 0
      {
        MultipleOfAbs(0, values[i]);
        ModOfMultiple(0, Abs(values[i]));
      }
    }
  }

  /**
   * `lowestcommonmulitple`: count up from the largest value until a multiple
   * of every value turns up. That happens by `SearchBound` at the latest. For
   * positive values the result is the least common multiple; with negative
   * values it is the first common multiple from the largest value up.
   */
  method LowestCommonMultiple(values: seq<int>) returns (multiple: int)
    requires |values| > 0
    requires forall i :: 0 <= i < |values| ==> values[i] != 0
    ensures DividesAll(values, multiple)
    ensures Largest(values) <= multiple
    ensures forall m :: Largest(values) <= m < multiple ==> !DividesAll(values, m)
    ensures forall m :: 0 < m < multiple ==> !DividesAll(values, m)
  {
    multiple := GetMax(values);
    SearchBoundIsCommon(values);
    while true
      invariant Largest(values) <= multiple <= SearchBound(values)
      invariant forall m :: Largest(values) <= m < multiple ==> !DividesAll(values, m)
      decreases SearchBound(values) - multiple
    {
      var divisible := IsDivByAll(values, multiple);
      if divisible {
        if Largest(values) > 0 {
          BelowMaxNotCommon(values);
        }
        return multiple;
      }
      multiple := multiple + 1;
    }
  }

  /** No positive integer below a positive value is a multiple of that value. */
  lemma BelowMaxNotCommon(values: seq<int>)
    requires |values| > 0 && Largest(values) > 0
    requires forall i :: 0 <= i < |values| ==> values[i] != 0
    ensures forall m :: 0 < m < Largest(values) ==> !DividesAll(values, m)
  {
    var max := Largest(values);
    var k :| 0 <= k < |values| && values[k] == max;
    forall m | 0 < m < max
      ensures m % values[k] != 0
    {
      assert m % values[k] == m;
    }
  }

  /** When every value is negative the search stops at 0 or below, as `{-2, -3}` gives 0. */
  lemma NegativeValuesStopByZero(values: seq<int>, multiple: int)
    requires |values| > 0
    requires forall i :: 0 <= i < |values| ==> values[i] < 0
    requires forall m :: Largest(values) <= m < multiple ==> !DividesAll(values, m)
    ensures multiple <= 0
  {
    SearchBoundIsCommon(values);
  }
}

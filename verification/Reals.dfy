/** Functions on reals that several models share, and the facts about products the solver needs told. */
module Reals {
  function Abs(x: real): real { if x < 0.0 then -x else x }

  function Min(a: real, b: real): real { if a <= b then a else b }

  function Max(a: real, b: real): real { if a >= b then a else b }

  /** Python's round to an integer. */
  function RoundHalfEven(x: real): int {
    var f := x.Floor;
    var d := x - f as real;
    if d < 0.5 || (d == 0.5 && f % 2 == 0) then f else f + 1
  }

  /** Python's round to one decimal. */
  function Round1(x: real): real { RoundHalfEven(x * 10.0) as real / 10.0 }

  lemma RoundStaysBetween(x: real, lo: int, hi: int)
    requires lo as real <= x <= hi as real
    ensures lo <= RoundHalfEven(x) <= hi
  {
  }

  /** The nearest integer, and of two nearest the even one. */
  lemma RoundIsNear(x: real)
    ensures x - 0.5 <= RoundHalfEven(x) as real <= x + 0.5
    ensures RoundHalfEven(x) as real - x == 0.5 || x - RoundHalfEven(x) as real == 0.5 ==> RoundHalfEven(x) % 2 == 0
  {
  }

  // ----- products

  lemma PositiveProduct(x: real, y: real)
    requires x > 0.0 && y > 0.0
    ensures x * y > 0.0
  {
  }

  lemma LargerProduct(x: real, y: real, m: real)
    requires m > 0.0 && x > y
    ensures x * m > y * m
  {
    assert (x - y) * m > 0.0;
  }

  lemma AtLeastProduct(x: real, y: real, m: real)
    requires m >= 0.0 && x >= y
    ensures x * m >= y * m
  {
    assert (x - y) * m >= 0.0;
  }

  lemma SmallerFactor(x: real, y: real, m: real)
    requires m > 0.0 && x * m <= y * m
    ensures x <= y
  {
    if x > y {
      LargerProduct(x, y, m);
    }
  }

  // ----- sums

  function Sum(xs: seq<real>): real { if xs == [] then 0.0 else xs[0] + Sum(xs[1..]) }

  lemma {:induction false} SumAppend(a: seq<real>, b: seq<real>)
    ensures Sum(a + b) == Sum(a) + Sum(b)
    decreases |a|
  {
    if a == [] {
      assert a + b == b;
    } else {
      assert (a + b)[1..] == a[1..] + b;
      SumAppend(a[1..], b);
    }
  }

  lemma SumSnoc(a: seq<real>, x: real)
    ensures Sum(a + [x]) == Sum(a) + x
  {
    SumAppend(a, [x]);
    assert [x][1..] == [];
  }
}

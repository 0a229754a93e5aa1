/** Python's `round(x, k)` over reals: to the nearest multiple of 10^-k, ties to the even one. */
module Rounding {

  function RoundHalfEven(x: real): (n: int)
    ensures x - 0.5 <= n as real <= x + 0.5
  {
    var f := x.Floor;
    var d := x - f as real;
    if d < 0.5 then f
    else if d > 0.5 then f + 1
    else if f % 2 == 0 then f else f + 1
  }

  function Round1(x: real): (r: real)
    ensures x - 0.05 <= r <= x + 0.05
  {
    RoundHalfEven(x * 10.0) as real / 10.0
  }

  function Round2(x: real): (r: real)
    ensures x - 0.005 <= r <= x + 0.005
  {
    RoundHalfEven(x * 100.0) as real / 100.0
  }

  function Round3(x: real): (r: real)
    ensures x - 0.0005 <= r <= x + 0.0005
  {
    RoundHalfEven(x * 1000.0) as real / 1000.0
  }

  /** Rounding never reverses an order, so rounded comparisons cannot contradict exact ones. */
  lemma RoundMonotone(x: real, y: real)
    requires x <= y
    ensures RoundHalfEven(x) <= RoundHalfEven(y)
  {
  }

  /** The nearest integer, and the even one of two that are equally near. */
  lemma NearestOrEven(x: real)
    ensures var n := RoundHalfEven(x) as real;
            -0.5 <= x - n <= 0.5 && (x - n == 0.5 || n - x == 0.5 ==> RoundHalfEven(x) % 2 == 0)
  {
  }

  lemma WholeFloor(y: real, n: int)
    requires y == n as real
    ensures y.Floor as real == y
  {
  }

  /** The results lie on their grids. */
  lemma OnGrid(x: real)
    ensures (Round1(x) * 10.0).Floor as real == Round1(x) * 10.0
    ensures (Round2(x) * 100.0).Floor as real == Round2(x) * 100.0
    ensures (Round3(x) * 1000.0).Floor as real == Round3(x) * 1000.0
  {
    WholeFloor(Round1(x) * 10.0, RoundHalfEven(x * 10.0));
    WholeFloor(Round2(x) * 100.0, RoundHalfEven(x * 100.0));
    WholeFloor(Round3(x) * 1000.0, RoundHalfEven(x * 1000.0));
  }
}

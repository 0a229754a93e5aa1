/** Offline prediction error metrics, before their two-digit rounding: what binds them to each other and to the data. */
module ErrorMetrics {

  datatype Pair = Pair(predicted: real, actual: real)

  function Abs(x: real): (r: real)
    ensures r >= 0.0 && (r == x || r == -x)
  {
    if x < 0.0 then -x else x
  }

  function AbsError(p: Pair): real { Abs(p.predicted - p.actual) }

  /** Absolute percentage error; the divisor is kept at 0.001 or more. */
  function Ape(p: Pair): real {
    AbsError(p) / (if p.actual > 0.001 then p.actual else 0.001) * 100.0
  }

  /** A percentage of the actual value, or of 0.001 where that is larger. */
  lemma ApeMeans(p: Pair)
    ensures Ape(p) * (if p.actual > 0.001 then p.actual else 0.001) == 100.0 * Abs(p.predicted - p.actual)
  {
  }

  function AbsErrors(pairs: seq<Pair>): (r: seq<real>)
    ensures |r| == |pairs| && forall i :: 0 <= i < |r| ==> r[i] == AbsError(pairs[i])
  {
    seq(|pairs|, i requires 0 <= i < |pairs| => AbsError(pairs[i]))
  }

  function Apes(pairs: seq<Pair>): (r: seq<real>)
    ensures |r| == |pairs| && forall i :: 0 <= i < |r| ==> r[i] == Ape(pairs[i])
  {
    seq(|pairs|, i requires 0 <= i < |pairs| => Ape(pairs[i]))
  }

  function Sum(xs: seq<real>): real {
    if xs == [] then 0.0 else Sum(xs[..|xs| - 1]) + xs[|xs| - 1]
  }

  function Square(x: real): real { x * x }

  function SumSquares(xs: seq<real>): real {
    if xs == [] then 0.0 else SumSquares(xs[..|xs| - 1]) + Square(xs[|xs| - 1])
  }

  // ---- sorting -----------------------------------------------------------

  predicate Ascending(xs: seq<real>) { forall i, j :: 0 <= i < j < |xs| ==> xs[i] <= xs[j] }

  function Insert(x: real, xs: seq<real>): (r: seq<real>)
    ensures multiset(r) == multiset(xs) + multiset{x} && |r| == |xs| + 1
  {
    if xs == [] || x <= xs[0] then [x] + xs
    else
      assert xs == [xs[0]] + xs[1..];
      [xs[0]] + Insert(x, xs[1..])
  }

  lemma InsertMembers(x: real, xs: seq<real>, j: nat)
    requires j < |Insert(x, xs)|
    ensures Insert(x, xs)[j] == x || Insert(x, xs)[j] in xs
  {
    assert Insert(x, xs)[j] in multiset(Insert(x, xs));
  }

  lemma {:induction false} InsertAscending(x: real, xs: seq<real>)
    requires Ascending(xs)
    ensures Ascending(Insert(x, xs))
  {
    if xs != [] && x > xs[0] {
      var tail := Insert(x, xs[1..]);
      InsertAscending(x, xs[1..]);
      forall j | 0 <= j < |tail| ensures xs[0] <= tail[j] {
        InsertMembers(x, xs[1..], j);
      }
    }
  }

  function Sorted(xs: seq<real>): (r: seq<real>)
    ensures multiset(r) == multiset(xs) && |r| == |xs|
  {
    if xs == [] then []
    else
      assert xs == [xs[0]] + xs[1..];
      Insert(xs[0], Sorted(xs[1..]))
  }

  lemma {:induction false} SortedAscending(xs: seq<real>)
    ensures Ascending(Sorted(xs))
  {
    if xs != [] {
      SortedAscending(xs[1..]);
      InsertAscending(xs[0], Sorted(xs[1..]));
    }
  }

  function Without<T>(xs: seq<T>, k: nat): (r: seq<T>)
    requires k < |xs|
    ensures |r| == |xs| - 1
  {
    xs[..k] + xs[k + 1..]
  }

  lemma RemoveOne<T>(xs: seq<T>, k: nat)
    requires k < |xs|
    ensures multiset(xs) == multiset(Without(xs, k)) + multiset{xs[k]}
  {
    assert xs == xs[..k] + [xs[k]] + xs[k + 1..];
  }

  lemma Cancel<T>(a: multiset<T>, b: multiset<T>, x: T)
    requires a + multiset{x} == b + multiset{x}
    ensures a == b
  {
    assert a == (a + multiset{x}) - multiset{x};
    assert b == (b + multiset{x}) - multiset{x};
  }

  /** Lists with the same members stay so when the same member is taken from each. */
  lemma RemoveSame<T>(xs: seq<T>, i: nat, ys: seq<T>, j: nat)
    requires i < |xs| && j < |ys| && xs[i] == ys[j] && multiset(xs) == multiset(ys)
    ensures multiset(Without(xs, i)) == multiset(Without(ys, j))
  {
    RemoveOne(xs, i);
    RemoveOne(ys, j);
    Cancel(multiset(Without(xs, i)), multiset(Without(ys, j)), xs[i]);
  }

  lemma FindMember<T>(xs: seq<T>, ys: seq<T>, i: nat) returns (j: nat)
    requires i < |xs| && multiset(xs) == multiset(ys)
    ensures j < |ys| && ys[j] == xs[i]
  {
    assert xs[i] in multiset(ys);
    j :| 0 <= j < |ys| && ys[j] == xs[i];
  }

  lemma SameLength<T>(xs: seq<T>, ys: seq<T>)
    requires multiset(xs) == multiset(ys)
    ensures |xs| == |ys|
  {
    assert |multiset(xs)| == |xs| && |multiset(ys)| == |ys|;
  }

  lemma LeastFirst(xs: seq<real>, ys: seq<real>)
    requires Ascending(ys) && xs != [] && multiset(xs) == multiset(ys)
    ensures ys != [] && ys[0] <= xs[0]
  {
    var j := FindMember(xs, ys, 0);
  }

  lemma RemoveFirst(xs: seq<real>, ys: seq<real>)
    requires Ascending(xs) && Ascending(ys) && xs != [] && multiset(xs) == multiset(ys)
    ensures ys != [] && xs[0] == ys[0] && multiset(xs[1..]) == multiset(ys[1..])
  {
    LeastFirst(xs, ys);
    LeastFirst(ys, xs);
    RemoveSame(xs, 0, ys, 0);
    assert Without(xs, 0) == xs[1..] && Without(ys, 0) == ys[1..];
  }

  lemma {:induction false} AscendingUnique(xs: seq<real>, ys: seq<real>)
    requires Ascending(xs) && Ascending(ys) && multiset(xs) == multiset(ys)
    ensures xs == ys
  {
    SameLength(xs, ys);
    if xs != [] {
      RemoveFirst(xs, ys);
      AscendingUnique(xs[1..], ys[1..]);
      assert xs == [xs[0]] + xs[1..] && ys == [ys[0]] + ys[1..];
    }
  }

  // ---- the loop ----------------------------------------------------------

  lemma SumStep(xs: seq<real>, i: nat)
    requires i < |xs|
    ensures Sum(xs[..i + 1]) == Sum(xs[..i]) + xs[i]
    ensures SumSquares(xs[..i + 1]) == SumSquares(xs[..i]) + xs[i] * xs[i]
    ensures xs[..i + 1] == xs[..i] + [xs[i]]
  {
    assert xs[..i + 1][..i] == xs[..i];
  }

  /** What the loop has summed up after the first i pairs. */
  predicate Summed(pairs: seq<Pair>, i: nat, abs: real, percent: real, square: real, apes: seq<real>)
    requires i <= |pairs|
  {
    && abs == Sum(AbsErrors(pairs)[..i]) && percent == Sum(Apes(pairs)[..i])
    && square == SumSquares(AbsErrors(pairs)[..i]) && apes == Apes(pairs)[..i]
  }

  lemma SummedStep(pairs: seq<Pair>, i: nat, abs: real, percent: real, square: real, apes: seq<real>)
    requires i < |pairs| && Summed(pairs, i, abs, percent, square, apes)
    ensures var e, a := AbsError(pairs[i]), Ape(pairs[i]);
            Summed(pairs, i + 1, abs + e, percent + a, square + e * e, apes + [a])
  {
    SumStep(AbsErrors(pairs), i);
    SumStep(Apes(pairs), i);
  }

  datatype Totals = Totals(mae: real, mape: real, meanSquare: real, p90: real, count: nat)

  function Floor90(n: nat): nat { n * 9 / 10 }

  /** `computeOfflineMetrics` up to rounding; the reported rmse is the root of `meanSquare`. */
  method ComputeOfflineMetrics(pairs: seq<Pair>) returns (t: Totals)
    ensures pairs == [] ==> t == Totals(0.0, 0.0, 0.0, 0.0, 0)
    ensures pairs != [] ==> t == TotalsOf(pairs)
  {
    if |pairs| == 0 {
      return Totals(0.0, 0.0, 0.0, 0.0, 0);
    }
    var totalAbs, totalPercent, totalSquare, apeList := 0.0, 0.0, 0.0, [];
    for i := 0 to |pairs|
      invariant Summed(pairs, i, totalAbs, totalPercent, totalSquare, apeList)
    {
      var absErr, ape := AbsError(pairs[i]), Ape(pairs[i]);
      SummedStep(pairs, i, totalAbs, totalPercent, totalSquare, apeList);
      totalAbs, totalPercent, totalSquare := totalAbs + absErr, totalPercent + ape, totalSquare + absErr * absErr;
      apeList := apeList + [ape];
    }
    SummedAll(pairs, totalAbs, totalPercent, totalSquare, apeList);
    var sorted := Sorted(apeList);
    var index := if |sorted| - 1 < Floor90(|sorted|) then |sorted| - 1 else Floor90(|sorted|);
    var n := |pairs| as real;
    t := Totals(totalAbs / n, totalPercent / n, totalSquare / n, sorted[index], |pairs|);
  }

  lemma SummedAll(pairs: seq<Pair>, abs: real, percent: real, square: real, apes: seq<real>)
    requires Summed(pairs, |pairs|, abs, percent, square, apes)
    ensures abs == Sum(AbsErrors(pairs)) && percent == Sum(Apes(pairs))
    ensures square == SumSquares(AbsErrors(pairs)) && apes == Apes(pairs)
  {
    assert AbsErrors(pairs)[..|pairs|] == AbsErrors(pairs) && Apes(pairs)[..|pairs|] == Apes(pairs);
  }

  /** The definitions of the five numbers; the index needs no clamp. */
  function TotalsOf(pairs: seq<Pair>): Totals
    requires pairs != []
  {
    var n, e, a := |pairs| as real, AbsErrors(pairs), Apes(pairs);
    Totals(Sum(e) / n, Sum(a) / n, SumSquares(e) / n, Sorted(a)[Floor90(|pairs|)], |pairs|)
  }

  lemma TimesQuotient(s: real, n: real)
    requires n > 0.0
    ensures s / n * n == s
  {
  }

  predicate IsMean(mean: real, total: real, count: real) { mean * count == total }

  lemma QuotientIsMean(total: real, count: real)
    requires count > 0.0
    ensures IsMean(total / count, total, count)
  {
    TimesQuotient(total, count);
  }

  /** The means are the totals shared out over the pairs. */
  lemma MeansShareTotals(pairs: seq<Pair>)
    requires pairs != []
    ensures var t, n := TotalsOf(pairs), |pairs| as real;
            && t.count == |pairs| && IsMean(t.mae, Sum(AbsErrors(pairs)), n)
            && IsMean(t.mape, Sum(Apes(pairs)), n) && IsMean(t.meanSquare, SumSquares(AbsErrors(pairs)), n)
  {
    var n := |pairs| as real;
    QuotientIsMean(Sum(AbsErrors(pairs)), n);
    QuotientIsMean(Sum(Apes(pairs)), n);
    QuotientIsMean(SumSquares(AbsErrors(pairs)), n);
  }

  /** A further pair adds its own error to each total. */
  lemma TotalsOfMore(pairs: seq<Pair>, p: Pair)
    ensures var more, d := pairs + [p], p.predicted - p.actual;
            && Sum(AbsErrors(more)) == Sum(AbsErrors(pairs)) + Abs(d)
            && Sum(Apes(more)) == Sum(Apes(pairs)) + Ape(p)
            && SumSquares(AbsErrors(more)) == SumSquares(AbsErrors(pairs)) + d * d
  {
    ErrorsStep(pairs, p);
    SumOfMore(AbsErrors(pairs), AbsError(p));
    SumOfMore(Apes(pairs), Ape(p));
    SquareOfAbs(p.predicted - p.actual);
  }

  lemma ErrorsStep(pairs: seq<Pair>, p: Pair)
    ensures AbsErrors(pairs + [p]) == AbsErrors(pairs) + [AbsError(p)] && Apes(pairs + [p]) == Apes(pairs) + [Ape(p)]
  {
  }

  lemma SumOfMore(xs: seq<real>, x: real)
    ensures Sum(xs + [x]) == Sum(xs) + x && SumSquares(xs + [x]) == SumSquares(xs) + x * x
  {
    assert (xs + [x])[..|xs|] == xs;
  }

  lemma SquareOfAbs(x: real)
    ensures Abs(x) * Abs(x) == x * x
  {
  }

  lemma OnePair(p: Pair)
    ensures TotalsOf([p]) ==
            Totals(AbsError(p), Ape(p), (p.predicted - p.actual) * (p.predicted - p.actual), Ape(p), 1)
  {
    assert AbsErrors([p]) == [AbsError(p)] && Apes([p]) == [Ape(p)];
    SumStep([AbsError(p)], 0);
    SumStep([Ape(p)], 0);
    SquareOfAbs(p.predicted - p.actual);
  }

  // ---- mean absolute error against root mean square ----------------------

  /** One step of Cauchy-Schwarz: s^2 <= n q survives adding x to s, x^2 to q and 1 to n. */
  lemma CauchyStep(s: real, q: real, n: real, x: real)
    requires n >= 0.0 && s * s <= n * q && q >= 0.0 && (n == 0.0 ==> s == 0.0)
    ensures (s + x) * (s + x) <= (n + 1.0) * (q + x * x)
  {
    assert (n + 1.0) * (q + x * x) - (s + x) * (s + x) == (n * q - s * s) + (q - 2.0 * s * x + n * x * x);
    if n > 0.0 {
      var d := s - n * x;
      assert n * (q - 2.0 * s * x + n * x * x) == (n * q - s * s) + d * d;
      assert d * d >= 0.0;
      PositiveFactor(n, q - 2.0 * s * x + n * x * x);
    }
  }

  lemma PositiveFactor(n: real, y: real)
    requires n > 0.0 && n * y >= 0.0
    ensures y >= 0.0
  {
  }

  lemma {:induction false} CauchySchwarz(xs: seq<real>)
    ensures SumSquares(xs) >= 0.0
    ensures Sum(xs) * Sum(xs) <= |xs| as real * SumSquares(xs)
  {
    if xs != [] {
      var n := |xs| - 1;
      CauchySchwarz(xs[..n]);
      CauchyStep(Sum(xs[..n]), SumSquares(xs[..n]), n as real, xs[n]);
    }
  }

  lemma {:induction false} SquareOfSum(xs: seq<real>)
    requires forall i :: 0 <= i < |xs| ==> xs[i] >= 0.0
    ensures Sum(xs) >= 0.0 && SumSquares(xs) <= Sum(xs) * Sum(xs)
  {
    if xs != [] {
      var n := |xs| - 1;
      SquareOfSum(xs[..n]);
      var s, x := Sum(xs[..n]), xs[n];
      assert s * x >= 0.0;
      assert (s + x) * (s + x) == s * s + 2.0 * (s * x) + x * x;
    }
  }

  predicate SumsBounded(s: real, q: real, n: real) { s * s <= n * q && q <= s * s }

  predicate MeansBounded(m: real, r: real, n: real) { m * m <= r <= n * (m * m) }

  lemma SquareOfProduct(m: real, n: real)
    ensures (m * n) * (m * n) == n * (n * (m * m))
  {
  }

  lemma DivideBySquare(s: real, q: real, n: real, m: real, r: real)
    requires n > 0.0 && s == m * n && q == r * n && SumsBounded(s, q, n)
    ensures MeansBounded(m, r, n)
  {
    SquareOfProduct(m, n);
    assert n * (n * (r - m * m)) == n * q - s * s;
    PositiveFactor(n, n * (r - m * m));
    PositiveFactor(n, r - m * m);
    assert n * (n * (m * m) - r) == s * s - q;
    PositiveFactor(n, n * (m * m) - r);
  }

  lemma Quotient(s: real, n: real) returns (m: real)
    requires n > 0.0
    ensures m == s / n && s == m * n
  {
    m := s / n;
  }

  lemma MeansOfSums(s: real, q: real, n: real)
    requires n > 0.0 && SumsBounded(s, q, n)
    ensures MeansBounded(s / n, q / n, n)
  {
    var m := Quotient(s, n);
    var r := Quotient(q, n);
    DivideBySquare(s, q, n, m, r);
  }

  lemma ListBounded(xs: seq<real>)
    requires forall i :: 0 <= i < |xs| ==> xs[i] >= 0.0
    ensures SumsBounded(Sum(xs), SumSquares(xs), |xs| as real)
  {
    CauchySchwarz(xs);
    SquareOfSum(xs);
  }

  /** mae^2 <= rmse^2 <= n * mae^2 for any non-empty list. */
  lemma MaeAgainstRmse(pairs: seq<Pair>)
    requires pairs != []
    ensures MeansBounded(TotalsOf(pairs).mae, TotalsOf(pairs).meanSquare, |pairs| as real)
  {
    var e := AbsErrors(pairs);
    ListBounded(e);
    MeansOfSums(Sum(e), SumSquares(e), |pairs| as real);
  }

  // ---- the ninetieth percentile ------------------------------------------

  function CountAtMost(xs: seq<real>, y: real): nat {
    if xs == [] then 0 else CountAtMost(xs[1..], y) + if xs[0] <= y then 1 else 0
  }

  lemma {:induction false} CountPrefix(xs: seq<real>, k: nat)
    requires Ascending(xs) && k < |xs|
    ensures CountAtMost(xs, xs[k]) >= k + 1
  {
    if k > 0 {
      CountPrefix(xs[1..], k - 1);
    }
  }

  lemma {:induction false} CountInserted(x: real, xs: seq<real>, y: real)
    ensures CountAtMost(Insert(x, xs), y) == CountAtMost(xs, y) + if x <= y then 1 else 0
  {
    if xs != [] && x > xs[0] {
      CountInserted(x, xs[1..], y);
    }
  }

  lemma {:induction false} CountSorted(xs: seq<real>, y: real)
    ensures CountAtMost(Sorted(xs), y) == CountAtMost(xs, y)
  {
    if xs != [] {
      CountSorted(xs[1..], y);
      CountInserted(xs[0], Sorted(xs[1..]), y);
    }
  }

  /** More than nine tenths of the percentage errors are at most the reported percentile, which is one of them. */
  lemma PercentileCovers(pairs: seq<Pair>)
    requires pairs != []
    ensures var t := TotalsOf(pairs);
            10 * CountAtMost(Apes(pairs), t.p90) > 9 * |pairs| && t.p90 in Apes(pairs)
  {
    var a := Apes(pairs);
    SortedAscending(a);
    CountPrefix(Sorted(a), Floor90(|pairs|));
    CountSorted(a, Sorted(a)[Floor90(|pairs|)]);
    assert Sorted(a)[Floor90(|pairs|)] in multiset(Sorted(a));
    assert Sorted(a)[Floor90(|pairs|)] in multiset(a);
  }

  function CountBelow(xs: seq<real>, y: real): nat {
    if xs == [] then 0 else CountBelow(xs[1..], y) + if xs[0] < y then 1 else 0
  }

  lemma {:induction false} NoneBelow(xs: seq<real>, y: real)
    requires forall i :: 0 <= i < |xs| ==> xs[i] >= y
    ensures CountBelow(xs, y) == 0
  {
    if xs != [] {
      NoneBelow(xs[1..], y);
    }
  }

  lemma {:induction false} BelowPrefix(xs: seq<real>, k: nat)
    requires Ascending(xs) && k < |xs|
    ensures CountBelow(xs, xs[k]) <= k
  {
    if k > 0 {
      BelowPrefix(xs[1..], k - 1);
    } else {
      NoneBelow(xs, xs[0]);
    }
  }

  lemma {:induction false} BelowInserted(x: real, xs: seq<real>, y: real)
    ensures CountBelow(Insert(x, xs), y) == CountBelow(xs, y) + if x < y then 1 else 0
  {
    if xs != [] && x > xs[0] {
      BelowInserted(x, xs[1..], y);
    }
  }

  lemma {:induction false} BelowSorted(xs: seq<real>, y: real)
    ensures CountBelow(Sorted(xs), y) == CountBelow(xs, y)
  {
    if xs != [] {
      BelowSorted(xs[1..], y);
      BelowInserted(xs[0], Sorted(xs[1..]), y);
    }
  }

  /** At most nine tenths of the percentage errors are below the reported percentile. */
  lemma PercentileTight(pairs: seq<Pair>)
    requires pairs != []
    ensures 10 * CountBelow(Apes(pairs), TotalsOf(pairs).p90) <= 9 * |pairs|
  {
    var a := Apes(pairs);
    SortedAscending(a);
    BelowPrefix(Sorted(a), Floor90(|pairs|));
    BelowSorted(a, Sorted(a)[Floor90(|pairs|)]);
  }

  // ---- order does not matter ---------------------------------------------

  lemma WithoutPrefix(xs: seq<real>, k: nat)
    requires k < |xs| - 1
    ensures Without(xs, k)[..|xs| - 2] == Without(xs[..|xs| - 1], k)
    ensures Without(xs, k)[|xs| - 2] == xs[|xs| - 1]
  {
  }

  lemma {:induction false} SumRemove(xs: seq<real>, k: nat)
    requires k < |xs|
    ensures Sum(xs) == Sum(Without(xs, k)) + xs[k]
  {
    if k == |xs| - 1 {
      assert Without(xs, k) == xs[..k];
    } else {
      SumRemove(xs[..|xs| - 1], k);
      WithoutPrefix(xs, k);
    }
  }

  lemma {:induction false} SquaresRemove(xs: seq<real>, k: nat)
    requires k < |xs|
    ensures SumSquares(xs) == SumSquares(Without(xs, k)) + Square(xs[k])
  {
    if k == |xs| - 1 {
      assert Without(xs, k) == xs[..k];
    } else {
      SquaresRemove(xs[..|xs| - 1], k);
      WithoutPrefix(xs, k);
    }
  }

  lemma SumFromRest(xs: seq<real>, i: nat, ys: seq<real>, j: nat)
    requires i < |xs| && j < |ys| && xs[i] == ys[j] && Sum(Without(xs, i)) == Sum(Without(ys, j))
    ensures Sum(xs) == Sum(ys)
  {
    SumRemove(xs, i);
    SumRemove(ys, j);
  }

  lemma SquaresFromRest(xs: seq<real>, i: nat, ys: seq<real>, j: nat)
    requires i < |xs| && j < |ys| && xs[i] == ys[j] && SumSquares(Without(xs, i)) == SumSquares(Without(ys, j))
    ensures SumSquares(xs) == SumSquares(ys)
  {
    SquaresRemove(xs, i);
    SquaresRemove(ys, j);
  }

  lemma {:induction false} SumPermuted(xs: seq<real>, ys: seq<real>)
    requires multiset(xs) == multiset(ys)
    ensures Sum(xs) == Sum(ys) && SumSquares(xs) == SumSquares(ys)
    decreases |xs|
  {
    SameLength(xs, ys);
    if xs != [] {
      var j := FindMember(xs, ys, 0);
      RemoveSame(xs, 0, ys, j);
      SumPermuted(Without(xs, 0), Without(ys, j));
      SumFromRest(xs, 0, ys, j);
      SquaresFromRest(xs, 0, ys, j);
    }
  }

  lemma MapWithout(ps: seq<Pair>, k: nat)
    requires k < |ps|
    ensures AbsErrors(Without(ps, k)) == Without(AbsErrors(ps), k)
    ensures Apes(Without(ps, k)) == Without(Apes(ps), k)
  {
  }

  lemma {:induction false} MappedPermuted(ps: seq<Pair>, qs: seq<Pair>)
    requires multiset(ps) == multiset(qs)
    ensures multiset(AbsErrors(ps)) == multiset(AbsErrors(qs)) && multiset(Apes(ps)) == multiset(Apes(qs))
    decreases |ps|
  {
    SameLength(ps, qs);
    if ps != [] {
      var j := FindMember(ps, qs, 0);
      RemoveSame(ps, 0, qs, j);
      MappedPermuted(Without(ps, 0), Without(qs, j));
      MapWithout(ps, 0);
      MapWithout(qs, j);
      RemoveOne(AbsErrors(ps), 0);
      RemoveOne(AbsErrors(qs), j);
      RemoveOne(Apes(ps), 0);
      RemoveOne(Apes(qs), j);
    } else {
      assert ps == qs;
    }
  }

  /** The metrics are the same for any reordering of the pairs. */
  lemma OrderIrrelevant(ps: seq<Pair>, qs: seq<Pair>)
    requires ps != [] && multiset(ps) == multiset(qs)
    ensures qs != [] && TotalsOf(ps) == TotalsOf(qs)
  {
    SameLength(ps, qs);
    MappedPermuted(ps, qs);
    SumPermuted(AbsErrors(ps), AbsErrors(qs));
    SumPermuted(Apes(ps), Apes(qs));
    SortedAscending(Apes(ps));
    SortedAscending(Apes(qs));
    AscendingUnique(Sorted(Apes(ps)), Sorted(Apes(qs)));
  }
}

/**
 Means, sample deviations and Student intervals over exact reals, as `statistics.fmean`,
 `statistics.stdev` and the `interval` of the confirmatory core compute them.

 Dafny has no square root, so the model takes one as a parameter, of which it knows that it is the
 non-negative number whose square is given.
 */
module Statistics {

  function Sum(xs: seq<real>): real {
    if xs == [] then 0.0 else xs[0] + Sum(xs[1..])
  }

  function Mean(xs: seq<real>): real
    requires xs != []
  {
    Sum(xs) / |xs| as real
  }

  function Deviations(xs: seq<real>, m: real): seq<real> {
    seq(|xs|, i requires 0 <= i < |xs| => (xs[i] - m) * (xs[i] - m))
  }

  /** Sample variance: the squared deviations from the mean over one less than their number. */
  function Variance(xs: seq<real>): real
    requires |xs| > 1
  {
    Sum(Deviations(xs, Mean(xs))) / (|xs| - 1) as real
  }

  ghost predicate IsRoot(root: real -> real) {
    forall x: real | x >= 0.0 :: root(x) >= 0.0 && root(x) * root(x) == x
  }

  // ---------------------------------------------------------------- sums and means

  function Added(xs: seq<real>, ys: seq<real>): seq<real>
    requires |xs| == |ys|
  {
    seq(|xs|, i requires 0 <= i < |xs| => xs[i] + ys[i])
  }

  function Negated(xs: seq<real>): seq<real> {
    seq(|xs|, i requires 0 <= i < |xs| => -xs[i])
  }

  lemma {:induction false} SumAdded(xs: seq<real>, ys: seq<real>)
    requires |xs| == |ys|
    ensures Sum(Added(xs, ys)) == Sum(xs) + Sum(ys)
  {
    if xs != [] {
      SumAdded(xs[1..], ys[1..]);
      assert Added(xs, ys)[1..] == Added(xs[1..], ys[1..]);
    }
  }

  lemma MeanNegated(xs: seq<real>)
    requires xs != []
    ensures Mean(Negated(xs)) == -Mean(xs)
  {
    SumNegated(xs);
    DivideNegated(Sum(xs), |xs|);
  }

  lemma {:induction false} SumNegated(xs: seq<real>)
    ensures Sum(Negated(xs)) == -Sum(xs)
  {
    if xs != [] {
      SumNegated(xs[1..]);
      assert Negated(xs)[1..] == Negated(xs[1..]);
    }
  }

  lemma DivideNegated(total: real, n: nat)
    requires n > 0
    ensures -total / n as real == -(total / n as real)
  {
  }

  lemma VarianceNegated(xs: seq<real>)
    requires |xs| > 1
    ensures Variance(Negated(xs)) == Variance(xs)
  {
    MeanNegated(xs);
    var m := Mean(xs);
    forall i | 0 <= i < |xs|
      ensures Deviations(Negated(xs), -m)[i] == Deviations(xs, m)[i]
    {
      SquareNegated(xs[i] - m);
      assert Negated(xs)[i] - -m == -(xs[i] - m);
    }
    assert Deviations(Negated(xs), -m) == Deviations(xs, m);
  }

  lemma SquareNegated(d: real)
    ensures (-d) * (-d) == d * d
  {
  }

  lemma {:induction false} SumNonNegative(xs: seq<real>)
    requires forall i | 0 <= i < |xs| :: xs[i] >= 0.0
    ensures Sum(xs) >= 0.0
  {
    if xs != [] {
      SumNonNegative(xs[1..]);
    }
  }

  lemma VarianceNonNegative(xs: seq<real>)
    requires |xs| > 1
    ensures Variance(xs) >= 0.0
  {
    var m := Mean(xs);
    forall i | 0 <= i < |xs|
      ensures Deviations(xs, m)[i] >= 0.0
    {
      SquareNonNegative(xs[i] - m);
    }
    SumNonNegative(Deviations(xs, m));
    QuotientNonNegative(Sum(Deviations(xs, m)), (|xs| - 1) as real);
  }

  lemma SquareNonNegative(d: real)
    ensures d * d >= 0.0
  {
  }

  lemma {:induction false} SumMonotone(xs: seq<real>, ys: seq<real>)
    requires |xs| == |ys| && forall i | 0 <= i < |xs| :: xs[i] <= ys[i]
    ensures Sum(xs) <= Sum(ys)
    ensures (exists i | 0 <= i < |xs| :: xs[i] < ys[i]) ==> Sum(xs) < Sum(ys)
  {
    if xs != [] {
      SumMonotone(xs[1..], ys[1..]);
      if i :| 0 <= i < |xs| && xs[i] < ys[i] {
        assert i > 0 ==> xs[1..][i - 1] < ys[1..][i - 1];
      }
    }
  }

  lemma {:induction false} SumConstant(n: nat, k: real)
    ensures Sum(seq(n, _ => k)) == n as real * k
  {
    if n > 0 {
      SumConstant(n - 1, k);
      assert seq(n, _ => k)[1..] == seq(n - 1, _ => k);
      OneMoreTerm(n, k);
    }
  }

  lemma OneMoreTerm(n: nat, k: real)
    requires n > 0
    ensures k + (n - 1) as real * k == n as real * k
  {
    assert (n - 1) as real == n as real - 1.0;
  }

  /** A mean lies above a bound all its terms lie above. */
  lemma MeanAbove(xs: seq<real>, k: real)
    requires xs != [] && forall i | 0 <= i < |xs| :: xs[i] > k
    ensures Mean(xs) > k
  {
    var low := seq(|xs|, _ => k);
    SumMonotone(low, xs);
    SumConstant(|xs|, k);
    assert low[0] < xs[0];
    DivideByCount(Sum(xs), |xs|, k);
  }

  lemma DivideByCount(total: real, n: nat, k: real)
    requires n > 0 && total > n as real * k
    ensures total / n as real > k
  {
  }

  lemma SumAbove(xs: seq<real>, k: real)
    requires forall i | 0 <= i < |xs| :: k <= xs[i]
    ensures |xs| as real * k <= Sum(xs)
  {
    SumMonotone(seq(|xs|, _ => k), xs);
    SumConstant(|xs|, k);
  }

  lemma SumBelow(xs: seq<real>, k: real)
    requires forall i | 0 <= i < |xs| :: xs[i] <= k
    ensures Sum(xs) <= |xs| as real * k
  {
    SumMonotone(xs, seq(|xs|, _ => k));
    SumConstant(|xs|, k);
  }

  lemma MeanWithin(xs: seq<real>, low: real, high: real)
    requires xs != [] && forall i | 0 <= i < |xs| :: low <= xs[i] <= high
    ensures low <= Mean(xs) <= high
  {
    SumAbove(xs, low);
    SumBelow(xs, high);
    DivideBetween(Sum(xs), |xs|, low, high);
  }

  lemma DivideBetween(total: real, n: nat, low: real, high: real)
    requires n > 0 && n as real * low <= total <= n as real * high
    ensures low <= total / n as real <= high
  {
  }

  lemma MeanMonotone(xs: seq<real>, ys: seq<real>)
    requires |xs| == |ys| > 0 && forall i | 0 <= i < |xs| :: xs[i] <= ys[i]
    ensures Mean(xs) <= Mean(ys)
  {
    SumMonotone(xs, ys);
    DivideMonotone(Sum(xs), Sum(ys), |xs|);
  }

  lemma DivideMonotone(a: real, b: real, n: nat)
    requires n > 0 && a <= b
    ensures a / n as real <= b / n as real
  {
  }

  // ---------------------------------------------------------------- pooling

  /** Rows of one length: a number for each seed and, in it, each fold. */
  predicate Rectangular(rows: seq<seq<real>>, width: nat) {
    forall i | 0 <= i < |rows| :: |rows[i]| == width
  }

  function Column(rows: seq<seq<real>>, width: nat, j: nat): (column: seq<real>)
    requires Rectangular(rows, width) && j < width
    ensures |column| == |rows|
  {
    seq(|rows|, i requires 0 <= i < |rows| => rows[i][j])
  }

  function RowSums(rows: seq<seq<real>>): seq<real> {
    seq(|rows|, i requires 0 <= i < |rows| => Sum(rows[i]))
  }

  function ColumnSums(rows: seq<seq<real>>, width: nat): seq<real>
    requires Rectangular(rows, width)
  {
    seq(width, j requires 0 <= j < width => Sum(Column(rows, width, j)))
  }

  function RowMeans(rows: seq<seq<real>>, width: nat): (means: seq<real>)
    requires Rectangular(rows, width) && width > 0
    ensures |means| == |rows|
  {
    seq(|rows|, i requires 0 <= i < |rows| => Mean(rows[i]))
  }

  function ColumnMeans(rows: seq<seq<real>>, width: nat): (means: seq<real>)
    requires Rectangular(rows, width) && rows != []
    ensures |means| == width
  {
    seq(width, j requires 0 <= j < width => Mean(Column(rows, width, j)))
  }

  lemma {:induction false} SumBothWays(rows: seq<seq<real>>, width: nat)
    requires Rectangular(rows, width)
    ensures Sum(RowSums(rows)) == Sum(ColumnSums(rows, width))
  {
    if rows == [] {
      SumConstant(width, 0.0);
      assert ColumnSums(rows, width) == seq(width, _ => 0.0);
    } else {
      SumBothWays(rows[1..], width);
      assert RowSums(rows)[1..] == RowSums(rows[1..]);
      forall j | 0 <= j < width
        ensures ColumnSums(rows, width)[j] == rows[0][j] + ColumnSums(rows[1..], width)[j]
      {
        assert Column(rows, width, j)[1..] == Column(rows[1..], width, j);
      }
      SumAdded(rows[0], ColumnSums(rows[1..], width));
      assert ColumnSums(rows, width) == Added(rows[0], ColumnSums(rows[1..], width));
    }
  }

  lemma {:induction false} SumOfMeans(sums: seq<real>, means: seq<real>, n: nat)
    requires n > 0 && |sums| == |means| && forall i | 0 <= i < |sums| :: means[i] == sums[i] / n as real
    ensures Sum(means) == Sum(sums) / n as real
  {
    if sums != [] {
      SumOfMeans(sums[1..], means[1..], n);
      DivideAdds(sums[0], Sum(sums[1..]), n);
    }
  }

  lemma DivideAdds(a: real, b: real, n: nat)
    requires n > 0
    ensures a / n as real + b / n as real == (a + b) / n as real
  {
  }

  lemma DivideTwice(total: real, m: nat, n: nat)
    requires m > 0 && n > 0
    ensures total / n as real / m as real == total / m as real / n as real
  {
  }

  /** Averaging the folds inside each seed first, or the seeds inside each fold, is one and the same. */
  lemma PoolingCommutes(rows: seq<seq<real>>, width: nat)
    requires Rectangular(rows, width) && rows != [] && width > 0
    ensures Mean(RowMeans(rows, width)) == Mean(ColumnMeans(rows, width))
  {
    SumOfMeans(RowSums(rows), RowMeans(rows, width), width);
    SumOfMeans(ColumnSums(rows, width), ColumnMeans(rows, width), |rows|);
    SumBothWays(rows, width);
    DivideTwice(Sum(RowSums(rows)), |rows|, width);
  }

  // ---------------------------------------------------------------- intervals

  datatype Interval = Interval(mean: real, sd: real, low: real, high: real)

  /** The sample deviation, which for a single value is zero. */
  function Deviation(xs: seq<real>, root: real -> real): real
    requires xs != []
  {
    if |xs| > 1 then root(Variance(xs)) else 0.0
  }

  /** The mean and its interval: `t` sample deviations over the square root of the number on each side. */
  function StudentInterval(xs: seq<real>, t: real, root: real -> real): Interval
    requires xs != [] && root(|xs| as real) != 0.0
  {
    var m := Mean(xs);
    var sd := Deviation(xs, root);
    var half := t * sd / root(|xs| as real);
    Interval(m, sd, m - half, m + half)
  }

  lemma RootOfCount(n: nat, root: real -> real)
    requires IsRoot(root) && n > 0
    ensures root(n as real) > 0.0
  {
    var r := root(n as real);
    assert r >= 0.0 && r * r == n as real;
  }

  /** The interval encloses the mean, symmetrically. */
  lemma IntervalEnclosesMean(xs: seq<real>, t: real, root: real -> real)
    requires xs != [] && t >= 0.0 && IsRoot(root) && root(|xs| as real) != 0.0
    ensures var i := StudentInterval(xs, t, root); i.low <= i.mean <= i.high && i.mean - i.low == i.high - i.mean
  {
    if |xs| > 1 {
      VarianceNonNegative(xs);
    }
    RootOfCount(|xs|, root);
    var sd := Deviation(xs, root);
    ProductNonNegative(t, sd);
    QuotientNonNegative(t * sd, root(|xs| as real));
  }

  lemma ProductNonNegative(a: real, b: real)
    requires a >= 0.0 && b >= 0.0
    ensures a * b >= 0.0
  {
  }

  lemma QuotientNonNegative(a: real, b: real)
    requires a >= 0.0 && b > 0.0
    ensures a / b >= 0.0
  {
  }

  /** Negating the values reflects the interval about zero. */
  lemma IntervalReflects(xs: seq<real>, t: real, root: real -> real)
    requires xs != [] && root(|xs| as real) != 0.0
    ensures var i, r := StudentInterval(xs, t, root), StudentInterval(Negated(xs), t, root);
            r == Interval(-i.mean, i.sd, -i.high, -i.low)
  {
    MeanNegated(xs);
    if |xs| > 1 {
      VarianceNegated(xs);
    }
  }
}

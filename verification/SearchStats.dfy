/** Online statistics of search rewards: Welford's recurrence, raw moments, and the
    population variance they both compute. */
module SearchStats {
  import opened Common

  function Square(x: real): (r: real)
    ensures r >= 0.0
  {
    x * x
  }

  function SumOfSquares(values: seq<real>): real {
    if values == [] then 0.0 else SumOfSquares(values[..|values| - 1]) + Square(values[|values| - 1])
  }

  /** Summed squared distance from a point. */
  function Scatter(values: seq<real>, m: real): (r: real)
    ensures r >= 0.0
  {
    if values == [] then 0.0 else Scatter(values[..|values| - 1], m) + Square(values[|values| - 1] - m)
  }

  function Count(values: seq<real>): real {
    if values == [] then 0.0 else Count(values[..|values| - 1]) + 1.0
  }

  lemma {:induction false} CountIsLength(values: seq<real>)
    ensures Count(values) == |values| as real
  {
    if values != [] {
      CountIsLength(values[..|values| - 1]);
    }
  }

  function Ratio(x: real, n: real): real {
    if n == 0.0 then 0.0 else x / n
  }

  function MeanOf(values: seq<real>): real {
    Ratio(Total(values), |values| as real)
  }

  /** The population variance: the mean squared distance from the mean. */
  function VarianceOf(values: seq<real>): real {
    Ratio(Scatter(values, MeanOf(values)), |values| as real)
  }

  /** The scatter around m of n numbers with the given sum and sum of squares. */
  function Expanded(q: real, s: real, n: real, m: real): real {
    q - 2.0 * m * s + n * Square(m)
  }

  lemma ExpandStep(q: real, s: real, n: real, v: real, m: real)
    ensures Expanded(q, s, n, m) + Square(v - m) == Expanded(q + Square(v), s + v, n + 1.0, m)
  {
    assert Square(v - m) == v * v - 2.0 * m * v + m * m;
    assert 2.0 * m * (s + v) == 2.0 * m * s + 2.0 * m * v;
    assert (n + 1.0) * (m * m) == n * (m * m) + m * m;
  }

  lemma NothingExpanded(m: real)
    ensures Expanded(0.0, 0.0, 0.0, m) == 0.0
  {
  }

  lemma {:induction false} ScatterExpands(values: seq<real>, m: real)
    ensures Scatter(values, m) == Expanded(SumOfSquares(values), Total(values), Count(values), m)
  {
    if values == [] {
      NothingExpanded(m);
    } else {
      var init, v := values[..|values| - 1], values[|values| - 1];
      ScatterExpands(init, m);
      ExpandStep(SumOfSquares(init), Total(init), Count(init), v, m);
    }
  }

  lemma AroundMean(q: real, s: real, n: real)
    requires n > 0.0
    ensures var m := Ratio(s, n);
            Ratio(Expanded(q, s, n, m), n) == Ratio(q, n) - Square(m)
  {
    var m := s / n;
    assert s == n * m;
    assert m * s == n * (m * m);
    assert Expanded(q, s, n, m) == q - n * (m * m);
    assert (q - n * (m * m)) / n == q / n - m * m;
  }

  lemma RatioSign(x: real, n: real)
    requires n > 0.0 && x >= 0.0
    ensures Ratio(x, n) >= 0.0
  {
  }

  /** The variance by raw moments, before any clamp, is the population variance. */
  lemma MomentsGiveVariance(values: seq<real>)
    requires values != []
    ensures VarianceOf(values) == Ratio(SumOfSquares(values), |values| as real) - Square(MeanOf(values))
    ensures VarianceOf(values) >= 0.0
  {
    ScatterExpands(values, MeanOf(values));
    CountIsLength(values);
    AroundMean(SumOfSquares(values), Total(values), |values| as real);
    RatioSign(Scatter(values, MeanOf(values)), |values| as real);
  }

  // Welford's recurrence

  datatype RunningStatistics = RunningStatistics(count: nat, mean: real, m2: real) {
    function Add(value: real): RunningStatistics {
      var n := count + 1;
      var delta := value - mean;
      var next := mean + delta / n as real;
      RunningStatistics(n, next, m2 + delta * (value - next))
    }

    function Variance(): real {
      if count == 0 then 0.0 else m2 / count as real
    }
  }

  const NO_STATISTICS := RunningStatistics(0, 0.0, 0.0)

  function Fold(values: seq<real>): RunningStatistics {
    if values == [] then NO_STATISTICS else Fold(values[..|values| - 1]).Add(values[|values| - 1])
  }

  /** n numbers of the given sum and sum of squares have this mean and scatter. */
  predicate HasMoments(n: real, s: real, q: real, mean: real, m2: real) {
    n * mean == s && m2 == q - n * Square(mean)
  }

  /** One step of the recurrence, on plain numbers. */
  lemma WelfordStep(n: real, s: real, q: real, mean: real, m2: real, v: real)
    requires n >= 0.0 && HasMoments(n, s, q, mean, m2)
    ensures var next := mean + (v - mean) / (n + 1.0);
            HasMoments(n + 1.0, s + v, q + Square(v), next, m2 + (v - mean) * (v - next))
  {
    var d := (v - mean) / (n + 1.0);
    Spread(v - mean, n + 1.0, d);
    ShiftedMoments(n, s, q, mean, d);
    assert v == mean + (d * n + d) && v - (mean + d) == d * n;
  }

  lemma Spread(x: real, n: real, d: real)
    requires n > 0.0 && d == x / n
    ensures x == d * (n - 1.0) + d
  {
  }

  /** The next value is the mean plus n + 1 steps of d. */
  lemma ShiftedMoments(n: real, s: real, q: real, mean: real, d: real)
    requires n * mean == s
    ensures var v := mean + (d * n + d);
            HasMoments(n + 1.0, s + v, q + Square(v), mean + d, q - n * Square(mean) + (d * n + d) * (d * n))
  {
    WelfordAlgebra(n, q, mean, d);
    assert (n + 1.0) * (mean + d) == n * mean + mean + (d * n + d);
    assert mean + d * n + d == mean + (d * n + d);
  }

  lemma WelfordAlgebra(n: real, q: real, mean: real, d: real)
    ensures var v := mean + d * n + d;
            q - n * (mean * mean) + (d * n + d) * (d * n) == (q + v * v) - (n + 1.0) * ((mean + d) * (mean + d))
  {
    var v, dn := mean + d * n + d, d * n;
    assert v * v == mean * mean + 2.0 * mean * dn + 2.0 * mean * d + dn * dn + 2.0 * dn * d + d * d;
    assert (mean + d) * (mean + d) == mean * mean + 2.0 * mean * d + d * d;
    Scale(n, mean, d);
  }

  lemma Scale(n: real, mean: real, d: real)
    ensures n * (mean * mean + 2.0 * mean * d + d * d) == n * (mean * mean) + 2.0 * mean * (d * n) + (d * n) * d
  {
  }

  /** The statistics have the moments of the values folded into them. */
  predicate Describes(f: RunningStatistics, values: seq<real>) {
    f.count == |values| && HasMoments(|values| as real, Total(values), SumOfSquares(values), f.mean, f.m2)
  }

  lemma AddKeepsMoments(f: RunningStatistics, s: real, q: real, v: real)
    requires HasMoments(f.count as real, s, q, f.mean, f.m2)
    ensures var g := f.Add(v); HasMoments(g.count as real, s + v, q + Square(v), g.mean, g.m2)
  {
    WelfordStep(f.count as real, s, q, f.mean, f.m2, v);
  }

  lemma NoMoments()
    ensures HasMoments(0.0, 0.0, 0.0, 0.0, 0.0)
  {
  }

  lemma {:induction false} FoldKeepsMoments(values: seq<real>)
    ensures Describes(Fold(values), values)
  {
    if values == [] {
      NoMoments();
    } else {
      var init, v := values[..|values| - 1], values[|values| - 1];
      FoldKeepsMoments(init);
      AddKeepsMoments(Fold(init), Total(init), SumOfSquares(init), v);
    }
  }

  lemma MomentsDetermine(n: real, s: real, q: real, mean: real, m2: real)
    requires n > 0.0 && HasMoments(n, s, q, mean, m2)
    ensures mean == Ratio(s, n) && Ratio(m2, n) == Ratio(q, n) - Square(mean)
  {
    assert mean == s / n;
    assert (q - n * (mean * mean)) / n == q / n - mean * mean;
  }

  /** Folding the recurrence gives the exact mean and population variance. */
  lemma WelfordIsExact(values: seq<real>)
    ensures Fold(values).count == |values|
    ensures Fold(values).mean == MeanOf(values)
    ensures Fold(values).Variance() == VarianceOf(values)
  {
    FoldKeepsMoments(values);
    if values != [] {
      var f := Fold(values);
      MomentsDetermine(|values| as real, Total(values), SumOfSquares(values), f.mean, f.m2);
      MomentsGiveVariance(values);
    }
  }

  // The search node

  class Node {
    var visits: nat
    var totalValue: real
    var totalSquaredValue: real
    ghost var rewards: seq<real>

    ghost predicate Valid()
      reads this
    {
      visits == |rewards| && totalValue == Total(rewards) && totalSquaredValue == SumOfSquares(rewards)
    }

    constructor ()
      ensures Valid() && rewards == []
    {
      visits, totalValue, totalSquaredValue, rewards := 0, 0.0, 0.0, [];
    }

    function Q(): real
      reads this
    {
      if visits == 0 then 0.0 else totalValue / visits as real
    }

    function ValueVariance(): real
      reads this
    {
      if visits == 0 then 0.0 else Max(0.0, totalSquaredValue / visits as real - Square(Q()))
    }

    method Update(value: real)
      requires Valid()
      modifies this
      ensures Valid() && rewards == old(rewards) + [value]
    {
      visits, totalValue, totalSquaredValue := visits + 1, totalValue + value, totalSquaredValue + Square(value);
      rewards := rewards + [value];
      assert rewards[..|rewards| - 1] == old(rewards);
    }

    /** The node reports the mean and the population variance, and its clamp never acts. */
    lemma ReportsMoments()
      requires Valid()
      ensures Q() == MeanOf(rewards) && ValueVariance() == VarianceOf(rewards)
      ensures visits > 0 ==> ValueVariance() == totalSquaredValue / visits as real - Square(Q())
    {
      if visits > 0 {
        MomentsGiveVariance(rewards);
      }
    }
  }

  /** A node and a running statistic fed the same rewards agree. */
  method Record(node: Node, stats: RunningStatistics, value: real) returns (stats': RunningStatistics)
    requires node.Valid() && stats == Fold(node.rewards)
    modifies node
    ensures node.Valid() && node.rewards == old(node.rewards) + [value] && stats' == Fold(node.rewards)
    ensures stats'.mean == node.Q() && stats'.Variance() == node.ValueVariance()
  {
    node.Update(value);
    stats' := stats.Add(value);
    assert node.rewards[..|node.rewards| - 1] == old(node.rewards);
    WelfordIsExact(node.rewards);
    node.ReportsMoments();
  }

  // Rewards in [0, 1]

  ghost predicate Rewards(values: seq<real>) {
    forall i :: 0 <= i < |values| ==> 0.0 <= values[i] <= 1.0
  }

  lemma {:induction false} SquaresBelowSum(values: seq<real>)
    requires Rewards(values)
    ensures 0.0 <= SumOfSquares(values) <= Total(values) <= |values| as real
  {
    if values != [] {
      var init := values[..|values| - 1];
      assert forall i :: 0 <= i < |init| ==> init[i] == values[i];
      SquaresBelowSum(init);
      UnitSquare(values[|values| - 1]);
    }
  }

  lemma UnitSquare(v: real)
    requires 0.0 <= v <= 1.0
    ensures 0.0 <= Square(v) <= v
  {
    ProductSign(v, 1.0 - v);
    assert v * (1.0 - v) == v - v * v;
  }

  lemma ProductSign(a: real, b: real)
    requires a >= 0.0 && b >= 0.0
    ensures a * b >= 0.0
  {
  }

  lemma RatioMonotone(a: real, b: real, n: real)
    requires n > 0.0 && a <= b
    ensures Ratio(a, n) <= Ratio(b, n)
  {
  }

  lemma QuarterBound(q: real)
    ensures q - Square(q) == q * (1.0 - q) <= 0.25
  {
    assert (q - 0.5) * (q - 0.5) >= 0.0;
    assert (q - 0.5) * (q - 0.5) == q * q - q + 0.25;
  }

  /** For rewards in [0, 1] the variance is at most q(1 - q), hence at most a quarter. */
  lemma RewardVarianceIsBounded(values: seq<real>)
    requires Rewards(values)
    ensures var q := MeanOf(values); 0.0 <= VarianceOf(values) <= q * (1.0 - q) <= 0.25
  {
    if values != [] {
      var n, q := |values| as real, MeanOf(values);
      SquaresBelowSum(values);
      MomentsGiveVariance(values);
      RatioMonotone(SumOfSquares(values), Total(values), n);
      QuarterBound(q);
    }
  }

  // What the statistics mean

  /** Squares and distances add up, from single values. */
  lemma {:induction false} ScatterAddsUp(a: seq<real>, b: seq<real>, m: real)
    ensures Scatter([], m) == 0.0 && forall x :: Scatter([x], m) == (x - m) * (x - m)
    ensures Scatter(a + b, m) == Scatter(a, m) + Scatter(b, m)
    ensures SumOfSquares(a) == Scatter(a, 0.0)
  {
    forall x ensures Scatter([x], m) == (x - m) * (x - m) {
      assert [x][..0] == [];
    }
    SquaresAreScatter(a);
    if b == [] {
      assert a + b == a;
    } else {
      var n := |b| - 1;
      ScatterAddsUp(a, b[..n], m);
      assert (a + b)[..|a + b| - 1] == a + b[..n];
    }
  }

  lemma {:induction false} SquaresAreScatter(a: seq<real>)
    ensures SumOfSquares(a) == Scatter(a, 0.0)
  {
    if a != [] {
      SquaresAreScatter(a[..|a| - 1]);
    }
  }

  /** The mean times the number of rewards is their sum, and the variance times it their scatter. */
  lemma MeanTimesCount(values: seq<real>)
    ensures MeanOf(values) * |values| as real == Total(values)
    ensures VarianceOf(values) * |values| as real == Scatter(values, MeanOf(values))
    ensures values == [] ==> MeanOf(values) == 0.0 && VarianceOf(values) == 0.0
  {
    hide Ratio, Total, Scatter;
    if values == [] {
      NoTotals(0.0);
    }
    RatioTimes(Total(values), |values| as real);
    RatioTimes(Scatter(values, MeanOf(values)), |values| as real);
  }

  lemma NoTotals(m: real)
    ensures Total([]) == 0.0 && Scatter([], m) == 0.0
  {
  }

  lemma RatioTimes(x: real, n: real)
    requires n == 0.0 ==> x == 0.0
    ensures Ratio(x, n) * n == x
    ensures n == 0.0 ==> Ratio(x, n) == 0.0
  {
    if n != 0.0 {
      var q := x / n;
      assert q * n == x;
    }
  }

  /** Rewards have no variance exactly when all equal their mean. */
  lemma NoSpread(values: seq<real>)
    requires values != []
    ensures VarianceOf(values) == 0.0 <==> forall i :: 0 <= i < |values| ==> values[i] == MeanOf(values)
  {
    MeanTimesCount(values);
    ScatterVanishes(values, MeanOf(values));
    RatioZero(Scatter(values, MeanOf(values)), |values| as real);
  }

  lemma EqualRewards(values: seq<real>, v: real)
    requires values != [] && forall i :: 0 <= i < |values| ==> values[i] == v
    ensures MeanOf(values) == v && VarianceOf(values) == 0.0
  {
    TotalConstant(values, v);
    NoSpread(values);
  }

  lemma RatioZero(x: real, n: real)
    requires n > 0.0
    ensures Ratio(x, n) == 0.0 <==> x == 0.0
  {
    assert x == Ratio(x, n) * n;
  }

  lemma {:induction false} ScatterVanishes(values: seq<real>, m: real)
    ensures Scatter(values, m) == 0.0 <==> forall i :: 0 <= i < |values| ==> values[i] == m
  {
    if values != [] {
      var n := |values| - 1;
      ScatterVanishes(values[..n], m);
      SquareVanishes(values[n] - m);
    }
  }

  lemma PositiveProduct(p: real, x: real, y: real)
    requires p == x * y && x > 0.0 && y > 0.0
    ensures p > 0.0
  {
  }

  lemma SquareVanishes(x: real)
    ensures Square(x) == 0.0 <==> x == 0.0
  {
    if x > 0.0 {
      PositiveProduct(Square(x), x, x);
    } else if x < 0.0 {
      PositiveProduct(Square(x), -x, -x);
    }
  }
}

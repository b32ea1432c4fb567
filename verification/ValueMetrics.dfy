/** Value-head diagnostics: the two-pass batch computation and the bounded-memory
    accumulator that must reproduce it. */
module ValueMetrics {
  import opened Common
  import opened GameEqual

  datatype ValueRow = ValueRow(game: string, target: int, predicted: real)
  {
    predicate Valid() {
      game != "" && -1 <= target <= 1 && -1.0 <= predicted <= 1.0
    }
  }

  /** log and log1p are left uninterpreted: every result holds for any pair of functions. */
  datatype Config = Config(bins: nat, threshold: real, log: real -> real, log1p: real -> real)

  /** What is averaged over rows.  The four binned fields are zero for rows of other bins. */
  datatype Field =
    | LogLoss | Brier | Accuracy | Saturation
    | Residual(bin: nat) | Predicted(bin: nat) | Observed(bin: nat) | InBin(bin: nat)

  function Sign(x: real): int {
    if x > 0.0 then 1 else if x < 0.0 then -1 else 0
  }

  function Probability(row: ValueRow): real {
    (row.predicted + 1.0) / 2.0
  }

  function Target(row: ValueRow): real {
    (row.target as real + 1.0) / 2.0
  }

  function Clipped(row: ValueRow): real {
    Min(Max(Probability(row), 0.000000000000001), 1.0 - 0.000000000000001)
  }

  function Bin(bins: nat, row: ValueRow): int {
    var scaled := (Probability(row) * bins as real).Floor;
    if scaled < bins - 1 then scaled else bins - 1
  }

  function Measure(c: Config, f: Field, row: ValueRow): real {
    var p, t := Probability(row), Target(row);
    match f
    case LogLoss => -(t * c.log(Clipped(row)) + (1.0 - t) * c.log1p(-Clipped(row)))
    case Brier => (p - t) * (p - t)
    case Accuracy => if Sign(row.predicted) == row.target then 1.0 else 0.0
    case Saturation => if Abs(row.predicted) >= c.threshold then 1.0 else 0.0
    case Residual(b) => if Bin(c.bins, row) == b then p - t else 0.0
    case Predicted(b) => if Bin(c.bins, row) == b then p else 0.0
    case Observed(b) => if Bin(c.bins, row) == b then t else 0.0
    case InBin(b) => if Bin(c.bins, row) == b then 1.0 else 0.0
  }

  function Tag(c: Config, f: Field): ValueRow -> Sample {
    (row: ValueRow) => Sample(row.game, Measure(c, f, row))
  }

  function Samples(c: Config, f: Field, rows: seq<ValueRow>): seq<Sample> {
    Mapped(Tag(c, f), rows)
  }

  datatype Metrics = Metrics(count: nat, gameCount: nat, logLoss: Option<real>, brier: Option<real>,
                             calibrationError: Option<real>, accuracy: Option<real>, saturation: Option<real>)

  const NO_METRICS := Metrics(0, 0, None, None, None, None, None)

  // The two-pass batch computation

  function RowWeights(c: Config, rows: seq<ValueRow>): map<string, real> {
    Weights(Samples(c, Accuracy, rows))
  }

  function RowMean(c: Config, f: Field, rows: seq<ValueRow>): real {
    WeightedTotal(Samples(c, f, rows), RowWeights(c, rows))
  }

  /** One bin's contribution: its weight times the gap between its weighted means. */
  function BinGap(weight: real, predicted: real, observed: real): real {
    if weight == 0.0 then 0.0 else weight * Abs(predicted / weight - observed / weight)
  }

  function BinError(c: Config, rows: seq<ValueRow>, b: nat): real {
    BinGap(RowMean(c, InBin(b), rows), RowMean(c, Predicted(b), rows), RowMean(c, Observed(b), rows))
  }

  function BinErrors(c: Config, rows: seq<ValueRow>): seq<real> {
    seq(c.bins, b requires 0 <= b < c.bins => BinError(c, rows, b))
  }

  function AggregateValue(c: Config, rows: seq<ValueRow>): Metrics {
    if rows == [] then NO_METRICS
    else
      Metrics(|rows|, |set r | r in rows :: r.game|,
              Some(RowMean(c, LogLoss, rows)), Some(RowMean(c, Brier, rows)),
              Some(Total(BinErrors(c, rows))),
              Some(RowMean(c, Accuracy, rows)), Some(RowMean(c, Saturation, rows)))
  }

  // Facts about the batch form

  lemma SamplesSnoc(c: Config, f: Field, rows: seq<ValueRow>, row: ValueRow)
    ensures Samples(c, f, rows + [row]) == Samples(c, f, rows) + [Sample(row.game, Measure(c, f, row))]
  {
  }

  /** Every measure sees the same games with the same weights. */
  lemma SameGames(c: Config, f: Field, rows: seq<ValueRow>)
    ensures Games(Samples(c, f, rows)) == set r | r in rows :: r.game
    ensures Weights(Samples(c, f, rows)) == RowWeights(c, rows)
  {
    var s := Samples(c, f, rows);
    forall g ensures g in Games(s) <==> exists r :: r in rows && r.game == g {
      if g in Games(s) {
        var i :| 0 <= i < |s| && s[i].game == g;
        assert rows[i] in rows;
      }
      if r :| r in rows && r.game == g {
        var i :| 0 <= i < |rows| && rows[i] == r;
        assert s[i] in s;
      }
    }
    AlignedGames(s, Samples(c, Accuracy, rows));
  }

  lemma BinArithmetic(weight: real, p: real, t: real, gap: real)
    requires weight >= 0.0 && (weight == 0.0 ==> gap == 0.0) && gap == p - t
    ensures BinGap(weight, p, t) == Abs(gap)
  {
    if weight != 0.0 {
      var x, y := p / weight, t / weight;
      assert x * weight == p && y * weight == t;
      assert (x - y) * weight == p - t;
    }
  }

  lemma BinnedMeasures(c: Config, row: ValueRow, b: nat)
    ensures Measure(c, Residual(b), row) == Measure(c, Predicted(b), row) - Measure(c, Observed(b), row)
    ensures var ind := Measure(c, InBin(b), row);
            ind > 0.0 || (ind == 0.0 && Measure(c, Residual(b), row) == 0.0)
  {
  }

  lemma BinFacts(c: Config, rows: seq<ValueRow>, b: nat)
    ensures RowMean(c, Residual(b), rows) == RowMean(c, Predicted(b), rows) - RowMean(c, Observed(b), rows)
    ensures RowMean(c, InBin(b), rows) >= 0.0
    ensures RowMean(c, InBin(b), rows) == 0.0 ==> RowMean(c, Residual(b), rows) == 0.0
  {
    var ind, res := Samples(c, InBin(b), rows), Samples(c, Residual(b), rows);
    var p, t := Samples(c, Predicted(b), rows), Samples(c, Observed(b), rows);
    var all := Samples(c, Accuracy, rows);
    AlignedGames(res, all);
    forall i | 0 <= i < |rows|
      ensures res[i].value == p[i].value - t[i].value
      ensures ind[i].value > 0.0 || (ind[i].value == 0.0 && res[i].value == 0.0)
      ensures res[i].game in Games(all)
    {
      BinnedMeasures(c, rows[i], b);
      assert res[i] in res;
    }
    NothingIndicated(ind, res, all);
    TotalOfDifferences(res, p, t, Weights(all));
  }

  /** Scaling a bin's mean gap by the bin weight undoes the division: the whole
      contribution is the absolute weighted residual. */
  lemma BinErrorIsResidual(c: Config, rows: seq<ValueRow>, b: nat)
    ensures BinError(c, rows, b) == Abs(RowMean(c, Residual(b), rows))
  {
    BinFacts(c, rows, b);
    BinArithmetic(RowMean(c, InBin(b), rows), RowMean(c, Predicted(b), rows), RowMean(c, Observed(b), rows),
                  RowMean(c, Residual(b), rows));
  }

  // Independence of row order

  lemma RowMeanReordered(c: Config, f: Field, a: seq<ValueRow>, b: seq<ValueRow>)
    requires multiset(a) == multiset(b)
    ensures RowMean(c, f, a) == RowMean(c, f, b)
  {
    MappedReordered(Tag(c, f), a, b);
    WeightedMeanReordered(Samples(c, f, a), Samples(c, f, b));
    SameGames(c, f, a);
    SameGames(c, f, b);
  }

  lemma BinErrorReordered(c: Config, a: seq<ValueRow>, b: seq<ValueRow>, bin: nat)
    requires multiset(a) == multiset(b)
    ensures BinError(c, a, bin) == BinError(c, b, bin)
  {
    RowMeanReordered(c, Residual(bin), a, b);
    BinErrorIsResidual(c, a, bin);
    BinErrorIsResidual(c, b, bin);
  }

  lemma CalibrationReordered(c: Config, a: seq<ValueRow>, b: seq<ValueRow>)
    requires multiset(a) == multiset(b)
    ensures BinErrors(c, a) == BinErrors(c, b)
  {
    forall bin | 0 <= bin < c.bins ensures BinErrors(c, a)[bin] == BinErrors(c, b)[bin] {
      BinErrorReordered(c, a, b, bin);
    }
  }

  /** The metrics are the same under any reordering of the rows. */
  lemma AggregateValueReordered(c: Config, a: seq<ValueRow>, b: seq<ValueRow>)
    requires multiset(a) == multiset(b)
    ensures AggregateValue(c, a) == AggregateValue(c, b)
  {
    assert |a| == |multiset(a)| && |b| == |multiset(b)|;
    forall r ensures r in a <==> r in b {
      assert r in multiset(a) <==> r in multiset(b);
    }
    assert (set r | r in a :: r.game) == (set r | r in b :: r.game);
    RowMeanReordered(c, LogLoss, a, b);
    RowMeanReordered(c, Brier, a, b);
    RowMeanReordered(c, Accuracy, a, b);
    RowMeanReordered(c, Saturation, a, b);
    CalibrationReordered(c, a, b);
  }

  // The one-pass accumulator

  /** Running totals of one game. */
  datatype GameMetrics = GameMetrics(count: nat, logLoss: real, brier: real, accuracy: real, saturation: real,
                                     residuals: seq<real>)
  {
    /** The running total of a field the accumulator keeps. */
    function Read(f: Field): real
      requires Streamed(|residuals|, f)
    {
      match f
      case LogLoss => logLoss
      case Brier => brier
      case Accuracy => accuracy
      case Saturation => saturation
      case Residual(b) => residuals[b]
    }
  }

  predicate Streamed(bins: nat, f: Field) {
    f.LogLoss? || f.Brier? || f.Accuracy? || f.Saturation? || (f.Residual? && f.bin < bins)
  }

  function EmptyGame(bins: nat): GameMetrics {
    GameMetrics(0, 0.0, 0.0, 0.0, 0.0, seq(bins, _ => 0.0))
  }

  /** One row added to its game's totals. */
  function Extended(c: Config, m: GameMetrics, row: ValueRow): GameMetrics
    requires |m.residuals| == c.bins > 0 && row.Valid()
  {
    var bin := Bin(c.bins, row);
    BinInRange(c.bins, row);
    GameMetrics(m.count + 1,
                m.logLoss + Measure(c, LogLoss, row),
                m.brier + Measure(c, Brier, row),
                m.accuracy + Measure(c, Accuracy, row),
                m.saturation + Measure(c, Saturation, row),
                m.residuals[bin := m.residuals[bin] + (Probability(row) - Target(row))])
  }

  lemma BinInRange(bins: nat, row: ValueRow)
    requires bins > 0 && row.Valid()
    ensures 0 <= Bin(bins, row) < bins
  {
    assert Probability(row) * bins as real >= 0.0;
  }

  /** m holds game g's totals over rows. */
  ghost predicate Summarizes(c: Config, m: GameMetrics, rows: seq<ValueRow>, g: string) {
    && |m.residuals| == c.bins
    && m.count == GroupCount(Samples(c, Accuracy, rows), g)
    && forall f :: Streamed(c.bins, f) ==> m.Read(f) == GroupTotal(Samples(c, f, rows), g)
  }

  lemma {:induction false} NothingOfGame(s: seq<Sample>, g: string)
    requires g !in Games(s)
    ensures GroupCount(s, g) == 0 && GroupTotal(s, g) == 0.0
  {
    if s != [] {
      var init, last := s[..|s| - 1], s[|s| - 1];
      assert last in s && forall x :: x in init ==> x in s;
      NothingOfGame(init, g);
    }
  }

  lemma EmptyGameSummarizes(c: Config, rows: seq<ValueRow>, g: string)
    requires g !in Games(Samples(c, Accuracy, rows))
    ensures Summarizes(c, EmptyGame(c.bins), rows, g)
  {
    NothingOfGame(Samples(c, Accuracy, rows), g);
    forall f | Streamed(c.bins, f)
      ensures EmptyGame(c.bins).Read(f) == GroupTotal(Samples(c, f, rows), g)
    {
      SameGames(c, f, rows);
      SameGames(c, Accuracy, rows);
      NothingOfGame(Samples(c, f, rows), g);
    }
  }

  lemma ExtendedReads(c: Config, m: GameMetrics, row: ValueRow, f: Field)
    requires |m.residuals| == c.bins > 0 && row.Valid() && Streamed(c.bins, f)
    ensures |Extended(c, m, row).residuals| == c.bins
    ensures Extended(c, m, row).Read(f) == m.Read(f) + Measure(c, f, row)
  {
    BinInRange(c.bins, row);
  }

  lemma RowAdded(c: Config, m: GameMetrics, rows: seq<ValueRow>, row: ValueRow, g: string)
    requires c.bins > 0 && row.Valid() && Summarizes(c, m, rows, g)
    ensures Summarizes(c, if g == row.game then Extended(c, m, row) else m, rows + [row], g)
  {
    var m' := if g == row.game then Extended(c, m, row) else m;
    SamplesSnoc(c, Accuracy, rows, row);
    Snoc(Samples(c, Accuracy, rows), Sample(row.game, Measure(c, Accuracy, row)), g);
    BinInRange(c.bins, row);
    forall f | Streamed(c.bins, f)
      ensures m'.Read(f) == GroupTotal(Samples(c, f, rows + [row]), g)
    {
      SamplesSnoc(c, f, rows, row);
      Snoc(Samples(c, f, rows), Sample(row.game, Measure(c, f, row)), g);
      ExtendedReads(c, m, row, f);
    }
  }

  /** sum(game.field / game.count for each game), in dictionary order. */
  function SumOfGameMeans(order: seq<string>, games: map<string, GameMetrics>, f: Field): real
    requires forall g :: g in order ==> g in games && Streamed(|games[g].residuals|, f)
  {
    if order == [] then 0.0
    else
      var m := games[order[|order| - 1]];
      SumOfGameMeans(order[..|order| - 1], games, f) + MeanOver(m.Read(f), m.count)
  }

  lemma {:induction false} GameMeansAreExact(c: Config, order: seq<string>, games: map<string, GameMetrics>,
                                             f: Field, rows: seq<ValueRow>)
    requires Streamed(c.bins, f)
    requires forall g :: g in order ==> g in games && |games[g].residuals| == c.bins && Summarizes(c, games[g], rows, g)
    ensures SumOfGameMeans(order, games, f) == TotalOfMeans(order, Samples(c, f, rows))
  {
    if order != [] {
      var g := order[|order| - 1];
      assert g in order;
      GameMeansAreExact(c, order[..|order| - 1], games, f, rows);
      AlignedCounts(Samples(c, Accuracy, rows), Samples(c, f, rows), g);
    }
  }

  /** Bounded-memory value metrics: only per-game totals are kept. */
  class ValueAggregate {
    const config: Config
    var count: nat
    var order: seq<string>  // keys of the games dictionary, oldest first
    var games: map<string, GameMetrics>
    ghost var rows: seq<ValueRow>  // every row added so far

    ghost predicate Valid()
      reads this
    {
      && config.bins > 0
      && count == |rows|
      && Lists(order, Samples(config, Accuracy, rows))
      && (forall g :: g in order <==> g in games)
      && forall g :: g in games ==> Summarizes(config, games[g], rows, g)
    }

    constructor (config: Config)
      requires config.bins > 0
      ensures Valid() && rows == [] && this.config == config
    {
      this.config := config;
      count, order, games, rows := 0, [], map[], [];
    }

    method Add(row: ValueRow)
      requires Valid() && row.Valid()
      modifies this
      ensures Valid() && rows == old(rows) + [row]
    {
      var game := EmptyGame(config.bins);
      if row.game in games {
        game := games[row.game];
      } else {
        EmptyGameSummarizes(config, rows, row.game);
        order := order + [row.game];
      }
      count := count + 1;
      games := games[row.game := Extended(config, game, row)];

      forall g | g in games
        ensures Summarizes(config, games[g], rows + [row], g)
      {
        RowAdded(config, if g == row.game then game else games[g], rows, row, g);
      }
      SamplesSnoc(config, Accuracy, rows, row);
      Snoc(Samples(config, Accuracy, rows), Sample(row.game, Measure(config, Accuracy, row)), row.game);
      rows := rows + [row];
    }

    /** mean over games of the per-game mean of f */
    function GameEqualAverage(f: Field): (r: real)
      requires Valid() && order != [] && Streamed(config.bins, f)
      reads this
      ensures r == RowMean(config, f, rows)
    {
      GameMeansAreExact(config, order, games, f, rows);
      AlignedGames(Samples(config, f, rows), Samples(config, Accuracy, rows));
      assert order[0] in Games(Samples(config, Accuracy, rows));
      MeanOfMeans(order, Samples(config, f, rows));
      SumOfGameMeans(order, games, f) / |order| as real
    }

    /** |mean over games of the per-game residual of bin b| */
    function CalibrationTerm(b: nat): (r: real)
      requires Valid() && order != [] && b < config.bins
      reads this
      ensures r == BinErrors(config, rows)[b]
    {
      BinErrorIsResidual(config, rows, b);
      Abs(GameEqualAverage(Residual(b)))
    }

    function Calibration(): (r: real)
      requires Valid() && order != []
      reads this
      ensures r == Total(BinErrors(config, rows))
    {
      var terms :=
        seq(config.bins, b requires 0 <= b < config.bins && Valid() && order != [] reads this => CalibrationTerm(b));
      assert terms == BinErrors(config, rows);
      Total(terms)
    }

    lemma GameCount()
      requires Valid()
      ensures |order| == |set r | r in rows :: r.game|
      ensures order == [] <==> rows == []
    {
      SameGames(config, Accuracy, rows);
      DistinctLength(order, Games(Samples(config, Accuracy, rows)));
      if rows != [] {
        assert rows[0] in rows;
        assert rows[0].game in Games(Samples(config, Accuracy, rows));
      }
      if order != [] {
        assert order[0] in Games(Samples(config, Accuracy, rows));
      }
    }

    /** The accumulator reproduces the two-pass metrics of all rows added so far. */
    method Compute() returns (m: Metrics)
      requires Valid()
      ensures m == AggregateValue(config, rows)
    {
      GameCount();
      if order == [] {
        return NO_METRICS;
      }
      m := Metrics(count, |order|, Some(GameEqualAverage(LogLoss)), Some(GameEqualAverage(Brier)),
                   Some(Calibration()), Some(GameEqualAverage(Accuracy)), Some(GameEqualAverage(Saturation)));
    }
  }

  // What the measures mean

  lemma AlikeMean(c: Config, f: Field, rows: seq<ValueRow>, v: real)
    requires rows != [] && forall i :: 0 <= i < |rows| ==> Measure(c, f, rows[i]) == v
    ensures RowMean(c, f, rows) == v
  {
    var s := Samples(c, f, rows);
    AlignedGames(s, Samples(c, Accuracy, rows));
    ConstantMean(s, v);
  }

  lemma NonNegativeMean(c: Config, f: Field, rows: seq<ValueRow>)
    requires forall i :: 0 <= i < |rows| ==> Measure(c, f, rows[i]) >= 0.0
    ensures RowMean(c, f, rows) >= 0.0
    ensures RowMean(c, f, rows) > 0.0 <==> exists i :: 0 <= i < |rows| && Measure(c, f, rows[i]) > 0.0
  {
    var s, all := Samples(c, f, rows), Samples(c, Accuracy, rows);
    AlignedGames(s, all);
    forall i | 0 <= i < |s| ensures s[i].game in Games(all) {
      assert s[i] in s;
    }
    PositiveMean(s, all);
    if RowMean(c, f, rows) > 0.0 {
      var i :| 0 <= i < |s| && s[i].value > 0.0;
      assert Measure(c, f, rows[i]) > 0.0;
    }
    if i :| 0 <= i < |rows| && Measure(c, f, rows[i]) > 0.0 {
      assert s[i].value > 0.0;
    }
  }

  /** The prediction's sign is the target: a win, a draw or a loss. */
  predicate CallsIt(row: ValueRow) {
    || (row.target == 1 && row.predicted > 0.0)
    || (row.target == 0 && row.predicted == 0.0)
    || (row.target == -1 && row.predicted < 0.0)
  }

  /** Rows that all call their target have accuracy 1, rows that all miss it 0; in general accuracy
      is positive exactly when some row calls its target. */
  lemma AccuracyMeans(c: Config, rows: seq<ValueRow>)
    requires rows != [] && forall i :: 0 <= i < |rows| ==> rows[i].Valid()
    ensures AggregateValue(c, rows).accuracy.Some?
    ensures (forall i :: 0 <= i < |rows| ==> CallsIt(rows[i])) ==> AggregateValue(c, rows).accuracy.value == 1.0
    ensures AggregateValue(c, rows).accuracy.value > 0.0 <==> exists i :: 0 <= i < |rows| && CallsIt(rows[i])
  {
    forall i | 0 <= i < |rows|
      ensures Measure(c, Accuracy, rows[i]) == if CallsIt(rows[i]) then 1.0 else 0.0
    {
    }
    NonNegativeMean(c, Accuracy, rows);
    if forall i :: 0 <= i < |rows| ==> CallsIt(rows[i]) {
      AlikeMean(c, Accuracy, rows, 1.0);
    }
    if i :| 0 <= i < |rows| && CallsIt(rows[i]) {
      assert Measure(c, Accuracy, rows[i]) > 0.0;
    }
  }

  lemma PositiveSquare(square: real, x: real, y: real)
    requires x > 0.0 && y > 0.0 && square == x * y
    ensures square > 0.0
  {
  }

  lemma SquareSign(square: real, x: real)
    requires square == x * x
    ensures square >= 0.0
    ensures square > 0.0 <==> x != 0.0
  {
    if x > 0.0 {
      PositiveSquare(square, x, x);
    } else if x < 0.0 {
      PositiveSquare(square, -x, -x);
    } else {
      assert square == 0.0 * 0.0;
    }
  }

  lemma BrierOfRow(c: Config, row: ValueRow)
    ensures Measure(c, Brier, row) >= 0.0
    ensures Measure(c, Brier, row) > 0.0 <==> row.predicted != row.target as real
  {
    var x, m := Probability(row) - Target(row), Measure(c, Brier, row);
    assert m == x * x;
    assert x == (row.predicted - row.target as real) / 2.0;
    SquareSign(m, x);
    assert x != 0.0 <==> row.predicted != row.target as real;
  }

  /** The Brier score is never negative and vanishes exactly when every prediction is its target. */
  lemma BrierMeans(c: Config, rows: seq<ValueRow>)
    requires rows != []
    ensures AggregateValue(c, rows).brier.Some? && AggregateValue(c, rows).brier.value >= 0.0
    ensures AggregateValue(c, rows).brier.value == 0.0 <==>
              forall i :: 0 <= i < |rows| ==> rows[i].predicted == rows[i].target as real
  {
    forall i | 0 <= i < |rows|
      ensures Measure(c, Brier, rows[i]) >= 0.0
      ensures Measure(c, Brier, rows[i]) > 0.0 <==> rows[i].predicted != rows[i].target as real
    {
      BrierOfRow(c, rows[i]);
    }
    NonNegativeMean(c, Brier, rows);
    if i :| 0 <= i < |rows| && rows[i].predicted != rows[i].target as real {
      assert Measure(c, Brier, rows[i]) > 0.0;
    }
  }

  /** Every row has the given target and prediction. */
  predicate Alike(rows: seq<ValueRow>, target: int, predicted: real) {
    rows != [] && forall i :: 0 <= i < |rows| ==> rows[i].target == target && rows[i].predicted == predicted
  }

  /** Half the distance between prediction and target, which lie in [-1, 1]. */
  function Miss(target: int, predicted: real): real {
    Abs(predicted - target as real) / 2.0
  }

  lemma HalfDistance(target: int, predicted: real)
    ensures (predicted + 1.0) / 2.0 - (target as real + 1.0) / 2.0 == (predicted - target as real) / 2.0
    ensures Abs((predicted - target as real) / 2.0) == Miss(target, predicted)
    ensures (predicted - target as real) / 2.0 * ((predicted - target as real) / 2.0)
         == Miss(target, predicted) * Miss(target, predicted)
  {
    var x := predicted - target as real;
    if x < 0.0 {
      assert -x / 2.0 == -(x / 2.0);
      assert (x / 2.0) * (x / 2.0) == (-(x / 2.0)) * (-(x / 2.0));
    }
  }

  /** Rows alike in target and prediction: the Brier score is the squared miss, the calibration
      error the miss, and saturation tells whether the prediction reaches the threshold. */
  lemma AlikeMeans(c: Config, rows: seq<ValueRow>, target: int, predicted: real)
    requires c.bins > 0 && Alike(rows, target, predicted) && forall i :: 0 <= i < |rows| ==> rows[i].Valid()
    ensures var m := AggregateValue(c, rows);
            && m.brier == Some(Miss(target, predicted) * Miss(target, predicted))
            && m.calibrationError == Some(Miss(target, predicted))
            && m.saturation == Some(if predicted >= c.threshold || predicted <= -c.threshold then 1.0 else 0.0)
  {
    hide RowMean, Miss, BinError, Abs, Bin;
    AlikeBrier(c, rows, target, predicted);
    AlikeSaturation(c, rows, target, predicted);
    var home := Bin(c.bins, rows[0]);
    BinInRange(c.bins, rows[0]);
    forall b | 0 <= b < c.bins ensures BinErrors(c, rows)[b] == if b == home then Miss(target, predicted) else 0.0 {
      AlikeBin(c, rows, target, predicted, b);
    }
    TotalSingle(BinErrors(c, rows), home);
  }

  lemma AlikeBrier(c: Config, rows: seq<ValueRow>, target: int, predicted: real)
    requires Alike(rows, target, predicted)
    ensures RowMean(c, Brier, rows) == Miss(target, predicted) * Miss(target, predicted)
  {
    hide RowMean;
    HalfDistance(target, predicted);
    AlikeMean(c, Brier, rows, Miss(target, predicted) * Miss(target, predicted));
  }

  lemma AlikeSaturation(c: Config, rows: seq<ValueRow>, target: int, predicted: real)
    requires Alike(rows, target, predicted)
    ensures RowMean(c, Saturation, rows) == if predicted >= c.threshold || predicted <= -c.threshold then 1.0 else 0.0
  {
    hide RowMean;
    AlikeMean(c, Saturation, rows, if predicted >= c.threshold || predicted <= -c.threshold then 1.0 else 0.0);
  }

  lemma AlikeBin(c: Config, rows: seq<ValueRow>, target: int, predicted: real, b: nat)
    requires b < c.bins && Alike(rows, target, predicted)
    ensures BinErrors(c, rows)[b] == if b == Bin(c.bins, rows[0]) then Miss(target, predicted) else 0.0
  {
    hide RowMean;
    var here := b == Bin(c.bins, rows[0]);
    HalfDistance(target, predicted);
    forall i | 0 <= i < |rows|
      ensures Measure(c, Residual(b), rows[i]) == if here then (predicted - target as real) / 2.0 else 0.0
    {
      assert Bin(c.bins, rows[i]) == Bin(c.bins, rows[0]);
    }
    AlikeMean(c, Residual(b), rows, if here then (predicted - target as real) / 2.0 else 0.0);
    BinErrorIsResidual(c, rows, b);
  }

  /** The predicted win probability, kept away from 0 and 1. */
  function KeptInside(p: real): real {
    if p < 0.000000000000001 then 0.000000000000001
    else if p > 0.999999999999999 then 0.999999999999999
    else p
  }

  function LossOf(target: int, won: real, lost: real): real {
    if target == 1 then -won else if target == -1 then -lost else (-won - lost) / 2.0
  }

  /** The log loss of rows alike: of wins the negative logarithm of the win probability, of losses
      that of its complement, of draws the mean of the two. */
  lemma LogLossMeans(c: Config, rows: seq<ValueRow>, target: int, predicted: real)
    requires Alike(rows, target, predicted) && -1 <= target <= 1
    ensures var p := KeptInside((predicted + 1.0) / 2.0);
            AggregateValue(c, rows).logLoss == Some(LossOf(target, c.log(p), c.log1p(-p)))
  {
    hide RowMean, BinErrors, KeptInside, LossOf;
    AlikeLoss(c, rows, target, predicted);
  }

  lemma AlikeLoss(c: Config, rows: seq<ValueRow>, target: int, predicted: real)
    requires Alike(rows, target, predicted) && -1 <= target <= 1
    ensures var p := KeptInside((predicted + 1.0) / 2.0);
            RowMean(c, LogLoss, rows) == LossOf(target, c.log(p), c.log1p(-p))
  {
    hide RowMean, Measure, LossOf, KeptInside;
    var p := KeptInside((predicted + 1.0) / 2.0);
    var loss := LossOf(target, c.log(p), c.log1p(-p));
    forall i | 0 <= i < |rows| ensures Measure(c, LogLoss, rows[i]) == loss {
      LossOfRow(c, rows[i]);
    }
    AlikeMean(c, LogLoss, rows, loss);
  }

  lemma LossOfRow(c: Config, row: ValueRow)
    requires -1 <= row.target <= 1
    ensures var p := KeptInside((row.predicted + 1.0) / 2.0);
            Measure(c, LogLoss, row) == LossOf(row.target, c.log(p), c.log1p(-p))
  {
    var p := KeptInside((row.predicted + 1.0) / 2.0);
    assert Clipped(row) == p;
    LossArithmetic(row.target, c.log(p), c.log1p(-p));
  }

  lemma LossArithmetic(target: int, won: real, lost: real)
    requires -1 <= target <= 1
    ensures var t := (target as real + 1.0) / 2.0;
            -(t * won + (1.0 - t) * lost) == LossOf(target, won, lost)
  {
  }

  /** Bin b holds the probabilities from b / bins up to, but not including, (b + 1) / bins; the last
      bin also holds 1. */
  lemma BinMeans(bins: nat, row: ValueRow, b: nat)
    requires bins > 0 && row.Valid() && b < bins
    ensures var p := (row.predicted + 1.0) / 2.0;
            Bin(bins, row) == b <==>
              b as real <= p * bins as real && (p * bins as real < (b + 1) as real || b == bins - 1)
  {
    BinInRange(bins, row);
  }

  /** A row weighs in its own bin and in no other. */
  lemma InBinMeans(c: Config, row: ValueRow, b: nat)
    ensures Measure(c, InBin(b), row) == if Bin(c.bins, row) == b then 1.0 else 0.0
  {
  }
}

/** Policy-head diagnostics: the batch computation over all rows, and the
    accumulator that keeps running means per game. */
module PolicyMetrics {
  import opened Common
  import opened GameEqual
  import opened PolicyMeasure

  /** A measured row, stripped of its candidate arrays. */
  datatype Measured = Measured(game: string, candidates: nat, decision: Decision)

  datatype Field = CrossEntropy | Top1 | TopK | Pairwise | Entropy | Overturn | QVariance

  function Get(d: Decision, f: Field): Option<real> {
    match f
    case CrossEntropy => Some(d.crossEntropy)
    case Top1 => Some(d.top1)
    case TopK => Some(d.topk)
    case Pairwise => d.pairwise
    case Entropy => Some(d.entropy)
    case Overturn => d.overturn
    case QVariance => d.qVariance
  }

  datatype Metrics = Metrics(count: nat, gameCount: nat, multiCandidate: nat, pairwiseCount: nat,
                             pairwiseGames: nat, crossEntropy: Option<real>, top1: Option<real>,
                             topk: Option<real>, pairwise: Option<real>, entropy: Option<real>,
                             overturn: Option<real>, qVariance: Option<real>)

  // The batch computation

  /** The rows that have field f. */
  function Available(rows: seq<Measured>, f: Field): seq<Sample> {
    if rows == [] then []
    else
      var last := rows[|rows| - 1];
      Available(rows[..|rows| - 1], f)
      + match Get(last.decision, f) { case None => [] case Some(v) => [Sample(last.game, v)] }
  }

  /** Game-equal mean over the rows that have the field; null when none has. */
  function Average(rows: seq<Measured>, f: Field): Option<real> {
    var s := Available(rows, f);
    if s == [] then None else Some(WeightedTotal(s, Weights(s)))
  }

  function MultiCandidate(rows: seq<Measured>): nat {
    if rows == [] then 0
    else MultiCandidate(rows[..|rows| - 1]) + if rows[|rows| - 1].candidates > 1 then 1 else 0
  }

  function AggregatePolicy(rows: seq<Measured>): Metrics {
    Metrics(|rows|, |set r | r in rows :: r.game|, MultiCandidate(rows),
            |Available(rows, Pairwise)|, |Games(Available(rows, Pairwise))|,
            Average(rows, CrossEntropy), Average(rows, Top1), Average(rows, TopK), Average(rows, Pairwise),
            Average(rows, Entropy), Average(rows, Overturn), Average(rows, QVariance))
  }

  lemma AvailableSnoc(rows: seq<Measured>, row: Measured, f: Field)
    ensures Available(rows + [row], f) == Available(rows, f)
              + match Get(row.decision, f) { case None => [] case Some(v) => [Sample(row.game, v)] }
  {
    assert (rows + [row])[..|rows|] == rows;
  }

  lemma {:induction false} AvailableGames(rows: seq<Measured>, f: Field)
    ensures Games(Available(rows, f)) <= set r | r in rows :: r.game
    ensures (forall r :: r in rows ==> Get(r.decision, f).Some?) ==>
              Games(Available(rows, f)) == set r | r in rows :: r.game
  {
    if rows != [] {
      var init, last := rows[..|rows| - 1], rows[|rows| - 1];
      assert rows == init + [last];
      AvailableGames(init, f);
      AvailableSnoc(init, last, f);
      assert (set r | r in rows :: r.game) == (set r | r in init :: r.game) + {last.game};
      if Get(last.decision, f).Some? {
        Snoc(Available(init, f), Sample(last.game, Get(last.decision, f).value), "");
      }
    }
  }

  // The accumulator

  datatype RunningMean = RunningMean(total: real, count: nat) {
    function Add(v: Option<real>): RunningMean {
      match v
      case None => this
      case Some(x) => RunningMean(total + x, count + 1)
    }

    function Compute(): Option<real> {
      if count == 0 then None else Some(MeanOver(total, count))
    }
  }

  const NO_MEAN := RunningMean(0.0, 0)

  /** The seven running means of one game. */
  datatype GameMetrics = GameMetrics(crossEntropy: RunningMean, top1: RunningMean, topk: RunningMean,
                                     pairwise: RunningMean, entropy: RunningMean, overturn: RunningMean,
                                     qVariance: RunningMean)
  {
    function Mean(f: Field): RunningMean {
      match f
      case CrossEntropy => crossEntropy
      case Top1 => top1
      case TopK => topk
      case Pairwise => pairwise
      case Entropy => entropy
      case Overturn => overturn
      case QVariance => qVariance
    }

    function Add(d: Decision): (m: GameMetrics)
      ensures forall f :: m.Mean(f) == Mean(f).Add(Get(d, f))
    {
      GameMetrics(crossEntropy.Add(Some(d.crossEntropy)), top1.Add(Some(d.top1)), topk.Add(Some(d.topk)),
                  pairwise.Add(d.pairwise), entropy.Add(Some(d.entropy)), overturn.Add(d.overturn),
                  qVariance.Add(d.qVariance))
    }
  }

  const EMPTY_GAME := GameMetrics(NO_MEAN, NO_MEAN, NO_MEAN, NO_MEAN, NO_MEAN, NO_MEAN, NO_MEAN)

  /** m holds game g's running means over rows. */
  ghost predicate Summarizes(m: GameMetrics, rows: seq<Measured>, g: string) {
    forall f :: m.Mean(f) == RunningMean(GroupTotal(Available(rows, f), g), GroupCount(Available(rows, f), g))
  }

  lemma {:induction false} NothingOfGame(rows: seq<Measured>, g: string)
    requires forall r :: r in rows ==> r.game != g
    ensures Summarizes(EMPTY_GAME, rows, g)
  {
    if rows != [] {
      var init, last := rows[..|rows| - 1], rows[|rows| - 1];
      assert last in rows && init + [last] == rows;
      NothingOfGame(init, g);
      RowAdded(EMPTY_GAME, init, last, g);
    }
  }

  lemma MeanAdded(rows: seq<Measured>, row: Measured, f: Field, g: string)
    ensures var mean := RunningMean(GroupTotal(Available(rows, f), g), GroupCount(Available(rows, f), g));
            RunningMean(GroupTotal(Available(rows + [row], f), g), GroupCount(Available(rows + [row], f), g))
            == if g == row.game then mean.Add(Get(row.decision, f)) else mean
  {
    AvailableSnoc(rows, row, f);
    match Get(row.decision, f)
    case None => assert Available(rows, f) + [] == Available(rows, f);
    case Some(v) => Snoc(Available(rows, f), Sample(row.game, v), g);
  }

  lemma RowAdded(m: GameMetrics, rows: seq<Measured>, row: Measured, g: string)
    requires Summarizes(m, rows, g)
    ensures Summarizes(if g == row.game then m.Add(row.decision) else m, rows + [row], g)
  {
    forall f {
      MeanAdded(rows, row, f, g);
    }
  }

  lemma RowsAdded(games: map<string, GameMetrics>, game: GameMetrics, rows: seq<Measured>, row: Measured)
    requires forall g :: g in games ==> Summarizes(games[g], rows, g)
    requires Summarizes(game, rows, row.game)
    ensures var games' := games[row.game := game.Add(row.decision)];
            forall g :: g in games' ==> Summarizes(games'[g], rows + [row], g)
    ensures MultiCandidate(rows + [row]) == MultiCandidate(rows) + if row.candidates > 1 then 1 else 0
    ensures (set r | r in rows + [row] :: r.game) == (set r | r in rows :: r.game) + {row.game}
  {
    assert (rows + [row])[..|rows|] == rows;
    forall g | g in games || g == row.game
      ensures Summarizes(games[row.game := game.Add(row.decision)][g], rows + [row], g)
    {
      RowAdded(if g == row.game then game else games[g], rows, row, g);
    }
  }

  /** The per-game means of field f, for the games that have it, in dictionary order. */
  function GameMeans(order: seq<string>, games: map<string, GameMetrics>, f: Field): seq<real>
    requires forall g :: g in order ==> g in games
  {
    if order == [] then []
    else
      GameMeans(order[..|order| - 1], games, f)
      + match games[order[|order| - 1]].Mean(f).Compute() { case None => [] case Some(v) => [v] }
  }

  /** The games that have a sample, in dictionary order. */
  ghost function GamesWith(order: seq<string>, s: seq<Sample>): seq<string> {
    if order == [] then []
    else
      GamesWith(order[..|order| - 1], s)
      + if GroupCount(s, order[|order| - 1]) > 0 then [order[|order| - 1]] else []
  }

  lemma {:induction false} GamesWithLists(order: seq<string>, s: seq<Sample>)
    requires NoDuplicates(order)
    ensures NoDuplicates(GamesWith(order, s))
    ensures forall g :: g in GamesWith(order, s) <==> g in order && GroupCount(s, g) > 0
  {
    if order != [] {
      var init, last := order[..|order| - 1], order[|order| - 1];
      assert forall g :: g in order <==> g in init || g == last;
      assert last !in init;
      GamesWithLists(init, s);
    }
  }

  ghost function MeansOf(order: seq<string>, s: seq<Sample>): seq<real> {
    if order == [] then []
    else
      var g := order[|order| - 1];
      MeansOf(order[..|order| - 1], s) + [MeanOver(GroupTotal(s, g), GroupCount(s, g))]
  }

  lemma {:induction false} MeansOfTotal(order: seq<string>, s: seq<Sample>)
    ensures |MeansOf(order, s)| == |order| && Total(MeansOf(order, s)) == TotalOfMeans(order, s)
  {
    if order != [] {
      MeansOfTotal(order[..|order| - 1], s);
      assert MeansOf(order, s)[..|order| - 1] == MeansOf(order[..|order| - 1], s);
    }
  }

  lemma {:induction false} GameMeansAreExact(order: seq<string>, games: map<string, GameMetrics>, f: Field,
                                             s: seq<Sample>)
    requires forall g :: g in order ==>
              g in games && games[g].Mean(f) == RunningMean(GroupTotal(s, g), GroupCount(s, g))
    ensures GameMeans(order, games, f) == MeansOf(GamesWith(order, s), s)
  {
    if order != [] {
      var init, g := order[..|order| - 1], order[|order| - 1];
      assert g in order;
      GameMeansAreExact(init, games, f, s);
      var before := GamesWith(init, s);
      if GroupCount(s, g) > 0 {
        assert GamesWith(order, s) == before + [g] && (before + [g])[..|before|] == before;
      } else {
        assert GamesWith(order, s) == before && GameMeans(order, games, f) == GameMeans(init, games, f);
      }
    }
  }

  function PairwiseCounts(order: seq<string>, games: map<string, GameMetrics>): nat
    requires forall g :: g in order ==> g in games
  {
    if order == [] then 0
    else PairwiseCounts(order[..|order| - 1], games) + games[order[|order| - 1]].pairwise.count
  }

  function PairwiseGames(order: seq<string>, games: map<string, GameMetrics>): nat
    requires forall g :: g in order ==> g in games
  {
    if order == [] then 0
    else PairwiseGames(order[..|order| - 1], games) + if games[order[|order| - 1]].pairwise.count > 0 then 1 else 0
  }

  lemma {:induction false} PairwiseCountsAreExact(order: seq<string>, games: map<string, GameMetrics>,
                                                  rows: seq<Measured>)
    requires NoDuplicates(order)
    requires forall g :: g in order ==> g in games && Summarizes(games[g], rows, g)
    ensures PairwiseCounts(order, games) == TotalCount(order, Available(rows, Pairwise))
    ensures PairwiseGames(order, games) == |GamesWith(order, Available(rows, Pairwise))|
  {
    if order != [] {
      var g := order[|order| - 1];
      assert g in order;
      PairwiseCountsAreExact(order[..|order| - 1], games, rows);
      assert games[g].Mean(Pairwise).count == GroupCount(Available(rows, Pairwise), g);
    }
  }

  /** Bounded-memory policy metrics: seven running means per game. */
  class PolicyAggregate {
    var count: nat
    var multiCandidate: nat
    var order: seq<string>  // keys of the games dictionary, oldest first
    var games: map<string, GameMetrics>
    ghost var rows: seq<Measured>  // every row added so far

    ghost predicate Valid()
      reads this
    {
      && count == |rows|
      && multiCandidate == MultiCandidate(rows)
      && NoDuplicates(order)
      && (forall g :: g in order <==> g in set r | r in rows :: r.game)
      && (forall g :: g in order <==> g in games)
      && forall g :: g in games ==> Summarizes(games[g], rows, g)
    }

    constructor ()
      ensures Valid() && rows == []
    {
      count, multiCandidate, order, games, rows := 0, 0, [], map[], [];
    }

    method Add(row: Measured)
      requires Valid()
      modifies this
      ensures Valid() && rows == old(rows) + [row]
    {
      var game := EMPTY_GAME;
      if row.game in games {
        game := games[row.game];
      } else {
        NothingOfGame(rows, row.game);
        order := order + [row.game];
      }
      count := count + 1;
      multiCandidate := multiCandidate + if row.candidates > 1 then 1 else 0;
      games := games[row.game := game.Add(row.decision)];

      RowsAdded(old(games), game, rows, row);
      rows := rows + [row];
    }

    /** Mean over the games that have the field of their per-game means. */
    function GameEqualAverage(f: Field): (r: Option<real>)
      requires Valid()
      reads this
      ensures r == Average(rows, f)
    {
      var means := GameMeans(order, games, f);
      AverageIsExact(f);
      if means == [] then None else Some(Total(means) / |means| as real)
    }

    lemma AverageIsExact(f: Field)
      requires Valid()
      ensures var means := GameMeans(order, games, f);
              Average(rows, f) == if means == [] then None else Some(Total(means) / |means| as real)
    {
      var s := Available(rows, f);
      GameMeansAreExact(order, games, f, s);
      MeansOfTotal(GamesWith(order, s), s);
      AvailableGames(rows, f);
      GamesWithLists(order, s);
      forall g ensures g in GamesWith(order, s) <==> g in Games(s) {
        GroupCountPositive(s, g);
      }
      DistinctLength(GamesWith(order, s), Games(s));
      if s != [] {
        MeanOfMeans(GamesWith(order, s), s);
      } else {
        assert Games(s) == {};
      }
    }

    lemma CountsAreExact()
      requires Valid()
      ensures |order| == |set r | r in rows :: r.game|
      ensures PairwiseCounts(order, games) == |Available(rows, Pairwise)|
      ensures PairwiseGames(order, games) == |Games(Available(rows, Pairwise))|
    {
      var s := Available(rows, Pairwise);
      DistinctLength(order, set r | r in rows :: r.game);
      PairwiseCountsAreExact(order, games, rows);
      AvailableGames(rows, Pairwise);
      forall x | x in s ensures x.game in order {
        assert x.game in Games(s);
      }
      CountsAddUp(order, s);
      GamesWithLists(order, s);
      forall g ensures g in GamesWith(order, s) <==> g in Games(s) {
        GroupCountPositive(s, g);
      }
      DistinctLength(GamesWith(order, s), Games(s));
    }

    /** The accumulator reproduces the batch metrics of all rows added so far. */
    method Compute() returns (m: Metrics)
      requires Valid()
      ensures m == AggregatePolicy(rows)
    {
      CountsAreExact();
      m := Metrics(count, |order|, multiCandidate, PairwiseCounts(order, games), PairwiseGames(order, games),
                   GameEqualAverage(CrossEntropy), GameEqualAverage(Top1), GameEqualAverage(TopK),
                   GameEqualAverage(Pairwise), GameEqualAverage(Entropy), GameEqualAverage(Overturn),
                   GameEqualAverage(QVariance));
    }
  }

  // What the averages mean

  lemma {:induction false} AvailableOfConstant(rows: seq<Measured>, f: Field, v: real)
    requires forall i :: 0 <= i < |rows| && Get(rows[i].decision, f).Some? ==> Get(rows[i].decision, f).value == v
    ensures forall i :: 0 <= i < |Available(rows, f)| ==> Available(rows, f)[i].value == v
  {
    hide Get;
    if rows != [] {
      AvailableOfConstant(rows[..|rows| - 1], f, v);
    }
  }

  lemma {:induction false} SomeAvailable(rows: seq<Measured>, f: Field, i: nat)
    requires i < |rows| && Get(rows[i].decision, f).Some?
    ensures Available(rows, f) != []
  {
    hide Get;
    if i < |rows| - 1 {
      SomeAvailable(rows[..|rows| - 1], f, i);
    }
  }

  lemma {:induction false} NoneAvailable(rows: seq<Measured>, f: Field)
    requires forall i :: 0 <= i < |rows| ==> Get(rows[i].decision, f).None?
    ensures Available(rows, f) == []
  {
    hide Get;
    if rows != [] {
      NoneAvailable(rows[..|rows| - 1], f);
    }
  }

  lemma AverageOfConstant(rows: seq<Measured>, f: Field, v: Option<real>)
    requires rows != [] && forall i :: 0 <= i < |rows| ==> Get(rows[i].decision, f) == v
    ensures Average(rows, f) == v
  {
    var x := if v.Some? then v.value else 0.0;
    AvailableOfConstant(rows, f, x);
    if v.None? {
      NoneAvailable(rows, f);
    } else {
      SomeAvailable(rows, f, 0);
      ConstantMean(Available(rows, f), x);
    }
  }

  /** Rows that were all measured alike average to that measurement, field by field. */
  lemma AlikeMeans(rows: seq<Measured>, d: Decision)
    requires rows != [] && forall i :: 0 <= i < |rows| ==> rows[i].decision == d
    ensures var m := AggregatePolicy(rows);
            && m.crossEntropy == Some(d.crossEntropy) && m.top1 == Some(d.top1) && m.topk == Some(d.topk)
            && m.pairwise == d.pairwise && m.entropy == Some(d.entropy) && m.overturn == d.overturn
            && m.qVariance == d.qVariance
  {
    hide Average;
    AverageOfConstant(rows, CrossEntropy, Some(d.crossEntropy));
    AverageOfConstant(rows, Top1, Some(d.top1));
    AverageOfConstant(rows, TopK, Some(d.topk));
    AverageOfConstant(rows, Pairwise, d.pairwise);
    AverageOfConstant(rows, Entropy, Some(d.entropy));
    AverageOfConstant(rows, Overturn, d.overturn);
    AverageOfConstant(rows, QVariance, d.qVariance);
  }

  predicate Informative(row: Measured) {
    row.decision.pairwise.Some?
  }

  predicate SeveralCandidates(row: Measured) {
    row.candidates >= 2
  }

  /** How many rows satisfy a test. */
  function Tally(rows: seq<Measured>, test: Measured -> bool): nat {
    if rows == [] then 0 else Tally(rows[..|rows| - 1], test) + if test(rows[|rows| - 1]) then 1 else 0
  }

  /** The counts: all rows, those with several candidates, those with a pairwise accuracy, and the
      games of all rows and of the informative ones. */
  lemma {:induction false} CountsMean(rows: seq<Measured>)
    ensures var m := AggregatePolicy(rows);
            && m.count == |rows| && m.multiCandidate == Tally(rows, SeveralCandidates)
            && m.pairwiseCount == Tally(rows, Informative)
            && m.gameCount == |set i | 0 <= i < |rows| :: rows[i].game|
            && m.pairwiseGames == |set i | 0 <= i < |rows| && rows[i].decision.pairwise.Some? :: rows[i].game|
  {
    hide Games, Available, Average;
    assert (set r | r in rows :: r.game) == set i | 0 <= i < |rows| :: rows[i].game;
    TalliesMean(rows);
    forall g ensures g in Games(Available(rows, Pairwise)) <==> HasInformative(rows, g) {
      InformativeGame(rows, g);
    }
    assert Games(Available(rows, Pairwise))
        == set i | 0 <= i < |rows| && rows[i].decision.pairwise.Some? :: rows[i].game;
  }

  lemma {:induction false} TalliesMean(rows: seq<Measured>)
    ensures MultiCandidate(rows) == Tally(rows, SeveralCandidates)
    ensures |Available(rows, Pairwise)| == Tally(rows, Informative)
  {
    if rows != [] {
      TalliesMean(rows[..|rows| - 1]);
    }
  }

  ghost predicate HasInformative(rows: seq<Measured>, g: string) {
    exists i :: 0 <= i < |rows| && rows[i].decision.pairwise.Some? && rows[i].game == g
  }

  lemma NoGames()
    ensures Games(Available([], Pairwise)) == {}
  {
  }

  lemma PairwiseGamesSnoc(rows: seq<Measured>)
    requires rows != []
    ensures var last := rows[|rows| - 1];
            Games(Available(rows, Pairwise))
            == Games(Available(rows[..|rows| - 1], Pairwise)) + if last.decision.pairwise.Some? then {last.game} else {}
  {
    hide Games;
    var last, before := rows[|rows| - 1], Available(rows[..|rows| - 1], Pairwise);
    if last.decision.pairwise.Some? {
      Snoc(before, Sample(last.game, last.decision.pairwise.value), "");
    } else {
      assert before + [] == before;
    }
  }

  lemma {:induction false} InformativeGame(rows: seq<Measured>, g: string)
    ensures g in Games(Available(rows, Pairwise)) <==> HasInformative(rows, g)
  {
    hide Games, Available;
    if rows == [] {
      NoGames();
    } else {
      var n := |rows| - 1;
      var before, last := rows[..n], rows[n];
      InformativeGame(before, g);
      if HasInformative(before, g) {
        var i :| 0 <= i < n && before[i].decision.pairwise.Some? && before[i].game == g;
        assert rows[i] == before[i];
      }
      if HasInformative(rows, g) {
        var i :| 0 <= i < |rows| && rows[i].decision.pairwise.Some? && rows[i].game == g;
        assert i < n ==> before[i] == rows[i];
      }
      PairwiseGamesSnoc(rows);
    }
  }
}

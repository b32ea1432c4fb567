/** Paired evidence for each search boundary, and the separation-based selection among them. */
module BoundaryRanking {
  import opened Common

  datatype Side = Red | Blue

  datatype Observation = Observation(boundary: nat, seed: int, side: Side, score: real, completed: bool)

  // Paired evidence

  /** The last score recorded for a boundary, seed and side. */
  function LastScore(rows: seq<Observation>, boundary: nat, seed: int, side: Side): Option<real> {
    if rows == [] then None
    else
      var last := rows[|rows| - 1];
      if last.boundary == boundary && last.seed == seed && last.side == side then Some(last.score)
      else LastScore(rows[..|rows| - 1], boundary, seed, side)
  }

  predicate BothSides(rows: seq<Observation>, boundary: nat, seed: int) {
    LastScore(rows, boundary, seed, Red).Some? && LastScore(rows, boundary, seed, Blue).Some?
  }

  function PairScore(rows: seq<Observation>, boundary: nat, seed: int): real
    requires BothSides(rows, boundary, seed)
  {
    (LastScore(rows, boundary, seed, Red).value + LastScore(rows, boundary, seed, Blue).value) / 2.0
  }

  function Average(values: seq<real>): Option<real> {
    if values == [] then None else Some(Total(values) / |values| as real)
  }

  ghost predicate UnitScores(rows: seq<Observation>) {
    forall i :: 0 <= i < |rows| ==> 0.0 <= rows[i].score <= 1.0
  }

  lemma {:induction false} LastScoreInRange(rows: seq<Observation>, boundary: nat, seed: int, side: Side)
    requires UnitScores(rows)
    ensures LastScore(rows, boundary, seed, side).Some? ==> 0.0 <= LastScore(rows, boundary, seed, side).value <= 1.0
  {
    if rows != [] {
      LastScoreInRange(rows[..|rows| - 1], boundary, seed, side);
    }
  }

  datatype Scores = Scores(red: Option<real>, blue: Option<real>) {
    function At(side: Side): Option<real> {
      if side.Red? then red else blue
    }

    function With(side: Side, score: real): Scores {
      if side.Red? then this.(red := Some(score)) else this.(blue := Some(score))
    }
  }

  predicate Distinct(s: seq<int>) {
    forall i, j :: 0 <= i < j < |s| ==> s[i] != s[j]
  }

  lemma DistinctSnoc(s: seq<int>, x: int)
    requires Distinct(s) && x !in s
    ensures Distinct(s + [x])
  {
  }

  /** The table of scores by seed, and its seeds in order of appearance. */
  ghost predicate Tabulates(rows: seq<Observation>, boundary: nat, bySeed: map<int, Scores>, seeds: seq<int>) {
    && (forall seed :: seed in seeds <==> seed in bySeed)
    && Distinct(seeds)
    && (forall seed, side :: LastScore(rows, boundary, seed, side)
                          == if seed in bySeed then bySeed[seed].At(side) else None)
  }

  lemma TabulateSnoc(rows: seq<Observation>, boundary: nat, bySeed: map<int, Scores>, seeds: seq<int>, row: Observation)
    requires Tabulates(rows, boundary, bySeed, seeds)
    ensures row.boundary != boundary ==> Tabulates(rows + [row], boundary, bySeed, seeds)
    ensures row.boundary == boundary ==>
              var before := if row.seed in bySeed then bySeed[row.seed] else Scores(None, None);
              Tabulates(rows + [row], boundary, bySeed[row.seed := before.With(row.side, row.score)],
                        if row.seed in bySeed then seeds else seeds + [row.seed])
  {
    assert (rows + [row])[..|rows|] == rows;
    if row.boundary == boundary {
      var before := if row.seed in bySeed then bySeed[row.seed] else Scores(None, None);
      var after := bySeed[row.seed := before.With(row.side, row.score)];
      forall seed, side
        ensures LastScore(rows + [row], boundary, seed, side) == if seed in after then after[seed].At(side) else None
      {
        assert LastScore(rows, boundary, seed, side) == if seed in bySeed then bySeed[seed].At(side) else None;
      }
    }
  }

  /** The mean over the seeds played from both sides of the average of the two scores. */
  method MeanPairedScore(rows: seq<Observation>, boundary: nat) returns (mean: Option<real>, ghost paired: seq<int>)
    ensures Distinct(paired)
    ensures forall seed :: seed in paired <==> BothSides(rows, boundary, seed)
    ensures mean == Average(PairScores(rows, boundary, paired))
    ensures UnitScores(rows) && mean.Some? ==> 0.0 <= mean.value <= 1.0
  {
    var bySeed: map<int, Scores>, seeds: seq<int> := map[], [];
    for i := 0 to |rows|
      invariant Tabulates(rows[..i], boundary, bySeed, seeds)
    {
      var row := rows[i];
      assert rows[..i + 1] == rows[..i] + [row];
      TabulateSnoc(rows[..i], boundary, bySeed, seeds, row);
      if row.boundary == boundary {
        var before := if row.seed in bySeed then bySeed[row.seed] else Scores(None, None);
        if row.seed !in bySeed {
          seeds := seeds + [row.seed];
        }
        bySeed := bySeed[row.seed := before.With(row.side, row.score)];
      }
    }
    assert rows[..|rows|] == rows;
    mean, paired := CollectPairs(rows, boundary, bySeed, seeds);
  }

  /** Average the seeds that have both sides. */
  method CollectPairs(ghost rows: seq<Observation>, ghost boundary: nat, bySeed: map<int, Scores>, seeds: seq<int>)
    returns (mean: Option<real>, ghost paired: seq<int>)
    requires Tabulates(rows, boundary, bySeed, seeds)
    ensures Distinct(paired)
    ensures forall seed :: seed in paired <==> BothSides(rows, boundary, seed)
    ensures mean == Average(PairScores(rows, boundary, paired))
    ensures UnitScores(rows) && mean.Some? ==> 0.0 <= mean.value <= 1.0
  {
    var pairs: seq<real> := [];
    paired := [];
    for k := 0 to |seeds|
      invariant forall seed :: seed in paired <==> seed in seeds[..k] && BothSides(rows, boundary, seed)
      invariant Distinct(paired)
      invariant pairs == PairScores(rows, boundary, paired)
    {
      var seed := seeds[k];
      assert seed in seeds && seeds[..k + 1] == seeds[..k] + [seed];
      assert bySeed[seed].At(Red) == LastScore(rows, boundary, seed, Red);
      assert bySeed[seed].At(Blue) == LastScore(rows, boundary, seed, Blue);
      if bySeed[seed].red.Some? && bySeed[seed].blue.Some? {
        pairs := pairs + [(bySeed[seed].red.value + bySeed[seed].blue.value) / 2.0];
        assert (paired + [seed])[..|paired|] == paired;
        assert seed !in seeds[..k];
        DistinctSnoc(paired, seed);
        paired := paired + [seed];
      }
    }
    assert seeds[..|seeds|] == seeds;
    AllPaired(rows, boundary, bySeed, seeds, paired);
    mean := Average(pairs);
    if UnitScores(rows) && pairs != [] {
      PairScoresInRange(rows, boundary, paired);
      TotalInRange(pairs);
      UnitQuotient(Total(pairs), |pairs|);
    }
  }

  lemma AllPaired(rows: seq<Observation>, boundary: nat, bySeed: map<int, Scores>, seeds: seq<int>, paired: seq<int>)
    requires Tabulates(rows, boundary, bySeed, seeds)
    requires forall seed :: seed in paired <==> seed in seeds && BothSides(rows, boundary, seed)
    ensures forall seed :: seed in paired <==> BothSides(rows, boundary, seed)
  {
    forall seed | BothSides(rows, boundary, seed) ensures seed in seeds {
      assert LastScore(rows, boundary, seed, Red).Some?;
    }
  }

  ghost function PairScores(rows: seq<Observation>, boundary: nat, seeds: seq<int>): seq<real> {
    if seeds == [] then []
    else
      var seed := seeds[|seeds| - 1];
      PairScores(rows, boundary, seeds[..|seeds| - 1])
      + if BothSides(rows, boundary, seed) then [PairScore(rows, boundary, seed)] else []
  }

  lemma {:induction false} PairScoresInRange(rows: seq<Observation>, boundary: nat, seeds: seq<int>)
    requires UnitScores(rows)
    ensures forall i :: 0 <= i < |PairScores(rows, boundary, seeds)| ==>
              0.0 <= PairScores(rows, boundary, seeds)[i] <= 1.0
  {
    if seeds != [] {
      PairScoresInRange(rows, boundary, seeds[..|seeds| - 1]);
      LastScoreInRange(rows, boundary, seeds[|seeds| - 1], Red);
      LastScoreInRange(rows, boundary, seeds[|seeds| - 1], Blue);
    }
  }

  // Ranking

  /** A measured boundary; the gates decide whether it is eligible. */
  datatype Ranked = Ranked(boundary: nat, mean: real, lower: real, upper: real, eligible: bool)

  datatype Evidence = Evidence(mean: real, pairCount: nat, unreliable: real, latency: Option<real>)

  datatype Gates = Gates(maxUnreliable: real, maxLatency: real)

  function Provisional(boundary: nat, e: Evidence, gates: Gates, radius: real): Ranked {
    Ranked(boundary, e.mean, Max(0.0, e.mean - radius), Min(1.0, e.mean + radius),
           e.unreliable <= gates.maxUnreliable && e.latency.Some? && e.latency.value <= gates.maxLatency)
  }

  predicate Before(a: Ranked, b: Ranked) {
    a.mean > b.mean || (a.mean == b.mean && a.boundary < b.boundary)
  }

  function Insert(e: Ranked, sorted: seq<Ranked>): seq<Ranked> {
    if sorted == [] || Before(e, sorted[0]) then [e] + sorted else [sorted[0]] + Insert(e, sorted[1..])
  }

  /** sorted by falling mean, then by declaration order. */
  function Sorted(entries: seq<Ranked>): seq<Ranked> {
    if entries == [] then [] else Insert(entries[|entries| - 1], Sorted(entries[..|entries| - 1]))
  }

  ghost predicate InOrder(entries: seq<Ranked>) {
    forall i, j :: 0 <= i < j < |entries| ==> Before(entries[i], entries[j])
  }

  lemma {:induction false} InsertKeepsOrder(e: Ranked, sorted: seq<Ranked>)
    requires InOrder(sorted) && forall x :: x in sorted ==> x.boundary != e.boundary
    ensures InOrder(Insert(e, sorted)) && forall x :: x in Insert(e, sorted) <==> x in sorted || x == e
  {
    if sorted != [] {
      assert sorted == [sorted[0]] + sorted[1..];
      assert sorted[0] in sorted;
      if !Before(e, sorted[0]) {
        assert forall x :: x in sorted[1..] ==> x in sorted;
        InsertKeepsOrder(e, sorted[1..]);
        var rest := Insert(e, sorted[1..]);
        forall j | 0 <= j < |rest| ensures Before(sorted[0], rest[j]) {
          assert rest[j] in rest;
        }
      }
    }
  }

  ghost predicate DistinctBoundaries(entries: seq<Ranked>) {
    forall i, j :: 0 <= i < j < |entries| ==> entries[i].boundary != entries[j].boundary
  }

  lemma {:induction false} SortedIsInOrder(entries: seq<Ranked>)
    requires DistinctBoundaries(entries)
    ensures InOrder(Sorted(entries)) && forall x :: x in Sorted(entries) <==> x in entries
  {
    if entries != [] {
      var init, last := entries[..|entries| - 1], entries[|entries| - 1];
      SortedIsInOrder(init);
      assert entries == init + [last];
      forall x | x in Sorted(init) ensures x.boundary != last.boundary {
        assert x in init;
      }
      InsertKeepsOrder(last, Sorted(init));
    }
  }

  function Eligible(entries: seq<Ranked>): seq<Ranked> {
    if entries == [] then []
    else (if entries[0].eligible then [entries[0]] else []) + Eligible(entries[1..])
  }

  lemma {:induction false} EligibleAre(entries: seq<Ranked>)
    ensures forall x :: x in Eligible(entries) <==> x in entries && x.eligible
    ensures InOrder(entries) ==> InOrder(Eligible(entries))
  {
    if entries != [] {
      assert entries == [entries[0]] + entries[1..];
      EligibleAre(entries[1..]);
      if InOrder(entries) {
        forall j | 0 <= j < |Eligible(entries[1..])| ensures Before(entries[0], Eligible(entries[1..])[j]) {
          assert Eligible(entries[1..])[j] in entries[1..];
        }
      }
    }
  }

  /** The entry is eligible and its lower bound clears every other eligible upper bound. */
  ghost predicate Separated(entries: seq<Ranked>, margin: real, e: Ranked) {
    && e in entries && e.eligible
    && forall x :: x in entries && x.eligible && x != e ==> e.lower > x.upper + margin
  }

  ghost predicate BoundsHold(entries: seq<Ranked>) {
    forall x :: x in entries ==> x.lower <= x.mean <= x.upper
  }

  /** At most one entry can be separated. */
  lemma SeparatedIsUnique(entries: seq<Ranked>, margin: real, a: Ranked, b: Ranked)
    requires BoundsHold(entries) && margin >= 0.0 && Separated(entries, margin, a) && Separated(entries, margin, b)
    ensures a == b
  {
  }

  /** A separated entry has the greatest mean of the eligible ones. */
  lemma SeparatedIsFirst(entries: seq<Ranked>, margin: real, e: Ranked)
    requires BoundsHold(entries) && margin >= 0.0 && InOrder(entries) && Separated(entries, margin, e)
    ensures Eligible(entries) != [] && Eligible(entries)[0] == e
  {
    EligibleAre(entries);
    var eligible := Eligible(entries);
    assert e in eligible;
    var k :| 0 <= k < |eligible| && eligible[k] == e;
    assert eligible[0] in eligible;
    assert k > 0 ==> Before(eligible[0], e);
  }

  predicate Clears(e: Ranked, others: seq<Ranked>, margin: real) {
    forall k :: 0 <= k < |others| ==> e.lower > others[k].upper + margin
  }

  lemma FirstIsSeparated(entries: seq<Ranked>, margin: real)
    requires InOrder(entries) && Eligible(entries) != []
    ensures Clears(Eligible(entries)[0], Eligible(entries)[1..], margin) <==>
              Separated(entries, margin, Eligible(entries)[0])
  {
    EligibleAre(entries);
    var eligible := Eligible(entries);
    var e, others := eligible[0], eligible[1..];
    assert e in eligible && eligible == [e] + others;
    if Clears(e, others, margin) {
      forall x | x in entries && x.eligible && x != e ensures e.lower > x.upper + margin {
        assert x in eligible;
        assert x in others;
      }
    }
    if Separated(entries, margin, e) {
      forall k | 0 <= k < |others| ensures e.lower > others[k].upper + margin {
        assert others[k] == eligible[k + 1] && eligible[k + 1] in eligible;
        assert Before(eligible[0], eligible[k + 1]);
      }
    }
  }

  /** Compare the eligible entry of the greatest mean with its competitors. */
  method Choose(entries: seq<Ranked>, margin: real) returns (selected: Option<nat>)
    requires BoundsHold(entries) && margin >= 0.0 && InOrder(entries)
    ensures forall b: nat :: selected == Some(b) <==> SelectedOf(entries, margin, b)
  {
    var eligible := Eligible(entries);
    selected := None;
    if eligible != [] {
      var strongest := eligible[0];
      FirstIsSeparated(entries, margin);
      if Clears(strongest, eligible[1..], margin) {
        selected := Some(strongest.boundary);
      }
    }
    forall b: nat ensures selected == Some(b) <==> SelectedOf(entries, margin, b) {
      if SelectedOf(entries, margin, b) {
        var e :| Separated(entries, margin, e) && e.boundary == b;
        SeparatedIsFirst(entries, margin, e);
      }
    }
  }

  /** Rank the boundaries and select one only with credible separation. */
  method RankBoundaries(evidence: seq<Evidence>, gates: Gates, margin: real, radius: nat -> real)
    returns (r: Result<(seq<Ranked>, Option<nat>)>)
    requires margin >= 0.0 && forall n :: radius(n) >= 0.0
    requires forall b :: 0 <= b < |evidence| ==> 0.0 <= evidence[b].mean <= 1.0
    ensures r.Success? <==> forall b :: 0 <= b < |evidence| ==> evidence[b].pairCount > 0
    ensures r.Success? ==>
              var entries, selected := r.value.0, r.value.1;
              && InOrder(entries) && Entered(evidence, gates, radius, entries)
              && (forall b: nat :: selected == Some(b) <==> SelectedOf(entries, margin, b))
  {
    var provisional: seq<Ranked> := [];
    for b := 0 to |evidence|
      invariant |provisional| == b
      invariant forall c :: 0 <= c < b ==> evidence[c].pairCount > 0
      invariant forall c :: 0 <= c < b ==>
                  provisional[c] == Provisional(c, evidence[c], gates, radius(evidence[c].pairCount))
    {
      if evidence[b].pairCount == 0 {
        return Failure;
      }
      provisional := provisional + [Provisional(b, evidence[b], gates, radius(evidence[b].pairCount))];
    }
    SortedIsInOrder(provisional);
    var entries := Sorted(provisional);
    AllEntered(evidence, gates, radius, provisional, entries);
    var selected := Choose(entries, margin);
    r := Success((entries, selected));
  }

  lemma AllEntered(evidence: seq<Evidence>, gates: Gates, radius: nat -> real, provisional: seq<Ranked>,
                   entries: seq<Ranked>)
    requires |provisional| == |evidence| && forall n :: radius(n) >= 0.0
    requires forall b :: 0 <= b < |evidence| ==> 0.0 <= evidence[b].mean <= 1.0
    requires forall c :: 0 <= c < |evidence| ==>
               provisional[c] == Provisional(c, evidence[c], gates, radius(evidence[c].pairCount))
    requires forall x :: x in entries <==> x in provisional
    ensures Entered(evidence, gates, radius, entries) && BoundsHold(entries)
  {
    forall x | x in entries
      ensures x.boundary < |evidence|
      ensures x == Provisional(x.boundary, evidence[x.boundary], gates, radius(evidence[x.boundary].pairCount))
      ensures x.lower <= x.mean <= x.upper
    {
      var c :| 0 <= c < |provisional| && provisional[c] == x;
    }
    forall x: Ranked | x.boundary < |evidence|
      && x == Provisional(x.boundary, evidence[x.boundary], gates, radius(evidence[x.boundary].pairCount))
      ensures x in entries
    {
      assert provisional[x.boundary] == x;
    }
  }

  /** The ranked entries are exactly the measured boundaries. */
  ghost predicate Entered(evidence: seq<Evidence>, gates: Gates, radius: nat -> real, entries: seq<Ranked>) {
    forall x :: x in entries <==>
      x.boundary < |evidence|
      && x == Provisional(x.boundary, evidence[x.boundary], gates, radius(evidence[x.boundary].pairCount))
  }

  ghost predicate SelectedOf(entries: seq<Ranked>, margin: real, b: nat) {
    exists e :: Separated(entries, margin, e) && e.boundary == b
  }

  // What the evidence and the ranking mean

  predicate ScoredAt(rows: seq<Observation>, boundary: nat, seed: int, side: Side, i: nat) {
    i < |rows| && rows[i].boundary == boundary && rows[i].seed == seed && rows[i].side == side
  }

  ghost predicate LastAt(rows: seq<Observation>, boundary: nat, seed: int, side: Side, i: nat) {
    && ScoredAt(rows, boundary, seed, side, i)
    && forall j: nat :: i < j ==> !ScoredAt(rows, boundary, seed, side, j)
  }

  /** The score of a boundary, seed and side is that of its last observation. */
  lemma {:induction false} LastScoreMeans(rows: seq<Observation>, boundary: nat, seed: int, side: Side)
    ensures LastScore(rows, boundary, seed, side) == None ==> forall i: nat :: !ScoredAt(rows, boundary, seed, side, i)
    ensures forall i: nat :: LastAt(rows, boundary, seed, side, i) ==>
              LastScore(rows, boundary, seed, side) == Some(rows[i].score)
    ensures LastScore(rows, boundary, seed, side).Some? ==> exists i: nat :: LastAt(rows, boundary, seed, side, i)
  {
    if rows != [] {
      var n := |rows| - 1;
      if ScoredAt(rows, boundary, seed, side, n) {
        assert LastAt(rows, boundary, seed, side, n);
      } else {
        var before := rows[..n];
        LastScoreMeans(before, boundary, seed, side);
        forall i: nat ensures LastAt(rows, boundary, seed, side, i) <==> LastAt(before, boundary, seed, side, i) {
          assert forall j: nat ::
              ScoredAt(rows, boundary, seed, side, j) <==> ScoredAt(before, boundary, seed, side, j);
        }
        assert forall i: nat :: ScoredAt(rows, boundary, seed, side, i) <==> ScoredAt(before, boundary, seed, side, i);
      }
    }
  }

  /** A seed counts when it was played from both sides, with the mean of the two last scores. */
  lemma PairScoreMeans(rows: seq<Observation>, boundary: nat, seed: int)
    ensures BothSides(rows, boundary, seed) <==>
              exists i: nat, j: nat :: LastAt(rows, boundary, seed, Red, i) && LastAt(rows, boundary, seed, Blue, j)
    ensures forall i: nat, j: nat :: LastAt(rows, boundary, seed, Red, i) && LastAt(rows, boundary, seed, Blue, j) ==>
              BothSides(rows, boundary, seed) && 2.0 * PairScore(rows, boundary, seed) == rows[i].score + rows[j].score
  {
    LastScoreMeans(rows, boundary, seed, Red);
    LastScoreMeans(rows, boundary, seed, Blue);
  }

  /** One score for each paired seed, and their mean times their number is their sum. */
  lemma MeanMeans(rows: seq<Observation>, boundary: nat, paired: seq<int>)
    requires forall seed :: seed in paired ==> BothSides(rows, boundary, seed)
    ensures var scores := PairScores(rows, boundary, paired);
            && |scores| == |paired|
            && (forall i :: 0 <= i < |paired| ==> scores[i] == PairScore(rows, boundary, paired[i]))
            && (Average(scores).Some? <==> paired != [])
            && (paired != [] ==> Average(scores).value * |paired| as real == Total(scores))
  {
    ScoresOfPairs(rows, boundary, paired);
  }

  lemma {:induction false} ScoresOfPairs(rows: seq<Observation>, boundary: nat, paired: seq<int>)
    requires forall seed :: seed in paired ==> BothSides(rows, boundary, seed)
    ensures var scores := PairScores(rows, boundary, paired);
            |scores| == |paired| && forall i :: 0 <= i < |paired| ==> scores[i] == PairScore(rows, boundary, paired[i])
  {
    if paired != [] {
      var n := |paired| - 1;
      assert paired[n] in paired;
      ScoresOfPairs(rows, boundary, paired[..n]);
    }
  }

  /** The gates: measured to be reliable and fast enough. */
  predicate Passes(e: Evidence, gates: Gates) {
    && e.unreliable <= gates.maxUnreliable
    && match e.latency { case Some(latency) => latency <= gates.maxLatency case None => false }
  }

  /** The mean of a, less its radius, is above the mean of b with its radius by more than the margin. */
  predicate Clear(a: Evidence, r: real, b: Evidence, s: real, margin: real) {
    a.mean - r > b.mean + s + margin
  }

  lemma ProvisionalMeans(boundary: nat, e: Evidence, gates: Gates, radius: real)
    ensures var p := Provisional(boundary, e, gates, radius);
            && p.boundary == boundary && p.mean == e.mean
            && p.lower >= 0.0 && p.lower >= e.mean - radius && p.lower in {0.0, e.mean - radius}
            && p.upper <= 1.0 && p.upper <= e.mean + radius && p.upper in {1.0, e.mean + radius}
            && (p.eligible <==> Passes(e, gates))
  {
  }

  /** Entries come by falling mean, equal means in their declared order. */
  lemma InOrderMeans(entries: seq<Ranked>, i: nat, j: nat)
    requires InOrder(entries) && i < j < |entries|
    ensures entries[i].mean >= entries[j].mean
    ensures entries[i].mean == entries[j].mean ==> entries[i].boundary < entries[j].boundary
  {
  }

  /** A boundary is selected when it passes the gates and every other one that does lies clear below
      it; that the bounds are cut to the unit interval makes no difference. */
  lemma SelectionMeans(evidence: seq<Evidence>, gates: Gates, margin: real, radius: nat -> real, entries: seq<Ranked>,
                       b: nat)
    requires margin >= 0.0 && forall n :: radius(n) >= 0.0
    requires forall c :: 0 <= c < |evidence| ==> 0.0 <= evidence[c].mean <= 1.0
    requires Entered(evidence, gates, radius, entries)
    ensures SelectedOf(entries, margin, b) <==>
              && b < |evidence| && Passes(evidence[b], gates)
              && forall c :: 0 <= c < |evidence| && c != b && Passes(evidence[c], gates) ==>
                   Clear(evidence[b], radius(evidence[b].pairCount), evidence[c], radius(evidence[c].pairCount), margin)
  {
    forall c | 0 <= c < |evidence| {
      ProvisionalMeans(c, evidence[c], gates, radius(evidence[c].pairCount));
    }
  }
}

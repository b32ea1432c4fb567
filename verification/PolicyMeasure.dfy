/** Measuring one policy decision against its target distribution. */
module PolicyMeasure {
  import opened Common

  datatype Role =
    | Planning | ActionChoice | MovementDestination | AttackTarget | DefenseReaction | PassiveReaction
    | RespawnChoice | RespawnDestination | ActorChoice | UpgradeChoice | CardSelection | UnitSelection
    | SpatialSelection | NumberSelection | OptionSelection

  /** One decision: target, prediction and optional evidence.  A typed context has
      a role, a skip flag and, outside planning, an input request type. */
  datatype PolicyRow = PolicyRow(game: string, targets: seq<real>, logits: seq<real>,
                                 priors: Option<seq<real>>, qVariances: Option<seq<real>>,
                                 family: string, hero: Option<string>, mapId: Option<string>,
                                 composition: Option<string>, round: Option<string>,
                                 request: Option<string>, role: Option<Role>, canSkip: Option<bool>)
  {
    predicate Valid() {
      && game != "" && family != ""
      && |targets| == |logits| > 0
      && (priors.Some? ==> |priors.value| == |targets|)
      && (qVariances.Some? ==> |qVariances.value| == |targets|)
    }
  }

  /** exp, log and the flooring constant are left uninterpreted. */
  datatype Maths = Maths(exp: real -> real, log: real -> real)

  const TINY: real := 1e-300

  datatype Decision = Decision(crossEntropy: real, top1: real, topk: real, pairwise: Option<real>,
                               entropy: real, overturn: Option<real>, qVariance: Option<real>)

  function Maximum(s: seq<real>): (m: real)
    requires s != []
    ensures m in s && forall x :: x in s ==> x <= m
  {
    if |s| == 1 then s[0]
    else
      var before := Maximum(s[..|s| - 1]);
      assert s == s[..|s| - 1] + [s[|s| - 1]];
      Max(before, s[|s| - 1])
  }

  /** Nothing in s is greater than s[i]. */
  predicate BestAt(s: seq<real>, i: nat) {
    i < |s| && forall j :: 0 <= j < |s| ==> s[j] <= s[i]
  }

  function MaxIndices(s: seq<real>): (best: set<nat>)
    requires s != []
    ensures best != {} && forall i: nat :: i in best <==> BestAt(s, i)
  {
    var m := Maximum(s);
    var i :| 0 <= i < |s| && s[i] == m;
    var all := set j: nat | j < |s| && s[j] == m;
    assert i in all;
    assert forall k: nat :: k < |s| ==> s[k] in s;
    all
  }

  function Softmax(exp: real -> real, logits: seq<real>): (p: seq<real>)
    requires logits != []
    ensures |p| == |logits|
  {
    var top := Maximum(logits);
    var weights := seq(|logits|, i requires 0 <= i < |logits| => exp(logits[i] - top));
    var total := Total(weights);
    if total == 0.0 then weights
    else seq(|logits|, i requires 0 <= i < |logits| => weights[i] / total)
  }

  // Pairwise ranking: every pair of candidates the target separates is judged once.

  function Judge(targetDelta: real, predictedDelta: real): real {
    if targetDelta * predictedDelta > 0.0 then 1.0 else if predictedDelta == 0.0 then 0.5 else 0.0
  }

  /** Judgements of the pairs (left, right), (left, right + 1), ... */
  function ComparisonsWith(t: seq<real>, p: seq<real>, left: nat, right: nat): seq<real>
    requires |p| == |t| && left < right <= |t|
    decreases |t| - right
  {
    if right == |t| then []
    else
      (if t[left] - t[right] == 0.0 then [] else [Judge(t[left] - t[right], p[left] - p[right])])
      + ComparisonsWith(t, p, left, right + 1)
  }

  function Comparisons(t: seq<real>, p: seq<real>, left: nat): seq<real>
    requires |p| == |t| && left <= |t|
    decreases |t| - left
  {
    if left == |t| then [] else ComparisonsWith(t, p, left, left + 1) + Comparisons(t, p, left + 1)
  }

  function PairwiseAccuracy(t: seq<real>, p: seq<real>): Option<real>
    requires |p| == |t|
  {
    var judged := Comparisons(t, p, 0);
    if judged == [] then None else Some(Total(judged) / |judged| as real)
  }

  /** The judging loops of _measure_policy. */
  method JudgePairs(t: seq<real>, p: seq<real>) returns (judged: seq<real>)
    requires |p| == |t|
    ensures judged == Comparisons(t, p, 0)
  {
    judged := [];
    var left := 0;
    while left < |t|
      invariant left <= |t|
      invariant judged + Comparisons(t, p, left) == Comparisons(t, p, 0)
    {
      var more := JudgeWith(t, p, left);
      assert judged + (more + Comparisons(t, p, left + 1)) == judged + more + Comparisons(t, p, left + 1);
      judged := judged + more;
      left := left + 1;
    }
  }

  /** The inner loop: one target against every later one. */
  method JudgeWith(t: seq<real>, p: seq<real>, left: nat) returns (judged: seq<real>)
    requires |p| == |t| && left < |t|
    ensures judged == ComparisonsWith(t, p, left, left + 1)
  {
    judged := [];
    var right := left + 1;
    while right < |t|
      invariant left < right <= |t|
      invariant judged + ComparisonsWith(t, p, left, right) == ComparisonsWith(t, p, left, left + 1)
    {
      var delta := t[left] - t[right];
      JudgedOne(t, p, left, right, judged);
      if delta != 0.0 {
        judged := judged + [Judge(delta, p[left] - p[right])];
      }
      right := right + 1;
    }
    assert judged + [] == judged;
  }

  lemma JudgedOne(t: seq<real>, p: seq<real>, left: nat, right: nat, judged: seq<real>)
    requires |p| == |t| && left < right < |t|
    ensures var delta := t[left] - t[right];
            judged + ComparisonsWith(t, p, left, right)
            == (if delta != 0.0 then judged + [Judge(delta, p[left] - p[right])] else judged)
               + ComparisonsWith(t, p, left, right + 1)
  {
  }

  /** A judged pair separates the targets: some two targets differ. */
  lemma {:induction false} WithIsInformative(t: seq<real>, p: seq<real>, left: nat, right: nat)
    requires |p| == |t| && left < right <= |t|
    ensures ComparisonsWith(t, p, left, right) == [] <==> forall j :: right <= j < |t| ==> t[j] == t[left]
    ensures forall x :: x in ComparisonsWith(t, p, left, right) ==> 0.0 <= x <= 1.0
    decreases |t| - right
  {
    if right < |t| {
      WithIsInformative(t, p, left, right + 1);
    }
  }

  lemma {:induction false} ComparisonsAreInformative(t: seq<real>, p: seq<real>, left: nat)
    requires |p| == |t| && left <= |t|
    ensures Comparisons(t, p, left) == [] <==> forall i, j :: left <= i < j < |t| ==> t[i] == t[j]
    ensures forall x :: x in Comparisons(t, p, left) ==> 0.0 <= x <= 1.0
    decreases |t| - left
  {
    hide ComparisonsWith;
    if left < |t| {
      WithIsInformative(t, p, left, left + 1);
      ComparisonsAreInformative(t, p, left + 1);
    }
  }

  /** A decision is informative exactly when its targets are not all equal, which
      takes two candidates; its accuracy is then a proportion. */
  lemma PairwiseAccuracyIsProportion(t: seq<real>, p: seq<real>)
    requires |p| == |t|
    ensures PairwiseAccuracy(t, p).Some? <==> exists i, j :: 0 <= i < j < |t| && t[i] != t[j]
    ensures PairwiseAccuracy(t, p).Some? ==> |t| > 1 && 0.0 <= PairwiseAccuracy(t, p).value <= 1.0
  {
    ComparisonsAreInformative(t, p, 0);
    var judged := Comparisons(t, p, 0);
    if judged != [] {
      forall i | 0 <= i < |judged| ensures 0.0 <= judged[i] <= 1.0 {
        assert judged[i] in judged;
      }
      TotalInRange(judged);
      UnitQuotient(Total(judged), |judged|);
    }
  }

  /** How many candidates rank before i, ties broken by position. */
  function RankOf(p: seq<real>, i: nat): nat
    requires i < |p|
  {
    |set j: nat | j < |p| && (p[j] > p[i] || (p[j] == p[i] && j < i))|
  }

  function Share(part: nat, whole: nat): real {
    if whole == 0 then 0.0 else part as real / whole as real
  }

  function CrossEntropy(log: real -> real, t: seq<real>, p: seq<real>): real
    requires |p| == |t|
  {
    -Total(CrossTerms(log, t, p))
  }

  function CrossTerms(log: real -> real, t: seq<real>, p: seq<real>): seq<real>
    requires |p| == |t|
  {
    seq(|t|, i requires 0 <= i < |t| => t[i] * log(Max(p[i], TINY)))
  }

  function Top1(t: seq<real>, p: seq<real>): real
    requires t != [] && p != []
  {
    Share(|MaxIndices(t) * MaxIndices(p)|, |MaxIndices(p)|)
  }

  /** The topK candidates of the greatest probability. */
  function TopIndices(p: seq<real>, topK: nat): set<nat> {
    set i: nat | i < |p| && RankOf(p, i) < topK
  }

  function Recall(t: seq<real>, p: seq<real>, topK: nat): real
    requires t != []
  {
    Share(|MaxIndices(t) * TopIndices(p, topK)|, |MaxIndices(t)|)
  }

  function Entropy(log: real -> real, p: seq<real>): real {
    -Total(seq(|p|, i requires 0 <= i < |p| => if p[i] > 0.0 then p[i] * log(p[i]) else 0.0))
  }

  function Overturn(priors: seq<real>, t: seq<real>): real
    requires priors != [] && t != []
  {
    if MaxIndices(priors) !! MaxIndices(t) then 1.0 else 0.0
  }

  function MeasurePolicy(m: Maths, topK: nat, row: PolicyRow): (d: Decision)
    requires row.Valid()
    ensures d.pairwise.Some? <==> exists i, j :: 0 <= i < j < |row.targets| && row.targets[i] != row.targets[j]
    ensures d.pairwise.Some? ==> |row.targets| > 1 && 0.0 <= d.pairwise.value <= 1.0
  {
    var t, p := row.targets, Softmax(m.exp, row.logits);
    PairwiseAccuracyIsProportion(t, p);
    Decision(
      CrossEntropy(m.log, t, p),
      Top1(t, p),
      Recall(t, p, topK),
      PairwiseAccuracy(t, p),
      Entropy(m.log, p),
      if row.priors.None? then None else Some(Overturn(row.priors.value, t)),
      if row.qVariances.None? then None
      else Some(Total(row.qVariances.value) / |row.qVariances.value| as real))
  }

  // What pairwise accuracy means

  /** p ranks every two candidates that t separates as t does, the other way, or equally. */
  predicate RanksAlike(t: seq<real>, p: seq<real>)
    requires |p| == |t|
  {
    forall i, j :: 0 <= i < |t| && 0 <= j < |t| && t[i] > t[j] ==> p[i] > p[j]
  }

  predicate RanksOpposite(t: seq<real>, p: seq<real>)
    requires |p| == |t|
  {
    forall i, j :: 0 <= i < |t| && 0 <= j < |t| && t[i] > t[j] ==> p[i] < p[j]
  }

  predicate RanksEqual(t: seq<real>, p: seq<real>)
    requires |p| == |t|
  {
    forall i, j :: 0 <= i < |t| && 0 <= j < |t| && t[i] > t[j] ==> p[i] == p[j]
  }

  lemma JudgeMeans(x: real, y: real)
    ensures (x > 0.0 && y > 0.0) || (x < 0.0 && y < 0.0) ==> Judge(x, y) == 1.0
    ensures (x > 0.0 && y < 0.0) || (x < 0.0 && y > 0.0) ==> Judge(x, y) == 0.0
    ensures y == 0.0 ==> Judge(x, y) == 0.5
  {
    if x > 0.0 && y < 0.0 {
      assert x * y == -(x * (-y)) < 0.0;
    }
    if x < 0.0 && y > 0.0 {
      assert x * y == -((-x) * y) < 0.0;
    }
    if x < 0.0 && y < 0.0 {
      assert x * y == (-x) * (-y) > 0.0;
    }
  }

  /** Every judged pair gets the given score. */
  predicate JudgedAs(t: seq<real>, p: seq<real>, score: real)
    requires |p| == |t|
  {
    forall i, j :: 0 <= i < j < |t| && t[i] != t[j] ==> Judge(t[i] - t[j], p[i] - p[j]) == score
  }

  lemma {:induction false} AllJudgedWith(t: seq<real>, p: seq<real>, left: nat, right: nat, score: real)
    requires |p| == |t| && left < right <= |t| && JudgedAs(t, p, score)
    ensures forall x :: x in ComparisonsWith(t, p, left, right) ==> x == score
    decreases |t| - right
  {
    if right < |t| {
      AllJudgedWith(t, p, left, right + 1, score);
    }
  }

  lemma {:induction false} AllJudged(t: seq<real>, p: seq<real>, left: nat, score: real)
    requires |p| == |t| && left <= |t| && JudgedAs(t, p, score)
    ensures forall x :: x in Comparisons(t, p, left) ==> x == score
    decreases |t| - left
  {
    if left < |t| {
      AllJudgedWith(t, p, left, left + 1, score);
      AllJudged(t, p, left + 1, score);
    }
  }

  lemma AccuracyOfConstant(t: seq<real>, p: seq<real>, score: real)
    requires |p| == |t| && JudgedAs(t, p, score)
    ensures PairwiseAccuracy(t, p).Some? ==> PairwiseAccuracy(t, p).value == score
  {
    AllJudged(t, p, 0, score);
    var judged := Comparisons(t, p, 0);
    forall i | 0 <= i < |judged| ensures judged[i] == score {
      assert judged[i] in judged;
    }
    TotalConstant(judged, score);
  }

  /** Ranking as the target does scores 1, the other way 0, and not ranking at all a half. */
  lemma PairwiseAccuracyMeans(t: seq<real>, p: seq<real>)
    requires |p| == |t|
    ensures PairwiseAccuracy(t, p).Some? && RanksAlike(t, p) ==> PairwiseAccuracy(t, p).value == 1.0
    ensures PairwiseAccuracy(t, p).Some? && RanksOpposite(t, p) ==> PairwiseAccuracy(t, p).value == 0.0
    ensures PairwiseAccuracy(t, p).Some? && RanksEqual(t, p) ==> PairwiseAccuracy(t, p).value == 0.5
  {
    forall i, j | 0 <= i < j < |t| && t[i] != t[j]
      ensures RanksAlike(t, p) ==> Judge(t[i] - t[j], p[i] - p[j]) == 1.0
      ensures RanksOpposite(t, p) ==> Judge(t[i] - t[j], p[i] - p[j]) == 0.0
      ensures RanksEqual(t, p) ==> Judge(t[i] - t[j], p[i] - p[j]) == 0.5
    {
      JudgeMeans(t[i] - t[j], p[i] - p[j]);
      assert t[i] > t[j] || t[j] > t[i];
    }
    if RanksAlike(t, p) {
      AccuracyOfConstant(t, p, 1.0);
    }
    if RanksOpposite(t, p) {
      AccuracyOfConstant(t, p, 0.0);
    }
    if RanksEqual(t, p) {
      AccuracyOfConstant(t, p, 0.5);
    }
  }

  // What the other measures mean

  ghost predicate PositiveIncreasing(exp: real -> real) {
    && (forall x :: exp(x) > 0.0)
    && (forall x, y :: x < y ==> exp(x) < exp(y))
  }

  lemma QuotientOrder(a: real, b: real, d: real)
    requires d > 0.0
    ensures a < b <==> a / d < b / d
    ensures a > 0.0 <==> a / d > 0.0
  {
  }

  lemma UnitQuotientOfSelf(d: real)
    requires d != 0.0
    ensures d / d == 1.0
  {
  }

  /** The predicted probabilities are positive, add up to 1, and are ranked as the logits are. */
  lemma SoftmaxMeans(exp: real -> real, logits: seq<real>)
    requires logits != [] && PositiveIncreasing(exp)
    ensures Total(Softmax(exp, logits)) == 1.0
    ensures forall i :: 0 <= i < |logits| ==> Softmax(exp, logits)[i] > 0.0
    ensures RanksAlike(logits, Softmax(exp, logits)) && RanksAlike(Softmax(exp, logits), logits)
  {
    hide Maximum, PositiveIncreasing;
    var top, p := Maximum(logits), Softmax(exp, logits);
    var weights := seq(|logits|, i requires 0 <= i < |logits| => exp(logits[i] - top));
    WeightsMean(exp, logits, top, weights);
    TotalPositive(weights);
    var total := Total(weights);
    TotalScaled(weights, p, total);
    UnitQuotientOfSelf(total);
    forall i | 0 <= i < |p| ensures p[i] > 0.0 {
      QuotientOrder(weights[i], weights[i], total);
    }
    forall i, j | 0 <= i < |p| && 0 <= j < |p| ensures p[i] < p[j] <==> logits[i] < logits[j] {
      QuotientOrder(weights[i], weights[j], total);
      assert weights[i] < weights[j] <==> logits[i] < logits[j];
    }
  }

  lemma WeightsMean(exp: real -> real, logits: seq<real>, top: real, weights: seq<real>)
    requires logits != [] && PositiveIncreasing(exp) && |weights| == |logits|
    requires forall i :: 0 <= i < |logits| ==> weights[i] == exp(logits[i] - top)
    ensures weights[0] > 0.0 && forall i :: 0 <= i < |weights| ==> weights[i] > 0.0
    ensures forall i, j :: 0 <= i < |weights| && 0 <= j < |weights| ==>
              (weights[i] < weights[j] <==> logits[i] < logits[j])
  {
    forall i, j | 0 <= i < |weights| && 0 <= j < |weights|
      ensures weights[i] < weights[j] <==> logits[i] < logits[j]
    {
      var x, y := logits[i] - top, logits[j] - top;
      assert x < y <==> logits[i] < logits[j];
      assert x < y ==> exp(x) < exp(y);
      assert y < x ==> exp(y) < exp(x);
    }
  }

  /** Candidate i ranks before candidate j: more probable, or as probable and listed first. */
  predicate RanksBefore(p: seq<real>, i: nat, j: nat)
    requires i < |p| && j < |p|
  {
    p[i] > p[j] || (p[i] == p[j] && i < j)
  }

  lemma SmallerSet(a: set<nat>, b: set<nat>, x: nat)
    requires a <= b && x in b && x !in a
    ensures |a| < |b|
  {
    assert b == a + (b - a) && x in b - a;
  }

  function Indexes(n: nat): (r: set<nat>)
    ensures |r| == n && forall i: nat :: i in r <==> i < n
  {
    if n == 0 then {} else Indexes(n - 1) + {n - 1}
  }

  /** Ranks are positions in the order by falling probability. */
  lemma RankMeans(p: seq<real>, i: nat, j: nat)
    requires i < |p| && j < |p|
    ensures RankOf(p, i) < |p|
    ensures RankOf(p, i) < RankOf(p, j) <==> RanksBefore(p, i, j)
  {
    var beforeI := set m: nat | m < |p| && (p[m] > p[i] || (p[m] == p[i] && m < i));
    var beforeJ := set m: nat | m < |p| && (p[m] > p[j] || (p[m] == p[j] && m < j));
    SmallerSet(beforeI, Indexes(|p|), i);
    if RanksBefore(p, i, j) {
      SmallerSet(beforeI, beforeJ, i);
    }
    if RanksBefore(p, j, i) {
      SmallerSet(beforeJ, beforeI, j);
    }
  }

  lemma WholeShare(n: nat)
    requires n > 0
    ensures Share(n, n) == 1.0 && Share(0, n) == 0.0
  {
  }

  /** Logits in the target's order: full top-1 accuracy and pairwise accuracy.  Logits in the
      opposite order of a target that separates some candidates: none of either. */
  lemma RankingMeans(m: Maths, topK: nat, row: PolicyRow)
    requires row.Valid() && PositiveIncreasing(m.exp)
    ensures var d, t, l := MeasurePolicy(m, topK, row), row.targets, row.logits;
            && (RanksAlike(t, l) && RanksAlike(l, t) ==>
                  d.top1 == 1.0 && (d.pairwise.Some? ==> d.pairwise.value == 1.0))
            && (RanksOpposite(t, l) && d.pairwise.Some? ==> d.top1 == 0.0 && d.pairwise.value == 0.0)
  {
    hide Softmax, PairwiseAccuracy, MaxIndices, CrossEntropy, Entropy, Recall, Overturn, RanksAlike, RanksOpposite;
    var t, l, p := row.targets, row.logits, Softmax(m.exp, row.logits);
    SoftmaxMeans(m.exp, l);
    PairwiseAccuracyMeans(t, p);
    if RanksAlike(t, l) && RanksAlike(l, t) {
      AlikeTransitive(t, l, p);
      AlikeTransitive(p, l, t);
      SameBest(t, p);
    }
    if RanksOpposite(t, l) && PairwiseAccuracy(t, p).Some? {
      OppositeTransitive(t, l, p);
      PairwiseAccuracyIsProportion(t, p);
      OppositeBest(t, p);
    }
  }

  lemma AlikeTransitive(a: seq<real>, b: seq<real>, c: seq<real>)
    requires |a| == |b| == |c| && RanksAlike(a, b) && RanksAlike(b, c)
    ensures RanksAlike(a, c)
  {
  }

  lemma OppositeTransitive(a: seq<real>, b: seq<real>, c: seq<real>)
    requires |a| == |b| == |c| && RanksOpposite(a, b) && RanksAlike(b, c)
    ensures RanksOpposite(a, c)
  {
  }

  /** Full recall once k covers all candidates, none for k = 0, and the best predicted candidate
      is always among the first k. */
  lemma RecallMeans(t: seq<real>, p: seq<real>, topK: nat)
    requires |t| == |p| > 0
    ensures topK >= |t| ==> Recall(t, p, topK) == 1.0
    ensures topK == 0 ==> Recall(t, p, topK) == 0.0
    ensures MaxIndices(t) != {}
    ensures Recall(t, p, topK) * |MaxIndices(t)| as real == |MaxIndices(t) * TopIndices(p, topK)| as real
    ensures topK > 0 ==> exists i :: i in TopIndices(p, topK) && BestAt(p, i)
    ensures forall i, j :: j in TopIndices(p, topK) && 0 <= i < |p| && RanksBefore(p, i, j) ==> i in TopIndices(p, topK)
  {
    hide RankOf, MaxIndices;
    var best, top := MaxIndices(t), TopIndices(p, topK);
    NonEmpty(best);
    if topK >= |t| {
      forall i | i in best ensures i in top {
        RankMeans(p, i, i);
      }
      assert best * top == best;
      WholeShare(|best|);
    }
    if topK == 0 {
      assert best * top == {};
      WholeShare(|best|);
    }
    if topK > 0 {
      var i := FirstBest(p, |p|);
      assert i in top && BestAt(p, i);
    }
    forall i, j | j in top && 0 <= i < |p| && RanksBefore(p, i, j) ensures i in top {
      RankMeans(p, i, j);
    }
  }

  /** The earliest greatest of the first n; of all of them it has rank 0. */
  lemma {:induction false} FirstBest(p: seq<real>, n: nat) returns (i: nat)
    requires 0 < n <= |p|
    ensures i < n && forall j :: 0 <= j < n && j != i ==> p[i] > p[j] || (p[i] == p[j] && i < j)
    ensures n == |p| ==> BestAt(p, i) && RankOf(p, i) == 0
  {
    if n == 1 {
      i := 0;
    } else {
      var b := FirstBest(p, n - 1);
      assert forall j :: 0 <= j < n - 1 ==> p[j] <= p[b];
      i := if p[n - 1] > p[b] then n - 1 else b;
    }
    if n == |p| {
      assert (set j: nat | j < |p| && (p[j] > p[i] || (p[j] == p[i] && j < i))) == {};
    }
  }

  lemma NonEmpty(s: set<nat>)
    requires s != {}
    ensures |s| > 0
  {
  }

  lemma SameBest(t: seq<real>, p: seq<real>)
    requires |t| == |p| > 0 && RanksAlike(t, p) && RanksAlike(p, t)
    ensures Top1(t, p) == 1.0
  {
    hide MaxIndices;
    forall i: nat ensures BestAt(t, i) <==> BestAt(p, i) {
    }
    assert MaxIndices(t) == MaxIndices(p);
    NonEmpty(MaxIndices(p));
    WholeShare(|MaxIndices(p)|);
    assert MaxIndices(t) * MaxIndices(p) == MaxIndices(p);
  }

  lemma OppositeBest(t: seq<real>, p: seq<real>)
    requires |t| == |p| > 0 && RanksOpposite(t, p) && exists i, j :: 0 <= i < j < |t| && t[i] != t[j]
    ensures Top1(t, p) == 0.0
  {
    hide MaxIndices;
    var a, b :| 0 <= a < b < |t| && t[a] != t[b];
    forall i: nat | BestAt(t, i) ensures !BestAt(p, i) {
      var worse := if t[a] < t[i] then a else b;
      assert t[worse] < t[i] && p[i] < p[worse];
    }
    assert MaxIndices(t) * MaxIndices(p) == {};
    NonEmpty(MaxIndices(p));
    WholeShare(|MaxIndices(p)|);
  }

  /** The search overturned the priors exactly when no candidate is best under both. */
  lemma OverturnMeans(m: Maths, topK: nat, row: PolicyRow)
    requires row.Valid()
    ensures var d := MeasurePolicy(m, topK, row);
            && (d.overturn.Some? <==> row.priors.Some?)
            && (row.priors.Some? ==>
                  && d.overturn.value in {0.0, 1.0}
                  && (d.overturn.value == 0.0 <==>
                        exists i: nat :: BestAt(row.priors.value, i) && BestAt(row.targets, i)))
  {
    hide MaxIndices, Softmax, BestAt;
    if row.priors.Some? {
      var both := MaxIndices(row.priors.value) * MaxIndices(row.targets);
      forall i: nat ensures i in both <==> BestAt(row.priors.value, i) && BestAt(row.targets, i) {
      }
    }
  }

  /** The reported variance is the number that, once for each candidate, makes up the sum of theirs. */
  lemma QVarianceMeans(m: Maths, topK: nat, row: PolicyRow, q: real)
    requires row.Valid() && row.qVariances.Some? && MakesUp(q, row.qVariances.value)
    ensures MeasurePolicy(m, topK, row).qVariance == Some(q)
  {
    hide Total, Softmax, PairwiseAccuracy, Entropy, CrossEntropy, Recall, Top1, Overturn, MakesUp;
    IsQuotient(q, row.qVariances.value);
  }

  predicate MakesUp(q: real, values: seq<real>) {
    q * |values| as real == Total(values)
  }

  lemma IsQuotient(q: real, values: seq<real>)
    requires values != [] && MakesUp(q, values)
    ensures Total(values) / |values| as real == q
  {
    QuotientOfProduct(q, |values| as real);
  }

  /** With a target that names one candidate the cross entropy is the negative logarithm of its
      floored probability. */
  lemma CrossEntropyMeans(m: Maths, topK: nat, row: PolicyRow, k: nat)
    requires row.Valid() && k < |row.targets| && row.targets[k] == 1.0
    requires forall i :: 0 <= i < |row.targets| && i != k ==> row.targets[i] == 0.0
    ensures var p := Softmax(m.exp, row.logits)[k];
            MeasurePolicy(m, topK, row).crossEntropy == -m.log(if p < TINY then TINY else p)
  {
    hide Softmax, Total, Entropy, Recall, Top1, PairwiseAccuracy;
    var t, p := row.targets, Softmax(m.exp, row.logits);
    var terms := CrossTerms(m.log, t, p);
    forall i | 0 <= i < |terms| && i != k ensures terms[i] == 0.0 {
      Unit(m.log(Max(p[i], TINY)));
    }
    Unit(m.log(Max(p[k], TINY)));
    TotalSingle(terms, k);
  }

  lemma Unit(x: real)
    ensures 1.0 * x == x && 0.0 * x == 0.0
  {
  }

  lemma ProductSign(a: real, b: real)
    requires a > 0.0
    ensures b <= 0.0 ==> a * b <= 0.0
    ensures b < 0.0 ==> a * b < 0.0
  {
  }

  /** Entropy is not negative, and is positive unless one candidate has all the probability. */
  lemma EntropyMeans(m: Maths, topK: nat, row: PolicyRow)
    requires row.Valid() && PositiveIncreasing(m.exp)
    requires m.log(1.0) == 0.0 && forall x :: 0.0 < x < 1.0 ==> m.log(x) < 0.0
    ensures MeasurePolicy(m, topK, row).entropy >= 0.0
    ensures |row.logits| > 1 ==> MeasurePolicy(m, topK, row).entropy > 0.0
  {
    hide Softmax, Total, CrossEntropy, CrossTerms, Recall, Top1, Overturn, PairwiseAccuracy;
    var p := Softmax(m.exp, row.logits);
    SoftmaxMeans(m.exp, row.logits);
    var terms := seq(|p|, i requires 0 <= i < |p| => if p[i] > 0.0 then p[i] * m.log(p[i]) else 0.0);
    forall i | 0 <= i < |p| ensures terms[i] <= 0.0 && (|p| > 1 ==> terms[i] < 0.0) {
      BelowTotal(p, i);
      ProductSign(p[i], m.log(p[i]));
    }
    var negated := seq(|p|, i requires 0 <= i < |p| => -terms[i]);
    NegatedTotal(terms, negated);
    TotalPositive(negated);
    if |p| > 1 {
      assert negated[0] > 0.0;
    }
  }

  lemma {:induction false} NegatedTotal(values: seq<real>, negated: seq<real>)
    requires |negated| == |values| && forall i :: 0 <= i < |values| ==> negated[i] == -values[i]
    ensures Total(negated) == -Total(values)
  {
    if values != [] {
      NegatedTotal(values[..|values| - 1], negated[..|values| - 1]);
    }
  }

  /** A positive value among positive ones is at most their total, and less if it is not the only one. */
  lemma {:induction false} BelowTotal(p: seq<real>, i: nat)
    requires i < |p| && forall j :: 0 <= j < |p| ==> p[j] > 0.0
    ensures p[i] <= Total(p) && (|p| > 1 ==> p[i] < Total(p))
  {
    var n := |p| - 1;
    TotalPositive(p[..n]);
    if i < n {
      BelowTotal(p[..n], i);
    } else if n > 0 {
      assert p[..n][0] > 0.0;
    }
  }

  /** Equal logits give every candidate an equal share; entropy and cross entropy are then that of
      the share, the latter in proportion to the target's total. */
  lemma EqualLogits(m: Maths, topK: nat, row: PolicyRow)
    requires row.Valid() && PositiveIncreasing(m.exp)
    requires forall i :: 0 <= i < |row.logits| ==> row.logits[i] == row.logits[0]
    ensures var d, share := MeasurePolicy(m, topK, row), 1.0 / |row.logits| as real;
            && d.entropy == -m.log(share)
            && d.crossEntropy == -(Total(row.targets) * m.log(if share < TINY then TINY else share))
            && (d.pairwise.Some? ==> d.pairwise.value == 0.5)
  {
    hide Softmax, Total, PairwiseAccuracy, Entropy, CrossEntropy, Recall, Top1, Overturn;
    var p := Softmax(m.exp, row.logits);
    EqualShares(m, row.logits);
    EqualEntropy(m.log, p);
    EqualCross(m.log, row.targets, p);
    PairwiseAccuracyMeans(row.targets, p);
  }

  lemma EqualEntropy(log: real -> real, p: seq<real>)
    requires p != [] && forall i :: 0 <= i < |p| ==> p[i] == 1.0 / |p| as real > 0.0
    ensures Entropy(log, p) == -log(1.0 / |p| as real)
  {
    hide Total;
    var share := 1.0 / |p| as real;
    var l := log(share);
    var terms := seq(|p|, i requires 0 <= i < |p| => if p[i] > 0.0 then p[i] * log(p[i]) else 0.0);
    forall i | 0 <= i < |terms| ensures terms[i] == share * l {
      assert p[i] == share;
    }
    TotalConstant(terms, share * l);
    InverseTimes(|p| as real, share, l);
  }

  lemma EqualCross(log: real -> real, t: seq<real>, p: seq<real>)
    requires |t| == |p| > 0 && forall i :: 0 <= i < |p| ==> p[i] == 1.0 / |p| as real
    ensures var share := 1.0 / |p| as real;
            CrossEntropy(log, t, p) == -(Total(t) * log(if share < TINY then TINY else share))
  {
    hide Total;
    var share := 1.0 / |p| as real;
    var c := log(Max(share, TINY));
    var terms := CrossTerms(log, t, p);
    forall i | 0 <= i < |terms| ensures terms[i] == t[i] * c {
      assert p[i] == share;
    }
    ScaledTotal(t, terms, c);
  }

  lemma InverseTimes(n: real, share: real, l: real)
    requires n > 0.0 && share == 1.0 / n
    ensures share * l * n == l
  {
    assert share * n == 1.0;
    assert share * l * n == (share * n) * l;
  }

  lemma EqualShares(m: Maths, logits: seq<real>)
    requires logits != [] && PositiveIncreasing(m.exp) && forall i :: 0 <= i < |logits| ==> logits[i] == logits[0]
    ensures forall i :: 0 <= i < |logits| ==> Softmax(m.exp, logits)[i] == 1.0 / |logits| as real > 0.0
  {
    hide Softmax;
    var p, n := Softmax(m.exp, logits), |logits|;
    SoftmaxMeans(m.exp, logits);
    forall i | 0 <= i < n ensures p[i] == p[0] {
      assert !(p[i] > p[0]) && !(p[0] > p[i]);
    }
    TotalConstant(p, p[0]);
    Inverse(p[0], n as real);
  }

  lemma Inverse(x: real, n: real)
    requires n > 0.0 && x * n == 1.0
    ensures x == 1.0 / n && x > 0.0
  {
  }

  lemma {:induction false} ScaledTotal(values: seq<real>, scaled: seq<real>, c: real)
    requires |scaled| == |values| && forall i :: 0 <= i < |values| ==> scaled[i] == values[i] * c
    ensures Total(scaled) == Total(values) * c
  {
    if values != [] {
      var n := |values| - 1;
      ScaledTotal(values[..n], scaled[..n], c);
      Distributes(Total(values[..n]), values[n], c);
    }
  }

  lemma Distributes(a: real, b: real, c: real)
    ensures (a + b) * c == a * c + b * c
  {
  }

  // The first k candidates

  function Ranks(p: seq<real>, n: nat): set<nat>
    requires n <= |p|
  {
    if n == 0 then {} else Ranks(p, n - 1) + {RankOf(p, n - 1)}
  }

  lemma {:induction false} RankedAt(p: seq<real>, n: nat, r: nat) returns (i: nat)
    requires n <= |p| && r in Ranks(p, n)
    ensures i < n && RankOf(p, i) == r
  {
    hide RankOf;
    if r == RankOf(p, n - 1) {
      i := n - 1;
    } else {
      i := RankedAt(p, n - 1, r);
    }
  }

  /** No two candidates have the same rank. */
  lemma {:induction false} RanksDiffer(p: seq<real>, n: nat)
    requires n <= |p|
    ensures |Ranks(p, n)| == n
  {
    hide RankOf;
    if n > 0 {
      RanksDiffer(p, n - 1);
      NewRank(p, n - 1);
    }
  }

  lemma NewRank(p: seq<real>, i: nat)
    requires i < |p|
    ensures RankOf(p, i) !in Ranks(p, i)
  {
    hide RankOf;
    if RankOf(p, i) in Ranks(p, i) {
      var j := RankedAt(p, i, RankOf(p, i));
      RankMeans(p, i, j);
      RankMeans(p, j, i);
      assert false;
    }
  }

  /** Some candidate has rank k. */
  lemma HasRank(p: seq<real>, k: nat) returns (i: nat)
    requires k < |p|
    ensures i < |p| && RankOf(p, i) == k
  {
    var ranks, all := Ranks(p, |p|), Indexes(|p|);
    RanksDiffer(p, |p|);
    forall r | r in ranks ensures r in all {
      var j := RankedAt(p, |p|, r);
      RankMeans(p, j, j);
    }
    SubsetOfSameSize(ranks, all);
    assert k in ranks;
    i := RankedAt(p, |p|, k);
  }

  lemma SubsetOfSameSize(a: set<nat>, b: set<nat>)
    requires a <= b && |a| == |b|
    ensures a == b
  {
    assert b == a + (b - a);
    assert |b - a| == 0;
  }

  /** The first k candidates are k, or all of them. */
  lemma {:induction false} TopCount(p: seq<real>, k: nat)
    ensures |TopIndices(p, k)| == if k < |p| then k else |p|
  {
    hide RankOf;
    if k == 0 {
      assert TopIndices(p, 0) == {};
    } else {
      TopCount(p, k - 1);
      if k - 1 < |p| {
        var i := HasRank(p, k - 1);
        forall j: nat | j < |p| && RankOf(p, j) == k - 1 ensures j == i {
          RankMeans(p, i, j);
          RankMeans(p, j, i);
        }
        assert TopIndices(p, k) == TopIndices(p, k - 1) + {i};
      } else {
        forall i: nat | i < |p| ensures RankOf(p, i) < k - 1 {
          RankMeans(p, i, i);
        }
        assert TopIndices(p, k) == TopIndices(p, k - 1);
      }
    }
  }

  /** The k best candidates: with one of them, every better one. */
  predicate IsTop(p: seq<real>, k: nat, top: set<nat>) {
    && top <= Indexes(|p|) && |top| == (if k < |p| then k else |p|)
    && forall i, j :: j in top && 0 <= i < |p| && RanksBefore(p, i, j) ==> i in top
  }

  /** The recall of a decision: which share of its best candidates is among the first k by
      probability. */
  lemma RecallOfDecision(m: Maths, topK: nat, row: PolicyRow, best: set<nat>, top: set<nat>)
    requires row.Valid() && best == set i: nat | i < |row.targets| && BestAt(row.targets, i)
    requires IsTop(Softmax(m.exp, row.logits), topK, top)
    ensures best != {} && MeasurePolicy(m, topK, row).topk * |best| as real == |best * top| as real
  {
    hide MeasurePolicy, Softmax, Recall, MaxIndices, TopIndices, IsTop;
    DecisionRecall(m, topK, row);
    BestAre(row.targets);
    hide BestAt;
    SameTop(Softmax(m.exp, row.logits), topK, top);
    RecallMeans(row.targets, Softmax(m.exp, row.logits), topK);
  }

  lemma DecisionRecall(m: Maths, topK: nat, row: PolicyRow)
    requires row.Valid()
    ensures |row.targets| == |Softmax(m.exp, row.logits)| > 0
    ensures MeasurePolicy(m, topK, row).topk == Recall(row.targets, Softmax(m.exp, row.logits), topK)
  {
    hide Softmax, Total, PairwiseAccuracy, Entropy, CrossEntropy, Recall, Top1, Overturn;
  }

  lemma BestAre(t: seq<real>)
    requires t != []
    ensures MaxIndices(t) == set i: nat | i < |t| && BestAt(t, i)
  {
  }

  /** There is only one such set. */
  lemma SameTop(p: seq<real>, k: nat, top: set<nat>)
    requires IsTop(p, k, top)
    ensures top == TopIndices(p, k)
  {
    var first := TopIndices(p, k);
    TopCount(p, k);
    if i :| i in first && i !in top {
      forall j | j in top ensures j in first {
        assert i != j && !RanksBefore(p, i, j);
        RankMeans(p, j, i);
        RankMeans(p, i, j);
      }
      SubsetOfSameSize(top, first);
      assert false;
    }
    SubsetOfSameSize(first, top);
  }

  /** Top-1 accuracy: which share of the candidates with the greatest logit is among the target's best. */
  lemma Top1OfDecision(m: Maths, topK: nat, row: PolicyRow, best: set<nat>, predicted: set<nat>)
    requires row.Valid() && PositiveIncreasing(m.exp)
    requires best == set i: nat | i < |row.targets| && BestAt(row.targets, i)
    requires predicted == set i: nat | i < |row.logits| && BestAt(row.logits, i)
    ensures predicted != {} && MeasurePolicy(m, topK, row).top1 * |predicted| as real == |best * predicted| as real
  {
    hide MeasurePolicy, Softmax, Top1, MaxIndices, RanksAlike, PositiveIncreasing;
    DecisionTop1(m, topK, row);
    SoftmaxMeans(m.exp, row.logits);
    SameBestAsLogits(row.logits, Softmax(m.exp, row.logits));
    hide BestAt;
    Top1Means(row.targets, Softmax(m.exp, row.logits));
    BestAre(row.targets);
    BestAre(Softmax(m.exp, row.logits));
    assert predicted == MaxIndices(Softmax(m.exp, row.logits));
  }

  lemma DecisionTop1(m: Maths, topK: nat, row: PolicyRow)
    requires row.Valid()
    ensures |Softmax(m.exp, row.logits)| == |row.logits| > 0
    ensures MeasurePolicy(m, topK, row).top1 == Top1(row.targets, Softmax(m.exp, row.logits))
  {
    hide Softmax, Total, PairwiseAccuracy, Entropy, CrossEntropy, Recall, Top1, Overturn;
  }

  lemma Top1Means(t: seq<real>, p: seq<real>)
    requires t != [] && p != []
    ensures MaxIndices(p) != {}
    ensures Top1(t, p) * |MaxIndices(p)| as real == |MaxIndices(t) * MaxIndices(p)| as real
  {
    hide MaxIndices, Share;
    NonEmpty(MaxIndices(p));
    ShareTimes(|MaxIndices(t) * MaxIndices(p)|, |MaxIndices(p)|);
  }

  lemma SameBestAsLogits(l: seq<real>, p: seq<real>)
    requires |p| == |l| && RanksAlike(l, p) && RanksAlike(p, l)
    ensures forall i: nat :: BestAt(l, i) <==> BestAt(p, i)
  {
    forall i: nat ensures BestAt(l, i) <==> BestAt(p, i) {
      if i < |l| {
        if BestAt(l, i) {
          forall j | 0 <= j < |p| ensures p[j] <= p[i] {
            assert !(l[j] > l[i]);
          }
        }
        if BestAt(p, i) {
          forall j | 0 <= j < |l| ensures l[j] <= l[i] {
            assert !(p[j] > p[i]);
          }
        }
      }
    }
  }

  lemma ShareTimes(part: nat, whole: nat)
    requires whole > 0
    ensures Share(part, whole) * whole as real == part as real
  {
  }

  // Pairwise accuracy by counting

  /** The pairs from (left, right) on, in reading order, that satisfy a test. */
  function PairsFrom(n: nat, left: nat, right: nat, test: (nat, nat) -> bool): set<(nat, nat)> {
    set i: nat, j: nat | i < n && j < n && i < j && (left < i || (i == left && right <= j)) && test(i, j) :: (i, j)
  }

  lemma PairsStep(n: nat, left: nat, right: nat, test: (nat, nat) -> bool)
    requires left < right < n
    ensures |PairsFrom(n, left, right, test)|
         == |PairsFrom(n, left, right + 1, test)| + if test(left, right) then 1 else 0
  {
    var rest := PairsFrom(n, left, right + 1, test);
    assert PairsFrom(n, left, right, test) == rest + if test(left, right) then {(left, right)} else {};
  }

  lemma PairsNext(n: nat, left: nat, test: (nat, nat) -> bool)
    requires left < n
    ensures PairsFrom(n, left, n, test) == PairsFrom(n, left + 1, left + 2, test)
    ensures left + 1 == n ==> PairsFrom(n, left, n, test) == {}
  {
  }

  function Separated(t: seq<real>): (nat, nat) -> bool {
    (i: nat, j: nat) => i < |t| && j < |t| && t[i] != t[j]
  }

  /** p orders the pair as t does. */
  function Agreeing(t: seq<real>, p: seq<real>): (nat, nat) -> bool
    requires |p| == |t|
  {
    (i: nat, j: nat) => i < |t| && j < |t| && ((t[i] > t[j] && p[i] > p[j]) || (t[i] < t[j] && p[i] < p[j]))
  }

  /** t separates the pair and p does not. */
  function Tying(t: seq<real>, p: seq<real>): (nat, nat) -> bool
    requires |p| == |t|
  {
    (i: nat, j: nat) => i < |t| && j < |t| && t[i] != t[j] && p[i] == p[j]
  }

  lemma JudgeCounts(a: real, b: real, x: real, y: real)
    requires a != b
    ensures Judge(a - b, x - y)
         == if (a > b && x > y) || (a < b && x < y) then 1.0 else if x == y then 0.5 else 0.0
  {
    JudgeMeans(a - b, x - y);
  }

  lemma {:induction false} CountsFrom(t: seq<real>, p: seq<real>, left: nat, right: nat)
    requires |p| == |t| && left < right <= |t|
    ensures var judged, n := ComparisonsWith(t, p, left, right) + Comparisons(t, p, left + 1), |t|;
            && |judged| == |PairsFrom(n, left, right, Separated(t))|
            && Total(judged) == |PairsFrom(n, left, right, Agreeing(t, p))| as real
                                + |PairsFrom(n, left, right, Tying(t, p))| as real / 2.0
    decreases |t| - left, |t| - right
  {
    hide PairsFrom, Total, Judge;
    var n := |t|;
    if right < n {
      CountsFrom(t, p, left, right + 1);
      PairsStep(n, left, right, Separated(t));
      PairsStep(n, left, right, Agreeing(t, p));
      PairsStep(n, left, right, Tying(t, p));
      var rest := ComparisonsWith(t, p, left, right + 1) + Comparisons(t, p, left + 1);
      if t[left] != t[right] {
        var x := Judge(t[left] - t[right], p[left] - p[right]);
        JudgeCounts(t[left], t[right], p[left], p[right]);
        TotalAddsUp([x], rest);
        assert ComparisonsWith(t, p, left, right) + Comparisons(t, p, left + 1) == [x] + rest;
      } else {
        assert ComparisonsWith(t, p, left, right) + Comparisons(t, p, left + 1) == rest;
      }
    } else {
      PairsNext(n, left, Separated(t));
      PairsNext(n, left, Agreeing(t, p));
      PairsNext(n, left, Tying(t, p));
      assert ComparisonsWith(t, p, left, n) + Comparisons(t, p, left + 1) == Comparisons(t, p, left + 1);
      if left + 1 < n {
        CountsFrom(t, p, left + 1, left + 2);
      } else {
        TotalAddsUp([], []);
      }
    }
  }

  /** Of the pairs that the target separates: those ordered alike, and half of those tied. */
  lemma PairwiseAccuracyCounts(t: seq<real>, p: seq<real>)
    requires |p| == |t| && PairwiseAccuracy(t, p).Some?
    ensures var n := |t|;
            && PairsFrom(n, 0, 1, Separated(t)) != {}
            && PairwiseAccuracy(t, p).value * |PairsFrom(n, 0, 1, Separated(t))| as real
               == |PairsFrom(n, 0, 1, Agreeing(t, p))| as real + |PairsFrom(n, 0, 1, Tying(t, p))| as real / 2.0
  {
    hide PairsFrom, Total, ComparisonsWith;
    CountsFrom(t, p, 0, 1);
    var judged := Comparisons(t, p, 0);
    QuotientTimes(Total(judged) / |judged| as real, Total(judged), |judged| as real);
  }

  lemma QuotientTimes(q: real, x: real, n: real)
    requires n > 0.0 && q == x / n
    ensures q * n == x
  {
  }

  // Shares of the softmax

  /** Shares stand to each other as the exponentials of the logits below the greatest one. */
  lemma SoftmaxProportion(exp: real -> real, logits: seq<real>, best: nat, i: nat, j: nat)
    requires BestAt(logits, best) && i < |logits| && j < |logits|
    ensures var p := Softmax(exp, logits);
            p[i] * exp(logits[j] - logits[best]) == p[j] * exp(logits[i] - logits[best])
  {
    hide Total;
    MaximumIs(logits, best);
    var top := Maximum(logits);
    var weights := seq(|logits|, k requires 0 <= k < |logits| => exp(logits[k] - top));
    var p, total := Softmax(exp, logits), Total(weights);
    if total == 0.0 {
      Commutes(weights[i], weights[j]);
    } else {
      assert p[i] == weights[i] / total && p[j] == weights[j] / total;
      CrossMultiplied(weights[i], weights[j], total);
    }
  }

  lemma MaximumIs(s: seq<real>, best: nat)
    requires BestAt(s, best)
    ensures Maximum(s) == s[best]
  {
    assert s[best] in s;
  }

  lemma Commutes(a: real, b: real)
    ensures a * b == b * a
  {
  }

  lemma CrossMultiplied(a: real, b: real, n: real)
    requires n != 0.0
    ensures a / n * b == b / n * a
  {
    var q := 1.0 / n;
    assert a / n == a * q && b / n == b * q;
    assert a * q * b == b * q * a;
  }
}

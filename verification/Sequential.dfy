/** The sequential test at its predeclared looks. */
module Sequential {
  import opened Common
  import opened ArenaStats

  datatype Boundary = Boundary(count: nat, alpha: real)

  datatype Plan = Plan(boundaries: seq<Boundary>, margin: real) {
    ghost predicate Valid() {
      && boundaries != []
      && (forall k :: 0 <= k < |boundaries| ==> boundaries[k].count > 0 && 0.0 < boundaries[k].alpha < 1.0)
      && (forall j, k :: 0 <= j < k < |boundaries| ==> boundaries[j].count < boundaries[k].count)
      && 0.0 <= margin < 1.0
    }

    function Target(): real {
      0.5 + margin / 2.0
    }

    function Maximum(): nat
      requires boundaries != []
    {
      boundaries[|boundaries| - 1].count
    }
  }

  datatype Interval = Interval(mean: real, lower: real, upper: real, level: real, count: nat)

  datatype Decision = Continue | Promote | Reject | Inconclusive

  datatype Outcome = Outcome(decision: Decision, observed: nat, evaluated: nat, interval: Option<Interval>,
                             boundary: Option<Boundary>)

  /** The Hoeffding radius for an error budget and a number of pairs; only its sign matters here. */
  type Radius = (real, nat) -> real

  function TotalScore(pairs: seq<Pair>): real {
    if pairs == [] then 0.0 else TotalScore(pairs[..|pairs| - 1]) + pairs[|pairs| - 1].Score()
  }

  function IntervalOf(pairs: seq<Pair>, level: real, radius: Radius): Interval
    requires pairs != []
  {
    var n := |pairs|;
    var mean, r := TotalScore(pairs) / n as real, radius(1.0 - level, n);
    Interval(mean, Max(0.0, mean - r), Min(1.0, mean + r), level, n)
  }

  function Look(pairs: seq<Pair>, b: Boundary, radius: Radius): Interval
    requires 0 < b.count <= |pairs|
  {
    IntervalOf(pairs[..b.count], 1.0 - b.alpha, radius)
  }

  /** Whether an interval lies wholly above or below the required score. */
  function Verdict(interval: Interval, target: real): Decision {
    if interval.lower > target then Promote else if interval.upper < target then Reject else Continue
  }

  /** Whether look k is due and decides. */
  predicate DecidedAt(pairs: seq<Pair>, plan: Plan, radius: Radius, k: nat) {
    && k < |plan.boundaries| && 0 < plan.boundaries[k].count <= |pairs|
    && Verdict(Look(pairs, plan.boundaries[k], radius), plan.Target()) != Continue
  }

  predicate Due(pairs: seq<Pair>, plan: Plan, k: nat) {
    k < |plan.boundaries| && plan.boundaries[k].count <= |pairs|
  }

  /** The outcome of the test: the earliest decisive look decides; without one the last
      due look is reported and the test is over exactly when all pairs were observed. */
  ghost predicate IsOutcome(pairs: seq<Pair>, plan: Plan, radius: Radius, o: Outcome)
    requires plan.Valid()
  {
    && o.observed == |pairs|
    && (o.decision.Promote? || o.decision.Reject? ==> DecidesFirst(pairs, plan, radius, o))
    && (o.decision.Continue? || o.decision.Inconclusive? ==> DecidesNever(pairs, plan, radius, o))
  }

  ghost predicate DecidesFirst(pairs: seq<Pair>, plan: Plan, radius: Radius, o: Outcome)
    requires plan.Valid()
  {
    exists k :: FirstDecision(pairs, plan, radius, k) && o == DecidedOutcome(pairs, plan, radius, k)
  }

  ghost predicate FirstDecision(pairs: seq<Pair>, plan: Plan, radius: Radius, k: nat) {
    DecidedAt(pairs, plan, radius, k) && forall j :: 0 <= j < k ==> !DecidedAt(pairs, plan, radius, j)
  }

  function DecidedOutcome(pairs: seq<Pair>, plan: Plan, radius: Radius, k: nat): Outcome
    requires DecidedAt(pairs, plan, radius, k)
  {
    var b := plan.boundaries[k];
    var interval := Look(pairs, b, radius);
    Outcome(Verdict(interval, plan.Target()), |pairs|, b.count, Some(interval), Some(b))
  }

  ghost predicate DecidesNever(pairs: seq<Pair>, plan: Plan, radius: Radius, o: Outcome)
    requires plan.Valid()
  {
    && (forall k :: !DecidedAt(pairs, plan, radius, k))
    && (o.decision.Inconclusive? <==> |pairs| == plan.Maximum())
    && match o.boundary
       case None => o.evaluated == 0 && o.interval == None && forall k :: !Due(pairs, plan, k)
       case Some(b) => LastLook(pairs, plan, radius, o, b)
  }

  ghost predicate LastLook(pairs: seq<Pair>, plan: Plan, radius: Radius, o: Outcome, b: Boundary) {
    exists k :: 0 <= k < |plan.boundaries| && plan.boundaries[k] == b
      && 0 < b.count <= |pairs| && !Due(pairs, plan, k + 1)
      && o.evaluated == b.count && o.interval == Some(Look(pairs, b, radius))
  }

  /** There is one outcome. */
  lemma OutcomeIsDetermined(pairs: seq<Pair>, plan: Plan, radius: Radius, o: Outcome, o': Outcome)
    requires plan.Valid() && IsOutcome(pairs, plan, radius, o) && IsOutcome(pairs, plan, radius, o')
    ensures o == o'
  {
    if o.decision.Promote? || o.decision.Reject? {
      var k :| FirstDecision(pairs, plan, radius, k) && o == DecidedOutcome(pairs, plan, radius, k);
      var k' :| FirstDecision(pairs, plan, radius, k') && o' == DecidedOutcome(pairs, plan, radius, k');
      assert k == k';
    } else {
      NeverIsDetermined(pairs, plan, radius, o, o');
    }
  }

  lemma DueBefore(pairs: seq<Pair>, plan: Plan, i: nat, j: nat)
    requires plan.Valid() && Due(pairs, plan, j)
    ensures i <= j ==> Due(pairs, plan, i)
  {
  }

  lemma NeverIsDetermined(pairs: seq<Pair>, plan: Plan, radius: Radius, o: Outcome, o': Outcome)
    requires plan.Valid() && IsOutcome(pairs, plan, radius, o) && IsOutcome(pairs, plan, radius, o')
    requires o.decision.Continue? || o.decision.Inconclusive?
    ensures o == o'
  {
    assert !o'.decision.Promote? && !o'.decision.Reject?;
    LookedWhenDue(pairs, plan, radius, o);
    LookedWhenDue(pairs, plan, radius, o');
    if o.boundary.Some? {
      var k: nat :| IsLastLook(pairs, plan, radius, o, k);
      var k': nat :| IsLastLook(pairs, plan, radius, o', k');
      DueBefore(pairs, plan, k + 1, k');
      DueBefore(pairs, plan, k' + 1, k);
    }
  }

  /** A look was taken exactly when some look was due. */
  lemma LookedWhenDue(pairs: seq<Pair>, plan: Plan, radius: Radius, o: Outcome)
    requires plan.Valid() && DecidesNever(pairs, plan, radius, o)
    ensures o.boundary.Some? <==> exists k: nat :: Due(pairs, plan, k)
    ensures o.boundary.Some? ==> exists k: nat :: IsLastLook(pairs, plan, radius, o, k)
  {
    if o.boundary.Some? {
      var k: nat :| k < |plan.boundaries| && plan.boundaries[k] == o.boundary.value && !Due(pairs, plan, k + 1)
                    && o.evaluated == o.boundary.value.count && o.boundary.value.count <= |pairs|
                    && o.interval == Some(Look(pairs, o.boundary.value, radius));
      assert Due(pairs, plan, k) && IsLastLook(pairs, plan, radius, o, k);
    }
  }

  /** Look k is the last one due, and the one reported. */
  ghost predicate IsLastLook(pairs: seq<Pair>, plan: Plan, radius: Radius, o: Outcome, k: nat)
    requires plan.Valid()
  {
    && Due(pairs, plan, k) && !Due(pairs, plan, k + 1)
    && o.boundary == Some(plan.boundaries[k]) && o.evaluated == plan.boundaries[k].count
    && o.interval == Some(Look(pairs, plan.boundaries[k], radius))
  }

  /** Look at the pairs boundary after boundary. */
  method DecidePairs(pairs: seq<Pair>, plan: Plan, radius: Radius) returns (o: Outcome)
    requires plan.Valid() && |pairs| <= plan.Maximum()
    ensures IsOutcome(pairs, plan, radius, o)
  {
    var observed := |pairs|;
    var lastInterval: Option<Interval>, lastBoundary: Option<Boundary> := None, None;
    var k := 0;
    while k < |plan.boundaries| && plan.boundaries[k].count <= observed
      invariant 0 <= k <= |plan.boundaries|
      invariant forall j :: 0 <= j < k ==> plan.boundaries[j].count <= observed && !DecidedAt(pairs, plan, radius, j)
      invariant k == 0 ==> lastInterval == None && lastBoundary == None
      invariant k > 0 ==> lastBoundary == Some(plan.boundaries[k - 1])
                          && lastInterval == Some(Look(pairs, plan.boundaries[k - 1], radius))
    {
      var boundary := plan.boundaries[k];
      var interval := IntervalOf(pairs[..boundary.count], 1.0 - boundary.alpha, radius);
      lastInterval, lastBoundary := Some(interval), Some(boundary);
      var decision := Verdict(interval, plan.Target());
      if decision != Continue {
        o := Outcome(decision, observed, boundary.count, Some(interval), Some(boundary));
        assert FirstDecision(pairs, plan, radius, k) && o == DecidedOutcome(pairs, plan, radius, k);
        return;
      }
      k := k + 1;
    }
    o := Outcome(if observed == plan.Maximum() then Inconclusive else Continue, observed,
                 if lastBoundary.Some? then lastBoundary.value.count else 0, lastInterval, lastBoundary);
    NotDueFrom(pairs, plan, k);
    NeverDecided(pairs, plan, radius, k);
    if k > 0 {
      assert LastLook(pairs, plan, radius, o, plan.boundaries[k - 1]);
    }
  }

  lemma NotDueFrom(pairs: seq<Pair>, plan: Plan, k: nat)
    requires plan.Valid() && k <= |plan.boundaries|
    requires k < |plan.boundaries| ==> plan.boundaries[k].count > |pairs|
    ensures forall j :: j >= k ==> !Due(pairs, plan, j)
  {
  }

  lemma NeverDecided(pairs: seq<Pair>, plan: Plan, radius: Radius, k: nat)
    requires forall j :: 0 <= j < k ==> !DecidedAt(pairs, plan, radius, j)
    requires forall j :: j >= k ==> !Due(pairs, plan, j)
    ensures forall j :: !DecidedAt(pairs, plan, radius, j)
  {
    forall j: nat ensures !DecidedAt(pairs, plan, radius, j) {
      if j >= k {
        assert !Due(pairs, plan, j);
      }
    }
  }

  /** Pair the rows and test them; more pairs than planned are rejected. */
  method EvaluateSequential(rows: seq<Game>, plan: Plan, radius: Radius) returns (r: Result<Outcome>)
    requires plan.Valid()
    ensures r.Success? ==> Paired(rows)
    ensures Paired(rows) ==> forall pairs :: IsPairing(rows, pairs) ==>
              (r.Success? <==> |pairs| <= plan.Maximum()) && (r.Success? ==> IsOutcome(pairs, plan, radius, r.value))
  {
    var paired := PairSeedScores(rows);
    if paired.Failure? {
      return Failure;
    }
    var pairs := paired.value;
    forall p | IsPairing(rows, p) ensures p == pairs {
      PairingIsUnique(rows, rows, p, pairs);
    }
    if |pairs| > plan.Maximum() {
      return Failure;
    }
    var o := DecidePairs(pairs, plan, radius);
    r := Success(o);
  }

  // Properties of the test

  /** A decision stands when pairs of larger seeds are added, up to the planned maximum. */
  lemma DecisionStands(pairs: seq<Pair>, more: seq<Pair>, plan: Plan, radius: Radius, o: Outcome, o': Outcome)
    requires plan.Valid() && pairs <= more
    requires IsOutcome(pairs, plan, radius, o) && IsOutcome(more, plan, radius, o')
    requires o.decision.Promote? || o.decision.Reject?
    ensures o' == o.(observed := |more|)
  {
    var k: nat :| FirstDecision(pairs, plan, radius, k) && o == DecidedOutcome(pairs, plan, radius, k);
    forall j: nat | j <= k ensures DecidedAt(pairs, plan, radius, j) <==> DecidedAt(more, plan, radius, j) {
      SameLook(pairs, more, plan, radius, j, k);
    }
    SameLook(pairs, more, plan, radius, k, k);
    var expected := DecidedOutcome(more, plan, radius, k);
    assert FirstDecision(more, plan, radius, k);
    assert DecidesFirst(more, plan, radius, expected);
    OutcomeIsDetermined(more, plan, radius, o', expected);
  }

  lemma SameLook(pairs: seq<Pair>, more: seq<Pair>, plan: Plan, radius: Radius, j: nat, k: nat)
    requires plan.Valid() && pairs <= more && j <= k && Due(pairs, plan, k)
    ensures Due(pairs, plan, j) && Look(pairs, plan.boundaries[j], radius) == Look(more, plan.boundaries[j], radius)
    ensures DecidedAt(pairs, plan, radius, j) <==> DecidedAt(more, plan, radius, j)
  {
    DueBefore(pairs, plan, j, k);
    var n := plan.boundaries[j].count;
    assert pairs[..n] == more[..n];
  }

  /** The same for observed games: later games of larger seeds do not change a decision. */
  lemma DecisionStandsForRows(rows: seq<Game>, rows': seq<Game>, p: seq<Pair>, q: seq<Pair>, plan: Plan, radius: Radius,
                              o: Outcome, o': Outcome)
    requires plan.Valid() && AddsLargerSeeds(rows, rows') && IsPairing(rows, p) && IsPairing(rows', q)
    requires IsOutcome(p, plan, radius, o) && IsOutcome(q, plan, radius, o')
    requires o.decision.Promote? || o.decision.Reject?
    ensures o' == o.(observed := |q|)
  {
    LargerSeedsComeAfter(rows, rows', p, q);
    DecisionStands(p, q, plan, radius, o, o');
  }

  /** The outcome does not depend on the order of the observations. */
  lemma OrderDoesNotMatter(rows: seq<Game>, rows': seq<Game>, p: seq<Pair>, q: seq<Pair>, plan: Plan, radius: Radius,
                           o: Outcome, o': Outcome)
    requires plan.Valid() && forall x :: x in rows <==> x in rows'
    requires IsPairing(rows, p) && IsPairing(rows', q)
    requires IsOutcome(p, plan, radius, o) && IsOutcome(q, plan, radius, o')
    ensures o == o'
  {
    PairingIsUnique(rows, rows', p, q);
    OutcomeIsDetermined(p, plan, radius, o, o');
  }

  lemma {:induction false} TotalInRange(pairs: seq<Pair>)
    requires forall k :: 0 <= k < |pairs| ==> 0.0 <= pairs[k].red <= 1.0 && 0.0 <= pairs[k].blue <= 1.0
    ensures 0.0 <= TotalScore(pairs) <= |pairs| as real
  {
    if pairs != [] {
      TotalInRange(pairs[..|pairs| - 1]);
    }
  }

  lemma Average(total: real, n: nat)
    requires n > 0 && 0.0 <= total <= n as real
    ensures 0.0 <= total / n as real <= 1.0
  {
  }

  /** With a non-negative radius the interval holds the mean and stays inside [0, 1]. */
  lemma IntervalHoldsMean(pairs: seq<Pair>, level: real, radius: Radius)
    requires pairs != [] && radius(1.0 - level, |pairs|) >= 0.0
    requires forall k :: 0 <= k < |pairs| ==> 0.0 <= pairs[k].red <= 1.0 && 0.0 <= pairs[k].blue <= 1.0
    ensures var i := IntervalOf(pairs, level, radius); 0.0 <= i.lower <= i.mean <= i.upper <= 1.0
  {
    TotalInRange(pairs);
    Average(TotalScore(pairs), |pairs|);
  }

  // What a decision means

  /** At look k the first pairs' mean score lies above, or below, the required score by more
      than the radius of the look's own error probability. */
  predicate AboveAt(pairs: seq<Pair>, plan: Plan, radius: Radius, k: nat) {
    && k < |plan.boundaries| && 0 < plan.boundaries[k].count <= |pairs|
    && var n := plan.boundaries[k].count;
       TotalScore(pairs[..n]) / n as real - radius(plan.boundaries[k].alpha, n) > 0.5 + plan.margin / 2.0
  }

  predicate BelowAt(pairs: seq<Pair>, plan: Plan, radius: Radius, k: nat) {
    && k < |plan.boundaries| && 0 < plan.boundaries[k].count <= |pairs|
    && var n := plan.boundaries[k].count;
       TotalScore(pairs[..n]) / n as real + radius(plan.boundaries[k].alpha, n) < 0.5 + plan.margin / 2.0
  }

  /** No look before k is decisive. */
  ghost predicate OpenBefore(pairs: seq<Pair>, plan: Plan, radius: Radius, k: nat) {
    forall j: nat :: j < k ==> !AboveAt(pairs, plan, radius, j) && !BelowAt(pairs, plan, radius, j)
  }

  ghost predicate FirstAbove(pairs: seq<Pair>, plan: Plan, radius: Radius, k: nat) {
    AboveAt(pairs, plan, radius, k) && OpenBefore(pairs, plan, radius, k)
  }

  ghost predicate FirstBelow(pairs: seq<Pair>, plan: Plan, radius: Radius, k: nat) {
    && BelowAt(pairs, plan, radius, k) && !AboveAt(pairs, plan, radius, k)
    && OpenBefore(pairs, plan, radius, k)
  }

  lemma VerdictMeans(pairs: seq<Pair>, plan: Plan, radius: Radius, k: nat)
    requires plan.Valid() && Due(pairs, plan, k)
    ensures var v := Verdict(Look(pairs, plan.boundaries[k], radius), plan.Target());
            && (v == Promote <==> AboveAt(pairs, plan, radius, k))
            && (v == Reject <==> BelowAt(pairs, plan, radius, k) && !AboveAt(pairs, plan, radius, k))
            && (v == Continue <==> !DecidedAt(pairs, plan, radius, k)) && v != Inconclusive
  {
    var b := plan.boundaries[k];
    assert 1.0 - (1.0 - b.alpha) == b.alpha;
    assert |pairs[..b.count]| == b.count;
  }

  lemma DecisiveMeans(pairs: seq<Pair>, plan: Plan, radius: Radius, k: nat)
    requires plan.Valid()
    ensures DecidedAt(pairs, plan, radius, k) <==> AboveAt(pairs, plan, radius, k) || BelowAt(pairs, plan, radius, k)
  {
    if Due(pairs, plan, k) {
      VerdictMeans(pairs, plan, radius, k);
    }
  }

  /** Promotion means that at the earliest decisive look the mean score, less the radius, is above
      the required score; rejection that, with the radius added, it is below; and the test
      is inconclusive when all planned pairs are in and no look was decisive. */
  lemma DecisionMeans(pairs: seq<Pair>, plan: Plan, radius: Radius, o: Outcome)
    requires plan.Valid() && IsOutcome(pairs, plan, radius, o)
    ensures o.decision.Promote? <==> exists k: nat :: FirstAbove(pairs, plan, radius, k)
    ensures o.decision.Reject? <==> exists k: nat :: FirstBelow(pairs, plan, radius, k)
    ensures o.decision.Inconclusive? <==>
              |pairs| == plan.boundaries[|plan.boundaries| - 1].count
              && OpenBefore(pairs, plan, radius, |plan.boundaries|)
    ensures o.decision.Promote? ==> o.interval.Some? && o.interval.value.lower > 0.5 + plan.margin / 2.0
    ensures o.decision.Reject? ==> o.interval.Some? && o.interval.value.upper < 0.5 + plan.margin / 2.0
  {
    hide AboveAt, BelowAt, Look, Verdict;
    forall j: nat
      ensures DecidedAt(pairs, plan, radius, j) <==> AboveAt(pairs, plan, radius, j) || BelowAt(pairs, plan, radius, j)
    {
      DecisiveMeans(pairs, plan, radius, j);
    }
    if o.decision.Promote? || o.decision.Reject? {
      var k: nat :| FirstDecision(pairs, plan, radius, k) && o == DecidedOutcome(pairs, plan, radius, k);
      VerdictMeans(pairs, plan, radius, k);
      VerdictBounds(Look(pairs, plan.boundaries[k], radius), plan.Target());
      if o.decision.Promote? {
        assert FirstAbove(pairs, plan, radius, k);
        assert forall j: nat :: FirstBelow(pairs, plan, radius, j) ==> j >= k;
      } else {
        assert FirstBelow(pairs, plan, radius, k);
        assert forall j: nat :: FirstAbove(pairs, plan, radius, j) ==> j >= k;
      }
    } else {
      NoneDecisive(pairs, plan, radius);
    }
  }

  /** The interval covers the first n pairs: their mean score and, cut to the unit interval, the
      radius on either side of it. */
  predicate Covers(i: Interval, pairs: seq<Pair>, b: Boundary, r: real) {
    && b.count <= |pairs|
    && i.count == b.count && i.level == 1.0 - b.alpha
    && i.mean * b.count as real == TotalScore(pairs[..b.count])
    && i.lower >= 0.0 && i.lower >= i.mean - r && i.lower in {0.0, i.mean - r}
    && i.upper <= 1.0 && i.upper <= i.mean + r && i.upper in {1.0, i.mean + r}
  }

  /** The outcome reports look k. */
  ghost predicate ReportedAt(pairs: seq<Pair>, plan: Plan, radius: Radius, o: Outcome, k: nat) {
    && k < |plan.boundaries| && o.boundary == Some(plan.boundaries[k]) && o.evaluated == plan.boundaries[k].count
    && o.interval.Some?
    && Covers(o.interval.value, pairs, plan.boundaries[k], radius(plan.boundaries[k].alpha, plan.boundaries[k].count))
  }

  /** A decisive look is reported itself. */
  lemma DecidedReport(pairs: seq<Pair>, plan: Plan, radius: Radius, o: Outcome) returns (k: nat)
    requires plan.Valid() && IsOutcome(pairs, plan, radius, o)
    requires o.decision == Promote || o.decision == Reject
    ensures ReportedAt(pairs, plan, radius, o, k) && o.observed == |pairs|
  {
    hide Look, Verdict, Covers;
    k :| FirstDecision(pairs, plan, radius, k) && o == DecidedOutcome(pairs, plan, radius, k);
    LookCovers(pairs, plan, radius, k);
  }

  /** Without one the last look due is reported, and none before the first is due. */
  lemma UndecidedReport(pairs: seq<Pair>, plan: Plan, radius: Radius, o: Outcome) returns (k: nat)
    requires plan.Valid() && IsOutcome(pairs, plan, radius, o)
    requires o.decision == Continue || o.decision == Inconclusive
    ensures o.observed == |pairs|
    ensures o.boundary == None <==> |pairs| < plan.boundaries[0].count
    ensures o.boundary == None ==> o.evaluated == 0 && o.interval == None
    ensures o.boundary != None ==>
              && ReportedAt(pairs, plan, radius, o, k)
              && (k + 1 < |plan.boundaries| ==> |pairs| < plan.boundaries[k + 1].count)
  {
    hide Look, Verdict, Covers, LastLook;
    LookedWhenDue(pairs, plan, radius, o);
    k := 0;
    if o.boundary.Some? {
      k :| IsLastLook(pairs, plan, radius, o, k);
      LookCovers(pairs, plan, radius, k);
      DueBefore(pairs, plan, 0, k);
    } else {
      assert !Due(pairs, plan, 0);
    }
  }

  lemma LookCovers(pairs: seq<Pair>, plan: Plan, radius: Radius, k: nat)
    requires plan.Valid() && Due(pairs, plan, k)
    ensures var b := plan.boundaries[k];
            Covers(Look(pairs, b, radius), pairs, b, radius(b.alpha, b.count))
  {
    assert 1.0 - (1.0 - plan.boundaries[k].alpha) == plan.boundaries[k].alpha;
  }

  lemma VerdictBounds(i: Interval, target: real)
    ensures Verdict(i, target) == Promote ==> i.lower > target
    ensures Verdict(i, target) == Reject ==> i.upper < target
  {
  }

  lemma NoneDecisive(pairs: seq<Pair>, plan: Plan, radius: Radius)
    requires plan.Valid() && forall k: nat :: !DecidedAt(pairs, plan, radius, k)
    ensures OpenBefore(pairs, plan, radius, |plan.boundaries|)
    ensures !exists k: nat :: FirstAbove(pairs, plan, radius, k)
    ensures !exists k: nat :: FirstBelow(pairs, plan, radius, k)
  {
    forall k: nat ensures !AboveAt(pairs, plan, radius, k) && !BelowAt(pairs, plan, radius, k) {
      DecisiveMeans(pairs, plan, radius, k);
    }
  }

  // What a score means

  lemma {:induction false} ConstantTotal(pairs: seq<Pair>, score: real)
    requires forall k :: 0 <= k < |pairs| ==> pairs[k].red == score && pairs[k].blue == score
    ensures TotalScore(pairs) == score * |pairs| as real
  {
    if pairs != [] {
      var n := |pairs| - 1;
      ConstantTotal(pairs[..n], score);
      assert pairs[n].Score() == score;
      assert score * (n + 1) as real == score * n as real + score;
    }
  }

  /** Scores add up: a pair's is the mean of its two games', and pairs taken together score what
      they score apart. */
  lemma {:induction false} ScoresAddUp(a: seq<Pair>, b: seq<Pair>)
    ensures TotalScore([]) == 0.0
    ensures forall p: Pair :: 2.0 * TotalScore([p]) == p.red + p.blue
    ensures TotalScore(a + b) == TotalScore(a) + TotalScore(b)
  {
    forall p: Pair ensures 2.0 * TotalScore([p]) == p.red + p.blue {
      assert [p][..0] == [];
    }
    if b == [] {
      assert a + b == a;
    } else {
      var n := |b| - 1;
      ScoresAddUp(a, b[..n]);
      assert (a + b)[..|a + b| - 1] == a + b[..n];
    }
  }

  /** How a game ended for the candidate. */
  datatype Ending = Won | Drawn | Lost

  predicate Ends(row: Game, ending: Ending) {
    match ending
    case Won => row.winner == Some(row.side)
    case Drawn => row.winner == None
    case Lost => row.winner.Some? && row.winner.value != row.side
  }

  function Worth(ending: Ending): real {
    match ending
    case Won => 1.0
    case Drawn => 0.5
    case Lost => 0.0
  }

  /** A pair is one seed with the worth of the game played from either side. */
  lemma PairMeans(rows: seq<Game>, pairs: seq<Pair>, k: nat, i: nat, j: nat, first: Ending, second: Ending)
    requires IsPairing(rows, pairs) && k < |pairs| && i < |rows| && j < |rows|
    requires rows[i].seed == rows[j].seed == pairs[k].seed && rows[i].side == Red && rows[j].side == Blue
    requires Ends(rows[i], first) && Ends(rows[j], second)
    ensures pairs[k].red == Worth(first) && pairs[k].blue == Worth(second)
  {
    assert ScoredBy(rows[i], pairs[k]) && ScoredBy(rows[j], pairs[k]);
  }

  /** What is paired: games played to their end, no two of one seed from one side, and of every
      seed one from each side. */
  lemma PairedMeans(rows: seq<Game>)
    ensures Paired(rows) <==>
              && (forall i :: 0 <= i < |rows| ==> rows[i].reason == "game_over")
              && (forall i, j :: 0 <= i < j < |rows| ==> rows[i].seed != rows[j].seed || rows[i].side != rows[j].side)
              && forall i, side: Side :: 0 <= i < |rows| ==> Present(rows, rows[i].seed, side)
  {
    hide Present;
    if Paired(rows) {
      forall i, side: Side | 0 <= i < |rows| ensures Present(rows, rows[i].seed, side) {
        assert side == Red || side == Blue;
      }
    }
    assert (forall i :: 0 <= i < |rows| ==> rows[i].reason == "game_over")
      <==> forall i :: 0 <= i < |rows| ==> rows[i].Terminal();
  }

  lemma SweepPairs(rows: seq<Game>, pairs: seq<Pair>, ending: Ending, k: nat)
    requires IsPairing(rows, pairs) && k < |pairs|
    requires forall i :: 0 <= i < |rows| ==> Ends(rows[i], ending)
    ensures pairs[k].red == Worth(ending) && pairs[k].blue == Worth(ending)
  {
    assert Present(rows, pairs[k].seed, Red) && Present(rows, pairs[k].seed, Blue);
    var i :| 0 <= i < |rows| && rows[i].seed == pairs[k].seed && rows[i].side == Red;
    var j :| 0 <= j < |rows| && rows[j].seed == pairs[k].seed && rows[j].side == Blue;
    assert ScoredBy(rows[i], pairs[k]) && ScoredBy(rows[j], pairs[k]);
  }

  /** A candidate that wins every game has mean score 1 at every look, one that draws them all a
      half, and one that loses them all 0. */
  lemma SweepMean(rows: seq<Game>, pairs: seq<Pair>, ending: Ending, n: nat, level: real, radius: Radius)
    requires IsPairing(rows, pairs) && 0 < n <= |pairs|
    requires forall i :: 0 <= i < |rows| ==> Ends(rows[i], ending)
    ensures IntervalOf(pairs[..n], level, radius).mean == Worth(ending)
    ensures TotalScore(pairs[..n]) / n as real == Worth(ending)
  {
    forall k | 0 <= k < n ensures pairs[..n][k].red == Worth(ending) && pairs[..n][k].blue == Worth(ending) {
      SweepPairs(rows, pairs, ending, k);
    }
    ConstantTotal(pairs[..n], Worth(ending));
    assert Worth(ending) * n as real / n as real == Worth(ending);
  }

  /** Once the first look is due and its radius is small enough, a candidate that won every game
      is promoted and one that lost every game is rejected. */
  lemma SweepDecides(rows: seq<Game>, pairs: seq<Pair>, ending: Ending, plan: Plan, radius: Radius, o: Outcome)
    requires plan.Valid() && IsPairing(rows, pairs) && IsOutcome(pairs, plan, radius, o)
    requires forall i :: 0 <= i < |rows| ==> Ends(rows[i], ending)
    requires plan.boundaries[0].count <= |pairs|
    ensures var r := radius(plan.boundaries[0].alpha, plan.boundaries[0].count);
            && (ending.Won? && r < 0.5 - plan.margin / 2.0 ==> o.decision == Promote)
            && (ending.Lost? && 0.0 <= r < 0.5 + plan.margin / 2.0 ==> o.decision == Reject)
  {
    var n := plan.boundaries[0].count;
    SweepMean(rows, pairs, ending, n, 0.5, radius);
    DecisionMeans(pairs, plan, radius, o);
    var r := radius(plan.boundaries[0].alpha, n);
    if ending.Won? && r < 0.5 - plan.margin / 2.0 {
      assert FirstAbove(pairs, plan, radius, 0);
    }
    if ending.Lost? && 0.0 <= r < 0.5 + plan.margin / 2.0 {
      assert FirstBelow(pairs, plan, radius, 0);
    }
  }
}

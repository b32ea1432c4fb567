/** A sequential arena stage over its checkpoint file, interrupted and resumed. */
module ArenaStage {
  import opened Common
  import opened ArenaStats
  import opened Sequential

  /** A case is one seed played from one side in one experiment. */
  type CaseId = (string, int, Side)

  function Id(g: Game): CaseId {
    (g.identity, g.seed, g.side)
  }

  function Ids(cases: seq<Game>): set<CaseId> {
    if cases == [] then {} else Ids(cases[..|cases| - 1]) + {Id(cases[|cases| - 1])}
  }

  lemma {:induction false} IdsAre(cases: seq<Game>, id: CaseId)
    ensures id in Ids(cases) <==> exists c :: 0 <= c < |cases| && Id(cases[c]) == id
  {
    if cases != [] {
      var n := |cases| - 1;
      IdsAre(cases[..n], id);
      if id in Ids(cases[..n]) {
        var c :| 0 <= c < n && Id(cases[..n][c]) == id;
        assert Id(cases[c]) == id;
      }
      if c :| 0 <= c < |cases| && Id(cases[c]) == id {
        assert c < n ==> Id(cases[..n][c]) == id;
      }
    }
  }

  /** The games a deterministic runner plays: both sides of every seed, seeds ascending. */
  ghost predicate IsSchedule(schedule: seq<Game>, identity: string, seeds: seq<int>) {
    && Ascending(seeds) && |schedule| == 2 * |seeds|
    && forall i :: 0 <= i < |seeds| ==>
         && Id(schedule[2 * i]) == (identity, seeds[i], Red)
         && Id(schedule[2 * i + 1]) == (identity, seeds[i], Blue)
  }

  lemma CaseAt(schedule: seq<Game>, identity: string, seeds: seq<int>, c: nat) returns (i: nat)
    requires IsSchedule(schedule, identity, seeds) && c < |schedule|
    ensures i < |seeds| && (c == 2 * i || c == 2 * i + 1)
    ensures schedule[c].seed == seeds[i] && schedule[c].side == (if c == 2 * i then Red else Blue)
    ensures Id(schedule[c]) == (identity, seeds[i], schedule[c].side)
  {
    i := c / 2;
  }

  lemma CasesAreDistinct(schedule: seq<Game>, identity: string, seeds: seq<int>, c: nat, d: nat)
    requires IsSchedule(schedule, identity, seeds) && c < d < |schedule|
    ensures (schedule[c].seed, schedule[c].side) != (schedule[d].seed, schedule[d].side)
  {
    var i := CaseAt(schedule, identity, seeds, c);
    var j := CaseAt(schedule, identity, seeds, d);
  }

  // The checkpoint file

  /** The rows whose case is scheduled. */
  function Keep(rows: seq<Game>, ids: set<CaseId>): seq<Game> {
    if rows == [] then []
    else
      var kept, last := Keep(rows[..|rows| - 1], ids), rows[|rows| - 1];
      if Id(last) in ids then kept + [last] else kept
  }

  lemma {:induction false} KeepTwice(rows: seq<Game>, all: set<CaseId>, some: set<CaseId>)
    requires some <= all
    ensures Keep(Keep(rows, all), some) == Keep(rows, some)
  {
    if rows != [] {
      var init, last := rows[..|rows| - 1], rows[|rows| - 1];
      KeepTwice(init, all, some);
      var kept := Keep(init, all);
      assert (kept + [last])[..|kept|] == kept;
    }
  }

  /** Of a prefix of the schedule, the cases of a shorter prefix are that prefix. */
  lemma {:induction false} KeepOfPrefix(schedule: seq<Game>, identity: string, seeds: seq<int>, m: nat, n: nat)
    requires IsSchedule(schedule, identity, seeds) && m <= |schedule| && n <= |schedule|
    ensures Keep(schedule[..m], Ids(schedule[..n])) == schedule[..if m < n then m else n]
  {
    if m > 0 {
      KeepOfPrefix(schedule, identity, seeds, m - 1, n);
      assert schedule[..m][..m - 1] == schedule[..m - 1];
      IdsAre(schedule[..n], Id(schedule[m - 1]));
      if m - 1 < n {
        assert Id(schedule[..n][m - 1]) == Id(schedule[m - 1]);
      } else {
        forall c | 0 <= c < n ensures Id(schedule[c]) != Id(schedule[m - 1]) {
          CasesAreDistinct(schedule, identity, seeds, c, m - 1);
        }
      }
    }
  }

  lemma IdsGrow(schedule: seq<Game>, n: nat)
    requires n <= |schedule|
    ensures Ids(schedule[..n]) <= Ids(schedule)
  {
    forall id | id in Ids(schedule[..n]) ensures id in Ids(schedule) {
      IdsAre(schedule[..n], id);
      IdsAre(schedule, id);
      var c :| 0 <= c < n && Id(schedule[..n][c]) == id;
      assert Id(schedule[c]) == id;
    }
  }

  /** Compaction to the first n cases keeps the played prefix up to there. */
  lemma Compacted(file: seq<Game>, schedule: seq<Game>, identity: string, seeds: seq<int>, m: nat, n: nat)
    requires IsSchedule(schedule, identity, seeds) && m <= |schedule| && n <= |schedule|
    requires Keep(file, Ids(schedule)) == schedule[..m]
    ensures Keep(file, Ids(schedule[..n])) == schedule[..if m < n then m else n]
    ensures Keep(schedule[..m], Ids(schedule)) == schedule[..m]
  {
    IdsGrow(schedule, n);
    KeepTwice(file, Ids(schedule), Ids(schedule[..n]));
    KeepOfPrefix(schedule, identity, seeds, m, n);
    KeepOfPrefix(schedule, identity, seeds, m, |schedule|);
    assert schedule[..|schedule|] == schedule;
  }

  lemma PlayedIsScheduled(schedule: seq<Game>, identity: string, seeds: seq<int>, m: nat)
    requires IsSchedule(schedule, identity, seeds) && m <= |schedule|
    ensures Keep(schedule[..m], Ids(schedule)) == schedule[..m]
  {
    KeepOfPrefix(schedule, identity, seeds, m, |schedule|);
    assert schedule[..|schedule|] == schedule;
  }

  /** A case is cached exactly when it was played. */
  lemma CachedIffPlayed(schedule: seq<Game>, identity: string, seeds: seq<int>, m: nat, c: nat)
    requires IsSchedule(schedule, identity, seeds) && m <= |schedule| && c < |schedule|
    ensures Id(schedule[c]) in Ids(schedule[..m]) <==> c < m
  {
    var file := schedule[..m];
    IdsAre(file, Id(schedule[c]));
    if c < m {
      assert Id(file[c]) == Id(schedule[c]);
    } else {
      forall d | 0 <= d < |file| ensures Id(file[d]) != Id(schedule[c]) {
        CasesAreDistinct(schedule, identity, seeds, d, c);
      }
    }
  }

  // Counting completed pairs

  predicate Both(rows: seq<Game>, seed: int) {
    Present(rows, seed, Red) && Present(rows, seed, Blue)
  }

  predicate Neither(rows: seq<Game>, seed: int) {
    !Present(rows, seed, Red) && !Present(rows, seed, Blue)
  }

  /** The rows are n full pairs of the first seeds plus at most one partial pair after them. */
  ghost predicate SeedPrefix(rows: seq<Game>, seeds: seq<int>, n: nat) {
    && n <= |seeds|
    && (forall i :: 0 <= i < n ==> Both(rows, seeds[i]))
    && (n < |seeds| ==> !Both(rows, seeds[n]))
    && (forall i :: n < i < |seeds| ==> Neither(rows, seeds[i]))
  }

  lemma SeedPrefixIsUnique(rows: seq<Game>, seeds: seq<int>, n: nat, m: nat)
    requires SeedPrefix(rows, seeds, n) && SeedPrefix(rows, seeds, m)
    ensures n == m
  {
  }

  predicate Observed(sides: map<int, set<Side>>, seed: int, side: Side) {
    seed in sides && side in sides[seed]
  }

  /** The table holds the sides observed for each seed. */
  ghost predicate SidesOf(rows: seq<Game>, sides: map<int, set<Side>>) {
    && (forall seed, side :: Observed(sides, seed, side) <==> Present(rows, seed, side))
    && (forall seed :: seed in sides ==> Observed(sides, seed, Red) || Observed(sides, seed, Blue))
  }

  lemma SidesSnoc(rows: seq<Game>, sides: map<int, set<Side>>, row: Game)
    requires SidesOf(rows, sides)
    ensures var before := if row.seed in sides then sides[row.seed] else {};
            SidesOf(rows + [row], sides[row.seed := before + {row.side}])
  {
    var before := if row.seed in sides then sides[row.seed] else {};
    var after := sides[row.seed := before + {row.side}];
    forall seed, side ensures Observed(after, seed, side) <==> Present(rows + [row], seed, side) {
      PresentSnoc(rows, row, seed, side);
      assert Observed(after, seed, side) <==> Observed(sides, seed, side) || (seed == row.seed && side == row.side);
    }
    forall seed | seed in after ensures Observed(after, seed, Red) || Observed(after, seed, Blue) {
      assert seed == row.seed ==> Observed(after, seed, row.side);
    }
  }

  /** The sides observed for each seed. */
  method SidesBySeed(rows: seq<Game>) returns (sides: map<int, set<Side>>)
    ensures SidesOf(rows, sides)
  {
    sides := map[];
    for i := 0 to |rows|
      invariant SidesOf(rows[..i], sides)
    {
      assert rows[..i + 1] == rows[..i] + [rows[i]];
      SidesSnoc(rows[..i], sides, rows[i]);
      var before := if rows[i].seed in sides then sides[rows[i].seed] else {};
      sides := sides[rows[i].seed := before + {rows[i].side}];
    }
    assert rows[..|rows|] == rows;
  }

  /** How many pairs are complete; anything but a seed prefix is rejected. */
  method CompletedPrefixCount(rows: seq<Game>, seeds: seq<int>) returns (r: Result<nat>)
    ensures r.Success? ==> SeedPrefix(rows, seeds, r.value)
    ensures r.Failure? ==> forall n :: !SeedPrefix(rows, seeds, n)
  {
    var sides := SidesBySeed(rows);
    AbsentIsNeither(rows, sides);
    var last := -1;
    for index := 0 to |seeds|
      invariant -1 <= last < index
      invariant last >= 0 ==> seeds[last] in sides
      invariant forall i :: last < i < index ==> seeds[i] !in sides
    {
      if seeds[index] in sides {
        last := index;
      }
    }
    if last < 0 {
      return Success(0);
    }
    for index := 0 to last
      invariant forall i :: 0 <= i < index ==> Both(rows, seeds[i])
    {
      if !Observed(sides, seeds[index], Red) || !Observed(sides, seeds[index], Blue) {
        GapIsNoPrefix(rows, seeds, index, last);
        return Failure;
      }
    }
    r := Success(last + if Observed(sides, seeds[last], Red) && Observed(sides, seeds[last], Blue) then 1 else 0);
  }

  lemma AbsentIsNeither(rows: seq<Game>, sides: map<int, set<Side>>)
    requires SidesOf(rows, sides)
    ensures forall seed :: seed !in sides <==> Neither(rows, seed)
    ensures forall seed :: Observed(sides, seed, Red) && Observed(sides, seed, Blue) <==> Both(rows, seed)
  {
    forall seed ensures seed !in sides <==> Neither(rows, seed) {
      assert Observed(sides, seed, Red) <==> Present(rows, seed, Red);
      assert Observed(sides, seed, Blue) <==> Present(rows, seed, Blue);
    }
  }

  lemma GapIsNoPrefix(rows: seq<Game>, seeds: seq<int>, gap: nat, last: nat)
    requires gap < last < |seeds| && !Both(rows, seeds[gap]) && !Neither(rows, seeds[last])
    ensures forall n :: !SeedPrefix(rows, seeds, n)
  {
  }

  lemma PlayedCount(schedule: seq<Game>, identity: string, seeds: seq<int>, m: nat, i: nat)
    requires IsSchedule(schedule, identity, seeds) && m <= |schedule| && i < |seeds|
    ensures Both(schedule[..m], seeds[i]) <==> 2 * i + 1 < m
    ensures Neither(schedule[..m], seeds[i]) <==> m <= 2 * i
  {
    var rows := schedule[..m];
    if 2 * i < m {
      assert rows[2 * i].seed == seeds[i] && rows[2 * i].side == Red;
    }
    if 2 * i + 1 < m {
      assert rows[2 * i + 1].seed == seeds[i] && rows[2 * i + 1].side == Blue;
    }
    forall c | 0 <= c < m && rows[c].seed == seeds[i] ensures c == 2 * i + if rows[c].side == Red then 0 else 1 {
      var j := CaseAt(schedule, identity, seeds, c);
    }
  }

  /** What was played is always a seed prefix, with as many pairs as were completed. */
  lemma PlayedIsSeedPrefix(schedule: seq<Game>, identity: string, seeds: seq<int>, m: nat, n: nat)
    requires IsSchedule(schedule, identity, seeds) && m <= |schedule| && 2 * n <= m <= 2 * n + 1
    ensures SeedPrefix(schedule[..m], seeds, n)
  {
    forall i | 0 <= i < |seeds|
      ensures Both(schedule[..m], seeds[i]) <==> i < n
      ensures n < i ==> Neither(schedule[..m], seeds[i])
    {
      PlayedCount(schedule, identity, seeds, m, i);
    }
  }

  // The stage

  predicate Censored(rows: seq<Game>) {
    exists c :: 0 <= c < |rows| && !rows[c].Terminal()
  }

  /** The pairs of the first n seeds. */
  function PairsOf(schedule: seq<Game>, n: nat): seq<Pair>
    requires 2 * n <= |schedule|
  {
    seq(n, i requires 0 <= i < n => Pair(schedule[2 * i].seed, schedule[2 * i].Score(), schedule[2 * i + 1].Score()))
  }

  lemma PairsOfPairs(schedule: seq<Game>, identity: string, seeds: seq<int>, n: nat)
    requires IsSchedule(schedule, identity, seeds) && n <= |seeds| && !Censored(schedule[..2 * n])
    ensures Paired(schedule[..2 * n]) && IsPairing(schedule[..2 * n], PairsOf(schedule, n))
  {
    var rows, pairs := schedule[..2 * n], PairsOf(schedule, n);
    forall c, d | 0 <= c < d < |rows| ensures (rows[c].seed, rows[c].side) != (rows[d].seed, rows[d].side) {
      CasesAreDistinct(schedule, identity, seeds, c, d);
    }
    forall i | 0 <= i < n ensures Both(rows, seeds[i]) && pairs[i].seed == seeds[i] {
      PlayedCount(schedule, identity, seeds, 2 * n, i);
    }
    forall c | 0 <= c < |rows| ensures HasPair(pairs, rows[c].seed) && Both(rows, rows[c].seed) {
      var i := CaseAt(schedule, identity, seeds, c);
      assert pairs[i].seed == seeds[i];
    }
    forall c, k | 0 <= c < |rows| && 0 <= k < |pairs| && rows[c].seed == pairs[k].seed
      ensures ScoredBy(rows[c], pairs[k])
    {
      ScoreInPair(schedule, identity, seeds, n, c, k);
    }
  }

  lemma ScoreInPair(schedule: seq<Game>, identity: string, seeds: seq<int>, n: nat, c: nat, k: nat)
    requires IsSchedule(schedule, identity, seeds) && k < n <= |seeds| && c < 2 * n
    requires schedule[c].seed == PairsOf(schedule, n)[k].seed
    ensures ScoredBy(schedule[c], PairsOf(schedule, n)[k])
  {
    var i := CaseAt(schedule, identity, seeds, c);
    assert seeds[k] == PairsOf(schedule, n)[k].seed;
    assert i == k;
  }

  datatype StageResult =
    | NoEvidence(observations: seq<Game>)
    | Evaluated(observations: seq<Game>, pairs: seq<Pair>, sequential: Outcome)

  datatype StageRun = Interrupted | Rejected | Finished(result: StageResult)

  /** A stage: what it plays and how it decides. */
  datatype Stage = Stage(schedule: seq<Game>, identity: string, seeds: seq<int>, plan: Plan, radius: Radius) {
    ghost predicate Valid() {
      IsSchedule(schedule, identity, seeds) && plan.Valid() && plan.Maximum() <= |seeds|
    }

    lemma CountFits(k: nat)
      requires Valid() && k < |plan.boundaries|
      ensures plan.boundaries[k].count <= plan.Maximum() && 2 * plan.boundaries[k].count <= |schedule|
    {
    }

    /** What is observed at look k. */
    function Observed(k: nat): seq<Game>
      requires k < |plan.boundaries| && 2 * plan.boundaries[k].count <= |schedule|
    {
      schedule[..2 * plan.boundaries[k].count]
    }

    ghost predicate Decided(n: nat)
      requires 2 * n <= |schedule|
    {
      exists j :: DecidedAt(PairsOf(schedule, n), plan, radius, j)
    }

    /** The stage ends at look k: a game was censored, a look decided, or it is the last one. */
    ghost predicate StopsAt(k: nat)
      requires Valid() && k < |plan.boundaries|
    {
      CountFits(k);
      Censored(Observed(k)) || Decided(plan.boundaries[k].count) || k == |plan.boundaries| - 1
    }

    /** The look at which an uninterrupted stage ends. */
    ghost function StopFrom(k: nat): (r: nat)
      requires Valid() && k < |plan.boundaries|
      ensures k <= r < |plan.boundaries| && StopsAt(r) && forall j :: k <= j < r ==> !StopsAt(j)
      decreases |plan.boundaries| - k
    {
      if StopsAt(k) then k else StopFrom(k + 1)
    }

    ghost function Stop(): nat
      requires Valid()
    {
      StopFrom(0)
    }

    lemma SomeCases()
      requires Valid()
      ensures Limit() > 0
    {
    }

    lemma StopIsFirst(k: nat)
      requires Valid() && k <= Stop()
      ensures StopsAt(k) <==> k == Stop()
    {
    }

    lemma LookWithinLimit(k: nat)
      requires Valid() && k <= Stop()
      ensures 2 * plan.boundaries[k].count <= Limit()
    {
    }

    /** A look that more pairs than it needs were completed for is not the last. */
    lemma PassedBefore(k: nat, completed: nat)
      requires Valid() && k <= Stop() && 2 * completed <= Limit() && plan.boundaries[k].count < completed
      ensures k < Stop()
    {
    }

    /** A restart drops the first game of a pair when a look falls between it and the pairs before. */
    ghost function Dropped(played: nat): nat {
      if exists k :: 0 <= k < |plan.boundaries| && 2 * plan.boundaries[k].count + 1 == played then 1 else 0
    }

    lemma DroppedAt(k: nat, played: nat)
      requires Valid() && k < |plan.boundaries| && played / 2 <= plan.boundaries[k].count
      requires forall j :: 0 <= j < k ==> plan.boundaries[j].count < played / 2
      ensures Dropped(played) == if 2 * plan.boundaries[k].count < played then 1 else 0
      ensures 2 * plan.boundaries[k].count < played ==> 2 * plan.boundaries[k].count + 1 == played
    {
    }

    /** No case is scheduled beyond the stopping look. */
    ghost function Limit(): (n: nat)
      requires Valid()
      ensures n <= |schedule|
    {
      CountFits(Stop());
      2 * plan.boundaries[Stop()].count
    }

    /** What an uninterrupted stage returns. */
    ghost predicate IsResult(result: StageResult)
      requires Valid()
    {
      ResultAt(Stop(), result)
    }

    ghost predicate ResultAt(k: nat, result: StageResult)
      requires Valid() && k < |plan.boundaries|
    {
      CountFits(k);
      if Censored(Observed(k)) then result == NoEvidence(Observed(k))
      else
        && result.Evaluated? && result.observations == Observed(k)
        && result.pairs == PairsOf(schedule, plan.boundaries[k].count)
        && IsOutcome(result.pairs, plan, radius, result.sequential)
    }

    lemma ResultIsDetermined(a: StageResult, b: StageResult)
      requires Valid() && IsResult(a) && IsResult(b)
      ensures a == b
    {
      if a.Evaluated? {
        OutcomeIsDetermined(a.pairs, plan, radius, a.sequential, b.sequential);
      }
    }

    /** A look of an uncensored stage goes on exactly when the stage does. */
    lemma ContinuesAt(k: nat, o: Outcome)
      requires Valid() && k < |plan.boundaries| && 2 * plan.boundaries[k].count <= |schedule|
      requires !Censored(Observed(k)) && IsOutcome(PairsOf(schedule, plan.boundaries[k].count), plan, radius, o)
      ensures o.decision.Continue? <==> !StopsAt(k)
    {
      var pairs := PairsOf(schedule, plan.boundaries[k].count);
      if o.decision.Promote? || o.decision.Reject? {
        assert DecidesFirst(pairs, plan, radius, o);
        var j: nat :| FirstDecision(pairs, plan, radius, j) && o == DecidedOutcome(pairs, plan, radius, j);
        assert DecidedAt(pairs, plan, radius, j);
      } else {
        assert DecidesNever(pairs, plan, radius, o);
        assert |pairs| == plan.Maximum() <==> k == |plan.boundaries| - 1;
      }
    }
  }

  class StageRunner {
    const stage: Stage
    var file: seq<Game>
    ghost var played: nat  // how many scheduled cases the file holds, from the first on

    ghost predicate Valid()
      reads this
    {
      && stage.Valid() && played <= stage.Limit()
      && Keep(file, Ids(stage.schedule)) == stage.schedule[..played]
    }

    /** A checkpoint file may hold rows of other experiments. */
    constructor (stage: Stage, file: seq<Game>)
      requires stage.Valid() && Keep(file, Ids(stage.schedule)) == []
      ensures Valid() && this.stage == stage && this.file == file && played == 0
    {
      this.stage, this.file, played := stage, file, 0;
    }

    /** Play the missing cases of the first n pairs; the process may be killed between rows. */
    method RunProtocol(n: nat, budget: nat) returns (r: Option<seq<Game>>, left: nat)
      requires Valid() && 2 * n <= stage.Limit()
      modifies this
      ensures Valid() && played <= 2 * n
      ensures r.Some? <==> 2 * n - old(played) <= budget
      ensures r.Some? ==> r.value == stage.schedule[..2 * n] && played == 2 * n
      ensures r.None? ==> played == old(played) + budget
      ensures r.Some? ==> left == budget - if old(played) < 2 * n then 2 * n - old(played) else 0
    {
      Compacted(file, stage.schedule, stage.identity, stage.seeds, played, 2 * n);
      file := Keep(file, Ids(stage.schedule[..2 * n]));
      played := if played < 2 * n then played else 2 * n;
      left := PlayMissing(n, budget);
      PlayedIsScheduled(stage.schedule, stage.identity, stage.seeds, played);
      r := if |file| == 2 * n then Some(file) else None;
    }

    /** Play and append every case that has no cached row, in order. */
    method PlayMissing(n: nat, budget: nat) returns (left: nat)
      requires stage.Valid() && played <= 2 * n <= |stage.schedule| && file == stage.schedule[..played]
      modifies this
      ensures played <= 2 * n && file == stage.schedule[..played]
      ensures played == (if 2 * n - old(played) <= budget then 2 * n else old(played) + budget)
      ensures left == budget - (played - old(played))
    {
      var cases := stage.schedule[..2 * n];
      left := budget;
      for c := 0 to |cases|
        invariant old(played) <= played <= 2 * n && file == stage.schedule[..played]
        invariant played == if old(played) < c then c else old(played)
        invariant left == budget - (played - old(played))
      {
        CachedIffPlayed(stage.schedule, stage.identity, stage.seeds, played, c);
        if Id(cases[c]) !in Ids(file) {
          if left == 0 {
            return;
          }
          file, played, left := file + [stage.schedule[c]], played + 1, left - 1;
        }
      }
    }

    /** Play up to look k and test what was observed. */
    method RunLook(k: nat, budget: nat) returns (look: LookRun, left: nat)
      requires Valid() && k <= stage.Stop()
      modifies this
      ensures Valid() && !look.Refused?
      ensures look.Ended? ==> stage.StopsAt(k) && stage.ResultAt(k, look.result)
      ensures look.Killed? <==> old(played) + budget < 2 * stage.plan.boundaries[k].count
      ensures look.Killed? ==> played == old(played) + budget
      ensures !look.Killed? ==> played == 2 * stage.plan.boundaries[k].count
      ensures look.GoesOn? ==> !stage.StopsAt(k)
      ensures look.GoesOn? ==> played + left == budget + if old(played) < played then old(played) else played
    {
      stage.CountFits(k);
      var n := stage.plan.boundaries[k].count;
      stage.LookWithinLimit(k);
      var observed;
      observed, left := RunProtocol(n, budget);
      if observed.None? {
        return Killed, left;
      }
      if Censored(observed.value) {
        return Ended(NoEvidence(observed.value)), left;
      }
      PairsOfPairs(stage.schedule, stage.identity, stage.seeds, n);
      var evaluated := EvaluateSequential(observed.value, stage.plan, stage.radius);
      var paired := PairSeedScores(observed.value);
      if evaluated.Failure? || paired.Failure? {
        return Refused, left;
      }
      PairingIsUnique(observed.value, observed.value, paired.value, PairsOf(stage.schedule, n));
      stage.ContinuesAt(k, evaluated.value);
      look := if evaluated.value.decision == Continue then GoesOn
              else Ended(Evaluated(observed.value, paired.value, evaluated.value));
    }

    /** Run the stage, killed after at most budget cases.  The source would raise where
        this refuses, and evaluate the cached rows if it skipped every look: neither happens. */
    method Run(budget: nat) returns (run: StageRun)
      requires Valid()
      modifies this
      ensures Valid() && !run.Rejected?
      ensures run.Finished? ==> stage.IsResult(run.result)
      ensures run.Finished? <==> old(played) + budget >= stage.Limit() + stage.Dropped(old(played))
      ensures run.Finished? ==> played == stage.Limit()
      ensures run.Interrupted? ==> played == old(played) + budget - stage.Dropped(old(played))
    {
      var cached := Keep(file, Ids(stage.schedule));
      var counted := CompletedPrefixCount(cached, stage.seeds);
      PlayedIsSeedPrefix(stage.schedule, stage.identity, stage.seeds, played, played / 2);
      if counted.Failure? {
        return Rejected;
      }
      var completed := counted.value;
      SeedPrefixIsUnique(cached, stage.seeds, completed, played / 2);
      var left := budget;
      ghost var first := true;
      for k := 0 to |stage.plan.boundaries|
        invariant Valid() && k <= stage.Stop()
        invariant first ==> left == budget && played == old(played)
        invariant first ==> forall j :: 0 <= j < k ==> stage.plan.boundaries[j].count < completed
        invariant !first ==> k > 0 && stage.plan.boundaries[k - 1].count >= completed
        invariant !first ==> played == 2 * stage.plan.boundaries[k - 1].count
        invariant !first ==> played + left == old(played) + budget - stage.Dropped(old(played))
      {
        if stage.plan.boundaries[k].count < completed {
          stage.PassedBefore(k, completed);
          continue;
        }
        if first {
          stage.DroppedAt(k, played);
        }
        stage.LookWithinLimit(k);
        first := false;
        var look;
        look, left := RunLook(k, left);
        if look.Killed? {
          return Interrupted;
        }
        stage.StopIsFirst(k);
        if look.Refused? {
          return Rejected;
        }
        if look.Ended? {
          return Finished(look.result);
        }
      }
      assert false;
    }

    /** Start the stage again and again until it finishes: however often it is killed
        on the way, the result is the uninterrupted one.  Restarts that each play two games
        finish it; one game at a time may be dropped and replayed forever. */
    method RunRepeatedly(budgets: seq<nat>) returns (run: StageRun)
      requires Valid()
      modifies this
      ensures Valid() && !run.Rejected?
      ensures run.Finished? ==> stage.IsResult(run.result)
      ensures (exists a :: 0 <= a < |budgets| && budgets[a] >= stage.Limit()) ==> run.Finished?
      ensures (forall a :: 0 <= a < |budgets| ==> budgets[a] >= 2) && |budgets| >= stage.Limit() ==> run.Finished?
      ensures (forall a :: 0 <= a < |budgets| ==> budgets[a] == 1)
              && stage.Dropped(old(played)) == 1 && old(played) < stage.Limit() ==>
                run.Interrupted? && played == old(played)
    {
      stage.SomeCases();
      run := Interrupted;
      for a := 0 to |budgets|
        invariant Valid() && run.Interrupted?
        invariant forall b :: 0 <= b < a ==> budgets[b] < stage.Limit()
        invariant (forall b :: 0 <= b < |budgets| ==> budgets[b] >= 2) ==> a <= played && (a > 0 ==> a < stage.Limit())
        invariant (forall b :: 0 <= b < |budgets| ==> budgets[b] == 1)
                  && stage.Dropped(old(played)) == 1 && old(played) < stage.Limit() ==>
                    played == old(played)
      {
        run := Run(budgets[a]);
        if run.Finished? {
          return;
        }
      }
    }
  }

  datatype LookRun = Killed | Refused | GoesOn | Ended(result: StageResult)

  // What a stage returns

  /** A game of the first n cases did not end properly. */
  ghost predicate BrokenOff(stage: Stage, n: nat) {
    exists c :: 0 <= c < n && c < |stage.schedule| && stage.schedule[c].reason != "game_over"
  }

  /** With n pairs in, some look clears the required score on either side. */
  ghost predicate Decisive(stage: Stage, n: nat)
    requires 2 * n <= |stage.schedule|
  {
    exists k :: AboveAt(PairsOf(stage.schedule, n), stage.plan, stage.radius, k)
             || BelowAt(PairsOf(stage.schedule, n), stage.plan, stage.radius, k)
  }

  ghost predicate EndsAt(stage: Stage, k: nat)
    requires stage.Valid() && k < |stage.plan.boundaries|
  {
    stage.CountFits(k);
    var n := stage.plan.boundaries[k].count;
    BrokenOff(stage, 2 * n) || Decisive(stage, n) || k + 1 == |stage.plan.boundaries|
  }

  lemma EndsMeans(stage: Stage, k: nat)
    requires stage.Valid() && k < |stage.plan.boundaries|
    ensures stage.StopsAt(k) <==> EndsAt(stage, k)
  {
    stage.CountFits(k);
    var n := stage.plan.boundaries[k].count;
    var rows, pairs := stage.schedule[..2 * n], PairsOf(stage.schedule, n);
    CensoredMeans(stage, n);
    forall j: nat
      ensures DecidedAt(pairs, stage.plan, stage.radius, j) <==>
                AboveAt(pairs, stage.plan, stage.radius, j) || BelowAt(pairs, stage.plan, stage.radius, j)
    {
      DecisiveMeans(pairs, stage.plan, stage.radius, j);
    }
  }

  lemma CensoredMeans(stage: Stage, n: nat)
    requires 2 * n <= |stage.schedule|
    ensures Censored(stage.schedule[..2 * n]) <==> BrokenOff(stage, 2 * n)
  {
    var rows := stage.schedule[..2 * n];
    if BrokenOff(stage, 2 * n) {
      var c :| 0 <= c < 2 * n && c < |stage.schedule| && stage.schedule[c].reason != "game_over";
      assert rows[c] == stage.schedule[c];
    }
  }

  /** The result covers both games of the first n seeds, n being the planned count of the earliest
      look that ends the stage.  A game broken off leaves no evidence; otherwise the candidate is
      promoted or rejected when a look was decisive and the test is inconclusive when none was. */
  lemma ResultMeans(stage: Stage, result: StageResult) returns (k: nat)
    requires stage.Valid() && stage.IsResult(result)
    ensures k < |stage.plan.boundaries| && EndsAt(stage, k) && forall j: nat :: j < k ==> !EndsAt(stage, j)
    ensures 2 * stage.plan.boundaries[k].count <= |stage.schedule|
    ensures var n := stage.plan.boundaries[k].count;
            && result.observations == stage.schedule[..2 * n]
            && (result.NoEvidence? <==> BrokenOff(stage, 2 * n))
            && (result.Evaluated? ==>
                  && |result.pairs| == n
                  && (result.sequential.decision == Inconclusive <==> !Decisive(stage, n))
                  && result.sequential.decision != Continue)
    ensures result.Evaluated? ==> forall i, side: Side :: 0 <= i < |result.pairs| ==>
              PairHolds(stage, result.pairs[i], i, side)
  {
    k := stage.Stop();
    stage.CountFits(k);
    var n := stage.plan.boundaries[k].count;
    CensoredMeans(stage, n);
    EndsMeans(stage, k);
    forall j: nat | j < k ensures !EndsAt(stage, j) {
      EndsMeans(stage, j);
    }
    if result.Evaluated? {
      stage.ContinuesAt(k, result.sequential);
      EvaluatedMeans(stage, n, result.sequential);
    }
  }

  /** A pair has the seed of its place and, for either side, the worth of the game of that side. */
  predicate PairHolds(stage: Stage, pair: Pair, i: nat, side: Side)
    requires 2 * i + 1 < |stage.schedule|
  {
    var game := stage.schedule[if side == Red then 2 * i else 2 * i + 1];
    && pair.seed == game.seed && (side == game.side)
    && forall ending: Ending :: Ends(game, ending) ==> (if side == Red then pair.red else pair.blue) == Worth(ending)
  }

  lemma EvaluatedMeans(stage: Stage, n: nat, o: Outcome)
    requires stage.Valid() && 2 * n <= |stage.schedule|
    requires IsOutcome(PairsOf(stage.schedule, n), stage.plan, stage.radius, o) && o.decision != Continue
    ensures o.decision == Inconclusive <==> !Decisive(stage, n)
  {
    var pairs := PairsOf(stage.schedule, n);
    DecisionMeans(pairs, stage.plan, stage.radius, o);
    if o.decision == Promote || o.decision == Reject {
      if k: nat :| FirstAbove(pairs, stage.plan, stage.radius, k) {
        assert AboveAt(pairs, stage.plan, stage.radius, k);
      } else {
        var j: nat :| FirstBelow(pairs, stage.plan, stage.radius, j);
        assert BelowAt(pairs, stage.plan, stage.radius, j);
      }
    }
  }
}

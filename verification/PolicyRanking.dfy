/** Ranking evidence for promotion gates, read from a policy report. */
module PolicyRanking {
  import opened Common
  import opened GameEqual
  import opened PolicyMeasure
  import opened PolicyMetrics
  import opened PolicyReport

  datatype RankingBucket = RankingBucket(count: nat, multiCandidate: nat, games: nat, accuracy: Option<real>)
  {
    /** What the constructor of a ranking bucket accepts. */
    predicate Valid() {
      && games <= count <= multiCandidate
      && (count == 0 <==> accuracy.None?)
      && (count == 0 <==> games == 0)
      && (accuracy.Some? ==> 0.0 <= accuracy.value <= 1.0)
    }
  }

  datatype Snapshot = Snapshot(overall: RankingBucket, byRole: map<Role, RankingBucket>)

  /** Construction checks, in the source's order; any of them rejects. */
  function RankingBucketFrom(m: Metrics): Result<RankingBucket> {
    if m.pairwiseCount > m.multiCandidate then Failure
    else if m.pairwiseGames > m.pairwiseCount then Failure
    else if m.pairwiseCount == 0 then
      if m.pairwiseGames != 0 || m.pairwise.Some? then Failure
      else Success(RankingBucket(m.pairwiseCount, m.multiCandidate, m.pairwiseGames, m.pairwise))
    else if m.pairwiseGames == 0 || m.pairwise.None? || !(0.0 <= m.pairwise.value <= 1.0) then Failure
    else Success(RankingBucket(m.pairwiseCount, m.multiCandidate, m.pairwiseGames, m.pairwise))
  }

  lemma ConstructionDecidesValidity(m: Metrics)
    ensures var b := RankingBucket(m.pairwiseCount, m.multiCandidate, m.pairwiseGames, m.pairwise);
            RankingBucketFrom(m) == if b.Valid() then Success(b) else Failure
  {
  }

  /** Informative decisions, choices of several candidates, informative games and accuracy. */
  predicate Summarizes(b: RankingBucket, m: Metrics) {
    && b.count == m.pairwiseCount && b.multiCandidate == m.multiCandidate
    && b.games == m.pairwiseGames && b.accuracy == m.pairwise
  }

  function RoleBuckets(r: Report): set<string> {
    set k | k in r.buckets && k.0 == SemanticRole :: k.1
  }

  /** One role's evidence; a missing role bucket rejects. */
  function RoleEvidence(r: Report, role: Role): Result<RankingBucket> {
    var k := (SemanticRole, RoleName(role));
    if k in r.buckets then RankingBucketFrom(r.buckets[k]) else Failure
  }

  function SnapshotFrom(r: Report): Result<Snapshot> {
    var overall := RankingBucketFrom(r.overall);
    if RoleBuckets(r) != RoleNames() || overall.Failure? then Failure
    else if exists role | role in ROLES :: RoleEvidence(r, role).Failure? then Failure
    else Success(Snapshot(overall.value, map role | role in ROLES :: RoleEvidence(r, role).value))
  }

  /** Informative decisions have several candidates and a proportion for accuracy. */
  ghost predicate Sound(rows: seq<Measured>) {
    forall i :: 0 <= i < |rows| && rows[i].decision.pairwise.Some? ==>
      rows[i].candidates > 1 && 0.0 <= rows[i].decision.pairwise.value <= 1.0
  }

  lemma {:induction false} InformativeRows(rows: seq<Measured>)
    requires Sound(rows)
    ensures |Available(rows, Pairwise)| <= MultiCandidate(rows)
    ensures forall i :: 0 <= i < |Available(rows, Pairwise)| ==> 0.0 <= Available(rows, Pairwise)[i].value <= 1.0
  {
    if rows != [] {
      InformativeRows(rows[..|rows| - 1]);
    }
  }

  lemma PairwiseAverage(rows: seq<Measured>)
    requires Sound(rows)
    ensures Average(rows, Pairwise).Some? <==> Available(rows, Pairwise) != []
    ensures Average(rows, Pairwise).Some? ==> 0.0 <= Average(rows, Pairwise).value <= 1.0
  {
    InformativeRows(rows);
    if Available(rows, Pairwise) != [] {
      MeanOfProportions(Available(rows, Pairwise));
    }
  }

  /** Every aggregate of sound rows is accepted as ranking evidence. */
  lemma AggregateIsRankable(rows: seq<Measured>)
    requires Sound(rows)
    ensures RankingBucketFrom(AggregatePolicy(rows)).Success?
    ensures RankingBucketFrom(AggregatePolicy(rows)).value.Valid()
  {
    ConstructionDecidesValidity(AggregatePolicy(rows));
    EvidenceIsValid(rows);
  }

  lemma EvidenceIsValid(rows: seq<Measured>)
    requires Sound(rows)
    ensures var m := AggregatePolicy(rows);
            RankingBucket(m.pairwiseCount, m.multiCandidate, m.pairwiseGames, m.pairwise).Valid()
  {
    InformativeRows(rows);
    FewerGamesThanRows(Available(rows, Pairwise));
    PairwiseAverage(rows);
  }

  lemma {:induction false} BucketsAreSound(entries: seq<Entry>, k: Bucket)
    requires Sound(AllMeasured(entries))
    ensures Sound(InBucket(entries, k))
  {
    if entries != [] {
      var init := entries[..|entries| - 1];
      assert AllMeasured(init) == AllMeasured(entries)[..|entries| - 1];
      assert AllMeasured(entries)[|entries| - 1] == entries[|entries| - 1].measured;
      BucketsAreSound(init, k);
    }
  }

  lemma RoleIsRankable(u: Setup, entries: seq<Entry>, role: Role)
    requires Sound(AllMeasured(entries))
    ensures role in ROLES
    ensures RoleEvidence(ReportOf(u, entries), role).Success?
    ensures RoleEvidence(ReportOf(u, entries), role).value.Valid()
  {
    RoleIsExpected(u, role);
    BucketsAreSound(entries, (SemanticRole, RoleName(role)));
    AggregateIsRankable(InBucket(entries, (SemanticRole, RoleName(role))));
  }

  /** Whatever rows are read, the snapshot is built: neither the overall bucket nor
      any semantic-role bucket is ever rejected. */
  lemma SnapshotIsBuilt(u: Setup, rows: seq<PolicyRow>)
    requires forall i :: 0 <= i < |rows| ==> rows[i].Valid()
    ensures var snapshot := SnapshotFrom(BatchReport(u, rows));
            && snapshot.Success?
            && snapshot.value.overall.Valid()
            && (forall role: Role :: role in snapshot.value.byRole && snapshot.value.byRole[role].Valid())
  {
    hide RoleEvidence, ReportOf, RoleName, Sound;
    var entries := Entries(u, rows);
    assert Sound(AllMeasured(entries)) by {
      SoundRows(u, rows);
    }
    OverallIsRankable(u, entries);
    forall role: Role {
      RoleIsRankable(u, entries, role);
    }
    OnlyRolesReported(u, entries);
  }

  lemma SoundRows(u: Setup, rows: seq<PolicyRow>)
    requires forall i :: 0 <= i < |rows| ==> rows[i].Valid()
    ensures Sound(AllMeasured(Entries(u, rows)))
  {
  }

  lemma OverallIsRankable(u: Setup, entries: seq<Entry>)
    requires Sound(AllMeasured(entries))
    ensures RankingBucketFrom(ReportOf(u, entries).overall).Success?
    ensures RankingBucketFrom(ReportOf(u, entries).overall).value.Valid()
  {
    AggregateIsRankable(AllMeasured(entries));
  }

  /** A snapshot repeats the report: the overall evidence and each role's own. */
  lemma SnapshotRepeats(r: Report)
    requires SnapshotFrom(r).Success?
    ensures var snapshot := SnapshotFrom(r).value;
            && Summarizes(snapshot.overall, r.overall)
            && (forall role: Role :: role in snapshot.byRole && (SemanticRole, RoleName(role)) in r.buckets
                  && Summarizes(snapshot.byRole[role], r.buckets[(SemanticRole, RoleName(role))]))
  {
    hide RoleName;
    forall role: Role ensures role in ROLES {
      var i := RoleIndex(role);
    }
  }

  lemma RoleIsExpected(u: Setup, role: Role)
    ensures role in ROLES
    ensures (SemanticRole, RoleName(role)) in ExpectedBuckets(u)
  {
    var i := RoleIndex(role);
    assert Expected(u, SemanticRole)[i] == RoleName(role);
    assert DIMENSIONS[6] == SemanticRole;
  }

  function RoleNames(): set<string> {
    set role | role in ROLES :: RoleName(role)
  }

  lemma ExpectedRole(u: Setup, name: string)
    ensures (SemanticRole, name) in ExpectedBuckets(u) <==> name in RoleNames()
  {
    var names := Expected(u, SemanticRole);
    if (SemanticRole, name) in ExpectedBuckets(u) {
      var i :| 0 <= i < |names| && names[i] == name;
      assert ROLES[i] in ROLES && RoleName(ROLES[i]) == name;
    }
    if name in RoleNames() {
      var role :| role in ROLES && RoleName(role) == name;
      RoleIsExpected(u, role);
    }
  }

  lemma ReportedRole(u: Setup, entries: seq<Entry>, name: string)
    ensures (SemanticRole, name) in ReportOf(u, entries).buckets <==> (SemanticRole, name) in ExpectedBuckets(u)
  {
    assert Expected(u, SemanticRole) != [];
  }

  lemma OnlyRolesReported(u: Setup, entries: seq<Entry>)
    ensures RoleBuckets(ReportOf(u, entries)) == RoleNames()
  {
    var r := ReportOf(u, entries);
    forall name ensures name in RoleBuckets(r) <==> name in RoleNames() {
      ReportedRole(u, entries, name);
      ExpectedRole(u, name);
      assert name in RoleBuckets(r) <==> (SemanticRole, name) in r.buckets;
    }
  }
}

/** Policy diagnostics overall and per bucket, and the ranking evidence read from them. */
module PolicyReport {
  import opened Common
  import opened GameEqual
  import opened PolicyMeasure
  import opened PolicyMetrics

  datatype Dimension =
    CandidateFamily | Hero | MapId | Composition | RoundBucket | InputRequest | SemanticRole | CanSkip

  type Bucket = (Dimension, string)

  const DIMENSIONS: seq<Dimension> :=
    [CandidateFamily, Hero, MapId, Composition, RoundBucket, InputRequest, SemanticRole, CanSkip]

  const ROLES: seq<Role> :=
    [Planning, ActionChoice, MovementDestination, AttackTarget, DefenseReaction, PassiveReaction, RespawnChoice,
     RespawnDestination, ActorChoice, UpgradeChoice, CardSelection, UnitSelection, SpatialSelection,
     NumberSelection, OptionSelection]

  function RoleName(r: Role): string {
    match r
    case Planning => "PLANNING"
    case ActionChoice => "ACTION_CHOICE"
    case MovementDestination => "MOVEMENT_DESTINATION"
    case AttackTarget => "ATTACK_TARGET"
    case DefenseReaction => "DEFENSE_REACTION"
    case PassiveReaction => "PASSIVE_REACTION"
    case RespawnChoice => "RESPAWN_CHOICE"
    case RespawnDestination => "RESPAWN_DESTINATION"
    case ActorChoice => "ACTOR_CHOICE"
    case UpgradeChoice => "UPGRADE_CHOICE"
    case CardSelection => "CARD_SELECTION"
    case UnitSelection => "UNIT_SELECTION"
    case SpatialSelection => "SPATIAL_SELECTION"
    case NumberSelection => "NUMBER_SELECTION"
    case OptionSelection => "OPTION_SELECTION"
  }

  /** The bucket a row falls in, if it has one. */
  function BucketOf(d: Dimension, row: PolicyRow): Option<string> {
    match d
    case CandidateFamily => Some(row.family)
    case Hero => row.hero
    case MapId => row.mapId
    case Composition => row.composition
    case RoundBucket => row.round
    case InputRequest =>
      if row.request.Some? then row.request else if row.role == Some(Planning) then Some("null") else None
    case SemanticRole => if row.role.Some? then Some(RoleName(row.role.value)) else None
    case CanSkip => if row.canSkip.Some? then Some(if row.canSkip.value then "true" else "false") else None
  }

  /** Maths, top-k and the known input request types. */
  datatype Setup = Setup(maths: Maths, topK: nat, requestTypes: seq<string>)

  /** Buckets reported whether or not a row falls in them. */
  function Expected(u: Setup, d: Dimension): seq<string> {
    match d
    case InputRequest => ["null"] + u.requestTypes
    case SemanticRole => seq(|ROLES|, i requires 0 <= i < |ROLES| => RoleName(ROLES[i]))
    case CanSkip => ["false", "true"]
    case _ => []
  }

  datatype Report = Report(overall: Metrics, buckets: map<Bucket, Metrics>)

  /** A measured row with the bucket it has in each dimension. */
  datatype Entry = Entry(labels: map<Dimension, string>, measured: Measured)

  function EntryOf(u: Setup, row: PolicyRow): Entry
    requires row.Valid()
  {
    Entry(map d | d in DIMENSIONS && BucketOf(d, row).Some? :: BucketOf(d, row).value,
          Measured(row.game, |row.targets|, MeasurePolicy(u.maths, u.topK, row)))
  }

  predicate Labelled(e: Entry, k: Bucket) {
    k.0 in e.labels && e.labels[k.0] == k.1
  }

  // The batch report: measure every row, then aggregate all rows and each bucket's rows

  function Entries(u: Setup, rows: seq<PolicyRow>): (s: seq<Entry>)
    requires forall i :: 0 <= i < |rows| ==> rows[i].Valid()
    ensures |s| == |rows|
  {
    seq(|rows|, i requires 0 <= i < |rows| => EntryOf(u, rows[i]))
  }

  function InBucket(entries: seq<Entry>, k: Bucket): seq<Measured> {
    if entries == [] then []
    else
      var last := entries[|entries| - 1];
      InBucket(entries[..|entries| - 1], k) + if Labelled(last, k) then [last.measured] else []
  }

  function AllMeasured(entries: seq<Entry>): seq<Measured> {
    seq(|entries|, i requires 0 <= i < |entries| => entries[i].measured)
  }

  /** Observed buckets, except in context dimensions, which report a fixed list. */
  function ReportedBuckets(u: Setup, entries: seq<Entry>): set<Bucket> {
    (set e, d | e in entries && d in e.labels && Expected(u, d) == [] :: (d, e.labels[d]))
    + ExpectedBuckets(u)
  }

  function ExpectedBuckets(u: Setup): set<Bucket> {
    set d, i | d in DIMENSIONS && 0 <= i < |Expected(u, d)| :: (d, Expected(u, d)[i])
  }

  function ReportOf(u: Setup, entries: seq<Entry>): Report {
    Report(AggregatePolicy(AllMeasured(entries)),
           map k | k in ReportedBuckets(u, entries) :: AggregatePolicy(InBucket(entries, k)))
  }

  function BatchReport(u: Setup, rows: seq<PolicyRow>): Report
    requires forall i :: 0 <= i < |rows| ==> rows[i].Valid()
  {
    ReportOf(u, Entries(u, rows))
  }

  lemma InBucketSnoc(entries: seq<Entry>, e: Entry, k: Bucket)
    ensures InBucket(entries + [e], k) == InBucket(entries, k) + if Labelled(e, k) then [e.measured] else []
  {
    assert (entries + [e])[..|entries|] == entries;
  }

  lemma {:induction false} BucketIsFilled(entries: seq<Entry>, k: Bucket)
    ensures InBucket(entries, k) != [] <==> exists e :: e in entries && Labelled(e, k)
  {
    if entries != [] {
      BucketIsFilled(entries[..|entries| - 1], k);
      assert entries == entries[..|entries| - 1] + [entries[|entries| - 1]];
    }
  }

  // What a bucket holds

  /** Row by row: the bucket a report counts it in. */
  predicate FallsIn(row: PolicyRow, k: Bucket) {
    match k.0
    case CandidateFamily => k.1 == row.family
    case Hero => row.hero == Some(k.1)
    case MapId => row.mapId == Some(k.1)
    case Composition => row.composition == Some(k.1)
    case RoundBucket => row.round == Some(k.1)
    case InputRequest =>
      row.request == Some(k.1) || (row.request == None && row.role == Some(Planning) && k.1 == "null")
    case SemanticRole => exists r: Role :: row.role == Some(r) && RoleName(r) == k.1
    case CanSkip => (row.canSkip == Some(true) && k.1 == "true") || (row.canSkip == Some(false) && k.1 == "false")
  }

  lemma LabelledMeans(u: Setup, row: PolicyRow, k: Bucket)
    requires row.Valid()
    ensures Labelled(EntryOf(u, row), k) <==> FallsIn(row, k)
  {
    hide FallsIn, BucketOf, MeasurePolicy;
    DimensionListed(k.0);
    BucketOfMeans(row, k);
  }

  lemma BucketOfMeans(row: PolicyRow, k: Bucket)
    ensures BucketOf(k.0, row) == Some(k.1) <==> FallsIn(row, k)
  {
    hide RoleName;
  }

  lemma DimensionListed(d: Dimension)
    ensures d in DIMENSIONS
  {
    var done := set j | 0 <= j < |DIMENSIONS| :: DIMENSIONS[j];
    AllDimensions(done);
    assert d in done;
  }

  /** Reading a role back from its name; any other name is refused. */
  function RoleOf(name: string): Option<Role> {
    if name == "PLANNING" then Some(Planning)
    else if name == "ACTION_CHOICE" then Some(ActionChoice)
    else if name == "MOVEMENT_DESTINATION" then Some(MovementDestination)
    else if name == "ATTACK_TARGET" then Some(AttackTarget)
    else if name == "DEFENSE_REACTION" then Some(DefenseReaction)
    else if name == "PASSIVE_REACTION" then Some(PassiveReaction)
    else if name == "RESPAWN_CHOICE" then Some(RespawnChoice)
    else if name == "RESPAWN_DESTINATION" then Some(RespawnDestination)
    else if name == "ACTOR_CHOICE" then Some(ActorChoice)
    else if name == "UPGRADE_CHOICE" then Some(UpgradeChoice)
    else if name == "CARD_SELECTION" then Some(CardSelection)
    else if name == "UNIT_SELECTION" then Some(UnitSelection)
    else if name == "SPATIAL_SELECTION" then Some(SpatialSelection)
    else if name == "NUMBER_SELECTION" then Some(NumberSelection)
    else if name == "OPTION_SELECTION" then Some(OptionSelection)
    else None
  }

  /** A role is read back from its name, so no two roles share one. */
  lemma RoleRoundTrip(r: Role)
    ensures RoleOf(RoleName(r)) == Some(r)
  {
    assert |RoleName(r)| >= 2;
  }

  /** The fixed buckets: every known request type and none, every role, both skip flags. */
  lemma FixedBuckets(u: Setup, k: Bucket)
    ensures k in ExpectedBuckets(u) <==>
              match k.0
              case InputRequest => k.1 == "null" || k.1 in u.requestTypes
              case SemanticRole => exists r: Role :: RoleName(r) == k.1
              case CanSkip => k.1 == "true" || k.1 == "false"
              case _ => false
  {
    hide RoleName;
    DimensionListed(k.0);
    var fixed := Expected(u, k.0);
    assert k in ExpectedBuckets(u) <==> k.1 in fixed;
    match k.0
    case SemanticRole =>
      forall r: Role | RoleName(r) == k.1 ensures k.1 in fixed {
        var i := RoleIndex(r);
        assert fixed[i] == k.1;
      }
      if k.1 in fixed {
        var i :| 0 <= i < |fixed| && fixed[i] == k.1;
        assert RoleName(ROLES[i]) == k.1;
      }
    case CanSkip =>
      assert fixed == ["false", "true"];
    case InputRequest =>
      assert fixed[0] == "null" && fixed[1..] == u.requestTypes;
    case _ =>
  }

  /** A bucket is reported when it is fixed or, outside the context dimensions, some row falls in it. */
  lemma ReportedMeans(u: Setup, rows: seq<PolicyRow>, k: Bucket)
    requires forall i :: 0 <= i < |rows| ==> rows[i].Valid()
    ensures k in BatchReport(u, rows).buckets <==>
              || k in ExpectedBuckets(u)
              || (k.0 !in {InputRequest, SemanticRole, CanSkip} && exists i :: 0 <= i < |rows| && FallsIn(rows[i], k))
  {
    hide FallsIn, RoleName, EntryOf, AggregatePolicy, ExpectedBuckets, InBucket;
    var entries := Entries(u, rows);
    forall i | 0 <= i < |rows| ensures Labelled(entries[i], k) <==> FallsIn(rows[i], k) {
      LabelledMeans(u, rows[i], k);
    }
    ContextDimensions(u, k.0);
    if exists i :: 0 <= i < |rows| && FallsIn(rows[i], k) {
      var i :| 0 <= i < |rows| && FallsIn(rows[i], k);
      assert entries[i] in entries && Labelled(entries[i], k);
    }
  }

  lemma ContextDimensions(u: Setup, d: Dimension)
    ensures Expected(u, d) == [] <==> d !in {InputRequest, SemanticRole, CanSkip}
  {
  }

  function MeasuredOf(u: Setup, row: PolicyRow): Measured
    requires row.Valid()
  {
    Measured(row.game, |row.targets|, MeasurePolicy(u.maths, u.topK, row))
  }

  ghost predicate HeldBy(u: Setup, rows: seq<PolicyRow>, k: Bucket, held: seq<Measured>, from: seq<nat>)
    requires forall i :: 0 <= i < |rows| ==> rows[i].Valid()
  {
    && |from| == |held|
    && (forall a, b :: 0 <= a < b < |from| ==> from[a] < from[b])
    && (forall a :: 0 <= a < |from| ==> from[a] < |rows| && FallsIn(rows[from[a]], k))
    && (forall a :: 0 <= a < |from| ==> held[a] == MeasuredOf(u, rows[from[a]]))
    && (forall i :: 0 <= i < |rows| && FallsIn(rows[i], k) ==> i in from)
  }

  /** A bucket is the aggregate of exactly the rows that fall in it, in their order. */
  lemma BucketMeans(u: Setup, rows: seq<PolicyRow>, k: Bucket) returns (held: seq<Measured>, from: seq<nat>)
    requires forall i :: 0 <= i < |rows| ==> rows[i].Valid()
    ensures HeldBy(u, rows, k, held, from)
    ensures k in BatchReport(u, rows).buckets ==> BatchReport(u, rows).buckets[k] == AggregatePolicy(held)
  {
    hide AggregatePolicy, FallsIn;
    from := BucketRows(u, rows, k);
    held := InBucket(Entries(u, rows), k);
  }

  lemma {:induction false} BucketRows(u: Setup, rows: seq<PolicyRow>, k: Bucket) returns (from: seq<nat>)
    requires forall i :: 0 <= i < |rows| ==> rows[i].Valid()
    ensures HeldBy(u, rows, k, InBucket(Entries(u, rows), k), from)
  {
    hide FallsIn, Labelled, MeasurePolicy;
    if rows == [] {
      from := [];
    } else {
      var n := |rows| - 1;
      var before := BucketRows(u, rows[..n], k);
      assert Entries(u, rows)[..n] == Entries(u, rows[..n]);
      LabelledMeans(u, rows[n], k);
      HeldByOneMore(u, rows, k, InBucket(Entries(u, rows[..n]), k), before);
      from := if FallsIn(rows[n], k) then before + [n] else before;
    }
  }

  lemma HeldByOneMore(u: Setup, rows: seq<PolicyRow>, k: Bucket, held: seq<Measured>, from: seq<nat>)
    requires rows != [] && forall i :: 0 <= i < |rows| ==> rows[i].Valid()
    requires HeldBy(u, rows[..|rows| - 1], k, held, from)
    ensures var n := |rows| - 1;
            if FallsIn(rows[n], k) then HeldBy(u, rows, k, held + [MeasuredOf(u, rows[n])], from + [n])
            else HeldBy(u, rows, k, held, from)
  {
    hide FallsIn, MeasuredOf;
    var n := |rows| - 1;
    var more := if FallsIn(rows[n], k) then from + [n] else from;
    forall i | 0 <= i < |rows| && FallsIn(rows[i], k) ensures i in more {
      if i == n {
        assert more[|from|] == n;
      } else {
        assert rows[..n][i] == rows[i] && i in from;
      }
    }
  }

  /** All rows count overall. */
  lemma OverallMeans(u: Setup, rows: seq<PolicyRow>)
    requires forall i :: 0 <= i < |rows| ==> rows[i].Valid()
    ensures BatchReport(u, rows).overall
            == AggregatePolicy(seq(|rows|, i requires 0 <= i < |rows| => MeasuredOf(u, rows[i])))
  {
    assert AllMeasured(Entries(u, rows)) == seq(|rows|, i requires 0 <= i < |rows| => MeasuredOf(u, rows[i]));
  }

  // The accumulator

  /** What bucket k should hold when the dimensions in done have seen after and the others before. */
  ghost function Due(before: seq<Entry>, after: seq<Entry>, done: set<Dimension>, k: Bucket): seq<Measured> {
    InBucket(if k.0 in done then after else before, k)
  }

  ghost function Arrival(d: Dimension, e: Entry, k: Bucket): seq<Measured> {
    if k.0 == d && Labelled(e, k) then [e.measured] else []
  }

  lemma DueAdvances(entries: seq<Entry>, e: Entry, done: set<Dimension>, d: Dimension, k: Bucket)
    requires d !in done
    ensures Due(entries, entries + [e], done + {d}, k) == Due(entries, entries + [e], done, k) + Arrival(d, e, k)
  {
    InBucketSnoc(entries, e, k);
  }

  lemma OneArrives(entries: seq<Entry>, e: Entry, done: set<Dimension>, k: Bucket)
    requires k.0 !in done && Labelled(e, k)
    ensures Due(entries, entries + [e], done + {k.0}, k) == Due(entries, entries + [e], done, k) + [e.measured]
  {
    DueAdvances(entries, e, done, k.0, k);
  }

  lemma OthersStay(entries: seq<Entry>, e: Entry, done: set<Dimension>, k: Bucket, l: Bucket)
    requires k.0 !in done && Labelled(e, k) && l != k
    ensures Due(entries, entries + [e], done + {k.0}, l) == Due(entries, entries + [e], done, l)
  {
    DueAdvances(entries, e, done, k.0, l);
    assert Arrival(k.0, e, l) == [];
  }

  class PolicyAccumulator {
    const setup: Setup
    var overall: PolicyAggregate
    var groups: map<Bucket, PolicyAggregate>
    ghost var entries: seq<Entry>  // every row added so far, measured
    ghost var owned: set<PolicyAggregate>  // the aggregates in groups

    /** Aggregates are separate objects; buckets of dimensions in done have seen
        after, the others before. */
    ghost predicate Holds(before: seq<Entry>, after: seq<Entry>, done: set<Dimension>)
      reads this, owned
    {
      && overall !in owned && (forall k :: k in groups ==> groups[k] in owned)
      && (forall k, l :: k in groups && l in groups && groups[k] == groups[l] ==> k == l)
      && (forall k :: k in groups ==> groups[k].Valid())
      && (forall k :: k in groups ==> groups[k].rows == Due(before, after, done, k))
      && forall k :: k in groups <==> Due(before, after, done, k) != []
    }

    ghost predicate Valid()
      reads this, overall, owned
    {
      && Holds(entries, entries, {})
      && overall.Valid() && overall.rows == AllMeasured(entries)
    }

    constructor (setup: Setup)
      ensures Valid() && entries == [] && this.setup == setup
      ensures fresh(overall) && fresh(owned)
    {
      this.setup := setup;
      overall := new PolicyAggregate();
      groups, entries, owned := map[], [], {};
    }

    /** A bucket's first row gets a new aggregate. */
    method OpenGroup(k: Bucket, aggregate: PolicyAggregate, e: Entry, ghost done: set<Dimension>)
      requires Holds(entries, entries + [e], done) && k.0 !in done && Labelled(e, k) && k !in groups
      requires aggregate.Valid() && aggregate.rows == [e.measured]
      requires aggregate !in owned && aggregate != overall
      modifies `groups, `owned
      ensures Holds(entries, entries + [e], done + {k.0})
      ensures owned == old(owned) + {aggregate}
    {
      OneArrives(entries, e, done, k);
      forall l: Bucket | l != k
        ensures Due(entries, entries + [e], done + {k.0}, l) == Due(entries, entries + [e], done, l)
      {
        OthersStay(entries, e, done, k, l);
      }
      groups, owned := groups[k := aggregate], owned + {aggregate};
    }

    method ExtendGroup(k: Bucket, e: Entry, ghost done: set<Dimension>)
      requires Holds(entries, entries + [e], done) && k.0 !in done && Labelled(e, k) && k in groups
      modifies owned
      ensures Holds(entries, entries + [e], done + {k.0})
    {
      groups[k].Add(e.measured);
      forall l: Bucket {
        DueAdvances(entries, e, done, k.0, l);
      }
    }

    /** Route one measured row to its bucket of dimension d, creating the aggregate on first use. */
    method AddToGroup(d: Dimension, e: Entry, ghost done: set<Dimension>)
      requires Holds(entries, entries + [e], done) && d !in done
      modifies `groups, `owned, owned
      ensures Holds(entries, entries + [e], done + {d})
      ensures fresh(owned - old(owned)) && old(owned) <= owned
    {
      if d in e.labels {
        var k := (d, e.labels[d]);
        if k in groups {
          ExtendGroup(k, e, done);
        } else {
          var aggregate := new PolicyAggregate();
          aggregate.Add(e.measured);
          OpenGroup(k, aggregate, e, done);
        }
      } else {
        forall l: Bucket {
          DueAdvances(entries, e, done, d, l);
        }
      }
    }

    method AddToGroups(e: Entry)
      requires Holds(entries, entries, {})
      modifies `groups, `owned, owned
      ensures Holds(entries + [e], entries + [e], {})
      ensures fresh(owned - old(owned)) && old(owned) <= owned
    {
      ghost var done: set<Dimension> := {};
      assert forall k: Bucket :: Due(entries, entries, {}, k) == Due(entries, entries + [e], {}, k);
      for i := 0 to |DIMENSIONS|
        invariant done == set j | 0 <= j < i :: DIMENSIONS[j]
        invariant Holds(entries, entries + [e], done)
        invariant fresh(owned - old(owned)) && old(owned) <= owned
      {
        AddToGroup(DIMENSIONS[i], e, done);
        done := done + {DIMENSIONS[i]};
      }
      AllDimensions(done);
      assert forall k: Bucket :: Due(entries, entries + [e], done, k) == Due(entries + [e], entries + [e], {}, k);
    }

    method Add(row: PolicyRow)
      requires Valid() && row.Valid()
      modifies this, overall, owned
      ensures Valid() && entries == old(entries) + [EntryOf(setup, row)] && overall == old(overall)
      ensures fresh(owned - old(owned))
    {
      var e := EntryOf(setup, row);
      AddEntry(e);
    }

    method AddEntry(e: Entry)
      requires Valid()
      modifies this, overall, owned
      ensures Valid() && entries == old(entries) + [e] && overall == old(overall)
      ensures fresh(owned - old(owned))
    {
      hide Due, Labelled, AllMeasured, PolicyAggregate.Valid;
      AddOverall(e);
      AddToGroups(e);
      entries := entries + [e];
    }

    /** The row joins the overall aggregate, not yet its buckets. */
    method AddOverall(e: Entry)
      requires Valid()
      modifies overall
      ensures Holds(entries, entries, {})
      ensures overall.Valid() && overall.rows == AllMeasured(entries + [e])
    {
      hide Due;
      overall.Add(e.measured);
    }

    /** The report of the rows added so far is the batch report. */
    method Compute() returns (r: Report)
      requires Valid()
      ensures r == ReportOf(setup, entries)
    {
      hide InBucket, AggregatePolicy, ReportedBuckets, Holds;
      var all := overall.Compute();
      var todo := ReportedKeys();
      ghost var keys := todo;
      var buckets: map<Bucket, Metrics> := map[];
      while todo != {}
        invariant todo <= keys && buckets.Keys == keys - todo
        invariant forall k :: k in buckets ==> buckets[k] == AggregatePolicy(InBucket(entries, k))
      {
        var k :| k in todo;
        var m := ComputeGroup(k);
        buckets := buckets[k := m];
        todo := todo - {k};
      }
      r := Report(all, buckets);
    }

    /** One bucket's metrics; a bucket without rows is computed from an empty aggregate. */
    method ComputeGroup(k: Bucket) returns (m: Metrics)
      requires Valid()
      ensures m == AggregatePolicy(InBucket(entries, k))
    {
      assert Due(entries, entries, {}, k) == InBucket(entries, k);
      if k in groups {
        m := groups[k].Compute();
      } else {
        var empty := new PolicyAggregate();
        m := empty.Compute();
      }
    }

    /** The filled buckets, with context dimensions replaced by their full lists. */
    function ReportedKeys(): (keys: set<Bucket>)
      requires Valid()
      reads this, overall, owned
      ensures keys == ReportedBuckets(setup, entries)
    {
      FilledKeys();
      (set k | k in groups && Expected(setup, k.0) == []) + ExpectedBuckets(setup)
    }

    lemma FilledKeys()
      requires Valid()
      ensures forall k :: k in groups <==> exists e :: e in entries && Labelled(e, k)
    {
      forall k: Bucket ensures k in groups <==> exists e :: e in entries && Labelled(e, k) {
        assert Due(entries, entries, {}, k) == InBucket(entries, k);
        BucketIsFilled(entries, k);
      }
    }
  }

  lemma AllDimensions(done: set<Dimension>)
    requires done == set j | 0 <= j < |DIMENSIONS| :: DIMENSIONS[j]
    ensures forall d: Dimension :: d in done
  {
    forall d: Dimension ensures d in done {
      var j := match d
        case CandidateFamily => 0 case Hero => 1 case MapId => 2 case Composition => 3
        case RoundBucket => 4 case InputRequest => 5 case SemanticRole => 6 case CanSkip => 7;
      assert DIMENSIONS[j] == d;
    }
  }

  lemma RoleIndex(role: Role) returns (i: nat)
    ensures i < |ROLES| && ROLES[i] == role
  {
    i := match role
      case Planning => 0 case ActionChoice => 1 case MovementDestination => 2 case AttackTarget => 3
      case DefenseReaction => 4 case PassiveReaction => 5 case RespawnChoice => 6 case RespawnDestination => 7
      case ActorChoice => 8 case UpgradeChoice => 9 case CardSelection => 10 case UnitSelection => 11
      case SpatialSelection => 12 case NumberSelection => 13 case OptionSelection => 14;
  }
}

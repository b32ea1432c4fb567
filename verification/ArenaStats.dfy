/** Paired scores of arena games and the sequential test over them. */
module ArenaStats {
  import opened Common

  datatype Side = Red | Blue

  /** One observed game; the case is named by its experiment, seed and side. */
  datatype Game = Game(identity: string, seed: int, side: Side, winner: Option<Side>, reason: string, body: string) {
    predicate Terminal() {
      reason == "game_over"
    }

    /** The candidate plays on the case's side; a draw is half a win. */
    function Score(): real {
      match winner
      case None => 0.5
      case Some(w) => if w == side then 1.0 else 0.0
    }
  }

  datatype Pair = Pair(seed: int, red: real, blue: real) {
    function Score(): real {
      (red + blue) / 2.0
    }
  }

  // Pairing

  predicate Present(rows: seq<Game>, seed: int, side: Side) {
    exists i :: 0 <= i < |rows| && rows[i].seed == seed && rows[i].side == side
  }

  /** Each seed was played to its end exactly once from each side. */
  predicate Paired(rows: seq<Game>) {
    && (forall i :: 0 <= i < |rows| ==> rows[i].Terminal())
    && (forall i, j :: 0 <= i < j < |rows| ==> (rows[i].seed, rows[i].side) != (rows[j].seed, rows[j].side))
    && (forall i :: 0 <= i < |rows| ==> Present(rows, rows[i].seed, Red) && Present(rows, rows[i].seed, Blue))
  }

  predicate Increasing(pairs: seq<Pair>) {
    forall i, j :: 0 <= i < j < |pairs| ==> pairs[i].seed < pairs[j].seed
  }

  ghost predicate HasPair(pairs: seq<Pair>, seed: int) {
    exists k :: 0 <= k < |pairs| && pairs[k].seed == seed
  }

  /** The pairs, by increasing seed, hold the scores of the rows. */
  ghost predicate IsPairing(rows: seq<Game>, pairs: seq<Pair>) {
    && Increasing(pairs)
    && (forall k :: 0 <= k < |pairs| ==> Present(rows, pairs[k].seed, Red) && Present(rows, pairs[k].seed, Blue))
    && (forall i :: 0 <= i < |rows| ==> HasPair(pairs, rows[i].seed))
    && (forall i, k :: 0 <= i < |rows| && 0 <= k < |pairs| && rows[i].seed == pairs[k].seed ==>
        ScoredBy(rows[i], pairs[k]))
  }

  predicate ScoredBy(row: Game, pair: Pair) {
    row.Score() == if row.side.Red? then pair.red else pair.blue
  }

  /** The rows of one seed, by side. */
  datatype BySide = BySide(red: Option<Game>, blue: Option<Game>) {
    function At(side: Side): Option<Game> {
      if side.Red? then red else blue
    }

    function With(row: Game): BySide {
      if row.side.Red? then this.(red := Some(row)) else this.(blue := Some(row))
    }
  }

  /** The table of grouped rows holds exactly the rows so far. */
  ghost predicate Grouped(rows: seq<Game>, grouped: map<int, BySide>) {
    && (forall i :: 0 <= i < |rows| ==>
        rows[i].seed in grouped && grouped[rows[i].seed].At(rows[i].side) == Some(rows[i]))
    && (forall seed, side :: seed in grouped && grouped[seed].At(side).Some? ==> Present(rows, seed, side))
    && (forall seed :: seed in grouped ==> grouped[seed].red.Some? || grouped[seed].blue.Some?)
  }

  lemma PresentSnoc(rows: seq<Game>, row: Game, seed: int, side: Side)
    ensures Present(rows + [row], seed, side) <==> Present(rows, seed, side) || (row.seed == seed && row.side == side)
  {
    var all := rows + [row];
    if Present(rows, seed, side) {
      var i :| 0 <= i < |rows| && rows[i].seed == seed && rows[i].side == side;
      assert all[i] == rows[i];
    }
    assert all[|rows|] == row;
  }

  lemma GroupedSnoc(rows: seq<Game>, grouped: map<int, BySide>, row: Game)
    requires Grouped(rows, grouped)
    requires row.seed in grouped ==> grouped[row.seed].At(row.side).None?
    ensures var before := if row.seed in grouped then grouped[row.seed] else BySide(None, None);
            Grouped(rows + [row], grouped[row.seed := before.With(row)])
  {
    forall seed, side
      ensures Present(rows + [row], seed, side) <==> Present(rows, seed, side) || (row.seed == seed && row.side == side)
    {
      PresentSnoc(rows, row, seed, side);
    }
  }

  function Insert(seed: int, sorted: seq<int>): seq<int> {
    if sorted == [] || seed < sorted[0] then [seed] + sorted else [sorted[0]] + Insert(seed, sorted[1..])
  }

  predicate Ascending(s: seq<int>) {
    forall i, j :: 0 <= i < j < |s| ==> s[i] < s[j]
  }

  predicate Distinct(s: seq<int>) {
    forall i, j :: 0 <= i < j < |s| ==> s[i] != s[j]
  }

  lemma {:induction false} InsertKeeps(seed: int, sorted: seq<int>)
    requires Ascending(sorted) && seed !in sorted
    ensures Ascending(Insert(seed, sorted))
    ensures forall x :: x in Insert(seed, sorted) <==> x in sorted || x == seed
  {
    if sorted != [] && seed >= sorted[0] {
      assert sorted == [sorted[0]] + sorted[1..];
      InsertKeeps(seed, sorted[1..]);
      var rest := Insert(seed, sorted[1..]);
      forall j | 0 <= j < |rest| ensures sorted[0] < rest[j] {
        assert rest[j] in rest;
      }
    }
  }

  function Sorted(seeds: seq<int>): seq<int> {
    if seeds == [] then [] else Insert(seeds[|seeds| - 1], Sorted(seeds[..|seeds| - 1]))
  }

  /** Sorting distinct seeds keeps them and makes them ascend. */
  lemma {:induction false} SortedKeeps(seeds: seq<int>)
    requires Distinct(seeds)
    ensures Ascending(Sorted(seeds))
    ensures forall x :: x in Sorted(seeds) <==> x in seeds
  {
    if seeds != [] {
      var n := |seeds| - 1;
      assert seeds == seeds[..n] + [seeds[n]];
      SortedKeeps(seeds[..n]);
      assert seeds[n] !in seeds[..n];
      InsertKeeps(seeds[n], Sorted(seeds[..n]));
    }
  }

  /** Each side of each seed at most once, all games ended. */
  predicate Groupable(rows: seq<Game>) {
    && (forall i :: 0 <= i < |rows| ==> rows[i].Terminal())
    && (forall i, j :: 0 <= i < j < |rows| ==> (rows[i].seed, rows[i].side) != (rows[j].seed, rows[j].side))
  }

  lemma GroupableSnoc(rows: seq<Game>, grouped: map<int, BySide>, row: Game)
    requires Grouped(rows, grouped)
    ensures Groupable(rows + [row]) <==>
              Groupable(rows) && row.Terminal() && (row.seed in grouped ==> grouped[row.seed].At(row.side).None?)
  {
    var all := rows + [row];
    assert forall i :: 0 <= i < |rows| ==> all[i] == rows[i];
    if Groupable(all) {
      assert all[|rows|].Terminal();
      forall i, j | 0 <= i < j < |rows| ensures (rows[i].seed, rows[i].side) != (rows[j].seed, rows[j].side) {
        assert all[i] == rows[i] && all[j] == rows[j];
      }
    }
    if row.seed in grouped && grouped[row.seed].At(row.side).Some? {
      assert Present(rows, row.seed, row.side);
      RepeatIsNotGroupable(rows, row);
    }
  }

  lemma RepeatIsNotGroupable(rows: seq<Game>, row: Game)
    requires Present(rows, row.seed, row.side)
    ensures !Groupable(rows + [row])
  {
    var all := rows + [row];
    var i :| 0 <= i < |rows| && rows[i].seed == row.seed && rows[i].side == row.side;
    assert (all[i].seed, all[i].side) == (all[|rows|].seed, all[|rows|].side);
  }

  lemma GroupablePrefix(rows: seq<Game>, n: nat)
    requires n <= |rows| && !Groupable(rows[..n])
    ensures !Groupable(rows)
  {
    if Groupable(rows) {
      assert forall i :: 0 <= i < n ==> rows[..n][i] == rows[i];
    }
  }

  /** Group the rows by seed and side; order lists the seeds as they first appear. */
  method GroupRows(rows: seq<Game>) returns (r: Result<map<int, BySide>>, order: seq<int>)
    ensures r.Success? <==> Groupable(rows)
    ensures r.Success? ==> Grouped(rows, r.value) && forall x :: x in order <==> x in r.value
    ensures Distinct(order)
  {
    var grouped: map<int, BySide> := map[];
    order := [];
    for i := 0 to |rows|
      invariant forall x :: x in order <==> x in grouped
      invariant Distinct(order)
      invariant Grouped(rows[..i], grouped) && Groupable(rows[..i])
    {
      var row := rows[i];
      GroupableSnoc(rows[..i], grouped, row);
      assert rows[..i + 1] == rows[..i] + [row];
      var bySide := if row.seed in grouped then grouped[row.seed] else BySide(None, None);
      if !row.Terminal() || bySide.At(row.side).Some? {
        GroupablePrefix(rows, i + 1);
        return Failure, order;
      }
      if row.seed !in grouped {
        order := order + [row.seed];
      }
      GroupedSnoc(rows[..i], grouped, row);
      grouped := grouped[row.seed := bySide.With(row)];
    }
    assert rows[..|rows|] == rows;
    r := Success(grouped);
  }

  predicate BothSides(grouped: map<int, BySide>, seed: int) {
    seed in grouped && grouped[seed].red.Some? && grouped[seed].blue.Some?
  }

  function PairOf(grouped: map<int, BySide>, seed: int): Pair
    requires BothSides(grouped, seed)
  {
    Pair(seed, grouped[seed].red.value.Score(), grouped[seed].blue.value.Score())
  }

  /** Pair the games of each seed, rejecting anything but one ended game from each side. */
  method PairSeedScores(rows: seq<Game>) returns (r: Result<seq<Pair>>)
    ensures r.Success? <==> Paired(rows)
    ensures r.Success? ==> IsPairing(rows, r.value)
  {
    var table, order := GroupRows(rows);
    if table.Failure? {
      return Failure;
    }
    var grouped := table.value;
    SortedKeeps(order);
    var seeds := Sorted(order);
    var pairs: seq<Pair> := [];
    for k := 0 to |seeds|
      invariant |pairs| == k
      invariant forall j :: 0 <= j < k ==> BothSides(grouped, seeds[j]) && pairs[j] == PairOf(grouped, seeds[j])
    {
      assert seeds[k] in seeds;
      if !BothSides(grouped, seeds[k]) {
        MissingSide(rows, grouped, seeds[k]);
        return Failure;
      }
      pairs := pairs + [PairOf(grouped, seeds[k])];
    }
    CompleteTable(rows, grouped, seeds, pairs);
    r := Success(pairs);
  }

  lemma MissingIsAbsent(rows: seq<Game>, grouped: map<int, BySide>, seed: int, side: Side)
    requires Grouped(rows, grouped) && seed in grouped && grouped[seed].At(side).None?
    ensures !Present(rows, seed, side)
  {
    forall i | 0 <= i < |rows| ensures !(rows[i].seed == seed && rows[i].side == side) {
      assert grouped[rows[i].seed].At(rows[i].side) == Some(rows[i]);
    }
  }

  lemma MissingSide(rows: seq<Game>, grouped: map<int, BySide>, seed: int)
    requires Grouped(rows, grouped) && seed in grouped && !BothSides(grouped, seed)
    ensures !Paired(rows)
  {
    var there, missing := if grouped[seed].red.Some? then Red else Blue, if grouped[seed].red.None? then Red else Blue;
    assert grouped[seed].At(there).Some? && Present(rows, seed, there);
    var i :| 0 <= i < |rows| && rows[i].seed == seed && rows[i].side == there;
    MissingIsAbsent(rows, grouped, seed, missing);
  }

  lemma CompleteTable(rows: seq<Game>, grouped: map<int, BySide>, seeds: seq<int>, pairs: seq<Pair>)
    requires Grouped(rows, grouped) && |pairs| == |seeds|
    requires Ascending(seeds)
    requires forall x :: x in seeds <==> x in grouped
    requires forall j :: 0 <= j < |seeds| ==> BothSides(grouped, seeds[j]) && pairs[j] == PairOf(grouped, seeds[j])
    ensures IsPairing(rows, pairs)
    ensures forall i :: 0 <= i < |rows| ==> Present(rows, rows[i].seed, Red) && Present(rows, rows[i].seed, Blue)
  {
    forall i | 0 <= i < |rows|
      ensures HasPair(pairs, rows[i].seed) && Present(rows, rows[i].seed, Red) && Present(rows, rows[i].seed, Blue)
    {
      assert rows[i].seed in seeds;
      var k :| 0 <= k < |seeds| && seeds[k] == rows[i].seed;
      assert pairs[k].seed == rows[i].seed;
      assert grouped[rows[i].seed].At(Red).Some? && grouped[rows[i].seed].At(Blue).Some?;
    }
    forall k | 0 <= k < |pairs| ensures Present(rows, pairs[k].seed, Red) && Present(rows, pairs[k].seed, Blue) {
      assert grouped[seeds[k]].At(Red).Some? && grouped[seeds[k]].At(Blue).Some?;
    }
  }

  /** rows' are the rows and possibly games of larger seeds. */
  ghost predicate AddsLargerSeeds(rows: seq<Game>, rows': seq<Game>) {
    && (forall x :: x in rows ==> x in rows')
    && (forall x, y :: x in rows' && x !in rows && y in rows ==> y.seed < x.seed)
  }

  function SeedsOf(pairs: seq<Pair>): seq<int> {
    seq(|pairs|, k requires 0 <= k < |pairs| => pairs[k].seed)
  }

  ghost predicate HasSeed(rows: seq<Game>, seed: int) {
    exists i :: 0 <= i < |rows| && rows[i].seed == seed
  }

  lemma PairedSeeds(rows: seq<Game>, pairs: seq<Pair>)
    requires IsPairing(rows, pairs)
    ensures Ascending(SeedsOf(pairs)) && forall x :: x in SeedsOf(pairs) <==> HasSeed(rows, x)
  {
    var seeds := SeedsOf(pairs);
    forall x ensures x in seeds <==> HasSeed(rows, x) {
      if x in seeds {
        var k :| 0 <= k < |seeds| && seeds[k] == x;
        assert Present(rows, pairs[k].seed, Red);
      }
      if HasSeed(rows, x) {
        var i :| 0 <= i < |rows| && rows[i].seed == x;
        assert HasPair(pairs, rows[i].seed);
        var k :| 0 <= k < |pairs| && pairs[k].seed == x;
        assert seeds[k] == x;
      }
    }
  }

  /** An ascending list begins with any ascending list of its smallest elements. */
  lemma {:induction false} SmallestComeFirst(a: seq<int>, b: seq<int>)
    requires Ascending(a) && Ascending(b)
    requires forall x :: x in a ==> x in b
    requires forall x, y :: x in b && x !in a && y in a ==> y < x
    ensures a <= b
  {
    if a != [] {
      assert a[0] in a && a[0] in b;
      assert b[0] in b;
      assert b[0] == a[0];
      var ta, tb := a[1..], b[1..];
      assert a == [a[0]] + ta && b == [b[0]] + tb;
      forall x | x in ta ensures x in tb {
        assert x in a && x != a[0];
      }
      forall x, y | x in tb && x !in ta && y in ta ensures y < x {
        assert x in b && x != a[0] && y in a;
      }
      SmallestComeFirst(ta, tb);
    }
  }

  lemma SameScores(rows: seq<Game>, rows': seq<Game>, p: Pair, q: Pair)
    requires forall x :: x in rows ==> x in rows'
    requires p.seed == q.seed && Present(rows, p.seed, Red) && Present(rows, p.seed, Blue)
    requires forall i :: 0 <= i < |rows| && rows[i].seed == p.seed ==> ScoredBy(rows[i], p)
    requires forall i :: 0 <= i < |rows'| && rows'[i].seed == q.seed ==> ScoredBy(rows'[i], q)
    ensures p == q
  {
    var i :| 0 <= i < |rows| && rows[i].seed == p.seed && rows[i].side == Red;
    var j :| 0 <= j < |rows| && rows[j].seed == p.seed && rows[j].side == Blue;
    assert rows[i] in rows && rows[j] in rows;
    var i' :| 0 <= i' < |rows'| && rows'[i'] == rows[i];
    var j' :| 0 <= j' < |rows'| && rows'[j'] == rows[j];
  }

  /** Games of larger seeds leave the pairs before them as they are. */
  lemma LargerSeedsComeAfter(rows: seq<Game>, rows': seq<Game>, p: seq<Pair>, q: seq<Pair>)
    requires IsPairing(rows, p) && IsPairing(rows', q) && AddsLargerSeeds(rows, rows')
    ensures p <= q
  {
    PairedSeeds(rows, p);
    PairedSeeds(rows', q);
    SeedsAdded(rows, rows');
    SmallestComeFirst(SeedsOf(p), SeedsOf(q));
    forall k | 0 <= k < |p| ensures p[k] == q[k] {
      assert SeedsOf(p)[k] == SeedsOf(q)[k];
      SameScores(rows, rows', p[k], q[k]);
    }
  }

  lemma SeedsAdded(rows: seq<Game>, rows': seq<Game>)
    requires AddsLargerSeeds(rows, rows')
    ensures forall x :: HasSeed(rows, x) ==> HasSeed(rows', x)
    ensures forall x, y :: HasSeed(rows', x) && !HasSeed(rows, x) && HasSeed(rows, y) ==> y < x
  {
    forall x | HasSeed(rows, x) ensures HasSeed(rows', x) {
      var i :| 0 <= i < |rows| && rows[i].seed == x;
      assert rows[i] in rows';
    }
    forall x, y | HasSeed(rows', x) && !HasSeed(rows, x) && HasSeed(rows, y) ensures y < x {
      var i :| 0 <= i < |rows'| && rows'[i].seed == x;
      var j :| 0 <= j < |rows| && rows[j].seed == y;
      assert rows'[i] in rows' && rows[j] in rows;
    }
  }

  /** The pairs do not depend on the order of the rows. */
  lemma PairingIsUnique(rows: seq<Game>, rows': seq<Game>, p: seq<Pair>, q: seq<Pair>)
    requires forall x :: x in rows <==> x in rows'
    requires IsPairing(rows, p) && IsPairing(rows', q)
    ensures p == q
  {
    LargerSeedsComeAfter(rows, rows', p, q);
    LargerSeedsComeAfter(rows', rows, q, p);
  }
}

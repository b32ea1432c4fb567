/** Splitting a seed range into shards, and merging the shards' datasets back. */
module BootstrapMerge {
  import opened Common
  import opened RowOrder
  import opened JointDataset

  // Splitting

  datatype Shard = Shard(index: nat, start: int, count: nat)

  /** Consecutive non-empty shards, sizes differing by at most one and the larger ones first, covering
      the range exactly. */
  method PartitionRange(start: int, count: int, workers: int) returns (r: Result<seq<Shard>>)
    ensures r.Failure? <==> count <= 0 || workers <= 0
    ensures r.Success? ==> |r.value| == (if workers < count then workers else count)
    ensures r.Success? ==> PartitionOf(r.value, start, count)
  {
    hide Chain, Balanced, PartitionOf;
    if count <= 0 || workers <= 0 {
      return Failure;
    }
    var shardCount := if workers < count then workers else count;
    var quotient, remainder := count / shardCount, count % shardCount;
    Division(count, shardCount);
    var shards := Deal(start, shardCount, quotient, remainder);
    DealtIsPartition(shards, start, count, quotient, remainder);
    r := Success(shards);
  }

  /** The shards follow one another from start on, numbered, none empty, larger ones first. */
  predicate PartitionOf(shards: seq<Shard>, start: int, count: int) {
    && shards != []
    && shards[0].start == start && shards[|shards| - 1].start + shards[|shards| - 1].count == start + count
    && (forall i :: 0 < i < |shards| ==> shards[i].start == shards[i - 1].start + shards[i - 1].count)
    && (forall i :: 0 <= i < |shards| ==> shards[i].index == i && shards[i].count > 0)
    && (forall i, j :: 0 <= i < j < |shards| ==> shards[j].count <= shards[i].count <= shards[j].count + 1)
  }

  lemma DealtIsPartition(shards: seq<Shard>, start: int, count: int, quotient: nat, remainder: nat)
    requires shards != [] && quotient > 0 && Balanced(shards, quotient, remainder)
    requires Chain(shards, start, start + count)
    ensures PartitionOf(shards, start, count)
  {
  }

  /** Shards of quotient rows each, the first remainder of them one row longer. */
  method Deal(start: int, shardCount: nat, quotient: nat, remainder: nat) returns (shards: seq<Shard>)
    requires remainder <= shardCount
    ensures |shards| == shardCount && Balanced(shards, quotient, remainder)
    ensures Chain(shards, start, start + Product(shardCount, quotient) + remainder)
  {
    hide Chain;
    EmptyChain(start);
    shards := [];
    var cursor := start;
    ghost var taken := 0;
    for index := 0 to shardCount
      invariant |shards| == index
      invariant taken == Product(index, quotient)
      invariant cursor == start + taken + if index < remainder then index else remainder
      invariant Chain(shards, start, cursor)
      invariant Balanced(shards, quotient, remainder)
    {
      var size := quotient + if index < remainder then 1 else 0;
      ChainSnoc(shards, start, cursor, Shard(index, cursor, size));
      shards := shards + [Shard(index, cursor, size)];
      cursor := cursor + size;
      taken := taken + quotient;
    }
  }

  /** Shards that follow one another from start to end. */
  ghost predicate Chain(shards: seq<Shard>, start: int, end: int) {
    && (shards == [] ==> start == end)
    && (shards != [] ==> shards[0].start == start && shards[|shards| - 1].start + shards[|shards| - 1].count == end)
    && (forall i :: 0 <= i < |shards| - 1 ==> shards[i].start + shards[i].count == shards[i + 1].start)
  }

  lemma EmptyChain(start: int)
    ensures Chain([], start, start)
  {
  }

  lemma ChainSnoc(shards: seq<Shard>, start: int, end: int, s: Shard)
    requires Chain(shards, start, end) && s.start == end
    ensures Chain(shards + [s], start, end + s.count)
  {
  }

  /** Every shard has quotient rows, the first remainder of them one more. */
  predicate Balanced(shards: seq<Shard>, quotient: nat, remainder: nat) {
    forall i :: 0 <= i < |shards| ==>
      shards[i].index == i && shards[i].count == quotient + if i < remainder then 1 else 0
  }

  ghost function Product(n: nat, q: nat): nat {
    if n == 0 then 0 else Product(n - 1, q) + q
  }

  lemma {:induction false} ProductIsTimes(n: nat, q: nat)
    ensures Product(n, q) == n * q
  {
    if n > 0 {
      ProductIsTimes(n - 1, q);
    }
  }

  lemma Division(count: nat, n: nat)
    requires 0 < n <= count
    ensures Product(n, count / n) + count % n == count && count / n > 0
  {
    ProductIsTimes(n, count / n);
  }

  // Merging

  /** A generation receipt; completed games are those that ended normally. */
  datatype Receipt = Receipt(game: string, config: string, seed: int, completed: bool, reason: string)

  type Backing = (string, string, int)

  function Completed(checkpoints: seq<seq<Receipt>>): set<Backing> {
    set s, i | 0 <= s < |checkpoints| && 0 <= i < |checkpoints[s]|
               && checkpoints[s][i].completed && checkpoints[s][i].reason == "game_over"
      :: (checkpoints[s][i].game, checkpoints[s][i].config, checkpoints[s][i].seed)
  }

  function BackingOf(row: Row): Backing {
    (row.identity.game, row.identity.config, row.identity.seed)
  }

  ghost predicate Ordered(rows: seq<Row>) {
    forall i, j :: 0 <= i < j < |rows| ==> !Less(rows[j], rows[i])
  }

  ghost predicate ValidShard(rows: seq<Row>) {
    ValidDataset(rows) && Ordered(rows)
  }

  /** The row is in one of the shards. */
  ghost predicate InShards(parts: seq<seq<Row>>, row: Row) {
    exists s :: 0 <= s < |parts| && row in parts[s]
  }

  ghost function AllRows(parts: seq<seq<Row>>): (u: set<Row>)
    ensures forall row :: row in u <==> InShards(parts, row)
  {
    set s, i | 0 <= s < |parts| && 0 <= i < |parts[s]| :: parts[s][i]
  }

  /** When a set of rows is one complete dataset: every row backed by a completed
      receipt, no two rows with one key, no gaps before an index, games and seeds
      one to one, and exactly the expected seeds. */
  ghost predicate Mergeable(rows: set<Row>, completed: set<Backing>, seeds: set<int>) {
    && (forall a :: a in rows ==> BackingOf(a) in completed)
    && (forall a, b :: a in rows && b in rows && SameKey(a, b) ==> a == b)
    && (forall a, k: nat :: a in rows && k < a.index ==> HasRow(rows, a.Game(), k))
    && (forall a, b :: a in rows && b in rows ==> (a.Seed() == b.Seed() <==> a.Game() == b.Game()))
    && (forall seed :: seed in seeds <==> HasSeed(rows, seed))
  }

  ghost predicate HasSeed(rows: set<Row>, seed: int) {
    exists a :: a in rows && a.Seed() == seed
  }

  ghost predicate HasRow(rows: set<Row>, game: string, k: nat) {
    exists b :: b in rows && b.Game() == game && b.index == k
  }

  /** The merge loop's dictionaries and output. */
  datatype Merged = Merged(seen: set<DecisionId>, next: map<string, nat>, seedGames: map<int, string>, out: seq<Row>)
  {
    function NextIndex(game: string): nat {
      if game in next then next[game] else 0
    }

    /** One popped row: rejected, dropped as a repetition, or appended. */
    function Step(row: Row, completed: set<Backing>): Result<Merged> {
      if BackingOf(row) !in completed then Failure
      else if row.Id() in seen then
        if out == [] || out[|out| - 1] != row then Failure else Success(this)
      else if row.index != NextIndex(row.Game()) then Failure
      else if row.Seed() in seedGames && seedGames[row.Seed()] != row.Game() then Failure
      else Success(Merged(seen + {row.Id()}, next[row.Game() := row.index + 1],
                          seedGames[row.Seed() := row.Game()], out + [row]))
    }

    /** The dictionaries describe the output: increasing rows whose indexes count up per game. */
    ghost predicate Valid(completed: set<Backing>) {
      && seen == Ids(out)
      && seedGames.Keys == SeedsOf(out)
      && (forall g :: NextIndex(g) == RowsOf(out, g))
      && (forall x :: x in out ==>
          BackingOf(x) in completed && x.Seed() in seedGames && seedGames[x.Seed()] == x.Game())
      && Increasing(out)
      && CountsUp(out)
    }
  }

  const NOTHING_MERGED := Merged({}, map[], map[], [])

  ghost predicate CountsUp(rows: seq<Row>) {
    forall i :: 0 <= i < |rows| ==> rows[i].index == RowsOf(rows[..i], rows[i].Game())
  }

  lemma {:induction false} IndexBelowCount(rows: seq<Row>, x: Row)
    requires CountsUp(rows) && x in rows
    ensures x.index < RowsOf(rows, x.Game())
  {
    var n := |rows| - 1;
    CountsUpPrefix(rows, n);
    assert rows == rows[..n] + [rows[n]];
    if x in rows[..n] {
      IndexBelowCount(rows[..n], x);
    }
  }

  lemma CountsUpPrefix(rows: seq<Row>, n: nat)
    requires CountsUp(rows) && n <= |rows|
    ensures CountsUp(rows[..n])
  {
    forall i | 0 <= i < n ensures rows[..n][i].index == RowsOf(rows[..n][..i], rows[i].Game()) {
      assert rows[..n][..i] == rows[..i];
    }
  }

  lemma {:induction false} RowAtIndex(rows: seq<Row>, game: string, k: nat)
    requires CountsUp(rows) && k < RowsOf(rows, game)
    ensures exists x :: x in rows && x.Game() == game && x.index == k
  {
    var n := |rows| - 1;
    CountsUpPrefix(rows, n);
    assert rows == rows[..n] + [rows[n]];
    if k < RowsOf(rows[..n], game) {
      RowAtIndex(rows[..n], game, k);
    }
  }

  lemma {:induction false} OneRowPerIndex(rows: seq<Row>, x: Row, y: Row)
    requires CountsUp(rows) && x in rows && y in rows
    requires x.Game() == y.Game() && x.index == y.index
    ensures x == y
  {
    var n := |rows| - 1;
    CountsUpPrefix(rows, n);
    assert rows == rows[..n] + [rows[n]];
    if x in rows[..n] { IndexBelowCount(rows[..n], x); }
    if y in rows[..n] { IndexBelowCount(rows[..n], y); }
    if x in rows[..n] && y in rows[..n] {
      OneRowPerIndex(rows[..n], x, y);
    }
  }

  /** row is the next of all to be popped: everything smaller has been popped into m. */
  ghost predicate IsNext(m: Merged, row: Row, all: set<Row>) {
    && row in all
    && (forall x :: x in m.out ==> x in all && !Less(row, x))
    && (forall x :: x in all && Less(x, row) ==> x in m.out)
  }

  lemma NextComesAfter(m: Merged, row: Row, all: set<Row>, completed: set<Backing>)
    requires m.Valid(completed) && IsNext(m, row, all) && row.index == m.NextIndex(row.Game())
    ensures forall x :: x in m.out ==> Less(x, row)
  {
    forall x | x in m.out ensures Less(x, row) {
      KeyOrder(x, row);
      if SameKey(x, row) {
        IndexBelowCount(m.out, x);
      }
    }
  }

  lemma CountsUpSnoc(rows: seq<Row>, row: Row)
    requires CountsUp(rows) && row.index == RowsOf(rows, row.Game())
    ensures CountsUp(rows + [row])
  {
    var out := rows + [row];
    forall i | 0 <= i < |out| ensures out[i].index == RowsOf(out[..i], out[i].Game()) {
      assert out[..i] == rows[..i];
      assert rows[..|rows|] == rows;
    }
  }

  lemma IncreasingSnoc(rows: seq<Row>, row: Row)
    requires Increasing(rows) && forall x :: x in rows ==> Less(x, row)
    ensures Increasing(rows + [row])
  {
  }

  /** An accepted step keeps the dictionaries valid. */
  lemma StepKeepsValid(m: Merged, row: Row, all: set<Row>, completed: set<Backing>)
    requires m.Valid(completed) && IsNext(m, row, all) && m.Step(row, completed).Success?
    ensures var m' := m.Step(row, completed).value;
            m'.Valid(completed) && forall x :: x in m'.out <==> x in m.out || x == row
  {
    if row.Id() !in m.seen {
      assert (m.out + [row])[..|m.out|] == m.out;
      NextComesAfter(m, row, all, completed);
      IncreasingSnoc(m.out, row);
      CountsUpSnoc(m.out, row);
    }
  }

  /** A repeated decision that differs from the row before it repeats a key. */
  lemma ConflictIsNotMergeable(m: Merged, row: Row, all: set<Row>, completed: set<Backing>, seeds: set<int>)
    requires m.Valid(completed) && IsNext(m, row, all)
    requires row.Id() in m.seen && (m.out == [] || m.out[|m.out| - 1] != row)
    ensures !Mergeable(all, completed, seeds)
  {
    SourceOf(m.out, row);
    var e :| e in m.out && e.Id() == row.Id();
    var i :| 0 <= i < |m.out| && m.out[i] == e;
    var last := m.out[|m.out| - 1];
    assert SameKey(e, row) && SameKey(row, e);
    if e != last {
      KeyTransitive(row, e, last);
    }
  }

  /** A row out of its game's turn leaves a gap, or repeats an index. */
  lemma GapIsNotMergeable(m: Merged, row: Row, all: set<Row>, completed: set<Backing>, seeds: set<int>)
    requires m.Valid(completed) && IsNext(m, row, all)
    requires row.Id() !in m.seen && row.index != m.NextIndex(row.Game())
    ensures !Mergeable(all, completed, seeds)
  {
    var game, next := row.Game(), m.NextIndex(row.Game());
    if Mergeable(all, completed, seeds) {
      if row.index < next {
        RowAtIndex(m.out, game, row.index);
        var e :| e in m.out && e.Game() == game && e.index == row.index;
        assert SameKey(e, row);
        Recorded(m.out, e);
      } else {
        assert HasRow(all, game, next);
        var b :| b in all && b.Game() == game && b.index == next;
        assert Less(b, row);
        IndexBelowCount(m.out, b);
      }
    }
  }

  lemma RejectedIsNotMergeable(m: Merged, row: Row, all: set<Row>, completed: set<Backing>, seeds: set<int>)
    requires m.Valid(completed) && IsNext(m, row, all) && m.Step(row, completed).Failure?
    ensures !Mergeable(all, completed, seeds)
  {
    if BackingOf(row) in completed {
      if row.Id() in m.seen {
        ConflictIsNotMergeable(m, row, all, completed, seeds);
      } else if row.index != m.NextIndex(row.Game()) {
        GapIsNotMergeable(m, row, all, completed, seeds);
      } else {
        SourceOf(m.out, row);
      }
    }
  }

  /** Once every row has been popped, the output is the merge of the shards. */
  lemma FullMergeIsMergeable(m: Merged, parts: seq<seq<Row>>, completed: set<Backing>, seeds: set<int>)
    requires forall s :: 0 <= s < |parts| ==> ValidShard(parts[s])
    requires m.Valid(completed) && forall x :: x in m.out <==> x in AllRows(parts)
    ensures Mergeable(AllRows(parts), completed, seeds) <==> SeedsOf(m.out) == seeds
  {
    var all := AllRows(parts);
    forall a, b | a in all && b in all && SameKey(a, b) ensures a == b {
      OneRowPerIndex(m.out, a, b);
    }
    forall a, k: nat | a in all && k < a.index ensures HasRow(all, a.Game(), k) {
      IndexBelowCount(m.out, a);
      RowAtIndex(m.out, a.Game(), k);
    }
    forall a, b | a in all && b in all ensures a.Seed() == b.Seed() <==> a.Game() == b.Game() {
      if a.Game() == b.Game() {
        var a0 := FirstRow(parts, a);
        var b0 := FirstRow(parts, b);
        OneRowPerIndex(m.out, a0, b0);
      }
    }
    forall seed ensures seed in SeedsOf(m.out) <==> HasSeed(all, seed) {
      if seed in SeedsOf(m.out) {
        SourceOfSeed(m.out, seed);
      }
      if HasSeed(all, seed) {
        var a :| a in all && a.Seed() == seed;
        Recorded(m.out, a);
      }
    }
    SameSeeds(all, SeedsOf(m.out), seeds);
  }

  lemma SameSeeds(rows: set<Row>, found: set<int>, seeds: set<int>)
    requires forall seed :: seed in found <==> HasSeed(rows, seed)
    ensures (forall seed :: seed in seeds <==> HasSeed(rows, seed)) <==> found == seeds
  {
    if forall seed :: seed in seeds <==> HasSeed(rows, seed) {
      assert forall seed :: seed in found <==> seed in seeds;
    }
  }

  lemma {:induction false} SourceOfSeed(rows: seq<Row>, seed: int)
    requires seed in SeedsOf(rows)
    ensures exists b :: b in rows && b.Seed() == seed
  {
    var init, last := rows[..|rows| - 1], rows[|rows| - 1];
    assert rows == init + [last];
    if last.Seed() != seed {
      SourceOfSeed(init, seed);
    }
  }

  /** Every shard has a game's first row beside any other row of it. */
  lemma FirstRow(parts: seq<seq<Row>>, a: Row) returns (first: Row)
    requires forall s :: 0 <= s < |parts| ==> ValidShard(parts[s])
    requires a in AllRows(parts)
    ensures first in AllRows(parts) && first.identity == a.identity && first.index == 0 && first.winner == a.winner
  {
    var s :| 0 <= s < |parts| && a in parts[s];
    var i :| 0 <= i < |parts[s]| && parts[s][i] == a;
    GamesStartAtZero(parts[s], i, 0);
    var j :| 0 <= j < |parts[s]| && parts[s][j].identity == a.identity && parts[s][j].index == 0;
    first := parts[s][j];
    assert i != j ==> Compatible(parts[s][if i < j then i else j], parts[s][if i < j then j else i]);
  }

  /** Rows of the merge agree with each other across shards. */
  lemma MergedAgree(m: Merged, parts: seq<seq<Row>>, completed: set<Backing>, i: nat, j: nat)
    requires forall s :: 0 <= s < |parts| ==> ValidShard(parts[s])
    requires m.Valid(completed) && forall x :: x in m.out <==> x in AllRows(parts)
    requires i < j < |m.out|
    ensures Compatible(m.out[i], m.out[j])
  {
    var a, b := m.out[i], m.out[j];
    assert a in m.out && b in m.out && Less(a, b);
    KeyOrder(a, a);
    if a.Game() == b.Game() {
      var a0 := FirstRow(parts, a);
      var b0 := FirstRow(parts, b);
      OneRowPerIndex(m.out, a0, b0);
      if a.index == b.index {
        OneRowPerIndex(m.out, a, b);
      }
    }
  }

  /** A complete merge passes the validation its shards passed, so it can be read back. */
  lemma MergedIsValid(m: Merged, parts: seq<seq<Row>>, completed: set<Backing>)
    requires forall s :: 0 <= s < |parts| ==> ValidShard(parts[s])
    requires m.Valid(completed) && forall x :: x in m.out <==> x in AllRows(parts)
    ensures parts != [] ==> ValidDataset(m.out)
  {
    hide Compatible, RowsOf;
    forall i, j | 0 <= i < j < |m.out| ensures Compatible(m.out[i], m.out[j]) {
      MergedAgree(m, parts, completed, i, j);
    }
    if parts != [] {
      assert parts[0][0] in parts[0];
      assert InShards(parts, parts[0][0]);
    }
  }

  // The k-way merge

  lemma NotLessTransitive(a: Row, b: Row, c: Row)
    requires !Less(b, a) && !Less(c, b)
    ensures !Less(c, a)
  {
    KeyOrder(a, b);
    KeyOrder(b, c);
    KeyOrder(a, c);
    KeyTransitive(a, b, c);
    KeyTransitive(c, a, b);
    KeyTransitive(c, b, a);
    KeyTransitive(b, c, a);
  }

  /** How far each shard has been read. */
  ghost predicate Positions(parts: seq<seq<Row>>, pos: seq<nat>) {
    |pos| == |parts| && forall s :: 0 <= s < |parts| ==> pos[s] <= |parts[s]|
  }

  ghost predicate Popped(parts: seq<seq<Row>>, pos: seq<nat>, row: Row)
    requires Positions(parts, pos)
  {
    exists s, i :: 0 <= s < |parts| && 0 <= i < pos[s] && parts[s][i] == row
  }

  /** Everything output has been popped, and nothing still unread is smaller. */
  ghost predicate Frontier(parts: seq<seq<Row>>, pos: seq<nat>, out: seq<Row>) {
    && Positions(parts, pos)
    && (forall x :: x in out <==> Popped(parts, pos, x))
    && (forall x, s, i :: x in out && 0 <= s < |parts| && pos[s] <= i < |parts[s]| ==> !Less(parts[s][i], x))
  }

  /** The heap holds the head of every unexhausted shard; this is the one it pops:
      the least head, the earliest shard among equals. */
  ghost predicate LeastHead(parts: seq<seq<Row>>, pos: seq<nat>, k: nat) {
    && Positions(parts, pos) && k < |parts| && pos[k] < |parts[k]|
    && forall s :: 0 <= s < |parts| && pos[s] < |parts[s]| ==>
         !Less(parts[s][pos[s]], parts[k][pos[k]]) && (s < k ==> Less(parts[k][pos[k]], parts[s][pos[s]]))
  }

  method PopLeast(parts: seq<seq<Row>>, pos: seq<nat>) returns (found: bool, k: nat)
    requires Positions(parts, pos)
    ensures found <==> exists s :: 0 <= s < |parts| && pos[s] < |parts[s]|
    ensures found ==> LeastHead(parts, pos, k)
  {
    found, k := false, 0;
    for s := 0 to |parts|
      invariant found <==> exists t :: 0 <= t < s && pos[t] < |parts[t]|
      invariant found ==> k < s && pos[k] < |parts[k]|
      invariant found ==> forall t :: 0 <= t < s && pos[t] < |parts[t]| ==>
        !Less(parts[t][pos[t]], parts[k][pos[k]]) && (t < k ==> Less(parts[k][pos[k]], parts[t][pos[t]]))
    {
      if pos[s] < |parts[s]| {
        var head := parts[s][pos[s]];
        if !found || Less(head, parts[k][pos[k]]) {
          forall t | 0 <= t < s && pos[t] < |parts[t]|
            ensures Less(head, parts[t][pos[t]]) && !Less(parts[t][pos[t]], head)
          {
            var least, other := parts[k][pos[k]], parts[t][pos[t]];
            KeyOrder(least, other);
            KeyTransitive(head, least, other);
            KeyOrder(head, other);
          }
          KeyOrder(head, head);
          found, k := true, s;
        }
      }
    }
  }

  /** The popped head is the next of all rows in key order. */
  lemma HeadIsNext(parts: seq<seq<Row>>, pos: seq<nat>, m: Merged, k: nat)
    requires forall s :: 0 <= s < |parts| ==> ValidShard(parts[s])
    requires Frontier(parts, pos, m.out) && LeastHead(parts, pos, k)
    ensures IsNext(m, parts[k][pos[k]], AllRows(parts))
  {
    var row := parts[k][pos[k]];
    forall x | x in AllRows(parts) && Less(x, row) ensures x in m.out {
      var s :| 0 <= s < |parts| && x in parts[s];
      var i :| 0 <= i < |parts[s]| && parts[s][i] == x;
      if pos[s] <= i {
        KeyOrder(x, x);
        assert !Less(x, parts[s][pos[s]]);
        NotLessTransitive(row, parts[s][pos[s]], x);
      }
    }
    forall x | x in m.out ensures x in AllRows(parts) {
      var s, i :| 0 <= s < |parts| && 0 <= i < pos[s] && parts[s][i] == x;
      assert x in parts[s];
    }
  }

  lemma PoppedAdvances(parts: seq<seq<Row>>, pos: seq<nat>, k: nat, x: Row)
    requires Positions(parts, pos) && k < |parts| && pos[k] < |parts[k]|
    ensures Popped(parts, pos[k := pos[k] + 1], x) <==> Popped(parts, pos, x) || x == parts[k][pos[k]]
  {
    var pos' := pos[k := pos[k] + 1];
    if Popped(parts, pos, x) {
      var s, i :| 0 <= s < |parts| && 0 <= i < pos[s] && parts[s][i] == x;
      assert i < pos'[s];
    }
    if Popped(parts, pos', x) {
      var s, i :| 0 <= s < |parts| && 0 <= i < pos'[s] && parts[s][i] == x;
      assert i < pos[s] || (s == k && i == pos[k]);
    }
    assert pos[k] < pos'[k];
  }

  lemma UnreadNotSmaller(parts: seq<seq<Row>>, pos: seq<nat>, k: nat, s: nat, i: nat)
    requires forall s :: 0 <= s < |parts| ==> ValidShard(parts[s])
    requires LeastHead(parts, pos, k) && s < |parts| && pos[s] <= i < |parts[s]|
    ensures !Less(parts[s][i], parts[k][pos[k]])
  {
    if pos[s] < i {
      assert Ordered(parts[s]);
      NotLessTransitive(parts[k][pos[k]], parts[s][pos[s]], parts[s][i]);
    }
  }

  /** Reading one more row moves the frontier. */
  lemma FrontierAdvances(parts: seq<seq<Row>>, pos: seq<nat>, out: seq<Row>, k: nat, out': seq<Row>)
    requires forall s :: 0 <= s < |parts| ==> ValidShard(parts[s])
    requires Frontier(parts, pos, out) && LeastHead(parts, pos, k)
    requires forall x :: x in out' <==> x in out || x == parts[k][pos[k]]
    ensures Frontier(parts, pos[k := pos[k] + 1], out')
  {
    var pos' := pos[k := pos[k] + 1];
    forall x ensures x in out' <==> Popped(parts, pos', x) {
      PoppedAdvances(parts, pos, k, x);
    }
    forall x, s, i | x in out' && 0 <= s < |parts| && pos'[s] <= i < |parts[s]|
      ensures !Less(parts[s][i], x)
    {
      assert pos[s] <= i;
      UnreadNotSmaller(parts, pos, k, s, i);
    }
  }

  /** What a merge must produce: the increasing sequence of all shard rows, itself a dataset that
      passes validation, or a rejection exactly when there is no complete dataset to produce. */
  ghost predicate MergesTo(parts: seq<seq<Row>>, checkpoints: seq<seq<Receipt>>, seeds: set<int>, r: Result<seq<Row>>) {
    && (r.Success? <==>
          && |parts| == |checkpoints|
          && (forall s :: 0 <= s < |parts| ==> ValidShard(parts[s]))
          && Mergeable(AllRows(parts), Completed(checkpoints), seeds))
    && (r.Success? ==>
          && Increasing(r.value) && (forall x :: x in r.value <==> InShards(parts, x))
          && (parts != [] ==> ValidDataset(r.value))
          && SeedsAscend(r.value))
  }

  method MergeJointBootstrap(parts: seq<seq<Row>>, checkpoints: seq<seq<Receipt>>, seeds: set<int>)
    returns (r: Result<seq<Row>>)
    ensures MergesTo(parts, checkpoints, seeds, r)
  {
    if |parts| != |checkpoints| {
      return Failure;
    }
    var completed := Completed(checkpoints);
    for s := 0 to |parts|
      invariant forall t :: 0 <= t < s ==> ValidShard(parts[t])
    {
      var valid := ValidateDataset(parts[s]);
      var ordered := CheckOrder(parts[s]);
      if !valid || !ordered {
        return Failure;
      }
    }

    var m := NOTHING_MERGED;
    var pos: seq<nat> := seq(|parts|, _ => 0);
    var found, k := PopLeast(parts, pos);
    while found
      invariant m.Valid(completed) && Frontier(parts, pos, m.out)
      invariant found <==> exists s :: 0 <= s < |parts| && pos[s] < |parts[s]|
      invariant found ==> LeastHead(parts, pos, k)
      decreases Unread(parts, pos)
    {
      var row := parts[k][pos[k]];
      HeadIsNext(parts, pos, m, k);
      var step := m.Step(row, completed);
      if step.Failure? {
        RejectedIsNotMergeable(m, row, AllRows(parts), completed, seeds);
        return Failure;
      }
      StepKeepsValid(m, row, AllRows(parts), completed);
      FrontierAdvances(parts, pos, m.out, k, step.value.out);
      UnreadDecreases(parts, pos, k);
      m, pos := step.value, pos[k := pos[k] + 1];
      found, k := PopLeast(parts, pos);
    }
    AllPopped(parts, pos, m.out);
    FullMergeIsMergeable(m, parts, completed, seeds);
    if m.seedGames.Keys != seeds {
      return Failure;
    }
    MergedIsValid(m, parts, completed);
    IncreasingAscends(m.out);
    r := Success(m.out);
  }

  method CheckOrder(rows: seq<Row>) returns (ok: bool)
    ensures ok <==> Ordered(rows)
    ensures ValidDataset(rows) ==> (ok <==> SeedsAscend(rows))
  {
    if ValidDataset(rows) {
      DatasetOrder(rows);
    }
    for i := 0 to |rows|
      invariant forall j :: 0 < j < i ==> !Less(rows[j], rows[j - 1])
    {
      if i > 0 && Less(rows[i], rows[i - 1]) {
        return false;
      }
    }
    forall i, j | 0 <= i < j < |rows| ensures !Less(rows[j], rows[i]) {
      StepsAreOrdered(rows, i, j);
    }
    ok := true;
  }

  lemma {:induction false} StepsAreOrdered(rows: seq<Row>, i: nat, j: nat)
    requires i < j < |rows|
    requires forall k :: 0 < k < |rows| ==> !Less(rows[k], rows[k - 1])
    ensures !Less(rows[j], rows[i])
    decreases j
  {
    if i < j - 1 {
      StepsAreOrdered(rows, i, j - 1);
      NotLessTransitive(rows[i], rows[j - 1], rows[j]);
    }
  }

  ghost function Unread(parts: seq<seq<Row>>, pos: seq<nat>): nat
    requires Positions(parts, pos)
  {
    if parts == [] then 0
    else
      var n := |parts| - 1;
      Unread(parts[..n], pos[..n]) + (|parts[n]| - pos[n])
  }

  lemma {:induction false} UnreadDecreases(parts: seq<seq<Row>>, pos: seq<nat>, k: nat)
    requires Positions(parts, pos) && k < |parts| && pos[k] < |parts[k]|
    ensures Unread(parts, pos[k := pos[k] + 1]) < Unread(parts, pos)
  {
    var n := |parts| - 1;
    if k < n {
      UnreadDecreases(parts[..n], pos[..n], k);
      assert pos[k := pos[k] + 1][..n] == pos[..n][k := pos[k] + 1];
    } else {
      assert pos[k := pos[k] + 1][..n] == pos[..n];
    }
  }

  lemma AllPopped(parts: seq<seq<Row>>, pos: seq<nat>, out: seq<Row>)
    requires Frontier(parts, pos, out)
    requires forall s :: 0 <= s < |parts| ==> pos[s] == |parts[s]|
    ensures forall x :: x in out <==> x in AllRows(parts)
  {
    forall x ensures x in out <==> InShards(parts, x) {
      if InShards(parts, x) {
        var s :| 0 <= s < |parts| && x in parts[s];
        var i :| 0 <= i < |parts[s]| && parts[s][i] == x;
        assert i < pos[s];
      }
    }
  }

  /** World seeds never go back, and rows of one game come by their decision index. */
  predicate SeedsAscend(rows: seq<Row>) {
    && (forall i, j :: 0 <= i < j < |rows| ==> rows[i].identity.seed <= rows[j].identity.seed)
    && (forall i, j :: 0 <= i < j < |rows| && rows[i].identity.game == rows[j].identity.game ==>
          rows[i].index < rows[j].index)
  }

  lemma IncreasingAscends(rows: seq<Row>)
    requires Increasing(rows) && GamesHaveOneSeed(rows)
    ensures SeedsAscend(rows)
  {
    IncreasingIffInPlace(rows);
    forall i, j | 0 <= i < j < |rows|
      ensures rows[i].identity.seed <= rows[j].identity.seed
      ensures rows[i].identity.game == rows[j].identity.game ==> rows[i].index < rows[j].index
    {
      assert InPlace(rows[i].identity, rows[i].index, rows[j].identity, rows[j].index);
    }
  }

  ghost predicate GamesHaveOneSeed(rows: seq<Row>) {
    forall i, j :: 0 <= i < j < |rows| && rows[i].identity.game == rows[j].identity.game ==>
      rows[i].identity.seed == rows[j].identity.seed
  }

  /** A valid dataset passes the order check exactly when its seeds ascend and each game's rows
      come by their index. */
  lemma DatasetOrder(rows: seq<Row>)
    requires ValidDataset(rows)
    ensures Ordered(rows) <==> SeedsAscend(rows)
  {
    forall i, j | 0 <= i < j < |rows|
      ensures !Less(rows[j], rows[i]) <==>
                && rows[i].identity.seed <= rows[j].identity.seed
                && (rows[i].identity.game == rows[j].identity.game ==> rows[i].index < rows[j].index)
    {
      assert Compatible(rows[i], rows[j]);
      StringOrder(rows[i].Game(), rows[j].Game());
    }
  }

  /** A completed receipt names the row's game, configuration and world seed. */
  ghost predicate Backed(checkpoints: seq<seq<Receipt>>, row: Row) {
    exists s, i :: 0 <= s < |checkpoints| && 0 <= i < |checkpoints[s]| && Backs(checkpoints[s][i], row)
  }

  predicate Backs(receipt: Receipt, row: Row) {
    && receipt.completed && receipt.reason == "game_over"
    && receipt.game == row.identity.game && receipt.config == row.identity.config && receipt.seed == row.identity.seed
  }

  lemma BackedMeans(checkpoints: seq<seq<Receipt>>, row: Row)
    ensures Backed(checkpoints, row) <==> BackingOf(row) in Completed(checkpoints)
  {
    if BackingOf(row) in Completed(checkpoints) {
      var s, i :| 0 <= s < |checkpoints| && 0 <= i < |checkpoints[s]| && Backs(checkpoints[s][i], row);
    }
  }

  /** What a caller reads off a merge: every merged row has its completed receipt, exactly the
      expected seeds occur, each with one game, and a row without such a receipt rejects. */
  lemma MergeMeans(parts: seq<seq<Row>>, checkpoints: seq<seq<Receipt>>, seeds: set<int>, r: Result<seq<Row>>)
    requires MergesTo(parts, checkpoints, seeds, r)
    ensures r.Success? ==> forall x :: x in r.value ==> Backed(checkpoints, x) && x.identity.seed in seeds
    ensures r.Success? ==> forall seed :: seed in seeds ==> exists x :: x in r.value && x.identity.seed == seed
    ensures (exists x :: InShards(parts, x) && !Backed(checkpoints, x)) ==> r.Failure?
  {
    var all := AllRows(parts);
    forall x | InShards(parts, x)
      ensures x in all && (Backed(checkpoints, x) <==> BackingOf(x) in Completed(checkpoints))
    {
      BackedMeans(checkpoints, x);
    }
    if r.Success? {
      forall x | x in r.value ensures x.identity.seed in seeds {
        assert x in all && x.Seed() == x.identity.seed;
      }
      forall seed | seed in seeds ensures exists x :: x in r.value && x.identity.seed == seed {
        assert HasSeed(all, seed);
        var a :| a in all && a.Seed() == seed;
        assert a in r.value && a.identity.seed == seed;
      }
    }
  }

  /** The merge depends on nothing but the rows: however they are split, repeated
      or ordered among valid shards, both merges reject or both give one sequence. */
  lemma MergeIgnoresSharding(parts: seq<seq<Row>>, checkpoints: seq<seq<Receipt>>, r: Result<seq<Row>>,
                             parts': seq<seq<Row>>, checkpoints': seq<seq<Receipt>>, r': Result<seq<Row>>,
                                 seeds: set<int>)
    requires MergesTo(parts, checkpoints, seeds, r) && MergesTo(parts', checkpoints', seeds, r')
    requires |parts| == |checkpoints| && |parts'| == |checkpoints'|
    requires forall s :: 0 <= s < |parts| ==> ValidShard(parts[s])
    requires forall s :: 0 <= s < |parts'| ==> ValidShard(parts'[s])
    requires Completed(checkpoints) == Completed(checkpoints')
    requires forall x :: InShards(parts, x) <==> InShards(parts', x)
    ensures r == r'
  {
    assert AllRows(parts) == AllRows(parts');
    if r.Success? {
      IncreasingIsCanonical(r.value, r'.value);
    }
  }
}

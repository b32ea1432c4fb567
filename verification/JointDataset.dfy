/** The one-pass dataset validator: dictionaries and counters that decide a
    property of the whole row sequence. */
module JointDataset {
  import opened Common
  import opened RowOrder

  /** How many of rows belong to game g. */
  function RowsOf(rows: seq<Row>, g: string): nat {
    if rows == [] then 0
    else RowsOf(rows[..|rows| - 1], g) + if rows[|rows| - 1].Game() == g then 1 else 0
  }

  /** What a dataset must be, as far as rows have been read: unique decisions, one
      identity and one winner per game, one game per seed, and each game's indexes
      counting up from zero. */
  ghost predicate Consistent(rows: seq<Row>) {
    && (forall i, j :: 0 <= i < j < |rows| ==> Compatible(rows[i], rows[j]))
    && (forall i :: 0 <= i < |rows| ==> rows[i].index == RowsOf(rows[..i], rows[i].Game()))
  }

  predicate Compatible(a: Row, b: Row) {
    && a.Id() != b.Id()
    && (a.Game() == b.Game() ==> a.identity == b.identity && a.winner == b.winner)
    && (a.Seed() == b.Seed() ==> a.Game() == b.Game())
  }

  ghost predicate ValidDataset(rows: seq<Row>) {
    rows != [] && Consistent(rows)
  }

  lemma ConsistentPrefix(rows: seq<Row>, n: nat)
    requires n <= |rows| && Consistent(rows)
    ensures Consistent(rows[..n])
  {
    forall i | 0 <= i < n ensures rows[..n][i].index == RowsOf(rows[..n][..i], rows[i].Game()) {
      assert rows[..n][..i] == rows[..i];
    }
  }

  /** row may follow before. */
  ghost predicate Fits(before: seq<Row>, row: Row) {
    && (forall b :: b in before ==> Compatible(b, row))
    && row.index == RowsOf(before, row.Game())
  }

  lemma ConsistentSnoc(before: seq<Row>, row: Row)
    ensures Consistent(before + [row]) <==> Consistent(before) && Fits(before, row)
  {
    var n, rows := |before|, before + [row];
    assert rows[..n] == before;
    if Consistent(rows) {
      ConsistentPrefix(rows, n);
      forall b | b in before ensures Compatible(b, row) {
        var i :| 0 <= i < n && before[i] == b;
        assert Compatible(rows[i], rows[n]);
      }
    }
    if Consistent(before) && Fits(before, row) {
      forall i | 0 <= i <= n ensures rows[i].index == RowsOf(rows[..i], rows[i].Game()) {
        assert i < n ==> rows[..i] == before[..i];
      }
    }
  }

  /** The validator's dictionaries. */
  datatype Seen = Seen(decisions: set<DecisionId>, identities: map<string, Identity>,
                       terminals: map<string, Option<string>>, seeds: map<int, string>, next: map<string, nat>)
  {
    /** The five checks on one row. */
    predicate Accepts(row: Row) {
      && row.Id() !in decisions
      && (row.Game() in identities ==> identities[row.Game()] == row.identity)
      && (row.Game() in terminals ==> terminals[row.Game()] == row.winner)
      && (row.Seed() in seeds ==> seeds[row.Seed()] == row.Game())
      && row.index == if row.Game() in next then next[row.Game()] else 0
    }

    function Learn(row: Row): Seen {
      Seen(decisions + {row.Id()}, identities[row.Game() := row.identity], terminals[row.Game() := row.winner],
           seeds[row.Seed() := row.Game()], next[row.Game() := row.index + 1])
    }

    /** What is recorded is exactly what the rows before say. */
    ghost predicate Records(before: seq<Row>) {
      && decisions == Ids(before)
      && identities.Keys == terminals.Keys == next.Keys == GamesOf(before)
      && seeds.Keys == SeedsOf(before)
      && (forall g :: g in next ==> next[g] == RowsOf(before, g))
      && (forall b :: b in before ==>
            && b.Game() in identities && identities[b.Game()] == b.identity
            && b.Game() in terminals && terminals[b.Game()] == b.winner
            && b.Seed() in seeds && seeds[b.Seed()] == b.Game())
    }
  }

  ghost function Ids(rows: seq<Row>): set<DecisionId> {
    if rows == [] then {} else Ids(rows[..|rows| - 1]) + {rows[|rows| - 1].Id()}
  }

  ghost function GamesOf(rows: seq<Row>): set<string> {
    if rows == [] then {} else GamesOf(rows[..|rows| - 1]) + {rows[|rows| - 1].Game()}
  }

  ghost function SeedsOf(rows: seq<Row>): set<int> {
    if rows == [] then {} else SeedsOf(rows[..|rows| - 1]) + {rows[|rows| - 1].Seed()}
  }

  lemma {:induction false} Recorded(rows: seq<Row>, b: Row)
    requires b in rows
    ensures b.Id() in Ids(rows) && b.Game() in GamesOf(rows) && b.Seed() in SeedsOf(rows)
  {
    var init, last := rows[..|rows| - 1], rows[|rows| - 1];
    assert rows == init + [last];
    if b != last {
      Recorded(init, b);
    }
  }

  lemma {:induction false} SourceOf(rows: seq<Row>, row: Row)
    ensures row.Id() in Ids(rows) ==> exists b :: b in rows && b.Id() == row.Id()
    ensures row.Game() in GamesOf(rows) ==> exists b :: b in rows && b.Game() == row.Game()
    ensures row.Seed() in SeedsOf(rows) ==> exists b :: b in rows && b.Seed() == row.Seed()
  {
    if rows != [] {
      var init, last := rows[..|rows| - 1], rows[|rows| - 1];
      assert rows == init + [last];
      SourceOf(init, row);
    }
  }

  lemma {:induction false} NoRows(rows: seq<Row>, g: string)
    requires g !in GamesOf(rows)
    ensures RowsOf(rows, g) == 0
  {
    if rows != [] {
      NoRows(rows[..|rows| - 1], g);
    }
  }

  lemma AcceptsWhatFits(seen: Seen, before: seq<Row>, row: Row)
    requires seen.Records(before)
    ensures seen.Accepts(row) <==> Fits(before, row)
  {
    SourceOf(before, row);
    if row.Game() !in seen.next {
      NoRows(before, row.Game());
    }
    forall b | b in before
      ensures b.Id() in seen.decisions && b.Game() in seen.identities && b.Seed() in seen.seeds
    {
      Recorded(before, b);
    }
  }

  lemma LearnRecords(seen: Seen, before: seq<Row>, row: Row)
    requires seen.Records(before) && Fits(before, row)
    ensures seen.Learn(row).Records(before + [row])
  {
    var after, now := before + [row], seen.Learn(row);
    assert after[..|before|] == before;
    forall b | b in after
      ensures b.Game() in now.identities && now.identities[b.Game()] == b.identity
      ensures b.Game() in now.terminals && now.terminals[b.Game()] == b.winner
      ensures b.Seed() in now.seeds && now.seeds[b.Seed()] == b.Game()
    {
      if b in before {
        Recorded(before, b);
        assert Compatible(b, row);
      }
    }
    if row.Game() !in seen.next {
      NoRows(before, row.Game());
    }
  }

  lemma PrefixIsInconsistent(rows: seq<Row>, n: nat)
    requires n <= |rows| && !Consistent(rows[..n])
    ensures !Consistent(rows)
  {
    if Consistent(rows) {
      ConsistentPrefix(rows, n);
    }
  }

  /** iter_joint_dataset_records, run to the end or to its first rejection. */
  method ValidateDataset(rows: seq<Row>) returns (ok: bool)
    ensures ok <==> ValidDataset(rows)
  {
    var seen := Seen({}, map[], map[], map[], map[]);
    for n := 0 to |rows|
      invariant Consistent(rows[..n])
      invariant seen.Records(rows[..n])
    {
      var row := rows[n];
      assert rows[..n + 1] == rows[..n] + [row];
      AcceptsWhatFits(seen, rows[..n], row);
      ConsistentSnoc(rows[..n], row);
      if !seen.Accepts(row) {
        PrefixIsInconsistent(rows, n + 1);
        return false;
      }
      LearnRecords(seen, rows[..n], row);
      seen := seen.Learn(row);
    }
    assert rows[..|rows|] == rows;
    ok := rows != [];
  }

  lemma {:induction false} EarlierIndexes(rows: seq<Row>, g: string, k: nat)
    requires Consistent(rows) && k < RowsOf(rows, g)
    ensures exists i :: 0 <= i < |rows| && rows[i].Game() == g && rows[i].index == k
  {
    var n := |rows| - 1;
    var init := rows[..n];
    ConsistentPrefix(rows, n);
    if k < RowsOf(init, g) {
      EarlierIndexes(init, g, k);
      var i :| 0 <= i < n && init[i].Game() == g && init[i].index == k;
      assert rows[i] == init[i];
    }
  }

  /** A dataset that has a game's row k has all its rows before k, of the same identity. */
  lemma GamesStartAtZero(rows: seq<Row>, i: nat, k: nat)
    requires Consistent(rows) && i < |rows| && k <= rows[i].index
    ensures exists j :: 0 <= j < |rows| && rows[j].identity == rows[i].identity && rows[j].index == k
  {
    if k < rows[i].index {
      ConsistentPrefix(rows, i);
      EarlierIndexes(rows[..i], rows[i].Game(), k);
      var j :| 0 <= j < i && rows[..i][j].Game() == rows[i].Game() && rows[..i][j].index == k;
      assert rows[j] == rows[..i][j];
    }
  }

  // What a consistent dataset is

  /** Of two rows the later one agrees with the earlier: in one game the same provenance and winner
      and a larger index, in one world seed the same game. */
  predicate Agree(a: Row, b: Row) {
    && (a.identity.game == b.identity.game ==> a.identity == b.identity && a.winner == b.winner && a.index < b.index)
    && (a.identity.seed == b.identity.seed ==> a.identity.game == b.identity.game)
  }

  ghost predicate HasBefore(rows: seq<Row>, n: nat, g: string, k: nat) {
    exists j :: 0 <= j < n && j < |rows| && rows[j].identity.game == g && rows[j].index == k
  }

  /** Before a row all rows of its game with smaller indexes have been read. */
  ghost predicate NoneSkipped(rows: seq<Row>) {
    forall i, k: nat :: 0 <= i < |rows| && k < rows[i].index ==> HasBefore(rows, i, rows[i].identity.game, k)
  }

  lemma {:induction false} CountIsNext(rows: seq<Row>, n: nat, g: string)
    requires n <= |rows| && NoneSkipped(rows) && forall i, j :: 0 <= i < j < |rows| ==> Agree(rows[i], rows[j])
    ensures forall j :: 0 <= j < n && rows[j].identity.game == g ==> rows[j].index < RowsOf(rows[..n], g)
    ensures forall k: nat :: k < RowsOf(rows[..n], g) ==> HasBefore(rows, n, g, k)
  {
    if n > 0 {
      var m := n - 1;
      CountIsNext(rows, m, g);
      assert rows[..n][..m] == rows[..m];
      var c := RowsOf(rows[..m], g);
      forall k: nat | k < c ensures HasBefore(rows, n, g, k) {
        assert HasBefore(rows, m, g, k);
      }
      if rows[m].identity.game == g {
        if c > 0 {
          assert HasBefore(rows, m, g, c - 1);
        }
        assert rows[m].index >= c;
        assert rows[m].index > c ==> HasBefore(rows, m, g, c);
        assert rows[m].index == c;
      }
    }
  }

  /** Consistency, without counting: later rows agree with earlier ones and no index is skipped. */
  lemma ConsistentMeans(rows: seq<Row>)
    ensures Consistent(rows) <==> NoneSkipped(rows) && forall i, j :: 0 <= i < j < |rows| ==> Agree(rows[i], rows[j])
  {
    if NoneSkipped(rows) && forall i, j :: 0 <= i < j < |rows| ==> Agree(rows[i], rows[j]) {
      forall i | 0 <= i < |rows| ensures rows[i].index == RowsOf(rows[..i], rows[i].Game()) {
        NextIsCount(rows, i);
      }
    }
    if Consistent(rows) {
      forall i, j | 0 <= i < j < |rows| ensures Agree(rows[i], rows[j]) {
        assert Compatible(rows[i], rows[j]);
        CountGrows(rows, i, j, rows[i].Game());
      }
      forall i, k: nat | 0 <= i < |rows| && k < rows[i].index ensures HasBefore(rows, i, rows[i].identity.game, k) {
        ConsistentPrefix(rows, i);
        EarlierIndexes(rows[..i], rows[i].Game(), k);
        var j :| 0 <= j < i && rows[..i][j].Game() == rows[i].Game() && rows[..i][j].index == k;
        assert rows[j] == rows[..i][j];
      }
    }
  }

  lemma NextIsCount(rows: seq<Row>, i: nat)
    requires i < |rows| && NoneSkipped(rows) && forall a, b :: 0 <= a < b < |rows| ==> Agree(rows[a], rows[b])
    ensures rows[i].index == RowsOf(rows[..i], rows[i].Game())
  {
    var g := rows[i].identity.game;
    CountIsNext(rows, i, g);
    CountIsNext(rows, i + 1, g);
    assert rows[..i + 1][..i] == rows[..i];
    var c := RowsOf(rows[..i], g);
    if c > 0 {
      assert HasBefore(rows, i, g, c - 1);
    }
  }

  lemma {:induction false} CountGrows(rows: seq<Row>, i: nat, j: nat, g: string)
    requires i < j <= |rows|
    ensures RowsOf(rows[..i], g) + (if rows[i].Game() == g then 1 else 0) <= RowsOf(rows[..j], g)
  {
    assert rows[..j][..j - 1] == rows[..j - 1];
    if i < j - 1 {
      CountGrows(rows, i, j - 1, g);
    }
  }
}

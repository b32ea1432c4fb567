/** Scanning a source into fragments, and the range validators of the catalog it yields. */
module IndexScan {
  import opened Common
  import opened IndexBuild

  // The scan

  lemma {:induction false} RowsBeforePrefix(a: seq<seq<SourceRow>>, b: seq<seq<SourceRow>>, k: nat)
    requires k <= |a| && k <= |b| && a[..k] == b[..k]
    ensures RowsBefore(a, k) == RowsBefore(b, k)
  {
    if k > 0 {
      assert a[..k - 1] == a[..k][..k - 1] == b[..k][..k - 1] == b[..k - 1];
      assert a[k - 1] == a[..k][k - 1] == b[..k][k - 1] == b[k - 1];
      RowsBeforePrefix(a, b, k - 1);
    }
  }

  /** The scan's state after the rows of runs: all runs but the last are written. */
  ghost predicate Scanned(runs: seq<seq<SourceRow>>, games: seq<Game>, fragments: map<nat, seq<SourceRow>>,
                          active: seq<SourceRow>, start: nat, size: nat)
    requires size > 0 && OneGameEach(runs)
  {
    && runs != [] && |games| == |runs| - 1
    && active == runs[|games|] && start == RowsBefore(runs, |games|)
    && Closed(runs, |games|, games, fragments, size)
  }

  /** The first n runs are finished fragments. */
  ghost predicate Closed(runs: seq<seq<SourceRow>>, n: nat, games: seq<Game>, fragments: map<nat, seq<SourceRow>>,
                         size: nat)
    requires size > 0 && OneGameEach(runs) && n <= |runs|
  {
    && |games| == n
    && (forall k :: 0 <= k < n ==> games[k] == GameAt(runs, k, size, false))
    && (forall k: nat :: k in fragments <==> k < n)
    && (forall k: nat :: k < n ==> fragments[k] == runs[k])
  }

  lemma ClosedPrefix(runs: seq<seq<SourceRow>>, more: seq<seq<SourceRow>>, n: nat, games: seq<Game>,
                     fragments: map<nat, seq<SourceRow>>, size: nat)
    requires size > 0 && OneGameEach(runs) && OneGameEach(more) && n <= |runs| && n <= |more| && runs[..n] == more[..n]
    requires Closed(runs, n, games, fragments, size)
    ensures Closed(more, n, games, fragments, size)
  {
    forall k: nat | k < n ensures GameAt(more, k, size, false) == GameAt(runs, k, size, false) && more[k] == runs[k] {
      assert more[k] == more[..n][k] == runs[..n][k] == runs[k];
      assert more[..k] == more[..n][..k] == runs[..n][..k] == runs[..k];
      RowsBeforePrefix(runs, more, k);
    }
  }

  lemma ClosedSnoc(runs: seq<seq<SourceRow>>, n: nat, games: seq<Game>, fragments: map<nat, seq<SourceRow>>, size: nat)
    requires size > 0 && OneGameEach(runs) && n < |runs| && Closed(runs, n, games, fragments, size)
    ensures Closed(runs, n + 1, games + [GameAt(runs, n, size, false)], fragments[n := runs[n]], size)
  {
  }

  /** The metadata of a finished fragment. */
  function Finish(active: seq<SourceRow>, ordinal: nat, start: nat): Game
    requires active != []
  {
    Game(active[0].game, ordinal, start, |active|, active, [])
  }

  lemma SameGame(runs: seq<seq<SourceRow>>, row: SourceRow, games: seq<Game>, fragments: map<nat, seq<SourceRow>>,
                 active: seq<SourceRow>, start: nat, size: nat)
    requires size > 0 && OneGameEach(runs) && Scanned(runs, games, fragments, active, start, size)
    requires active[0].game == row.game
    ensures OneGameEach(Extended(runs, row))
              && Scanned(Extended(runs, row), games, fragments, active + [row], start, size)
  {
    ExtendedPartition(runs, row);
    var more, n := Extended(runs, row), |games|;
    assert more[..n] == runs[..n];
    RowsBeforePrefix(runs, more, n);
    ClosedPrefix(runs, more, n, games, fragments, size);
  }

  lemma NextGame(runs: seq<seq<SourceRow>>, row: SourceRow, games: seq<Game>, fragments: map<nat, seq<SourceRow>>,
                 active: seq<SourceRow>, start: nat, size: nat)
    requires size > 0 && OneGameEach(runs) && Scanned(runs, games, fragments, active, start, size)
    requires active[0].game != row.game
    ensures OneGameEach(Extended(runs, row))
    ensures Scanned(Extended(runs, row), games + [Finish(active, |games|, start)], fragments[|games| := active],
                    [row], start + |active|, size)
  {
    ExtendedPartition(runs, row);
    var more, n := Extended(runs, row), |games|;
    ClosedSnoc(runs, n, games, fragments, size);
    assert more[..n + 1] == runs[..n + 1];
    RowsBeforePrefix(runs, more, n + 1);
    ClosedPrefix(runs, more, n + 1, games + [Finish(active, n, start)], fragments[n := active], size);
  }

  /** Once a run repeats a game, later rows cannot repair it. */
  lemma {:induction false} RepeatPersists(source: seq<SourceRow>, i: nat)
    requires i <= |source| && !Contiguous(source[..i])
    ensures !Contiguous(source)
  {
    var a, b, c :| 0 <= a < b < c < i && source[..i][a].game == source[..i][c].game
        && source[..i][b].game != source[..i][c].game;
    assert source[a].game == source[c].game && source[b].game != source[c].game;
  }

  lemma SeenLast(source: seq<SourceRow>)
    requires source != []
    ensures HasRow(source, source[|source| - 1].game)
  {
  }

  /** What the next row does to the games seen. */
  lemma SeenSnoc(source: seq<SourceRow>, i: nat, seen: set<string>)
    requires 0 < i < |source| && forall g :: g in seen <==> HasRow(source[..i], g)
    ensures forall g :: g in seen + {source[i].game} <==> HasRow(source[..i + 1], g)
    ensures Contiguous(source[..i + 1]) <==>
              Contiguous(source[..i]) && (source[i].game == source[i - 1].game || source[i].game !in seen)
    ensures source[i - 1].game in seen
    ensures Runs(source[..i + 1]) == Extended(Runs(source[..i]), source[i])
  {
    hide HasRow, Contiguous;
    var more := source[..i + 1];
    assert more[..|more| - 1] == source[..i] && more[|more| - 1] == source[i];
    forall g ensures HasRow(more, g) <==> HasRow(source[..i], g) || g == source[i].game {
      HasRowSnoc(more, g);
    }
    ContiguousSnoc(more);
    SeenLast(source[..i]);
    assert source[..i][i - 1].game == source[i - 1].game;
  }

  /** The scan's first row. */
  lemma FirstRow(source: seq<SourceRow>, size: nat)
    requires source != [] && size > 0
    ensures Runs(source[..1]) == [[source[0]]] && OneGameEach(Runs(source[..1])) && Contiguous(source[..1])
    ensures Scanned(Runs(source[..1]), [], map[], [source[0]], 0, size)
    ensures forall g :: g in {source[0].game} <==> HasRow(source[..1], g)
  {
    assert source[..1][..0] == [] && Runs([]) == [];
    assert source[..1] == [source[0]];
    assert HasRow(source[..1], source[0].game) by {
      assert source[..1][0].game == source[0].game;
    }
  }

  /** With the last run closed the scan has found every game and fragment. */
  lemma AllScanned(source: seq<SourceRow>, games: seq<Game>, fragments: map<nat, seq<SourceRow>>,
                   active: seq<SourceRow>, start: nat, size: nat)
    requires size > 0 && active != [] && OneGameEach(Runs(source))
    requires Scanned(Runs(source), games, fragments, active, start, size)
    ensures var all := games + [Finish(active, |games|, start)];
            && CatalogOf(source, size, {}) == Catalog(source, size, |source|, |all|, all)
            && FragmentsOf(source) == fragments[|games| := active]
  {
    hide Runs, Closed, CatalogOf, FragmentsOf, OneGameEach;
    LastCloses(Runs(source), games, fragments, active, start, size);
    ClosedIsCatalog(source, games + [Finish(active, |games|, start)], fragments[|games| := active], size);
  }

  lemma LastCloses(runs: seq<seq<SourceRow>>, games: seq<Game>, fragments: map<nat, seq<SourceRow>>,
                   active: seq<SourceRow>, start: nat, size: nat)
    requires size > 0 && active != [] && OneGameEach(runs) && Scanned(runs, games, fragments, active, start, size)
    ensures Closed(runs, |runs|, games + [Finish(active, |games|, start)], fragments[|games| := active], size)
  {
    ClosedSnoc(runs, |games|, games, fragments, size);
    assert Finish(active, |games|, start) == GameAt(runs, |games|, size, false);
  }

  lemma ClosedIsCatalog(source: seq<SourceRow>, all: seq<Game>, fragments: map<nat, seq<SourceRow>>, size: nat)
    requires size > 0 && OneGameEach(Runs(source))
    requires Closed(Runs(source), |Runs(source)|, all, fragments, size)
    ensures CatalogOf(source, size, {}) == Catalog(source, size, |source|, |all|, all)
    ensures FragmentsOf(source) == fragments
  {
    hide Runs, RowsBefore, GameAt;
    assert CatalogOf(source, size, {}).games == all;
  }

  /** Split the source into one fragment a game, rejecting a game that reappears. */
  method Scan(source: seq<SourceRow>, size: nat) returns (r: Result<(Catalog, map<nat, seq<SourceRow>>)>)
    requires size > 0
    ensures r.Success? <==> Indexable(source)
    ensures r.Success? ==> r.value == (CatalogOf(source, size, {}), FragmentsOf(source))
  {
    hide HasRow, Contiguous, RowsBefore, GameAt, CatalogOf, FragmentsOf, Closed, Runs;
    if source == [] {
      return Failure;
    }
    var seen: set<string> := {source[0].game};
    var games: seq<Game>, fragments: map<nat, seq<SourceRow>> := [], map[];
    var active, start, rowCount := [source[0]], 0, 1;
    FirstRow(source, size);
    for i := 1 to |source|
      invariant rowCount == i
      invariant OneGameEach(Runs(source[..i])) && Scanned(Runs(source[..i]), games, fragments, active, start, size)
      invariant active != [] && active[0].game == source[i - 1].game && start + |active| == rowCount
      invariant forall g :: g in seen <==> HasRow(source[..i], g)
      invariant Contiguous(source[..i])
    {
      var row := source[i];
      SeenSnoc(source, i, seen);
      if row.game != active[0].game {
        if row.game in seen {
          RepeatPersists(source, i + 1);
          return Failure;
        }
        NextGame(Runs(source[..i]), row, games, fragments, active, start, size);
        fragments := fragments[|games| := active];
        games := games + [Finish(active, |games|, start)];
        active, start := [row], rowCount;
      } else {
        SameGame(Runs(source[..i]), row, games, fragments, active, start, size);
        active := active + [row];
      }
      seen := seen + {row.game};
      rowCount := rowCount + 1;
    }
    assert source[..|source|] == source;
    AllScanned(source, games, fragments, active, start, size);
    fragments := fragments[|games| := active];
    games := games + [Finish(active, |games|, start)];
    r := Success((Catalog(source, size, rowCount, |games|, games), fragments));
  }
}

/** The resumable disk index: one scan of the source, then one tensorization per game,
    in any order and across any number of failures and restarts. */
module IndexBuild {
  import opened Common

  datatype SourceRow = SourceRow(game: string, body: string)

  /** A chunk's path: its game's ordinal and its own. */
  type ChunkPath = (nat, nat)

  /** What a training file holds; an interrupted worker may leave anything. */
  datatype ChunkFile = ChunkFile(start: nat, rows: seq<SourceRow>) | Debris(bytes: string)

  // SHA-256 digests are modelled by the content they are taken of.

  datatype Chunk = Chunk(path: ChunkPath, start: nat, count: nat, digest: ChunkFile)

  datatype Game = Game(id: string, fragment: nat, start: nat, count: nat, digest: seq<SourceRow>, chunks: seq<Chunk>)

  /** The staging checkpoint and the published manifest carry the same fields. */
  datatype Catalog = Catalog(source: seq<SourceRow>, size: nat, rowCount: nat, gameCount: nat, games: seq<Game>)

  datatype Files = Files(fragments: map<nat, seq<SourceRow>>, training: map<ChunkPath, ChunkFile>)

  // What one source determines

  /** The maximal stretches of rows of one game. */
  function Runs(source: seq<SourceRow>): seq<seq<SourceRow>> {
    if source == [] then []
    else
      var before, row := Runs(source[..|source| - 1]), source[|source| - 1];
      Extended(before, row)
  }

  function Extended(runs: seq<seq<SourceRow>>, row: SourceRow): seq<seq<SourceRow>> {
    var n := |runs|;
    if n > 0 && runs[n - 1] != [] && runs[n - 1][0].game == row.game then runs[..n - 1] + [runs[n - 1] + [row]]
    else runs + [[row]]
  }

  function Flatten(runs: seq<seq<SourceRow>>): seq<SourceRow> {
    if runs == [] then [] else Flatten(runs[..|runs| - 1]) + runs[|runs| - 1]
  }

  predicate OneGameEach(runs: seq<seq<SourceRow>>) {
    && (forall k :: 0 <= k < |runs| ==> runs[k] != [])
    && (forall k, i :: 0 <= k < |runs| && 0 <= i < |runs[k]| ==> runs[k][i].game == runs[k][0].game)
  }

  lemma ExtendedPartition(before: seq<seq<SourceRow>>, row: SourceRow)
    requires OneGameEach(before)
    ensures OneGameEach(Extended(before, row)) && Flatten(Extended(before, row)) == Flatten(before) + [row]
  {
    var n, runs: seq<seq<SourceRow>> := |before|, Extended(before, row);
    if n > 0 && before[n - 1][0].game == row.game {
      assert runs[..n - 1] == before[..n - 1] && runs[n - 1] == before[n - 1] + [row];
      assert Flatten(before) + [row] == Flatten(before[..n - 1]) + (before[n - 1] + [row]);
    } else {
      assert runs[..n] == before;
    }
  }

  /** The runs partition the source: each is of one game and together they are the source. */
  lemma {:induction false} RunsPartition(source: seq<SourceRow>)
    ensures OneGameEach(Runs(source)) && Flatten(Runs(source)) == source
  {
    if source != [] {
      var init, row := source[..|source| - 1], source[|source| - 1];
      RunsPartition(init);
      ExtendedPartition(Runs(init), row);
      assert source == init + [row];
    }
  }

  /** A game's rows stand together. */
  predicate Contiguous(source: seq<SourceRow>) {
    forall i, j, k :: 0 <= i < j < k < |source| && source[i].game == source[k].game ==> source[j].game == source[k].game
  }

  predicate DistinctRuns(runs: seq<seq<SourceRow>>)
    requires OneGameEach(runs)
  {
    forall k, l :: 0 <= k < l < |runs| ==> runs[k][0].game != runs[l][0].game
  }

  ghost predicate HasRun(runs: seq<seq<SourceRow>>, game: string)
    requires OneGameEach(runs)
  {
    exists k :: 0 <= k < |runs| && runs[k][0].game == game
  }

  ghost predicate HasRow(source: seq<SourceRow>, game: string) {
    exists i :: 0 <= i < |source| && source[i].game == game
  }

  lemma ContiguousSnoc(source: seq<SourceRow>)
    requires |source| >= 2
    ensures var init, row := source[..|source| - 1], source[|source| - 1];
            Contiguous(source) <==>
              Contiguous(init) && (row.game == init[|init| - 1].game || !HasRow(init, row.game))
  {
    var n := |source| - 1;
    var init, row := source[..n], source[n];
    if Contiguous(source) && HasRow(init, row.game) {
      var i :| 0 <= i < n && init[i].game == row.game;
      assert source[i].game == source[n].game;
      assert source[n - 1] == init[n - 1];
    }
    if Contiguous(init) && (row.game == init[n - 1].game || !HasRow(init, row.game)) {
      forall i, j, k | 0 <= i < j < k < |source| && source[i].game == source[k].game
        ensures source[j].game == source[k].game
      {
        assert init[i] == source[i] && init[j] == source[j];
        if k < n {
          assert init[k] == source[k];
        } else if j < n - 1 {
          assert init[i].game == init[n - 1].game;
        }
      }
    }
  }

  /** The last run is of the last row's game, and runs and rows name the same games. */
  lemma {:induction false} RunsCover(source: seq<SourceRow>)
    requires source != []
    ensures Runs(source) != [] && OneGameEach(Runs(source))
    ensures Runs(source)[|Runs(source)| - 1][0].game == source[|source| - 1].game
    ensures forall g :: HasRun(Runs(source), g) <==> HasRow(source, g)
  {
    RunsPartition(source);
    var n := |source| - 1;
    var init, row := source[..n], source[n];
    var runs: seq<seq<SourceRow>> := Runs(source);
    var before := Runs(init);
    assert runs[|runs| - 1][0].game == row.game;
    if n > 0 {
      RunsCover(init);
      RunsPartition(init);
      forall g ensures HasRun(runs, g) <==> HasRow(source, g) {
        HasRunSnoc(before, row, g);
        HasRowSnoc(source, g);
      }
    } else {
      assert runs == [[row]];
      assert forall g :: HasRun(runs, g) <==> runs[0][0].game == g;
      assert forall g :: HasRow(source, g) <==> source[0].game == g;
    }
  }

  lemma HasRunSnoc(before: seq<seq<SourceRow>>, row: SourceRow, g: string)
    requires OneGameEach(before) && OneGameEach(Extended(before, row)) && before != []
    ensures HasRun(Extended(before, row), g) <==> HasRun(before, g) || g == row.game
  {
    var runs: seq<seq<SourceRow>> := Extended(before, row);
    if HasRun(before, g) {
      var k :| 0 <= k < |before| && before[k][0].game == g;
      assert runs[k][0].game == g;
    }
    if HasRun(runs, g) {
      var k :| 0 <= k < |runs| && runs[k][0].game == g;
      assert k < |before| ==> before[k][0].game == g;
    }
    assert runs[|runs| - 1][0].game == row.game;
  }

  lemma HasRowSnoc(source: seq<SourceRow>, g: string)
    requires source != []
    ensures HasRow(source, g) <==> HasRow(source[..|source| - 1], g) || g == source[|source| - 1].game
  {
    var n := |source| - 1;
    if HasRow(source[..n], g) {
      var i :| 0 <= i < n && source[..n][i].game == g;
      assert source[i].game == g;
    }
    if HasRow(source, g) {
      var i :| 0 <= i < |source| && source[i].game == g;
      assert i < n ==> source[..n][i].game == g;
    }
  }

  lemma DistinctSnoc(before: seq<seq<SourceRow>>, row: SourceRow)
    requires OneGameEach(before) && OneGameEach(Extended(before, row)) && before != []
    ensures DistinctRuns(Extended(before, row)) <==>
              DistinctRuns(before) && (before[|before| - 1][0].game == row.game || !HasRun(before, row.game))
  {
    var runs: seq<seq<SourceRow>> := Extended(before, row);
    var n := |before|;
    assert forall k :: 0 <= k < n ==> runs[k][0].game == before[k][0].game;
    if |runs| > n {
      assert runs[n][0].game == row.game;
    }
  }

  /** A game reappears non-contiguously exactly when two runs are of one game. */
  lemma {:induction false} DistinctIffContiguous(source: seq<SourceRow>)
    ensures OneGameEach(Runs(source))
    ensures DistinctRuns(Runs(source)) <==> Contiguous(source)
  {
    RunsPartition(source);
    if |source| >= 2 {
      var init, row := source[..|source| - 1], source[|source| - 1];
      DistinctIffContiguous(init);
      RunsPartition(init);
      RunsCover(init);
      ContiguousSnoc(source);
      DistinctSnoc(Runs(init), row);
    } else if |source| == 1 {
      assert Runs(source[..0]) == [];
    }
  }

  function RowsBefore(runs: seq<seq<SourceRow>>, k: nat): nat
    requires k <= |runs|
  {
    if k == 0 then 0 else RowsBefore(runs, k - 1) + |runs[k - 1]|
  }

  /** The chunks of rows from chunk k on: full ones, and a shorter last one. */
  function ChunksFrom(rows: seq<SourceRow>, ordinal: nat, k: nat, start: nat, size: nat): seq<Chunk>
    requires size > 0
  {
    if rows == [] then []
    else
      var n := if |rows| < size then |rows| else size;
      [Chunk((ordinal, k), start, n, ChunkFile(start, rows[..n]))]
      + ChunksFrom(rows[n..], ordinal, k + 1, start + n, size)
  }

  /** The chunks of game k. */
  function ChunksOf(runs: seq<seq<SourceRow>>, k: nat, size: nat): seq<Chunk>
    requires k < |runs| && size > 0
  {
    ChunksFrom(runs[k], k, 0, RowsBefore(runs, k), size)
  }

  function GameAt(runs: seq<seq<SourceRow>>, k: nat, size: nat, done: bool): Game
    requires k < |runs| && runs[k] != [] && size > 0
  {
    Game(runs[k][0].game, k, RowsBefore(runs, k), |runs[k]|, runs[k], if done then ChunksOf(runs, k, size) else [])
  }

  /** The catalog of a source when the games in done are finished. */
  function CatalogOf(source: seq<SourceRow>, size: nat, done: set<nat>): Catalog
    requires size > 0
  {
    RunsPartition(source);
    var runs := Runs(source);
    Catalog(source, size, |source|, |runs|,
            seq(|runs|, k requires 0 <= k < |runs| => GameAt(runs, k, size, k in done)))
  }

  function Ordinals(n: nat): (r: set<nat>)
    ensures forall k: nat :: k in r <==> k < n
  {
    if n == 0 then {} else Ordinals(n - 1) + {n - 1}
  }

  /** The manifest of a source: every game finished. */
  function ManifestOf(source: seq<SourceRow>, size: nat): Catalog
    requires size > 0
  {
    CatalogOf(source, size, Ordinals(|Runs(source)|))
  }

  function FragmentsOf(source: seq<SourceRow>): map<nat, seq<SourceRow>> {
    var runs := Runs(source);
    map k: nat | k < |runs| :: runs[k]
  }

  /** A source can be indexed when it has rows and no game reappears. */
  predicate Indexable(source: seq<SourceRow>) {
    source != [] && Contiguous(source)
  }

  // Chunks

  /** Every chunk file named by the chunks is stored with the recorded content. */
  predicate Stored(training: map<ChunkPath, ChunkFile>, chunks: seq<Chunk>) {
    forall j :: 0 <= j < |chunks| ==> chunks[j].path in training && training[chunks[j].path] == chunks[j].digest
  }

  /** Only files of the given game, below its n-th chunk, were added or changed. */
  predicate OnlyWrote(now: map<ChunkPath, ChunkFile>, was: map<ChunkPath, ChunkFile>, ordinal: nat, n: nat) {
    && (forall p :: p in now ==> p in was || (p.0 == ordinal && p.1 < n))
    && (forall p :: p in was && p.0 != ordinal ==> p in now && now[p] == was[p])
  }

  /** Write the buffered rows as the next chunk. */
  method Flush(chunkRows: seq<SourceRow>, chunks: seq<Chunk>, training: map<ChunkPath, ChunkFile>,
               ordinal: nat, start: nat, ghost stored: map<ChunkPath, ChunkFile>)
    returns (chunks': seq<Chunk>, training': map<ChunkPath, ChunkFile>)
    requires Written(training, stored, chunks, ordinal)
    ensures chunks' == chunks + [Chunk((ordinal, |chunks|), start, |chunkRows|, ChunkFile(start, chunkRows))]
    ensures Written(training', stored, chunks', ordinal)
  {
    var path := (ordinal, |chunks|);
    training' := training[path := ChunkFile(start, chunkRows)];
    chunks' := chunks + [Chunk(path, start, |chunkRows|, ChunkFile(start, chunkRows))];
  }

  /** The chunks so far are in their places and nothing else was touched. */
  predicate Written(now: map<ChunkPath, ChunkFile>, was: map<ChunkPath, ChunkFile>, chunks: seq<Chunk>, ordinal: nat) {
    && (forall j :: 0 <= j < |chunks| ==> chunks[j].path == (ordinal, j))
    && Stored(now, chunks) && OnlyWrote(now, was, ordinal, |chunks|)
  }

  lemma FlushedPrefix(full: seq<SourceRow>, rest: seq<SourceRow>, ordinal: nat, k: nat, start: nat, size: nat)
    requires |full| == size > 0
    ensures ChunksFrom(full + rest, ordinal, k, start, size)
         == [Chunk((ordinal, k), start, size, ChunkFile(start, full))]
             + ChunksFrom(rest, ordinal, k + 1, start + size, size)
  {
    assert (full + rest)[..size] == full && (full + rest)[size..] == rest;
  }

  lemma LastChunk(rows: seq<SourceRow>, ordinal: nat, k: nat, start: nat, size: nat)
    requires 0 < |rows| < size
    ensures ChunksFrom(rows, ordinal, k, start, size) == [Chunk((ordinal, k), start, |rows|, ChunkFile(start, rows))]
  {
    assert rows[..|rows|] == rows && rows[|rows|..] == [];
  }

  /** What is flushed, and what is still to be chunked, make up the whole game. */
  ghost predicate Pending(g: Game, rows: seq<SourceRow>, size: nat, chunks: seq<Chunk>, rest: seq<SourceRow>,
                          start: nat)
    requires size > 0
  {
    ChunksFrom(rows, g.fragment, 0, g.start, size) == chunks + ChunksFrom(rest, g.fragment, |chunks|, start, size)
  }

  lemma FlushKeepsPending(g: Game, rows: seq<SourceRow>, size: nat, chunks: seq<Chunk>, full: seq<SourceRow>,
                          rest: seq<SourceRow>, start: nat)
    requires |full| == size > 0 && Pending(g, rows, size, chunks, full + rest, start)
    ensures var c := Chunk((g.fragment, |chunks|), start, size, ChunkFile(start, full));
            Pending(g, rows, size, chunks + [c], rest, start + size)
  {
    FlushedPrefix(full, rest, g.fragment, |chunks|, start, size);
  }

  /** Add a row to the buffer, flushing it when it is full. */
  method Push(row: SourceRow, buffer: seq<SourceRow>, chunks: seq<Chunk>, training: map<ChunkPath, ChunkFile>,
              g: Game, size: nat, start: nat,
              ghost stored: map<ChunkPath, ChunkFile>, ghost rows: seq<SourceRow>, ghost rest: seq<SourceRow>)
    returns (buffer': seq<SourceRow>, chunks': seq<Chunk>, training': map<ChunkPath, ChunkFile>, start': nat)
    requires |buffer| < size && Pending(g, rows, size, chunks, buffer + ([row] + rest), start)
    requires Written(training, stored, chunks, g.fragment)
    ensures |buffer'| < size && Pending(g, rows, size, chunks', buffer' + rest, start')
    ensures Written(training', stored, chunks', g.fragment)
    ensures start' + |buffer'| == start + |buffer| + 1
  {
    buffer', chunks', training', start' := buffer + [row], chunks, training, start;
    assert buffer + ([row] + rest) == buffer' + rest;
    if |buffer'| == size {
      FlushKeepsPending(g, rows, size, chunks, buffer', rest, start);
      chunks', training' := Flush(buffer', chunks, training, g.fragment, start, stored);
      assert [] + rest == rest;
      buffer', start' := [], start + size;
    }
  }

  /** Flush what is left in the buffer. */
  method FlushLast(buffer: seq<SourceRow>, chunks: seq<Chunk>, training: map<ChunkPath, ChunkFile>,
                   g: Game, size: nat, start: nat, ghost stored: map<ChunkPath, ChunkFile>, ghost rows: seq<SourceRow>)
    returns (chunks': seq<Chunk>, training': map<ChunkPath, ChunkFile>)
    requires |buffer| < size && Pending(g, rows, size, chunks, buffer, start)
    requires Written(training, stored, chunks, g.fragment)
    ensures chunks' == ChunksFrom(rows, g.fragment, 0, g.start, size)
    ensures Written(training', stored, chunks', g.fragment)
  {
    chunks', training' := chunks, training;
    if buffer != [] {
      LastChunk(buffer, g.fragment, |chunks|, start, size);
      chunks', training' := Flush(buffer, chunks, training, g.fragment, start, stored);
    }
  }

  /** Tensorize one game's fragment: fill a buffer and flush it at every size rows. */
  method Tensorize(fragment: seq<SourceRow>, g: Game, size: nat, stored: map<ChunkPath, ChunkFile>)
    returns (r: Result<seq<Chunk>>, training: map<ChunkPath, ChunkFile>)
    requires size > 0
    ensures r.Success? <==>
              && fragment == g.digest && |fragment| == g.count
              && forall i :: 0 <= i < |fragment| ==> fragment[i].game == g.id
    ensures r.Success? ==> r.value == ChunksFrom(fragment, g.fragment, 0, g.start, size)
    ensures r.Success? ==> Written(training, stored, r.value, g.fragment)
  {
    training := stored;
    if fragment != g.digest {
      return Failure, training;
    }
    var chunkRows: seq<SourceRow>, chunks: seq<Chunk>, rowCount, start := [], [], 0, g.start;
    NothingFlushed(g, fragment, size);
    for i := 0 to |fragment|
      invariant rowCount == i && |chunkRows| < size && start == g.start + rowCount - |chunkRows|
      invariant forall k :: 0 <= k < i ==> fragment[k].game == g.id
      invariant Pending(g, fragment, size, chunks, chunkRows + fragment[i..], start)
      invariant Written(training, stored, chunks, g.fragment)
    {
      if fragment[i].game != g.id {
        return Failure, training;
      }
      assert fragment[i..] == [fragment[i]] + fragment[i + 1..];
      chunkRows, chunks, training, start :=
        Push(fragment[i], chunkRows, chunks, training, g, size, start, stored, fragment, fragment[i + 1..]);
      rowCount := rowCount + 1;
    }
    assert chunkRows + fragment[|fragment|..] == chunkRows;
    chunks, training := FlushLast(chunkRows, chunks, training, g, size, start, stored, fragment);
    if rowCount != g.count {
      return Failure, training;
    }
    r := Success(chunks);
  }

  lemma NothingFlushed(g: Game, rows: seq<SourceRow>, size: nat)
    requires size > 0
    ensures Pending(g, rows, size, [], [] + rows[0..], g.start)
  {
    assert [] + rows[0..] == rows;
  }
}

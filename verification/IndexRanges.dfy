/** The range validators of the staging checkpoint and of the published manifest. */
module IndexRanges {
  import opened Common
  import opened IndexBuild
  import IndexScan

  function RowsUpTo(games: seq<Game>, n: nat): nat
    requires n <= |games|
  {
    if n == 0 then 0 else RowsUpTo(games, n - 1) + games[n - 1].count
  }

  function ChunkRowsUpTo(chunks: seq<Chunk>, n: nat): nat
    requires n <= |chunks|
  {
    if n == 0 then 0 else ChunkRowsUpTo(chunks, n - 1) + chunks[n - 1].count
  }

  predicate UniqueIds(games: seq<Game>) {
    forall i, j :: 0 <= i < j < |games| ==> games[i].id != games[j].id
  }

  /** The checks both validators share: counts add up, names are unique, ranges join. */
  predicate JoinedGames(c: Catalog) {
    && c.games != [] && c.gameCount == |c.games| && c.rowCount == RowsUpTo(c.games, |c.games|)
    && UniqueIds(c.games)
    && (forall i :: 0 <= i < |c.games| ==> GameFollows(c.games, i))
  }

  /** Game i starts where the one before it ended. */
  predicate GameFollows(games: seq<Game>, i: nat)
    requires i < |games|
  {
    games[i].count > 0 && games[i].start == RowsUpTo(games, i)
  }

  /** A game's chunks are contiguous, full except the last, and cover its rows. */
  predicate CoveringChunks(g: Game, size: nat) {
    && (forall j :: 0 <= j < |g.chunks| ==> ChunkFollows(g, j, size))
    && ChunkRowsUpTo(g.chunks, |g.chunks|) == g.count
  }

  predicate ChunkFollows(g: Game, j: nat, size: nat)
    requires j < |g.chunks|
  {
    && g.chunks[j].start == g.start + ChunkRowsUpTo(g.chunks, j)
    && 0 < g.chunks[j].count <= size
    && (j < |g.chunks| - 1 ==> g.chunks[j].count == size)
  }

  predicate UniquePaths(games: seq<Game>) {
    forall i, j, k, l ::
      (0 <= i < |games| && 0 <= j < |games[i].chunks| && 0 <= k < |games| && 0 <= l < |games[k].chunks|
          && (i, j) != (k, l))
      ==> games[i].chunks[j].path != games[k].chunks[l].path
  }

  predicate UniqueFragments(games: seq<Game>) {
    forall i, j :: 0 <= i < j < |games| ==> games[i].fragment != games[j].fragment
  }

  predicate ValidManifest(c: Catalog) {
    && JoinedGames(c) && UniqueFragments(c.games) && UniquePaths(c.games)
    && forall i :: 0 <= i < |c.games| ==> CoveringChunks(c.games[i], c.size)
  }

  /** A finished staged game: as many chunks as its rows need, each in its place. */
  predicate StagedChunks(g: Game, ordinal: nat, size: nat)
    requires size > 0
  {
    && |g.chunks| == (g.count + size - 1) / size
    && (forall j :: 0 <= j < |g.chunks| ==> ChunkInPlace(g, j, ordinal, size))
    && ChunkRowsUpTo(g.chunks, |g.chunks|) == g.count
  }

  predicate ChunkInPlace(g: Game, j: nat, ordinal: nat, size: nat)
    requires j < |g.chunks|
  {
    var left := g.count - ChunkRowsUpTo(g.chunks, j);
    && g.chunks[j].path == (ordinal, j)
    && g.chunks[j].start == g.start + ChunkRowsUpTo(g.chunks, j)
    && g.chunks[j].count == if left < size then left else size
  }

  predicate ValidStaging(c: Catalog) {
    && c.size > 0 && JoinedGames(c)
    && forall i :: 0 <= i < |c.games| ==> GameInPlace(c.games[i], i, c.size)
  }

  predicate GameInPlace(g: Game, ordinal: nat, size: nat)
    requires size > 0
  {
    g.fragment == ordinal && (g.chunks == [] || StagedChunks(g, ordinal, size))
  }

  // The validators' loops

  method CheckCovering(g: Game, size: nat) returns (ok: bool)
    ensures ok <==> CoveringChunks(g, size)
  {
    var chunkStart := g.start;
    for j := 0 to |g.chunks|
      invariant chunkStart == g.start + ChunkRowsUpTo(g.chunks, j)
      invariant forall k :: 0 <= k < j ==> ChunkFollows(g, k, size)
    {
      var chunk := g.chunks[j];
      if chunk.start != chunkStart || chunk.count == 0 || chunk.count > size
         || (j < |g.chunks| - 1 && chunk.count != size) {
        assert !ChunkFollows(g, j, size);
        return false;
      }
      chunkStart := chunkStart + chunk.count;
    }
    ok := chunkStart == g.start + g.count;
  }

  method CheckStaged(g: Game, ordinal: nat, size: nat) returns (ok: bool)
    requires size > 0
    ensures ok <==> StagedChunks(g, ordinal, size)
  {
    if |g.chunks| != (g.count + size - 1) / size {
      return false;
    }
    var chunkStart := g.start;
    for j := 0 to |g.chunks|
      invariant chunkStart == g.start + ChunkRowsUpTo(g.chunks, j)
      invariant forall k :: 0 <= k < j ==> ChunkInPlace(g, k, ordinal, size)
    {
      var chunk := g.chunks[j];
      var left := g.start + g.count - chunkStart;
      var expected := if left < size then left else size;
      if chunk.path != (ordinal, j) || chunk.start != chunkStart || chunk.count != expected {
        assert !ChunkInPlace(g, j, ordinal, size);
        return false;
      }
      chunkStart := chunkStart + chunk.count;
    }
    ok := chunkStart == g.start + g.count;
  }

  method CheckJoined(c: Catalog) returns (ok: bool)
    ensures ok <==> JoinedGames(c)
  {
    if c.games == [] || c.gameCount != |c.games| {
      return false;
    }
    var ids: set<string>, expectedStart := {}, 0;
    for i := 0 to |c.games|
      invariant expectedStart == RowsUpTo(c.games, i)
      invariant ids == set k | 0 <= k < i :: c.games[k].id
      invariant forall k :: 0 <= k < i ==> GameFollows(c.games, k)
      invariant forall k, l :: 0 <= k < l < i ==> c.games[k].id != c.games[l].id
    {
      var game := c.games[i];
      if game.start != expectedStart || game.count == 0 {
        assert !GameFollows(c.games, i);
        return false;
      }
      if game.id in ids {
        return false;
      }
      ids := ids + {game.id};
      expectedStart := expectedStart + game.count;
    }
    ok := c.rowCount == expectedStart;
  }

  method ValidateStaging(c: Catalog) returns (ok: bool)
    ensures ok <==> ValidStaging(c)
  {
    var joined := CheckJoined(c);
    if c.size == 0 || !joined {
      return false;
    }
    for i := 0 to |c.games|
      invariant forall k :: 0 <= k < i ==> GameInPlace(c.games[k], k, c.size)
    {
      if c.games[i].fragment != i {
        assert !GameInPlace(c.games[i], i, c.size);
        return false;
      }
      if c.games[i].chunks != [] {
        var staged := CheckStaged(c.games[i], i, c.size);
        if !staged {
          assert !GameInPlace(c.games[i], i, c.size);
          return false;
        }
      }
    }
    ok := true;
  }

  /** All chunk paths of the first i games, then of the first j chunks of game i. */
  ghost predicate Earlier(i: nat, j: nat, k: nat, l: nat) {
    k < i || (k == i && l < j)
  }

  /** The table of paths seen before chunk j of game i. */
  ghost predicate SeenPaths(games: seq<Game>, i: nat, j: nat, paths: set<ChunkPath>) {
    && (forall k, l :: 0 <= k < |games| && 0 <= l < |games[k].chunks| && Earlier(i, j, k, l) ==>
        games[k].chunks[l].path in paths)
    && (forall p :: p in paths ==> Appears(games, i, j, p))
    && (forall k, l, k', l' ::
          (0 <= k < |games| && 0 <= l < |games[k].chunks| && 0 <= k' < |games| && 0 <= l' < |games[k'].chunks|
           && Earlier(i, j, k, l) && Earlier(k, l, k', l'))
          ==> games[k].chunks[l].path != games[k'].chunks[l'].path)
  }

  ghost predicate Appears(games: seq<Game>, i: nat, j: nat, p: ChunkPath) {
    exists k, l :: 0 <= k < |games| && 0 <= l < |games[k].chunks| && Earlier(i, j, k, l) && games[k].chunks[l].path == p
  }

  method CheckPaths(games: seq<Game>) returns (ok: bool)
    ensures ok <==> UniquePaths(games)
  {
    var paths: set<ChunkPath> := {};
    for i := 0 to |games|
      invariant SeenPaths(games, i, 0, paths)
    {
      for j := 0 to |games[i].chunks|
        invariant SeenPaths(games, i, j, paths)
      {
        var path := games[i].chunks[j].path;
        if path in paths {
          assert Appears(games, i, j, path);
          return false;
        }
        SeenOne(games, i, j, paths);
        paths := paths + {path};
      }
      NextRow(games, i, paths);
    }
    AllSeen(games, paths);
    ok := true;
  }

  lemma SeenOne(games: seq<Game>, i: nat, j: nat, paths: set<ChunkPath>)
    requires i < |games| && j < |games[i].chunks| && SeenPaths(games, i, j, paths) && games[i].chunks[j].path !in paths
    ensures SeenPaths(games, i, j + 1, paths + {games[i].chunks[j].path})
  {
    var path := games[i].chunks[j].path;
    forall p | p in paths + {path} ensures Appears(games, i, j + 1, p) {
      if p in paths {
        var k, l :| 0 <= k < |games| && 0 <= l < |games[k].chunks| && Earlier(i, j, k, l)
            && games[k].chunks[l].path == p;
        assert Earlier(i, j + 1, k, l);
      } else {
        assert Earlier(i, j + 1, i, j);
      }
    }
  }

  lemma NextRow(games: seq<Game>, i: nat, paths: set<ChunkPath>)
    requires i < |games| && SeenPaths(games, i, |games[i].chunks|, paths)
    ensures SeenPaths(games, i + 1, 0, paths)
  {
    forall p | p in paths ensures Appears(games, i + 1, 0, p) {
      var k, l :| 0 <= k < |games| && 0 <= l < |games[k].chunks| && Earlier(i, |games[i].chunks|, k, l)
          && games[k].chunks[l].path == p;
      assert Earlier(i + 1, 0, k, l);
    }
  }

  lemma AllSeen(games: seq<Game>, paths: set<ChunkPath>)
    requires SeenPaths(games, |games|, 0, paths)
    ensures UniquePaths(games)
  {
    forall i, j, k, l | 0 <= i < |games| && 0 <= j < |games[i].chunks| && 0 <= k < |games| && 0 <= l < |games[k].chunks|
      && (i, j) != (k, l)
      ensures games[i].chunks[j].path != games[k].chunks[l].path
    {
      assert Earlier(|games|, 0, i, j) && Earlier(|games|, 0, k, l);
      assert Earlier(i, j, k, l) || Earlier(k, l, i, j);
    }
  }

  method CheckFragments(games: seq<Game>) returns (ok: bool)
    ensures ok <==> UniqueFragments(games)
  {
    var seen: set<nat> := {};
    for i := 0 to |games|
      invariant seen == set k | 0 <= k < i :: games[k].fragment
      invariant forall k, l :: 0 <= k < l < i ==> games[k].fragment != games[l].fragment
    {
      if games[i].fragment in seen {
        return false;
      }
      seen := seen + {games[i].fragment};
    }
    ok := true;
  }

  method ValidateManifest(c: Catalog) returns (ok: bool)
    ensures ok <==> ValidManifest(c)
  {
    var joined := CheckJoined(c);
    var fragments := CheckFragments(c.games);
    var paths := CheckPaths(c.games);
    if !joined || !fragments || !paths {
      return false;
    }
    for i := 0 to |c.games|
      invariant forall k :: 0 <= k < i ==> CoveringChunks(c.games[k], c.size)
    {
      var covering := CheckCovering(c.games[i], c.size);
      if !covering {
        return false;
      }
    }
    ok := true;
  }

  // What the build writes is valid

  /** Summing staged row counts is summing run lengths. */
  lemma {:induction false} UpToIsBefore(runs: seq<seq<SourceRow>>, games: seq<Game>, n: nat)
    requires n <= |runs| == |games| && forall k :: 0 <= k < |runs| ==> games[k].count == |runs[k]|
    ensures RowsUpTo(games, n) == RowsBefore(runs, n)
  {
    if n > 0 {
      UpToIsBefore(runs, games, n - 1);
    }
  }

  lemma {:induction false} FlattenLength(runs: seq<seq<SourceRow>>)
    ensures |Flatten(runs)| == RowsBefore(runs, |runs|)
  {
    if runs != [] {
      var init := runs[..|runs| - 1];
      FlattenLength(init);
      IndexScan.RowsBeforePrefix(init, runs, |init|);
    }
  }

  lemma {:induction false} UpToCons(c: Chunk, tail: seq<Chunk>, j: nat)
    requires j <= |tail|
    ensures ChunkRowsUpTo([c] + tail, j + 1) == c.count + ChunkRowsUpTo(tail, j)
  {
    if j > 0 {
      UpToCons(c, tail, j - 1);
      assert ([c] + tail)[j] == tail[j - 1];
    } else {
      assert ([c] + tail)[0] == c && ChunkRowsUpTo([c] + tail, 0) == 0;
    }
  }

  /** Chunk j of a list holds the next rows, as many as fit, under its own path. */
  ghost predicate Slice(rows: seq<SourceRow>, chunks: seq<Chunk>, j: nat, ordinal: nat, k: nat, start: nat, size: nat)
    requires j < |chunks|
  {
    var at := ChunkRowsUpTo(chunks, j);
    var n := if |rows| - at < size then |rows| - at else size;
    && at < |rows|
    && chunks[j] == Chunk((ordinal, k + j), start + at, n, ChunkFile(start + at, rows[at..at + n]))
  }

  lemma {:induction false} ChunksAreSlices(rows: seq<SourceRow>, ordinal: nat, k: nat, start: nat, size: nat)
    requires size > 0
    ensures var chunks := ChunksFrom(rows, ordinal, k, start, size);
            && (forall j :: 0 <= j < |chunks| ==> Slice(rows, chunks, j, ordinal, k, start, size))
            && ChunkRowsUpTo(chunks, |chunks|) == |rows|
  {
    if rows != [] {
      var n := if |rows| < size then |rows| else size;
      var c, tail := Chunk((ordinal, k), start, n, ChunkFile(start, rows[..n])),
          ChunksFrom(rows[n..], ordinal, k + 1, start + n, size);
      var chunks := ChunksFrom(rows, ordinal, k, start, size);
      ChunksAreSlices(rows[n..], ordinal, k + 1, start + n, size);
      forall j | 0 <= j < |chunks| ensures Slice(rows, chunks, j, ordinal, k, start, size) {
        if j > 0 {
          assert Slice(rows[n..], tail, j - 1, ordinal, k + 1, start + n, size);
          TailSlice(rows, c, tail, j - 1, ordinal, k, start, size, n);
        }
      }
      UpToCons(c, tail, |tail|);
    }
  }

  lemma TailSlice(rows: seq<SourceRow>, c: Chunk, tail: seq<Chunk>, j: nat, ordinal: nat, k: nat, start: nat,
                  size: nat, n: nat)
    requires n <= |rows| && c.count == n && j < |tail|
    requires Slice(rows[n..], tail, j, ordinal, k + 1, start + n, size)
    ensures Slice(rows, [c] + tail, j + 1, ordinal, k, start, size)
  {
    UpToCons(c, tail, j);
    var at := ChunkRowsUpTo(tail, j);
    var m := if |rows| - n - at < size then |rows| - n - at else size;
    assert rows[n..][at..at + m] == rows[n + at..n + at + m];
  }

  lemma {:induction false} ChunkCount(rows: seq<SourceRow>, ordinal: nat, k: nat, start: nat, size: nat)
    requires size > 0
    ensures |ChunksFrom(rows, ordinal, k, start, size)| == (|rows| + size - 1) / size
    decreases |rows|
  {
    var q := (|rows| + size - 1) / size;
    if rows == [] {
      DivMod(size - 1, size, 0, size - 1);
    } else if |rows| < size {
      DivMod(|rows| + size - 1, size, 1, |rows| - 1);
      assert ChunksFrom(rows[|rows|..], ordinal, k + 1, start + |rows|, size) == [];
    } else {
      ChunkCount(rows[size..], ordinal, k + 1, start + size, size);
      OneMore(|rows| - 1, size);
    }
  }

  lemma OneMore(n: nat, size: nat)
    requires size > 0
    ensures (n + size) / size == n / size + 1
  {
    var q, m := n / size, n % size;
    assert n == q * size + m;
    assert n + size == (q + 1) * size + m;
    DivMod(n + size, size, q + 1, m);
  }

  lemma CatalogIsJoined(source: seq<SourceRow>, size: nat, done: set<nat>)
    requires size > 0 && Indexable(source)
    ensures JoinedGames(CatalogOf(source, size, done))
  {
    var runs, c := Runs(source), CatalogOf(source, size, done);
    RunsCover(source);
    DistinctIffContiguous(source);
    FlattenLength(runs);
    RunsPartition(source);
    UpToIsBefore(runs, c.games, |runs|);
    forall i | 0 <= i < |c.games| ensures GameFollows(c.games, i) {
      UpToIsBefore(runs, c.games, i);
    }
  }

  lemma ChunksAreStaged(runs: seq<seq<SourceRow>>, k: nat, size: nat)
    requires k < |runs| && runs[k] != [] && size > 0
    ensures StagedChunks(GameAt(runs, k, size, true), k, size) && CoveringChunks(GameAt(runs, k, size, true), size)
  {
    var g := GameAt(runs, k, size, true);
    ChunkCount(runs[k], k, 0, g.start, size);
    ChunksAreSlices(runs[k], k, 0, g.start, size);
    forall j | 0 <= j < |g.chunks| ensures ChunkInPlace(g, j, k, size) && ChunkFollows(g, j, size) {
      assert Slice(runs[k], g.chunks, j, k, 0, g.start, size);
      if j < |g.chunks| - 1 {
        assert Slice(runs[k], g.chunks, j + 1, k, 0, g.start, size);
      }
    }
  }

  /** Every checkpoint the build can write passes the staging validator. */
  lemma CheckpointIsValid(source: seq<SourceRow>, size: nat, done: set<nat>)
    requires size > 0 && Indexable(source)
    ensures ValidStaging(CatalogOf(source, size, done))
  {
    var runs, c := Runs(source), CatalogOf(source, size, done);
    CatalogIsJoined(source, size, done);
    RunsPartition(source);
    forall i | 0 <= i < |c.games| ensures GameInPlace(c.games[i], i, size) {
      if i in done {
        ChunksAreStaged(runs, i, size);
      }
    }
  }

  lemma PlacedPathsAreUnique(games: seq<Game>)
    requires forall i :: 0 <= i < |games| ==> PathsInPlace(games[i], i)
    ensures UniquePaths(games)
  {
    forall i, j, k, l | 0 <= i < |games| && 0 <= j < |games[i].chunks| && 0 <= k < |games| && 0 <= l < |games[k].chunks|
      && (i, j) != (k, l)
      ensures games[i].chunks[j].path != games[k].chunks[l].path
    {
      assert PathsInPlace(games[i], i) && PathsInPlace(games[k], k);
    }
  }

  predicate PathsInPlace(g: Game, ordinal: nat) {
    g.fragment == ordinal && forall j :: 0 <= j < |g.chunks| ==> g.chunks[j].path == (ordinal, j)
  }

  lemma FinishedGameIsValid(source: seq<SourceRow>, size: nat, i: nat)
    requires size > 0 && i < |Runs(source)|
    ensures var g := ManifestOf(source, size).games[i]; PathsInPlace(g, i) && CoveringChunks(g, size)
  {
    RunsPartition(source);
    ChunksAreStaged(Runs(source), i, size);
    var g := ManifestOf(source, size).games[i];
    assert g == GameAt(Runs(source), i, size, true);
    forall j | 0 <= j < |g.chunks| ensures g.chunks[j].path == (i, j) {
      assert ChunkInPlace(g, j, i, size);
    }
  }

  /** The manifest passes the published validator. */
  lemma ManifestIsValid(source: seq<SourceRow>, size: nat)
    requires size > 0 && Indexable(source)
    ensures ValidManifest(ManifestOf(source, size))
  {
    var runs, c := Runs(source), ManifestOf(source, size);
    CatalogIsJoined(source, size, Ordinals(|runs|));
    forall i | 0 <= i < |c.games| ensures PathsInPlace(c.games[i], i) && CoveringChunks(c.games[i], size) {
      FinishedGameIsValid(source, size, i);
    }
    PlacedPathsAreUnique(c.games);
    assert forall i :: 0 <= i < |c.games| ==> c.games[i].fragment == i;
  }

  lemma {:induction false} RunInSource(runs: seq<seq<SourceRow>>, k: nat)
    requires k < |runs|
    ensures var start := RowsBefore(runs, k);
            start + |runs[k]| <= |Flatten(runs)| && Flatten(runs)[start..start + |runs[k]|] == runs[k]
  {
    var n := |runs| - 1;
    var init, start := runs[..n], RowsBefore(runs, k);
    FlattenLength(init);
    IndexScan.RowsBeforePrefix(init, runs, if k < n then k else n);
    if k < n {
      RunInSource(init, k);
      assert Flatten(runs)[start..start + |runs[k]|] == Flatten(init)[start..start + |runs[k]|];
    } else {
      assert Flatten(runs)[start..start + |runs[k]|] == runs[k];
    }
  }

  lemma SliceOfSlice(s: seq<SourceRow>, a: nat, b: nat, c: nat, d: nat)
    requires a <= b <= |s| && c <= d <= b - a
    ensures s[a..b][c..d] == s[a + c..a + d]
  {
    var inner, outer := s[a..b][c..d], s[a + c..a + d];
    assert forall i :: 0 <= i < d - c ==> inner[i] == s[a..b][c + i] == s[a + c + i] == outer[i];
  }

  lemma SliceInSource(source: seq<SourceRow>, run: seq<SourceRow>, chunks: seq<Chunk>, j: nat, k: nat, start: nat,
                      size: nat)
    requires start + |run| <= |source| && source[start..start + |run|] == run
    requires j < |chunks| && Slice(run, chunks, j, k, 0, start, size)
    ensures var c := chunks[j];
            c.start + c.count <= |source| && c.digest == ChunkFile(c.start, source[c.start..c.start + c.count])
  {
    var at := ChunkRowsUpTo(chunks, j);
    SliceOfSlice(source, start, start + |run|, at, at + chunks[j].count);
  }

  /** Chunk j of game k holds exactly the source rows its offset and count name. */
  lemma ChunkHoldsItsRows(source: seq<SourceRow>, size: nat, k: nat, j: nat)
    requires size > 0 && k < |Runs(source)| && j < |ManifestOf(source, size).games[k].chunks|
    ensures var c := ManifestOf(source, size).games[k].chunks[j];
            c.start + c.count <= |source| && c.digest == ChunkFile(c.start, source[c.start..c.start + c.count])
  {
    hide Runs, RowsBefore, ChunksFrom, ManifestOf;
    var runs := Runs(source);
    RunStands(source, k);
    FinishedChunks(source, size, k);
    ChunksAreSlices(runs[k], k, 0, RowsBefore(runs, k), size);
    var chunks := ChunksOf(runs, k, size);
    assert Slice(runs[k], chunks, j, k, 0, RowsBefore(runs, k), size);
    SliceInSource(source, runs[k], chunks, j, k, RowsBefore(runs, k), size);
  }

  lemma RunStands(source: seq<SourceRow>, k: nat)
    requires k < |Runs(source)|
    ensures var start, run := RowsBefore(Runs(source), k), Runs(source)[k];
            start + |run| <= |source| && source[start..start + |run|] == run
  {
    RunsPartition(source);
    RunInSource(Runs(source), k);
  }

  lemma FinishedChunks(source: seq<SourceRow>, size: nat, k: nat)
    requires size > 0 && k < |Runs(source)|
    ensures ManifestOf(source, size).games[k].chunks == ChunksOf(Runs(source), k, size)
  {
    RunsPartition(source);
    assert ManifestOf(source, size).games[k] == GameAt(Runs(source), k, size, true);
  }

  /** The chunk that holds the row at the given place of its game. */
  lemma {:induction false} RowHasChunk(chunks: seq<Chunk>, n: nat, at: nat) returns (j: nat)
    requires n <= |chunks| && at < ChunkRowsUpTo(chunks, n)
    ensures j < n && ChunkRowsUpTo(chunks, j) <= at < ChunkRowsUpTo(chunks, j) + chunks[j].count
  {
    if at < ChunkRowsUpTo(chunks, n - 1) {
      j := RowHasChunk(chunks, n - 1, at);
    } else {
      j := n - 1;
    }
  }

  lemma {:induction false} RowHasRun(runs: seq<seq<SourceRow>>, n: nat, at: nat) returns (k: nat)
    requires n <= |runs| && at < RowsBefore(runs, n)
    ensures k < n && RowsBefore(runs, k) <= at < RowsBefore(runs, k) + |runs[k]|
  {
    if at < RowsBefore(runs, n - 1) {
      k := RowHasRun(runs, n - 1, at);
    } else {
      k := n - 1;
    }
  }

  /** Offsets 0 to N-1 are all covered: every source row lies in some chunk. */
  lemma EveryRowIsChunked(source: seq<SourceRow>, size: nat, at: nat) returns (k: nat, j: nat)
    requires size > 0 && at < |source|
    ensures k < |ManifestOf(source, size).games| && j < |ManifestOf(source, size).games[k].chunks|
    ensures var c := ManifestOf(source, size).games[k].chunks[j]; c.start <= at < c.start + c.count
  {
    var runs := Runs(source);
    RunsPartition(source);
    FlattenLength(runs);
    k := RowHasRun(runs, |runs|, at);
    var start := RowsBefore(runs, k);
    ChunksAreSlices(runs[k], k, 0, start, size);
    var chunks := ChunksOf(runs, k, size);
    j := RowHasChunk(chunks, |chunks|, at - start);
    assert Slice(runs[k], chunks, j, k, 0, start, size);
  }

  // What the validators accept

  lemma {:induction false} RowsUpToGrows(games: seq<Game>, i: nat, k: nat)
    requires i < k <= |games|
    ensures RowsUpTo(games, i) + games[i].count <= RowsUpTo(games, k)
  {
    if i < k - 1 {
      RowsUpToGrows(games, i, k - 1);
    }
  }

  /** Games follow one another without a gap. */
  predicate Adjacent(games: seq<Game>) {
    forall i :: 0 < i < |games| ==> games[i].start == games[i - 1].start + games[i - 1].count
  }

  lemma {:induction false} AdjacentStarts(games: seq<Game>, i: nat)
    requires games != [] && games[0].start == 0 && Adjacent(games) && i < |games|
    ensures games[i].start == RowsUpTo(games, i)
  {
    if i > 0 {
      AdjacentStarts(games, i - 1);
    }
  }

  lemma AdjacentFollow(games: seq<Game>)
    requires games != []
    ensures (forall i :: 0 <= i < |games| ==> GameFollows(games, i)) <==>
              (forall i :: 0 <= i < |games| ==> games[i].count >= 1) && games[0].start == 0 && Adjacent(games)
  {
    if games[0].start == 0 && Adjacent(games) {
      forall i | 0 <= i < |games| ensures games[i].start == RowsUpTo(games, i) {
        AdjacentStarts(games, i);
      }
    }
    if forall i :: 0 <= i < |games| ==> GameFollows(games, i) {
      assert GameFollows(games, 0);
      forall i | 0 < i < |games| ensures games[i].start == games[i - 1].start + games[i - 1].count {
        assert GameFollows(games, i - 1) && GameFollows(games, i);
      }
      forall i | 0 <= i < |games| ensures games[i].count >= 1 {
        assert GameFollows(games, i);
      }
    }
  }

  /** The shared checks: named games of at least one row, from offset 0, without a gap, up to the row count. */
  lemma JoinedMeans(c: Catalog)
    ensures JoinedGames(c) <==>
              && |c.games| == c.gameCount > 0
              && (forall i, k :: 0 <= i < k < |c.games| ==> c.games[i].id != c.games[k].id)
              && (forall i :: 0 <= i < |c.games| ==> c.games[i].count >= 1)
              && c.games[0].start == 0 && Adjacent(c.games)
              && c.games[c.gameCount - 1].start + c.games[c.gameCount - 1].count == c.rowCount
  {
    hide Adjacent, GameFollows;
    if c.games != [] {
      AdjacentFollow(c.games);
      if Adjacent(c.games) && c.games[0].start == 0 {
        AdjacentStarts(c.games, |c.games| - 1);
      }
    }
  }

  predicate AdjacentChunks(chunks: seq<Chunk>) {
    forall j :: 0 < j < |chunks| ==> chunks[j].start == chunks[j - 1].start + chunks[j - 1].count
  }

  lemma {:induction false} ChunkStarts(g: Game, j: nat)
    requires g.chunks != [] && g.chunks[0].start == g.start && AdjacentChunks(g.chunks) && j < |g.chunks|
    ensures g.chunks[j].start == g.start + ChunkRowsUpTo(g.chunks, j)
  {
    if j > 0 {
      ChunkStarts(g, j - 1);
    }
  }

  predicate FullButLast(chunks: seq<Chunk>, size: nat) {
    && (forall j :: 0 <= j < |chunks| - 1 ==> chunks[j].count == size)
    && (forall j :: 0 <= j < |chunks| ==> 1 <= chunks[j].count <= size)
  }

  lemma AdjacentChunksFollow(g: Game, size: nat)
    requires g.chunks != []
    ensures (forall j :: 0 <= j < |g.chunks| ==> ChunkFollows(g, j, size)) <==>
              g.chunks[0].start == g.start && AdjacentChunks(g.chunks) && FullButLast(g.chunks, size)
  {
    if g.chunks[0].start == g.start && AdjacentChunks(g.chunks) {
      forall j | 0 <= j < |g.chunks| ensures g.chunks[j].start == g.start + ChunkRowsUpTo(g.chunks, j) {
        ChunkStarts(g, j);
      }
    }
    if forall j :: 0 <= j < |g.chunks| ==> ChunkFollows(g, j, size) {
      assert ChunkFollows(g, 0, size);
      forall j | 0 < j < |g.chunks| ensures g.chunks[j].start == g.chunks[j - 1].start + g.chunks[j - 1].count {
        assert ChunkFollows(g, j - 1, size) && ChunkFollows(g, j, size);
      }
      forall j | 0 <= j < |g.chunks|
        ensures 1 <= g.chunks[j].count <= size && (j < |g.chunks| - 1 ==> g.chunks[j].count == size)
      {
        assert ChunkFollows(g, j, size);
      }
    }
  }

  /** A published game: full chunks and a last one with the rest, without a gap from the game's
      first row to its last. */
  lemma CoveringMeans(g: Game, size: nat)
    ensures CoveringChunks(g, size) <==>
              if |g.chunks| == 0 then g.count == 0
              else
                && g.chunks[0].start == g.start && AdjacentChunks(g.chunks) && FullButLast(g.chunks, size)
                && g.chunks[|g.chunks| - 1].start + g.chunks[|g.chunks| - 1].count == g.start + g.count
  {
    hide ChunkFollows, AdjacentChunks, FullButLast;
    if g.chunks != [] {
      AdjacentChunksFollow(g, size);
      if g.chunks[0].start == g.start && AdjacentChunks(g.chunks) {
        ChunkStarts(g, |g.chunks| - 1);
      }
    }
  }

  /** Chunk j of a staged game: its own place j, after j full chunks, as many rows as are left. */
  predicate IsPlaced(g: Game, j: nat, ordinal: nat, size: nat)
    requires j < |g.chunks|
  {
    && g.chunks[j].path == (ordinal, j)
    && g.chunks[j].start == g.start + j * size
    && (g.chunks[j].count == size || (j == |g.chunks| - 1 && g.chunks[j].count < size))
    && g.chunks[j].count == if g.count < (j + 1) * size then g.count - j * size else size
  }

  lemma {:induction false} PlacedRows(g: Game, ordinal: nat, size: nat, j: nat)
    requires size > 0 && j < |g.chunks| && |g.chunks| == (g.count + size - 1) / size
    requires forall i :: 0 <= i < j ==> ChunkInPlace(g, i, ordinal, size)
    ensures ChunkRowsUpTo(g.chunks, j) == j * size < g.count
  {
    FitsBelow(g.count, size, j);
    if j > 0 {
      PlacedRows(g, ordinal, size, j - 1);
      assert ChunkInPlace(g, j - 1, ordinal, size);
    }
  }

  lemma FitsBelow(n: nat, size: nat, j: nat)
    requires size > 0 && j < (n + size - 1) / size
    ensures j * size < n
    ensures j + 1 == (n + size - 1) / size <==> n <= (j + 1) * size
  {
    var q, m := (n + size - 1) / size, (n + size - 1) % size;
    assert n + size - 1 == q * size + m;
    Multiples(j, q, size);
    assert (j + 1) * size == j * size + size;
    if j + 1 < q {
      Multiples(j + 1, q, size);
    }
  }

  /** A finished staged game: exactly the chunks its row count determines. */
  lemma StagedMeans(g: Game, ordinal: nat, size: nat)
    requires size > 0
    ensures StagedChunks(g, ordinal, size) <==>
              && |g.chunks| == (g.count + size - 1) / size
              && forall j :: 0 <= j < |g.chunks| ==> IsPlaced(g, j, ordinal, size)
  {
    if |g.chunks| == (g.count + size - 1) / size {
      if forall j :: 0 <= j < |g.chunks| ==> IsPlaced(g, j, ordinal, size) {
        AllInPlace(g, ordinal, size, |g.chunks|);
      }
      if forall j :: 0 <= j < |g.chunks| ==> ChunkInPlace(g, j, ordinal, size) {
        StagedTotal(g, ordinal, size);
        EachPlaced(g, ordinal, size);
      }
    }
  }

  lemma EachPlaced(g: Game, ordinal: nat, size: nat)
    requires size > 0 && |g.chunks| == (g.count + size - 1) / size
    requires forall j :: 0 <= j < |g.chunks| ==> ChunkInPlace(g, j, ordinal, size)
    ensures forall j :: 0 <= j < |g.chunks| ==> IsPlaced(g, j, ordinal, size)
  {
    forall j | 0 <= j < |g.chunks| ensures IsPlaced(g, j, ordinal, size) {
      assert ChunkInPlace(g, j, ordinal, size);
      PlacedRows(g, ordinal, size, j);
      FitsBelow(g.count, size, j);
    }
  }

  lemma {:induction false} AllInPlace(g: Game, ordinal: nat, size: nat, n: nat)
    requires size > 0 && n <= |g.chunks| == (g.count + size - 1) / size
    requires forall j :: 0 <= j < |g.chunks| ==> IsPlaced(g, j, ordinal, size)
    ensures forall j :: 0 <= j < n ==> ChunkInPlace(g, j, ordinal, size)
  {
    if n > 0 {
      AllInPlace(g, ordinal, size, n - 1);
      PlacedRows(g, ordinal, size, n - 1);
      FitsBelow(g.count, size, n - 1);
      assert IsPlaced(g, n - 1, ordinal, size);
    }
  }

  lemma StagedTotal(g: Game, ordinal: nat, size: nat)
    requires size > 0 && |g.chunks| == (g.count + size - 1) / size
    requires forall j :: 0 <= j < |g.chunks| ==> ChunkInPlace(g, j, ordinal, size)
    ensures ChunkRowsUpTo(g.chunks, |g.chunks|) == g.count
  {
    var n := |g.chunks|;
    if n > 0 {
      PlacedRows(g, ordinal, size, n - 1);
      FitsBelow(g.count, size, n - 1);
      assert ChunkInPlace(g, n - 1, ordinal, size);
    }
  }

  /** Chunk j of game i holds the row at the offset. */
  predicate HoldsRow(c: Catalog, i: nat, j: nat, offset: nat) {
    && i < |c.games| && j < |c.games[i].chunks|
    && c.games[i].chunks[j].start <= offset < c.games[i].chunks[j].start + c.games[i].chunks[j].count
  }

  lemma {:induction false} GameOfRow(games: seq<Game>, n: nat, offset: nat) returns (i: nat)
    requires n <= |games| && offset < RowsUpTo(games, n)
    ensures i < n && RowsUpTo(games, i) <= offset < RowsUpTo(games, i) + games[i].count
  {
    if RowsUpTo(games, n - 1) <= offset {
      i := n - 1;
    } else {
      i := GameOfRow(games, n - 1, offset);
    }
  }

  lemma {:induction false} ChunkOfRow(chunks: seq<Chunk>, n: nat, offset: nat) returns (j: nat)
    requires n <= |chunks| && offset < ChunkRowsUpTo(chunks, n)
    ensures j < n && ChunkRowsUpTo(chunks, j) <= offset < ChunkRowsUpTo(chunks, j) + chunks[j].count
  {
    if ChunkRowsUpTo(chunks, n - 1) <= offset {
      j := n - 1;
    } else {
      j := ChunkOfRow(chunks, n - 1, offset);
    }
  }

  lemma {:induction false} ChunkRowsGrow(chunks: seq<Chunk>, j: nat, l: nat)
    requires j < l <= |chunks|
    ensures ChunkRowsUpTo(chunks, j) + chunks[j].count <= ChunkRowsUpTo(chunks, l)
  {
    if j < l - 1 {
      ChunkRowsGrow(chunks, j, l - 1);
    }
  }

  /** Any manifest that passes the validator, whoever wrote it, gives each row one chunk. */
  lemma EveryRowHasOneChunk(c: Catalog, offset: nat) returns (i: nat, j: nat)
    requires ValidManifest(c) && offset < c.rowCount
    ensures HoldsRow(c, i, j, offset)
    ensures forall k: nat, l: nat :: HoldsRow(c, k, l, offset) ==> k == i && l == j
  {
    i := GameOfRow(c.games, |c.games|, offset);
    var g := c.games[i];
    assert GameFollows(c.games, i) && CoveringChunks(g, c.size);
    j := ChunkOfRow(g.chunks, |g.chunks|, offset - g.start);
    assert ChunkFollows(g, j, c.size);
    forall k: nat, l: nat | HoldsRow(c, k, l, offset) ensures k == i && l == j {
      OneChunk(c, offset, i, j, k, l);
    }
  }

  lemma InsideGame(c: Catalog, i: nat, j: nat)
    requires ValidManifest(c) && i < |c.games| && j < |c.games[i].chunks|
    ensures var g := c.games[i];
            && g.start == RowsUpTo(c.games, i)
            && g.chunks[j].start == g.start + ChunkRowsUpTo(g.chunks, j)
            && g.start <= g.chunks[j].start && g.chunks[j].start + g.chunks[j].count <= g.start + g.count
  {
    var g := c.games[i];
    assert GameFollows(c.games, i) && CoveringChunks(g, c.size) && ChunkFollows(g, j, c.size);
    ChunkRowsGrow(g.chunks, j, |g.chunks|);
  }

  lemma OneChunk(c: Catalog, offset: nat, i: nat, j: nat, k: nat, l: nat)
    requires ValidManifest(c) && HoldsRow(c, i, j, offset) && HoldsRow(c, k, l, offset)
    ensures k == i && l == j
  {
    InsideGame(c, i, j);
    InsideGame(c, k, l);
    if i < k {
      RowsUpToGrows(c.games, i, k);
    } else if k < i {
      RowsUpToGrows(c.games, k, i);
    } else if j < l {
      ChunkRowsGrow(c.games[i].chunks, j, l);
    } else if l < j {
      ChunkRowsGrow(c.games[i].chunks, l, j);
    }
  }

  /** A game in its place, without chunks or with exactly those its row count determines. */
  predicate IsStaged(g: Game, ordinal: nat, size: nat)
    requires size > 0
  {
    && g.fragment == ordinal
    && (|g.chunks| > 0 ==>
          && |g.chunks| == (g.count + size - 1) / size
          && forall j :: 0 <= j < |g.chunks| ==> IsPlaced(g, j, ordinal, size))
  }

  /** What the staging validator accepts. */
  lemma StagingMeans(c: Catalog)
    ensures ValidStaging(c) <==>
              c.size >= 1 && JoinedGames(c) && forall i :: 0 <= i < |c.games| ==> IsStaged(c.games[i], i, c.size)
  {
    hide JoinedGames, IsPlaced, StagedChunks;
    if c.size >= 1 {
      forall i | 0 <= i < |c.games| ensures GameInPlace(c.games[i], i, c.size) <==> IsStaged(c.games[i], i, c.size) {
        StagedMeans(c.games[i], i, c.size);
      }
    }
  }

  /** What the manifest validator accepts. */
  lemma ManifestMeans(c: Catalog)
    ensures ValidManifest(c) <==>
              && JoinedGames(c)
              && (forall i, k :: 0 <= i < k < |c.games| ==> c.games[i].fragment != c.games[k].fragment)
              && (forall i, k :: 0 <= i < k < |c.games| ==> Apart(c.games[i].chunks, c.games[k].chunks))
              && (forall i :: 0 <= i < |c.games| ==> PathsDiffer(c.games[i].chunks))
              && (forall i :: 0 <= i < |c.games| ==> CoveringChunks(c.games[i], c.size))
  {
    hide JoinedGames, CoveringChunks;
    PathsMean(c.games);
  }

  predicate Apart(a: seq<Chunk>, b: seq<Chunk>) {
    forall j, l :: 0 <= j < |a| && 0 <= l < |b| ==> a[j].path != b[l].path
  }

  predicate PathsDiffer(chunks: seq<Chunk>) {
    forall j, l :: 0 <= j < l < |chunks| ==> chunks[j].path != chunks[l].path
  }

  lemma PathsMean(games: seq<Game>)
    ensures UniquePaths(games) <==>
              && (forall i, k :: 0 <= i < k < |games| ==> Apart(games[i].chunks, games[k].chunks))
              && (forall i :: 0 <= i < |games| ==> PathsDiffer(games[i].chunks))
  {
    if (forall i, k :: 0 <= i < k < |games| ==> Apart(games[i].chunks, games[k].chunks))
       && forall i :: 0 <= i < |games| ==> PathsDiffer(games[i].chunks) {
      forall i, j, k, l | 0 <= i < |games| && 0 <= j < |games[i].chunks| && 0 <= k < |games|
        && 0 <= l < |games[k].chunks| && (i, j) != (k, l)
        ensures games[i].chunks[j].path != games[k].chunks[l].path
      {
        assert i < k ==> Apart(games[i].chunks, games[k].chunks);
        assert k < i ==> Apart(games[k].chunks, games[i].chunks);
        assert PathsDiffer(games[i].chunks);
      }
    }
  }
}

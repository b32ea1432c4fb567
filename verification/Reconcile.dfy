/** Assigning seeds to self-play workers and reconciling what the workers leave. */
module Reconcile {
  import opened Common
  import opened SelfPlay

  // Assignment

  predicate SortedBySeed(games: seq<GameSpec>) {
    forall i, j :: 0 <= i < j < |games| ==> games[i].seed <= games[j].seed
  }

  predicate UniqueSeeds(games: seq<GameSpec>) {
    forall i, j :: 0 <= i < j < |games| ==> games[i].seed != games[j].seed
  }

  function Insert(g: GameSpec, sorted: seq<GameSpec>): seq<GameSpec> {
    if sorted == [] || g.seed < sorted[0].seed then [g] + sorted
    else [sorted[0]] + Insert(g, sorted[1..])
  }

  /** sorted(games, key=world_seed), a stable sort. */
  function Sort(games: seq<GameSpec>): seq<GameSpec> {
    if games == [] then [] else Insert(games[|games| - 1], Sort(games[..|games| - 1]))
  }

  lemma {:induction false} InsertKeeps(g: GameSpec, sorted: seq<GameSpec>)
    ensures multiset(Insert(g, sorted)) == multiset(sorted) + multiset{g}
  {
    if sorted != [] && g.seed >= sorted[0].seed {
      InsertKeeps(g, sorted[1..]);
      assert sorted == [sorted[0]] + sorted[1..];
    }
  }

  lemma {:induction false} InsertAbove(g: GameSpec, sorted: seq<GameSpec>, low: nat)
    requires low <= g.seed && forall i :: 0 <= i < |sorted| ==> low <= sorted[i].seed
    ensures forall i :: 0 <= i < |Insert(g, sorted)| ==> low <= Insert(g, sorted)[i].seed
  {
    if sorted != [] && g.seed >= sorted[0].seed {
      InsertAbove(g, sorted[1..], low);
    }
  }

  lemma {:induction false} InsertSorts(g: GameSpec, sorted: seq<GameSpec>)
    requires SortedBySeed(sorted)
    ensures SortedBySeed(Insert(g, sorted))
  {
    if sorted != [] && g.seed >= sorted[0].seed {
      InsertSorts(g, sorted[1..]);
      InsertAbove(g, sorted[1..], sorted[0].seed);
    }
  }

  lemma {:induction false} SortSorts(games: seq<GameSpec>)
    ensures SortedBySeed(Sort(games)) && multiset(Sort(games)) == multiset(games)
  {
    if games != [] {
      var init, last := games[..|games| - 1], games[|games| - 1];
      SortSorts(init);
      InsertSorts(last, Sort(init));
      InsertKeeps(last, Sort(init));
      assert games == init + [last];
    }
  }

  /** Every workers-th game, starting with the w-th. */
  function RoundRobin(ordered: seq<GameSpec>, workers: nat, w: nat): seq<GameSpec>
    requires workers > 0
  {
    if ordered == [] then []
    else
      var n := |ordered| - 1;
      RoundRobin(ordered[..n], workers, w) + if n % workers == w then [ordered[n]] else []
  }

  /** Sort the games, reject repeated seeds, and deal them out in turn. */
  method BuildWorkerSpecs(config: string, games: seq<GameSpec>, workers: int) returns (r: Result<seq<WorkerSpec>>)
    ensures r.Success? <==> workers > 0 && UniqueSeeds(Sort(games))
    ensures r.Success? ==> |r.value| == workers
    ensures r.Success? ==> forall w :: 0 <= w < workers ==>
              r.value[w] == WorkerSpec(w, config, RoundRobin(Sort(games), workers, w)) && r.value[w].Valid()
  {
    if workers <= 0 {
      return Failure;
    }
    var ordered := Sort(games);
    if !UniqueSeeds(ordered) {
      return Failure;
    }
    var buckets: seq<seq<GameSpec>> := seq(workers, _ => []);
    for index := 0 to |ordered|
      invariant |buckets| == workers
      invariant forall w :: 0 <= w < workers ==> buckets[w] == RoundRobin(ordered[..index], workers, w)
    {
      var w := index % workers;
      assert ordered[..index + 1][..index] == ordered[..index];
      buckets := buckets[w := buckets[w] + [ordered[index]]];
    }
    assert ordered[..|ordered|] == ordered;
    forall w | 0 <= w < workers ensures WorkerSpec(w, config, buckets[w]).Valid() {
      DealtSeedsAreUnique(ordered, workers, w);
    }
    r := Success(seq(workers, w requires 0 <= w < workers => WorkerSpec(w, config, buckets[w])));
  }

  lemma {:induction false} DealtSeedsAreUnique(ordered: seq<GameSpec>, workers: nat, w: nat)
    requires workers > 0 && UniqueSeeds(ordered)
    ensures UniqueSeeds(RoundRobin(ordered, workers, w))
    ensures forall g :: g in RoundRobin(ordered, workers, w) ==> g in ordered
  {
    if ordered != [] {
      var n := |ordered| - 1;
      assert ordered == ordered[..n] + [ordered[n]];
      DealtSeedsAreUnique(ordered[..n], workers, w);
      forall g | g in ordered[..n] ensures g.seed != ordered[n].seed {
      }
    }
  }

  function Seeds(games: seq<GameSpec>): seq<nat> {
    seq(|games|, i requires 0 <= i < |games| => games[i].seed)
  }

  /** The seeds of [start, end) that the reconciler expects of worker w, ascending. */
  function ExpectedSeeds(start: nat, end: nat, workers: nat, w: nat): seq<nat>
    requires workers > 0 && start <= end
    decreases end
  {
    if start == end then []
    else
      ExpectedSeeds(start, end - 1, workers, w) + if (end - 1 - start) % workers == w then [end - 1] else []
  }

  /** Dealing by sorted position agrees with dealing by seed offset. */
  lemma {:induction false} RoundRobinByOffset(ordered: seq<GameSpec>, start: nat, workers: nat, w: nat)
    requires workers > 0
    requires forall i :: 0 <= i < |ordered| ==> ordered[i].seed == start + i
    ensures Seeds(RoundRobin(ordered, workers, w)) == ExpectedSeeds(start, start + |ordered|, workers, w)
  {
    if ordered != [] {
      RoundRobinByOffset(ordered[..|ordered| - 1], start, workers, w);
    }
  }

  // Receipts

  /** A receipt file: its rows and whether the last one is partial. */
  datatype ReceiptFile = ReceiptFile(rows: seq<Receipt>, torn: bool)

  function GameIds(rows: seq<Receipt>): seq<GameId> {
    seq(|rows|, i requires 0 <= i < |rows| => rows[i].gameId)
  }

  function ReceiptSeeds(rows: seq<Receipt>): seq<nat> {
    seq(|rows|, i requires 0 <= i < |rows| => rows[i].seed)
  }

  /** One file is complete, belongs to worker w, and covers its seeds in order. */
  predicate ValidFile(f: ReceiptFile, start: nat, end: nat, workers: nat, w: nat)
    requires workers > 0 && start <= end
  {
    && !f.torn && f.rows != []
    && (forall i :: 0 <= i < |f.rows| ==> f.rows[i].rowCount > 0)
    && (forall i :: 0 <= i < |f.rows| ==> f.rows[i].worker == w && f.rows[i].workerConfig == f.rows[0].workerConfig)
    && ReceiptSeeds(f.rows) == ExpectedSeeds(start, end, workers, w)
    && f.rows[0].workerConfig == WorkerConfig(w, f.rows[0].config, GameIds(f.rows))
  }

  /** The receipt for a seed: file by offset, position by round. */
  function ReceiptOf(files: seq<ReceiptFile>, start: nat, end: nat, seed: nat): Receipt
    requires start <= seed < end
    requires Covering(files, start, end)
  {
    var w := (seed - start) % |files|;
    CoveringHasSeed(files, start, end, seed);
    files[w].rows[(seed - start) / |files|]
  }

  predicate Covering(files: seq<ReceiptFile>, start: nat, end: nat) {
    files != [] && start <= end && forall w :: 0 <= w < |files| ==> ValidFile(files[w], start, end, |files|, w)
  }

  lemma {:induction false} ExpectedSeedAt(start: nat, end: nat, workers: nat, seed: nat)
    requires workers > 0 && start <= seed < end
    ensures var w, i := (seed - start) % workers, (seed - start) / workers;
            i < |ExpectedSeeds(start, end, workers, w)| && ExpectedSeeds(start, end, workers, w)[i] == seed
    decreases end
  {
    var w, i := (seed - start) % workers, (seed - start) / workers;
    if seed < end - 1 {
      ExpectedSeedAt(start, end - 1, workers, seed);
    } else {
      ExpectedLength(start, end - 1, workers, w);
    }
  }

  /** How many offsets below n are congruent to w. */
  function Quota(n: nat, workers: nat, w: nat): nat
    requires workers > 0
  {
    n / workers + if n % workers > w then 1 else 0
  }

  lemma {:induction false} ExpectedLength(start: nat, end: nat, workers: nat, w: nat)
    requires workers > w && start <= end
    ensures |ExpectedSeeds(start, end, workers, w)| == Quota(end - start, workers, w)
    decreases end
  {
    if start < end {
      ExpectedLength(start, end - 1, workers, w);
      QuotaStep(end - 1 - start, workers, w);
    } else {
      assert 0 / workers == 0 && 0 % workers == 0;
    }
  }

  lemma QuotaStep(n: nat, workers: nat, w: nat)
    requires workers > w
    ensures Quota(n + 1, workers, w) == Quota(n, workers, w) + if n % workers == w then 1 else 0
  {
    var q, m := n / workers, n % workers;
    assert n == q * workers + m;
    if m + 1 < workers {
      DivMod(n + 1, workers, q, m + 1);
    } else {
      DivMod(n + 1, workers, q + 1, 0);
    }
  }

  lemma CoveringHasSeed(files: seq<ReceiptFile>, start: nat, end: nat, seed: nat)
    requires Covering(files, start, end) && start <= seed < end
    ensures var w, i := (seed - start) % |files|, (seed - start) / |files|;
            w < |files| && i < |files[w].rows| && files[w].rows[i].seed == seed && files[w].rows[i].worker == w
  {
    var offset, n := seed - start, |files|;
    ExpectedSeedAt(start, end, n, seed);
    HasPlace(offset, n);
    FileHasSeed(files[offset % n], start, end, n, offset % n, offset / n, seed);
  }

  lemma HasPlace(offset: nat, n: nat)
    requires n > 0
    ensures 0 <= offset % n < n && 0 <= offset / n
  {
  }

  lemma FileHasSeed(f: ReceiptFile, start: nat, end: nat, workers: nat, w: nat, i: nat, seed: nat)
    requires workers > 0 && start <= end && ValidFile(f, start, end, workers, w)
    requires i < |ExpectedSeeds(start, end, workers, w)| && ExpectedSeeds(start, end, workers, w)[i] == seed
    ensures i < |f.rows| && f.rows[i].seed == seed && f.rows[i].worker == w
  {
    assert |ReceiptSeeds(f.rows)| == |f.rows|;
    assert ReceiptSeeds(f.rows)[i] == f.rows[i].seed;
  }

  /** Every receipt, file by file. */
  function AllReceipts(files: seq<ReceiptFile>): seq<Receipt> {
    if files == [] then [] else AllReceipts(files[..|files| - 1]) + files[|files| - 1].rows
  }

  /** One generation, no game twice. */
  predicate OneGeneration(receipts: seq<Receipt>) {
    && (forall i, j :: 0 <= i < j < |receipts| ==> receipts[i].gameId != receipts[j].gameId)
    && (forall i, j :: 0 <= i < j < |receipts| ==> receipts[i].config == receipts[j].config)
  }

  /** seed is one the reconciler expects of worker w. */
  predicate Owns(start: nat, end: nat, workers: nat, w: nat, seed: nat)
    requires workers > 0
  {
    start <= seed < end && (seed - start) % workers == w
  }

  lemma {:induction false} ExpectedSeedsAscend(start: nat, end: nat, workers: nat, w: nat)
    requires workers > 0 && start <= end
    ensures forall x :: x in ExpectedSeeds(start, end, workers, w) ==> Owns(start, end, workers, w, x)
    ensures forall i, j :: 0 <= i < j < |ExpectedSeeds(start, end, workers, w)| ==>
              ExpectedSeeds(start, end, workers, w)[i] != ExpectedSeeds(start, end, workers, w)[j]
    decreases end
  {
    if start < end {
      ExpectedSeedsAscend(start, end - 1, workers, w);
      var before := ExpectedSeeds(start, end - 1, workers, w);
      forall x | x in before ensures Owns(start, end, workers, w, x) && x != end - 1 {
        assert Owns(start, end - 1, workers, w, x);
      }
      assert forall i :: 0 <= i < |before| ==> before[i] in before;
    }
  }

  /** One file's rows own distinct seeds. */
  lemma FileSeeds(f: ReceiptFile, start: nat, end: nat, workers: nat, w: nat)
    requires workers > 0 && start <= end && ValidFile(f, start, end, workers, w)
    ensures forall i :: 0 <= i < |f.rows| ==> Owns(start, end, workers, w, f.rows[i].seed)
    ensures forall i, j :: 0 <= i < j < |f.rows| ==> f.rows[i].seed != f.rows[j].seed
  {
    ExpectedSeedsAscend(start, end, workers, w);
    var seeds := ExpectedSeeds(start, end, workers, w);
    forall i | 0 <= i < |f.rows| ensures f.rows[i].seed == seeds[i] && seeds[i] in seeds {
      assert ReceiptSeeds(f.rows)[i] == f.rows[i].seed;
    }
  }

  /** Complete files hold each seed once, in the file its offset assigns. */
  lemma {:induction false} SeedsAppearOnce(files: seq<ReceiptFile>, start: nat, end: nat, workers: nat)
    requires workers > 0 && start <= end
    requires forall w :: 0 <= w < |files| ==> ValidFile(files[w], start, end, workers, w)
    ensures forall r :: r in AllReceipts(files) ==> r.worker < |files| && Owns(start, end, workers, r.worker, r.seed)
    ensures forall i, j :: 0 <= i < j < |AllReceipts(files)| ==>
              AllReceipts(files)[i].seed != AllReceipts(files)[j].seed
  {
    if files != [] {
      var n := |files| - 1;
      var before, rows := AllReceipts(files[..n]), files[n].rows;
      SeedsAppearOnce(files[..n], start, end, workers);
      FileSeeds(files[n], start, end, workers, n);
      forall i, j | 0 <= i < |before| && 0 <= j < |rows| ensures before[i].seed != rows[j].seed {
        assert before[i] in before;
        assert Owns(start, end, workers, before[i].worker, before[i].seed);
        assert Owns(start, end, workers, n, rows[j].seed);
      }
    }
  }

  lemma {:induction false} InAllReceipts(files: seq<ReceiptFile>, w: nat, i: nat)
    requires w < |files| && i < |files[w].rows|
    ensures files[w].rows[i] in AllReceipts(files)
  {
    if w < |files| - 1 {
      InAllReceipts(files[..|files| - 1], w, i);
    }
  }

  /** Reject a repeated game or a second generation identity. */
  method CheckGeneration(all: seq<Receipt>) returns (ok: bool)
    ensures ok <==> OneGeneration(all)
  {
    var gameIds: set<GameId> := {};
    for i := 0 to |all|
      invariant forall j, k :: 0 <= j < k < i ==> all[j].gameId != all[k].gameId
      invariant forall j :: 0 <= j < i ==> all[j].config == all[0].config
      invariant gameIds == set j | 0 <= j < i :: all[j].gameId
    {
      if all[i].gameId in gameIds || all[i].config != all[0].config {
        return false;
      }
      gameIds := gameIds + {all[i].gameId};
    }
    ok := true;
  }

  /** Index receipts by seed.  The source would reject a repeated seed here, which
      complete files cannot contain. */
  method IndexBySeed(all: seq<Receipt>) returns (bySeed: map<nat, Receipt>)
    requires forall i, j :: 0 <= i < j < |all| ==> all[i].seed != all[j].seed
    ensures forall x :: x in all ==> x.seed in bySeed && bySeed[x.seed] == x
  {
    bySeed := map[];
    for i := 0 to |all|
      invariant bySeed.Keys == set j | 0 <= j < i :: all[j].seed
      invariant forall j :: 0 <= j < i ==> all[j].seed in bySeed && bySeed[all[j].seed] == all[j]
    {
      if all[i].seed in bySeed {
        assert false;
      }
      bySeed := bySeed[all[i].seed := all[i]];
    }
  }

  /** The receipts of [start, end) in ascending seed order. */
  function ReceiptsInOrder(files: seq<ReceiptFile>, start: nat, end: nat): seq<Receipt>
    requires Covering(files, start, end)
  {
    seq(end - start, k requires 0 <= k < end - start => ReceiptOf(files, start, end, start + k))
  }

  /** Check the receipt files and list their rows by seed. */
  method LoadReceipts(files: seq<ReceiptFile>, start: nat, end: nat) returns (r: Result<seq<Receipt>>)
    requires files != [] && start <= end
    ensures r.Success? <==> Covering(files, start, end) && OneGeneration(AllReceipts(files))
    ensures r.Success? ==> r.value == ReceiptsInOrder(files, start, end)
  {
    for w := 0 to |files|
      invariant forall v :: 0 <= v < w ==> ValidFile(files[v], start, end, |files|, v)
    {
      if !ValidFile(files[w], start, end, |files|, w) {
        return Failure;
      }
    }
    SeedsAppearOnce(files, start, end, |files|);
    var oneGeneration := CheckGeneration(AllReceipts(files));
    if !oneGeneration {
      return Failure;
    }
    var bySeed := IndexBySeed(AllReceipts(files));
    SeedsAreIndexed(files, start, end, bySeed);
    r := Success(ListBySeed(bySeed, start, end));
  }

  function ListBySeed(bySeed: map<nat, Receipt>, start: nat, end: nat): seq<Receipt>
    requires start <= end && forall seed :: start <= seed < end ==> seed in bySeed
  {
    seq(end - start, k requires 0 <= k < end - start => bySeed[start + k])
  }

  lemma SeedsAreIndexed(files: seq<ReceiptFile>, start: nat, end: nat, bySeed: map<nat, Receipt>)
    requires Covering(files, start, end)
    requires forall x :: x in AllReceipts(files) ==> x.seed in bySeed && bySeed[x.seed] == x
    ensures forall seed :: start <= seed < end ==> seed in bySeed
    ensures ListBySeed(bySeed, start, end) == ReceiptsInOrder(files, start, end)
  {
    forall seed | start <= seed < end
      ensures seed in bySeed && bySeed[seed] == ReceiptOf(files, start, end, seed)
    {
      ReceiptIsListed(files, start, end, seed);
    }
  }

  lemma ReceiptIsListed(files: seq<ReceiptFile>, start: nat, end: nat, seed: nat)
    requires Covering(files, start, end) && start <= seed < end
    ensures var r := ReceiptOf(files, start, end, seed); r in AllReceipts(files) && r.seed == seed
  {
    CoveringHasSeed(files, start, end, seed);
    InAllReceipts(files, (seed - start) % |files|, (seed - start) / |files|);
  }

  // Fragments

  /** A fragment is stored under its worker, seed and game. */
  type FragmentKey = (nat, nat, GameId)

  function KeyOf(r: Receipt): FragmentKey {
    (r.worker, r.seed, r.gameId)
  }

  /** The per-row checks against the receipt. */
  predicate RowMatches(r: Receipt, row: Row, i: nat) {
    && row.gameId == r.gameId && row.seed == r.seed
    && row.gameId == GameId(row.config, GameSpec(row.seed, row.scope))
    && row.config == r.config && row.winner == r.winner && row.index == i
  }

  predicate FragmentMatches(r: Receipt, fragments: map<FragmentKey, seq<Row>>) {
    && KeyOf(r) in fragments
    && var rows := fragments[KeyOf(r)];
       && (forall i :: 0 <= i < |rows| ==> RowMatches(r, rows[i], i))
       && Digest(rows) == r.digest && |rows| == r.rowCount
  }

  /** The fragments of the receipts, concatenated in order. */
  function Concatenated(receipts: seq<Receipt>, fragments: map<FragmentKey, seq<Row>>): seq<Row> {
    if receipts == [] then []
    else
      var last := receipts[|receipts| - 1];
      Concatenated(receipts[..|receipts| - 1], fragments)
      + if KeyOf(last) in fragments then fragments[KeyOf(last)] else []
  }

  function RowTotal(receipts: seq<Receipt>): nat {
    if receipts == [] then 0 else RowTotal(receipts[..|receipts| - 1]) + receipts[|receipts| - 1].rowCount
  }

  method CheckFragment(r: Receipt, fragments: map<FragmentKey, seq<Row>>) returns (ok: bool)
    ensures ok <==> FragmentMatches(r, fragments)
  {
    if KeyOf(r) !in fragments {
      return false;
    }
    var rows := fragments[KeyOf(r)];
    var expectedIndex := 0;
    for i := 0 to |rows|
      invariant expectedIndex == i
      invariant forall j :: 0 <= j < i ==> RowMatches(r, rows[j], j)
    {
      if !RowMatches(r, rows[i], expectedIndex) {
        return false;
      }
      expectedIndex := expectedIndex + 1;
    }
    ok := Digest(rows) == r.digest && expectedIndex == r.rowCount;
  }

  /** Check the fragments one receipt at a time and append their rows. */
  method Aggregate(receipts: seq<Receipt>, fragments: map<FragmentKey, seq<Row>>) returns (r: Result<seq<Row>>)
    ensures r.Success? <==> forall j :: 0 <= j < |receipts| ==> FragmentMatches(receipts[j], fragments)
    ensures r.Success? ==> r.value == Concatenated(receipts, fragments) && |r.value| == RowTotal(receipts)
  {
    var out: seq<Row> := [];
    var rowCount := 0;
    for k := 0 to |receipts|
      invariant forall j :: 0 <= j < k ==> FragmentMatches(receipts[j], fragments)
      invariant out == Concatenated(receipts[..k], fragments)
      invariant |out| == rowCount == RowTotal(receipts[..k])
    {
      var ok := CheckFragment(receipts[k], fragments);
      if !ok {
        return Failure;
      }
      assert receipts[..k + 1][..k] == receipts[..k];
      out := out + fragments[KeyOf(receipts[k])];
      rowCount := rowCount + |fragments[KeyOf(receipts[k])]|;
    }
    assert receipts[..|receipts|] == receipts;
    r := Success(out);
  }

  /** When the workers' output can be reconciled. */
  ghost predicate Reconcilable(files: seq<ReceiptFile>, fragments: map<FragmentKey, seq<Row>>, start: nat, end: nat) {
    && 0 < |files| <= end - start
    && Covering(files, start, end) && OneGeneration(AllReceipts(files))
    && var receipts := ReceiptsInOrder(files, start, end);
       forall j :: 0 <= j < |receipts| ==> FragmentMatches(receipts[j], fragments)
  }

  /** The aggregate is the fragments in ascending seed order, as many rows as receipted. */
  method ReconcileSelfPlay(files: seq<ReceiptFile>, fragments: map<FragmentKey, seq<Row>>, start: nat, end: nat)
    returns (r: Result<seq<Row>>)
    ensures r.Success? <==> Reconcilable(files, fragments, start, end)
    ensures r.Success? ==>
      var receipts := ReceiptsInOrder(files, start, end);
      r.value == Concatenated(receipts, fragments) && |r.value| == RowTotal(receipts)
    ensures r.Success? ==>
      BySeedAndIndex(r.value) && HasEveryRow(r.value, ReceiptsInOrder(files, start, end))
  {
    hide BySeedAndIndex, HasEveryRow, RowsOfReceipts, FragmentMatches, Covering, OneGeneration;
    if end <= start || files == [] || |files| > end - start {
      return Failure;
    }
    var loaded := LoadReceipts(files, start, end);
    if loaded.Failure? {
      return Failure;
    }
    r := Aggregate(loaded.value, fragments);
    if r.Success? {
      AggregateMeans(files, fragments, start, end);
    }
  }

  // What dealing and reconciling mean

  /** One generation: as many games as receipts, and all of one config. */
  lemma GenerationMeans(receipts: seq<Receipt>)
    ensures OneGeneration(receipts) <==>
              && |Elements(GameIds(receipts))| == |receipts|
              && forall i, j :: 0 <= i < |receipts| && 0 <= j < |receipts| ==> receipts[i].config == receipts[j].config
  {
    DistinctCount(GameIds(receipts));
    assert forall i :: 0 <= i < |receipts| ==> GameIds(receipts)[i] == receipts[i].gameId;
  }

  /** A worker's quota is its number of places. */
  lemma QuotaMeans(n: nat, workers: nat, w: nat, i: nat)
    requires workers > w
    ensures i < Quota(n, workers, w) <==> i * workers + w < n
  {
    var q, m := n / workers, n % workers;
    assert n == q * workers + m;
    if i < q {
      Multiples(i, q, workers);
    } else if q < i {
      Multiples(q, i, workers);
    }
  }

  lemma {:induction false} DealtLength(ordered: seq<GameSpec>, workers: nat, w: nat)
    requires workers > w
    ensures |RoundRobin(ordered, workers, w)| == Quota(|ordered|, workers, w)
  {
    if ordered != [] {
      DealtLength(ordered[..|ordered| - 1], workers, w);
      QuotaStep(|ordered| - 1, workers, w);
    } else {
      assert 0 / workers == 0 && 0 % workers == 0;
    }
  }

  lemma {:induction false} DealtPosition(ordered: seq<GameSpec>, workers: nat, k: nat)
    requires workers > 0 && k < |ordered|
    ensures var dealt := RoundRobin(ordered, workers, k % workers);
            k / workers < |dealt| && dealt[k / workers] == ordered[k]
  {
    var n := |ordered| - 1;
    if k < n {
      DealtPosition(ordered[..n], workers, k);
    } else {
      DealtLength(ordered[..n], workers, k % workers);
    }
  }

  /** Worker w plays the games at positions w, w + workers, and so on, of all games by seed. */
  lemma DealtAt(ordered: seq<GameSpec>, workers: nat, w: nat, i: nat)
    requires workers > w
    ensures var dealt := RoundRobin(ordered, workers, w);
            && (i < |dealt| <==> i * workers + w < |ordered|)
            && (i < |dealt| ==> dealt[i] == ordered[i * workers + w])
  {
    DealtLength(ordered, workers, w);
    QuotaMeans(|ordered|, workers, w, i);
    if i * workers + w < |ordered| {
      DivMod(i * workers + w, workers, i, w);
      DealtPosition(ordered, workers, i * workers + w);
    }
  }

  /** And the reconciler expects of it the seeds at those offsets. */
  lemma ExpectedAt(start: nat, end: nat, workers: nat, w: nat, i: nat)
    requires workers > w && start <= end
    ensures var seeds := ExpectedSeeds(start, end, workers, w);
            && (i < |seeds| <==> start + i * workers + w < end)
            && (i < |seeds| ==> seeds[i] == start + i * workers + w)
  {
    ExpectedLength(start, end, workers, w);
    QuotaMeans(end - start, workers, w, i);
    if start + i * workers + w < end {
      DivMod(i * workers + w, workers, i, w);
      ExpectedSeedAt(start, end, workers, start + i * workers + w);
    }
  }

  lemma OneFile(f: ReceiptFile)
    ensures AllReceipts([f]) == f.rows
  {
    assert [f][..0] == [];
  }

  lemma {:induction false} AllReceiptsAdd(a: seq<ReceiptFile>, b: seq<ReceiptFile>)
    ensures AllReceipts([]) == [] && AllReceipts(a + b) == AllReceipts(a) + AllReceipts(b)
  {
    if b == [] {
      assert a + b == a;
    } else {
      var n := |b| - 1;
      AllReceiptsAdd(a, b[..n]);
      LastFile(a, b);
      hide AllReceipts;
      assert AllReceipts(a) + (AllReceipts(b[..n]) + b[n].rows) == AllReceipts(a) + AllReceipts(b[..n]) + b[n].rows;
    }
  }

  lemma LastFile(a: seq<ReceiptFile>, b: seq<ReceiptFile>)
    requires b != []
    ensures AllReceipts(a + b) == AllReceipts(a + b[..|b| - 1]) + b[|b| - 1].rows
    ensures AllReceipts(b) == AllReceipts(b[..|b| - 1]) + b[|b| - 1].rows
  {
    assert (a + b)[..|a + b| - 1] == a + b[..|b| - 1];
  }

  /** One receipt's part of the aggregate. */
  lemma OneReceipt(r: Receipt, fragments: map<FragmentKey, seq<Row>>)
    ensures RowTotal([r]) == r.rowCount
    ensures (r.worker, r.seed, r.gameId) in fragments ==>
              Concatenated([r], fragments) == fragments[(r.worker, r.seed, r.gameId)]
  {
    assert [r][..0] == [];
  }

  /** The rows of the aggregate, receipt by receipt. */
  lemma {:induction false} AggregateAdds(a: seq<Receipt>, b: seq<Receipt>, fragments: map<FragmentKey, seq<Row>>)
    ensures Concatenated([], fragments) == [] && RowTotal([]) == 0
    ensures Concatenated(a + b, fragments) == Concatenated(a, fragments) + Concatenated(b, fragments)
    ensures RowTotal(a + b) == RowTotal(a) + RowTotal(b)
  {
    if b == [] {
      assert a + b == a;
    } else {
      hide KeyOf;
      var n := |b| - 1;
      AggregateAdds(a, b[..n], fragments);
      assert (a + b)[..|a + b| - 1] == a + b[..n];
    }
  }

  /** A row of one of the receipted games, as its receipt says. */
  predicate RowOfReceipt(row: Row, r: Receipt) {
    && row.seed == r.seed && row.config == r.config && row.winner == r.winner && row.index < r.rowCount
    && row.gameId == r.gameId == GameId(r.config, GameSpec(r.seed, row.scope))
  }

  /** Rows follow by seed, and rows of one seed by index. */
  ghost predicate BySeedAndIndex(rows: seq<Row>) {
    forall a, b :: 0 <= a < b < |rows| ==>
      rows[a].seed < rows[b].seed || (rows[a].seed == rows[b].seed && rows[a].index < rows[b].index)
  }

  ghost predicate RowsOfReceipts(rows: seq<Row>, receipts: seq<Receipt>) {
    forall a :: 0 <= a < |rows| ==> exists k :: 0 <= k < |receipts| && RowOfReceipt(rows[a], receipts[k])
  }

  /** Every decision that was receipted is there. */
  ghost predicate HasEveryRow(rows: seq<Row>, receipts: seq<Receipt>) {
    forall k, i: nat :: 0 <= k < |receipts| && i < receipts[k].rowCount ==> HasRow(rows, receipts[k].seed, i)
  }

  ghost predicate HasRow(rows: seq<Row>, seed: nat, index: nat) {
    exists a :: 0 <= a < |rows| && rows[a].seed == seed && rows[a].index == index
  }

  lemma {:induction false} AggregateInOrder(receipts: seq<Receipt>, fragments: map<FragmentKey, seq<Row>>)
    requires forall j :: 0 <= j < |receipts| ==> FragmentMatches(receipts[j], fragments)
    requires forall j, k :: 0 <= j < k < |receipts| ==> receipts[j].seed < receipts[k].seed
    ensures var rows := Concatenated(receipts, fragments);
            BySeedAndIndex(rows) && RowsOfReceipts(rows, receipts) && HasEveryRow(rows, receipts)
  {
    if receipts != [] {
      var n := |receipts| - 1;
      AggregateInOrder(receipts[..n], fragments);
      OneMoreGame(Concatenated(receipts[..n], fragments), receipts, fragments[KeyOf(receipts[n])]);
    }
  }

  lemma OneMoreGame(before: seq<Row>, receipts: seq<Receipt>, more: seq<Row>)
    requires receipts != [] && forall j, k :: 0 <= j < k < |receipts| ==> receipts[j].seed < receipts[k].seed
    requires var init := receipts[..|receipts| - 1];
             BySeedAndIndex(before) && RowsOfReceipts(before, init) && HasEveryRow(before, init)
    requires var r := receipts[|receipts| - 1];
             |more| == r.rowCount && forall i :: 0 <= i < |more| ==> RowMatches(r, more[i], i)
    ensures var rows := before + more;
            BySeedAndIndex(rows) && RowsOfReceipts(rows, receipts) && HasEveryRow(rows, receipts)
  {
    var rows, n := before + more, |receipts| - 1;
    forall a | 0 <= a < |rows|
      ensures exists k :: 0 <= k < |receipts| && RowOfReceipt(rows[a], receipts[k])
      ensures a < |before| ==> rows[a].seed < receipts[n].seed
      ensures a >= |before| ==> rows[a].seed == receipts[n].seed && rows[a].index == a - |before|
    {
      if a < |before| {
        var k :| 0 <= k < n && RowOfReceipt(before[a], receipts[..n][k]);
        assert RowOfReceipt(rows[a], receipts[k]);
      } else {
        assert RowOfReceipt(rows[a], receipts[n]);
      }
    }
    forall k, i: nat | 0 <= k < |receipts| && i < receipts[k].rowCount ensures HasRow(rows, receipts[k].seed, i) {
      if k < n {
        assert HasRow(before, receipts[..n][k].seed, i);
        var a :| 0 <= a < |before| && before[a].seed == receipts[k].seed && before[a].index == i;
        assert rows[a] == before[a];
      } else {
        assert rows[|before| + i] == more[i];
      }
    }
  }

  /** The aggregate of a reconcilable run: its rows by seed and index, for every seed of the range as
      many as were receipted, all of one generation. */
  lemma AggregateMeans(files: seq<ReceiptFile>, fragments: map<FragmentKey, seq<Row>>, start: nat, end: nat)
    requires Reconcilable(files, fragments, start, end)
    ensures var receipts := ReceiptsInOrder(files, start, end);
            var rows := Concatenated(receipts, fragments);
            && |receipts| == end - start
            && (forall k :: 0 <= k < end - start ==>
                  receipts[k].seed == start + k && receipts[k].worker == k % |files| && receipts[k].rowCount > 0)
            && BySeedAndIndex(rows) && RowsOfReceipts(rows, receipts) && HasEveryRow(rows, receipts)
            && forall a, b :: 0 <= a < |rows| && 0 <= b < |rows| ==> rows[a].config == rows[b].config
  {
    hide BySeedAndIndex, RowsOfReceipts, HasEveryRow, ValidFile, FragmentMatches, OneGeneration, Concatenated;
    var receipts := ReceiptsInOrder(files, start, end);
    forall k | 0 <= k < end - start
      ensures receipts[k].seed == start + k && receipts[k].worker == k % |files| && receipts[k].rowCount > 0
      ensures receipts[k] in AllReceipts(files)
    {
      SeedHasReceipt(files, start, end, start + k);
    }
    AggregateInOrder(receipts, fragments);
    OneConfig(files, receipts, Concatenated(receipts, fragments));
  }

  lemma SeedHasReceipt(files: seq<ReceiptFile>, start: nat, end: nat, seed: nat)
    requires Covering(files, start, end) && start <= seed < end
    ensures var r := ReceiptOf(files, start, end, seed);
            && r.seed == seed && r.worker == (seed - start) % |files| && r.rowCount > 0
            && r in AllReceipts(files)
  {
    hide AllReceipts, ValidFile;
    ReceiptIsListed(files, start, end, seed);
    CoveringHasSeed(files, start, end, seed);
    var w, i := (seed - start) % |files|, (seed - start) / |files|;
    FileCounts(files[w], start, end, |files|, w, i);
  }

  lemma FileCounts(f: ReceiptFile, start: nat, end: nat, workers: nat, w: nat, i: nat)
    requires workers > 0 && start <= end && ValidFile(f, start, end, workers, w) && i < |f.rows|
    ensures f.rows[i].rowCount > 0
  {
  }

  lemma OneConfig(files: seq<ReceiptFile>, receipts: seq<Receipt>, rows: seq<Row>)
    requires OneGeneration(AllReceipts(files)) && RowsOfReceipts(rows, receipts)
    requires forall r :: r in receipts ==> r in AllReceipts(files)
    ensures forall a, b :: 0 <= a < |rows| && 0 <= b < |rows| ==> rows[a].config == rows[b].config
  {
    var all := AllReceipts(files);
    forall a | 0 <= a < |rows| ensures all != [] && rows[a].config == all[0].config {
      var k :| 0 <= k < |receipts| && RowOfReceipt(rows[a], receipts[k]);
      assert receipts[k] in all;
      var i :| 0 <= i < |all| && all[i] == receipts[k];
      assert i > 0 ==> all[0].config == all[i].config;
    }
  }
}

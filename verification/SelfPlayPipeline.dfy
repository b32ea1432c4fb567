/** From assignment to aggregate: what the workers leave, the reconciler accepts. */
module SelfPlayPipeline {
  import opened Common
  import opened SelfPlay
  import opened Reconcile

  /** The games of a contiguous seed range, in some order. */
  ghost predicate Contiguous(games: seq<GameSpec>, start: nat) {
    Seeds(Sort(games)) == SeedRange(start, |games|)
  }

  function SeedRange(start: nat, n: nat): seq<nat> {
    seq(n, i requires 0 <= i < n => start + i)
  }

  lemma ContiguousSeeds(games: seq<GameSpec>, start: nat)
    requires Contiguous(games, start)
    ensures |Sort(games)| == |games| && forall i :: 0 <= i < |games| ==> Sort(games)[i].seed == start + i
  {
    var ordered, seeds := Sort(games), SeedRange(start, |games|);
    assert |Seeds(ordered)| == |ordered|;
    forall i | 0 <= i < |games| ensures ordered[i].seed == start + i {
      assert Seeds(ordered)[i] == seeds[i];
    }
  }

  function SpecOf(config: string, games: seq<GameSpec>, workers: nat, w: nat): WorkerSpec
    requires workers > 0
  {
    WorkerSpec(w, config, RoundRobin(Sort(games), workers, w))
  }

  /** The reconciler's view of the workers' directories. */
  ghost predicate Collected(disks: seq<Disk>, files: seq<ReceiptFile>, fragments: map<FragmentKey, seq<Row>>) {
    && |files| == |disks|
    && (forall w :: 0 <= w < |disks| ==> files[w] == ReceiptFile(disks[w].receipts, disks[w].torn))
    && (forall w, id :: 0 <= w < |disks| && id in disks[w].fragments ==>
          (w, id.game.seed, id) in fragments && fragments[(w, id.game.seed, id)] == disks[w].fragments[id])
  }

  /** Every game has its receipt, the receipt file is whole, and no run overtook. */
  ghost predicate FinishedInOrder(spec: WorkerSpec, past: History) {
    !past.disk.torn && EveryGameReceipted(spec, past.disk) && !past.overtaken
  }

  /** The worker was dealt its share of the ordered games, whose seeds are start, start + 1, ... */
  ghost predicate Dealt(spec: WorkerSpec, ordered: seq<GameSpec>, start: nat, workers: nat) {
    && spec.worker < workers <= |ordered|
    && spec.games == RoundRobin(ordered, workers, spec.worker)
    && forall i :: 0 <= i < |ordered| ==> ordered[i].seed == start + i
  }

  function FileOf(disk: Disk): ReceiptFile {
    ReceiptFile(disk.receipts, disk.torn)
  }

  /** A finished worker's receipt file passes every per-file check. */
  lemma FinishedFileIsValid(spec: WorkerSpec, past: History, ordered: seq<GameSpec>, start: nat, workers: nat)
    requires Dealt(spec, ordered, start, workers) && Lawful(spec, past) && FinishedInOrder(spec, past)
    ensures ValidFile(FileOf(past.disk), start, start + |ordered|, workers, spec.worker)
  {
    var end, w, rows := start + |ordered|, spec.worker, past.disk.receipts;
    InOrderIffNotOvertaken(spec, past.disk, false);
    RoundRobinByOffset(ordered, start, workers, w);
    forall i | 0 <= i < |rows| ensures rows[i].gameId == spec.Id(i) && Backs(spec, past.disk.fragments, rows[i]) {
    }
    assert GameIds(rows) == spec.Ids();
    assert ReceiptSeeds(rows) == Seeds(spec.games);
    ExpectedSeedAt(start, end, workers, start + w);
    SmallOffset(w, workers);
    assert |rows| == |ExpectedSeeds(start, end, workers, w)| > 0;
  }

  /** A receipt file that passes the per-file checks is a finished worker's. */
  lemma ValidFileIsFinished(spec: WorkerSpec, past: History, ordered: seq<GameSpec>, start: nat, workers: nat)
    requires Dealt(spec, ordered, start, workers) && Lawful(spec, past)
    requires ValidFile(FileOf(past.disk), start, start + |ordered|, workers, spec.worker)
    ensures FinishedInOrder(spec, past)
  {
    var rows := past.disk.receipts;
    RoundRobinByOffset(ordered, start, workers, spec.worker);
    assert |ReceiptSeeds(rows)| == |Seeds(spec.games)|;
    forall p | 0 <= p < |rows| ensures rows[p].gameId == spec.Id(p) {
      assert ReceiptSeeds(rows)[p] == Seeds(spec.games)[p];
      SeedNamesGame(spec, past.disk, p);
    }
    forall i | 0 <= i < |spec.games| ensures Receipted(past.disk, spec.Id(i)) {
      assert rows[i].gameId == spec.Id(i);
    }
    InOrderIffNotOvertaken(spec, past.disk, past.overtaken);
  }

  /** A receipt with game p's seed is game p's. */
  lemma SeedNamesGame(spec: WorkerSpec, disk: Disk, p: nat)
    requires spec.Valid() && Sound(spec, disk) && p < |disk.receipts| && p < |spec.games|
    requires disk.receipts[p].seed == spec.games[p].seed
    ensures disk.receipts[p].gameId == spec.Id(p)
  {
    var r := disk.receipts[p];
    assert Backs(spec, disk.fragments, r);
    var i :| 0 <= i < |spec.games| && spec.Id(i) == r.gameId;
  }

  /** The per-file checks accept exactly the finished workers' files. */
  lemma FileIsValid(spec: WorkerSpec, past: History, ordered: seq<GameSpec>, start: nat, workers: nat)
    requires Dealt(spec, ordered, start, workers) && Lawful(spec, past)
    ensures ValidFile(FileOf(past.disk), start, start + |ordered|, workers, spec.worker) <==>
              FinishedInOrder(spec, past)
  {
    hide ValidFile, FinishedInOrder, Lawful;
    if FinishedInOrder(spec, past) {
      FinishedFileIsValid(spec, past, ordered, start, workers);
    }
    if ValidFile(FileOf(past.disk), start, start + |ordered|, workers, spec.worker) {
      ValidFileIsFinished(spec, past, ordered, start, workers);
    }
  }

  lemma SmallOffset(w: nat, workers: nat)
    requires w < workers
    ensures w % workers == w && w / workers == 0
  {
  }

  /** Receipts of different workers name different games of one generation. */
  lemma {:induction false} ReceiptsAreOneGeneration(files: seq<ReceiptFile>, config: string)
    requires forall w, i :: 0 <= w < |files| && 0 <= i < |files[w].rows| ==>
               files[w].rows[i].config == config && files[w].rows[i].gameId.game.seed == files[w].rows[i].seed
    ensures forall r :: r in AllReceipts(files) ==> r.config == config && r.gameId.game.seed == r.seed
  {
    if files != [] {
      ReceiptsAreOneGeneration(files[..|files| - 1], config);
    }
  }

  /** A receipt's fragment passes every check against it. */
  lemma FragmentIsAccepted(spec: WorkerSpec, disk: Disk, r: Receipt, fragments: map<FragmentKey, seq<Row>>)
    requires Sound(spec, disk) && r in disk.receipts
    requires forall id :: id in disk.fragments ==>
               (spec.worker, id.game.seed, id) in fragments
                   && fragments[(spec.worker, id.game.seed, id)] == disk.fragments[id]
    ensures FragmentMatches(r, fragments)
    ensures r.config == spec.config && r.gameId.game.seed == r.seed && r.worker == spec.worker
  {
    var p :| 0 <= p < |disk.receipts| && disk.receipts[p] == r;
    assert Backs(spec, disk.fragments, r);
    var rows := disk.fragments[r.gameId];
    var i :| 0 <= i < |spec.games| && spec.Id(i) == r.gameId;
    assert ValidFragment(r.gameId, rows);
    forall k | 0 <= k < |rows| ensures RowMatches(r, rows[k], k) {
      assert RowOfGame(r.gameId, rows[k], k, rows[0].winner);
    }
  }

  /** One worker's file and fragments pass every check that looks at them alone. */
  ghost predicate Accepted(f: ReceiptFile, fragments: map<FragmentKey, seq<Row>>, config: string,
                           start: nat, end: nat, workers: nat, w: nat)
    requires workers > 0 && start <= end
  {
    && ValidFile(f, start, end, workers, w)
    && forall i :: 0 <= i < |f.rows| ==>
         FragmentMatches(f.rows[i], fragments) && f.rows[i].config == config
             && f.rows[i].gameId.game.seed == f.rows[i].seed
  }

  lemma WorkerIsAccepted(spec: WorkerSpec, past: History, ordered: seq<GameSpec>, start: nat, workers: nat,
                         fragments: map<FragmentKey, seq<Row>>)
    requires Dealt(spec, ordered, start, workers) && Lawful(spec, past) && FinishedInOrder(spec, past)
    requires forall id :: id in past.disk.fragments ==>
               && (spec.worker, id.game.seed, id) in fragments
               && fragments[(spec.worker, id.game.seed, id)] == past.disk.fragments[id]
    ensures Accepted(FileOf(past.disk), fragments, spec.config, start, start + |ordered|, workers, spec.worker)
  {
    hide FinishedInOrder, ValidFile, Ordered, NeverReplayed, FragmentMatches;
    FileIsValid(spec, past, ordered, start, workers);
    var rows := past.disk.receipts;
    forall i | 0 <= i < |rows|
      ensures FragmentMatches(rows[i], fragments)
      ensures rows[i].config == spec.config && rows[i].gameId.game.seed == rows[i].seed
    {
      FragmentIsAccepted(spec, past.disk, rows[i], fragments);
    }
  }

  lemma AcceptedIsCovering(files: seq<ReceiptFile>, fragments: map<FragmentKey, seq<Row>>, config: string,
                           start: nat, end: nat)
    requires AllAccepted(files, fragments, config, start, end)
    ensures Covering(files, start, end)
  {
    forall w | 0 <= w < |files| ensures ValidFile(files[w], start, end, |files|, w) {
      assert Accepted(files[w], fragments, config, start, end, |files|, w);
    }
  }

  lemma DistinctSeedsAreDistinctGames(all: seq<Receipt>, config: string)
    requires forall r :: r in all ==> r.config == config && r.gameId.game.seed == r.seed
    requires forall i, j :: 0 <= i < j < |all| ==> all[i].seed != all[j].seed
    ensures OneGeneration(all)
  {
    forall i, j | 0 <= i < j < |all|
      ensures all[i].gameId != all[j].gameId && all[i].config == all[j].config
    {
      assert all[i] in all && all[j] in all;
    }
  }

  lemma ReceiptIsMatched(files: seq<ReceiptFile>, fragments: map<FragmentKey, seq<Row>>, config: string,
                         start: nat, end: nat, seed: nat)
    requires Covering(files, start, end) && start <= seed < end
    requires AllAccepted(files, fragments, config, start, end)
    ensures FragmentMatches(ReceiptOf(files, start, end, seed), fragments)
  {
    CoveringHasSeed(files, start, end, seed);
    var w := (seed - start) % |files|;
    assert Accepted(files[w], fragments, config, start, end, |files|, w);
  }

  lemma AcceptedIsReconcilable(files: seq<ReceiptFile>, fragments: map<FragmentKey, seq<Row>>, config: string,
                               start: nat, end: nat)
    requires AllAccepted(files, fragments, config, start, end)
    ensures Reconcilable(files, fragments, start, end)
  {
    ReceiptsAreOneGeneration(files, config);
    AcceptedIsCovering(files, fragments, config, start, end);
    SeedsAppearOnce(files, start, end, |files|);
    DistinctSeedsAreDistinctGames(AllReceipts(files), config);
    var receipts := ReceiptsInOrder(files, start, end);
    forall k | 0 <= k < |receipts| ensures FragmentMatches(receipts[k], fragments) {
      ReceiptIsMatched(files, fragments, config, start, end, start + k);
    }
  }

  /** Each worker's past is one that crashes and restarts can leave. */
  ghost predicate AllLawful(config: string, games: seq<GameSpec>, workers: nat, pasts: seq<History>) {
    && |pasts| == workers
    && forall w {:trigger SpecOf(config, games, workers, w)} ::
         0 <= w < workers ==> Lawful(SpecOf(config, games, workers, w), pasts[w])
  }

  /** Every worker finished its share of the games in order. */
  ghost predicate AllFinished(config: string, games: seq<GameSpec>, workers: nat, pasts: seq<History>) {
    && |pasts| == workers
    && forall w {:trigger SpecOf(config, games, workers, w)} ::
         0 <= w < workers ==> FinishedInOrder(SpecOf(config, games, workers, w), pasts[w])
  }

  function Disks(pasts: seq<History>): seq<Disk> {
    seq(|pasts|, w requires 0 <= w < |pasts| => pasts[w].disk)
  }

  lemma SpecIsDealt(config: string, games: seq<GameSpec>, start: nat, workers: nat, w: nat)
    requires w < workers <= |games| && Contiguous(games, start)
    ensures Dealt(SpecOf(config, games, workers, w), Sort(games), start, workers) && |Sort(games)| == |games|
    ensures SpecOf(config, games, workers, w).Valid()
  {
    ContiguousSeeds(games, start);
    DealtSeedsAreUnique(Sort(games), workers, w);
  }

  lemma CollectedIsAccepted(config: string, games: seq<GameSpec>, start: nat, workers: nat, w: nat,
                            pasts: seq<History>, files: seq<ReceiptFile>, fragments: map<FragmentKey, seq<Row>>)
    requires w < workers <= |games| && Contiguous(games, start)
    requires AllLawful(config, games, workers, pasts) && AllFinished(config, games, workers, pasts)
    requires Collected(Disks(pasts), files, fragments)
    ensures Accepted(files[w], fragments, config, start, start + |games|, workers, w)
  {
    hide Lawful, FinishedInOrder, Accepted, Dealt, Contiguous;
    SpecIsDealt(config, games, start, workers, w);
    assert Disks(pasts)[w] == pasts[w].disk;
    WorkerIsAccepted(SpecOf(config, games, workers, w), pasts[w], Sort(games), start, workers, fragments);
  }

  ghost predicate AllAccepted(files: seq<ReceiptFile>, fragments: map<FragmentKey, seq<Row>>, config: string,
                              start: nat, end: nat) {
    && 0 < |files| <= end - start
    && forall w :: 0 <= w < |files| ==> Accepted(files[w], fragments, config, start, end, |files|, w)
  }

  lemma AllAreAccepted(config: string, games: seq<GameSpec>, start: nat, workers: nat,
                       pasts: seq<History>, files: seq<ReceiptFile>, fragments: map<FragmentKey, seq<Row>>)
    requires 0 < workers <= |games| && Contiguous(games, start)
    requires AllLawful(config, games, workers, pasts) && AllFinished(config, games, workers, pasts)
    requires Collected(Disks(pasts), files, fragments)
    ensures AllAccepted(files, fragments, config, start, start + |games|)
  {
    hide AllFinished, Accepted, Lawful;
    forall w | 0 <= w < workers ensures Accepted(files[w], fragments, config, start, start + |games|, workers, w) {
      CollectedIsAccepted(config, games, start, workers, w, pasts, files, fragments);
    }
  }

  lemma ReconcilableIsFinished(config: string, games: seq<GameSpec>, start: nat, workers: nat, w: nat,
                               pasts: seq<History>, files: seq<ReceiptFile>, fragments: map<FragmentKey, seq<Row>>)
    requires w < workers <= |games| && Contiguous(games, start)
    requires AllLawful(config, games, workers, pasts)
    requires Collected(Disks(pasts), files, fragments)
    requires Reconcilable(files, fragments, start, start + |games|)
    ensures FinishedInOrder(SpecOf(config, games, workers, w), pasts[w])
  {
    hide Lawful, FinishedInOrder, Dealt, Contiguous, ValidFile;
    SpecIsDealt(config, games, start, workers, w);
    assert Disks(pasts)[w] == pasts[w].disk && files[w] == FileOf(pasts[w].disk);
    FileIsValid(SpecOf(config, games, workers, w), pasts[w], Sort(games), start, workers);
  }

  /** What workers leave can be reconciled if and only if each of them finished in order. */
  lemma FinishedReconcile(config: string, games: seq<GameSpec>, start: nat, workers: nat,
                          pasts: seq<History>, files: seq<ReceiptFile>, fragments: map<FragmentKey, seq<Row>>)
    requires 0 < workers <= |games| && Contiguous(games, start)
    requires AllLawful(config, games, workers, pasts)
    requires Collected(Disks(pasts), files, fragments)
    ensures Reconcilable(files, fragments, start, start + |games|) <==> AllFinished(config, games, workers, pasts)
  {
    hide Reconcilable, FinishedInOrder, Collected, Lawful;
    if AllFinished(config, games, workers, pasts) {
      AllAreAccepted(config, games, start, workers, pasts, files, fragments);
      AcceptedIsReconcilable(files, fragments, config, start, start + |games|);
    }
    if Reconcilable(files, fragments, start, start + |games|) {
      forall w | 0 <= w < workers ensures FinishedInOrder(SpecOf(config, games, workers, w), pasts[w]) {
        ReconcilableIsFinished(config, games, start, workers, w, pasts, files, fragments);
      }
    }
  }

  /** What each worker's lifetimes leave. */
  ghost function Pasts(config: string, games: seq<GameSpec>, workers: nat, lives: seq<seq<Life>>): (r: seq<History>)
    requires 0 < workers == |lives|
    ensures |r| == workers
  {
    seq(workers, w requires 0 <= w < workers => AfterLives(SpecOf(config, games, workers, w), FRESH, lives[w]).past)
  }

  /** The worker's lifetimes receipted every game, left no torn row, and in none of them was a
      game completed after an earlier one was censored. */
  ghost predicate CompletesInOrder(spec: WorkerSpec, lives: seq<Life>) {
    var disk := AfterLives(spec, FRESH, lives).past.disk;
    !disk.torn && EveryGameReceipted(spec, disk) && !EverOvertakes(spec, lives)
  }

  lemma HistoryIsLawful(spec: WorkerSpec, lives: seq<Life>)
    requires spec.Valid()
    ensures Lawful(spec, AfterLives(spec, FRESH, lives).past)
    ensures FinishedInOrder(spec, AfterLives(spec, FRESH, lives).past) <==> CompletesInOrder(spec, lives)
  {
    FreshIsLawful(spec);
    HistoryIsKept(spec, FRESH, lives, 0);
    OvertakenIffEver(spec, lives);
  }

  /** Whatever crashed on the way: the reconciliation of a contiguous seed range succeeds if and
      only if every worker receipted all its games, left no torn row, and never completed a
      game in a run that had censored an earlier one. */
  lemma WorkersReconcile(config: string, games: seq<GameSpec>, start: nat, workers: nat, lives: seq<seq<Life>>,
                         files: seq<ReceiptFile>, fragments: map<FragmentKey, seq<Row>>)
    requires 0 < workers <= |games| && Contiguous(games, start) && |lives| == workers
    requires Collected(Disks(Pasts(config, games, workers, lives)), files, fragments)
    ensures Reconcilable(files, fragments, start, start + |games|) <==>
              forall w {:trigger SpecOf(config, games, workers, w)} ::
                0 <= w < workers ==> CompletesInOrder(SpecOf(config, games, workers, w), lives[w])
  {
    hide Reconcilable, FinishedInOrder, CompletesInOrder, Collected, Lawful, Contiguous;
    var pasts := Pasts(config, games, workers, lives);
    forall w {:trigger SpecOf(config, games, workers, w)} | 0 <= w < workers
      ensures Lawful(SpecOf(config, games, workers, w), pasts[w])
      ensures FinishedInOrder(SpecOf(config, games, workers, w), pasts[w]) <==>
                CompletesInOrder(SpecOf(config, games, workers, w), lives[w])
    {
      SpecIsDealt(config, games, start, workers, w);
      HistoryIsLawful(SpecOf(config, games, workers, w), lives[w]);
    }
    FinishedReconcile(config, games, start, workers, pasts, files, fragments);
  }

  /** The games of the example, its two lifetimes, and the worker they belong to. */
  function WinningPlay(body: string): Play {
    Completed([body], None, None, 1, Durable)
  }

  function CensorsFirst(body: string): Life {
    Life([], [Censored, WinningPlay(body)])
  }

  function CompletesBoth(body: string): Life {
    Life([], [WinningPlay(body), WinningPlay(body)])
  }

  lemma OneWorkerHasBoth(config: string, first: GameSpec, second: GameSpec)
    requires second.seed == first.seed + 1
    ensures SpecOf(config, [first, second], 1, 0).games == [first, second]
    ensures Contiguous([first, second], first.seed)
  {
    var games := [first, second];
    assert games[..1] == [first];
    assert Sort([first]) == [first] by {
      assert [first][..0] == [];
    }
    assert Insert(second, [first]) == [first] + Insert(second, []);
    assert Sort(games) == games;
    assert RoundRobin([first], 1, 0) == [first] by {
      assert [first][..0] == [];
    }
    assert RoundRobin(games, 1, 0) == games;
  }

  lemma FirstLifeOvertakes(spec: WorkerSpec, body: string)
    requires spec.Valid() && |spec.games| == 2
    ensures AfterRun(spec, FRESH, CensorsFirst(body)).alive && RunOvertakes(spec, FRESH.disk, CensorsFirst(body))
  {
    var life := CensorsFirst(body);
    FreshIsLawful(spec);
    RunFinishesIff(spec, FRESH, life);
    assert Finishes(spec, FRESH.disk, life);
    assert OvertakesAt(Unpublished(spec, FRESH.disk), life.plays, 0, 1);
  }

  lemma SecondLifeCompletes(spec: WorkerSpec, past: History, body: string)
    requires Lawful(spec, past) && |spec.games| == 2 && AllReceipted(past.disk)
    ensures var r := AfterRun(spec, past, CompletesBoth(body));
            r.alive && !r.past.disk.torn && EveryGameReceipted(spec, r.past.disk)
  {
    var life := CompletesBoth(body);
    RunFinishesIff(spec, past, life);
    assert Adopts(spec, past.disk, life.writes, 2);
    assert Survives(Unpublished(spec, past.disk), life.plays, 2);
    RunKeepsLawful(spec, past, life);
    forall i | 0 <= i < 2 ensures Receipted(AfterRun(spec, past, life).past.disk, spec.Id(i)) {
      FinishedRunReceipts(spec, past, life, i);
    }
  }

  lemma BothLives(spec: WorkerSpec, body: string)
    requires spec.Valid() && |spec.games| == 2
    ensures var lives := [CensorsFirst(body), CompletesBoth(body)];
            var r := AfterLives(spec, FRESH, lives);
            r.alive && !r.past.disk.torn && EveryGameReceipted(spec, r.past.disk) && EverOvertakes(spec, lives)
  {
    hide Lawful, AfterRun, EveryGameReceipted, RunOvertakes, CensorsFirst, CompletesBoth, AllReceipted, Continues;
    var lives := [CensorsFirst(body), CompletesBoth(body)];
    FreshIsLawful(spec);
    FirstLifeOvertakes(spec, body);
    RunKeepsLawful(spec, FRESH, lives[0]);
    assert lives[..0] == [] && lives[..1] == [lives[0]] && lives[..1][..0] == [];
    assert AfterLives(spec, FRESH, lives[..0]).past == FRESH;
    assert AfterLives(spec, FRESH, lives[..1]) == AfterRun(spec, FRESH, lives[0]);
    SecondLifeCompletes(spec, AfterLives(spec, FRESH, lives[..1]).past, body);
    assert RunOvertakes(spec, AfterLives(spec, FRESH, lives[..0]).past.disk, lives[0]);
  }

  /** The rejection is real: one run censors the first game and completes the second, the next
      completes the first.  Every game then has its receipt, both runs have finished, and
      the reconciler rejects whatever is collected from the worker. */
  lemma CensoredThenCompleted(config: string, first: GameSpec, second: GameSpec, body: string,
                              files: seq<ReceiptFile>, fragments: map<FragmentKey, seq<Row>>)
    requires second.seed == first.seed + 1
    requires var spec := SpecOf(config, [first, second], 1, 0);
             Collected([AfterLives(spec, FRESH, [CensorsFirst(body), CompletesBoth(body)]).past.disk], files, fragments)
    ensures var spec := SpecOf(config, [first, second], 1, 0);
            var r := AfterLives(spec, FRESH, [CensorsFirst(body), CompletesBoth(body)]);
            r.alive && !r.past.disk.torn && EveryGameReceipted(spec, r.past.disk)
    ensures !Reconcilable(files, fragments, first.seed, first.seed + 2)
  {
    hide Collected, Reconcilable, EveryGameReceipted, SpecOf, Contiguous, AfterLives, EverOvertakes, Dealt,
      CensorsFirst, CompletesBoth;
    var games, lives := [first, second], [CensorsFirst(body), CompletesBoth(body)];
    var spec := SpecOf(config, games, 1, 0);
    OneWorkerHasBoth(config, first, second);
    SpecIsDealt(config, games, first.seed, 1, 0);
    BothLives(spec, body);
    var pasts := Pasts(config, games, 1, [lives]);
    assert Disks(pasts) == [AfterLives(spec, FRESH, lives).past.disk];
    WorkersReconcile(config, games, first.seed, 1, [lives], files, fragments);
    assert !CompletesInOrder(SpecOf(config, games, 1, 0), [lives][0]);
  }

  /** A decision's identity, as its digest binds it. */
  function DecisionKey(row: Row): (GameId, nat, nat) {
    (row.gameId, row.seed, row.index)
  }

  ghost predicate NamedBy(receipts: seq<Receipt>, id: GameId) {
    exists k :: 0 <= k < |receipts| && receipts[k].gameId == id
  }

  ghost predicate AllNamed(receipts: seq<Receipt>, rows: seq<Row>) {
    forall i :: 0 <= i < |rows| ==> NamedBy(receipts, rows[i].gameId)
  }

  ghost predicate UniqueDecisions(rows: seq<Row>) {
    forall i, j :: 0 <= i < j < |rows| ==> DecisionKey(rows[i]) != DecisionKey(rows[j])
  }

  lemma NamedByMore(receipts: seq<Receipt>, n: nat, id: GameId)
    requires n <= |receipts| && NamedBy(receipts[..n], id)
    ensures exists k :: 0 <= k < n && receipts[k].gameId == id
    ensures NamedBy(receipts, id)
  {
    var k :| 0 <= k < n && receipts[..n][k].gameId == id;
    assert receipts[k].gameId == id;
  }

  lemma UniqueAppend(before: seq<Row>, rows: seq<Row>, id: GameId)
    requires UniqueDecisions(before)
    requires forall i :: 0 <= i < |before| ==> before[i].gameId != id
    requires forall i :: 0 <= i < |rows| ==> rows[i].gameId == id && rows[i].index == i
    ensures UniqueDecisions(before + rows)
  {
    var out := before + rows;
    forall i, j | 0 <= i < j < |out| ensures DecisionKey(out[i]) != DecisionKey(out[j]) {
      if |before| <= j {
        assert out[j] == rows[j - |before|];
        if |before| <= i {
          assert out[i] == rows[i - |before|];
        }
      }
    }
  }

  /** No decision appears twice in an accepted aggregate, so the reconciler's table of
      seen decisions never rejects what the other checks accept. */
  lemma {:induction false} DecisionsAreUnique(receipts: seq<Receipt>, fragments: map<FragmentKey, seq<Row>>)
    requires forall j :: 0 <= j < |receipts| ==> FragmentMatches(receipts[j], fragments)
    requires forall i, j :: 0 <= i < j < |receipts| ==> receipts[i].gameId != receipts[j].gameId
    ensures UniqueDecisions(Concatenated(receipts, fragments))
    ensures AllNamed(receipts, Concatenated(receipts, fragments))
  {
    if receipts != [] {
      var n := |receipts| - 1;
      var before, rows := Concatenated(receipts[..n], fragments), fragments[KeyOf(receipts[n])];
      DecisionsAreUnique(receipts[..n], fragments);
      forall i | 0 <= i < |before|
        ensures NamedBy(receipts, before[i].gameId) && before[i].gameId != receipts[n].gameId
      {
        NamedByMore(receipts, n, before[i].gameId);
      }
      forall i | 0 <= i < |rows| ensures rows[i].gameId == receipts[n].gameId && rows[i].index == i {
        assert RowMatches(receipts[n], rows[i], i);
      }
      assert NamedBy(receipts, receipts[n].gameId);
      UniqueAppend(before, rows, receipts[n].gameId);
    }
  }
}

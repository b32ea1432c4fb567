/** Crash-resumable self-play: a worker publishes each game's fragment first and
    appends its receipt second; a restart adopts fragments without receipts. */
module SelfPlay {
  import opened Common

  datatype GameSpec = GameSpec(seed: nat, scope: string)

  // SHA-256 identities are free constructors: equal digests have equal contents.

  datatype GameId = GameId(config: string, game: GameSpec)

  datatype WorkerConfig = WorkerConfig(worker: nat, config: string, games: seq<GameId>)

  datatype Digest = Digest(rows: seq<Row>)

  /** One decision of a published game; scope stands for map, game type and compositions. */
  datatype Row = Row(gameId: GameId, seed: nat, scope: string, config: string, index: nat,
                     winner: Option<string>, body: string)

  datatype Receipt = Receipt(worker: nat, workerConfig: WorkerConfig, config: string, gameId: GameId, seed: nat,
                             digest: Digest, rowCount: nat, winner: Option<string>, steps: Option<nat>)

  datatype WorkerSpec = WorkerSpec(worker: nat, config: string, games: seq<GameSpec>) {
    function Id(i: nat): GameId
      requires i < |games|
    {
      GameId(config, games[i])
    }

    function Ids(): seq<GameId> {
      seq(|games|, i requires 0 <= i < |games| => Id(i))
    }

    function ConfigId(): WorkerConfig {
      WorkerConfig(worker, config, Ids())
    }

    ghost predicate Valid() {
      forall i, j :: 0 <= i < j < |games| ==> games[i].seed != games[j].seed
    }

    ghost predicate Assigned(id: GameId) {
      exists i :: 0 <= i < |games| && Id(i) == id
    }
  }

  /** The worker's files: published fragments, complete receipt rows, and whether a
      partial receipt row follows them. */
  datatype Disk = Disk(fragments: map<GameId, seq<Row>>, receipts: seq<Receipt>, torn: bool)

  /** What the recorder publishes for a game. */
  function Recording(id: GameId, bodies: seq<string>, winner: Option<string>): seq<Row> {
    seq(|bodies|, i requires 0 <= i < |bodies| =>
      Row(id, id.game.seed, id.game.scope, id.config, i, winner, bodies[i]))
  }

  /** The dataset checks on one fragment: the assigned game's identity on every row,
      indexes from zero, one winner, at least one row. */
  predicate ValidFragment(id: GameId, rows: seq<Row>) {
    rows != [] && forall i :: 0 <= i < |rows| ==> RowOfGame(id, rows[i], i, rows[0].winner)
  }

  predicate RowOfGame(id: GameId, row: Row, i: nat, winner: Option<string>) {
    && row.gameId == id && row.seed == id.game.seed && row.scope == id.game.scope && row.config == id.config
    && row.index == i && row.winner == winner
  }

  function ReceiptFor(spec: WorkerSpec, id: GameId, rows: seq<Row>, steps: Option<nat>): Receipt
    requires rows != []
  {
    Receipt(spec.worker, spec.ConfigId(), spec.config, id, id.game.seed, Digest(rows), |rows|, rows[0].winner, steps)
  }

  /** The receipt agrees with the fragment it stands for. */
  predicate Backs(spec: WorkerSpec, fragments: map<GameId, seq<Row>>, r: Receipt) {
    && r.gameId in fragments
    && fragments[r.gameId] != []
    && r == ReceiptFor(spec, r.gameId, fragments[r.gameId], r.steps)
  }

  ghost predicate Receipted(disk: Disk, id: GameId) {
    exists p :: 0 <= p < |disk.receipts| && disk.receipts[p].gameId == id
  }

  /** What every crash must leave behind. */
  ghost predicate Sound(spec: WorkerSpec, disk: Disk) {
    && (forall id :: id in disk.fragments ==> spec.Assigned(id) && ValidFragment(id, disk.fragments[id]))
    && (forall p :: 0 <= p < |disk.receipts| ==> Backs(spec, disk.fragments, disk.receipts[p]))
    && (forall p, q :: 0 <= p < q < |disk.receipts| ==> disk.receipts[p].gameId != disk.receipts[q].gameId)
  }

  // Completion order

  /** The first n games are published and the first |receipts| of them receipted, in order. */
  ghost predicate InOrder(spec: WorkerSpec, disk: Disk, n: nat) {
    && |disk.receipts| <= n <= |spec.games| && n <= |disk.receipts| + 1
    && (forall p :: 0 <= p < |disk.receipts| ==> disk.receipts[p].gameId == spec.Id(p))
    && (forall i :: 0 <= i < |spec.games| ==> (spec.Id(i) in disk.fragments <==> i < n))
  }

  ghost predicate Before(disk: Disk, first: GameId, second: GameId) {
    exists p, q :: 0 <= p < q < |disk.receipts| && disk.receipts[p].gameId == first && disk.receipts[q].gameId == second
  }

  /** Game k was published while the earlier game j was not, and its receipt cannot
      come after j's any more. */
  ghost predicate Overtook(spec: WorkerSpec, disk: Disk, j: nat, k: nat) {
    && j < k < |spec.games| && spec.Id(k) in disk.fragments
    && (Receipted(disk, spec.Id(j)) ==> Before(disk, spec.Id(k), spec.Id(j)))
    && (spec.Id(j) in disk.fragments ==> Receipted(disk, spec.Id(k)))
  }

  ghost predicate Ordered(spec: WorkerSpec, disk: Disk, overtaken: bool) {
    if overtaken then exists j, k :: Overtook(spec, disk, j, k) else exists n :: InOrder(spec, disk, n)
  }

  // Effects on disk

  /** A row appended to the receipt file. */
  function Appended(disk: Disk, r: Receipt): Disk {
    disk.(receipts := disk.receipts + [r])
  }

  function Published(disk: Disk, id: GameId, rows: seq<Row>): Disk {
    disk.(fragments := disk.fragments[id := rows])
  }

  /** Nothing published or receipted is lost or altered. */
  ghost predicate Extends(later: Disk, earlier: Disk) {
    && earlier.receipts <= later.receipts
    && forall id :: id in earlier.fragments ==> id in later.fragments && later.fragments[id] == earlier.fragments[id]
  }

  lemma ExtendsReflexive(disk: Disk)
    ensures Extends(disk, disk)
  {
  }

  lemma ExtendsTransitive(c: Disk, b: Disk, a: Disk)
    requires Extends(c, b) && Extends(b, a)
    ensures Extends(c, a)
  {
  }

  lemma IdsAreDistinct(spec: WorkerSpec, i: nat, j: nat)
    requires spec.Valid() && i < |spec.games| && j < |spec.games| && spec.Id(i) == spec.Id(j)
    ensures i == j
  {
  }

  /** A receipt for a published, unreceipted game keeps everything sound. */
  lemma AppendKeepsSound(spec: WorkerSpec, disk: Disk, r: Receipt)
    requires Sound(spec, disk) && Backs(spec, disk.fragments, r) && !Receipted(disk, r.gameId)
    ensures Sound(spec, Appended(disk, r))
    ensures forall id :: Receipted(Appended(disk, r), id) <==> Receipted(disk, id) || id == r.gameId
  {
    ReceiptedSnoc(disk, r);
    assert forall p :: 0 <= p < |disk.receipts| ==> Receipted(disk, disk.receipts[p].gameId);
  }

  lemma PublishKeepsSound(spec: WorkerSpec, disk: Disk, id: GameId, rows: seq<Row>)
    requires Sound(spec, disk) && spec.Assigned(id) && ValidFragment(id, rows) && id !in disk.fragments
    ensures Sound(spec, Published(disk, id, rows))
  {
  }

  lemma AppendKeepsOvertook(spec: WorkerSpec, disk: Disk, r: Receipt, j: nat, k: nat)
    requires spec.Valid() && Sound(spec, disk) && Overtook(spec, disk, j, k)
    requires Backs(spec, disk.fragments, r) && !Receipted(disk, r.gameId)
    ensures Overtook(spec, Appended(disk, r), j, k)
  {
    var now := Appended(disk, r);
    AppendKeepsSound(spec, disk, r);
    if Receipted(disk, spec.Id(j)) {
      var p, q :| 0 <= p < q < |disk.receipts| && disk.receipts[p].gameId == spec.Id(k)
          && disk.receipts[q].gameId == spec.Id(j);
      assert now.receipts[p].gameId == spec.Id(k) && now.receipts[q].gameId == spec.Id(j);
    } else if r.gameId == spec.Id(j) {
      var p :| 0 <= p < |disk.receipts| && disk.receipts[p].gameId == spec.Id(k);
      assert now.receipts[p].gameId == spec.Id(k) && now.receipts[|disk.receipts|] == r;
    }
  }

  /** Publishing keeps an overtaking on record as long as the overtaker has its receipt. */
  lemma PublishKeepsOvertook(spec: WorkerSpec, disk: Disk, id: GameId, rows: seq<Row>, j: nat, k: nat)
    requires Overtook(spec, disk, j, k) && id !in disk.fragments && Receipted(disk, spec.Id(k))
    ensures Overtook(spec, Published(disk, id, rows), j, k)
  {
    var now := Published(disk, id, rows);
    assert forall x :: Receipted(now, x) <==> Receipted(disk, x);
    assert Before(now, spec.Id(k), spec.Id(j)) <==> Before(disk, spec.Id(k), spec.Id(j));
  }

  /** A receipt write, complete or not, keeps the directory sound and its order on record. */
  lemma WriteKeepsOrder(spec: WorkerSpec, disk: Disk, r: Receipt, write: Write, overtaken: bool)
    requires spec.Valid() && Sound(spec, disk) && Ordered(spec, disk, overtaken)
    requires Backs(spec, disk.fragments, r) && !Receipted(disk, r.gameId)
    requires !overtaken ==> |disk.receipts| < |spec.games| && r.gameId == spec.Id(|disk.receipts|)
                            && InOrder(spec, disk, |disk.receipts| + 1)
    ensures var now := Written(disk, r, write);
            && Sound(spec, now) && Ordered(spec, now, overtaken) && Extends(now, disk)
            && (write.Durable? ==> forall id :: Receipted(now, id) <==> Receipted(disk, id) || id == r.gameId)
  {
    AppendKeepsSound(spec, disk, r);
    var torn := disk.(torn := true);
    SameReceipts(disk, torn);
    if overtaken {
      var j, k :| Overtook(spec, disk, j, k);
      AppendKeepsOvertook(spec, disk, r, j, k);
      assert Overtook(spec, torn, j, k);
    } else {
      assert InOrder(spec, Appended(disk, r), |disk.receipts| + 1);
      assert InOrder(spec, torn, |disk.receipts| + 1);
    }
  }

  // What one run does

  /** What happens to one receipt write: nothing reaches the file, part of the row
      does, or all of it does.  The first two are crashes. */
  datatype Write = Lost | Torn | Durable

  /** What happens to one game: it is censored and dropped, the process dies or raises
      before publishing, or its fragment is published and the receipt write follows. */
  datatype Play =
    | Censored
    | Interrupted
    | Completed(bodies: seq<string>, winner: Option<string>, resultWinner: Option<string>, steps: nat, write: Write)

  datatype Fate = Dropped | Dead | Kept

  datatype Outcome = Crashed | Finished

  /** One process lifetime: the fates of its receipt writes on restart and of its games. */
  datatype Life = Life(writes: seq<Write>, plays: seq<Play>)

  function WriteAt(writes: seq<Write>, i: nat): Write {
    if i < |writes| then writes[i] else Durable
  }

  function PlayAt(plays: seq<Play>, i: nat): Play {
    if i < |plays| then plays[i] else Interrupted
  }

  /** Writes and plays meet the fates given for them; further writes succeed, further games do not end. */
  lemma FatesAreGiven(writes: seq<Write>, plays: seq<Play>, i: nat)
    ensures i < |writes| ==> WriteAt(writes, i) == writes[i]
    ensures i < |plays| ==> PlayAt(plays, i) == plays[i]
    ensures i >= |writes| ==> WriteAt(writes, i) == Durable
    ensures i >= |plays| ==> PlayAt(plays, i) == Interrupted
  {
  }

  /** The game ran to its end and its recording agrees with the result: the fragment stays. */
  predicate Publishes(play: Play) {
    play.Completed? && play.bodies != [] && play.resultWinner == play.winner
  }

  function FateOf(play: Play): Fate {
    if play.Censored? then Dropped else if Publishes(play) && play.write.Durable? then Kept else Dead
  }

  /** The files after one receipt write. */
  function Written(disk: Disk, r: Receipt, write: Write): Disk {
    match write
    case Lost => disk
    case Torn => disk.(torn := true)
    case Durable => Appended(disk, r)
  }

  /** The files after one game was played. */
  function AfterPlay(spec: WorkerSpec, disk: Disk, id: GameId, play: Play): Disk {
    if !Publishes(play) then disk
    else
      var rows := Recording(id, play.bodies, play.winner);
      Written(Published(disk, id, rows), ReceiptFor(spec, id, rows, Some(play.steps)), play.write)
  }

  /** A worker's past: its files, every game it ever started, how many starts had been made
      when a game was published, and whether some run completed a game after censoring
      an earlier one. */
  datatype History = History(disk: Disk, started: seq<GameId>, published: map<GameId, nat>, overtaken: bool)

  /** A run in progress: whether it is alive and whether it has censored a game. */
  datatype Running = Running(past: History, alive: bool, skipped: bool)

  const FRESH := History(Disk(map[], [], false), [], map[], false)

  /** The restart's look at game i: a fragment without a receipt is adopted. */
  ghost function AfterAdopting(spec: WorkerSpec, r: Running, i: nat, write: Write): Running
    requires i < |spec.games|
  {
    var id, disk := spec.Id(i), r.past.disk;
    if !r.alive || id !in disk.fragments || disk.fragments[id] == [] || Receipted(disk, id) then r
    else
      var receipt := ReceiptFor(spec, id, disk.fragments[id], None);
      Running(r.past.(disk := Written(disk, receipt, write)), write.Durable?, r.skipped)
  }

  ghost function AfterReconciling(spec: WorkerSpec, r: Running, writes: seq<Write>, n: nat): Running
    requires n <= |spec.games|
  {
    if n == 0 then r
    else AfterAdopting(spec, AfterReconciling(spec, r, writes, n - 1), n - 1, WriteAt(writes, n - 1))
  }

  /** The past after game id was started and met its fate. */
  function AfterStart(spec: WorkerSpec, past: History, skipped: bool, id: GameId, play: Play): History {
    History(AfterPlay(spec, past.disk, id, play),
            past.started + [id],
            if Publishes(play) then past.published[id := |past.started| + 1] else past.published,
            past.overtaken || (skipped && Publishes(play)))
  }

  /** Game i's turn: played unless the run is dead or start has its receipt. */
  ghost function AfterTurn(spec: WorkerSpec, start: Disk, r: Running, i: nat, play: Play): Running
    requires i < |spec.games|
  {
    var id, past := spec.Id(i), r.past;
    if !r.alive || Receipted(start, id) then r
    else
      Running(AfterStart(spec, past, r.skipped, id, play), !FateOf(play).Dead?, r.skipped || play.Censored?)
  }

  ghost function AfterTurns(spec: WorkerSpec, start: Disk, r: Running, plays: seq<Play>, n: nat): Running
    requires n <= |spec.games|
  {
    if n == 0 then r
    else AfterTurn(spec, start, AfterTurns(spec, start, r, plays, n - 1), n - 1, PlayAt(plays, n - 1))
  }

  function Repaired(past: History): Running {
    Running(past.(disk := past.disk.(torn := false)), true, false)
  }

  ghost function Restarted(spec: WorkerSpec, past: History, writes: seq<Write>): Running {
    AfterReconciling(spec, Repaired(past), writes, |spec.games|)
  }

  /** One lifetime: repair the receipt file, adopt, then play the pending games. */
  ghost function AfterRun(spec: WorkerSpec, past: History, life: Life): Running {
    var r := Restarted(spec, past, life.writes);
    AfterTurns(spec, r.past.disk, r, life.plays, |spec.games|)
  }

  /** Any number of lifetimes, each ending anywhere. */
  ghost function AfterLives(spec: WorkerSpec, past: History, lives: seq<Life>): Running {
    if lives == [] then Running(past, false, false)
    else
      var n := |lives| - 1;
      AfterRun(spec, AfterLives(spec, past, lives[..n]).past, lives[n])
  }

  // What every step keeps

  /** Game id was published when n games had been started, its own start the last of them,
      and was never started again. */
  ghost predicate StartedLastBy(started: seq<GameId>, id: GameId, n: nat) {
    0 < n <= |started| && started[n - 1] == id && forall t :: n <= t < |started| ==> started[t] != id
  }

  ghost predicate NeverReplayed(past: History) {
    && past.published.Keys == past.disk.fragments.Keys
    && forall id :: id in past.published ==> StartedLastBy(past.started, id, past.published[id])
  }

  /** What holds of a worker's past whatever crashed. */
  ghost predicate Lawful(spec: WorkerSpec, past: History) {
    spec.Valid() && Sound(spec, past.disk) && Ordered(spec, past.disk, past.overtaken) && NeverReplayed(past)
  }

  /** later continues earlier: nothing published or receipted is lost or altered, and no game
      published by then has been started since. */
  ghost predicate Continues(later: History, earlier: History) {
    && Extends(later.disk, earlier.disk)
    && earlier.started <= later.started
    && (forall t :: |earlier.started| <= t < |later.started| ==> later.started[t] !in earlier.disk.fragments)
    && (forall id :: id in earlier.published ==> id in later.published && later.published[id] == earlier.published[id])
    && (forall id :: id in later.published && id !in earlier.published ==> later.published[id] > |earlier.started|)
    && (earlier.overtaken ==> later.overtaken)
  }

  lemma ContinuesReflexive(past: History)
    ensures Continues(past, past)
  {
  }

  lemma ContinuesTransitive(c: History, b: History, a: History)
    requires Continues(c, b) && Continues(b, a)
    ensures Continues(c, a)
  {
    ExtendsTransitive(c.disk, b.disk, a.disk);
    forall t | |a.started| <= t < |c.started| ensures c.started[t] !in a.disk.fragments {
      assert t < |b.started| ==> c.started[t] == b.started[t];
    }
  }

  ghost predicate AllReceipted(disk: Disk) {
    forall id :: id in disk.fragments ==> Receipted(disk, id)
  }

  /** Of the first n games, every published one has its receipt. */
  ghost predicate AdoptedUpTo(spec: WorkerSpec, disk: Disk, n: nat) {
    forall j :: 0 <= j < n && j < |spec.games| && spec.Id(j) in disk.fragments ==> Receipted(disk, spec.Id(j))
  }

  ghost predicate Adopting(spec: WorkerSpec, r: Running, i: nat) {
    Lawful(spec, r.past) && (r.alive ==> !r.past.disk.torn && AdoptedUpTo(spec, r.past.disk, i))
  }

  /** The first unreceipted fragment may be receipted next. */
  lemma CanAdopt(spec: WorkerSpec, disk: Disk, i: nat, overtaken: bool)
    requires spec.Valid() && Sound(spec, disk) && Ordered(spec, disk, overtaken)
    requires i < |spec.games| && AdoptedUpTo(spec, disk, i)
    requires spec.Id(i) in disk.fragments && !Receipted(disk, spec.Id(i))
    ensures disk.fragments[spec.Id(i)] != []
    ensures Backs(spec, disk.fragments, ReceiptFor(spec, spec.Id(i), disk.fragments[spec.Id(i)], None))
    ensures !overtaken ==> i == |disk.receipts| && InOrder(spec, disk, |disk.receipts| + 1)
  {
    assert ValidFragment(spec.Id(i), disk.fragments[spec.Id(i)]);
    if !overtaken {
      AdoptionIsNext(spec, disk, i);
    }
  }

  lemma AdoptingKeepsLawful(spec: WorkerSpec, r: Running, i: nat, write: Write)
    requires i < |spec.games| && Adopting(spec, r, i)
    ensures var next := AfterAdopting(spec, r, i, write);
            Adopting(spec, next, i + 1) && Continues(next.past, r.past)
            && next.past == r.past.(disk := next.past.disk) && next.past.disk.fragments == r.past.disk.fragments
  {
    hide Sound, Ordered, InOrder, NeverReplayed, Continues, Backs;
    var id, disk := spec.Id(i), r.past.disk;
    if r.alive && id in disk.fragments && !Receipted(disk, id) {
      var receipt := AdoptionOf(spec, disk, i, write, r.past.overtaken);
      AdoptionContinues(r.past, Written(disk, receipt, write));
    } else {
      ContinuesReflexive(r.past);
    }
  }

  lemma AdoptionOf(spec: WorkerSpec, disk: Disk, i: nat, write: Write, overtaken: bool) returns (r: Receipt)
    requires spec.Valid() && Sound(spec, disk) && Ordered(spec, disk, overtaken)
    requires i < |spec.games| && AdoptedUpTo(spec, disk, i)
    requires spec.Id(i) in disk.fragments && !Receipted(disk, spec.Id(i))
    ensures disk.fragments[spec.Id(i)] != [] && r == ReceiptFor(spec, spec.Id(i), disk.fragments[spec.Id(i)], None)
    ensures var now := Written(disk, r, write);
            && Sound(spec, now) && Ordered(spec, now, overtaken)
            && Extends(now, disk) && now.fragments == disk.fragments
            && (write.Durable? ==> now.torn == disk.torn && AdoptedUpTo(spec, now, i + 1))
  {
    hide Ordered, InOrder;
    CanAdopt(spec, disk, i, overtaken);
    r := ReceiptFor(spec, spec.Id(i), disk.fragments[spec.Id(i)], None);
    WriteKeepsOrder(spec, disk, r, write, overtaken);
  }

  lemma AdoptionContinues(past: History, disk: Disk)
    requires NeverReplayed(past) && Extends(disk, past.disk) && disk.fragments == past.disk.fragments
    ensures NeverReplayed(past.(disk := disk)) && Continues(past.(disk := disk), past)
  {
  }

  lemma {:induction false} ReconcilingKeepsLawful(spec: WorkerSpec, r: Running, writes: seq<Write>, n: nat)
    requires n <= |spec.games| && Adopting(spec, r, 0)
    ensures var now := AfterReconciling(spec, r, writes, n);
            Adopting(spec, now, n) && Continues(now.past, r.past)
            && now.past == r.past.(disk := now.past.disk) && now.past.disk.fragments == r.past.disk.fragments
  {
    hide Adopting, AfterAdopting, Continues;
    if n == 0 {
      ContinuesReflexive(r.past);
    } else {
      var before := AfterReconciling(spec, r, writes, n - 1);
      ReconcilingKeepsLawful(spec, r, writes, n - 1);
      AdoptingKeepsLawful(spec, before, n - 1, WriteAt(writes, n - 1));
      ContinuesTransitive(AfterReconciling(spec, r, writes, n).past, before.past, r.past);
    }
  }

  lemma AllAdopted(spec: WorkerSpec, disk: Disk)
    requires Sound(spec, disk) && AdoptedUpTo(spec, disk, |spec.games|)
    ensures AllReceipted(disk)
  {
    forall id | id in disk.fragments ensures Receipted(disk, id) {
      var i :| 0 <= i < |spec.games| && spec.Id(i) == id;
    }
  }

  lemma RestartKeepsLawful(spec: WorkerSpec, past: History, writes: seq<Write>)
    requires Lawful(spec, past)
    ensures var r := Restarted(spec, past, writes);
            && Lawful(spec, r.past) && Continues(r.past, past) && r.past == past.(disk := r.past.disk) && !r.skipped
            && r.past.disk.fragments == past.disk.fragments
            && (r.alive ==> !r.past.disk.torn && AllReceipted(r.past.disk))
  {
    var repaired, r := Repaired(past), Restarted(spec, past, writes);
    RepairKeepsOrder(spec, past.disk, repaired.past.disk, past.overtaken);
    ReconcilingKeepsLawful(spec, repaired, writes, |spec.games|);
    ContinuesTransitive(r.past, repaired.past, past);
    ReconcilingSkipsNothing(spec, repaired, writes, |spec.games|);
    if r.alive {
      AllAdopted(spec, r.past.disk);
    }
  }

  lemma {:induction false} ReconcilingSkipsNothing(spec: WorkerSpec, r: Running, writes: seq<Write>, n: nat)
    requires n <= |spec.games|
    ensures AfterReconciling(spec, r, writes, n).skipped == r.skipped
  {
    if n > 0 {
      ReconcilingSkipsNothing(spec, r, writes, n - 1);
    }
  }

  ghost predicate Skips(spec: WorkerSpec, disk: Disk, i: nat) {
    exists c :: 0 <= c < i && c < |spec.games| && !Receipted(disk, spec.Id(c))
  }

  /** A run before game i's turn: later games are receipted only if they were at the start,
      and earlier ones all are unless one was censored. */
  ghost predicate Playing(spec: WorkerSpec, start: Disk, r: Running, i: nat) {
    var disk := r.past.disk;
    && Lawful(spec, r.past)
    && (r.alive ==>
          && !disk.torn && AllReceipted(disk)
          && (forall j :: i <= j < |spec.games| && !Receipted(start, spec.Id(j)) ==> !Receipted(disk, spec.Id(j)))
          && (forall j :: 0 <= j < |spec.games| && Receipted(start, spec.Id(j)) ==> Receipted(disk, spec.Id(j)))
          && (r.skipped <==> Skips(spec, disk, i)))
  }

  lemma RecordingIsValid(disk: Disk, id: GameId, bodies: seq<string>, winner: Option<string>)
    requires bodies != [] && AllReceipted(disk) && !Receipted(disk, id)
    ensures ValidFragment(id, Recording(id, bodies, winner)) && id !in disk.fragments
  {
  }

  lemma PublishedExtends(disk: Disk, later: Disk, id: GameId, rows: seq<Row>)
    requires id !in disk.fragments && Extends(later, Published(disk, id, rows))
    ensures Extends(later, disk)
  {
  }

  /** Publishing game i and writing its receipt keeps the directory sound and its order on record. */
  lemma CompletionKeepsOrder(spec: WorkerSpec, disk: Disk, i: nat, play: Play, overtaken: bool, skipped: bool)
    requires spec.Valid() && Sound(spec, disk) && AllReceipted(disk) && Ordered(spec, disk, overtaken) && !disk.torn
    requires i < |spec.games| && !Receipted(disk, spec.Id(i)) && (skipped <==> Skips(spec, disk, i)) && Publishes(play)
    ensures var now := AfterPlay(spec, disk, spec.Id(i), play);
            && Sound(spec, now) && Ordered(spec, now, overtaken || skipped) && Extends(now, disk)
            && now.fragments.Keys == disk.fragments.Keys + {spec.Id(i)}
            && (play.write.Durable? ==> forall x :: Receipted(now, x) <==> Receipted(disk, x) || x == spec.Id(i))
  {
    hide Ordered, InOrder, Skips, ValidFragment, Extends;
    var id := spec.Id(i);
    var rows := Recording(id, play.bodies, play.winner);
    var published, receipt := Published(disk, id, rows), ReceiptFor(spec, id, rows, Some(play.steps));
    RecordingIsValid(disk, id, play.bodies, play.winner);
    PublishKeepsSound(spec, disk, id, rows);
    PublishKeepsOrder(spec, disk, i, rows, overtaken, skipped);
    SameReceipts(disk, published);
    WriteKeepsOrder(spec, published, receipt, play.write, overtaken || skipped);
    PublishedExtends(disk, AfterPlay(spec, disk, id, play), id, rows);
  }

  lemma StartContinues(spec: WorkerSpec, past: History, skipped: bool, id: GameId, play: Play)
    requires NeverReplayed(past) && id !in past.disk.fragments
              && Extends(AfterPlay(spec, past.disk, id, play), past.disk)
    ensures Continues(AfterStart(spec, past, skipped, id, play), past)
  {
    hide AfterPlay, Extends, StartedLastBy;
  }

  lemma PendingIsUnpublished(disk: Disk, id: GameId)
    requires AllReceipted(disk) && !Receipted(disk, id)
    ensures id !in disk.fragments
  {
  }

  /** One more start, of a game not published yet. */
  lemma StartKeepsHistory(past: History, id: GameId)
    requires NeverReplayed(past) && id !in past.disk.fragments
    ensures NeverReplayed(past.(started := past.started + [id]))
  {
    var now := past.(started := past.started + [id]);
    forall x | x in now.published ensures StartedLastBy(now.started, x, now.published[x]) {
      assert StartedLastBy(past.started, x, past.published[x]);
    }
  }

  lemma StartIsRecorded(spec: WorkerSpec, past: History, skipped: bool, id: GameId, play: Play)
    requires NeverReplayed(past) && id !in past.disk.fragments
    ensures NeverReplayed(AfterStart(spec, past, skipped, id, play))
  {
    StartKeepsHistory(past, id);
    var now := AfterStart(spec, past, skipped, id, play);
    if Publishes(play) {
      forall x | x in now.published ensures StartedLastBy(now.started, x, now.published[x]) {
        assert x != id ==> StartedLastBy(past.started + [id], x, past.published[x]);
      }
    }
  }

  lemma TurnKeepsLawful(spec: WorkerSpec, start: Disk, r: Running, i: nat, play: Play)
    requires i < |spec.games| && Playing(spec, start, r, i)
    ensures var next := AfterTurn(spec, start, r, i, play);
            Playing(spec, start, next, i + 1) && Continues(next.past, r.past)
  {
    hide Sound, Ordered, NeverReplayed, Continues, Skips;
    var id, disk, next := spec.Id(i), r.past.disk, AfterTurn(spec, start, r, i, play);
    if r.alive && !Receipted(start, id) {
      StartKeepsLawful(spec, r.past, r.skipped, i, play);
      if next.alive {
        SkipsOneMore(spec, disk, next.past.disk, i);
        forall j | 0 <= j < |spec.games| ensures spec.Id(i) == spec.Id(j) <==> i == j {
          IdsAreDistinctOrSame(spec, i, j);
        }
      }
    } else {
      ContinuesReflexive(r.past);
      if r.alive {
        SkipsOneMore(spec, disk, disk, i);
      }
    }
  }

  lemma StartKeepsLawful(spec: WorkerSpec, past: History, skipped: bool, i: nat, play: Play)
    requires Lawful(spec, past) && AllReceipted(past.disk) && !past.disk.torn
    requires i < |spec.games| && !Receipted(past.disk, spec.Id(i)) && (skipped <==> Skips(spec, past.disk, i))
    ensures var next := AfterStart(spec, past, skipped, spec.Id(i), play);
            && Lawful(spec, next) && Continues(next, past)
            && (!FateOf(play).Dead? ==>
                  && !next.disk.torn && AllReceipted(next.disk)
                  && if play.Censored? then next.disk == past.disk
                     else forall x :: Receipted(next.disk, x) <==> Receipted(past.disk, x) || x == spec.Id(i))
  {
    hide Sound, Ordered, Skips, NeverReplayed, Extends, Continues;
    PendingIsUnpublished(past.disk, spec.Id(i));
    StartIsRecorded(spec, past, skipped, spec.Id(i), play);
    if Publishes(play) {
      CompletionKeepsOrder(spec, past.disk, i, play, past.overtaken, skipped);
    } else {
      ExtendsReflexive(past.disk);
    }
    StartContinues(spec, past, skipped, spec.Id(i), play);
  }

  /** Only game i's receipt may have been added. */
  lemma SkipsOneMore(spec: WorkerSpec, disk: Disk, now: Disk, i: nat)
    requires spec.Valid() && i < |spec.games|
    requires now == disk || forall x :: Receipted(now, x) <==> Receipted(disk, x) || x == spec.Id(i)
    ensures Skips(spec, now, i + 1) <==> Skips(spec, disk, i) || !Receipted(now, spec.Id(i))
  {
  }

  lemma TurnContinues(spec: WorkerSpec, start: Disk, first: History, r: Running, i: nat, play: Play)
    requires i < |spec.games| && Playing(spec, start, r, i) && Continues(r.past, first)
    ensures Playing(spec, start, AfterTurn(spec, start, r, i, play), i + 1)
    ensures Continues(AfterTurn(spec, start, r, i, play).past, first)
  {
    TurnKeepsLawful(spec, start, r, i, play);
    ContinuesTransitive(AfterTurn(spec, start, r, i, play).past, r.past, first);
  }

  lemma {:induction false} TurnsKeepLawful(spec: WorkerSpec, start: Disk, r: Running, plays: seq<Play>, n: nat)
    requires n <= |spec.games| && Playing(spec, start, r, 0)
    ensures Playing(spec, start, AfterTurns(spec, start, r, plays, n), n)
    ensures Continues(AfterTurns(spec, start, r, plays, n).past, r.past)
  {
    hide Playing, Continues;
    if n == 0 {
      ContinuesReflexive(r.past);
    } else {
      var before := AfterTurns(spec, start, r, plays, n - 1);
      TurnsKeepLawful(spec, start, r, plays, n - 1);
      TurnContinues(spec, start, r.past, before, n - 1, PlayAt(plays, n - 1));
      assert AfterTurns(spec, start, r, plays, n) == AfterTurn(spec, start, before, n - 1, PlayAt(plays, n - 1));
    }
  }

  /** One lifetime, whatever crashed in it, keeps the worker's past lawful and continues it. */
  lemma RunKeepsLawful(spec: WorkerSpec, past: History, life: Life)
    requires Lawful(spec, past)
    ensures var r := AfterRun(spec, past, life);
            && Lawful(spec, r.past) && Continues(r.past, past)
            && (r.alive ==> !r.past.disk.torn && AllReceipted(r.past.disk))
  {
    RestartKeepsLawful(spec, past, life.writes);
    var r := Restarted(spec, past, life.writes);
    TurnsKeepLawful(spec, r.past.disk, r, life.plays, |spec.games|);
    ContinuesTransitive(AfterRun(spec, past, life).past, r.past, past);
  }

  lemma FreshIsLawful(spec: WorkerSpec)
    requires spec.Valid()
    ensures Lawful(spec, FRESH)
  {
    assert InOrder(spec, FRESH.disk, 0);
  }

  /** Over any number of lifetimes: each prefix of a history is continued by the whole, so
      what was published or receipted by then is kept and never started again. */
  lemma {:induction false} HistoryIsKept(spec: WorkerSpec, past: History, lives: seq<Life>, m: nat)
    requires Lawful(spec, past) && m <= |lives|
    ensures var now := AfterLives(spec, past, lives).past;
            Lawful(spec, now) && Continues(now, AfterLives(spec, past, lives[..m]).past)
  {
    hide Lawful, Continues, AfterRun;
    var n := |lives|;
    if n > 0 {
      HistoryIsKept(spec, past, lives[..n - 1], if m < n then m else n - 1);
      RunKeepsLawful(spec, AfterLives(spec, past, lives[..n - 1]).past, lives[n - 1]);
    }
    if m < n {
      assert lives[..n - 1][..m] == lives[..m];
      ContinuesTransitive(AfterLives(spec, past, lives).past, AfterLives(spec, past, lives[..n - 1]).past,
                          AfterLives(spec, past, lives[..m]).past);
    } else {
      assert lives[..m] == lives;
      ContinuesReflexive(AfterLives(spec, past, lives).past);
    }
  }

  /** Game id was started at some turn from m on, and never again after that. */
  ghost predicate LastStartedSince(started: seq<GameId>, m: nat, id: GameId) {
    exists t :: m <= t < |started| && started[t] == id && forall u :: t < u < |started| ==> started[u] != id
  }

  /** The whole history of a worker that starts afresh, cut anywhere: what was published before
      the cut is still there and was not started since, what was published since was started
      since and never again afterwards, and every receipt stands for one published game. */
  lemma NothingIsReplayed(spec: WorkerSpec, lives: seq<Life>, m: nat)
    requires spec.Valid() && m <= |lives|
    ensures var cut, now := AfterLives(spec, FRESH, lives[..m]).past, AfterLives(spec, FRESH, lives).past;
            && Extends(now.disk, cut.disk) && cut.started <= now.started && Sound(spec, now.disk)
            && (forall t :: |cut.started| <= t < |now.started| ==> now.started[t] !in cut.disk.fragments)
            && (forall id :: id in now.disk.fragments && id !in cut.disk.fragments ==>
                  LastStartedSince(now.started, |cut.started|, id))
  {
    FreshIsLawful(spec);
    HistoryIsKept(spec, FRESH, lives, m);
    HistoryIsKept(spec, FRESH, lives[..m], 0);
    var cut, now := AfterLives(spec, FRESH, lives[..m]).past, AfterLives(spec, FRESH, lives).past;
    forall id | id in now.disk.fragments && id !in cut.disk.fragments
      ensures LastStartedSince(now.started, |cut.started|, id)
    {
      assert StartedLastBy(now.started, id, now.published[id]);
      assert now.started[now.published[id] - 1] == id;
    }
  }

  // When a run finishes, and what it then has done

  /** The games that have no fragment yet. */
  function Unpublished(spec: WorkerSpec, disk: Disk): set<nat> {
    set i: nat | i < |spec.games| && spec.Id(i) !in disk.fragments
  }

  ghost predicate Orphan(spec: WorkerSpec, disk: Disk, i: nat)
    requires i < |spec.games|
  {
    spec.Id(i) in disk.fragments && !Receipted(disk, spec.Id(i))
  }

  /** Every receipt that the restart owes reaches the disk. */
  ghost predicate Adopts(spec: WorkerSpec, disk: Disk, writes: seq<Write>, n: nat) {
    forall i :: 0 <= i < n && i < |spec.games| && Orphan(spec, disk, i) ==> WriteAt(writes, i).Durable?
  }

  /** No pending game before n kills the process. */
  predicate Survives(pending: set<nat>, plays: seq<Play>, n: nat) {
    forall i: nat :: i in pending && i < n ==> !FateOf(PlayAt(plays, i)).Dead?
  }

  lemma {:induction false} ReconcilingFinishes(spec: WorkerSpec, r: Running, writes: seq<Write>, n: nat)
    requires n <= |spec.games| && Adopting(spec, r, 0) && r.alive
    ensures var now := AfterReconciling(spec, r, writes, n);
            && (now.alive <==> Adopts(spec, r.past.disk, writes, n))
            && (forall j :: n <= j < |spec.games| ==>
                  (Receipted(now.past.disk, spec.Id(j)) <==> Receipted(r.past.disk, spec.Id(j))))
  {
    hide Adopting, AfterAdopting, Receipted;
    if n > 0 {
      var before := AfterReconciling(spec, r, writes, n - 1);
      ReconcilingFinishes(spec, r, writes, n - 1);
      ReconcilingKeepsLawful(spec, r, writes, n - 1);
      ReconcilingOne(spec, before, n - 1, WriteAt(writes, n - 1));
      SameOrphan(spec, before.past, r.past, n - 1);
      assert AfterReconciling(spec, r, writes, n) == AfterAdopting(spec, before, n - 1, WriteAt(writes, n - 1));
    }
  }

  lemma SameOrphan(spec: WorkerSpec, a: History, b: History, i: nat)
    requires i < |spec.games| && a.disk.fragments == b.disk.fragments
    requires Receipted(a.disk, spec.Id(i)) <==> Receipted(b.disk, spec.Id(i))
    ensures Orphan(spec, a.disk, i) <==> Orphan(spec, b.disk, i)
  {
  }

  lemma ReconcilingOne(spec: WorkerSpec, r: Running, i: nat, write: Write)
    requires i < |spec.games| && Adopting(spec, r, i)
    ensures var next := AfterAdopting(spec, r, i, write);
            && (next.alive <==> r.alive && (Orphan(spec, r.past.disk, i) ==> write.Durable?))
            && (forall j :: i < j < |spec.games| ==>
                  (Receipted(next.past.disk, spec.Id(j)) <==> Receipted(r.past.disk, spec.Id(j))))
  {
    var id, disk := spec.Id(i), r.past.disk;
    if Orphan(spec, disk, i) {
      assert ValidFragment(id, disk.fragments[id]);
      var receipt := ReceiptFor(spec, id, disk.fragments[id], None);
      ReceiptedSnoc(disk, receipt);
      SameReceipts(disk, disk.(torn := true));
      forall j | i < j < |spec.games| ensures spec.Id(j) != id {
        IdsAreDistinctOrSame(spec, i, j);
      }
    }
  }

  /** After a complete restart the receipted games are the published ones. */
  lemma RestartFinishes(spec: WorkerSpec, past: History, writes: seq<Write>)
    requires Lawful(spec, past)
    ensures var r := Restarted(spec, past, writes);
            && (r.alive <==> Adopts(spec, past.disk, writes, |spec.games|))
            && (r.alive ==> Pending(spec, r.past.disk, Unpublished(spec, past.disk)))
  {
    var repaired, r := Repaired(past), Restarted(spec, past, writes);
    RepairKeepsOrder(spec, past.disk, repaired.past.disk, past.overtaken);
    SameReceipts(past.disk, repaired.past.disk);
    ReconcilingFinishes(spec, repaired, writes, |spec.games|);
    assert forall i :: 0 <= i < |spec.games| ==> (Orphan(spec, past.disk, i) <==> Orphan(spec, repaired.past.disk, i));
    RestartKeepsLawful(spec, past, writes);
    if r.alive {
      ReceiptedArePublished(spec, r.past.disk);
    }
  }

  lemma ReceiptedArePublished(spec: WorkerSpec, disk: Disk)
    requires Sound(spec, disk) && AllReceipted(disk)
    ensures Pending(spec, disk, Unpublished(spec, disk))
  {
    forall i | 0 <= i < |spec.games| && Receipted(disk, spec.Id(i)) ensures spec.Id(i) in disk.fragments {
      var p :| 0 <= p < |disk.receipts| && disk.receipts[p].gameId == spec.Id(i);
      assert Backs(spec, disk.fragments, disk.receipts[p]);
    }
  }

  /** pending lists the games without a receipt. */
  ghost predicate Pending(spec: WorkerSpec, start: Disk, pending: set<nat>) {
    forall i: nat :: i in pending <==> i < |spec.games| && !Receipted(start, spec.Id(i))
  }

  lemma {:induction false} TurnsFinish(spec: WorkerSpec, start: Disk, r: Running, plays: seq<Play>, n: nat,
                                       pending: set<nat>)
    requires n <= |spec.games| && Pending(spec, start, pending)
    ensures AfterTurns(spec, start, r, plays, n).alive <==> r.alive && Survives(pending, plays, n)
  {
    if n > 0 {
      TurnsFinish(spec, start, r, plays, n - 1, pending);
    }
  }

  /** A run finishes if and only if every owed receipt is written and no pending game kills it. */
  ghost predicate Finishes(spec: WorkerSpec, disk: Disk, life: Life) {
    && Adopts(spec, disk, life.writes, |spec.games|)
    && Survives(Unpublished(spec, disk), life.plays, |spec.games|)
  }

  lemma RunFinishesIff(spec: WorkerSpec, past: History, life: Life)
    requires Lawful(spec, past)
    ensures AfterRun(spec, past, life).alive <==> Finishes(spec, past.disk, life)
  {
    RestartFinishes(spec, past, life.writes);
    var r := Restarted(spec, past, life.writes);
    if r.alive {
      TurnsFinish(spec, r.past.disk, r, life.plays, |spec.games|, Unpublished(spec, past.disk));
    } else {
      DeadStaysDead(spec, r.past.disk, r, life.plays, |spec.games|);
    }
  }

  lemma {:induction false} DeadStaysDead(spec: WorkerSpec, start: Disk, r: Running, plays: seq<Play>, n: nat)
    requires n <= |spec.games| && !r.alive
    ensures AfterTurns(spec, start, r, plays, n) == r
  {
    if n > 0 {
      DeadStaysDead(spec, start, r, plays, n - 1);
    }
  }

  lemma {:induction false} TurnsReceipt(spec: WorkerSpec, start: Disk, r: Running, plays: seq<Play>, n: nat, i: nat)
    requires n <= |spec.games| && i < |spec.games| && Playing(spec, start, r, 0)
    requires Receipted(r.past.disk, spec.Id(i)) <==> Receipted(start, spec.Id(i))
    ensures var now := AfterTurns(spec, start, r, plays, n);
            now.alive ==> (Receipted(now.past.disk, spec.Id(i)) <==>
                            Receipted(start, spec.Id(i)) || (i < n && !PlayAt(plays, i).Censored?))
  {
    hide Playing, AfterTurn, Receipted;
    if n > 0 {
      var before := AfterTurns(spec, start, r, plays, n - 1);
      TurnsReceipt(spec, start, r, plays, n - 1, i);
      TurnsKeepLawful(spec, start, r, plays, n - 1);
      TurnReceipt(spec, start, before, n - 1, PlayAt(plays, n - 1), i);
      assert AfterTurns(spec, start, r, plays, n) == AfterTurn(spec, start, before, n - 1, PlayAt(plays, n - 1));
    }
  }

  lemma TurnReceipt(spec: WorkerSpec, start: Disk, r: Running, k: nat, play: Play, i: nat)
    requires k < |spec.games| && i < |spec.games| && Playing(spec, start, r, k)
    ensures var next := AfterTurn(spec, start, r, k, play);
            next.alive ==>
              (r.alive
               && (Receipted(next.past.disk, spec.Id(i)) <==>
                    Receipted(r.past.disk, spec.Id(i)) || (i == k && !Receipted(start, spec.Id(k)) && !play.Censored?)))
  {
    if r.alive && !Receipted(start, spec.Id(k)) {
      AfterPlayReceipts(spec, r.past.disk, spec.Id(k), play);
      IdsAreDistinctOrSame(spec, k, i);
    }
  }

  /** A finished run has receipted every game but those it censored. */
  lemma FinishedRunReceipts(spec: WorkerSpec, past: History, life: Life, i: nat)
    requires Lawful(spec, past) && AfterRun(spec, past, life).alive && i < |spec.games|
    ensures Receipted(AfterRun(spec, past, life).past.disk, spec.Id(i)) <==>
              spec.Id(i) in past.disk.fragments || !PlayAt(life.plays, i).Censored?
  {
    var r := Restarted(spec, past, life.writes);
    if !r.alive {
      DeadStaysDead(spec, r.past.disk, r, life.plays, |spec.games|);
      assert false;
    }
    RestartFinishes(spec, past, life.writes);
    RestartKeepsLawful(spec, past, life.writes);
    TurnsReceipt(spec, r.past.disk, r, life.plays, |spec.games|, i);
    assert i in Unpublished(spec, past.disk) <==> spec.Id(i) !in past.disk.fragments;
  }

  // What a published game holds

  /** The rows are the play's decisions, all of them and in order, under the game's identity. */
  predicate Records(id: GameId, rows: seq<Row>, play: Play) {
    && play.Completed? && play.resultWinner == play.winner
    && |rows| == |play.bodies| > 0
    && forall i :: 0 <= i < |rows| ==>
         rows[i] == Row(id, id.game.seed, id.game.scope, id.config, i, play.winner, play.bodies[i])
  }

  /** The receipt names the game and counts, digests and dates its rows. */
  predicate ReceiptsPlay(spec: WorkerSpec, r: Receipt, id: GameId, play: Play) {
    && r.gameId == id && r.seed == id.game.seed && r.worker == spec.worker && r.config == spec.config
    && play.Completed? && Records(id, r.digest.rows, play)
    && r.rowCount == |play.bodies| && r.winner == play.winner && r.steps == Some(play.steps)
  }

  /** A play that ran to its end with an agreed winner and some decision publishes them all, and its
      receipt follows unless the write is lost or torn; any other play changes no file. */
  lemma AfterPlayRecords(spec: WorkerSpec, disk: Disk, id: GameId, play: Play)
    ensures var now := AfterPlay(spec, disk, id, play);
            if play.Completed? && play.bodies != [] && play.resultWinner == play.winner then
              && now.fragments.Keys == disk.fragments.Keys + {id} && Records(id, now.fragments[id], play)
              && (forall x :: x in disk.fragments && x != id ==> now.fragments[x] == disk.fragments[x])
              && (now.torn <==> disk.torn || play.write.Torn?)
              && (if play.write.Durable? then
                    && |now.receipts| == |disk.receipts| + 1 && disk.receipts <= now.receipts
                    && ReceiptsPlay(spec, now.receipts[|disk.receipts|], id, play)
                  else now.receipts == disk.receipts)
            else now == disk
  {
  }

  /** A process is lost to a game exactly when it is interrupted, produced nothing publishable, or
      its receipt write does not reach the file; only censored games are dropped. */
  lemma FateMeans(play: Play)
    ensures FateOf(play) == Dropped <==> play == Censored
    ensures FateOf(play) == Kept <==>
              && play.Completed? && play.bodies != [] && play.resultWinner == play.winner
              && play.write == Durable
  {
  }

  lemma TurnRecords(spec: WorkerSpec, start: Disk, r: Running, k: nat, play: Play, i: nat)
    requires k < |spec.games| && i < |spec.games| && Playing(spec, start, r, k)
    ensures var id, next := spec.Id(i), AfterTurn(spec, start, r, k, play);
            && (id in next.past.disk.fragments <==>
                  || id in r.past.disk.fragments
                  || (i == k && r.alive && !Receipted(start, id) && Publishes(play)))
            && (id in r.past.disk.fragments ==> next.past.disk.fragments[id] == r.past.disk.fragments[id])
            && (id in next.past.disk.fragments && id !in r.past.disk.fragments ==>
                  Records(id, next.past.disk.fragments[id], play))
  {
    hide Lawful, Records;
    if r.alive && !Receipted(start, spec.Id(k)) {
      AfterPlayRecords(spec, r.past.disk, spec.Id(k), play);
      GamesAreDistinct(spec, start, r, k, i);
      PendingIsUnpublished(r.past.disk, spec.Id(k));
    }
  }

  lemma GamesAreDistinct(spec: WorkerSpec, start: Disk, r: Running, k: nat, i: nat)
    requires k < |spec.games| && i < |spec.games| && Playing(spec, start, r, k)
    ensures spec.Id(k) == spec.Id(i) <==> k == i
  {
    IdsAreDistinctOrSame(spec, k, i);
  }

  lemma {:induction false} TurnsRecord(spec: WorkerSpec, start: Disk, r: Running, plays: seq<Play>, n: nat, i: nat,
                                       pending: set<nat>)
    requires n <= |spec.games| && i < |spec.games| && Playing(spec, start, r, 0) && r.alive
    requires r.past.disk.fragments == start.fragments && Pending(spec, start, pending)
    ensures var id, now := spec.Id(i), AfterTurns(spec, start, r, plays, n).past.disk;
            && (id in now.fragments <==>
                  || id in start.fragments
                  || (i < n && i in pending && Survives(pending, plays, i) && Publishes(PlayAt(plays, i))))
            && (id in start.fragments ==> now.fragments[id] == start.fragments[id])
            && (id in now.fragments && id !in start.fragments ==> Records(id, now.fragments[id], PlayAt(plays, i)))
  {
    hide Playing, AfterTurn, Records, Publishes, Survives;
    if n > 0 {
      var before := AfterTurns(spec, start, r, plays, n - 1);
      TurnsRecord(spec, start, r, plays, n - 1, i, pending);
      TurnsKeepLawful(spec, start, r, plays, n - 1);
      TurnsFinish(spec, start, r, plays, n - 1, pending);
      TurnRecords(spec, start, before, n - 1, PlayAt(plays, n - 1), i);
      assert AfterTurns(spec, start, r, plays, n) == AfterTurn(spec, start, before, n - 1, PlayAt(plays, n - 1));
    }
  }

  /** A run publishes exactly the pending games that ran to an agreed end before anything killed the
      process, each with all its decisions, and leaves every other fragment as it was. */
  lemma RunRecords(spec: WorkerSpec, past: History, life: Life, i: nat)
    requires Lawful(spec, past) && i < |spec.games|
    ensures var id, play, now := spec.Id(i), PlayAt(life.plays, i), AfterRun(spec, past, life).past.disk;
            && (id in now.fragments <==>
                  || id in past.disk.fragments
                  || (&& Adopts(spec, past.disk, life.writes, |spec.games|)
                      && Survives(Unpublished(spec, past.disk), life.plays, i)
                      && play.Completed? && play.bodies != [] && play.resultWinner == play.winner))
            && (id in past.disk.fragments ==> now.fragments[id] == past.disk.fragments[id])
            && (id in now.fragments && id !in past.disk.fragments ==> Records(id, now.fragments[id], play))
  {
    hide Records, Lawful;
    RestartFinishes(spec, past, life.writes);
    RestartKeepsLawful(spec, past, life.writes);
    var r, pending := Restarted(spec, past, life.writes), Unpublished(spec, past.disk);
    if r.alive {
      RestartIsPlaying(spec, past, life.writes);
      TurnsRecord(spec, r.past.disk, r, life.plays, |spec.games|, i, pending);
      assert i in pending <==> spec.Id(i) !in past.disk.fragments;
    } else {
      DeadStaysDead(spec, r.past.disk, r, life.plays, |spec.games|);
    }
  }

  lemma RestartIsPlaying(spec: WorkerSpec, past: History, writes: seq<Write>)
    requires Lawful(spec, past) && Restarted(spec, past, writes).alive
    ensures var r := Restarted(spec, past, writes); Playing(spec, r.past.disk, r, 0)
  {
    RestartKeepsLawful(spec, past, writes);
  }

  /** Some lifetime's play of the game is what the rows record. */
  ghost predicate RecordsSome(spec: WorkerSpec, id: GameId, rows: seq<Row>, lives: seq<Life>) {
    exists l, i :: 0 <= l < |lives| && 0 <= i < |spec.games| && RecordsPlay(spec, id, rows, lives[l], i)
  }

  predicate RecordsPlay(spec: WorkerSpec, id: GameId, rows: seq<Row>, life: Life, i: nat)
    requires i < |spec.games|
  {
    spec.Id(i) == id && Records(id, rows, PlayAt(life.plays, i))
  }

  /** Over the whole history of a worker every fragment holds all decisions of one of its plays. */
  lemma {:induction false} FragmentsAreRecordings(spec: WorkerSpec, lives: seq<Life>, id: GameId)
    requires spec.Valid() && id in AfterLives(spec, FRESH, lives).past.disk.fragments
    ensures RecordsSome(spec, id, AfterLives(spec, FRESH, lives).past.disk.fragments[id], lives)
  {
    hide RecordsPlay, AfterRun, Continues;
    FreshIsLawful(spec);
    HistoryIsKept(spec, FRESH, lives, 0);
    if lives != [] {
      var n := |lives| - 1;
      HistoryIsKept(spec, FRESH, lives[..n], 0);
      var before := AfterLives(spec, FRESH, lives[..n]).past;
      if id in before.disk.fragments {
        FragmentsAreRecordings(spec, lives[..n], id);
      }
      LifeRecords(spec, before, lives, id);
    }
  }

  /** The last lifetime keeps what was recorded before and records its own plays. */
  lemma LifeRecords(spec: WorkerSpec, past: History, lives: seq<Life>, id: GameId)
    requires Lawful(spec, past) && lives != [] && Lawful(spec, AfterRun(spec, past, lives[|lives| - 1]).past)
    requires id in AfterRun(spec, past, lives[|lives| - 1]).past.disk.fragments
    requires id in past.disk.fragments ==> RecordsSome(spec, id, past.disk.fragments[id], lives[..|lives| - 1])
    ensures RecordsSome(spec, id, AfterRun(spec, past, lives[|lives| - 1]).past.disk.fragments[id], lives)
  {
    hide RecordsPlay, AfterRun, Lawful, Records;
    var n := |lives| - 1;
    var now := AfterRun(spec, past, lives[n]).past;
    var i := AssignedGame(spec, now, id);
    RunRecords(spec, past, lives[n], i);
    if id in past.disk.fragments {
      var l, k :| 0 <= l < n && 0 <= k < |spec.games|
                  && RecordsPlay(spec, id, past.disk.fragments[id], lives[..n][l], k);
      assert RecordsPlay(spec, id, now.disk.fragments[id], lives[l], k);
    } else {
      IsRecording(spec, id, now.disk.fragments[id], lives[n], i);
    }
  }

  lemma AssignedGame(spec: WorkerSpec, past: History, id: GameId) returns (i: nat)
    requires Lawful(spec, past) && id in past.disk.fragments
    ensures i < |spec.games| && spec.Id(i) == id
  {
    i :| i < |spec.games| && spec.Id(i) == id;
  }

  lemma IsRecording(spec: WorkerSpec, id: GameId, rows: seq<Row>, life: Life, i: nat)
    requires i < |spec.games| && spec.Id(i) == id && Records(id, rows, PlayAt(life.plays, i))
    ensures RecordsPlay(spec, id, rows, life, i)
  {
  }

  // When a run completes a game after censoring an earlier one

  /** Pending game j is censored, pending game k after it is published, and no pending game
      before k kills the process. */
  predicate OvertakesAt(pending: set<nat>, plays: seq<Play>, j: nat, k: nat) {
    && j < k && j in pending && k in pending
    && PlayAt(plays, j).Censored? && Publishes(PlayAt(plays, k)) && Survives(pending, plays, k)
  }

  ghost predicate OvertakesBefore(pending: set<nat>, plays: seq<Play>, n: nat) {
    exists j: nat, k: nat :: k < n && OvertakesAt(pending, plays, j, k)
  }

  ghost predicate CensorsBefore(pending: set<nat>, plays: seq<Play>, n: nat) {
    exists j: nat :: j < n && j in pending && PlayAt(plays, j).Censored?
  }

  lemma {:induction false} TurnsOvertake(spec: WorkerSpec, start: Disk, r: Running, plays: seq<Play>, n: nat,
                                         pending: set<nat>)
    requires n <= |spec.games| && Pending(spec, start, pending) && r.alive && !r.skipped
    ensures var now := AfterTurns(spec, start, r, plays, n);
            && (now.past.overtaken <==> r.past.overtaken || OvertakesBefore(pending, plays, n))
            && (now.alive ==> (now.skipped <==> CensorsBefore(pending, plays, n)))
  {
    hide OvertakesBefore, CensorsBefore, Survives, AfterPlay;
    if n == 0 {
      NothingBefore(pending, plays);
    } else {
      TurnsOvertake(spec, start, r, plays, n - 1, pending);
      TurnsFinish(spec, start, r, plays, n - 1, pending);
      OvertakesOneMore(pending, plays, n - 1);
    }
  }

  lemma NothingBefore(pending: set<nat>, plays: seq<Play>)
    ensures !OvertakesBefore(pending, plays, 0) && !CensorsBefore(pending, plays, 0)
  {
  }

  lemma OvertakesOneMore(pending: set<nat>, plays: seq<Play>, k: nat)
    ensures OvertakesBefore(pending, plays, k + 1) <==>
              || OvertakesBefore(pending, plays, k)
              || (CensorsBefore(pending, plays, k) && k in pending && Publishes(PlayAt(plays, k))
                  && Survives(pending, plays, k))
    ensures CensorsBefore(pending, plays, k + 1) <==>
              CensorsBefore(pending, plays, k) || (k in pending && PlayAt(plays, k).Censored?)
  {
    if CensorsBefore(pending, plays, k) && k in pending && Publishes(PlayAt(plays, k)) && Survives(pending, plays, k) {
      var j: nat :| j < k && j in pending && PlayAt(plays, j).Censored?;
      assert OvertakesAt(pending, plays, j, k);
    }
  }

  /** The run gets to its games, censors one that has no fragment and publishes a later one. */
  ghost predicate RunOvertakes(spec: WorkerSpec, disk: Disk, life: Life) {
    && Adopts(spec, disk, life.writes, |spec.games|)
    && OvertakesBefore(Unpublished(spec, disk), life.plays, |spec.games|)
  }

  lemma RunOvertakesIff(spec: WorkerSpec, past: History, life: Life)
    requires Lawful(spec, past)
    ensures AfterRun(spec, past, life).past.overtaken <==> past.overtaken || RunOvertakes(spec, past.disk, life)
  {
    RestartFinishes(spec, past, life.writes);
    RestartKeepsLawful(spec, past, life.writes);
    var r := Restarted(spec, past, life.writes);
    if r.alive {
      TurnsOvertake(spec, r.past.disk, r, life.plays, |spec.games|, Unpublished(spec, past.disk));
    } else {
      DeadStaysDead(spec, r.past.disk, r, life.plays, |spec.games|);
    }
  }

  /** Some lifetime of a worker that started afresh completed a game after censoring an earlier one. */
  ghost predicate EverOvertakes(spec: WorkerSpec, lives: seq<Life>) {
    exists l :: 0 <= l < |lives| && RunOvertakes(spec, AfterLives(spec, FRESH, lives[..l]).past.disk, lives[l])
  }

  lemma {:induction false} OvertakenIffEver(spec: WorkerSpec, lives: seq<Life>)
    requires spec.Valid()
    ensures AfterLives(spec, FRESH, lives).past.overtaken <==> EverOvertakes(spec, lives)
  {
    if lives != [] {
      var n := |lives| - 1;
      var init := lives[..n];
      OvertakenIffEver(spec, init);
      FreshIsLawful(spec);
      HistoryIsKept(spec, FRESH, init, 0);
      RunOvertakesIff(spec, AfterLives(spec, FRESH, init).past, lives[n]);
      EverOneMore(spec, lives);
    }
  }

  lemma EverOneMore(spec: WorkerSpec, lives: seq<Life>)
    requires lives != []
    ensures var n := |lives| - 1;
            EverOvertakes(spec, lives) <==>
              || EverOvertakes(spec, lives[..n])
              || RunOvertakes(spec, AfterLives(spec, FRESH, lives[..n]).past.disk, lives[n])
  {
    var n := |lives| - 1;
    forall l | 0 <= l < n ensures lives[..n][..l] == lives[..l] && lives[..n][l] == lives[l] {
    }
    if EverOvertakes(spec, lives[..n]) {
      var l :| 0 <= l < n && RunOvertakes(spec, AfterLives(spec, FRESH, lives[..n][..l]).past.disk, lives[..n][l]);
      assert RunOvertakes(spec, AfterLives(spec, FRESH, lives[..l]).past.disk, lives[l]);
    }
    if EverOvertakes(spec, lives) {
      var l :| 0 <= l <= n && RunOvertakes(spec, AfterLives(spec, FRESH, lives[..l]).past.disk, lives[l]);
      if l < n {
        assert RunOvertakes(spec, AfterLives(spec, FRESH, lives[..n][..l]).past.disk, lives[..n][l]);
      }
    }
  }

  /** Receipts are in the assigned order, one for every game. */
  ghost predicate InAssignedOrder(spec: WorkerSpec, disk: Disk) {
    && |disk.receipts| == |spec.games|
    && forall p :: 0 <= p < |disk.receipts| ==> disk.receipts[p].gameId == spec.Id(p)
  }

  ghost predicate EveryGameReceipted(spec: WorkerSpec, disk: Disk) {
    forall i :: 0 <= i < |spec.games| ==> Receipted(disk, spec.Id(i))
  }

  /** Whatever crashed: once every game has its receipt, the receipts are in the assigned order
      if and only if no lifetime completed a game after censoring an earlier one. */
  lemma ReceiptOrder(spec: WorkerSpec, lives: seq<Life>)
    requires spec.Valid() && EveryGameReceipted(spec, AfterLives(spec, FRESH, lives).past.disk)
    ensures InAssignedOrder(spec, AfterLives(spec, FRESH, lives).past.disk) <==> !EverOvertakes(spec, lives)
  {
    FreshIsLawful(spec);
    HistoryIsKept(spec, FRESH, lives, 0);
    OvertakenIffEver(spec, lives);
    var past := AfterLives(spec, FRESH, lives).past;
    InOrderIffNotOvertaken(spec, past.disk, past.overtaken);
  }

  // Receipt rows

  /** The checks on loaded receipt rows: this worker's identity, an assigned game, no repetition. */
  ghost predicate Loadable(spec: WorkerSpec, receipts: seq<Receipt>) {
    && (forall p :: 0 <= p < |receipts| ==> IdentityMatches(spec, receipts[p]))
    && (forall p, q :: 0 <= p < q < |receipts| ==> receipts[p].gameId != receipts[q].gameId)
  }

  predicate IdentityMatches(spec: WorkerSpec, r: Receipt) {
    && r.worker == spec.worker && r.workerConfig == spec.ConfigId() && r.config == spec.config
    && r.gameId in spec.Ids() && r.gameId.game.seed == r.seed
  }

  /** A receipt written by this worker, for one of its games. */
  ghost predicate IsOwn(spec: WorkerSpec, r: Receipt) {
    && r.worker == spec.worker && r.config == spec.config
    && r.workerConfig.worker == spec.worker && r.workerConfig.config == spec.config
    && |r.workerConfig.games| == |spec.games|
    && (forall i :: 0 <= i < |spec.games| ==> r.workerConfig.games[i] == GameId(spec.config, spec.games[i]))
    && exists i :: 0 <= i < |spec.games|
         && r.gameId == GameId(spec.config, spec.games[i]) && r.seed == spec.games[i].seed
  }

  function GameIdsOf(receipts: seq<Receipt>): seq<GameId> {
    seq(|receipts|, p requires 0 <= p < |receipts| => receipts[p].gameId)
  }

  lemma OwnMeans(spec: WorkerSpec, r: Receipt)
    ensures IdentityMatches(spec, r) <==> IsOwn(spec, r)
  {
    if r.gameId in spec.Ids() {
      var i :| 0 <= i < |spec.games| && spec.Ids()[i] == r.gameId;
      assert r.gameId == GameId(spec.config, spec.games[i]);
    }
    if IsOwn(spec, r) {
      var i :| 0 <= i < |spec.games| && r.gameId == GameId(spec.config, spec.games[i]) && r.seed == spec.games[i].seed;
      assert spec.Ids()[i] == r.gameId;
      assert r.workerConfig.games == spec.Ids();
    }
  }

  /** Receipts load exactly when all are the worker's own and they are for as many games as there are
      receipts. */
  lemma LoadableMeans(spec: WorkerSpec, receipts: seq<Receipt>)
    ensures Loadable(spec, receipts) <==>
              (forall p :: 0 <= p < |receipts| ==> IsOwn(spec, receipts[p]))
              && |Elements(GameIdsOf(receipts))| == |receipts|
  {
    hide IdentityMatches, IsOwn;
    forall p | 0 <= p < |receipts| ensures IdentityMatches(spec, receipts[p]) <==> IsOwn(spec, receipts[p]) {
      OwnMeans(spec, receipts[p]);
    }
    DistinctCount(GameIdsOf(receipts));
    assert forall p :: 0 <= p < |receipts| ==> GameIdsOf(receipts)[p] == receipts[p].gameId;
  }

  lemma SoundIsLoadable(spec: WorkerSpec, disk: Disk)
    requires Sound(spec, disk)
    ensures Loadable(spec, disk.receipts)
  {
    forall p | 0 <= p < |disk.receipts| ensures IdentityMatches(spec, disk.receipts[p]) {
      var r := disk.receipts[p];
      assert Backs(spec, disk.fragments, r);
      var i :| 0 <= i < |spec.games| && spec.Id(i) == r.gameId;
      assert spec.Ids()[i] == r.gameId;
    }
  }

  /** The receipt map holds exactly the receipts on disk. */
  ghost predicate Holds(known: map<GameId, Receipt>, disk: Disk) {
    && (forall id :: id in known <==> Receipted(disk, id))
    && forall id :: id in known ==> known[id] in disk.receipts && known[id].gameId == id
  }

  lemma KnowsOneMore(disk: Disk, known: map<GameId, Receipt>, r: Receipt)
    requires Holds(known, disk)
    ensures Holds(known[r.gameId := r], Appended(disk, r))
  {
    ReceiptedSnoc(disk, r);
    assert r in Appended(disk, r).receipts;
    forall id | id in known ensures known[id] in Appended(disk, r).receipts {
    }
  }

  lemma ReceiptedSnoc(disk: Disk, r: Receipt)
    ensures forall id :: Receipted(Appended(disk, r), id) <==> Receipted(disk, id) || id == r.gameId
  {
    var n, now := |disk.receipts|, Appended(disk, r);
    forall id ensures Receipted(now, id) <==> Receipted(disk, id) || id == r.gameId {
      if Receipted(disk, id) {
        var p :| 0 <= p < n && disk.receipts[p].gameId == id;
        assert now.receipts[p].gameId == id;
      }
      assert now.receipts[n] == r;
    }
  }

  /** A kept game gains its receipt and no other; a censored one leaves no trace. */
  lemma AfterPlayReceipts(spec: WorkerSpec, disk: Disk, id: GameId, play: Play)
    requires AllReceipted(disk) && !disk.torn
    ensures FateOf(play).Dropped? <==> play.Censored?
    ensures FateOf(play).Dropped? ==> AfterPlay(spec, disk, id, play) == disk
    ensures FateOf(play).Kept? ==>
              var now := AfterPlay(spec, disk, id, play);
              && !now.torn && AllReceipted(now)
              && forall x :: Receipted(now, x) <==> Receipted(disk, x) || x == id
  {
    if FateOf(play).Kept? {
      var rows := Recording(id, play.bodies, play.winner);
      var published, r := Published(disk, id, rows), ReceiptFor(spec, id, rows, Some(play.steps));
      SameReceipts(disk, published);
      ReceiptedSnoc(published, r);
    }
  }

  /** Once every game has its receipt, the receipts are in the assigned order if and
      only if no run completed a game after censoring an earlier one. */
  lemma InOrderIffNotOvertaken(spec: WorkerSpec, disk: Disk, overtaken: bool)
    requires spec.Valid() && Sound(spec, disk) && Ordered(spec, disk, overtaken)
    requires forall i :: 0 <= i < |spec.games| ==> Receipted(disk, spec.Id(i))
    ensures !overtaken <==>
              InAssignedOrder(spec, disk)
  {
    if overtaken {
      var j, k :| Overtook(spec, disk, j, k);
      var p, q :| 0 <= p < q < |disk.receipts| && disk.receipts[p].gameId == spec.Id(k)
          && disk.receipts[q].gameId == spec.Id(j);
      if |disk.receipts| == |spec.games| && disk.receipts[p].gameId == spec.Id(p)
          && disk.receipts[q].gameId == spec.Id(q) {
        IdsAreDistinct(spec, p, k);
        IdsAreDistinct(spec, q, j);
      }
    } else {
      var n :| InOrder(spec, disk, n);
      var m := |disk.receipts|;
      LaterIsNotReceipted(spec, disk);
    }
  }

  class SelfPlayWorker {
    const spec: WorkerSpec
    var disk: Disk
    ghost var started: seq<GameId>
    ghost var published: map<GameId, nat>
    ghost var overtaken: bool

    ghost function Past(): History
      reads this
    {
      History(disk, started, published, overtaken)
    }

    ghost predicate Valid()
      reads this
    {
      Lawful(spec, Past())
    }

    constructor (spec: WorkerSpec)
      requires spec.Valid()
      ensures Valid() && this.spec == spec && Past() == FRESH
    {
      FreshIsLawful(spec);
      this.spec := spec;
      disk := Disk(map[], [], false);
      started, published, overtaken := [], map[], false;
    }

    /** Drop a torn last row, then read and check the rest. */
    method LoadCheckpoints() returns (r: Result<map<GameId, Receipt>>)
      modifies `disk
      ensures disk == old(disk).(torn := false)
      ensures r.Success? <==> Loadable(spec, disk.receipts)
      ensures r.Success? ==> Holds(r.value, disk)
    {
      disk := disk.(torn := false);
      var rows: map<GameId, Receipt> := map[];
      for p := 0 to |disk.receipts|
        invariant Loadable(spec, disk.receipts[..p])
        invariant forall id :: id in rows <==> exists q :: 0 <= q < p && disk.receipts[q].gameId == id
        invariant forall id :: id in rows ==> rows[id] in disk.receipts && rows[id].gameId == id
      {
        var row := disk.receipts[p];
        if !IdentityMatches(spec, row) || row.gameId in rows {
          return Failure;
        }
        rows := rows[row.gameId := row];
      }
      assert disk.receipts[..|disk.receipts|] == disk.receipts;
      r := Success(rows);
    }

    /** One appended row; a crash may tear it or lose it. */
    method AppendCheckpoint(r: Receipt, write: Write) returns (alive: bool)
      modifies `disk
      ensures disk == Written(old(disk), r, write) && alive == write.Durable?
    {
      match write
      case Lost => alive := false;
      case Torn => disk, alive := disk.(torn := true), false;
      case Durable => disk, alive := Appended(disk, r), true;
    }

    /** Check one game's fragment; adopt it if it has no receipt.  The source raises
        where this asserts false: no crash leaves such a directory. */
    method ReconcileGame(i: nat, known: map<GameId, Receipt>, write: Write)
      returns (alive: bool, known': map<GameId, Receipt>)
      requires i < |spec.games| && Sound(spec, disk) && Holds(known, disk)
      modifies `disk
      ensures Running(Past(), alive, false) == AfterAdopting(spec, Running(old(Past()), true, false), i, write)
      ensures alive ==> Holds(known', disk)
    {
      var id := spec.Id(i);
      alive, known' := true, known;
      if id in known {
        KnownIsBacked(spec, disk, known, id);
        if id !in disk.fragments || !Backs(spec, disk.fragments, known[id]) {
          assert false;
        }
      }
      if id in disk.fragments {
        if !ValidFragment(id, disk.fragments[id]) {
          assert false;
        }
        if id !in known {
          var receipt := ReceiptFor(spec, id, disk.fragments[id], None);
          KnowsOneMore(disk, known, receipt);
          alive := AppendCheckpoint(receipt, write);
          known' := known[id := receipt];
        }
      }
    }

    /** Check every published fragment and adopt those without a receipt. */
    method ReconcileFragments(checkpoints: map<GameId, Receipt>, writes: seq<Write>)
      returns (outcome: Outcome, known: map<GameId, Receipt>)
      requires Valid() && !disk.torn && Holds(checkpoints, disk)
      modifies `disk
      ensures Running(Past(), outcome.Finished?, false)
           == AfterReconciling(spec, Running(old(Past()), true, false), writes, |spec.games|)
      ensures outcome.Finished? ==> Holds(known, disk)
    {
      hide Ordered, NeverReplayed, AfterAdopting, Continues, Holds, AdoptedUpTo;
      ghost var first := Running(Past(), true, false);
      known := checkpoints;
      NoneToAdopt(spec, disk);
      for i := 0 to |spec.games|
        invariant Running(Past(), true, false) == AfterReconciling(spec, first, writes, i)
        invariant Holds(known, disk)
      {
        ReconcilingKeepsLawful(spec, first, writes, i);
        var alive, now := ReconcileGame(i, known, WriteAt(writes, i));
        if !alive {
          DeadStopsReconciling(spec, first, writes, i + 1, |spec.games|);
          return Crashed, known;
        }
        known := now;
      }
      outcome := Finished;
    }

    /** Fragment first, receipt second. */
    method PublishAndReceipt(i: nat, rows: seq<Row>, steps: nat, write: Write) returns (alive: bool)
      requires i < |spec.games| && rows != []
      modifies `disk
      ensures alive == write.Durable?
      ensures disk == Written(Published(old(disk), spec.Id(i), rows), ReceiptFor(spec, spec.Id(i), rows, Some(steps)),
                              write)
    {
      disk := Published(disk, spec.Id(i), rows);
      alive := AppendCheckpoint(ReceiptFor(spec, spec.Id(i), rows, Some(steps)), write);
    }

    /** A game that ran to its end: its fragment is published, then its receipt appended. */
    method Complete(i: nat, play: Play) returns (fate: Fate)
      requires i < |spec.games| && spec.Id(i) !in disk.fragments && play.Completed?
      modifies `disk
      ensures disk == AfterPlay(spec, old(disk), spec.Id(i), play) && fate == FateOf(play)
    {
      var id := spec.Id(i);
      var rows := Recording(id, play.bodies, play.winner);
      ghost var before := disk;
      if play.bodies == [] {
        return Dead;  // no decision, no fragment: the source raises
      }
      if play.resultWinner != play.winner {
        disk := disk.(fragments := disk.fragments[id := rows] - {id});  // published, contradicted, removed
        assert disk == before;
        return Dead;
      }
      var alive := PublishAndReceipt(i, rows, play.steps, play.write);
      fate := if alive then Kept else Dead;
    }

    /** Play one pending game. */
    method PlayGame(i: nat, play: Play, ghost skipped: bool) returns (fate: Fate)
      requires i < |spec.games| && spec.Id(i) !in disk.fragments
      modifies this
      ensures Past() == AfterStart(spec, old(Past()), skipped, spec.Id(i), play) && fate == FateOf(play)
    {
      var id := spec.Id(i);
      ghost var before := disk;
      disk := disk.(fragments := disk.fragments - {id});  // unlink, of a file that is not there
      assert disk == before;
      if Publishes(play) {
        published, overtaken := published[id := |started| + 1], overtaken || skipped;
      }
      started := started + [id];
      match play
      case Censored => fate := Dropped;
      case Interrupted => fate := Dead;
      case Completed(_, _, _, _, _) => fate := Complete(i, play);
    }

    /** Play every game without a receipt, in order, until done or dead. */
    method PlayPending(known: map<GameId, Receipt>, plays: seq<Play>) returns (outcome: Outcome)
      requires Valid() && !disk.torn && AllReceipted(disk) && Holds(known, disk)
      modifies this
      ensures var r := AfterTurns(spec, old(disk), Running(old(Past()), true, false), plays, |spec.games|);
              Past() == r.past && (outcome.Finished? <==> r.alive)
    {
      hide Lawful, Continues, AfterStart;
      ghost var start, first, now := disk, Running(Past(), true, false), Running(Past(), true, false);
      for i := 0 to |spec.games|
        invariant now == AfterTurns(spec, start, first, plays, i) && now.past == Past() && now.alive
      {
        TurnsKeepLawful(spec, start, first, plays, i);
        if spec.Id(i) !in known {
          PendingIsUnpublished(disk, spec.Id(i));
          var fate := PlayGame(i, PlayAt(plays, i), now.skipped);
          now := AfterTurn(spec, start, now, i, PlayAt(plays, i));
          if fate.Dead? {
            DeadStopsPlaying(spec, start, first, plays, i + 1, |spec.games|);
            return Crashed;
          }
        }
      }
      outcome := Finished;
    }

    /** One process lifetime: load, reconcile, then play the pending games.  It finishes exactly
        when every owed receipt is written and no pending game kills it, and it overtakes exactly
        when it censors a pending game and then publishes a later one. */
    method Run(life: Life) returns (outcome: Outcome)
      requires Valid()
      modifies this
      ensures Valid() && Continues(Past(), old(Past()))
      ensures var r := AfterRun(spec, old(Past()), life); Past() == r.past && (outcome.Finished? <==> r.alive)
      ensures outcome.Finished? <==> Finishes(spec, old(disk), life)
      ensures overtaken == (old(overtaken) || RunOvertakes(spec, old(disk), life))
      ensures outcome.Finished? ==> forall i :: 0 <= i < |spec.games| ==>
                (Receipted(disk, spec.Id(i)) <==> spec.Id(i) in old(disk.fragments) || !PlayAt(life.plays, i).Censored?)
      ensures forall i ::
                0 <= i < |spec.games| && spec.Id(i) in disk.fragments && spec.Id(i) !in old(disk.fragments) ==>
                Records(spec.Id(i), disk.fragments[spec.Id(i)], PlayAt(life.plays, i))
    {
      hide Continues, Finishes, RunOvertakes, StartedLastBy, Ordered, Records;
      ghost var past := Past();
      RunKeepsLawful(spec, past, life);
      RunFinishesIff(spec, past, life);
      RunOvertakesIff(spec, past, life);
      SoundIsLoadable(spec, disk);
      RestartKeepsLawful(spec, past, life.writes);
      RepairKeepsOrder(spec, disk, disk.(torn := false), overtaken);
      var loaded := LoadCheckpoints();
      if loaded.Failure? {
        assert false;
      }
      var known;
      outcome, known := ReconcileFragments(loaded.value, life.writes);
      if outcome.Finished? {
        outcome := PlayPending(known, life.plays);
      } else {
        DeadStaysDead(spec, disk, Running(Past(), false, false), life.plays, |spec.games|);
      }
      forall i | 0 <= i < |spec.games| && spec.Id(i) in disk.fragments && spec.Id(i) !in past.disk.fragments
        ensures Records(spec.Id(i), disk.fragments[spec.Id(i)], PlayAt(life.plays, i))
      {
        RunRecords(spec, past, life, i);
      }
      if outcome.Finished? {
        forall i | 0 <= i < |spec.games|
          ensures Receipted(disk, spec.Id(i)) <==> spec.Id(i) in past.disk.fragments || !PlayAt(life.plays, i).Censored?
        {
          FinishedRunReceipts(spec, past, life, i);
        }
      }
    }

    /** Any number of lifetimes, each ending anywhere. */
    method Campaign(lives: seq<Life>) returns (outcome: Outcome)
      requires Valid()
      modifies this
      ensures Valid()
      ensures var r := AfterLives(spec, old(Past()), lives); Past() == r.past && (outcome.Finished? <==> r.alive)
      ensures forall l :: 0 <= l <= |lives| ==> Continues(Past(), AfterLives(spec, old(Past()), lives[..l]).past)
    {
      outcome := Crashed;
      for l := 0 to |lives|
        invariant Valid()
        invariant Running(Past(), outcome.Finished?, false).past == AfterLives(spec, old(Past()), lives[..l]).past
        invariant outcome.Finished? <==> AfterLives(spec, old(Past()), lives[..l]).alive
      {
        assert lives[..l + 1][..l] == lives[..l];
        outcome := Run(lives[l]);
      }
      assert lives[..|lives|] == lives;
      forall l | 0 <= l <= |lives| ensures Continues(Past(), AfterLives(spec, old(Past()), lives[..l]).past) {
        HistoryIsKept(spec, old(Past()), lives, l);
      }
    }
  }

  lemma NoneToAdopt(spec: WorkerSpec, disk: Disk)
    ensures AdoptedUpTo(spec, disk, 0)
  {
  }

  lemma KnownIsBacked(spec: WorkerSpec, disk: Disk, known: map<GameId, Receipt>, id: GameId)
    requires Sound(spec, disk) && Holds(known, disk) && id in known
    ensures Backs(spec, disk.fragments, known[id])
  {
    var p :| 0 <= p < |disk.receipts| && disk.receipts[p] == known[id];
  }

  lemma {:induction false} DeadStopsReconciling(spec: WorkerSpec, r: Running, writes: seq<Write>, m: nat, n: nat)
    requires m <= n <= |spec.games| && !AfterReconciling(spec, r, writes, m).alive
    ensures AfterReconciling(spec, r, writes, n) == AfterReconciling(spec, r, writes, m)
  {
    if m < n {
      DeadStopsReconciling(spec, r, writes, m, n - 1);
    }
  }

  lemma {:induction false} DeadStopsPlaying(spec: WorkerSpec, start: Disk, r: Running, plays: seq<Play>, m: nat, n: nat)
    requires m <= n <= |spec.games| && !AfterTurns(spec, start, r, plays, m).alive
    ensures AfterTurns(spec, start, r, plays, n) == AfterTurns(spec, start, r, plays, m)
  {
    if m < n {
      DeadStopsPlaying(spec, start, r, plays, m, n - 1);
    }
  }

  lemma RepairKeepsOrder(spec: WorkerSpec, disk: Disk, repaired: Disk, overtaken: bool)
    requires repaired == disk.(torn := false) && Sound(spec, disk) && Ordered(spec, disk, overtaken)
    ensures Sound(spec, repaired) && Ordered(spec, repaired, overtaken)
  {
    SameReceipts(disk, repaired);
    if overtaken {
      var j, k :| Overtook(spec, disk, j, k);
      assert Overtook(spec, repaired, j, k);
    } else {
      var n :| InOrder(spec, disk, n);
      assert InOrder(spec, repaired, n);
    }
  }

  /** Publishing game i is orderly unless this run has censored an earlier one. */
  lemma PublishKeepsOrder(spec: WorkerSpec, disk: Disk, i: nat, rows: seq<Row>, overtaken: bool, skipped: bool)
    requires spec.Valid() && Sound(spec, disk) && AllReceipted(disk) && Ordered(spec, disk, overtaken)
    requires i < |spec.games| && !Receipted(disk, spec.Id(i)) && (skipped <==> Skips(spec, disk, i))
    ensures var now := Published(disk, spec.Id(i), rows);
            && Ordered(spec, now, overtaken || skipped)
            && (!overtaken && !skipped ==> i == |disk.receipts| && InOrder(spec, now, i + 1))
  {
    var now := Published(disk, spec.Id(i), rows);
    SameReceipts(disk, now);
    if overtaken {
      var j, k :| Overtook(spec, disk, j, k);
      PublishKeepsOvertook(spec, disk, spec.Id(i), rows, j, k);
    } else if skipped {
      var c :| 0 <= c < i && !Receipted(disk, spec.Id(c));
      IdsAreDistinctOrSame(spec, c, i);
      assert Overtook(spec, now, c, i);
    } else {
      var n :| InOrder(spec, disk, n);
      PendingIsNext(spec, disk, n, i);
      forall j | 0 <= j < |spec.games| ensures spec.Id(j) in now.fragments <==> j < i + 1 {
        IdsAreDistinctOrSame(spec, i, j);
      }
      assert InOrder(spec, now, i + 1);
    }
  }

  lemma IdsAreDistinctOrSame(spec: WorkerSpec, i: nat, j: nat)
    requires spec.Valid() && i < |spec.games| && j < |spec.games|
    ensures spec.Id(i) == spec.Id(j) <==> i == j
  {
  }

  /** With receipts in order, exactly the games below the receipt count are receipted. */
  lemma LaterIsNotReceipted(spec: WorkerSpec, disk: Disk)
    requires spec.Valid() && |disk.receipts| <= |spec.games|
    requires forall p :: 0 <= p < |disk.receipts| ==> disk.receipts[p].gameId == spec.Id(p)
    ensures |disk.receipts| < |spec.games| ==> !Receipted(disk, spec.Id(|disk.receipts|))
  {
  }

  lemma EarlierIsReceipted(spec: WorkerSpec, disk: Disk, i: nat)
    requires i < |spec.games| && |disk.receipts| <= |spec.games|
    requires forall p :: 0 <= p < |disk.receipts| ==> disk.receipts[p].gameId == spec.Id(p)
    ensures i < |disk.receipts| ==> Receipted(disk, spec.Id(i))
  {
    if i < |disk.receipts| {
      assert disk.receipts[i].gameId == spec.Id(i);
    }
  }

  lemma PendingIsNext(spec: WorkerSpec, disk: Disk, n: nat, i: nat)
    requires spec.Valid() && Sound(spec, disk) && AllReceipted(disk) && InOrder(spec, disk, n)
    requires i < |spec.games| && !Receipted(disk, spec.Id(i))
    requires forall j :: 0 <= j < i ==> Receipted(disk, spec.Id(j))
    ensures i == n == |disk.receipts|
  {
    var m := |disk.receipts|;
    LaterIsNotReceipted(spec, disk);
    EarlierIsReceipted(spec, disk, i);
  }

  /** In an orderly directory only the game after the last receipt can lack one. */
  lemma AdoptionIsNext(spec: WorkerSpec, disk: Disk, i: nat)
    requires spec.Valid() && i < |spec.games| && exists n :: InOrder(spec, disk, n)
    requires spec.Id(i) in disk.fragments && !Receipted(disk, spec.Id(i))
    requires forall j :: 0 <= j < i && spec.Id(j) in disk.fragments ==> Receipted(disk, spec.Id(j))
    ensures i == |disk.receipts| && InOrder(spec, disk, |disk.receipts| + 1)
  {
    var n :| InOrder(spec, disk, n);
    var m := |disk.receipts|;
    LaterIsNotReceipted(spec, disk);
    EarlierIsReceipted(spec, disk, i);
  }

  lemma SameReceipts(a: Disk, b: Disk)
    requires a.receipts == b.receipts
    ensures forall id :: Receipted(a, id) <==> Receipted(b, id)
    ensures forall x, y :: Before(a, x, y) <==> Before(b, x, y)
  {
  }
}

/** The build over its staging directory: restarts, worker completions in any order,
    failures, crashes, and the atomic replacement of the published index. */
module IndexBuilder {
  import opened Common
  import opened IndexBuild
  import opened IndexRanges
  import opened IndexScan

  /** The staging directory: its checkpoint file and its index directory, if present. */
  datatype Stage = Stage(checkpoint: Option<Catalog>, index: Option<Files>)

  datatype Index = Index(manifest: Catalog, files: Files)

  datatype ScanFate = Scans | ScanRaises | ScanDies

  /** A worker's result, or what an unsuccessful worker or a dying process leaves. */
  datatype Outcome = Done | Failed(debris: map<ChunkPath, ChunkFile>) | Killed(debris: map<ChunkPath, ChunkFile>)

  /** The next future to complete. */
  datatype Event = Event(ordinal: nat, outcome: Outcome)

  /** The replacement of the published directory: it happens; it fails and is undone, without or
      after having moved the staged index; or the process dies after moving the old index away,
      after moving the staged one into place, or while undoing.  An error while the backup is
      removed leaves what dying after the move leaves. */
  datatype PublishFate = Replaces | NotReplaced | RolledBack | DiesBetween | DiesAfter | DiesUndoing

  /** The staged files when the games in done are finished; files of other games are leftovers. */
  ghost predicate Staged(files: Files, source: seq<SourceRow>, size: nat, done: set<nat>)
    requires size > 0
  {
    var runs := Runs(source);
    && files.fragments == FragmentsOf(source)
    && (forall k :: k in done ==> k < |runs| && Stored(files.training, ChunksOf(runs, k, size)))
    && (forall p :: p in files.training ==> p.0 < |runs| && (p.0 in done ==> p.1 < |ChunksOf(runs, p.0, size)|))
  }

  /** The files of a complete index and nothing else. */
  ghost predicate Complete(files: Files, source: seq<SourceRow>, size: nat)
    requires size > 0
  {
    Staged(files, source, size, Ordinals(|Runs(source)|))
  }

  ghost predicate ValidStage(stage: Stage, done: set<nat>) {
    stage.checkpoint.Some? ==>
      var c := stage.checkpoint.value;
      && c.size > 0 && Indexable(c.source) && c == CatalogOf(c.source, c.size, done)
      && (forall k :: k in done ==> k < |Runs(c.source)|)
      && (stage.index.Some? ==> Staged(stage.index.value, c.source, c.size, done))
  }

  ghost predicate ValidIndex(ix: Index) {
    var c := ix.manifest;
    c.size > 0 && Indexable(c.source) && c == ManifestOf(c.source, c.size) && Complete(ix.files, c.source, c.size)
  }

  /** Two complete indexes of one source and chunk size are the same, file for file. */
  lemma IndexIsDetermined(a: Index, b: Index)
    requires ValidIndex(a) && ValidIndex(b)
    requires a.manifest.source == b.manifest.source && a.manifest.size == b.manifest.size
    ensures a == b
  {
    var source, size := a.manifest.source, a.manifest.size;
    CompleteIncludes(a.files, b.files, source, size);
    CompleteIncludes(b.files, a.files, source, size);
    assert a.files.training == b.files.training;
  }

  lemma CompleteIncludes(a: Files, b: Files, source: seq<SourceRow>, size: nat)
    requires size > 0 && Complete(a, source, size) && Complete(b, source, size)
    ensures forall p :: p in a.training ==> p in b.training && b.training[p] == a.training[p]
  {
    var runs := Runs(source);
    forall p | p in a.training ensures p in b.training && b.training[p] == a.training[p] {
      var chunks := ChunksOf(runs, p.0, size);
      assert p.0 in Ordinals(|runs|);
      ChunksAreSlices(runs[p.0], p.0, 0, RowsBefore(runs, p.0), size);
      assert Slice(runs[p.0], chunks, p.1, p.0, 0, RowsBefore(runs, p.0), size);
      assert chunks[p.1].path == p;
    }
  }

  /** The digest checks on loading: every fragment and every recorded chunk is on disk. */
  predicate Intact(files: Files, c: Catalog) {
    forall k :: 0 <= k < |c.games| ==>
      && c.games[k].fragment in files.fragments && files.fragments[c.games[k].fragment] == c.games[k].digest
      && Stored(files.training, c.games[k].chunks)
  }

  /** When a staging directory is reused for a source. */
  predicate Reusable(stage: Stage, source: seq<SourceRow>, size: nat) {
    && stage.checkpoint.Some? && stage.index.Some?
    && stage.checkpoint.value.source == source && stage.checkpoint.value.size == size
    && ValidStaging(stage.checkpoint.value) && Intact(stage.index.value, stage.checkpoint.value)
  }

  /** The file stored under a path, if there is one. */
  function FileAt<K, V>(files: map<K, V>, path: K): Option<V> {
    if path in files then Some(files[path]) else None
  }

  /** A staging directory is discarded if it belongs to another source or chunk size, its checkpoint
      is not valid, or some fragment or recorded chunk is missing or was changed; otherwise reused. */
  lemma ReusableMeans(stage: Stage, source: seq<SourceRow>, size: nat)
    ensures Reusable(stage, source, size) <==>
              match stage
              case Stage(Some(c), Some(files)) =>
                && c.source == source && c.size == size && ValidStaging(c)
                && forall g <- c.games ::
                     && FileAt(files.fragments, g.fragment) == Some(g.digest)
                     && forall chunk <- g.chunks :: FileAt(files.training, chunk.path) == Some(chunk.digest)
              case _ => false
  {
    hide ValidStaging;
    if stage.checkpoint.Some? && stage.index.Some? {
      IntactMeans(stage.index.value, stage.checkpoint.value);
    }
  }

  ghost predicate Kept(files: Files, g: Game) {
    && FileAt(files.fragments, g.fragment) == Some(g.digest)
    && forall chunk <- g.chunks :: FileAt(files.training, chunk.path) == Some(chunk.digest)
  }

  lemma StoredMeans(training: map<ChunkPath, ChunkFile>, chunks: seq<Chunk>)
    ensures Stored(training, chunks) <==> forall chunk <- chunks :: FileAt(training, chunk.path) == Some(chunk.digest)
  {
    if forall chunk <- chunks :: FileAt(training, chunk.path) == Some(chunk.digest) {
      forall j | 0 <= j < |chunks| ensures chunks[j].path in training && training[chunks[j].path] == chunks[j].digest {
        assert chunks[j] in chunks;
      }
    }
  }

  lemma IntactMeans(files: Files, c: Catalog)
    ensures Intact(files, c) <==> forall g <- c.games :: Kept(files, g)
  {
    hide Stored;
    forall g <- c.games
      ensures Kept(files, g) <==>
                && g.fragment in files.fragments && files.fragments[g.fragment] == g.digest
                && Stored(files.training, g.chunks)
    {
      StoredMeans(files.training, g.chunks);
    }
    if forall g <- c.games :: Kept(files, g) {
      forall k | 0 <= k < |c.games| ensures Kept(files, c.games[k]) {
        assert c.games[k] in c.games;
      }
    }
  }

  /** Whatever an earlier build left for this source is reused whole. */
  lemma LeftoversAreReusable(stage: Stage, done: set<nat>)
    requires ValidStage(stage, done) && stage.checkpoint.Some? && stage.index.Some?
    ensures Reusable(stage, stage.checkpoint.value.source, stage.checkpoint.value.size)
  {
    var c := stage.checkpoint.value;
    CheckpointIsValid(c.source, c.size, done);
  }

  function Missing(c: Catalog): set<nat> {
    set k: nat | k in Ordinals(|c.games|) && c.games[k].chunks == []
  }

  /** Training files outside the given games. */
  function Without(training: map<ChunkPath, ChunkFile>, ordinals: set<nat>): map<ChunkPath, ChunkFile> {
    map p | p in training && p.0 !in ordinals :: training[p]
  }

  function Only(training: map<ChunkPath, ChunkFile>, ordinals: set<nat>): map<ChunkPath, ChunkFile> {
    map p | p in training && p.0 in ordinals :: training[p]
  }

  /** The catalog with one more game finished. */
  function Finished(c: Catalog, ordinal: nat, chunks: seq<Chunk>): Catalog
    requires ordinal < |c.games|
  {
    c.(games := c.games[ordinal := c.games[ordinal].(chunks := chunks)])
  }

  /** The state of the tensorization loop. */
  ghost predicate Working(c: Catalog, files: Files, source: seq<SourceRow>, size: nat, done: set<nat>,
                          pending: set<nat>, failed: bool) {
    && size > 0 && Indexable(source)
    && c == CatalogOf(source, size, done) && Staged(files, source, size, done)
    && (forall o :: o in pending ==> o < |Runs(source)| && o !in done)
    && (forall p :: p in files.training ==> p.0 !in pending)
    && (!failed ==> forall k: nat :: k < |Runs(source)| ==> k in done || k in pending)
  }

  lemma MissingIsUnfinished(source: seq<SourceRow>, size: nat, done: set<nat>, k: nat)
    requires size > 0 && k < |Runs(source)|
    ensures k in Missing(CatalogOf(source, size, done)) <==> k !in done
  {
    RunsPartition(source);
    assert CatalogOf(source, size, done).games[k] == GameAt(Runs(source), k, size, k in done);
  }

  lemma MissingIsPending(c: Catalog, files: Files, source: seq<SourceRow>, size: nat, done: set<nat>)
    requires size > 0 && Indexable(source) && c == CatalogOf(source, size, done) && Staged(files, source, size, done)
    ensures Working(c, files.(training := Without(files.training, Missing(c))), source, size, done, Missing(c), false)
  {
    forall k: nat | k < |Runs(source)| ensures k in Missing(c) <==> k !in done {
      MissingIsUnfinished(source, size, done, k);
    }
    var training := Without(files.training, Missing(c));
    forall k | k in done ensures Stored(training, ChunksOf(Runs(source), k, size)) {
      StoredElsewhere(files.training, training, Runs(source), k, size);
    }
  }

  /** A game's chunks stay stored while its own files stay. */
  lemma StoredElsewhere(was: map<ChunkPath, ChunkFile>, now: map<ChunkPath, ChunkFile>, runs: seq<seq<SourceRow>>,
                        k: nat, size: nat)
    requires size > 0 && k < |runs| && Stored(was, ChunksOf(runs, k, size))
    requires forall p :: p in was && p.0 == k ==> p in now && now[p] == was[p]
    ensures Stored(now, ChunksOf(runs, k, size))
  {
    var chunks := ChunksOf(runs, k, size);
    ChunksAreSlices(runs[k], k, 0, RowsBefore(runs, k), size);
    forall j | 0 <= j < |chunks| ensures chunks[j].path in now && now[chunks[j].path] == chunks[j].digest {
      assert Slice(runs[k], chunks, j, k, 0, RowsBefore(runs, k), size);
      assert chunks[j].path.0 == k;
    }
  }

  /** A pending game's fragment passes every check of its worker. */
  lemma FragmentIsTheGame(source: seq<SourceRow>, size: nat, done: set<nat>, o: nat)
    requires size > 0 && o < |Runs(source)| && o !in done
    ensures var g, run := CatalogOf(source, size, done).games[o], Runs(source)[o];
            && o in FragmentsOf(source) && FragmentsOf(source)[o] == run
            && g.digest == run && g.count == |run| && g.fragment == o && g.start == RowsBefore(Runs(source), o)
            && forall i :: 0 <= i < |run| ==> run[i].game == g.id
  {
    RunsPartition(source);
    assert CatalogOf(source, size, done).games[o] == GameAt(Runs(source), o, size, false);
  }

  lemma FinishedCatalog(source: seq<SourceRow>, size: nat, done: set<nat>, o: nat)
    requires size > 0 && o < |Runs(source)|
    ensures Finished(CatalogOf(source, size, done), o, ChunksOf(Runs(source), o, size))
              == CatalogOf(source, size, done + {o})
  {
    RunsPartition(source);
    assert Finished(CatalogOf(source, size, done), o, ChunksOf(Runs(source), o, size)).games
        == CatalogOf(source, size, done + {o}).games;
  }

  lemma FinishedStep(c: Catalog, files: Files, source: seq<SourceRow>, size: nat, done: set<nat>, pending: set<nat>,
                     failed: bool, o: nat, training: map<ChunkPath, ChunkFile>)
    requires Working(c, files, source, size, done, pending, failed) && o in pending
    requires Written(training, files.training, ChunksOf(Runs(source), o, size), o)
    ensures Working(Finished(c, o, ChunksOf(Runs(source), o, size)), files.(training := training), source, size,
                    done + {o}, pending - {o}, failed)
  {
    FinishedCatalog(source, size, done, o);
    forall k | k in done ensures Stored(training, ChunksOf(Runs(source), k, size)) {
      StoredElsewhere(files.training, training, Runs(source), k, size);
    }
  }

  lemma FailedStep(c: Catalog, files: Files, source: seq<SourceRow>, size: nat, done: set<nat>, pending: set<nat>,
                   failed: bool, o: nat, debris: map<ChunkPath, ChunkFile>)
    requires Working(c, files, source, size, done, pending, failed) && o in pending
    ensures Working(c, files.(training := files.training + Only(debris, {o})), source, size, done, pending - {o}, true)
  {
    LeftoversKeepStaged(files, source, size, done, {o}, debris);
  }

  /** Files of unfinished games do not disturb the finished ones. */
  lemma LeftoversKeepStaged(files: Files, source: seq<SourceRow>, size: nat, done: set<nat>, others: set<nat>,
                            debris: map<ChunkPath, ChunkFile>)
    requires size > 0 && Staged(files, source, size, done)
    requires forall o :: o in others ==> o < |Runs(source)| && o !in done
    ensures Staged(files.(training := files.training + Only(debris, others)), source, size, done)
  {
    forall k | k in done ensures Stored(files.training + Only(debris, others), ChunksOf(Runs(source), k, size)) {
      StoredElsewhere(files.training, files.training + Only(debris, others), Runs(source), k, size);
    }
  }

  ghost predicate AllDone(events: seq<Event>) {
    forall e :: 0 <= e < |events| ==> events[e].outcome.Done?
  }

  ghost predicate AllComplete(events: seq<Event>, games: nat) {
    forall k: nat :: k < games ==> Completes(events, k)
  }

  /** Every game's worker reports success. */
  ghost predicate AllSucceed(events: seq<Event>, games: nat) {
    AllDone(events) && AllComplete(events, games)
  }

  ghost predicate Completes(events: seq<Event>, k: nat) {
    exists e :: 0 <= e < |events| && events[e].ordinal == k
  }

  /** The staging directory still belongs to this source and chunk size. */
  predicate SameWork(stage: Stage, source: seq<SourceRow>, size: nat) {
    && stage.checkpoint.Some? && stage.index.Some?
    && stage.checkpoint.value.source == source && stage.checkpoint.value.size == size
  }

  lemma WorkingIsValid(stage: Stage, source: seq<SourceRow>, size: nat, done: set<nat>, pending: set<nat>, failed: bool)
    requires stage.checkpoint.Some? && stage.index.Some?
    requires Working(stage.checkpoint.value, stage.index.value, source, size, done, pending, failed)
    ensures ValidStage(stage, done) && SameWork(stage, source, size)
    ensures forall o :: o in pending ==> o < |Runs(source)|
    ensures pending == {} && !failed ==> ValidIndex(Index(stage.checkpoint.value, stage.index.value))
  {
    if pending == {} && !failed {
      assert done == Ordinals(|Runs(source)|);
    }
  }

  // What a build does to the work at hand

  /** A worker that ran, and whether its result reached the checkpoint. */
  datatype Work = Work(ordinal: nat, recorded: bool)

  /** The tensorization so far: the games whose futures are open, the workers that ran, and
      whether the process is alive. */
  datatype Drained = Drained(pending: set<nat>, log: seq<Work>, alive: bool)

  /** The first event of each missing game counts, until one kills the process. */
  function AfterEvents(missing: set<nat>, events: seq<Event>): Drained {
    if events == [] then Drained(missing, [], true)
    else
      var n := |events| - 1;
      AfterEvent(AfterEvents(missing, events[..n]), events[n])
  }

  function AfterEvent(d: Drained, e: Event): Drained {
    if !d.alive || e.ordinal !in d.pending then d
    else Drained(d.pending - {e.ordinal}, d.log + [Work(e.ordinal, e.outcome.Done?)], !e.outcome.Killed?)
  }

  function Recorded(log: seq<Work>): set<nat> {
    set w | w in log && w.recorded :: w.ordinal
  }

  /** What an earlier build has left for a source and chunk size: its index, a staging directory
      that records some games, or nothing usable. */
  datatype Standing = Published | Partial(done: set<nat>) | Bare

  datatype Built = Built(standing: Standing, log: seq<Work>, success: bool)

  /** What befalls one build. */
  datatype Attempt = Attempt(scan: ScanFate, events: seq<Event>, publish: PublishFate) {
    /** The source is scanned, every worker succeeds, and the index is replaced. */
    ghost predicate Clean(games: nat) {
      scan.Scans? && AllSucceed(events, games) && publish.Replaces?
    }
  }

  function DoneOf(s: Standing): set<nat> {
    if s.Partial? then s.done else {}
  }

  /** What is left once the index was ready to be published. */
  function AfterPublish(games: nat, fate: PublishFate): Standing {
    match fate
    case Replaces | DiesAfter => Published
    case NotReplaced | DiesBetween => Partial(Ordinals(games))
    case RolledBack | DiesUndoing => Bare
  }

  /** There is work to do and the source is scanned if it must be. */
  predicate Starts(s: Standing, attempt: Attempt) {
    s.Partial? || (s.Bare? && attempt.scan.Scans?)
  }

  function Drains(games: nat, s: Standing, attempt: Attempt): Drained {
    AfterEvents(Ordinals(games) - DoneOf(s), attempt.events)
  }

  /** Every game gets recorded, so the attempt comes to publishing. */
  predicate Reaches(games: nat, s: Standing, attempt: Attempt) {
    && Starts(s, attempt)
    && var d := Drains(games, s, attempt); d.alive && DoneOf(s) + Recorded(d.log) == Ordinals(games)
  }

  /** One build of a source of so many games. */
  function AfterBuild(games: nat, s: Standing, attempt: Attempt): Built {
    if !Starts(s, attempt) then Built(s, [], s.Published?)
    else
      var d := Drains(games, s, attempt);
      if Reaches(games, s, attempt) then Built(AfterPublish(games, attempt.publish), d.log, attempt.publish.Replaces?)
      else Built(Partial(DoneOf(s) + Recorded(d.log)), d.log, false)
  }

  function AfterBuilds(games: nat, s: Standing, attempts: seq<Attempt>): Built {
    if attempts == [] then Built(s, [], false)
    else
      var n := |attempts| - 1;
      var before := AfterBuilds(games, s, attempts[..n]);
      var b := AfterBuild(games, before.standing, attempts[n]);
      Built(b.standing, before.log + b.log, b.success)
  }

  predicate RanFor(log: seq<Work>, k: nat) {
    exists j :: 0 <= j < |log| && log[j].ordinal == k
  }

  /** Workers of missing games only, one each. */
  predicate OncePerGame(log: seq<Work>, missing: set<nat>) {
    && (forall j :: 0 <= j < |log| ==> log[j].ordinal in missing)
    && (forall i, j :: 0 <= i < j < |log| ==> log[i].ordinal != log[j].ordinal)
  }

  lemma RecordedSnoc(log: seq<Work>, w: Work)
    ensures Recorded(log + [w]) == Recorded(log) + if w.recorded then {w.ordinal} else {}
  {
    forall k ensures k in Recorded(log + [w]) <==> k in Recorded(log) || (w.recorded && k == w.ordinal) {
      if k in Recorded(log) {
        var v :| v in log && v.recorded && v.ordinal == k;
        assert v in log + [w];
      }
      if w.recorded && k == w.ordinal {
        assert w in log + [w];
      }
    }
  }

  /** Every missing game is either still pending or had its one worker. */
  lemma {:induction false} EventsPartition(missing: set<nat>, events: seq<Event>)
    ensures var d := AfterEvents(missing, events);
            && d.pending <= missing && OncePerGame(d.log, missing)
            && (forall k :: k in missing ==> (k in d.pending <==> !RanFor(d.log, k)))
  {
    if events != [] {
      var n := |events| - 1;
      EventsPartition(missing, events[..n]);
      EventPartitions(missing, AfterEvents(missing, events[..n]), events[n]);
    }
  }

  lemma EventPartitions(missing: set<nat>, d: Drained, e: Event)
    requires d.pending <= missing && OncePerGame(d.log, missing)
    requires forall k :: k in missing ==> (k in d.pending <==> !RanFor(d.log, k))
    ensures var now := AfterEvent(d, e);
            && now.pending <= missing && OncePerGame(now.log, missing)
            && (forall k :: k in missing ==> (k in now.pending <==> !RanFor(now.log, k)))
  {
    var now := AfterEvent(d, e);
    if now != d {
      forall k ensures RanFor(now.log, k) <==> RanFor(d.log, k) || k == e.ordinal {
        RanForSnoc(d.log, Work(e.ordinal, e.outcome.Done?), k);
      }
      assert !RanFor(d.log, e.ordinal);
    }
  }

  lemma RanForSnoc(log: seq<Work>, w: Work, k: nat)
    ensures RanFor(log + [w], k) <==> RanFor(log, k) || k == w.ordinal
  {
    if RanFor(log, k) {
      var j :| 0 <= j < |log| && log[j].ordinal == k;
      assert (log + [w])[j].ordinal == k;
    }
    if k == w.ordinal {
      assert (log + [w])[|log|].ordinal == k;
    }
  }

  /** No worker that ran so far failed. */
  predicate NoneFailed(log: seq<Work>) {
    forall j :: 0 <= j < |log| ==> log[j].recorded
  }

  /** Every missing game is recorded exactly when no future is open and none has failed. */
  lemma AllRecordedIff(missing: set<nat>, events: seq<Event>)
    ensures var d := AfterEvents(missing, events);
            Recorded(d.log) <= missing && (Recorded(d.log) == missing <==> d.pending == {} && NoneFailed(d.log))
  {
    EventsPartition(missing, events);
    var d := AfterEvents(missing, events);
    forall k | k in Recorded(d.log) ensures k in missing && k !in d.pending {
      var w :| w in d.log && w.recorded && w.ordinal == k;
      var j :| 0 <= j < |d.log| && d.log[j] == w;
      assert RanFor(d.log, k);
    }
    if d.pending == {} && NoneFailed(d.log) {
      forall k | k in missing ensures k in Recorded(d.log) {
        var j :| 0 <= j < |d.log| && d.log[j].ordinal == k;
        assert d.log[j] in d.log;
      }
    }
    if Recorded(d.log) == missing {
      forall j | 0 <= j < |d.log| ensures d.log[j].recorded {
        OneWorkerEach(d.log, missing, j);
      }
    }
  }

  lemma OneWorkerEach(log: seq<Work>, missing: set<nat>, j: nat)
    requires OncePerGame(log, missing) && j < |log| && log[j].ordinal in Recorded(log)
    ensures log[j].recorded
  {
    var w :| w in log && w.recorded && w.ordinal == log[j].ordinal;
    var i :| 0 <= i < |log| && log[i] == w;
  }

  /** When every worker succeeds every missing game is recorded. */
  lemma {:induction false} SuccessRecordsAll(missing: set<nat>, events: seq<Event>, games: nat)
    requires AllSucceed(events, games) && forall k :: k in missing ==> k < games
    ensures AfterEvents(missing, events).alive && Recorded(AfterEvents(missing, events).log) == missing
  {
    AllDoneDrains(missing, events);
    AllRecordedIff(missing, events);
    var d := AfterEvents(missing, events);
    EventsPartition(missing, events);
    forall k | k in missing ensures k !in d.pending {
      assert Completes(events, k);
    }
  }

  lemma {:induction false} AllDoneDrains(missing: set<nat>, events: seq<Event>)
    requires AllDone(events)
    ensures var d := AfterEvents(missing, events);
            d.alive && NoneFailed(d.log) && forall e :: 0 <= e < |events| ==> events[e].ordinal !in d.pending
  {
    if events != [] {
      AllDoneDrains(missing, events[..|events| - 1]);
    }
  }

  /** Event e is looked at: its game is missing, no earlier event was about that game, and no earlier
      one that was looked at killed the process. */
  ghost predicate Counts(missing: set<nat>, events: seq<Event>, e: nat)
    decreases e
  {
    && e < |events| && events[e].ordinal in missing
    && forall f: nat :: f < e ==>
         events[f].ordinal != events[e].ordinal && !(events[f].outcome.Killed? && Counts(missing, events, f))
  }

  ghost predicate CountsFor(missing: set<nat>, events: seq<Event>, k: nat, done: bool) {
    exists e: nat :: Counts(missing, events, e) && events[e].ordinal == k && (done ==> events[e].outcome == Done)
  }

  ghost predicate KillCounts(missing: set<nat>, events: seq<Event>) {
    exists e: nat :: Counts(missing, events, e) && events[e].outcome.Killed?
  }

  lemma {:induction false} CountsPrefix(missing: set<nat>, events: seq<Event>, n: nat, e: nat)
    requires e < n <= |events|
    ensures Counts(missing, events[..n], e) <==> Counts(missing, events, e)
    decreases e
  {
    forall f: nat | f < e
      ensures events[..n][f] == events[f] && (Counts(missing, events[..n], f) <==> Counts(missing, events, f))
    {
      CountsPrefix(missing, events, n, f);
    }
  }

  lemma CountsForSnoc(missing: set<nat>, events: seq<Event>, k: nat, done: bool)
    requires events != []
    ensures var n := |events| - 1;
            CountsFor(missing, events, k, done) <==>
              || CountsFor(missing, events[..n], k, done)
              || (Counts(missing, events, n) && events[n].ordinal == k && (done ==> events[n].outcome == Done))
  {
    hide Counts;
    var n := |events| - 1;
    forall e: nat | e < n ensures Counts(missing, events[..n], e) <==> Counts(missing, events, e) {
      CountsPrefix(missing, events, n, e);
    }
    OnlyEventsCount(missing, events);
    OnlyEventsCount(missing, events[..n]);
    if CountsFor(missing, events[..n], k, done) {
      var e: nat :| Counts(missing, events[..n], e) && events[..n][e].ordinal == k
                    && (done ==> events[..n][e].outcome == Done);
      assert Counts(missing, events, e) && events[e] == events[..n][e];
    }
    if CountsFor(missing, events, k, done) {
      var e: nat :| Counts(missing, events, e) && events[e].ordinal == k && (done ==> events[e].outcome == Done);
      if e < n {
        assert Counts(missing, events[..n], e) && events[e] == events[..n][e];
      }
    }
  }

  lemma OnlyEventsCount(missing: set<nat>, events: seq<Event>)
    ensures forall e: nat :: Counts(missing, events, e) ==> e < |events| && events[e].ordinal in missing
  {
  }

  lemma KillCountsSnoc(missing: set<nat>, events: seq<Event>)
    requires events != []
    ensures var n := |events| - 1;
            KillCounts(missing, events) <==>
              KillCounts(missing, events[..n]) || (Counts(missing, events, n) && events[n].outcome.Killed?)
  {
    hide Counts;
    var n := |events| - 1;
    forall e: nat | e < n ensures Counts(missing, events[..n], e) <==> Counts(missing, events, e) {
      CountsPrefix(missing, events, n, e);
    }
    OnlyEventsCount(missing, events);
    OnlyEventsCount(missing, events[..n]);
    if KillCounts(missing, events[..n]) {
      var e: nat :| Counts(missing, events[..n], e) && events[..n][e].outcome.Killed?;
      assert Counts(missing, events, e) && events[e] == events[..n][e];
    }
    if KillCounts(missing, events) {
      var e: nat :| Counts(missing, events, e) && events[e].outcome.Killed?;
      if e < n {
        assert Counts(missing, events[..n], e) && events[e] == events[..n][e];
      }
    }
  }

  /** The last event is looked at when the process still lives and its game is still open. */
  lemma LastCounts(missing: set<nat>, events: seq<Event>)
    requires events != []
    ensures var n := |events| - 1;
            Counts(missing, events, n) <==>
              && events[n].ordinal in missing && !KillCounts(missing, events[..n])
              && !CountsFor(missing, events[..n], events[n].ordinal, false)
  {
    var n, k := |events| - 1, events[|events| - 1].ordinal;
    forall f: nat | f < n ensures Counts(missing, events[..n], f) <==> Counts(missing, events, f) {
      CountsPrefix(missing, events, n, f);
    }
    if k in missing && !KillCounts(missing, events[..n]) && exists f: nat :: f < n && events[f].ordinal == k {
      FirstOf(missing, events[..n], k);
    }
    if Counts(missing, events, n) {
      forall f: nat | Counts(missing, events[..n], f) ensures events[f].ordinal != k && !events[f].outcome.Killed? {
        assert Counts(missing, events, f);
      }
    }
  }

  /** Without a kill the first event of a missing game is looked at. */
  lemma {:induction false} FirstOf(missing: set<nat>, events: seq<Event>, k: nat)
    requires k in missing && !KillCounts(missing, events) && exists f: nat :: f < |events| && events[f].ordinal == k
    ensures CountsFor(missing, events, k, false)
  {
    var n := |events| - 1;
    if exists f: nat :: f < n && events[..n][f].ordinal == k {
      KillCountsSnoc(missing, events);
      FirstOf(missing, events[..n], k);
      CountsForSnoc(missing, events, k, false);
    } else {
      assert forall f: nat :: f < n ==> events[..n][f] == events[f];
      assert Counts(missing, events, n);
    }
  }

  /** What the workers' events leave: a game is recorded exactly when the event looked at for it
      reports success, it stays open without one, and the process lives unless such an event
      killed it. */
  lemma {:induction false} EventsMean(missing: set<nat>, events: seq<Event>)
    ensures var d := AfterEvents(missing, events);
            && (d.alive <==> !KillCounts(missing, events))
            && (forall k: nat :: k in Recorded(d.log) <==> CountsFor(missing, events, k, true))
            && (forall k: nat :: k in d.pending <==> k in missing && !CountsFor(missing, events, k, false))
  {
    hide Counts, CountsFor, KillCounts, Recorded;
    if events == [] {
      NothingCounts(missing);
    } else {
      var n := |events| - 1;
      EventsMean(missing, events[..n]);
      var before, e := AfterEvents(missing, events[..n]), events[n];
      LastCounts(missing, events);
      KillCountsSnoc(missing, events);
      RecordedSnoc(before.log, Work(e.ordinal, e.outcome.Done?));
      forall k: nat, done: bool
        ensures CountsFor(missing, events, k, done) <==>
                  || CountsFor(missing, events[..n], k, done)
                  || (Counts(missing, events, n) && e.ordinal == k && (done ==> e.outcome == Done))
      {
        CountsForSnoc(missing, events, k, done);
      }
    }
  }

  lemma NothingCounts(missing: set<nat>)
    ensures !KillCounts(missing, []) && Recorded([]) == {} && forall k: nat, done :: !CountsFor(missing, [], k, done)
  {
    OnlyEventsCount(missing, []);
  }

  /** How an attempt that comes to publishing ends: in place, still staged, or lost. */
  lemma PublishMeans(games: nat, s: Standing, attempt: Attempt)
    requires Reaches(games, s, attempt)
    ensures var b := AfterBuild(games, s, attempt);
            && (b.success <==> attempt.publish == Replaces)
            && (b.standing == Published <==> attempt.publish in {Replaces, DiesAfter})
            && (b.standing.Partial? <==> attempt.publish in {NotReplaced, DiesBetween})
            && (forall k: nat :: b.standing.Partial? ==> (k in b.standing.done <==> k < games))
            && (b.standing == Bare <==> attempt.publish in {RolledBack, DiesUndoing})
  {
  }

  /** An attempt that does not come to publishing fails; what was recorded stays recorded. */
  lemma UnfinishedMeans(games: nat, s: Standing, attempt: Attempt)
    requires !Reaches(games, s, attempt) && s != Published
    ensures var b := AfterBuild(games, s, attempt);
            && !b.success && b.standing != Published
            && (s == Bare && attempt.scan != Scans ==> b == Built(Bare, [], false))
            && (s.Partial? || attempt.scan == Scans ==>
                  b.standing.Partial? && b.standing.done == DoneOf(s) + Recorded(b.log))
  {
  }

  /** An attempt that comes to publishing has tensorized exactly the games not recorded before,
      each once. */
  lemma ReachingTensorizesTheRest(games: nat, s: Standing, attempt: Attempt)
    requires Reaches(games, s, attempt) && DoneOf(s) <= Ordinals(games)
    ensures var log := AfterBuild(games, s, attempt).log;
            && Recorded(log) == Ordinals(games) - DoneOf(s) && NoneFailed(log)
            && OncePerGame(log, Ordinals(games) - DoneOf(s))
  {
    var missing := Ordinals(games) - DoneOf(s);
    EventsPartition(missing, attempt.events);
    AllRecordedIff(missing, attempt.events);
    RestRecorded(Ordinals(games), DoneOf(s), Recorded(Drains(games, s, attempt).log));
  }

  /** A build that dies, or cannot remove the old index, once the new one is in place fails, but
      the next build returns the new index and runs no worker. */
  lemma DyingAfterStillPublishes(games: nat, s: Standing, first: Attempt, next: Attempt)
    requires Reaches(games, s, first) && first.publish.DiesAfter?
    ensures !AfterBuild(games, s, first).success
    ensures AfterBuild(games, AfterBuild(games, s, first).standing, next) == Built(Published, [], true)
  {
  }

  /** A clean attempt succeeds whatever was left behind. */
  lemma CleanSucceeds(games: nat, s: Standing, attempt: Attempt)
    requires attempt.Clean(games) && DoneOf(s) <= Ordinals(games)
    ensures AfterBuild(games, s, attempt).success
  {
    SuccessRecordsAll(Ordinals(games) - DoneOf(s), attempt.events, games);
    assert DoneOf(s) + (Ordinals(games) - DoneOf(s)) == Ordinals(games);
  }

  lemma BuildKeepsBounds(games: nat, s: Standing, attempt: Attempt)
    requires DoneOf(s) <= Ordinals(games)
    ensures DoneOf(AfterBuild(games, s, attempt).standing) <= Ordinals(games)
    ensures Recorded(AfterBuild(games, s, attempt).log) <= Ordinals(games)
  {
    AllRecordedIff(Ordinals(games) - DoneOf(s), attempt.events);
  }

  /** One clean attempt among any others is enough. */
  lemma {:induction false} CleanAttemptSucceeds(games: nat, s: Standing, attempts: seq<Attempt>)
    requires DoneOf(s) <= Ordinals(games)
    ensures DoneOf(AfterBuilds(games, s, attempts).standing) <= Ordinals(games)
    ensures AfterBuilds(games, s, attempts).success ==> AfterBuilds(games, s, attempts).standing.Published?
    ensures (exists a :: 0 <= a < |attempts| && attempts[a].Clean(games)) ==> AfterBuilds(games, s, attempts).success
  {
    if attempts != [] {
      var n := |attempts| - 1;
      var before := AfterBuilds(games, s, attempts[..n]);
      CleanAttemptSucceeds(games, s, attempts[..n]);
      BuildKeepsBounds(games, before.standing, attempts[n]);
      if a :| 0 <= a < |attempts| && attempts[a].Clean(games) {
        if a < n {
          assert attempts[..n][a] == attempts[a];
        } else {
          CleanSucceeds(games, before.standing, attempts[n]);
        }
      }
    }
  }

  /** Once published, further builds return the index and run no worker. */
  lemma {:induction false} PublishedStays(games: nat, s: Standing, attempts: seq<Attempt>, n: nat)
    requires n <= |attempts| && AfterBuilds(games, s, attempts[..n]).standing.Published?
    ensures var b := AfterBuilds(games, s, attempts);
            && b.standing.Published? && b.log == AfterBuilds(games, s, attempts[..n]).log
            && (n < |attempts| ==> b.success)
  {
    hide AfterBuild;
    if n == |attempts| {
      assert attempts[..n] == attempts;
    } else {
      var m := |attempts| - 1;
      assert attempts[..m][..n] == attempts[..n];
      PublishedStays(games, s, attempts[..m], n);
      PublishedIsCurrent(games, attempts[m]);
    }
  }

  lemma PublishedIsCurrent(games: nat, attempt: Attempt)
    ensures AfterBuild(games, Published, attempt) == Built(Published, [], true)
  {
  }

  // When recorded games are tensorized again

  /** Some worker ran for a game that was recorded before. */
  predicate Repeats(done: set<nat>, log: seq<Work>) {
    exists j :: 0 <= j < |log| && RepeatsAt(done, log, j)
  }

  predicate RepeatsAt(done: set<nat>, log: seq<Work>, j: nat)
    requires j < |log|
  {
    log[j].ordinal in done || log[j].ordinal in Recorded(log[..j])
  }

  /** Some of these workers ran for one of the games seen. */
  predicate Meets(log: seq<Work>, seen: set<nat>) {
    exists j :: 0 <= j < |log| && log[j].ordinal in seen
  }

  /** The attempt comes to publishing, and the staged index is moved and lost. */
  predicate LosesAt(games: nat, s: Standing, attempt: Attempt) {
    Reaches(games, s, attempt) && (attempt.publish.RolledBack? || attempt.publish.DiesUndoing?)
  }

  predicate Loses(games: nat, s: Standing, attempts: seq<Attempt>, a: nat)
    requires a < |attempts|
  {
    LosesAt(games, AfterBuilds(games, s, attempts[..a]).standing, attempts[a])
  }

  /** Some worker runs in attempt a. */
  predicate Works(games: nat, s: Standing, attempts: seq<Attempt>, a: nat)
    requires a < |attempts|
  {
    AfterBuild(games, AfterBuilds(games, s, attempts[..a]).standing, attempts[a]).log != []
  }

  predicate LosesBefore(games: nat, s: Standing, attempts: seq<Attempt>, n: nat)
    requires n <= |attempts|
  {
    exists a :: 0 <= a < n && Loses(games, s, attempts, a)
  }

  predicate WorksAfterLoss(games: nat, s: Standing, attempts: seq<Attempt>) {
    exists b :: 0 <= b < |attempts| && LosesBefore(games, s, attempts, b) && Works(games, s, attempts, b)
  }

  lemma LosesPrefix(games: nat, s: Standing, attempts: seq<Attempt>, n: nat, m: nat)
    requires n <= m <= |attempts|
    ensures LosesBefore(games, s, attempts, n) <==> LosesBefore(games, s, attempts[..m], n)
  {
    forall a | 0 <= a < n ensures Loses(games, s, attempts, a) <==> Loses(games, s, attempts[..m], a) {
      assert attempts[..m][..a] == attempts[..a];
    }
  }

  lemma WorksPrefix(games: nat, s: Standing, attempts: seq<Attempt>, a: nat, m: nat)
    requires a < m <= |attempts|
    ensures Works(games, s, attempts, a) <==> Works(games, s, attempts[..m], a)
  {
    assert attempts[..m][..a] == attempts[..a];
  }

  lemma OneMoreAttempt(games: nat, s: Standing, attempts: seq<Attempt>)
    requires attempts != []
    ensures var n := |attempts| - 1;
            && (LosesBefore(games, s, attempts, n + 1) <==>
                  LosesBefore(games, s, attempts[..n], n) || Loses(games, s, attempts, n))
            && (WorksAfterLoss(games, s, attempts) <==>
                  || WorksAfterLoss(games, s, attempts[..n])
                  || (LosesBefore(games, s, attempts[..n], n) && Works(games, s, attempts, n)))
  {
    hide Loses, Works;
    var n := |attempts| - 1;
    LosesPrefix(games, s, attempts, n, n);
    assert LosesBefore(games, s, attempts, n + 1) <==>
        LosesBefore(games, s, attempts, n) || Loses(games, s, attempts, n);
    forall b | 0 <= b < n
      ensures LosesBefore(games, s, attempts, b) <==> LosesBefore(games, s, attempts[..n], b)
      ensures Works(games, s, attempts, b) <==> Works(games, s, attempts[..n], b)
    {
      LosesPrefix(games, s, attempts, b, n);
      WorksPrefix(games, s, attempts, b, n);
    }
  }

  lemma {:induction false} RecordedConcat(a: seq<Work>, b: seq<Work>)
    ensures Recorded(a + b) == Recorded(a) + Recorded(b)
  {
    forall k ensures k in Recorded(a + b) <==> k in Recorded(a) || k in Recorded(b) {
      if k in Recorded(a) {
        var w :| w in a && w.recorded && w.ordinal == k;
        assert w in a + b;
      }
      if k in Recorded(b) {
        var w :| w in b && w.recorded && w.ordinal == k;
        assert w in a + b;
      }
    }
  }

  lemma RepeatsAtPrefix(done: set<nat>, log: seq<Work>, more: seq<Work>, j: nat)
    requires j < |log|
    ensures RepeatsAt(done, log + more, j) <==> RepeatsAt(done, log, j)
  {
    assert (log + more)[..j] == log[..j];
  }

  lemma RepeatsAtMore(done: set<nat>, log: seq<Work>, more: seq<Work>, missing: set<nat>, j: nat)
    requires OncePerGame(more, missing) && j < |more|
    ensures RepeatsAt(done, log + more, |log| + j) <==> more[j].ordinal in done + Recorded(log)
  {
    assert (log + more)[..|log| + j] == log + more[..j];
    RecordedConcat(log, more[..j]);
    NotYetRecorded(more, missing, j);
  }

  /** Appending the log of workers that ran once each for missing games. */
  lemma RepeatsConcat(done: set<nat>, log: seq<Work>, more: seq<Work>, missing: set<nat>)
    requires OncePerGame(more, missing)
    ensures Repeats(done, log + more) <==> Repeats(done, log) || Meets(more, done + Recorded(log))
  {
    hide RepeatsAt, OncePerGame, Recorded;
    var all, n := log + more, |log|;
    forall j | 0 <= j < n ensures RepeatsAt(done, all, j) <==> RepeatsAt(done, log, j) {
      RepeatsAtPrefix(done, log, more, j);
    }
    forall j | 0 <= j < |more| ensures RepeatsAt(done, all, n + j) <==> more[j].ordinal in done + Recorded(log) {
      RepeatsAtMore(done, log, more, missing, j);
    }
    if Meets(more, done + Recorded(log)) {
      var j :| 0 <= j < |more| && more[j].ordinal in done + Recorded(log);
      assert RepeatsAt(done, all, n + j);
    }
    if Repeats(done, all) {
      var j :| 0 <= j < |all| && RepeatsAt(done, all, j);
      if j < n {
        assert RepeatsAt(done, log, j);
      } else {
        assert RepeatsAt(done, all, n + (j - n));
        assert more[j - n].ordinal in done + Recorded(log);
      }
    }
  }

  lemma NotYetRecorded(log: seq<Work>, missing: set<nat>, j: nat)
    requires OncePerGame(log, missing) && j < |log|
    ensures log[j].ordinal !in Recorded(log[..j])
  {
    forall k | k in Recorded(log[..j]) ensures k != log[j].ordinal {
      var w :| w in log[..j] && w.recorded && w.ordinal == k;
      var i :| 0 <= i < j && log[..j][i] == w;
      assert log[i].ordinal == k;
    }
  }

  /** What is known after some attempts: without a loss the staging directory holds all that
      was ever recorded; after a loss every game was recorded. */
  ghost predicate Remembers(games: nat, s: Standing, b: Built, lost: bool) {
    var seen := DoneOf(s) + Recorded(b.log);
    if lost then seen == Ordinals(games)
    else (b.standing.Partial? ==> b.standing.done == seen) && (b.standing.Bare? ==> seen == {})
  }

  lemma AttemptRemembers(games: nat, s: Standing, before: Built, attempt: Attempt, lost: bool)
    requires DoneOf(s) <= Ordinals(games) && DoneOf(before.standing) <= Ordinals(games)
    requires Remembers(games, s, before, lost)
    ensures var b := AfterBuild(games, before.standing, attempt);
            Remembers(games, s, Built(b.standing, before.log + b.log, b.success),
                      lost || LosesAt(games, before.standing, attempt))
  {
    hide Ordinals, Recorded, AfterEvents;
    var b := AfterBuild(games, before.standing, attempt);
    BuildKeepsBounds(games, before.standing, attempt);
    RecordedConcat(before.log, b.log);
    NothingRan();
  }

  lemma AttemptRepeats(games: nat, s: Standing, before: Built, attempt: Attempt, lost: bool)
    requires DoneOf(s) <= Ordinals(games) && DoneOf(before.standing) <= Ordinals(games)
    requires Remembers(games, s, before, lost)
    ensures var log := AfterBuild(games, before.standing, attempt).log;
            Repeats(DoneOf(s), before.log + log) <==> Repeats(DoneOf(s), before.log) || (lost && log != [])
  {
    hide Ordinals, Recorded, AfterEvents, Repeats;
    var log := AfterBuild(games, before.standing, attempt).log;
    var missing := Ordinals(games) - DoneOf(before.standing);
    EventsPartition(missing, attempt.events);
    RepeatsConcat(DoneOf(s), before.log, log, missing);
    var seen := DoneOf(s) + Recorded(before.log);
    if lost && log != [] {
      assert log[0].ordinal in seen;
    }
    if Meets(log, seen) {
      var j :| 0 <= j < |log| && log[j].ordinal in seen;
      assert log[j].ordinal in missing;
    }
  }

  /** Over any attempts: a recorded game is tensorized again if and only if an attempt came to
      publishing and lost the staged index, and a worker ran in a later one. */
  lemma {:induction false} RepeatsIff(games: nat, s: Standing, attempts: seq<Attempt>)
    requires DoneOf(s) <= Ordinals(games)
    ensures Repeats(DoneOf(s), AfterBuilds(games, s, attempts).log) <==> WorksAfterLoss(games, s, attempts)
    ensures Remembers(games, s, AfterBuilds(games, s, attempts), LosesBefore(games, s, attempts, |attempts|))
  {
    hide Repeats, Remembers, LosesBefore, WorksAfterLoss, AfterBuild, LosesAt;
    if attempts == [] {
      NothingRepeats(games, s);
    } else {
      var n := |attempts| - 1;
      var before := AfterBuilds(games, s, attempts[..n]);
      RepeatsIff(games, s, attempts[..n]);
      CleanAttemptSucceeds(games, s, attempts[..n]);
      OneMoreAttempt(games, s, attempts);
      AttemptRemembers(games, s, before, attempts[n], LosesBefore(games, s, attempts[..n], n));
      AttemptRepeats(games, s, before, attempts[n], LosesBefore(games, s, attempts[..n], n));
    }
  }

  lemma NothingRepeats(games: nat, s: Standing)
    ensures !Repeats(DoneOf(s), []) && !WorksAfterLoss(games, s, []) && !LosesBefore(games, s, [], 0)
    ensures Remembers(games, s, Built(s, [], false), false)
  {
  }

  /** After a loss the next attempt that comes to publishing has tensorized every game again. */
  lemma LossRepeatsAll(games: nat, s: Standing, first: Attempt, second: Attempt)
    requires games > 0 && DoneOf(s) <= Ordinals(games)
    requires LosesAt(games, s, first)
    requires Reaches(games, Bare, second)
    ensures Recorded(AfterBuild(games, AfterBuild(games, s, first).standing, second).log) == Ordinals(games)
    ensures Repeats(DoneOf(s), AfterBuilds(games, s, [first, second]).log)
  {
    var attempts := [first, second];
    assert attempts[..0] == [] && attempts[..1] == [first] && attempts[..1][..0] == [];
    assert AfterBuilds(games, s, attempts[..1]).standing == Bare;
    assert Loses(games, s, attempts, 0);
    assert {} + Recorded(Drains(games, Bare, second).log) == Recorded(Drains(games, Bare, second).log);
    assert 0 in Recorded(AfterBuild(games, Bare, second).log);
    assert Works(games, s, attempts, 1);
    RepeatsIff(games, s, attempts);
  }

  /** Such a loss with two games: both are tensorized, and both again. */
  lemma RolledBackBuildRepeats()
    ensures var events := [Event(0, Done), Event(1, Done)];
            var b := AfterBuilds(2, Bare, [Attempt(Scans, events, RolledBack), Attempt(Scans, events, Replaces)]);
            && b.log == [Work(0, true), Work(1, true), Work(0, true), Work(1, true)]
            && b.success && Repeats({}, b.log)
  {
    var events := [Event(0, Done), Event(1, Done)];
    var first, second := Attempt(Scans, events, RolledBack), Attempt(Scans, events, Replaces);
    BothAreTensorized(RolledBack);
    BothAreTensorized(Replaces);
    hide AfterBuild, Recorded;
    assert [first, second][..1] == [first] && [first][..0] == [];
    assert AfterBuilds(2, Bare, []) == Built(Bare, [], false);
    assert AfterBuilds(2, Bare, [first]) == Built(Bare, [Work(0, true), Work(1, true)], false);
    assert AfterPublish(2, RolledBack) == Bare && AfterPublish(2, Replaces) == Published;
    hide AfterPublish, Repeats;
    var log := AfterBuilds(2, Bare, [first, second]).log;
    RepeatedLog(log);
  }

  lemma RepeatedLog(log: seq<Work>)
    requires log == [Work(0, true), Work(1, true)] + [Work(0, true), Work(1, true)]
    ensures Repeats({}, log)
  {
    assert log[..2] == [Work(0, true), Work(1, true)];
    RecordedHas(log[..2], Work(0, true));
    assert RepeatsAt({}, log, 2);
  }

  lemma BothAreTensorized(fate: PublishFate)
    ensures AfterBuild(2, Bare, Attempt(Scans, [Event(0, Done), Event(1, Done)], fate))
         == Built(AfterPublish(2, fate), [Work(0, true), Work(1, true)], fate.Replaces?)
  {
    hide AfterEvents, Ordinals, Recorded;
    BothAreRecorded();
    assert Ordinals(2) - {} == Ordinals(2);
  }

  lemma RecordedHas(log: seq<Work>, w: Work)
    requires w in log && w.recorded
    ensures w.ordinal in Recorded(log)
  {
  }

  lemma BothAreRecorded()
    ensures var d := AfterEvents(Ordinals(2), [Event(0, Done), Event(1, Done)]);
            d.alive && d.log == [Work(0, true), Work(1, true)] && Recorded(d.log) == Ordinals(2)
  {
    var events := [Event(0, Done), Event(1, Done)];
    assert events[..1] == [Event(0, Done)] && events[..1][..0] == [];
    assert AfterEvents(Ordinals(2), events[..1]) == Drained(Ordinals(2) - {0}, [Work(0, true)], true);
    var d := AfterEvents(Ordinals(2), events);
    assert d.log == [Work(0, true), Work(1, true)];
    assert Work(0, true) in d.log && Work(1, true) in d.log;
    forall k ensures k in Recorded(d.log) <==> k in Ordinals(2) {
    }
  }

  class Builder {
    var stage: Stage
    var published: Option<Index>
    ghost var done: set<nat>  // the games the staging checkpoint records as finished

    ghost predicate Valid()
      reads this
    {
      ValidStage(stage, done) && (published.Some? ==> ValidIndex(published.value))
    }

    constructor ()
      ensures Valid() && stage == Stage(None, None) && published == None
    {
      stage, published, done := Stage(None, None), None, {};
    }

    /** Reuse a compatible staging directory, or discard it and scan the source. */
    method Prepare(source: seq<SourceRow>, size: nat, fate: ScanFate) returns (r: Result<Catalog>)
      requires Valid() && size > 0
      modifies `stage, `done
      ensures Valid()
      ensures r.Success? <==> Reusable(old(stage), source, size) || (Indexable(source) && fate.Scans?)
      ensures if r.Success? then stage.checkpoint == Some(r.value) && stage.index.Some? else stage.checkpoint == None
      ensures r.Success? ==> r.value.source == source && r.value.size == size
      ensures Reusable(old(stage), source, size) ==> stage == old(stage) && done == old(done)
      ensures !Reusable(old(stage), source, size) ==> done == {}
    {
      if stage.checkpoint.Some? && stage.index.Some? {
        var c := stage.checkpoint.value;
        var staging := ValidateStaging(c);
        if staging && c.source == source && c.size == size && Intact(stage.index.value, c) {
          return Success(c);
        }
      }
      done := {};
      if fate.ScanDies? {
        stage := Stage(None, Some(Files(map[], map[])));
        return Failure;
      }
      stage := Stage(None, None);
      var scanned := Scan(source, size);
      if scanned.Failure? || fate.ScanRaises? {
        return Failure;
      }
      var (c, fragments) := scanned.value;
      CheckpointIsValid(source, size, {});
      var valid := ValidateStaging(c);
      if !valid {
        assert false;
      }
      stage := Stage(Some(c), Some(Files(fragments, map[])));
      r := Success(c);
    }

    /** The loop's state is what the staging directory holds. */
    ghost predicate Tensorizing(source: seq<SourceRow>, size: nat, pending: set<nat>, failed: bool)
      reads this
    {
      && stage.checkpoint.Some? && stage.index.Some?
      && Working(stage.checkpoint.value, stage.index.value, source, size, done, pending, failed)
      && (published.Some? ==> ValidIndex(published.value))
    }

    /** Clear the unfinished games' leftovers. */
    method Clear() returns (pending: set<nat>)
      requires Valid() && stage.checkpoint.Some? && stage.index.Some?
      modifies `stage
      ensures stage.checkpoint == old(stage.checkpoint) && pending == Missing(stage.checkpoint.value)
      ensures Tensorizing(stage.checkpoint.value.source, stage.checkpoint.value.size, pending, false)
    {
      var c, files := stage.checkpoint.value, stage.index.value;
      pending := Missing(c);
      MissingIsPending(c, files, c.source, c.size, done);
      stage := stage.(index := Some(files.(training := Without(files.training, pending))));
    }

    /** A worker's chunks arrive: revalidate and write the checkpoint. */
    method RecordSuccess(ghost source: seq<SourceRow>, ghost size: nat, ghost pending: set<nat>, ghost failed: bool,
                         o: nat)
      requires Tensorizing(source, size, pending, failed) && o in pending
      modifies `stage, `done
      ensures Tensorizing(source, size, pending - {o}, failed) && done == old(done) + {o}
    {
      var c, files := stage.checkpoint.value, stage.index.value;
      FragmentIsTheGame(source, size, done, o);
      var chunks, training := Tensorize(files.fragments[o], c.games[o], c.size, files.training);
      if chunks.Failure? {
        assert false;
      }
      FinishedStep(c, files, source, size, done, pending, failed, o, training);
      c := Finished(c, o, chunks.value);
      done := done + {o};
      CheckpointIsValid(source, size, done);
      var valid := ValidateStaging(c);
      if !valid {
        assert false;
      }
      stage := Stage(Some(c), Some(files.(training := training)));
    }

    /** A worker fails, leaving some files of its game. */
    method RecordFailure(ghost source: seq<SourceRow>, ghost size: nat, ghost pending: set<nat>, ghost failed: bool,
                         o: nat,
                         debris: map<ChunkPath, ChunkFile>)
      requires Tensorizing(source, size, pending, failed) && o in pending
      modifies `stage
      ensures Tensorizing(source, size, pending - {o}, true)
    {
      var files := stage.index.value;
      FailedStep(stage.checkpoint.value, files, source, size, done, pending, failed, o, debris);
      stage := stage.(index := Some(files.(training := files.training + Only(debris, {o}))));
    }

    /** The process dies, leaving some files of unfinished games. */
    method Die(ghost source: seq<SourceRow>, ghost size: nat, pending: set<nat>, ghost failed: bool,
               debris: map<ChunkPath, ChunkFile>)
      requires Tensorizing(source, size, pending, failed)
      modifies `stage
      ensures Valid() && SameWork(stage, source, size)
    {
      var files := stage.index.value;
      LeftoversKeepStaged(files, source, size, done, pending, debris);
      stage := stage.(index := Some(files.(training := files.training + Only(debris, pending))));
    }

    /** One future completes, or the process dies first. */
    method Record(ghost source: seq<SourceRow>, ghost size: nat, pending: set<nat>, ghost failed: bool, event: Event)
      returns (alive: bool, succeeded: bool)
      requires Tensorizing(source, size, pending, failed) && event.ordinal in pending
      modifies `stage, `done
      ensures alive ==> Tensorizing(source, size, pending - {event.ordinal}, failed || !succeeded)
      ensures done == (if alive && succeeded then old(done) + {event.ordinal} else old(done))
      ensures !alive ==> Valid() && SameWork(stage, source, size)
      ensures alive == !event.outcome.Killed? && succeeded == event.outcome.Done?
    {
      alive, succeeded := true, false;
      match event.outcome
      case Done =>
        RecordSuccess(source, size, pending, failed, event.ordinal);
        succeeded := true;
      case Failed(debris) => RecordFailure(source, size, pending, failed, event.ordinal, debris);
      case Killed(debris) =>
        Die(source, size, pending, failed, debris);
        alive := false;
    }

    /** Checkpoint each worker's success as it arrives; remember a failure and go on. */
    method Drain(ghost source: seq<SourceRow>, ghost size: nat, missing: set<nat>, events: seq<Event>)
      returns (alive: bool, pending: set<nat>, failed: bool, ghost log: seq<Work>)
      requires Tensorizing(source, size, missing, false)
      modifies `stage, `done
      ensures alive ==> Tensorizing(source, size, pending, failed)
      ensures !alive ==> Valid() && SameWork(stage, source, size)
      ensures done == old(done) + Recorded(log)
      ensures var d := AfterEvents(missing, events);
              alive == d.alive && log == d.log && (alive ==> pending == d.pending && (failed <==> !NoneFailed(log)))
    {
      hide Working, NoneFailed, Recorded;
      NothingRan();
      log, pending, failed := [], missing, false;
      for e := 0 to |events|
        invariant Tensorizing(source, size, pending, failed) && done == old(done) + Recorded(log)
        invariant AfterEvents(missing, events[..e]) == Drained(pending, log, true)
        invariant failed <==> !NoneFailed(log)
      {
        assert events[..e + 1][..e] == events[..e];
        if events[e].ordinal in pending {
          var succeeded;
          alive, succeeded := Record(source, size, pending, failed, events[e]);
          RecordedSnoc(log, Work(events[e].ordinal, succeeded));
          NoneFailedSnoc(log, Work(events[e].ordinal, succeeded));
          log := log + [Work(events[e].ordinal, succeeded)];
          if !alive {
            DeadStaysDead(missing, events, e + 1);
            return;
          }
          failed, pending := failed || !succeeded, pending - {events[e].ordinal};
        }
      }
      assert events[..|events|] == events;
      alive := true;
    }

    /** Tensorize what the checkpoint does not record yet. */
    method TensorizeMissing(events: seq<Event>) returns (ok: bool, ghost log: seq<Work>)
      requires Valid() && stage.checkpoint.Some? && stage.index.Some?
      modifies `stage, `done
      ensures Valid() && SameWork(stage, old(stage.checkpoint.value.source), old(stage.checkpoint.value.size))
      ensures ok ==> ValidIndex(Index(stage.checkpoint.value, stage.index.value))
      ensures var games := |Runs(stage.checkpoint.value.source)|;
              var d := AfterEvents(Ordinals(games) - old(done), events);
              && log == d.log && done == old(done) + Recorded(log)
              && (ok <==> d.alive && done == Ordinals(games))
    {
      ghost var source, size := stage.checkpoint.value.source, stage.checkpoint.value.size;
      ghost var games := |Runs(source)|;
      MissingIsTheRest(source, size, done);
      var missing := Clear();
      var alive, pending, failed;
      alive, pending, failed, log := Drain(source, size, missing, events);
      AllRecordedIff(missing, events);
      RestRecorded(Ordinals(games), old(done), Recorded(log));
      if !alive {
        return false, log;
      }
      ok := pending == {} && !failed;
      WorkingIsValid(stage, source, size, done, pending, failed);
    }

    /** Replace the published index by the staged one, or undo the attempt. */
    method Publish(manifest: Catalog, fate: PublishFate) returns (ok: bool)
      requires Valid() && stage.checkpoint == Some(manifest) && stage.index.Some?
      requires ValidIndex(Index(manifest, stage.index.value))
      modifies `stage, `published, `done
      ensures Valid() && ok == fate.Replaces?
      ensures ok ==> stage == Stage(None, None)
      ensures !ok ==> stage.checkpoint == old(stage.checkpoint) && done == old(done)
      ensures !ok ==> stage.index == if fate.NotReplaced? || fate.DiesBetween? then old(stage.index) else None
      ensures published == match fate
                           case Replaces | DiesAfter => Some(Index(manifest, old(stage.index.value)))
                           case NotReplaced | RolledBack => old(published)
                           case DiesBetween | DiesUndoing => None
    {
      ok := false;
      match fate
      case NotReplaced =>
      case DiesBetween =>
        published := None;
      case RolledBack =>
        stage := stage.(index := None);
      case DiesUndoing =>
        published, stage := None, stage.(index := None);
      case DiesAfter =>
        published, stage := Some(Index(manifest, stage.index.value)), stage.(index := None);
      case Replaces =>
        published, ok := Some(Index(manifest, stage.index.value)), true;
        stage, done := Stage(None, None), {};
    }

    /** Whether the published index already belongs to this source and chunk size. */
    predicate Current(source: seq<SourceRow>, size: nat)
      reads this
    {
      published.Some? && published.value.manifest.source == source && published.value.manifest.size == size
    }

    /** What earlier builds have left for this source and chunk size. */
    ghost function Left(source: seq<SourceRow>, size: nat): Standing
      reads this
    {
      if Current(source, size) then Published
      else if Reusable(stage, source, size) then Partial(done)
      else Bare
    }

    /** One build.  Whatever happened before, success publishes the manifest that the source and
        the chunk size determine; what it leaves, which workers ran and whether it succeeds
        follow from what was left before and from what befalls it. */
    method Build(source: seq<SourceRow>, size: nat, attempt: Attempt) returns (r: Result<Catalog>, ghost log: seq<Work>)
      requires Valid()
      modifies this
      ensures Valid()
      ensures r.Success? ==> size > 0 && Indexable(source) && r.value == ManifestOf(source, size)
                             && ValidManifest(r.value) && Current(source, size)
      ensures r.Failure? ==>
                || published == old(published)
                || (published == None && (attempt.publish.DiesBetween? || attempt.publish.DiesUndoing?))
                || (Current(source, size) && attempt.publish.DiesAfter?)
      ensures old(Current(source, size)) && size > 0 ==> published == old(published) && stage == old(stage)
      ensures size == 0 || !Indexable(source) ==> r.Failure? && log == [] && published == old(published)
      ensures size > 0 && Indexable(source) ==>
                Built(Left(source, size), log, r.Success?)
                    == AfterBuild(|Runs(source)|, old(Left(source, size)), attempt)
    {
      hide Staged, Complete, ValidStaging, Intact, ValidManifest, Recorded;
      log := [];
      if size == 0 {
        return Failure, log;
      }
      if Current(source, size) {
        ManifestIsValid(source, size);
        return Success(published.value.manifest), log;
      }
      StageIsIndexable(stage, done);
      ghost var left := Left(source, size);
      var prepared := Prepare(source, size, attempt.scan);
      if prepared.Failure? {
        return Failure, log;
      }
      assert done == DoneOf(left);
      var ok;
      ok, log := TensorizeMissing(attempt.events);
      LeftoversAreReusable(stage, done);
      if !ok {
        return Failure, log;
      }
      var manifest := stage.checkpoint.value;
      ManifestIsValid(source, size);
      var valid := ValidateManifest(manifest);
      if !valid {
        assert false;
      }
      var replaced := Publish(manifest, attempt.publish);
      r := if replaced then Success(manifest) else Failure;
    }

    /** Attempt after attempt until one succeeds.  One clean attempt is enough, and a recorded game
        is tensorized again exactly when an attempt lost the staged index on publishing and
        a worker ran in a later one. */
    method BuildRepeatedly(source: seq<SourceRow>, size: nat, attempts: seq<Attempt>)
      returns (r: Result<Catalog>, ghost log: seq<Work>)
      requires Valid() && size > 0 && Indexable(source)
      modifies this
      ensures Valid()
      ensures r.Success? ==> r.value == ManifestOf(source, size) && Current(source, size)
      ensures Built(Left(source, size), log, r.Success?)
           == AfterBuilds(|Runs(source)|, old(Left(source, size)), attempts)
      ensures (exists a :: 0 <= a < |attempts| && attempts[a].Clean(|Runs(source)|)) ==> r.Success?
      ensures Repeats(DoneOf(old(Left(source, size))), log) <==>
                WorksAfterLoss(|Runs(source)|, old(Left(source, size)), attempts)
    {
      hide AfterBuild, Repeats, WorksAfterLoss, Reusable, ValidStage, ValidIndex, Ordinals;
      ghost var games, left := |Runs(source)|, Left(source, size);
      LeftIsBounded(source, size);
      CleanAttemptSucceeds(games, left, attempts);
      RepeatsIff(games, left, attempts);
      log, r := [], Failure;
      for a := 0 to |attempts|
        invariant Valid() && r.Failure?
        invariant Built(Left(source, size), log, false) == AfterBuilds(games, left, attempts[..a])
      {
        ghost var more;
        assert attempts[..a + 1][..a] == attempts[..a];
        r, more := Build(source, size, attempts[a]);
        log := log + more;
        if r.Success? {
          PublishedStays(games, left, attempts, a + 1);
          assert a + 1 == |attempts| ==> attempts[..a + 1] == attempts;
          return;
        }
      }
      assert attempts[..|attempts|] == attempts;
    }

    lemma LeftIsBounded(source: seq<SourceRow>, size: nat)
      requires Valid()
      ensures DoneOf(Left(source, size)) <= Ordinals(|Runs(source)|)
    {
    }
  }

  lemma StageIsIndexable(stage: Stage, done: set<nat>)
    requires ValidStage(stage, done)
    ensures stage.checkpoint.Some? ==> Indexable(stage.checkpoint.value.source)
  {
  }

  lemma MissingIsTheRest(source: seq<SourceRow>, size: nat, done: set<nat>)
    requires size > 0
    ensures Missing(CatalogOf(source, size, done)) == Ordinals(|Runs(source)|) - done
  {
    forall k: nat | k < |Runs(source)| ensures k in Missing(CatalogOf(source, size, done)) <==> k !in done {
      MissingIsUnfinished(source, size, done, k);
    }
  }

  lemma RestRecorded(all: set<nat>, done: set<nat>, recorded: set<nat>)
    requires recorded <= all - done && done <= all
    ensures done + recorded == all <==> recorded == all - done
  {
    if done + recorded == all {
      forall k | k in all - done ensures k in recorded {
        assert k in done + recorded;
      }
    }
  }

  lemma NothingRan()
    ensures NoneFailed([]) && Recorded([]) == {}
  {
  }

  lemma NoneFailedSnoc(log: seq<Work>, w: Work)
    ensures NoneFailed(log + [w]) <==> NoneFailed(log) && w.recorded
  {
    if NoneFailed(log + [w]) {
      forall j | 0 <= j < |log| ensures log[j].recorded {
        assert (log + [w])[j] == log[j];
      }
      assert (log + [w])[|log|] == w;
    }
  }

  lemma {:induction false} DeadStaysDead(missing: set<nat>, events: seq<Event>, n: nat)
    requires n <= |events| && !AfterEvents(missing, events[..n]).alive
    ensures AfterEvents(missing, events) == AfterEvents(missing, events[..n])
  {
    if n == |events| {
      assert events[..n] == events;
    } else {
      var m := |events| - 1;
      assert events[..m][..n] == events[..n];
      DeadStaysDead(missing, events[..m], n);
    }
  }
}

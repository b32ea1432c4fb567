/** Stable boundaries of a played game and the tracker that reports each once. */
module StableBoundaries {
  import opened Common

  datatype Phase = Planning | Resolution | OtherPhase(name: string)

  datatype StepKind = RespawnHero | ResolveCard | OtherStep

  /** A step on the execution stack; waiting when it has asked for or received input. */
  datatype Step = Step(kind: StepKind, waiting: bool, hero: Option<string>)

  /** What boundary detection reads of a game state.  planned maps a hero with a planning
      entry to whether a card is committed, hands a known hero to its hand size. */
  datatype State = State(phase: Phase, round: int, turn: int, current: Option<string>, owner: Option<string>,
                         stack: seq<Step>, secondCards: bool, planningDone: bool,
                         planned: map<string, bool>, hands: map<string, nat>)

  datatype Boundary =
    | ActorReady(round: int, turn: int, actor: string)
    | PlanningReady(round: int, turn: int)

  datatype Anchor = Anchor(phase: Phase, round: int, turn: int, owner: Option<string>)

  function Capture(s: State): Anchor {
    Anchor(s.phase, s.round, s.turn, s.owner)
  }

  predicate AutoPass(s: State, hero: string)
    requires hero in s.planned
  {
    !s.planned[hero] && hero in s.hands && s.hands[hero] == 0
  }

  function Detect(s: State): Option<Boundary> {
    if s.phase.Resolution? && s.stack != [] then
      var step := s.stack[|s.stack| - 1];
      if step.kind.OtherStep? || step.waiting || step.hero.None? then None
      else if s.current != step.hero || s.owner != step.hero then None
      else Some(ActorReady(s.round, s.turn, step.hero.value))
    else if !s.phase.Planning? || s.stack != [] || s.secondCards || s.planningDone then None
    else if exists hero :: hero in s.planned && !AutoPass(s, hero) then None
    else Some(PlanningReady(s.round, s.turn))
  }

  /** (round, turn) compared as a pair. */
  predicate Later(round: int, turn: int, thanRound: int, thanTurn: int) {
    round > thanRound || (round == thanRound && turn > thanTurn)
  }

  predicate LaterBoundary(b: Boundary, a: Anchor) {
    Later(b.round, b.turn, a.round, a.turn)
  }

  function Reached(a: Anchor, s: State): Option<Boundary> {
    match Detect(s)
    case None => None
    case Some(b) =>
      if a.phase.Planning? then
        if b.ActorReady? || LaterBoundary(b, a) then Some(b) else None
      else if a.owner.Some? then
        if b.ActorReady? then
          if b.actor != a.owner.value || LaterBoundary(b, a) then Some(b) else None
        else if LaterBoundary(b, a) then Some(b) else None
      else if b.ActorReady? then Some(b)
      else if LaterBoundary(b, a) || s.phase != a.phase then Some(b)
      else None
  }

  // What is detected

  /** An actor is about to act: the step on top is its untouched respawn or card resolution. */
  lemma ActorReadyMeans(s: State, round: int, turn: int, actor: string)
    ensures Detect(s) == Some(ActorReady(round, turn, actor)) <==>
              && s.phase == Resolution && s.round == round && s.turn == turn
              && |s.stack| > 0
              && s.stack[|s.stack| - 1].kind in {RespawnHero, ResolveCard}
              && !s.stack[|s.stack| - 1].waiting
              && s.stack[|s.stack| - 1].hero == Some(actor) && s.current == Some(actor) && s.owner == Some(actor)
  {
  }

  /** Planning is open: nothing is left to run, and no hero with a planning entry has committed
      a card or still holds one. */
  lemma PlanningReadyMeans(s: State, round: int, turn: int)
    ensures Detect(s) == Some(PlanningReady(round, turn)) <==>
              && s.phase == Planning && s.round == round && s.turn == turn
              && |s.stack| == 0 && !s.secondCards && !s.planningDone
              && forall hero <- s.planned :: s.planned[hero] == false && hero in s.hands && s.hands[hero] == 0
  {
    forall hero <- s.planned
      ensures AutoPass(s, hero) <==> s.planned[hero] == false && hero in s.hands && s.hands[hero] == 0
    {
    }
  }

  lemma LaterMeans(round: int, turn: int, thanRound: int, thanTurn: int)
    ensures Later(round, turn, thanRound, thanTurn) <==> thanRound < round || (thanRound == round && thanTurn < turn)
    ensures NotBefore(round, turn, thanRound, thanTurn) <==>
              thanRound < round || (thanRound == round && thanTurn <= turn)
  {
  }

  // Transitions

  /** From any anchor a detected boundary is reached when the clock went on, when an actor is
      ready whom the anchor was not resolving, or when planning opens after a resolution
      that nobody owned. */
  lemma ReachedMeans(a: Anchor, s: State, b: Boundary)
    ensures Reached(a, s) == Some(b) <==>
              && Detect(s) == Some(b)
              && (|| a.round < s.round || (a.round == s.round && a.turn < s.turn)
                  || (b.ActorReady? && (a.phase == Planning || a.owner != Some(b.actor)))
                  || (b.PlanningReady? && a.phase != Planning && a.owner == None))
  {
  }

  /** Which boundary may come next: planning only in a later turn, an actor again only
      in a later turn or after a planning boundary. */
  predicate Follows(b: Boundary, a: Boundary) {
    || Later(b.round, b.turn, a.round, a.turn)
    || (b.ActorReady? && (a.PlanningReady? || a.actor != b.actor))
  }

  /** From a boundary, exactly the boundaries that may follow it are reached. */
  lemma ReachedIffFollows(s: State, t: State, b: Boundary)
    requires Detect(s).Some?
    ensures Reached(Capture(s), t) == Some(b) <==> Detect(t) == Some(b) && Follows(b, Detect(s).value)
  {
  }

  /** From any anchor, the state it was captured in is not reached again. */
  lemma UnchangedIsNotReached(s: State)
    ensures Reached(Capture(s), s) == None
  {
  }

  lemma FollowsDiffers(b: Boundary, a: Boundary)
    requires Follows(b, a)
    ensures b != a
  {
  }

  // The tracker

  /** What happened, in order: a viewer was recorded, or a boundary was detected and the
      given viewers handed over. */
  datatype Entry = Recorded(viewer: string) | Detected(boundary: Boundary, viewers: set<string>)

  /** No boundary was detected strictly between i and j. */
  predicate Between(log: seq<Entry>, i: nat, j: nat) {
    forall k :: i < k < j && k < |log| ==> log[k].Recorded?
  }

  ghost predicate RecordedSince(log: seq<Entry>, j: nat, viewer: string)
    requires j <= |log|
  {
    exists i :: 0 <= i < j && log[i] == Recorded(viewer) && Between(log, i, j)
  }

  /** Every boundary hands over exactly the viewers recorded since the one before it. */
  ghost predicate DeliveredAtFirst(log: seq<Entry>) {
    forall j :: 0 <= j < |log| && log[j].Detected? ==>
      forall v :: v in log[j].viewers <==> RecordedSince(log, j, v)
  }

  /** The boundaries, in order of detection. */
  function Detections(log: seq<Entry>): seq<Boundary> {
    if log == [] then []
    else
      var before := Detections(log[..|log| - 1]);
      match log[|log| - 1] { case Recorded(_) => before case Detected(b, _) => before + [b] }
  }

  /** What the observer was told: the boundaries with somebody to view them. */
  function Reports(log: seq<Entry>): seq<(Boundary, set<string>)> {
    if log == [] then []
    else
      var before := Reports(log[..|log| - 1]);
      match log[|log| - 1]
      case Recorded(_) => before
      case Detected(b, viewers) => if viewers == {} then before else before + [(b, viewers)]
  }

  ghost predicate Successive(boundaries: seq<Boundary>) {
    forall i :: 0 < i < |boundaries| ==> Follows(boundaries[i], boundaries[i - 1])
  }

  predicate NotBefore(round: int, turn: int, thanRound: int, thanTurn: int) {
    !Later(thanRound, thanTurn, round, turn)
  }

  ghost predicate ClockRuns(boundaries: seq<Boundary>) {
    forall i, j :: 0 <= i < j < |boundaries| ==>
      NotBefore(boundaries[j].round, boundaries[j].turn, boundaries[i].round, boundaries[i].turn)
  }

  /** When the clock never goes back, planning boundaries have increasing (round, turn). */
  lemma PlanningAscends(boundaries: seq<Boundary>, i: nat, j: nat)
    requires Successive(boundaries) && ClockRuns(boundaries)
    requires i < j < |boundaries| && boundaries[j].PlanningReady?
    ensures Later(boundaries[j].round, boundaries[j].turn, boundaries[i].round, boundaries[i].turn)
  {
    assert Follows(boundaries[j], boundaries[j - 1]);
    if i < j - 1 {
      assert NotBefore(boundaries[j - 1].round, boundaries[j - 1].turn, boundaries[i].round, boundaries[i].turn);
    }
  }

  lemma RecordedSnoc(log: seq<Entry>, e: Entry, j: nat, v: string)
    requires j <= |log|
    ensures RecordedSince(log + [e], j, v) <==> RecordedSince(log, j, v)
  {
    var more := log + [e];
    if RecordedSince(log, j, v) {
      var i :| 0 <= i < j && log[i] == Recorded(v) && Between(log, i, j);
      assert more[i] == log[i] && Between(more, i, j);
    }
    if RecordedSince(more, j, v) {
      var i :| 0 <= i < j && more[i] == Recorded(v) && Between(more, i, j);
      forall k | i < k < j && k < |log| ensures log[k].Recorded? {
        assert more[k].Recorded?;
      }
      assert log[i] == more[i] && Between(log, i, j);
    }
  }

  /** The viewers recorded since the last detection, after one more entry. */
  lemma SinceSnoc(log: seq<Entry>, e: Entry, v: string)
    ensures RecordedSince(log + [e], |log| + 1, v) <==>
              match e { case Recorded(w) => v == w || RecordedSince(log, |log|, v) case Detected(_, _) => false }
  {
    var more, n := log + [e], |log|;
    if RecordedSince(more, n + 1, v) {
      var i :| 0 <= i < n + 1 && more[i] == Recorded(v) && Between(more, i, n + 1);
      if i < n {
        assert more[n].Recorded?;
        forall k | i < k < n ensures log[k].Recorded? {
          assert more[k].Recorded?;
        }
        assert log[i] == Recorded(v) && Between(log, i, n);
      }
    }
    if e.Recorded? {
      if v == e.viewer {
        assert more[n] == Recorded(v) && Between(more, n, n + 1);
      }
      if RecordedSince(log, n, v) {
        var i :| 0 <= i < n && log[i] == Recorded(v) && Between(log, i, n);
        assert more[i] == Recorded(v) && Between(more, i, n + 1);
      }
    }
  }

  lemma RecordedOneMore(log: seq<Entry>, viewer: string)
    ensures var more := log + [Recorded(viewer)];
            forall v :: RecordedSince(more, |more|, v) <==> v == viewer || RecordedSince(log, |log|, v)
  {
    var more := log + [Recorded(viewer)];
    forall v ensures RecordedSince(more, |more|, v) <==> v == viewer || RecordedSince(log, |log|, v) {
      SinceSnoc(log, Recorded(viewer), v);
    }
  }

  /** Right after a detection nobody is waiting to be told. */
  lemma NothingSince(log: seq<Entry>)
    requires log != [] && log[|log| - 1].Detected?
    ensures forall v :: !RecordedSince(log, |log|, v)
  {
    forall v, i | 0 <= i < |log| && log[i] == Recorded(v) ensures !Between(log, i, |log|) {
      assert i < |log| - 1 < |log| && !log[|log| - 1].Recorded?;
    }
  }

  lemma SuccessiveSnoc(boundaries: seq<Boundary>, b: Boundary)
    requires Successive(boundaries) && (boundaries != [] ==> Follows(b, boundaries[|boundaries| - 1]))
    ensures Successive(boundaries + [b])
  {
  }

  lemma ReachedIsDetected(s: State, t: State)
    requires Reached(Capture(s), t).Some?
    ensures var b := Reached(Capture(s), t).value;
            Detect(t) == Some(b) && (Detect(s).Some? ==> Follows(b, Detect(s).value))
  {
    if Detect(s).Some? {
      ReachedIffFollows(s, t, Reached(Capture(s), t).value);
    }
  }

  lemma DeliveredSnoc(log: seq<Entry>, e: Entry)
    requires DeliveredAtFirst(log)
    requires e.Detected? ==> forall v :: v in e.viewers <==> RecordedSince(log, |log|, v)
    ensures DeliveredAtFirst(log + [e])
  {
    var more := log + [e];
    forall j, v | 0 <= j < |more| && more[j].Detected?
      ensures v in more[j].viewers <==> RecordedSince(more, j, v)
    {
      RecordedSnoc(log, e, j, v);
      assert j < |log| ==> more[j] == log[j];
    }
  }

  /** Detections and reports keep the log's order: each entry's own stands where those of the
      entries before it end, and only a boundary with viewers is reported. */
  lemma {:induction false} ReportsMeans(log: seq<Entry>, j: nat)
    requires j < |log|
    ensures var at := |Detections(log[..j])|;
            log[j].Detected? ==> at < |Detections(log)| && Detections(log)[at] == log[j].boundary
    ensures var at := |Reports(log[..j])|;
            log[j].Detected? && log[j].viewers != {} ==>
              at < |Reports(log)| && Reports(log)[at] == (log[j].boundary, log[j].viewers)
  {
    var n := |log| - 1;
    if j < n {
      ReportsMeans(log[..n], j);
      assert log[..n][..j] == log[..j];
    }
  }

  lemma {:induction false} OnlyDetectedIsReported(log: seq<Entry>)
    ensures forall b <- Detections(log) :: exists e <- log :: e.Detected? && e.boundary == b
    ensures forall r <- Reports(log) :: r.1 != {} && Detected(r.0, r.1) in log
  {
    if log != [] {
      var n := |log| - 1;
      OnlyDetectedIsReported(log[..n]);
      assert log == log[..n] + [log[n]];
      forall b <- Detections(log) ensures exists e <- log :: e.Detected? && e.boundary == b {
        if b in Detections(log[..n]) {
          var e :| e in log[..n] && e.Detected? && e.boundary == b;
          assert e in log;
        } else {
          assert log[n] in log;
        }
      }
    }
  }

  /** The viewers recorded, in order. */
  function Recordings(log: seq<Entry>): seq<string> {
    if log == [] then []
    else Recordings(log[..|log| - 1]) + match log[|log| - 1] { case Recorded(v) => [v] case Detected(_, _) => [] }
  }

  function Given(owners: seq<Option<string>>): seq<string> {
    if owners == [] then []
    else Given(owners[..|owners| - 1]) + match owners[|owners| - 1] { case Some(v) => [v] case None => [] }
  }

  /** What a tracker has seen: the state its anchor was captured in, the viewers recorded since
      the last boundary, and what happened so far. */
  datatype Tracking = Tracking(anchored: State, waiting: set<string>, log: seq<Entry>)

  function AfterRecord(t: Tracking, viewer: string): Tracking {
    Tracking(t.anchored, t.waiting + {viewer}, t.log + [Recorded(viewer)])
  }

  function AfterObserve(t: Tracking, s: State): Tracking {
    match Reached(Capture(t.anchored), s)
    case None => t
    case Some(b) => Tracking(s, {}, t.log + [Detected(b, t.waiting)])
  }

  /** Following a game from its first state: before each further state a decision owner may
      be recorded. */
  function Tracked(first: State, owners: seq<Option<string>>, states: seq<State>): Tracking
    requires |owners| == |states|
  {
    if states == [] then Tracking(first, {}, [])
    else
      var n := |states| - 1;
      var before := Tracked(first, owners[..n], states[..n]);
      AfterObserve(if owners[n].Some? then AfterRecord(before, owners[n].value) else before, states[n])
  }

  /** Every decision owner of the game is recorded, in order, and only they are. */
  lemma {:induction false} OwnersAreRecorded(first: State, owners: seq<Option<string>>, states: seq<State>)
    requires |owners| == |states|
    ensures Recordings(Tracked(first, owners, states).log) == Given(owners)
  {
    hide Reached;
    if states != [] {
      var n := |states| - 1;
      OwnersAreRecorded(first, owners[..n], states[..n]);
      var before := Tracked(first, owners[..n], states[..n]);
      if owners[n].Some? {
        RecordedLast(before.log, Recorded(owners[n].value));
      }
      var t := if owners[n].Some? then AfterRecord(before, owners[n].value) else before;
      var reached := Reached(Capture(t.anchored), states[n]);
      if reached.Some? {
        RecordedLast(t.log, Detected(reached.value, t.waiting));
      }
    }
  }

  lemma RecordedLast(log: seq<Entry>, e: Entry)
    ensures Recordings(log + [e]) == Recordings(log) + match e { case Recorded(v) => [v] case Detected(_, _) => [] }
  {
    assert (log + [e])[..|log|] == log;
  }

  /** What one observed state adds: the boundary it shows, if that is reached from the state
      the tracker last started from, with the viewers waiting since. */
  lemma ObservedMeans(t: Tracking, s: State, b: Boundary)
    ensures AfterObserve(t, s) == Tracking(s, {}, t.log + [Detected(b, t.waiting)]) <==>
              && Detect(s) == Some(b)
              && (|| t.anchored.round < s.round || (t.anchored.round == s.round && t.anchored.turn < s.turn)
                  || (b.ActorReady? && (t.anchored.phase == Planning || t.anchored.owner != Some(b.actor)))
                  || (b.PlanningReady? && t.anchored.phase != Planning && t.anchored.owner == None))
    ensures AfterObserve(t, s) == t
            || exists b :: AfterObserve(t, s) == Tracking(s, {}, t.log + [Detected(b, t.waiting)])
  {
    hide Reached, Detect;
    ReachedMeans(Capture(t.anchored), s, b);
    if Reached(Capture(t.anchored), s).Some? {
      var c := Reached(Capture(t.anchored), s).value;
      assert AfterObserve(t, s) == Tracking(s, {}, t.log + [Detected(c, t.waiting)]);
      assert (t.log + [Detected(c, t.waiting)])[|t.log|].boundary == c;
      assert (t.log + [Detected(b, t.waiting)])[|t.log|].boundary == b;
    }
  }

  /** What every step keeps. */
  ghost predicate Lawful(t: Tracking) {
    var found := Detections(t.log);
    && (forall v :: v in t.waiting <==> RecordedSince(t.log, |t.log|, v))
    && DeliveredAtFirst(t.log) && Successive(found)
    && (found != [] ==> Detect(t.anchored) == Some(found[|found| - 1]))
  }

  lemma RecordKeepsLawful(t: Tracking, viewer: string)
    requires Lawful(t)
    ensures Lawful(AfterRecord(t, viewer))
    ensures Detections(AfterRecord(t, viewer).log) == Detections(t.log)
  {
    hide RecordedSince;
    RecordedOneMore(t.log, viewer);
    DeliveredSnoc(t.log, Recorded(viewer));
    LogSnoc(t.log, Recorded(viewer));
  }

  lemma ObserveKeepsLawful(t: Tracking, s: State)
    requires Lawful(t)
    ensures Lawful(AfterObserve(t, s))
    ensures Detections(AfterObserve(t, s).log) == Detections(t.log) + match Reached(Capture(t.anchored), s)
              { case None => [] case Some(b) => [b] }
  {
    hide RecordedSince, Detect, Reached, Follows, DeliveredAtFirst;
    var reached := Reached(Capture(t.anchored), s);
    if reached.Some? {
      var entry := Detected(reached.value, t.waiting);
      ReachedIsDetected(t.anchored, s);
      DeliveredSnoc(t.log, entry);
      LogSnoc(t.log, entry);
      NothingSince(t.log + [entry]);
      SuccessiveSnoc(Detections(t.log), reached.value);
    }
  }

  /** Once a boundary was found, a state is logged exactly when it shows one that may follow. */
  lemma ObservedIffFollows(t: Tracking, s: State)
    requires Lawful(t) && Detections(t.log) != []
    ensures var found := Detections(t.log);
            AfterObserve(t, s) != t <==> Detect(s).Some? && Follows(Detect(s).value, found[|found| - 1])
  {
    var last := Detect(t.anchored).value;
    if Detect(s).Some? {
      ReachedIffFollows(t.anchored, s, Detect(s).value);
    }
    if AfterObserve(t, s) != t {
      ReachedIsDetected(t.anchored, s);
    }
  }

  /** The clock of the observed states never goes back. */
  ghost predicate ClockForward(states: seq<State>) {
    forall i, j :: 0 <= i < j < |states| ==> NotBefore(states[j].round, states[j].turn, states[i].round, states[i].turn)
  }

  /** All boundaries so far lie before the states from n on. */
  ghost predicate AllBefore(boundaries: seq<Boundary>, states: seq<State>, n: nat) {
    forall i, k :: 0 <= i < |boundaries| && n <= k < |states| ==>
      NotBefore(states[k].round, states[k].turn, boundaries[i].round, boundaries[i].turn)
  }

  lemma {:induction false} TrackedIsLawful(first: State, owners: seq<Option<string>>, states: seq<State>, n: nat)
    requires |owners| == |states| && n <= |states|
    ensures var t := Tracked(first, owners[..n], states[..n]);
            && Lawful(t)
            && (ClockForward(states) ==> ClockRuns(Detections(t.log)) && AllBefore(Detections(t.log), states, n))
  {
    hide Lawful, AfterObserve, Reached, ClockForward, ClockRuns, AllBefore;
    if n == 0 {
      StartIsLawful(first, states);
    } else {
      var m := n - 1;
      assert owners[..n][..m] == owners[..m] && states[..n][..m] == states[..m];
      TrackedIsLawful(first, owners, states, m);
      var before := Tracked(first, owners[..m], states[..m]);
      StepIsLawful(before, owners[m], states, m);
    }
  }

  lemma StartIsLawful(first: State, states: seq<State>)
    ensures Lawful(Tracking(first, {}, [])) && ClockRuns([]) && AllBefore([], states, 0)
    ensures Detections(Tracking(first, {}, []).log) == []
  {
  }

  lemma StepIsLawful(before: Tracking, owner: Option<string>, states: seq<State>, n: nat)
    requires Lawful(before) && n < |states|
    requires ClockForward(states) ==> ClockRuns(Detections(before.log)) && AllBefore(Detections(before.log), states, n)
    ensures var t := AfterObserve(if owner.Some? then AfterRecord(before, owner.value) else before, states[n]);
            && Lawful(t)
            && (ClockForward(states) ==> ClockRuns(Detections(t.log)) && AllBefore(Detections(t.log), states, n + 1))
  {
    hide Lawful, Detect, Reached, ClockForward, ClockRuns;
    if owner.Some? {
      RecordKeepsLawful(before, owner.value);
    }
    var t := if owner.Some? then AfterRecord(before, owner.value) else before;
    ObserveKeepsLawful(t, states[n]);
    var reached := Reached(Capture(t.anchored), states[n]);
    if reached.Some? {
      ReachedIsDetected(t.anchored, states[n]);
      if ClockForward(states) {
        ClockSnoc(Detections(t.log), states, n, reached.value);
      }
    }
  }

  /** Over a whole game, whatever is recorded and observed: consecutive boundaries differ, every
      viewer is handed over at the first boundary after it was recorded, and with a forward
      clock planning boundaries have strictly increasing (round, turn). */
  lemma WholeGame(first: State, owners: seq<Option<string>>, states: seq<State>)
    requires |owners| == |states|
    ensures var log := Tracked(first, owners, states).log;
            var found := Detections(log);
            && (forall i :: 0 < i < |found| ==> found[i] != found[i - 1])
            && DeliveredAtFirst(log)
            && (ClockForward(states) ==>
                  forall i, j :: 0 <= i < j < |found| && found[j].PlanningReady? ==>
                    || found[i].round < found[j].round
                    || (found[i].round == found[j].round && found[i].turn < found[j].turn))
  {
    var n := |states|;
    assert owners[..n] == owners && states[..n] == states;
    TrackedIsLawful(first, owners, states, n);
    var found := Detections(Tracked(first, owners, states).log);
    forall i | 0 < i < |found| ensures found[i] != found[i - 1] {
      FollowsDiffers(found[i], found[i - 1]);
    }
    if ClockForward(states) {
      forall i, j | 0 <= i < j < |found| && found[j].PlanningReady?
        ensures Later(found[j].round, found[j].turn, found[i].round, found[i].turn)
      {
        PlanningAscends(found, i, j);
      }
    }
  }

  class StableBoundaryTracker {
    var anchor: Anchor
    var viewers: set<string>
    var reported: seq<(Boundary, set<string>)>  // calls of the observer
    ghost var log: seq<Entry>
    ghost var anchored: State                   // the state the anchor was captured in

    ghost function Track(): Tracking
      reads this
    {
      Tracking(anchored, viewers, log)
    }

    ghost predicate Valid()
      reads this
    {
      anchor == Capture(anchored) && reported == Reports(log) && Lawful(Track())
    }

    constructor (s: State)
      ensures Valid() && Track() == Tracking(s, {}, [])
    {
      anchor, viewers, reported := Capture(s), {}, [];
      log, anchored := [], s;
      new;
      StartIsLawful(s, []);
    }

    method RecordViewer(hero: string)
      requires Valid()
      modifies this
      ensures Valid() && Track() == AfterRecord(old(Track()), hero)
    {
      hide Lawful;
      RecordKeepsLawful(Track(), hero);
      LogSnoc(log, Recorded(hero));
      viewers := viewers + {hero};
      log := log + [Recorded(hero)];
    }

    /** Look at a state: report a boundary beyond the anchor and start over from it. */
    method Observe(s: State)
      requires Valid()
      modifies this
      ensures Valid() && Track() == AfterObserve(old(Track()), s)
    {
      hide Lawful, Reached;
      ObserveKeepsLawful(Track(), s);
      var boundary := Reached(anchor, s);
      if boundary.Some? {
        LogSnoc(log, Detected(boundary.value, viewers));
        log, anchored := log + [Detected(boundary.value, viewers)], s;
        StartOver(s, boundary.value);
      }
    }

    /** Take the boundary's state as the next anchor and hand the viewers over. */
    method StartOver(s: State, b: Boundary)
      modifies `anchor, `viewers, `reported
      ensures anchor == Capture(s) && viewers == {}
      ensures reported == old(reported) + if old(viewers) == {} then [] else [(b, old(viewers))]
    {
      var handed := viewers;
      anchor, viewers := Capture(s), {};
      if handed != {} {
        reported := reported + [(b, handed)];
      }
    }
  }

  /** Follow a whole game: the tracker has seen exactly that game, and its observer was told of
      the boundaries that had viewers. */
  method TrackGame(first: State, owners: seq<Option<string>>, states: seq<State>)
    returns (tracker: StableBoundaryTracker)
    requires |owners| == |states|
    ensures fresh(tracker) && tracker.Valid()
    ensures tracker.Track() == Tracked(first, owners, states)
    ensures tracker.reported == Reports(Tracked(first, owners, states).log)
  {
    hide Lawful, AfterObserve;
    tracker := new StableBoundaryTracker(first);
    for n := 0 to |states|
      invariant fresh(tracker) && tracker.Valid()
      invariant tracker.Track() == Tracked(first, owners[..n], states[..n])
    {
      assert owners[..n + 1][..n] == owners[..n] && states[..n + 1][..n] == states[..n];
      if owners[n].Some? {
        tracker.RecordViewer(owners[n].value);
      }
      tracker.Observe(states[n]);
    }
    assert owners[..|states|] == owners && states[..|states|] == states;
  }

  lemma ClockSnoc(boundaries: seq<Boundary>, states: seq<State>, n: nat, b: Boundary)
    requires ClockForward(states) && ClockRuns(boundaries) && AllBefore(boundaries, states, n)
    requires n < |states| && Detect(states[n]) == Some(b)
    ensures ClockRuns(boundaries + [b]) && AllBefore(boundaries + [b], states, n + 1)
  {
    var more := boundaries + [b];
    assert b.round == states[n].round && b.turn == states[n].turn;
    forall i, j | 0 <= i < j < |more| ensures NotBefore(more[j].round, more[j].turn, more[i].round, more[i].turn) {
      if j == |boundaries| {
        assert NotBefore(states[n].round, states[n].turn, boundaries[i].round, boundaries[i].turn);
      }
    }
  }

  lemma LogSnoc(log: seq<Entry>, e: Entry)
    ensures Detections(log + [e]) == Detections(log) + match e { case Recorded(_) => [] case Detected(b, _) => [b] }
    ensures Reports(log + [e]) == Reports(log) + match e
              { case Recorded(_) => [] case Detected(b, viewers) => if viewers == {} then [] else [(b, viewers)] }
  {
    assert (log + [e])[..|log|] == log;
  }
}
